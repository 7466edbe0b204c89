/** Typed values and the byte layout that the CDR encoder and decoder give them.

    `Encode` and `Decode` are reference functions: positions are counted from
    the alignment origin, and the alignment of every datum is computed from the
    position alone. The imperative codec, with its cached data size and its
    back-patched DHEADERs, is proved against them in CdrCodec.dfy. */
module CdrSpec {
  import opened Basics

  type Byte = b: int | 0 <= b < 256

  datatype Width = W1 | W2 | W4 | W8 {
    function Bytes(): Positive {
      match this case W1 => 1 case W2 => 2 case W4 => 4 case W8 => 8
    }
  }

  /** The C++ types that are modelled: scalars, std::vector, std::array, std::map and optional. */
  datatype Type =
    | Prim(width: Width)
    | Seq(elem: Type)
    | Arr(elem: Type, size: Positive)
    | Map(key: Type, val: Type)
    | Opt(elem: Type)

  /** A word holds the bytes of a scalar in host order; a table lists a map in iteration order. */
  datatype Value =
    | Word(raw: seq<Byte>)
    | List(items: seq<Value>)
    | Table(keys: seq<Value>, vals: seq<Value>)
    | Absent
    | Present(inner: Value)

  /** `mutable` is set while the current encoding is PL_CDR2, whose optionals carry no presence flag. */
  datatype Version = XCDRv1 | XCDRv2(mutable: bool) {
    predicate Flagged() { XCDRv2? && !mutable }
  }

  datatype Endianness = Big | Little

  /** `swap` is set when the stream's endianness differs from the host's. */
  datatype Config = Config(version: Version, swap: bool, host: Endianness)

  datatype Error = NotEnoughMemory | BadParam

  datatype Result<+T> = Ok(value: T, end: nat) | Err(error: Error)

  ghost predicate Distinct<T>(s: seq<T>) {
    forall i, j :: 0 <= i < j < |s| ==> s[i] != s[j]
  }

  ghost predicate Typed(ty: Type, v: Value)
    decreases ty, 0
  {
    match ty
    case Prim(w) => v.Word? && |v.raw| == w.Bytes()
    case Seq(e) => v.List? && AllTyped(e, v.items)
    case Arr(e, n) => v.List? && |v.items| == n && AllTyped(e, v.items)
    case Map(k, e) =>
      v.Table? && |v.keys| == |v.vals| && Distinct(v.keys) && AllTyped(k, v.keys) && AllTyped(e, v.vals)
    case Opt(e) => v.Absent? || (v.Present? && Typed(e, v.inner))
  }

  ghost predicate AllTyped(ty: Type, vs: seq<Value>)
    decreases ty, 1
  {
    forall i :: 0 <= i < |vs| ==> Typed(ty, vs[i])
  }

  /** What a value-initialised object of the type holds. */
  function Default(ty: Type): Value
    decreases ty
  {
    match ty
    case Prim(w) => Word(seq(w.Bytes(), _ => 0))
    case Seq(_) => List([])
    case Arr(e, n) => List(Repeat(Default(e), n))
    case Map(_, _) => Table([], [])
    case Opt(_) => Absent
  }

  function Repeat<T>(x: T, n: nat): (r: seq<T>)
    ensures |r| == n && forall i :: 0 <= i < n ==> r[i] == x
  {
    seq(n, _ => x)
  }

  // ---------------------------------------------------------------- alignment and words

  /** Types of 64 bits align to 8 in XCDRv1 and to 4 in XCDRv2. */
  function AlignOf(version: Version, w: Width): Width {
    if w.W8? && version.XCDRv2? then W4 else w
  }

  /** The bytes from `pos` up to the next multiple of the width. */
  function PadLen(pos: nat, w: Width): nat {
    match w
    case W1 => 0
    case W2 => if pos % 2 == 0 then 0 else 1
    case W4 => if pos % 4 == 0 then 0 else 4 - pos % 4
    case W8 => if pos % 8 == 0 then 0 else 8 - pos % 8
  }

  lemma Multiple2(k: int) ensures 2 * k % 2 == 0 {}
  lemma Multiple4(k: int) ensures 4 * k % 4 == 0 {}
  lemma Multiple8(k: int) ensures 8 * k % 8 == 0 {}

  /** After a 32-bit word the position is a multiple of 4. */
  lemma WordAligns(pos: nat)
    ensures (pos + PadLen(pos, W4) + 4) % 4 == 0
  {
    var words := if pos % 4 == 0 then pos / 4 + 1 else pos / 4 + 2;
    Multiple4(words);
    assert pos + PadLen(pos, W4) + 4 == 4 * words;
  }

  function Reverse<T>(s: seq<T>): (r: seq<T>)
    ensures |r| == |s|
  {
    seq(|s|, i requires 0 <= i < |s| => s[|s| - 1 - i])
  }

  function Ordered(cfg: Config, raw: seq<Byte>): (r: seq<Byte>)
    ensures |r| == |raw|
  {
    if cfg.swap then Reverse(raw) else raw
  }

  lemma OrderedTwice(cfg: Config, raw: seq<Byte>)
    ensures Ordered(cfg, Ordered(cfg, raw)) == raw
  {
  }

  const TWO32: nat := 0x1_0000_0000

  /** The bytes on the host of a length cast to a 32-bit word. */
  function U32(host: Endianness, n: nat): (r: seq<Byte>)
    ensures |r| == 4
  {
    var low: seq<Byte> := [n % 256, n / 256 % 256, n / 256 / 256 % 256, n / 256 / 256 / 256 % 256];
    if host.Little? then low else [low[3], low[2], low[1], low[0]]
  }

  function Val32(host: Endianness, raw: seq<Byte>): nat
    requires |raw| == 4
  {
    var low := if host.Little? then raw else [raw[3], raw[2], raw[1], raw[0]];
    low[0] as int + 256 * (low[1] as int + 256 * (low[2] as int + 256 * (low[3] as int)))
  }

  lemma Val32U32(host: Endianness, n: nat)
    requires n < TWO32
    ensures Val32(host, U32(host, n)) == n
  {
  }

  /** Padding is skipped, never written: it keeps whatever `pre` holds there. */
  function Pad(pos: nat, n: nat, pre: seq<Byte>): (r: seq<Byte>)
    ensures |r| == n
  {
    seq(n, i requires 0 <= i < n => if pos + i < |pre| then pre[pos + i] else 0)
  }

  function EncWord(cfg: Config, w: Width, raw: seq<Byte>, pos: nat, pre: seq<Byte>): (r: seq<Byte>)
    ensures |r| == PadLen(pos, AlignOf(cfg.version, w)) + |raw|
  {
    Pad(pos, PadLen(pos, AlignOf(cfg.version, w)), pre) + Ordered(cfg, raw)
  }

  function Enc32(cfg: Config, n: nat, pos: nat, pre: seq<Byte>): (r: seq<Byte>)
    ensures |r| == PadLen(pos, W4) + 4
  {
    EncWord(cfg, W4, U32(cfg.host, n), pos, pre)
  }

  function DecWord(cfg: Config, w: Width, buf: seq<Byte>, pos: nat): (r: Result<seq<Byte>>)
    ensures r.Ok? ==> |r.value| == w.Bytes() && r.end == pos + PadLen(pos, AlignOf(cfg.version, w)) + w.Bytes() <= |buf|
  {
    var p := pos + PadLen(pos, AlignOf(cfg.version, w));
    if p + w.Bytes() <= |buf| then Ok(Ordered(cfg, buf[p..p + w.Bytes()]), p + w.Bytes()) else Err(NotEnoughMemory)
  }

  function Dec32(cfg: Config, buf: seq<Byte>, pos: nat): (r: Result<nat>)
    ensures r.Ok? ==> r.end == pos + PadLen(pos, W4) + 4 <= |buf|
  {
    match DecWord(cfg, W4, buf, pos)
    case Ok(raw, end) => Ok(Val32(cfg.host, raw), end)
    case Err(e) => Err(e)
  }

  // ---------------------------------------------------------------- which containers carry a DHEADER

  /** is_multi_array_primitive: an array, of any number of dimensions, of scalars. */
  predicate PrimArr(ty: Type)
    decreases ty
  {
    ty.Arr? && (ty.elem.Prim? || PrimArr(ty.elem))
  }

  /** XCDRv2 puts a DHEADER before vectors and maps of non-primitives and before arrays of them. */
  predicate Delimited(cfg: Config, ty: Type) {
    cfg.version.XCDRv2? &&
    match ty
    case Seq(e) => !e.Prim?
    case Map(_, e) => !e.Prim?
    case Arr(_, _) => !PrimArr(ty)
    case _ => false
  }

  // ---------------------------------------------------------------- encoding

  function Encode(cfg: Config, ty: Type, v: Value, pos: nat, pre: seq<Byte>): (r: seq<Byte>)
    requires Typed(ty, v)
    decreases ty, 2, 0
  {
    match ty
    case Prim(w) => EncWord(cfg, w, v.raw, pos, pre)
    case Opt(e) =>
      var flag: seq<Byte> := if cfg.version.Flagged() then [if v.Present? then 1 else 0] else [];
      if v.Absent? then flag else flag + Encode(cfg, e, v.inner, pos + |flag|, pre)
    case _ =>
      if Delimited(cfg, ty) then
        var body := EncBody(cfg, ty, v, pos + PadLen(pos, W4) + 4, pre);
        Enc32(cfg, |body|, pos, pre) + body
      else
        EncBody(cfg, ty, v, pos, pre)
  }

  /** The content of a container, without its DHEADER. */
  function EncBody(cfg: Config, ty: Type, v: Value, pos: nat, pre: seq<Byte>): (r: seq<Byte>)
    requires ty.Seq? || ty.Arr? || ty.Map?
    requires Typed(ty, v)
    decreases ty, 1, 0
  {
    match ty
    case Seq(e) => Enc32(cfg, |v.items|, pos, pre) + EncItems(cfg, e, v.items, |v.items|, pos + PadLen(pos, W4) + 4,
        pre)
    case Arr(e, n) => EncItems(cfg, e, v.items, n, pos, pre)
    case Map(k, e) =>
      Enc32(cfg, |v.keys|, pos, pre) + EncEntries(cfg, k, e, v.keys, v.vals, |v.keys|, pos + PadLen(pos, W4) + 4, pre)
  }

  /** serialize_array on the first `n` elements. */
  function EncItems(cfg: Config, e: Type, items: seq<Value>, n: nat, pos: nat, pre: seq<Byte>): (r: seq<Byte>)
    requires n <= |items| && AllTyped(e, items)
    decreases e, 4, n
  {
    if n == 0 then []
    else
      var front := EncItems(cfg, e, items, n - 1, pos, pre);
      front + EncItem(cfg, e, items[n - 1], pos + |front|, pre)
  }

  /** An array met as the element of another container is flattened: it gets no DHEADER of its own. */
  function EncItem(cfg: Config, e: Type, v: Value, pos: nat, pre: seq<Byte>): (r: seq<Byte>)
    requires Typed(e, v)
    decreases e, 3, 0
  {
    if e.Arr? then EncItems(cfg, e.elem, v.items, e.size, pos, pre) else Encode(cfg, e, v, pos, pre)
  }

  function EncEntries(cfg: Config, k: Type, e: Type, keys: seq<Value>, vals: seq<Value>, n: nat, pos: nat,
                      pre: seq<Byte>)
    : (r: seq<Byte>)
    requires n <= |keys| == |vals| && AllTyped(k, keys) && AllTyped(e, vals)
    decreases Map(k, e), 0, n
  {
    if n == 0 then []
    else
      var front := EncEntries(cfg, k, e, keys, vals, n - 1, pos, pre);
      var kb := Encode(cfg, k, keys[n - 1], pos + |front|, pre);
      front + kb + Encode(cfg, e, vals[n - 1], pos + |front| + |kb|, pre)
  }

  // ---------------------------------------------------------------- decoding into a fresh target

  function Decode(cfg: Config, ty: Type, buf: seq<Byte>, pos: nat): (r: Result<Value>)
    decreases ty, 2, 0
  {
    match ty
    case Prim(w) =>
      (match DecWord(cfg, w, buf, pos)
       case Ok(raw, end) => Ok(Word(raw), end)
       case Err(x) => Err(x))
    case Opt(e) =>
      if !cfg.version.Flagged() then DecPresent(Decode(cfg, e, buf, pos))
      else if |buf| <= pos then Err(NotEnoughMemory)
      else if buf[pos] == 0 then Ok(Absent, pos + 1)
      else if buf[pos] == 1 then DecPresent(Decode(cfg, e, buf, pos + 1))
      else Err(BadParam)
    case _ =>
      if Delimited(cfg, ty) then
        match Dec32(cfg, buf, pos)
        case Err(x) => Err(x)
        case Ok(dheader, off) => DecDelimited(cfg, ty, dheader, off, buf)
      else
        DecPlain(cfg, ty, buf, pos)
  }

  function DecPresent(r: Result<Value>): Result<Value> {
    if r.Ok? then Ok(Present(r.value), r.end) else r
  }

  /** A container whose content must fill exactly the `dheader` bytes from `off`. */
  function DecDelimited(cfg: Config, ty: Type, dheader: nat, off: nat, buf: seq<Byte>): (r: Result<Value>)
    requires ty.Seq? || ty.Arr? || ty.Map?
    decreases ty, 1, 1
  {
    match ty
    case Arr(e, n) => CheckSize(off + dheader, DecItems(cfg, e, true, Until(off + dheader), n, [], buf, off))
    case Seq(e) =>
      (match Dec32(cfg, buf, off)
       case Err(x) => Err(x)
       case Ok(len, p) =>
         if len == 0 then Ok(List([]), p)
         else CheckSize(off + dheader, DecItems(cfg, e, false, Until(off + dheader), len, [], buf, p)))
    case Map(k, e) =>
      (match Dec32(cfg, buf, off)
       case Err(x) => Err(x)
       case Ok(len, p) => CheckSize(off + dheader, DecEntries(cfg, k, e, Until(off + dheader), len, [], [], buf, p)))
  }

  function CheckSize(expected: nat, r: Result<Value>): Result<Value> {
    if r.Ok? && r.end != expected then Err(BadParam) else r
  }

  function DecPlain(cfg: Config, ty: Type, buf: seq<Byte>, pos: nat): (r: Result<Value>)
    requires ty.Seq? || ty.Arr? || ty.Map?
    decreases ty, 1, 0
  {
    match ty
    case Arr(e, n) => DecItems(cfg, e, true, Open, n, [], buf, pos)
    case Seq(e) =>
      (match Dec32(cfg, buf, pos)
       case Err(x) => Err(x)
       case Ok(len, p) =>
         if len == 0 then Ok(List([]), p)
         else if |buf| - p < len then Err(NotEnoughMemory)
         else DecItems(cfg, e, true, Open, len, [], buf, p))
    case Map(k, e) =>
      (match Dec32(cfg, buf, pos)
       case Err(x) => Err(x)
       case Ok(len, p) => DecEntries(cfg, k, e, Open, len, [], [], buf, p))
  }

  /** Whether a counted loop also stops at the end announced by a DHEADER. */
  datatype Limit = Open | Until(end: nat) {
    predicate Reached(pos: nat) { Until? && end <= pos }
  }

  /** `n` more elements after those in `done`; elements not reached before the limit keep their default.
      deserialize_array flattens elements that are arrays, deserialize does not. */
  function DecItems(cfg: Config, e: Type, flat: bool, limit: Limit, n: nat, done: seq<Value>, buf: seq<Byte>, pos: nat)
    : (r: Result<Value>)
    decreases e, 4, n
  {
    if n == 0 || limit.Reached(pos) then Ok(List(done + Repeat(Default(e), n)), pos)
    else
      match DecItem(cfg, e, flat, buf, pos)
      case Err(x) => Err(x)
      case Ok(v, p) => DecItems(cfg, e, flat, limit, n - 1, done + [v], buf, p)
  }

  function DecItem(cfg: Config, e: Type, flat: bool, buf: seq<Byte>, pos: nat): (r: Result<Value>)
    decreases e, 3, 0
  {
    if flat && e.Arr? then DecItems(cfg, e.elem, true, Open, e.size, [], buf, pos) else Decode(cfg, e, buf, pos)
  }

  /** std::map::emplace keeps the first value of a repeated key. */
  function DecEntries(cfg: Config, k: Type, e: Type, limit: Limit, n: nat, keys: seq<Value>, vals: seq<Value>,
                      buf: seq<Byte>, pos: nat) : (r: Result<Value>)
    decreases Map(k, e), 0, n
  {
    if n == 0 || limit.Reached(pos) then Ok(Table(keys, vals), pos)
    else
      match Decode(cfg, k, buf, pos)
      case Err(x) => Err(x)
      case Ok(key, p) =>
        match Decode(cfg, e, buf, p)
        case Err(x) => Err(x)
        case Ok(val, q) =>
          if key in keys then DecEntries(cfg, k, e, limit, n - 1, keys, vals, buf, q)
          else DecEntries(cfg, k, e, limit, n - 1, keys + [key], vals + [val], buf, q)
  }

  // ---------------------------------------------------------------- placing bytes in a buffer

  ghost predicate At(buf: seq<Byte>, pos: nat, bytes: seq<Byte>) {
    pos + |bytes| <= |buf| && buf[pos..pos + |bytes|] == bytes
  }

  lemma AtConcat(buf: seq<Byte>, pos: nat, a: seq<Byte>, b: seq<Byte>)
    ensures At(buf, pos, a + b) <==> At(buf, pos, a) && At(buf, pos + |a|, b)
  {
    if pos + |a| + |b| <= |buf| {
      var s := buf[pos..pos + |a + b|];
      assert s[..|a|] == buf[pos..pos + |a|];
      assert s[|a|..] == buf[pos + |a|..pos + |a| + |b|];
      assert (a + b)[..|a|] == a && (a + b)[|a|..] == b;
      assert s == s[..|a|] + s[|a|..];
    }
  }

  lemma FirstByte(buf: seq<Byte>, pos: nat, bytes: seq<Byte>)
    requires At(buf, pos, bytes) && 0 < |bytes|
    ensures buf[pos] == bytes[0]
  {
    assert buf[pos] == buf[pos..pos + |bytes|][0];
  }
}
