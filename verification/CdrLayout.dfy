/** The bytes of every encoding, from the front: where a DHEADER stands and where none does, what the words in front of
    a container say, and where each element starts. */
module CdrLayout {
  import opened Basics
  import opened CdrSpec
  import opened CdrByteOrder
  import opened CdrRoundTrip
  import opened CdrSize

  // ---------------------------------------------------------------- places

  /** The first multiple of `a` at or after the position. */
  function Above(pos: nat, a: Positive): nat {
    if pos % a == 0 then pos else pos + a - pos % a
  }

  /** Scalars stand on multiples of their size, but those of 64 bits on multiples of 4 in XCDRv2. */
  function Grid(version: Version, w: Width): Positive {
    if version.XCDRv2? && w == W8 then 4 else w.Bytes()
  }

  lemma PadReaches(version: Version, w: Width, pos: nat)
    ensures pos + PadLen(pos, AlignOf(version, w)) == Above(pos, Grid(version, w))
    ensures pos + PadLen(pos, W4) == Above(pos, 4)
  {
  }

  /** The bytes are padding up to a multiple of 4, a word that says `n`, and `rest`. */
  ghost predicate Announced(cfg: Config, bytes: seq<Byte>, pos: nat, n: nat, rest: seq<Byte>) {
    var gap := Above(pos, 4) - pos;
    gap + 4 <= |bytes| && Number(StreamOrder(cfg), bytes[gap..gap + 4]) == n % TWO32 && bytes[gap + 4..] == rest
  }

  lemma WordAnnounces(cfg: Config, n: nat, pos: nat, pre: seq<Byte>, rest: seq<Byte>)
    ensures Announced(cfg, Enc32(cfg, n, pos, pre) + rest, pos, n, rest)
  {
    hide Number, EncWord, U32, Enc32;
    var head := Enc32(cfg, n, pos, pre);
    PadReaches(cfg.version, W4, pos);
    EncodedLength(cfg, n, pos, pre);
    assert (head + rest)[|head| - 4..|head|] == head[|head| - 4..];
    assert (head + rest)[|head|..] == rest;
  }

  // ---------------------------------------------------------------- elements one directly after another

  /** The innermost type below all dimensions of an array. */
  function Core(ty: Type): Type
    decreases ty
  {
    if ty.Arr? then Core(ty.elem) else ty
  }

  lemma {:induction false} ScalarArrays(ty: Type)
    ensures PrimArr(ty) <==> ty.Arr? && Core(ty).Prim?
    decreases ty
  {
    if ty.Arr? { ScalarArrays(ty.elem); }
  }

  /** The elements of an array, of however many dimensions, in order. */
  function LeavesOf(ty: Type, v: Value): seq<Value>
    requires Typed(ty, v)
    decreases ty, 0, 0
  {
    if ty.Arr? then Leaves(ty.elem, v.items, |v.items|) else [v]
  }

  function Leaves(e: Type, items: seq<Value>, n: nat): seq<Value>
    requires n <= |items| && AllTyped(e, items)
    decreases e, 1, n
  {
    if n == 0 then [] else Leaves(e, items, n - 1) + LeavesOf(e, items[n - 1])
  }

  lemma {:induction false} LeafTyped(ty: Type, v: Value)
    requires Typed(ty, v)
    ensures AllTyped(Core(ty), LeavesOf(ty, v))
    decreases ty, 0, 0
  {
    hide Leaves, AllTyped;
    if ty.Arr? {
      ElementsTyped(ty, v);
      LeavesTyped(ty.elem, v.items, |v.items|);
    } else {
      OneTyped(ty, v);
    }
  }

  lemma ElementsTyped(ty: Type, v: Value)
    requires (ty.Arr? || ty.Seq?) && Typed(ty, v)
    ensures v.List? && AllTyped(ty.elem, v.items) && (ty.Arr? ==> |v.items| == ty.size)
  {
  }

  lemma OneTyped(ty: Type, v: Value)
    requires Typed(ty, v)
    ensures AllTyped(ty, [v])
  {
  }

  lemma {:induction false} LeavesTyped(e: Type, items: seq<Value>, n: nat)
    requires n <= |items| && AllTyped(e, items)
    ensures AllTyped(Core(e), Leaves(e, items, n))
    decreases e, 1, n
  {
    hide LeavesOf, Typed;
    if n > 0 {
      LeavesTyped(e, items, n - 1);
      LeafTyped(e, items[n - 1]);
    }
  }

  /** The elements of a vector of scalars are its leaves. */
  lemma {:induction false} LeavesOfPlain(e: Type, items: seq<Value>, n: nat)
    requires !e.Arr? && n <= |items| && AllTyped(e, items)
    ensures Leaves(e, items, n) == items[..n]
    decreases n
  {
    hide Typed;
    if n > 0 {
      LeavesOfPlain(e, items, n - 1);
      assert items[..n] == items[..n - 1] + [items[n - 1]];
    }
  }

  lemma AllTypedConcat(ty: Type, a: seq<Value>, b: seq<Value>)
    ensures AllTyped(ty, a) && AllTyped(ty, b) ==> AllTyped(ty, a + b)
    ensures AllTyped(ty, a) && a != [] ==> AllTyped(ty, a[1..]) && Typed(ty, a[0])
  {
    hide Typed;
  }

  /** Encodings one directly after another. */
  ghost function Row(cfg: Config, ty: Type, vs: seq<Value>, pos: nat, pre: seq<Byte>): seq<Byte>
    requires AllTyped(ty, vs)
    decreases |vs|
  {
    if vs == [] then []
    else
      var x := Encode(cfg, ty, vs[0], pos, pre);
      x + Row(cfg, ty, vs[1..], pos + |x|, pre)
  }

  lemma {:induction false} RowConcat(cfg: Config, ty: Type, a: seq<Value>, b: seq<Value>, pos: nat, pre: seq<Byte>)
    requires AllTyped(ty, a) && AllTyped(ty, b)
    ensures AllTyped(ty, a + b)
    ensures var x := Row(cfg, ty, a, pos, pre); Row(cfg, ty, a + b, pos, pre) == x + Row(cfg, ty, b, pos + |x|, pre)
    decreases |a|
  {
    hide Encode, Typed, Row, AllTyped;
    AllTypedConcat(ty, a, b);
    RowUnfold(cfg, ty, a, pos, pre);
    if a == [] {
      assert a + b == b;
    } else {
      RowConcat(cfg, ty, a[1..], b, pos + |Encode(cfg, ty, a[0], pos, pre)|, pre);
      assert (a + b)[1..] == a[1..] + b;
      RowUnfold(cfg, ty, a + b, pos, pre);
    }
  }

  lemma RowUnfold(cfg: Config, ty: Type, vs: seq<Value>, pos: nat, pre: seq<Byte>)
    requires AllTyped(ty, vs)
    ensures Row(cfg, ty, vs, pos, pre) ==
      if vs == [] then []
      else
        var x := Encode(cfg, ty, vs[0], pos, pre);
        x + Row(cfg, ty, vs[1..], pos + |x|, pre)
  {
    hide Encode;
  }

  lemma RowOfOne(cfg: Config, ty: Type, v: Value, pos: nat, pre: seq<Byte>)
    requires Typed(ty, v)
    ensures AllTyped(ty, [v]) && Row(cfg, ty, [v], pos, pre) == Encode(cfg, ty, v, pos, pre)
  {
    hide Encode;
    assert [v][1..] == [];
  }

  /** However deep arrays are nested, their elements follow one another without anything in between. */
  lemma {:induction false} ItemsInRow(cfg: Config, e: Type, items: seq<Value>, n: nat, pos: nat, pre: seq<Byte>)
    requires n <= |items| && AllTyped(e, items)
    ensures AllTyped(Core(e), Leaves(e, items, n))
    ensures EncItems(cfg, e, items, n, pos, pre) == Row(cfg, Core(e), Leaves(e, items, n), pos, pre)
    decreases e, 1, n
  {
    hide EncItem, LeavesOf, Typed, Encode;
    LeavesTyped(e, items, n);
    if n > 0 {
      ItemsInRow(cfg, e, items, n - 1, pos, pre);
      var front := EncItems(cfg, e, items, n - 1, pos, pre);
      ItemInRow(cfg, e, items[n - 1], pos + |front|, pre);
      RowConcat(cfg, Core(e), Leaves(e, items, n - 1), LeavesOf(e, items[n - 1]), pos, pre);
    }
  }

  lemma {:induction false} ItemInRow(cfg: Config, e: Type, v: Value, pos: nat, pre: seq<Byte>)
    requires Typed(e, v)
    ensures AllTyped(Core(e), LeavesOf(e, v))
    ensures EncItem(cfg, e, v, pos, pre) == Row(cfg, Core(e), LeavesOf(e, v), pos, pre)
    decreases e, 0, 0
  {
    hide Row, EncItems, Encode, AllTyped, Leaves;
    LeafTyped(e, v);
    if e.Arr? {
      ElementsTyped(e, v);
      ItemsInRow(cfg, e.elem, v.items, |v.items|, pos, pre);
    } else {
      RowOfOne(cfg, e, v, pos, pre);
    }
  }

  /** Keys and values in turn, one directly after another. */
  ghost function PairRow(cfg: Config, k: Type, e: Type, keys: seq<Value>, vals: seq<Value>, pos: nat, pre: seq<Byte>)
    : seq<Byte>
    requires |keys| == |vals| && AllTyped(k, keys) && AllTyped(e, vals)
    decreases |keys|
  {
    if keys == [] then []
    else
      var x := Encode(cfg, k, keys[0], pos, pre);
      var y := Encode(cfg, e, vals[0], pos + |x|, pre);
      x + y + PairRow(cfg, k, e, keys[1..], vals[1..], pos + |x| + |y|, pre)
  }

  lemma {:induction false} PairRowAppend(cfg: Config, k: Type, e: Type, keys: seq<Value>, vals: seq<Value>, key: Value,
                                         val: Value, pos: nat, pre: seq<Byte>)
    requires |keys| == |vals| && AllTyped(k, keys) && AllTyped(e, vals) && Typed(k, key) && Typed(e, val)
    ensures AllTyped(k, keys + [key]) && AllTyped(e, vals + [val])
    ensures var z := PairRow(cfg, k, e, keys, vals, pos, pre);
      var x := Encode(cfg, k, key, pos + |z|, pre);
      PairRow(cfg, k, e, keys + [key], vals + [val], pos, pre) == z + x + Encode(cfg, e, val, pos + |z| + |x|, pre)
    decreases |keys|
  {
    hide Encode, Typed, PairRow, AllTyped;
    OneTyped(k, key);
    OneTyped(e, val);
    AllTypedConcat(k, keys, [key]);
    AllTypedConcat(e, vals, [val]);
    PairRowUnfold(cfg, k, e, keys, vals, pos, pre);
    PairRowUnfold(cfg, k, e, keys + [key], vals + [val], pos, pre);
    if keys == [] {
      assert (keys + [key])[1..] == [] && (vals + [val])[1..] == [];
      var x := Encode(cfg, k, key, pos, pre);
      PairRowUnfold(cfg, k, e, [], [], pos + |x| + |Encode(cfg, e, val, pos + |x|, pre)|, pre);
    } else {
      PairRowFirst(cfg, k, e, keys, vals, key, val, pos, pre);
      var x := Encode(cfg, k, keys[0], pos, pre);
      var p := pos + |x| + |Encode(cfg, e, vals[0], pos + |x|, pre)|;
      PairRowAppend(cfg, k, e, keys[1..], vals[1..], key, val, p, pre);
      var z := PairRow(cfg, k, e, keys[1..], vals[1..], p, pre);
      var a := Encode(cfg, k, key, p + |z|, pre);
      Regroup(x + Encode(cfg, e, vals[0], pos + |x|, pre), z, a, Encode(cfg, e, val, p + |z| + |a|, pre));
    }
  }

  lemma Regroup(x: seq<Byte>, z: seq<Byte>, a: seq<Byte>, b: seq<Byte>)
    ensures x + (z + a + b) == x + z + a + b
  {
  }

  lemma PairRowFirst(cfg: Config, k: Type, e: Type, keys: seq<Value>, vals: seq<Value>, key: Value, val: Value,
                     pos: nat, pre: seq<Byte>)
    requires 0 < |keys| == |vals| && AllTyped(k, keys) && AllTyped(e, vals) && Typed(k, key) && Typed(e, val)
    ensures (keys + [key])[1..] == keys[1..] + [key] && (vals + [val])[1..] == vals[1..] + [val]
    ensures (keys + [key])[0] == keys[0] && (vals + [val])[0] == vals[0]
  {
  }

  lemma PairRowUnfold(cfg: Config, k: Type, e: Type, keys: seq<Value>, vals: seq<Value>, pos: nat, pre: seq<Byte>)
    requires |keys| == |vals| && AllTyped(k, keys) && AllTyped(e, vals)
    ensures PairRow(cfg, k, e, keys, vals, pos, pre) ==
      if keys == [] then []
      else
        var x := Encode(cfg, k, keys[0], pos, pre);
        var y := Encode(cfg, e, vals[0], pos + |x|, pre);
        x + y + PairRow(cfg, k, e, keys[1..], vals[1..], pos + |x| + |y|, pre)
  {
    hide Encode;
  }

  lemma {:induction false} EntriesInRow(cfg: Config, k: Type, e: Type, keys: seq<Value>, vals: seq<Value>, n: nat,
                                        pos: nat, pre: seq<Byte>)
    requires n <= |keys| == |vals| && AllTyped(k, keys) && AllTyped(e, vals)
    ensures AllTyped(k, keys[..n]) && AllTyped(e, vals[..n])
    ensures EncEntries(cfg, k, e, keys, vals, n, pos, pre) == PairRow(cfg, k, e, keys[..n], vals[..n], pos, pre)
    decreases n
  {
    hide Encode, Typed, EncEntries;
    EncEntriesUnfold(cfg, k, e, keys, vals, n, pos, pre);
    if n > 0 {
      EntriesInRow(cfg, k, e, keys, vals, n - 1, pos, pre);
      PairRowAppend(cfg, k, e, keys[..n - 1], vals[..n - 1], keys[n - 1], vals[n - 1], pos, pre);
      assert keys[..n] == keys[..n - 1] + [keys[n - 1]] && vals[..n] == vals[..n - 1] + [vals[n - 1]];
    }
  }

  lemma EncEntriesUnfold(cfg: Config, k: Type, e: Type, keys: seq<Value>, vals: seq<Value>, n: nat, pos: nat,
                         pre: seq<Byte>)
    requires n <= |keys| == |vals| && AllTyped(k, keys) && AllTyped(e, vals)
    ensures EncEntries(cfg, k, e, keys, vals, n, pos, pre) ==
      if n == 0 then []
      else
        var front := EncEntries(cfg, k, e, keys, vals, n - 1, pos, pre);
        var kb := Encode(cfg, k, keys[n - 1], pos + |front|, pre);
        front + kb + Encode(cfg, e, vals[n - 1], pos + |front| + |kb|, pre)
  {
    hide Encode;
  }

  // ---------------------------------------------------------------- the layout of every type

  /** A scalar: padding to its grid, and bytes that are its number in the order of the stream. */
  lemma ScalarLayout(cfg: Config, w: Width, v: Value, pos: nat, pre: seq<Byte>)
    requires Typed(Prim(w), v)
    ensures var bytes := Encode(cfg, Prim(w), v, pos, pre);
      && pos + |bytes| == Above(pos, Grid(cfg.version, w)) + w.Bytes()
      && Number(StreamOrder(cfg), bytes[|bytes| - w.Bytes()..]) == Number(cfg.host, v.raw)
  {
    hide Number, PadLen, Above, Ordered;
    PadReaches(cfg.version, w, pos);
    EncodedNumber(cfg, w, v.raw, pos, pre);
  }

  /** An optional: in XCDRv2 outside PL_CDR2 one byte says whether the value is there; otherwise nothing does. */
  lemma OptionalLayout(cfg: Config, e: Type, v: Value, pos: nat, pre: seq<Byte>)
    requires Typed(Opt(e), v)
    ensures var bytes := Encode(cfg, Opt(e), v, pos, pre);
      if cfg.version == XCDRv2(false) then
        && bytes != [] && bytes[0] == (if v.Present? then 1 else 0)
        && bytes[1..] == if v.Present? then Encode(cfg, e, v.inner, pos + 1, pre) else []
      else bytes == if v.Present? then Encode(cfg, e, v.inner, pos, pre) else []
  {
    hide EncBody, EncWord, Delimited;
  }

  /** A vector: the number of its elements and, directly after that, the elements. Only in XCDRv2, and only when they
      are not scalars, a word in front says how many bytes follow. */
  lemma VectorLayout(cfg: Config, e: Type, v: Value, pos: nat, pre: seq<Byte>)
    requires Typed(Seq(e), v)
    ensures AllTyped(e, v.items) && AllTyped(Core(e), Leaves(e, v.items, |v.items|))
    ensures var bytes, n, elements := Encode(cfg, Seq(e), v, pos, pre), |v.items|, Leaves(e, v.items, |v.items|);
      var start := Above(pos, 4) + 4;
      if cfg.version.XCDRv2? && !e.Prim? then
        && start <= pos + |bytes|
        && var body := bytes[start - pos..];
          && Announced(cfg, bytes, pos, |body|, body)
          && Announced(cfg, body, start, n, Row(cfg, Core(e), elements, start + 4, pre))
      else Announced(cfg, bytes, pos, n, Row(cfg, Core(e), elements, start, pre))
  {
    hide Announced, Row, EncItems, Enc32, Above, PadLen;
    ElementsTyped(Seq(e), v);
    var n := |v.items|;
    var start := Above(pos, 4) + 4;
    PadReaches(cfg.version, W4, pos);
    WordStarts(pos);
    var p := if Delimited(cfg, Seq(e)) then start else pos;
    PadReaches(cfg.version, W4, p);
    LeavesTyped(e, v.items, n);
    ItemsInRow(cfg, e, v.items, n, Above(p, 4) + 4, pre);
    var row := Row(cfg, Core(e), Leaves(e, v.items, n), Above(p, 4) + 4, pre);
    WordAnnounces(cfg, n, p, pre, row);
    var body := Enc32(cfg, n, p, pre) + row;
    if Delimited(cfg, Seq(e)) {
      WordAnnounces(cfg, |body|, pos, pre, body);
      BehindWord(cfg, |body|, pos, pre, body);
    }
  }

  /** After a word the next word needs no padding. */
  lemma WordStarts(pos: nat)
    ensures Above(Above(pos, 4) + 4, 4) == Above(pos, 4) + 4
  {
    PadReaches(XCDRv1, W4, pos);
    WordAligns(pos);
  }

  lemma BehindWord(cfg: Config, n: nat, pos: nat, pre: seq<Byte>, body: seq<Byte>)
    ensures var bytes := Enc32(cfg, n, pos, pre) + body;
      Above(pos, 4) + 4 - pos == |bytes| - |body| && bytes[|bytes| - |body|..] == body
  {
    hide Enc32, PadLen, Above;
    PadReaches(cfg.version, W4, pos);
  }

  /** An array: its elements. Only in XCDRv2, and only when its innermost elements are not scalars, a word in front says
      how many bytes follow. */
  lemma ArrayLayout(cfg: Config, e: Type, n: Positive, v: Value, pos: nat, pre: seq<Byte>)
    requires Typed(Arr(e, n), v)
    ensures AllTyped(e, v.items) && |v.items| == n && AllTyped(Core(e), Leaves(e, v.items, n))
    ensures var bytes, elements := Encode(cfg, Arr(e, n), v, pos, pre), Leaves(e, v.items, n);
      if cfg.version.XCDRv2? && !Core(e).Prim? then
        var body := Row(cfg, Core(e), elements, Above(pos, 4) + 4, pre);
        Announced(cfg, bytes, pos, |body|, body)
      else bytes == Row(cfg, Core(e), elements, pos, pre)
  {
    hide Announced, Row, EncItems, Enc32, Above, PadLen;
    ElementsTyped(Arr(e, n), v);
    ScalarArrays(Arr(e, n));
    PadReaches(cfg.version, W4, pos);
    LeavesTyped(e, v.items, n);
    var p := if Delimited(cfg, Arr(e, n)) then Above(pos, 4) + 4 else pos;
    ItemsInRow(cfg, e, v.items, n, p, pre);
    var row := Row(cfg, Core(e), Leaves(e, v.items, n), p, pre);
    WordAnnounces(cfg, |row|, pos, pre, row);
  }

  /** A map: the number of its entries and, directly after that, keys and values in turn. Only in XCDRv2, and only when
      the values are not scalars, a word in front says how many bytes follow. */
  lemma MapLayout(cfg: Config, k: Type, e: Type, v: Value, pos: nat, pre: seq<Byte>)
    requires Typed(Map(k, e), v)
    ensures |v.keys| == |v.vals| && AllTyped(k, v.keys) && AllTyped(e, v.vals)
    ensures var bytes, n := Encode(cfg, Map(k, e), v, pos, pre), |v.keys|;
      var start := Above(pos, 4) + 4;
      if cfg.version.XCDRv2? && !e.Prim? then
        && start <= pos + |bytes|
        && var body := bytes[start - pos..];
          && Announced(cfg, bytes, pos, |body|, body)
          && Announced(cfg, body, start, n, PairRow(cfg, k, e, v.keys, v.vals, start + 4, pre))
      else Announced(cfg, bytes, pos, n, PairRow(cfg, k, e, v.keys, v.vals, start, pre))
  {
    hide Announced, PairRow, EncEntries, Enc32, Above, PadLen;
    TableTyped(k, e, v);
    var n := |v.keys|;
    var start := Above(pos, 4) + 4;
    PadReaches(cfg.version, W4, pos);
    WordStarts(pos);
    var p := if Delimited(cfg, Map(k, e)) then start else pos;
    PadReaches(cfg.version, W4, p);
    EntriesInRow(cfg, k, e, v.keys, v.vals, n, Above(p, 4) + 4, pre);
    assert v.keys[..n] == v.keys && v.vals[..n] == v.vals;
    var row := PairRow(cfg, k, e, v.keys, v.vals, Above(p, 4) + 4, pre);
    WordAnnounces(cfg, n, p, pre, row);
    var body := Enc32(cfg, n, p, pre) + row;
    if Delimited(cfg, Map(k, e)) {
      WordAnnounces(cfg, |body|, pos, pre, body);
      BehindWord(cfg, |body|, pos, pre, body);
    }
  }

  lemma TableTyped(k: Type, e: Type, v: Value)
    requires Typed(Map(k, e), v)
    ensures v.Table? && |v.keys| == |v.vals| && AllTyped(k, v.keys) && AllTyped(e, v.vals)
  {
  }

  // ---------------------------------------------------------------- scalars in a row

  /** On its grid, a scalar leaves the position on the grid. */
  lemma GridKept(version: Version, w: Width, pos: nat)
    ensures var first := Above(pos, Grid(version, w));
      Above(first + w.Bytes(), Grid(version, w)) == first + w.Bytes()
  {
    hide PadLen, Above;
    var a := AlignOf(version, w);
    PadReaches(version, w, pos);
    PadReaches(version, w, pos + PadLen(pos, a) + w.Bytes());
    PadAligns(pos, a);
    BulkBytesAligned(version, Prim(w));
    AlignedSum(pos + PadLen(pos, a), w.Bytes(), a);
  }

  /** Scalars in a row are padded once, in front, and stand next to each other. */
  lemma {:induction false} RowOfScalars(cfg: Config, w: Width, vs: seq<Value>, pos: nat, pre: seq<Byte>)
    requires AllTyped(Prim(w), vs)
    ensures var row := Row(cfg, Prim(w), vs, pos, pre);
      |row| == if vs == [] then 0 else Above(pos, Grid(cfg.version, w)) - pos + Times(|vs|, w.Bytes())
    decreases |vs|
  {
    hide Encode, Row, AllTyped, Number, Above, Grid;
    RowUnfold(cfg, Prim(w), vs, pos, pre);
    if vs != [] {
      AllTypedConcat(Prim(w), vs, []);
      ScalarLayout(cfg, w, vs[0], pos, pre);
      var next := pos + |Encode(cfg, Prim(w), vs[0], pos, pre)|;
      RowOfScalars(cfg, w, vs[1..], next, pre);
      GridKept(cfg.version, w, pos);
    }
  }

  /** The `k`-th of them stands `k` sizes behind the first, with its own number. */
  lemma {:induction false} ScalarInRow(cfg: Config, w: Width, vs: seq<Value>, k: nat, pos: nat, pre: seq<Byte>)
    requires AllTyped(Prim(w), vs) && k < |vs|
    ensures vs[k].Word?
    ensures var row := Row(cfg, Prim(w), vs, pos, pre);
      var at := Above(pos, Grid(cfg.version, w)) - pos + Times(k, w.Bytes());
      at + w.Bytes() <= |row| && Number(StreamOrder(cfg), row[at..at + w.Bytes()]) == Number(cfg.host, vs[k].raw)
    decreases k
  {
    hide Encode, Row, AllTyped, Number, Above, Grid;
    RowUnfold(cfg, Prim(w), vs, pos, pre);
    AllTypedConcat(Prim(w), vs, []);
    ScalarLayout(cfg, w, vs[0], pos, pre);
    var x := Encode(cfg, Prim(w), vs[0], pos, pre);
    var rest := Row(cfg, Prim(w), vs[1..], pos + |x|, pre);
    GridKept(cfg.version, w, pos);
    AboveFrom(pos, Grid(cfg.version, w));
    if k == 0 {
      assert (x + rest)[|x| - w.Bytes()..|x|] == x[|x| - w.Bytes()..];
    } else {
      ScalarInRow(cfg, w, vs[1..], k - 1, pos + |x|, pre);
      var at := Times(k - 1, w.Bytes());
      assert (x + rest)[|x| + at..|x| + at + w.Bytes()] == rest[at..at + w.Bytes()];
    }
  }

  /** A vector of scalars, in every version: its count, one padding, and the scalars. */
  lemma VectorOfScalars(cfg: Config, w: Width, v: Value, pos: nat, pre: seq<Byte>)
    requires Typed(Seq(Prim(w)), v)
    ensures AllTyped(Prim(w), v.items)
    ensures var bytes, n, start := Encode(cfg, Seq(Prim(w)), v, pos, pre), |v.items|, Above(pos, 4) + 4;
      && Announced(cfg, bytes, pos, n, Row(cfg, Prim(w), v.items, start, pre))
      && pos + |bytes|
        == if n == 0 then start else Above(start, Grid(cfg.version, w)) + n * w.Bytes()
  {
    hide Row, AllTyped, Number, Above, Grid, Leaves;
    VectorLayout(cfg, Prim(w), v, pos, pre);
    LeavesOfPlain(Prim(w), v.items, |v.items|);
    assert v.items[..|v.items|] == v.items;
    RowOfScalars(cfg, w, v.items, Above(pos, 4) + 4, pre);
    TimesIsProduct(|v.items|, w.Bytes());
    AboveFrom(pos, 4);
    AboveFrom(Above(pos, 4) + 4, Grid(cfg.version, w));
  }

  lemma AboveFrom(pos: nat, a: Positive)
    ensures pos <= Above(pos, a)
  {
  }

  /** The number of scalars in an array. */
  function Cells(ty: Type): nat
    decreases ty
  {
    if ty.Arr? then ty.size * Cells(ty.elem) else 1
  }

  lemma {:induction false} CellsOfArray(ty: Type, v: Value)
    requires Typed(ty, v)
    ensures |LeavesOf(ty, v)| == Cells(ty)
    decreases ty, 0, 0
  {
    hide Leaves, AllTyped;
    if ty.Arr? {
      ElementsTyped(ty, v);
      CellsOfItems(ty.elem, v.items, |v.items|);
    }
  }

  lemma {:induction false} CellsOfItems(e: Type, items: seq<Value>, n: nat)
    requires n <= |items| && AllTyped(e, items)
    ensures |Leaves(e, items, n)| == n * Cells(e)
    decreases e, 1, n
  {
    hide LeavesOf, Typed;
    if n > 0 {
      CellsOfItems(e, items, n - 1);
      CellsOfArray(e, items[n - 1]);
      assert n * Cells(e) == (n - 1) * Cells(e) + Cells(e);
    }
  }

  /** An array of scalars, of however many dimensions and in every version: one padding and the scalars. */
  lemma ArrayOfScalars(cfg: Config, e: Type, n: Positive, w: Width, v: Value, pos: nat, pre: seq<Byte>)
    requires Typed(Arr(e, n), v) && Core(e) == Prim(w)
    ensures AllTyped(Prim(w), LeavesOf(Arr(e, n), v))
    ensures var bytes := Encode(cfg, Arr(e, n), v, pos, pre);
      && bytes == Row(cfg, Prim(w), LeavesOf(Arr(e, n), v), pos, pre)
      && pos + |bytes|
        == if Cells(e) == 0 then pos else Above(pos, Grid(cfg.version, w)) + n * Cells(e) * w.Bytes()
  {
    hide Row, AllTyped, Number, Above, Grid, Leaves, Cells;
    ArrayLayout(cfg, e, n, v, pos, pre);
    var leaves := Leaves(e, v.items, n);
    RowOfScalars(cfg, w, leaves, pos, pre);
    CellsOfItems(e, v.items, n);
    TimesIsProduct(|leaves|, w.Bytes());
    AboveFrom(pos, Grid(cfg.version, w));
    if Cells(e) != 0 { AtLeastOne(n, Cells(e)); }
  }

  lemma AtLeastOne(m: Positive, n: nat)
    requires 0 < n
    ensures 0 < m * n
  {
  }

  /** Where `n` entries of scalars end. */
  function PairsEnd(version: Version, k: Width, e: Width, n: nat, pos: nat): nat {
    if n == 0 then pos
    else
      var key := Above(PairsEnd(version, k, e, n - 1, pos), Grid(version, k)) + k.Bytes();
      Above(key, Grid(version, e)) + e.Bytes()
  }

  lemma {:induction false} EntriesEnd(cfg: Config, k: Width, e: Width, keys: seq<Value>, vals: seq<Value>, n: nat,
                                      pos: nat, pre: seq<Byte>)
    requires n <= |keys| == |vals| && AllTyped(Prim(k), keys) && AllTyped(Prim(e), vals)
    ensures pos + |EncEntries(cfg, Prim(k), Prim(e), keys, vals, n, pos, pre)| == PairsEnd(cfg.version, k, e, n, pos)
    decreases n
  {
    hide Encode, EncEntries, Typed, Number, Above, Grid;
    EncEntriesStep(cfg, Prim(k), Prim(e), keys, vals, n, pos, pre);
    if n > 0 {
      EntriesEnd(cfg, k, e, keys, vals, n - 1, pos, pre);
      var p := PairsEnd(cfg.version, k, e, n - 1, pos);
      ScalarLayout(cfg, k, keys[n - 1], p, pre);
      ScalarLayout(cfg, e, vals[n - 1], p + |Encode(cfg, Prim(k), keys[n - 1], p, pre)|, pre);
    }
  }

  lemma {:induction false} ScalarsAreNoVectors(version: Version, w: Width, vs: seq<Value>, n: nat)
    requires n <= |vs| && AllTyped(Prim(w), vs)
    ensures EmptyVectorsIn(version, Prim(w), vs, n) == 0
    decreases n
  {
    if n > 0 { ScalarsAreNoVectors(version, w, vs, n - 1); }
  }

  /** A map of scalars, in every version: its count and the entries. The calculator says the same. */
  lemma MapOfScalars(cfg: Config, k: Width, e: Width, v: Value, pos: nat, pre: seq<Byte>)
    requires Typed(Map(Prim(k), Prim(e)), v)
    ensures var bytes, start := Encode(cfg, Map(Prim(k), Prim(e)), v, pos, pre), Above(pos, 4) + 4;
      && AllTyped(Prim(k), v.keys) && AllTyped(Prim(e), v.vals) && |v.keys| == |v.vals|
      && Announced(cfg, bytes, pos, |v.keys|, PairRow(cfg, Prim(k), Prim(e), v.keys, v.vals, start, pre))
      && pos + |bytes| == PairsEnd(cfg.version, k, e, |v.keys|, start)
      && CalcSize(cfg.version, Map(Prim(k), Prim(e)), v, pos) == |bytes|
  {
    hide PairRow, Number, Above, Grid, CalcSize, Encode, AllTyped, EmptyVectorsIn, Announced, PairsEnd;
    var ty, n, start := Map(Prim(k), Prim(e)), |v.keys|, Above(pos, 4) + 4;
    MapLayout(cfg, Prim(k), Prim(e), v, pos, pre);
    EntriesInRow(cfg, Prim(k), Prim(e), v.keys, v.vals, n, start, pre);
    assert v.keys[..n] == v.keys && v.vals[..n] == v.vals;
    EntriesEnd(cfg, k, e, v.keys, v.vals, n, start, pre);
    AnnouncedLength(cfg, Encode(cfg, ty, v, pos, pre), pos, n,
                    PairRow(cfg, Prim(k), Prim(e), v.keys, v.vals, start, pre));
    if cfg.version.XCDRv2? {
      SizeAgreesV2(cfg, ty, v, pos, pre);
    } else {
      ScalarsAreNoVectors(XCDRv1, k, v.keys, n);
      ScalarsAreNoVectors(XCDRv1, e, v.vals, n);
      SizeBoundsV1(cfg, ty, v, pos, pre);
    }
  }

  lemma AnnouncedLength(cfg: Config, bytes: seq<Byte>, pos: nat, n: nat, rest: seq<Byte>)
    requires Announced(cfg, bytes, pos, n, rest)
    ensures pos + |bytes| == Above(pos, 4) + 4 + |rest|
  {
    hide Number, Above;
    AboveFrom(pos, 4);
  }

  /** One entry of two bytes takes six bytes in every version, on the wire and in the calculator. */
  lemma SmallestMap(cfg: Config, a: Byte, b: Byte)
    ensures var ty, v := Map(Prim(W1), Prim(W1)), Table([Word([a])], [Word([b])]);
      && Typed(ty, v) && CalcSize(cfg.version, ty, v, 0) == 6
      && var bytes := Encode(cfg, ty, v, 0, []);
        |bytes| == 6 && Number(StreamOrder(cfg), bytes[..4]) == 1 && bytes[4..] == [a, b]
  {
    hide Number, Encode, CalcSize, PairRow;
    var ty, v := Map(Prim(W1), Prim(W1)), Table([Word([a])], [Word([b])]);
    assert Typed(Prim(W1), v.keys[0]) && Typed(Prim(W1), v.vals[0]);
    MapOfScalars(cfg, W1, W1, v, 0, []);
    OneByteKept(cfg, a, 4);
    OneByteKept(cfg, b, 5);
    PairRowUnfold(cfg, Prim(W1), Prim(W1), v.keys, v.vals, 4, []);
    PairRowUnfold(cfg, Prim(W1), Prim(W1), v.keys[1..], v.vals[1..], 6, []);
    assert [a] + [b] == [a, b];
  }

  lemma OneByteKept(cfg: Config, a: Byte, pos: nat)
    ensures Typed(Prim(W1), Word([a])) && Encode(cfg, Prim(W1), Word([a]), pos, []) == [a]
  {
    assert Ordered(cfg, [a]) == [a];
  }
}
