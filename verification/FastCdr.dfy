/** The codec without alignment: scalars, vectors and arrays are copied one after another. */
module FastCodec {
  import opened CdrByteOrder
  import opened CdrSpec

  datatype FastType = Scalar(width: Width) | Vector(elem: FastType) | Array(elem: FastType, size: nat)

  datatype FastValue = Raw(bytes: seq<Byte>) | Items(items: seq<FastValue>)

  ghost predicate Fits(ty: FastType, v: FastValue)
    decreases ty, 0
  {
    match ty
    case Scalar(w) => v.Raw? && |v.bytes| == w.Bytes()
    case Vector(e) => v.Items? && AllFit(e, v.items)
    case Array(e, n) => v.Items? && |v.items| == n && AllFit(e, v.items)
  }

  ghost predicate AllFit(e: FastType, vs: seq<FastValue>)
    decreases e, 1
  {
    forall i :: 0 <= i < |vs| ==> Fits(e, vs[i])
  }

  /** Every vector has a length that the 32-bit count can hold. */
  ghost predicate Countable(ty: FastType, v: FastValue)
    decreases ty, 0
  {
    match ty
    case Scalar(_) => true
    case Vector(e) => v.Items? && |v.items| < TWO32 && AllCountable(e, v.items)
    case Array(e, _) => v.Items? && AllCountable(e, v.items)
  }

  ghost predicate AllCountable(e: FastType, vs: seq<FastValue>)
    decreases e, 1
  {
    forall i :: 0 <= i < |vs| ==> Countable(e, vs[i])
  }

  /** Scalars, and arrays of them of any number of dimensions, are copied in one go. */
  predicate InBulk(ty: FastType) {
    ty.Scalar? || (ty.Array? && InBulk(ty.elem))
  }

  /** An array of as many dimensions as there are sizes. */
  function Nested(w: Width, sizes: seq<nat>): FastType {
    if sizes == [] then Scalar(w) else Array(Nested(w, sizes[1..]), sizes[0])
  }

  /** What is copied in one go: the scalar, and its arrays of every number of dimensions, and nothing else. */
  lemma {:induction false} BulkTypes(ty: FastType)
    ensures InBulk(ty) <==> exists w, sizes :: ty == Nested(w, sizes)
    decreases ty
  {
    match ty
    case Scalar(w) => assert ty == Nested(w, []);
    case Array(e, n) =>
      BulkTypes(e);
      if InBulk(e) {
        var w, sizes :| e == Nested(w, sizes);
        assert ([n] + sizes)[1..] == sizes;
        assert ty == Nested(w, [n] + sizes);
      }
      forall w, sizes | ty == Nested(w, sizes) ensures InBulk(e) { assert e == Nested(w, sizes[1..]); }
    case Vector(_) =>
  }

  /** The bytes of a value do not depend on where it is written. */
  function Bytes(host: Endianness, ty: FastType, v: FastValue): seq<Byte>
    requires Fits(ty, v)
    decreases ty, 1, 0
  {
    match ty
    case Scalar(_) => v.bytes
    case Vector(e) => U32(host, |v.items|) + ItemBytes(host, e, v.items, |v.items|)
    case Array(e, n) => ItemBytes(host, e, v.items, n)
  }

  function ItemBytes(host: Endianness, e: FastType, vs: seq<FastValue>, n: nat): seq<Byte>
    requires n <= |vs| && AllFit(e, vs)
    decreases e, 2, n
  {
    if n == 0 then [] else ItemBytes(host, e, vs, n - 1) + Bytes(host, e, vs[n - 1])
  }

  /** Values one directly after another. */
  function Row(host: Endianness, e: FastType, vs: seq<FastValue>): seq<Byte>
    requires AllFit(e, vs)
    decreases |vs|
  {
    if vs == [] then [] else Bytes(host, e, vs[0]) + Row(host, e, vs[1..])
  }

  lemma {:induction false} RowAppend(host: Endianness, e: FastType, vs: seq<FastValue>, v: FastValue)
    requires AllFit(e, vs) && Fits(e, v)
    ensures AllFit(e, vs + [v]) && Row(host, e, vs + [v]) == Row(host, e, vs) + Bytes(host, e, v)
    decreases |vs|
  {
    hide Bytes, Fits;
    if vs == [] {
      assert (vs + [v])[1..] == [];
    } else {
      RowAppend(host, e, vs[1..], v);
      assert (vs + [v])[1..] == vs[1..] + [v];
    }
  }

  lemma {:induction false} ItemsInRow(host: Endianness, e: FastType, vs: seq<FastValue>, n: nat)
    requires n <= |vs| && AllFit(e, vs)
    ensures AllFit(e, vs[..n]) && ItemBytes(host, e, vs, n) == Row(host, e, vs[..n])
    decreases n
  {
    hide Bytes, Fits;
    if n > 0 {
      ItemsInRow(host, e, vs, n - 1);
      RowAppend(host, e, vs[..n - 1], vs[n - 1]);
      assert vs[..n] == vs[..n - 1] + [vs[n - 1]];
    }
  }

  /** A scalar is its bytes on the host; a vector a word, in the host's byte order, with the number of its elements and
      the elements; an array its elements. */
  lemma FastLayout(host: Endianness, ty: FastType, v: FastValue)
    requires Fits(ty, v)
    ensures ty.Scalar? ==> Bytes(host, ty, v) == v.bytes
    ensures !ty.Scalar? ==> v.Items? && AllFit(ty.elem, v.items)
    ensures ty.Array? ==> Bytes(host, ty, v) == Row(host, ty.elem, v.items)
    ensures ty.Vector? ==>
      var bytes := Bytes(host, ty, v);
      && 4 <= |bytes| && Number(host, bytes[..4]) == |v.items| % TWO32
      && bytes[4..] == Row(host, ty.elem, v.items)
  {
    hide Row, ItemBytes, U32, Number;
    if !ty.Scalar? {
      ItemsInRow(host, ty.elem, v.items, |v.items|);
      assert v.items[..|v.items|] == v.items;
      if ty.Vector? {
        LengthNumber(host, |v.items|);
        assert Bytes(host, ty, v)[..4] == U32(host, |v.items|);
      }
    }
  }

  function Read(buf: seq<Byte>, pos: nat, n: nat): (r: Result<seq<Byte>>)
    ensures r.Ok? ==> |r.value| == n && r.end == pos + n <= |buf|
  {
    if pos + n <= |buf| then Ok(buf[pos..pos + n], pos + n) else Err(NotEnoughMemory)
  }

  function Parse(host: Endianness, ty: FastType, buf: seq<Byte>, pos: nat): (r: Result<FastValue>)
    decreases ty, 1, 0
  {
    match ty
    case Scalar(w) =>
      (match Read(buf, pos, w.Bytes())
       case Ok(raw, end) => Ok(Raw(raw), end)
       case Err(x) => Err(x))
    case Vector(e) =>
      (match Read(buf, pos, 4)
       case Ok(raw, end) => ParseItems(host, e, Val32(host, raw), [], buf, end)
       case Err(x) => Err(x))
    case Array(e, n) => ParseItems(host, e, n, [], buf, pos)
  }

  function ParseItems(host: Endianness, e: FastType, n: nat, done: seq<FastValue>, buf: seq<Byte>, pos: nat)
    : (r: Result<FastValue>)
    decreases e, 2, n
  {
    if n == 0 then Ok(Items(done), pos)
    else
      match Parse(host, e, buf, pos)
      case Ok(v, end) => ParseItems(host, e, n - 1, done + [v], buf, end)
      case Err(x) => Err(x)
  }

  // ---------------------------------------------------------------- the round trip

  lemma {:induction false} ParseBytes(host: Endianness, ty: FastType, v: FastValue, buf: seq<Byte>, pos: nat)
    requires Fits(ty, v) && Countable(ty, v) && At(buf, pos, Bytes(host, ty, v))
    ensures Parse(host, ty, buf, pos) == Ok(v, pos + |Bytes(host, ty, v)|)
    decreases ty, 1, 0
  {
    hide U32, Val32;
    match ty
    case Scalar(_) =>
    case Vector(e) =>
      AtConcat(buf, pos, U32(host, |v.items|), ItemBytes(host, e, v.items, |v.items|));
      Val32U32(host, |v.items|);
      ParseAllItems(host, e, v.items, buf, pos + 4);
    case Array(e, n) =>
      ParseAllItems(host, e, v.items, buf, pos);
  }

  lemma {:induction false} ParseAllItems(host: Endianness, e: FastType, vs: seq<FastValue>, buf: seq<Byte>, pos: nat)
    requires AllFit(e, vs) && AllCountable(e, vs) && At(buf, pos, ItemBytes(host, e, vs, |vs|))
    ensures ParseItems(host, e, |vs|, [], buf, pos) == Ok(Items(vs), pos + |ItemBytes(host, e, vs, |vs|)|)
    decreases e, 3, 0
  {
    hide At, ItemBytes;
    ParsePrefix(host, e, vs, |vs|, buf, pos);
    assert vs[..|vs|] == vs;
  }

  lemma {:induction false} ParsePrefix(host: Endianness, e: FastType, vs: seq<FastValue>, n: nat, buf: seq<Byte>,
                                       pos: nat)
    requires n <= |vs| && AllFit(e, vs) && AllCountable(e, vs) && At(buf, pos, ItemBytes(host, e, vs, n))
    ensures ParseItems(host, e, |vs|, [], buf, pos)
         == ParseItems(host, e, |vs| - n, vs[..n], buf, pos + |ItemBytes(host, e, vs, n)|)
    decreases e, 2, n
  {
    hide At, Fits, Countable;
    if n > 0 {
      AtConcat(buf, pos, ItemBytes(host, e, vs, n - 1), Bytes(host, e, vs[n - 1]));
      ParsePrefix(host, e, vs, n - 1, buf, pos);
      ParseBytes(host, e, vs[n - 1], buf, pos + |ItemBytes(host, e, vs, n - 1)|);
      assert vs[..n] == vs[..n - 1] + [vs[n - 1]];
    }
  }

  lemma {:induction false} ParsedCountable(host: Endianness, ty: FastType, buf: seq<Byte>, pos: nat)
    requires Parse(host, ty, buf, pos).Ok?
    ensures Countable(ty, Parse(host, ty, buf, pos).value)
    decreases ty, 1, 0
  {
    hide Read;
    match ty
    case Scalar(_) =>
    case Vector(e) =>
      var raw := Read(buf, pos, 4);
      Val32Fits(host, raw.value);
      ParsedItemsCountable(host, e, Val32(host, raw.value), [], buf, raw.end);
    case Array(e, n) => ParsedItemsCountable(host, e, n, [], buf, pos);
  }

  lemma Val32Fits(host: Endianness, raw: seq<Byte>)
    requires |raw| == 4
    ensures Val32(host, raw) < TWO32
  {
  }

  lemma {:induction false} ParsedItemsCountable(host: Endianness, e: FastType, n: nat, done: seq<FastValue>,
                                                buf: seq<Byte>, pos: nat)
    requires AllCountable(e, done) && ParseItems(host, e, n, done, buf, pos).Ok?
    ensures var v := ParseItems(host, e, n, done, buf, pos).value;
      v.Items? && |v.items| == |done| + n && AllCountable(e, v.items)
    decreases e, 2, n
  {
    hide Parse, Countable;
    if n > 0 {
      ParsedCountable(host, e, buf, pos);
      var item := Parse(host, e, buf, pos);
      ParsedItemsCountable(host, e, n - 1, done + [item.value], buf, item.end);
    }
  }

  /** A value is read back, with the position where writing stopped, exactly when its vectors' lengths fit 32 bits. */
  lemma RoundTripExactly(host: Endianness, ty: FastType, v: FastValue, buf: seq<Byte>, pos: nat)
    requires Fits(ty, v) && At(buf, pos, Bytes(host, ty, v))
    ensures Parse(host, ty, buf, pos) == Ok(v, pos + |Bytes(host, ty, v)|) <==> Countable(ty, v)
  {
    hide Parse, Bytes, Fits, At, Countable;
    if Countable(ty, v) { ParseBytes(host, ty, v, buf, pos); }
    if Parse(host, ty, buf, pos).Ok? { ParsedCountable(host, ty, buf, pos); }
  }

  // ---------------------------------------------------------------- exactly the encodings

  /** What was parsed lies in the buffer. */
  lemma {:induction false} ParsedHeld(host: Endianness, ty: FastType, buf: seq<Byte>, pos: nat)
    requires pos <= |buf| && Parse(host, ty, buf, pos).Ok?
    ensures var r := Parse(host, ty, buf, pos);
      Fits(ty, r.value) && At(buf, pos, Bytes(host, ty, r.value)) && r.end == pos + |Bytes(host, ty, r.value)|
    decreases ty, 1, 0
  {
    hide U32, Val32, At, AllFit;
    match ty
    case Scalar(w) => SliceHeld(buf, pos, w.Bytes());
    case Vector(e) =>
      var raw := Read(buf, pos, 4);
      NoneFit(e, buf, raw.end);
      ParsedItemsHeld(host, e, Val32(host, raw.value), [], buf, raw.end, raw.end);
      var vs := Parse(host, ty, buf, pos).value.items;
      WordBytes(host, raw.value);
      SliceHeld(buf, pos, 4);
      AtConcat(buf, pos, U32(host, |vs|), ItemBytes(host, e, vs, |vs|));
    case Array(e, n) =>
      NoneFit(e, buf, pos);
      ParsedItemsHeld(host, e, n, [], buf, pos, pos);
  }

  lemma SliceHeld(buf: seq<Byte>, pos: nat, n: nat)
    requires pos + n <= |buf|
    ensures At(buf, pos, buf[pos..pos + n])
  {
  }

  lemma NoneFit(e: FastType, buf: seq<Byte>, pos: nat)
    requires pos <= |buf|
    ensures AllFit(e, []) && At(buf, pos, [])
  {
  }

  /** `done` lies between `start` and `pos`. */
  lemma {:induction false} ParsedItemsHeld(host: Endianness, e: FastType, n: nat, done: seq<FastValue>, buf: seq<Byte>,
                                           start: nat, pos: nat)
    requires AllFit(e, done) && At(buf, start, ItemBytes(host, e, done, |done|)) && pos <= |buf|
    requires pos == start + |ItemBytes(host, e, done, |done|)| && ParseItems(host, e, n, done, buf, pos).Ok?
    ensures var r := ParseItems(host, e, n, done, buf, pos);
      && r.value.Items? && |r.value.items| == |done| + n && AllFit(e, r.value.items)
      && At(buf, start, ItemBytes(host, e, r.value.items, |r.value.items|))
      && r.end == start + |ItemBytes(host, e, r.value.items, |r.value.items|)| <= |buf|
    decreases e, 2, n
  {
    hide Parse, At, Bytes, Fits, AllFit, ItemBytes;
    if n > 0 {
      var item := Parse(host, e, buf, pos);
      ParsedHeld(host, e, buf, pos);
      ItemBytesAppend(host, e, done, item.value);
      AtConcat(buf, start, ItemBytes(host, e, done, |done|), Bytes(host, e, item.value));
      Within(buf, pos, Bytes(host, e, item.value));
      ParsedItemsHeld(host, e, n - 1, done + [item.value], buf, start, item.end);
    }
  }

  lemma Within(buf: seq<Byte>, pos: nat, bytes: seq<Byte>)
    requires At(buf, pos, bytes)
    ensures pos + |bytes| <= |buf|
  {
  }

  lemma ItemBytesAppend(host: Endianness, e: FastType, vs: seq<FastValue>, v: FastValue)
    requires AllFit(e, vs) && Fits(e, v)
    ensures AllFit(e, vs + [v])
    ensures ItemBytes(host, e, vs + [v], |vs + [v]|) == ItemBytes(host, e, vs, |vs|) + Bytes(host, e, v)
  {
    hide Bytes, Fits;
    ItemsInRow(host, e, vs, |vs|);
    ItemsInRow(host, e, vs + [v], |vs| + 1);
    assert vs[..|vs|] == vs && (vs + [v])[..|vs| + 1] == vs + [v];
    RowAppend(host, e, vs, v);
  }

  /** The parser accepts exactly the bytes of values of the type whose counts fit, with that value and that end. */
  lemma AcceptsExactlyEncodings(host: Endianness, ty: FastType, v: FastValue, buf: seq<Byte>, pos: nat, end: nat)
    requires pos <= |buf|
    ensures Parse(host, ty, buf, pos) == Ok(v, end) <==>
      && Fits(ty, v) && Countable(ty, v)
      && At(buf, pos, Bytes(host, ty, v)) && end == pos + |Bytes(host, ty, v)|
  {
    hide Parse, Bytes, Fits, At, Countable;
    if Parse(host, ty, buf, pos) == Ok(v, end) {
      ParsedHeld(host, ty, buf, pos);
      ParsedCountable(host, ty, buf, pos);
    } else if Fits(ty, v) && Countable(ty, v) && At(buf, pos, Bytes(host, ty, v)) {
      ParseBytes(host, ty, v, buf, pos);
    }
  }

  // ---------------------------------------------------------------- a stream of values

  datatype Entry = Entry(ty: FastType, v: FastValue)

  ghost predicate WellTyped(entries: seq<Entry>) {
    forall i :: 0 <= i < |entries| ==> Fits(entries[i].ty, entries[i].v)
  }

  ghost predicate WellCounted(entries: seq<Entry>) {
    forall i :: 0 <= i < |entries| ==> Countable(entries[i].ty, entries[i].v)
  }

  ghost function Stream(host: Endianness, entries: seq<Entry>): seq<Byte>
    requires WellTyped(entries)
  {
    if entries == [] then [] else Bytes(host, entries[0].ty, entries[0].v) + Stream(host, entries[1..])
  }

  ghost function ParseStream(host: Endianness, types: seq<FastType>, buf: seq<Byte>, pos: nat): Result<seq<FastValue>> {
    if types == [] then Ok([], pos)
    else
      match Parse(host, types[0], buf, pos)
      case Err(x) => Err(x)
      case Ok(v, p) =>
        match ParseStream(host, types[1..], buf, p)
        case Err(x) => Err(x)
        case Ok(vs, q) => Ok([v] + vs, q)
  }

  ghost function Types(entries: seq<Entry>): (r: seq<FastType>) {
    seq(|entries|, i requires 0 <= i < |entries| => entries[i].ty)
  }

  ghost function Values(entries: seq<Entry>): seq<FastValue> {
    seq(|entries|, i requires 0 <= i < |entries| => entries[i].v)
  }

  /** Values written one after another are read back one after another, by the same types. */
  lemma {:induction false} StreamRoundTrip(host: Endianness, entries: seq<Entry>, buf: seq<Byte>, pos: nat)
    requires WellTyped(entries) && WellCounted(entries) && At(buf, pos, Stream(host, entries))
    ensures ParseStream(host, Types(entries), buf, pos) == Ok(Values(entries), pos + |Stream(host, entries)|)
  {
    hide At, Parse, Bytes, Fits, Countable;
    if entries == [] {
      assert Types(entries) == [] && Values(entries) == [];
    } else {
      var x, rest := entries[0], entries[1..];
      AtConcat(buf, pos, Bytes(host, x.ty, x.v), Stream(host, rest));
      ParseBytes(host, x.ty, x.v, buf, pos);
      StreamRoundTrip(host, rest, buf, pos + |Bytes(host, x.ty, x.v)|);
      assert Types(entries)[1..] == Types(rest);
      assert Values(entries) == [x.v] + Values(rest);
    }
  }

  // ---------------------------------------------------------------- iterators

  /** A position in a raw buffer; `Rebase` takes the other's buffer, `Seek` the other's index. */
  datatype Iterator = Iterator(buffer: array<Byte>, index: nat) {
    function Rebase(other: Iterator): Iterator { Iterator(other.buffer, index) }
    function Seek(other: Iterator): Iterator { Iterator(buffer, other.index) }
    function Plus(n: nat): Iterator { Iterator(buffer, index + n) }
    function Minus(other: Iterator): int { index - other.index }
  }

  // ---------------------------------------------------------------- the object

  class FastCdr {
    const limit: nat
    const host: Endianness
    var current: Iterator
    var last: Iterator

    ghost predicate Valid()
      reads this
    {
      current.buffer == last.buffer && current.index <= last.index == last.buffer.Length <= limit
    }

    /** What has been written so far. */
    ghost function Written(): seq<Byte>
      requires Valid()
      reads this, current.buffer
    {
      current.buffer[..current.index]
    }

    ghost function Data(): seq<Byte>
      reads this, current.buffer
    {
      current.buffer[..]
    }

    /** The buffer is only ever replaced, when it is full, by a longer one. */
    twostate predicate Keeps()
      reads this
    {
      current.buffer == old(current.buffer) || fresh(current.buffer)
    }

    constructor (buffer: array<Byte>, limit: nat, host: Endianness)
      requires buffer.Length <= limit
      ensures Valid() && current == Iterator(buffer, 0) && this.limit == limit && this.host == host && Written() == []
    {
      this.limit, this.host := limit, host;
      current, last := Iterator(buffer, 0), Iterator(buffer, buffer.Length);
    }

    /** A longer buffer with the same bytes, and both iterators rebased into it. */
    method Resize(room: nat) returns (ok: bool)
      requires Valid() && last.Minus(current) < room
      modifies this
      ensures Valid() && Keeps() && Written() == old(Written()) && current.index == old(current.index)
      ensures ok <==> current.index + room <= limit
      ensures ok ==> room <= last.Minus(current)
    {
      if limit < current.index + room { return false; }
      var source := current.buffer;
      var size :| current.index + room <= size <= limit;
      var grown := new Byte[size];
      for i := 0 to source.Length
        modifies grown
        invariant forall j :: 0 <= j < i ==> grown[j] == source[j]
      {
        grown[i] := source[i];
      }
      var begin := Iterator(grown, 0);
      current := current.Rebase(begin);
      last := Iterator(grown, size);
      ok := true;
    }

    /** Copies bytes to the current position when they fit, or can be made to fit. */
    method Append(raw: seq<Byte>) returns (ok: bool)
      requires Valid()
      modifies this, current.buffer
      ensures Valid() && Keeps()
      ensures ok <==> old(current.index) + |raw| <= limit
      ensures Written() == if ok then old(Written()) + raw else old(Written())
    {
      if last.Minus(current) < |raw| {
        var resized := Resize(|raw|);
        if !resized { return false; }
      }
      var target, at := current.buffer, current.index;
      for i := 0 to |raw|
        modifies target
        invariant forall j :: 0 <= j < i ==> target[at + j] == raw[j]
        invariant target[..at] == old(Written())
      {
        target[at + i] := raw[i];
      }
      current := current.Plus(|raw|);
      assert target[..at + |raw|] == target[..at] + target[at..at + |raw|];
      ok := true;
    }

    /** Only the index of the saved iterator counts: the buffer may have been replaced since. */
    method SetState(saved: Iterator)
      requires Valid() && saved.index <= current.index
      modifies `current
      ensures Valid() && current == old(current).Seek(saved) && Written() == old(Written())[..saved.index]
    {
      current := current.Seek(saved);
    }

    /** A value is appended whole; a vector, a scalar or an array of scalars that does not fit leaves the position
        where it was. */
    method Serialize(ty: FastType, v: FastValue) returns (ok: bool)
      requires Valid() && Fits(ty, v)
      modifies this, current.buffer
      ensures Valid() && Keeps()
      ensures ok <==> old(current.index) + |Bytes(host, ty, v)| <= limit
      ensures ok ==> Written() == old(Written()) + Bytes(host, ty, v)
      ensures !ok ==> old(Written()) <= Written() && (!ty.Array? || InBulk(ty) ==> Written() == old(Written()))
      decreases ty, 1, 0
    {
      match ty {
        case Scalar(_) => ok := Append(v.bytes);
        case Vector(e) => ok := SerializeVector(e, v);
        case Array(e, _) => ok := SerializeArray(e, v.items);
      }
    }

    method SerializeVector(e: FastType, v: FastValue) returns (ok: bool)
      requires Valid() && Fits(Vector(e), v)
      modifies this, current.buffer
      ensures Valid() && Keeps()
      ensures ok <==> old(current.index) + |Bytes(host, Vector(e), v)| <= limit
      ensures Written() == if ok then old(Written()) + Bytes(host, Vector(e), v) else old(Written())
      decreases e, 9, 0
    {
      hide ItemBytes, U32;
      var before := current;
      ok := Append(U32(host, |v.items|));
      if !ok { return; }
      ok := SerializeArray(e, v.items);
      if !ok {
        ghost var longer := Written();
        SetState(before);
        assert longer[..before.index] == old(Written());
      }
    }

    method SerializeArray(e: FastType, vs: seq<FastValue>) returns (ok: bool)
      requires Valid() && AllFit(e, vs)
      modifies this, current.buffer
      ensures Valid() && Keeps()
      ensures ok <==> old(current.index) + |ItemBytes(host, e, vs, |vs|)| <= limit
      ensures ok ==> Written() == old(Written()) + ItemBytes(host, e, vs, |vs|)
      ensures !ok ==> old(Written()) <= Written() && (InBulk(e) ==> Written() == old(Written()))
      decreases e, 2, 0
    {
      hide Bytes, Fits;
      if InBulk(e) {
        ok := Append(ItemBytes(host, e, vs, |vs|));
        return;
      }
      for count := 0 to |vs|
        invariant Valid() && Keeps()
        invariant Written() == old(Written()) + ItemBytes(host, e, vs, count)
      {
        ItemBytesGrow(host, e, vs, count + 1, |vs|);
        ok := Serialize(e, vs[count]);
        if !ok { return; }
      }
      ok := true;
    }

    // -------------------------------------------------------------- reading

    method Take(n: nat) returns (r: Result<seq<Byte>>)
      requires Valid()
      modifies `current
      ensures Valid() && current.buffer == old(current.buffer) && r == Read(Data(), old(current.index), n)
      ensures current.index == if r.Ok? then r.end else old(current.index)
    {
      if last.Minus(current) < n { return Err(NotEnoughMemory); }
      var raw := current.buffer[current.index..current.index + n];
      current := current.Plus(n);
      r := Ok(raw, current.index);
    }

    /** A vector, a scalar or an array of scalars that is not all there leaves the position where it was, at any
        depth. */
    method Deserialize(ty: FastType) returns (r: Result<FastValue>)
      requires Valid()
      modifies `current
      ensures Valid() && current.buffer == old(current.buffer) && r == Parse(host, ty, Data(), old(current.index))
      ensures r.Ok? ==> current.index == r.end
      ensures r.Err? && (!ty.Array? || InBulk(ty)) ==> current.index == old(current.index)
      decreases ty, 1, 0
    {
      hide ParseItems, Read, Val32;
      match ty {
        case Scalar(w) =>
          var raw := Take(w.Bytes());
          r := if raw.Ok? then Ok(Raw(raw.value), raw.end) else Err(raw.error);
        case Vector(e) =>
          var before := current;
          var raw := Take(4);
          if raw.Err? { return Err(raw.error); }
          r := DeserializeArray(e, Val32(host, raw.value));
          if r.Err? { current := current.Seek(before); }
        case Array(e, n) =>
          r := DeserializeArray(e, n);
      }
    }

    method DeserializeArray(e: FastType, n: nat) returns (r: Result<FastValue>)
      requires Valid()
      modifies `current
      ensures Valid() && current.buffer == old(current.buffer)
      ensures r == ParseItems(host, e, n, [], Data(), old(current.index))
      ensures r.Ok? ==> current.index == r.end
      ensures r.Err? && InBulk(e) ==> current.index == old(current.index)
      decreases e, 2, 0
    {
      hide Parse;
      var before := current;
      var done: seq<FastValue> := [];
      for count := 0 to n
        invariant Valid() && current.buffer == old(current.buffer)
        invariant ParseItems(host, e, n - count, done, Data(), current.index)
          == ParseItems(host, e, n, [], Data(), old(current.index))
      {
        var item := Deserialize(e);
        if item.Err? {
          if InBulk(e) { current := current.Seek(before); }
          return item;
        }
        done := done + [item.value];
      }
      r := Ok(Items(done), current.index);
    }
  }

  lemma {:induction false} ItemBytesGrow(host: Endianness, e: FastType, vs: seq<FastValue>, k: nat, n: nat)
    requires k <= n <= |vs| && AllFit(e, vs)
    ensures |ItemBytes(host, e, vs, k)| <= |ItemBytes(host, e, vs, n)|
    decreases n
  {
    hide Bytes, Fits;
    if k < n { ItemBytesGrow(host, e, vs, k, n - 1); }
  }
}
