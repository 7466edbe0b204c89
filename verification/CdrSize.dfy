/** The size calculator: what it computes, and how that compares with what the encoder writes. */
module CdrSize {
  import opened Basics
  import opened CdrSpec
  import opened CdrRoundTrip

  // ---------------------------------------------------------------- the calculator's formulas

  /** A scalar, or an array of scalars: sized in bulk, with the padding of its first scalar. */
  predicate Bulk(e: Type) {
    e.Prim? || PrimArr(e)
  }

  function BulkWidth(e: Type): Width
    requires Bulk(e)
    decreases e
  {
    if e.Prim? then e.width else BulkWidth(e.elem)
  }

  function BulkBytes(e: Type): nat
    requires Bulk(e)
    decreases e
  {
    if e.Prim? then e.width.Bytes() else Times(e.size, BulkBytes(e.elem))
  }

  function Times(n: nat, size: nat): nat {
    if n == 0 then 0 else Times(n - 1, size) + size
  }

  lemma {:induction false} TimesIsProduct(n: nat, size: nat)
    ensures Times(n, size) == n * size
  {
    if n > 0 { TimesIsProduct(n - 1, size); }
  }

  function CalcSize(version: Version, ty: Type, v: Value, cur: nat): nat
    requires Typed(ty, v)
    decreases ty, 2, 0
  {
    match ty
    case Prim(w) => PadLen(cur, AlignOf(version, w)) + w.Bytes()
    case Opt(e) =>
      var flag := if version.Flagged() then 1 else 0;
      if v.Absent? then flag else flag + CalcSize(version, e, v.inner, cur + flag)
    case _ =>
      var header := if Delimited(Config(version, false, Little), ty) then PadLen(cur, W4) + 4 else 0;
      header + CalcBody(version, ty, v, cur + header)
  }

  function CalcBody(version: Version, ty: Type, v: Value, cur: nat): nat
    requires (ty.Seq? || ty.Arr? || ty.Map?) && Typed(ty, v)
    decreases ty, 1, 0
  {
    var count := PadLen(cur, W4) + 4;
    match ty
    case Seq(e) => count + CalcItems(version, e, v.items, |v.items|, cur + count)
    case Arr(e, n) => CalcItems(version, e, v.items, n, cur)
    case Map(k, e) => count + CalcEntries(version, k, e, v.keys, v.vals, |v.keys|, cur + count)
  }

  /** calculate_array_serialized_size on the first `n` elements: scalars are padded once, even when there are none. */
  function CalcItems(version: Version, e: Type, items: seq<Value>, n: nat, cur: nat): nat
    requires n <= |items| && AllTyped(e, items)
    decreases e, 4, n
  {
    if Bulk(e) then PadLen(cur, AlignOf(version, BulkWidth(e))) + Times(n, BulkBytes(e))
    else if n == 0 then 0
    else
      var front := CalcItems(version, e, items, n - 1, cur);
      front + CalcItem(version, e, items[n - 1], cur + front)
  }

  function CalcItem(version: Version, e: Type, v: Value, cur: nat): nat
    requires Typed(e, v)
    decreases e, 3, 0
  {
    if e.Arr? then CalcItems(version, e.elem, v.items, e.size, cur) else CalcSize(version, e, v, cur)
  }

  function CalcEntries(version: Version, k: Type, e: Type, keys: seq<Value>, vals: seq<Value>, n: nat, cur: nat): nat
    requires n <= |keys| == |vals| && AllTyped(k, keys) && AllTyped(e, vals)
    decreases Map(k, e), 0, n
  {
    if n == 0 then 0
    else
      var front := CalcEntries(version, k, e, keys, vals, n - 1, cur);
      var ks := CalcSize(version, k, keys[n - 1], cur + front);
      front + ks + CalcSize(version, e, vals[n - 1], cur + front + ks)
  }

  // ---------------------------------------------------------------- bulk runs of scalars

  predicate Aligned(pos: nat, w: Width) {
    PadLen(pos, w) == 0
  }

  lemma AlignedSum(p: nat, q: nat, w: Width)
    requires Aligned(p, w) && Aligned(q, w)
    ensures Aligned(p + q, w)
  {
    match w
    case W1 =>
    case W2 => Multiple2(p / 2 + q / 2); assert p + q == 2 * (p / 2 + q / 2);
    case W4 => Multiple4(p / 4 + q / 4); assert p + q == 4 * (p / 4 + q / 4);
    case W8 => Multiple8(p / 8 + q / 8); assert p + q == 8 * (p / 8 + q / 8);
  }

  lemma {:induction false} AlignedTimes(n: nat, size: nat, w: Width)
    requires Aligned(size, w)
    ensures Aligned(Times(n, size), w)
  {
    if n > 0 {
      AlignedTimes(n - 1, size, w);
      AlignedSum(Times(n - 1, size), size, w);
    }
  }

  lemma {:induction false} BulkBytesAligned(version: Version, e: Type)
    requires Bulk(e)
    ensures Aligned(BulkBytes(e), AlignOf(version, BulkWidth(e)))
    decreases e
  {
    if e.Arr? {
      BulkBytesAligned(version, e.elem);
      AlignedTimes(e.size, BulkBytes(e.elem), AlignOf(version, BulkWidth(e)));
    }
  }

  lemma PadAligns(pos: nat, w: Width)
    ensures Aligned(pos + PadLen(pos, w), w)
  {
    match w
    case W1 =>
    case W2 => if pos % 2 != 0 { Multiple2(pos / 2 + 1); assert pos + PadLen(pos, w) == 2 * (pos / 2 + 1); }
    case W4 => if pos % 4 != 0 { Multiple4(pos / 4 + 1); assert pos + PadLen(pos, w) == 4 * (pos / 4 + 1); }
    case W8 => if pos % 8 != 0 { Multiple8(pos / 8 + 1); assert pos + PadLen(pos, w) == 8 * (pos / 8 + 1); }
  }

  lemma AlignedAfterWord(pos: nat)
    ensures Aligned(pos + PadLen(pos, W4) + 4, W4)
  {
    WordAligns(pos);
  }

  lemma NarrowerAligned(pos: nat, w: Width)
    requires Aligned(pos, W4) && !w.W8?
    ensures PadLen(pos, w) == 0
  {
    Multiple2(2 * (pos / 4));
    assert pos == 2 * (2 * (pos / 4));
  }

  /** Encoding scalars one by one pads only the first of them. */
  lemma {:induction false} EncodeBulk(cfg: Config, e: Type, items: seq<Value>, n: nat, pos: nat, pre: seq<Byte>)
    requires Bulk(e) && n <= |items| && AllTyped(e, items)
    ensures |EncItems(cfg, e, items, n, pos, pre)|
         == if n == 0 then 0 else PadLen(pos, AlignOf(cfg.version, BulkWidth(e))) + Times(n, BulkBytes(e))
    decreases e, 1, n
  {
    hide EncItem, PadLen, Typed;
    EncItemsStep(cfg, e, items, n, pos, pre);
    if n > 0 {
      var w := AlignOf(cfg.version, BulkWidth(e));
      var p := pos + |EncItems(cfg, e, items, n - 1, pos, pre)|;
      EncodeBulk(cfg, e, items, n - 1, pos, pre);
      EncodeBulkItem(cfg, e, items[n - 1], p, pre);
      if n > 1 {
        BulkBytesAligned(cfg.version, e);
        AlignedTimes(n - 1, BulkBytes(e), w);
        PadAligns(pos, w);
        AlignedSum(pos + PadLen(pos, w), Times(n - 1, BulkBytes(e)), w);
      }
    }
  }

  lemma {:induction false} EncodeBulkItem(cfg: Config, e: Type, v: Value, pos: nat, pre: seq<Byte>)
    requires Bulk(e) && Typed(e, v)
    ensures |EncItem(cfg, e, v, pos, pre)| == PadLen(pos, AlignOf(cfg.version, BulkWidth(e))) + BulkBytes(e)
    decreases e, 0, 0
  {
    hide PadLen;
    if e.Arr? { EncodeBulk(cfg, e.elem, v.items, e.size, pos, pre); }
  }

  // ---------------------------------------------------------------- how far the calculator runs ahead of the encoder

  /** In XCDRv1 an empty run of 8-byte scalars is still sized with their padding. */
  predicate EmptyWide(version: Version, e: Type, n: nat) {
    n == 0 && Bulk(e) && AlignOf(version, BulkWidth(e)).W8?
  }

  function Once(b: bool): nat {
    if b then 1 else 0
  }

  /** The empty vectors of 8-byte scalars, or of arrays of them, in a value. */
  function EmptyVectors(version: Version, ty: Type, v: Value): nat
    requires Typed(ty, v)
    decreases ty, 0, 0
  {
    match ty
    case Prim(_) => 0
    case Opt(e) => if v.Present? then EmptyVectors(version, e, v.inner) else 0
    case Seq(e) => Once(EmptyWide(version, e, |v.items|)) + EmptyVectorsIn(version, e, v.items, |v.items|)
    case Arr(e, n) => EmptyVectorsIn(version, e, v.items, n)
    case Map(k, e) => EmptyVectorsIn(version, k, v.keys, |v.keys|) + EmptyVectorsIn(version, e, v.vals, |v.vals|)
  }

  function EmptyVectorsIn(version: Version, ty: Type, vs: seq<Value>, n: nat): nat
    requires n <= |vs| && AllTyped(ty, vs)
    decreases ty, 1, n
  {
    if n == 0 then 0 else EmptyVectorsIn(version, ty, vs, n - 1) + EmptyVectors(version, ty, vs[n - 1])
  }

  lemma {:induction false} NoneInV2(version: Version, ty: Type, v: Value)
    requires version.XCDRv2? && Typed(ty, v)
    ensures EmptyVectors(version, ty, v) == 0
    decreases ty, 0, 0
  {
    hide Typed;
    TypedParts(ty, v);
    match ty
    case Prim(_) =>
    case Opt(e) => if v.Present? { InnerTyped(e, v); NoneInV2(version, e, v.inner); }
    case Seq(e) => NoneInV2Items(version, e, v.items, |v.items|);
    case Arr(e, n) => NoneInV2Items(version, e, v.items, n);
    case Map(k, e) => NoneInV2Items(version, k, v.keys, |v.keys|); NoneInV2Items(version, e, v.vals, |v.vals|);
  }

  lemma InnerTyped(e: Type, v: Value)
    requires Typed(Opt(e), v) && v.Present?
    ensures Typed(e, v.inner)
  {
  }

  lemma {:induction false} NoneInV2Items(version: Version, ty: Type, vs: seq<Value>, n: nat)
    requires version.XCDRv2? && n <= |vs| && AllTyped(ty, vs)
    ensures EmptyVectorsIn(version, ty, vs, n) == 0
    decreases ty, 1, n
  {
    hide EmptyVectors, Typed;
    if n > 0 {
      NoneInV2Items(version, ty, vs, n - 1);
      NoneInV2(version, ty, vs[n - 1]);
    }
  }

  /** The calculator stands at or after the encoder, a multiple of 4 and at most `8 * k` bytes ahead. */
  predicate Ahead(pos: nat, cur: nat, k: nat) {
    pos <= cur <= pos + 8 * k && (cur - pos) % 4 == 0
  }

  /** Padding keeps the lead within the bound: it can turn 4 bytes into 8, and no more. */
  lemma PadAhead(pos: nat, cur: nat, k: nat, w: Width)
    requires Ahead(pos, cur, k)
    ensures Ahead(pos + PadLen(pos, w), cur + PadLen(cur, w), k)
  {
    hide PadLen;
    var lead := (cur - pos) / 4;
    assert cur == pos + 4 * lead;
    match w {
      case W1 => SamePad(pos, lead, W1);
      case W2 => SamePad(pos, lead, W2);
      case W4 => SamePad(pos, lead, W4);
      case W8 =>
        var i := Up8(pos);
        var j := Up8(cur);
        Multiple4(2 * (j - i));
        assert cur + PadLen(cur, W8) - (pos + PadLen(pos, W8)) == 4 * (2 * (j - i));
    }
  }

  lemma SamePad(pos: nat, lead: nat, w: Width)
    requires !w.W8?
    ensures PadLen(pos + 4 * lead, w) == PadLen(pos, w)
  {
    match w
    case W1 =>
    case W2 => Shift2(pos, 2 * lead);
    case W4 => Shift4(pos, lead);
  }

  lemma Shift2(a: nat, k: nat)
    ensures (a + 2 * k) % 2 == a % 2
  {
    assert a + 2 * k == 2 * (a / 2 + k) + a % 2;
  }

  lemma Shift4(a: nat, k: nat)
    ensures (a + 4 * k) % 4 == a % 4
  {
    assert a + 4 * k == 4 * (a / 4 + k) + a % 4;
  }

  lemma Shift8(a: nat, k: nat)
    ensures (a + 8 * k) % 8 == a % 8
  {
    assert a + 8 * k == 8 * (a / 8 + k) + a % 8;
  }

  lemma Up8(pos: nat) returns (k: nat)
    ensures pos + PadLen(pos, W8) == 8 * k && pos <= 8 * k < pos + 8
  {
    k := if pos % 8 == 0 then pos / 8 else pos / 8 + 1;
    assert pos == 8 * (pos / 8) + pos % 8;
  }

  lemma {:induction false} SizeAhead(cfg: Config, ty: Type, v: Value, k: nat, pos: nat, cur: nat, pre: seq<Byte>)
    requires Typed(ty, v) && Ahead(pos, cur, k)
    ensures Ahead(pos + |Encode(cfg, ty, v, pos, pre)|, cur + CalcSize(cfg.version, ty, v, cur),
        k + EmptyVectors(cfg.version, ty, v))
    decreases ty, 2, 0
  {
    hide EncBody, CalcBody, PadLen, Delimited, EncWord, Enc32, AllTyped, Ahead, EmptyVectorsIn;
    match ty
    case Prim(w) => PrimAhead(cfg, w, v, k, pos, cur, pre);
    case Opt(e) => OptAhead(cfg, e, v, k, pos, cur, pre);
    case _ =>
      DelimitedIgnoresSwap(cfg, ty);
      if Delimited(cfg, ty) {
        PadAhead(pos, cur, k, W4);
        StepAhead(pos + PadLen(pos, W4), cur + PadLen(cur, W4), k, 4);
        BodyAhead(cfg, ty, v, k, pos + PadLen(pos, W4) + 4, cur + PadLen(cur, W4) + 4, pre);
      } else {
        BodyAhead(cfg, ty, v, k, pos, cur, pre);
      }
  }

  lemma StepAhead(pos: nat, cur: nat, k: nat, n: nat)
    requires Ahead(pos, cur, k)
    ensures Ahead(pos + n, cur + n, k)
  {
  }

  lemma PrimAhead(cfg: Config, w: Width, v: Value, k: nat, pos: nat, cur: nat, pre: seq<Byte>)
    requires Typed(Prim(w), v) && Ahead(pos, cur, k)
    ensures Ahead(pos + |Encode(cfg, Prim(w), v, pos, pre)|, cur + CalcSize(cfg.version, Prim(w), v, cur), k)
  {
    hide PadLen, Ahead;
    var a := AlignOf(cfg.version, w);
    PadAhead(pos, cur, k, a);
    StepAhead(pos + PadLen(pos, a), cur + PadLen(cur, a), k, w.Bytes());
  }

  lemma {:induction false} OptAhead(cfg: Config, e: Type, v: Value, k: nat, pos: nat, cur: nat, pre: seq<Byte>)
    requires Typed(Opt(e), v) && Ahead(pos, cur, k)
    ensures Ahead(pos + |Encode(cfg, Opt(e), v, pos, pre)|, cur + CalcSize(cfg.version, Opt(e), v, cur),
                  k + EmptyVectors(cfg.version, Opt(e), v))
    decreases e, 9, 0
  {
    hide PadLen, EncBody, CalcBody, EncWord, Delimited, Ahead, AllTyped, EmptyVectorsIn;
    var flag := if cfg.version.Flagged() then 1 else 0;
    StepAhead(pos, cur, k, flag);
    if v.Present? { SizeAhead(cfg, e, v.inner, k, pos + flag, cur + flag, pre); }
  }

  lemma DelimitedIgnoresSwap(cfg: Config, ty: Type)
    ensures Delimited(cfg, ty) == Delimited(Config(cfg.version, false, Little), ty)
  {
  }

  lemma {:induction false} BodyAhead(cfg: Config, ty: Type, v: Value, k: nat, pos: nat, cur: nat, pre: seq<Byte>)
    requires ty.Seq? || ty.Arr? || ty.Map?
    requires Typed(ty, v) && Ahead(pos, cur, k)
    ensures Ahead(pos + |EncBody(cfg, ty, v, pos, pre)|, cur + CalcBody(cfg.version, ty, v, cur),
        k + EmptyVectors(cfg.version, ty, v))
    decreases ty, 1, 0
  {
    hide EncItems, EncEntries, CalcItems, CalcEntries, PadLen, Ahead, EmptyVectorsIn, EmptyWide;
    TypedParts(ty, v);
    PadAhead(pos, cur, k, W4);
    StepAhead(pos + PadLen(pos, W4), cur + PadLen(cur, W4), k, 4);
    AlignedAfterWord(cur);
    var p, c := pos + PadLen(pos, W4) + 4, cur + PadLen(cur, W4) + 4;
    match ty
    case Arr(e, n) => ItemsAhead(cfg, e, v.items, n, k, pos, cur, pre); NotEmpty(cfg.version, e, n);
    case Seq(e) => ItemsAhead(cfg, e, v.items, |v.items|, k, p, c, pre);
    case Map(key, e) => EntriesAhead(cfg, key, e, v.keys, v.vals, |v.keys|, k, p, c, pre);
  }

  lemma NotEmpty(version: Version, e: Type, n: Positive)
    ensures !EmptyWide(version, e, n)
  {
  }

  /** An empty run costs the calculator padding: 4 bytes at most, since a count stands before it. */
  lemma {:induction false} ItemsAhead(cfg: Config, e: Type, items: seq<Value>, n: nat, k: nat, pos: nat, cur: nat,
                                      pre: seq<Byte>)
    requires n <= |items| && AllTyped(e, items) && Ahead(pos, cur, k) && (n == 0 ==> Aligned(cur, W4))
    ensures Ahead(pos + |EncItems(cfg, e, items, n, pos, pre)|, cur + CalcItems(cfg.version, e, items, n, cur),
                  k + Once(EmptyWide(cfg.version, e, n)) + EmptyVectorsIn(cfg.version, e, items, n))
    decreases e, 5, n
  {
    hide EncItem, EncItems, CalcItem, Typed, BulkBytes, PadLen, EmptyVectors, Ahead, Aligned;
    if Bulk(e) {
      BulkAhead(cfg, e, items, n, k, pos, cur, pre);
      MoreAhead(pos + |EncItems(cfg, e, items, n, pos, pre)|, cur + CalcItems(cfg.version, e, items, n, cur),
                k + Once(EmptyWide(cfg.version, e, n)), EmptyVectorsIn(cfg.version, e, items, n));
    } else {
      PlainItemsAhead(cfg, e, items, n, k, pos, cur, pre);
    }
  }

  lemma MoreAhead(pos: nat, cur: nat, k: nat, more: nat)
    requires Ahead(pos, cur, k)
    ensures Ahead(pos, cur, k + more)
  {
  }

  lemma BulkAhead(cfg: Config, e: Type, items: seq<Value>, n: nat, k: nat, pos: nat, cur: nat, pre: seq<Byte>)
    requires Bulk(e) && n <= |items| && AllTyped(e, items) && Ahead(pos, cur, k) && (n == 0 ==> Aligned(cur, W4))
    ensures Ahead(pos + |EncItems(cfg, e, items, n, pos, pre)|, cur + CalcItems(cfg.version, e, items, n, cur),
                  k + Once(EmptyWide(cfg.version, e, n)))
  {
    hide EncItems, BulkBytes, PadLen, Ahead, Aligned, AllTyped;
    var w := AlignOf(cfg.version, BulkWidth(e));
    EncodeBulk(cfg, e, items, n, pos, pre);
    if n == 0 {
      EmptyRunAhead(pos, cur, k, w);
    } else {
      PadAhead(pos, cur, k, w);
      StepAhead(pos + PadLen(pos, w), cur + PadLen(cur, w), k, Times(n, BulkBytes(e)));
    }
  }

  lemma EmptyRunAhead(pos: nat, cur: nat, k: nat, w: Width)
    requires Ahead(pos, cur, k) && Aligned(cur, W4)
    ensures Ahead(pos, cur + PadLen(cur, w), k + Once(w.W8?))
  {
    if w.W8? { WideAfterWord(cur); } else { NarrowerAligned(cur, w); }
  }

  lemma WideAfterWord(pos: nat)
    requires Aligned(pos, W4)
    ensures PadLen(pos, W8) == 0 || PadLen(pos, W8) == 4
  {
    assert pos == 4 * (pos / 4) && pos == 8 * (pos / 8) + pos % 8;
  }

  lemma {:induction false} PlainItemsAhead(cfg: Config, e: Type, items: seq<Value>, n: nat, k: nat, pos: nat,
                                           cur: nat, pre: seq<Byte>)
    requires !Bulk(e) && n <= |items| && AllTyped(e, items) && Ahead(pos, cur, k)
    ensures Ahead(pos + |EncItems(cfg, e, items, n, pos, pre)|, cur + CalcItems(cfg.version, e, items, n, cur),
                  k + EmptyVectorsIn(cfg.version, e, items, n))
    decreases e, 4, n
  {
    hide EncItem, EncItems, CalcItem, Typed, PadLen, EmptyVectors, Ahead;
    EncItemsStep(cfg, e, items, n, pos, pre);
    if n > 0 {
      PlainItemsAhead(cfg, e, items, n - 1, k, pos, cur, pre);
      ItemAhead(cfg, e, items[n - 1], k + EmptyVectorsIn(cfg.version, e, items, n - 1),
                pos + |EncItems(cfg, e, items, n - 1, pos, pre)|, cur + CalcItems(cfg.version, e, items, n - 1, cur),
                    pre);
    }
  }

  lemma {:induction false} ItemAhead(cfg: Config, e: Type, v: Value, k: nat, pos: nat, cur: nat, pre: seq<Byte>)
    requires Typed(e, v) && Ahead(pos, cur, k)
    ensures Ahead(pos + |EncItem(cfg, e, v, pos, pre)|, cur + CalcItem(cfg.version, e, v, cur),
        k + EmptyVectors(cfg.version, e, v))
    decreases e, 3, 0
  {
    hide Encode, CalcSize, EncItems, CalcItems, Ahead, EmptyVectorsIn, EmptyWide;
    if e.Arr? {
      TypedParts(e, v);
      ItemsAhead(cfg, e.elem, v.items, e.size, k, pos, cur, pre);
      NotEmpty(cfg.version, e.elem, e.size);
    } else {
      SizeAhead(cfg, e, v, k, pos, cur, pre);
    }
  }

  lemma CalcEntriesStep(version: Version, k: Type, e: Type, keys: seq<Value>, vals: seq<Value>, n: nat, cur: nat)
    requires n <= |keys| == |vals| && AllTyped(k, keys) && AllTyped(e, vals)
    ensures cur + CalcEntries(version, k, e, keys, vals, n, cur) ==
      if n == 0 then cur
      else
        var c := cur + CalcEntries(version, k, e, keys, vals, n - 1, cur);
        var d := c + CalcSize(version, k, keys[n - 1], c);
        d + CalcSize(version, e, vals[n - 1], d)
  {
    hide CalcSize;
  }

  lemma {:induction false} EntriesAhead(cfg: Config, key: Type, e: Type, keys: seq<Value>, vals: seq<Value>, n: nat,
                                        k: nat, pos: nat, cur: nat, pre: seq<Byte>)
    requires n <= |keys| == |vals| && AllTyped(key, keys) && AllTyped(e, vals) && Ahead(pos, cur, k)
    ensures Ahead(pos + |EncEntries(cfg, key, e, keys, vals, n, pos, pre)|, cur + CalcEntries(cfg.version, key, e,
        keys, vals, n, cur),
                  k + EmptyVectorsIn(cfg.version, key, keys, n) + EmptyVectorsIn(cfg.version, e, vals, n))
    decreases Map(key, e), 0, n
  {
    hide Encode, CalcSize, Typed, EncEntries, CalcEntries, EmptyVectors, Ahead;
    EncEntriesStep(cfg, key, e, keys, vals, n, pos, pre);
    CalcEntriesStep(cfg.version, key, e, keys, vals, n, cur);
    if n > 0 {
      EntriesAhead(cfg, key, e, keys, vals, n - 1, k, pos, cur, pre);
      var p := pos + |EncEntries(cfg, key, e, keys, vals, n - 1, pos, pre)|;
      var c := cur + CalcEntries(cfg.version, key, e, keys, vals, n - 1, cur);
      var j := k + EmptyVectorsIn(cfg.version, key, keys, n - 1) + EmptyVectorsIn(cfg.version, e, vals, n - 1);
      SizeAhead(cfg, key, keys[n - 1], j, p, c, pre);
      SizeAhead(cfg, e, vals[n - 1], j + EmptyVectors(cfg.version, key, keys[n - 1]), p + |Encode(cfg, key,
          keys[n - 1], p, pre)|,
                c + CalcSize(cfg.version, key, keys[n - 1], c), pre);
    }
  }

  /** In XCDRv2 the calculator returns exactly the bytes that the encoder advances over. */
  lemma SizeAgreesV2(cfg: Config, ty: Type, v: Value, pos: nat, pre: seq<Byte>)
    requires cfg.version.XCDRv2? && Typed(ty, v)
    ensures CalcSize(cfg.version, ty, v, pos) == |Encode(cfg, ty, v, pos, pre)|
  {
    hide Encode, CalcSize, Typed, EmptyVectors;
    SizeAhead(cfg, ty, v, 0, pos, pos, pre);
    NoneInV2(cfg.version, ty, v);
  }

  /** In XCDRv1 it never returns less, and at most 8 bytes more for each empty vector of 8-byte scalars. */
  lemma SizeBoundsV1(cfg: Config, ty: Type, v: Value, pos: nat, pre: seq<Byte>)
    requires cfg.version.XCDRv1? && Typed(ty, v)
    ensures var calculated, encoded := CalcSize(XCDRv1, ty, v, pos), |Encode(cfg, ty, v, pos, pre)|;
      encoded <= calculated <= encoded + 8 * EmptyVectors(XCDRv1, ty, v) && (calculated - encoded) % 4 == 0
  {
    hide Encode, CalcSize, Typed, EmptyVectors;
    SizeAhead(cfg, ty, v, 0, pos, pos, pre);
  }
}
