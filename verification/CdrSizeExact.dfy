/** XCDRv1: exactly when the calculator keeps step with the encoder.

    It pads an empty vector of 8-byte scalars although nothing follows the count. That goes unnoticed when the count
    ends on a multiple of 8, costs 4 bytes when it does not, and later padding can double or absorb those 4 bytes. */
module CdrSizeExact {
  import opened Basics
  import opened CdrSpec
  import opened CdrRoundTrip
  import opened CdrSize

  /** Calculator and encoder, started at the same position, stand at the same position after every datum in the value.
      */
  ghost predicate Lockstep(cfg: Config, ty: Type, v: Value, pos: nat)
    requires Typed(ty, v)
    decreases ty, 1
  {
    && CalcSize(cfg.version, ty, v, pos) == |Encode(cfg, ty, v, pos, [])|
    && match ty
      case Prim(_) => true
      case Opt(e) => v.Present? ==> Lockstep(cfg, e, v.inner, pos)
      case Seq(e) => LockstepItems(cfg, e, v.items, pos + PadLen(pos, W4) + 4)
      case Arr(e, _) => LockstepItems(cfg, e, v.items, pos)
      case Map(k, e) => LockstepEntries(cfg, k, e, v.keys, v.vals, pos + PadLen(pos, W4) + 4)
  }

  ghost predicate LockstepItems(cfg: Config, e: Type, items: seq<Value>, pos: nat)
    requires AllTyped(e, items)
    decreases e, 2
  {
    forall i :: 0 <= i < |items| ==> Lockstep(cfg, e, items[i], pos + |EncItems(cfg, e, items, i, pos, [])|)
  }

  ghost predicate LockstepEntries(cfg: Config, k: Type, e: Type, keys: seq<Value>, vals: seq<Value>, pos: nat)
    requires |keys| == |vals| && AllTyped(k, keys) && AllTyped(e, vals)
    decreases Map(k, e), 0
  {
    && (forall i :: 0 <= i < |keys| ==> Lockstep(cfg, k, keys[i], KeyPos(cfg, k, e, keys, vals, i, pos)))
    && (forall i :: 0 <= i < |keys| ==> Lockstep(cfg, e, vals[i], ValPos(cfg, k, e, keys, vals, i, pos)))
  }

  ghost function KeyPos(cfg: Config, k: Type, e: Type, keys: seq<Value>, vals: seq<Value>, i: nat, pos: nat): nat
    requires i <= |keys| == |vals| && AllTyped(k, keys) && AllTyped(e, vals)
  {
    pos + |EncEntries(cfg, k, e, keys, vals, i, pos, [])|
  }

  ghost function ValPos(cfg: Config, k: Type, e: Type, keys: seq<Value>, vals: seq<Value>, i: nat, pos: nat): nat
    requires i < |keys| == |vals| && AllTyped(k, keys) && AllTyped(e, vals)
  {
    var p := KeyPos(cfg, k, e, keys, vals, i, pos);
    p + |Encode(cfg, k, keys[i], p, [])|
  }

  /** The count of every empty vector of 8-byte scalars ends on a multiple of 8. */
  ghost predicate CountsAligned(cfg: Config, ty: Type, v: Value, pos: nat)
    requires Typed(ty, v)
    decreases ty, 1
  {
    match ty
    case Prim(_) => true
    case Opt(e) => v.Present? ==> CountsAligned(cfg, e, v.inner, pos)
    case Seq(e) =>
      var p := pos + PadLen(pos, W4) + 4;
      (EmptyWide(cfg.version, e, |v.items|) ==> Aligned(p, W8)) && CountsAlignedItems(cfg, e, v.items, p)
    case Arr(e, _) => CountsAlignedItems(cfg, e, v.items, pos)
    case Map(k, e) => CountsAlignedEntries(cfg, k, e, v.keys, v.vals, pos + PadLen(pos, W4) + 4)
  }

  ghost predicate CountsAlignedItems(cfg: Config, e: Type, items: seq<Value>, pos: nat)
    requires AllTyped(e, items)
    decreases e, 2
  {
    forall i :: 0 <= i < |items| ==> CountsAligned(cfg, e, items[i], pos + |EncItems(cfg, e, items, i, pos, [])|)
  }

  ghost predicate CountsAlignedEntries(cfg: Config, k: Type, e: Type, keys: seq<Value>, vals: seq<Value>, pos: nat)
    requires |keys| == |vals| && AllTyped(k, keys) && AllTyped(e, vals)
    decreases Map(k, e), 0
  {
    && (forall i :: 0 <= i < |keys| ==> CountsAligned(cfg, k, keys[i], KeyPos(cfg, k, e, keys, vals, i, pos)))
    && (forall i :: 0 <= i < |keys| ==> CountsAligned(cfg, e, vals[i], ValPos(cfg, k, e, keys, vals, i, pos)))
  }

  // ---------------------------------------------------------------- one vector

  lemma VectorParts(cfg: Config, e: Type, v: Value, pos: nat, pre: seq<Byte>)
    requires cfg.version.XCDRv1? && Typed(Seq(e), v)
    ensures var p := pos + PadLen(pos, W4) + 4;
      AllTyped(e, v.items)
      && pos + |Encode(cfg, Seq(e), v, pos, pre)| == p + |EncItems(cfg, e, v.items, |v.items|, p, pre)|
      && pos + CalcSize(cfg.version, Seq(e), v, pos) == p + CalcItems(cfg.version, e, v.items, |v.items|, p)
  {
    hide EncItems, CalcItems, PadLen;
    TypedParts(Seq(e), v);
  }

  /** A vector of 8-byte scalars, or of arrays of them, is sized exactly if and only if it has an element or its count
      ends where an element could start. */
  lemma VectorSizedExactly(cfg: Config, e: Type, v: Value, pos: nat, pre: seq<Byte>)
    requires cfg.version.XCDRv1? && Bulk(e) && Typed(Seq(e), v)
    ensures CalcSize(XCDRv1, Seq(e), v, pos) == |Encode(cfg, Seq(e), v, pos, pre)|
       <==> v.items != [] || Aligned(pos + PadLen(pos, W4) + 4, BulkWidth(e))
  {
    hide EncItems, PadLen, BulkBytes, AllTyped;
    TypedParts(Seq(e), v);
    var p := pos + PadLen(pos, W4) + 4;
    VectorParts(cfg, e, v, pos, pre);
    EncodeBulk(cfg, e, v.items, |v.items|, p, pre);
  }

  /** The smallest miscount: an empty vector at the origin is sized 8 and takes 4 bytes. */
  lemma EmptyVectorMiscounted(cfg: Config, pre: seq<Byte>)
    requires cfg.version.XCDRv1?
    ensures var v := List([]);
      CalcSize(XCDRv1, Seq(Prim(W8)), v, 0) == 8 && |Encode(cfg, Seq(Prim(W8)), v, 0, pre)| == 4
  {
    assert |EncItems(cfg, Prim(W8), [], 0, 4, pre)| == 0;
  }

  // ---------------------------------------------------------------- whole values

  lemma PlainItem(cfg: Config, e: Type, v: Value, pos: nat)
    requires cfg.version.XCDRv1? && Typed(e, v)
    ensures EncItem(cfg, e, v, pos, []) == Encode(cfg, e, v, pos, [])
    ensures CalcItem(cfg.version, e, v, pos) == CalcSize(cfg.version, e, v, pos)
  {
    hide EncItems, CalcItems;
  }

  lemma {:induction false} ItemsExact(cfg: Config, e: Type, items: seq<Value>, n: nat, pos: nat)
    requires cfg.version.XCDRv1? && n <= |items| && AllTyped(e, items) && LockstepItems(cfg, e, items, pos)
    requires EmptyWide(cfg.version, e, n) ==> Aligned(pos, W8)
    requires n == 0 ==> Aligned(pos, W4)
    ensures CalcItems(cfg.version, e, items, n, pos) == |EncItems(cfg, e, items, n, pos, [])|
  {
    hide EncItems, EncItem, CalcItem, PadLen, Typed, BulkBytes, Lockstep, LockstepItems;
    if Bulk(e) {
      EncodeBulk(cfg, e, items, n, pos, []);
      if n == 0 && !BulkWidth(e).W8? { Narrow(pos, BulkWidth(e)); }
    } else {
      PlainItemsExact(cfg, e, items, n, pos);
    }
  }

  lemma Narrow(pos: nat, w: Width)
    requires Aligned(pos, W4) && !w.W8?
    ensures PadLen(pos, w) == 0
  {
    NarrowerAligned(pos, w);
  }

  lemma {:induction false} PlainItemsExact(cfg: Config, e: Type, items: seq<Value>, n: nat, pos: nat)
    requires cfg.version.XCDRv1? && !Bulk(e) && n <= |items| && AllTyped(e, items) && LockstepItems(cfg, e, items, pos)
    ensures CalcItems(cfg.version, e, items, n, pos) == |EncItems(cfg, e, items, n, pos, [])|
  {
    hide EncItems, EncItem, CalcItem, Typed, Lockstep, Encode, CalcSize;
    EncItemsStep(cfg, e, items, n, pos, []);
    if n > 0 {
      PlainItemsExact(cfg, e, items, n - 1, pos);
      var p := pos + |EncItems(cfg, e, items, n - 1, pos, [])|;
      PlainItem(cfg, e, items[n - 1], p);
      LockstepSize(cfg, e, items[n - 1], p);
    }
  }

  lemma LockstepSize(cfg: Config, ty: Type, v: Value, pos: nat)
    requires Typed(ty, v) && Lockstep(cfg, ty, v, pos)
    ensures CalcSize(cfg.version, ty, v, pos) == |Encode(cfg, ty, v, pos, [])|
  {
    hide CalcSize, Encode, LockstepItems, LockstepEntries;
  }

  lemma {:induction false} EntriesExact(cfg: Config, k: Type, e: Type, keys: seq<Value>, vals: seq<Value>, n: nat,
                                        pos: nat)
    requires cfg.version.XCDRv1? && n <= |keys| == |vals| && AllTyped(k, keys) && AllTyped(e, vals)
    requires LockstepEntries(cfg, k, e, keys, vals, pos)
    ensures CalcEntries(cfg.version, k, e, keys, vals, n, pos) == |EncEntries(cfg, k, e, keys, vals, n, pos, [])|
  {
    hide Encode, CalcSize, EncEntries, CalcEntries, Typed, Lockstep;
    EncEntriesStep(cfg, k, e, keys, vals, n, pos, []);
    CalcEntriesStep(cfg.version, k, e, keys, vals, n, pos);
    if n > 0 {
      EntriesExact(cfg, k, e, keys, vals, n - 1, pos);
      LockstepSize(cfg, k, keys[n - 1], KeyPos(cfg, k, e, keys, vals, n - 1, pos));
      LockstepSize(cfg, e, vals[n - 1], ValPos(cfg, k, e, keys, vals, n - 1, pos));
    }
  }

  /** The two stand at the same position after every datum if and only if the count of every empty vector of 8-byte
      scalars ends on a multiple of 8. */
  lemma {:induction false} InStepExactly(cfg: Config, ty: Type, v: Value, pos: nat)
    requires cfg.version.XCDRv1? && Typed(ty, v)
    ensures Lockstep(cfg, ty, v, pos) <==> CountsAligned(cfg, ty, v, pos)
    decreases ty, 1
  {
    hide Encode, CalcSize, Typed, LockstepItems, LockstepEntries, CountsAlignedItems, CountsAlignedEntries, PadLen,
        EmptyWide, Aligned;
    TypedParts(ty, v);
    var p := pos + PadLen(pos, W4) + 4;
    match ty
    case Prim(w) => PrimExact(cfg, w, v, pos);
    case Opt(e) =>
      OptExact(cfg, e, v, pos);
      if v.Present? { InnerTyped(e, v); InStepExactly(cfg, e, v.inner, pos); }
    case Seq(e) => VectorInStep(cfg, e, v, pos);
    case Arr(e, n) =>
      ItemsInStep(cfg, e, v.items, pos);
      if LockstepItems(cfg, e, v.items, pos) { ArrayExact(cfg, e, n, v, pos); }
    case Map(k, e) =>
      EntriesInStep(cfg, k, e, v.keys, v.vals, p);
      if LockstepEntries(cfg, k, e, v.keys, v.vals, p) { MapExact(cfg, k, e, v, pos); }
  }

  lemma PrimExact(cfg: Config, w: Width, v: Value, pos: nat)
    requires Typed(Prim(w), v)
    ensures CalcSize(cfg.version, Prim(w), v, pos) == |Encode(cfg, Prim(w), v, pos, [])|
  {
  }

  lemma OptExact(cfg: Config, e: Type, v: Value, pos: nat)
    requires cfg.version.XCDRv1? && Typed(Opt(e), v)
    ensures |Encode(cfg, Opt(e), v, pos, [])| == if v.Present? then |Encode(cfg, e, v.inner, pos, [])| else 0
    ensures CalcSize(cfg.version, Opt(e), v, pos) == if v.Present? then CalcSize(cfg.version, e, v.inner, pos) else 0
  {
    hide EncBody, CalcBody, EncWord, Delimited;
  }

  lemma ArrayExact(cfg: Config, e: Type, n: Positive, v: Value, pos: nat)
    requires cfg.version.XCDRv1? && Typed(Arr(e, n), v) && LockstepItems(cfg, e, v.items, pos)
    ensures CalcSize(cfg.version, Arr(e, n), v, pos) == |Encode(cfg, Arr(e, n), v, pos, [])|
  {
    hide EncItems, CalcItems, LockstepItems;
    TypedParts(Arr(e, n), v);
    ItemsExact(cfg, e, v.items, n, pos);
  }

  lemma MapExact(cfg: Config, k: Type, e: Type, v: Value, pos: nat)
    requires cfg.version.XCDRv1? && Typed(Map(k, e), v) && LockstepEntries(cfg, k, e, v.keys, v.vals,
        pos + PadLen(pos, W4) + 4)
    ensures CalcSize(cfg.version, Map(k, e), v, pos) == |Encode(cfg, Map(k, e), v, pos, [])|
  {
    hide EncEntries, CalcEntries, LockstepEntries, PadLen;
    TypedParts(Map(k, e), v);
    EntriesExact(cfg, k, e, v.keys, v.vals, |v.keys|, pos + PadLen(pos, W4) + 4);
  }

  lemma {:induction false} VectorInStep(cfg: Config, e: Type, v: Value, pos: nat)
    requires cfg.version.XCDRv1? && Typed(Seq(e), v)
    ensures Lockstep(cfg, Seq(e), v, pos) <==> CountsAligned(cfg, Seq(e), v, pos)
    decreases e, 9
  {
    hide Encode, CalcSize, Typed, LockstepItems, CountsAlignedItems, PadLen, Aligned;
    TypedParts(Seq(e), v);
    var p := pos + PadLen(pos, W4) + 4;
    ItemsInStep(cfg, e, v.items, p);
    VectorParts(cfg, e, v, pos, []);
    if LockstepItems(cfg, e, v.items, p) {
      if EmptyWide(cfg.version, e, |v.items|) {
        VectorSizedExactly(cfg, e, v, pos, []);
      } else {
        AlignedAfterWord(pos);
        ItemsExact(cfg, e, v.items, |v.items|, p);
      }
    }
  }

  lemma {:induction false} ItemsInStep(cfg: Config, e: Type, items: seq<Value>, pos: nat)
    requires cfg.version.XCDRv1? && AllTyped(e, items)
    ensures LockstepItems(cfg, e, items, pos) <==> CountsAlignedItems(cfg, e, items, pos)
    decreases e, 2
  {
    hide Lockstep, CountsAligned, Typed, EncItems;
    forall i | 0 <= i < |items|
      ensures var p := pos + |EncItems(cfg, e, items, i, pos, [])|;
        Lockstep(cfg, e, items[i], p) <==> CountsAligned(cfg, e, items[i], p)
    {
      InStepExactly(cfg, e, items[i], pos + |EncItems(cfg, e, items, i, pos, [])|);
    }
  }

  lemma {:induction false} EntriesInStep(cfg: Config, k: Type, e: Type, keys: seq<Value>, vals: seq<Value>, pos: nat)
    requires cfg.version.XCDRv1? && |keys| == |vals| && AllTyped(k, keys) && AllTyped(e, vals)
    ensures LockstepEntries(cfg, k, e, keys, vals, pos) <==> CountsAlignedEntries(cfg, k, e, keys, vals, pos)
    decreases Map(k, e), 0
  {
    hide Lockstep, CountsAligned, Typed, KeyPos, ValPos;
    forall i | 0 <= i < |keys|
      ensures var p := KeyPos(cfg, k, e, keys, vals, i, pos);
        Lockstep(cfg, k, keys[i], p) <==> CountsAligned(cfg, k, keys[i], p)
      ensures var q := ValPos(cfg, k, e, keys, vals, i, pos);
        Lockstep(cfg, e, vals[i], q) <==> CountsAligned(cfg, e, vals[i], q)
    {
      InStepExactly(cfg, k, keys[i], KeyPos(cfg, k, e, keys, vals, i, pos));
      InStepExactly(cfg, e, vals[i], ValPos(cfg, k, e, keys, vals, i, pos));
    }
  }

  /** In step, the sizes of the whole value agree. */
  lemma InStepSizesAgree(cfg: Config, ty: Type, v: Value, pos: nat)
    requires cfg.version.XCDRv1? && Typed(ty, v) && CountsAligned(cfg, ty, v, pos)
    ensures CalcSize(XCDRv1, ty, v, pos) == |Encode(cfg, ty, v, pos, [])|
  {
    hide CalcSize, Encode, Lockstep, CountsAligned, Typed;
    InStepExactly(cfg, ty, v, pos);
    LockstepSize(cfg, ty, v, pos);
  }

  // ---------------------------------------------------------------- out of step

  /** Where encoder and calculator stand after a vector of at most one 8-byte scalar. */
  lemma ShortVector(cfg: Config, v: Value, pos: nat)
    requires cfg.version.XCDRv1? && Typed(Seq(Prim(W8)), v)
    ensures var p := pos + PadLen(pos, W4) + 4;
      && pos + CalcSize(XCDRv1, Seq(Prim(W8)), v, pos) == p + PadLen(p, W8) + 8 * |v.items|
      && pos + |Encode(cfg, Seq(Prim(W8)), v, pos, [])|
        == if v.items == [] then p else p + PadLen(p, W8) + 8 * |v.items|
  {
    hide EncItems, PadLen;
    var p := pos + PadLen(pos, W4) + 4;
    VectorParts(cfg, Prim(W8), v, pos, []);
    EncodeBulk(cfg, Prim(W8), v.items, |v.items|, p, []);
    TimesIsProduct(|v.items|, 8);
  }

  lemma PadFrom8(q: nat, r: nat, w: Width)
    ensures PadLen(8 * q + r, w) == PadLen(r, w)
  {
    match w
    case W1 =>
    case W2 => Shift2(r, 4 * q);
    case W4 => Shift4(r, 2 * q);
    case W8 => Shift8(r, q);
  }

  /** Empty vectors and vectors of one scalar in turn. */
  function Alternating(x: Value, n: nat): (items: seq<Value>)
    ensures |items| == 2 * n
    ensures forall i :: 0 <= i < n ==> items[2 * i] == List([]) && items[2 * i + 1] == List([x])
  {
    if n == 0 then [] else Alternating(x, n - 1) + [List([]), List([x])]
  }

  lemma AlternatingTyped(x: Value, n: nat)
    requires Typed(Prim(W8), x)
    ensures AllTyped(Seq(Prim(W8)), Alternating(x, n))
  {
    var e := Seq(Prim(W8));
    assert Typed(e, List([])) && Typed(e, List([x]));
    var items := Alternating(x, n);
    forall i | 0 <= i < |items| ensures Typed(e, items[i]) {
      assert i == 2 * (i / 2) || i == 2 * (i / 2) + 1;
    }
  }

  /** Every empty vector takes the encoder 4 bytes and the calculator 8; a pair takes them 16 and 24. */
  lemma {:induction false} LeadAfter(cfg: Config, x: Value, items: seq<Value>, n: nat, k: nat)
    requires cfg.version.XCDRv1? && Typed(Prim(W8), x) && k <= n && items == Alternating(x, n)
    requires AllTyped(Seq(Prim(W8)), items)
    ensures |EncItems(cfg, Seq(Prim(W8)), items, 2 * k, 8, [])| == 16 * k
    ensures CalcItems(XCDRv1, Seq(Prim(W8)), items, 2 * k, 8) == 24 * k
    ensures EmptyVectorsIn(XCDRv1, Seq(Prim(W8)), items, 2 * k) == k
    decreases k
  {
    hide Encode, CalcSize, EncItems, CalcItems, EmptyVectors, Typed, AllTyped, Alternating, PadLen, EmptyVectorsIn;
    var e := Seq(Prim(W8));
    EncItemsStep(cfg, e, items, 2 * k, 8, []);
    CalcItemsStep(e, items, 2 * k, 8);
    EmptyVectorsStep(e, items, 2 * k);
    if k > 0 {
      LeadAfter(cfg, x, items, n, k - 1);
      EncItemsStep(cfg, e, items, 2 * k - 1, 8, []);
      CalcItemsStep(e, items, 2 * k - 1, 8);
      EmptyVectorsStep(e, items, 2 * k - 1);
      assert items[2 * (k - 1)] == List([]) && items[2 * (k - 1) + 1] == List([x]);
      PairSizes(cfg, x, k);
    }
  }

  lemma CalcItemsStep(e: Type, items: seq<Value>, n: nat, cur: nat)
    requires e.Seq? && n <= |items| && AllTyped(e, items)
    ensures CalcItems(XCDRv1, e, items, n, cur) ==
      if n == 0 then 0
      else
        var front := CalcItems(XCDRv1, e, items, n - 1, cur);
        front + CalcSize(XCDRv1, e, items[n - 1], cur + front)
  {
    hide CalcSize, Typed;
  }

  lemma EmptyVectorsStep(e: Type, items: seq<Value>, n: nat)
    requires n <= |items| && AllTyped(e, items)
    ensures EmptyVectorsIn(XCDRv1, e, items, n) ==
      if n == 0 then 0 else EmptyVectorsIn(XCDRv1, e, items, n - 1) + EmptyVectors(XCDRv1, e, items[n - 1])
  {
    hide EmptyVectors, Typed;
  }

  lemma PairSizes(cfg: Config, x: Value, k: nat)
    requires cfg.version.XCDRv1? && Typed(Prim(W8), x) && 0 < k
    ensures var e := Seq(Prim(W8));
      && Typed(e, List([])) && Typed(e, List([x]))
      && EmptyVectors(XCDRv1, e, List([])) == 1 && EmptyVectors(XCDRv1, e, List([x])) == 0
      && |EncItem(cfg, e, List([]), 8 + 16 * (k - 1), [])| == 4
      && |EncItem(cfg, e, List([x]), 12 + 16 * (k - 1), [])| == 12
      && CalcSize(XCDRv1, e, List([]), 8 + 24 * (k - 1)) == 8
      && CalcSize(XCDRv1, e, List([x]), 16 + 24 * (k - 1)) == 16
  {
    hide Encode, CalcSize, EncItems, EncItem, CalcItems, PadLen, Typed, EmptyVectors;
    var e := Seq(Prim(W8));
    PairCounts(x);
    var a, b := 16 * (k - 1), 24 * (k - 1);
    ShortVector(cfg, List([]), 8 + a);
    ShortVector(cfg, List([x]), 12 + a);
    ShortVector(cfg, List([]), 8 + b);
    ShortVector(cfg, List([x]), 16 + b);
    PlainItem(cfg, e, List([]), 8 + a);
    PlainItem(cfg, e, List([x]), 12 + a);
    PadsOfPair(k - 1);
  }

  lemma PairCounts(x: Value)
    requires Typed(Prim(W8), x)
    ensures Typed(Seq(Prim(W8)), List([])) && Typed(Seq(Prim(W8)), List([x]))
    ensures EmptyVectors(XCDRv1, Seq(Prim(W8)), List([])) == 1 && EmptyVectors(XCDRv1, Seq(Prim(W8)), List([x])) == 0
  {
    assert Typed(Seq(Prim(W8)), List([x]));
    assert EmptyVectorsIn(XCDRv1, Prim(W8), [], 0) == 0;
    assert EmptyVectorsIn(XCDRv1, Prim(W8), [x], 1) == 0;
  }

  lemma PadsOfPair(k: nat)
    ensures PadLen(8 + 16 * k, W4) == 0 && PadLen(12 + 16 * k, W4) == 0 && PadLen(16 + 16 * k, W8) == 0
    ensures PadLen(8 + 24 * k, W4) == 0 && PadLen(12 + 24 * k, W8) == 4
    ensures PadLen(16 + 24 * k, W4) == 0 && PadLen(20 + 24 * k, W8) == 4
  {
    hide PadLen;
    PadFrom8(2 * k, 8, W4);
    PadFrom8(2 * k, 12, W4);
    PadFrom8(2 * k, 16, W8);
    PadFrom8(3 * k, 8, W4);
    PadFrom8(3 * k, 12, W8);
    PadFrom8(3 * k, 16, W4);
    PadFrom8(3 * k, 20, W8);
    PadsBelow24();
  }

  lemma PadsBelow24()
    ensures PadLen(8, W4) == 0 && PadLen(12, W4) == 0 && PadLen(16, W8) == 0 && PadLen(16, W4) == 0
    ensures PadLen(12, W8) == 4 && PadLen(20, W8) == 4
  {
  }

  /** The bound on the lead is reached for every number of empty vectors: each can cost 8 bytes, although its own
      padding is only 4, since those 4 make the next padding 4 bytes longer. */
  lemma LeadReached(cfg: Config, x: Value, n: nat)
    requires cfg.version.XCDRv1? && Typed(Prim(W8), x)
    ensures var ty, v := Seq(Seq(Prim(W8))), List(Alternating(x, n));
      && Typed(ty, v) && EmptyVectors(XCDRv1, ty, v) == n
      && CalcSize(XCDRv1, ty, v, 4) == |Encode(cfg, ty, v, 4, [])| + 8 * n
  {
    hide Encode, CalcSize, EncItems, CalcItems, AllTyped, Alternating, EmptyVectorsIn;
    var e, items := Seq(Prim(W8)), Alternating(x, n);
    AlternatingTyped(x, n);
    VectorParts(cfg, e, List(items), 4, []);
    LeadAfter(cfg, x, items, n, n);
  }

  /** The totals can agree although the two were out of step: later padding absorbs the lead. */
  lemma LeadAbsorbed(cfg: Config, x: Value)
    requires cfg.version.XCDRv1? && Typed(Prim(W8), x)
    ensures var ty, v := Map(Seq(Prim(W8)), Prim(W8)), Table([List([])], [x]);
      && Typed(ty, v) && !CountsAligned(cfg, ty, v, 4)
      && CalcSize(XCDRv1, ty, v, 4) == |Encode(cfg, ty, v, 4, [])|
  {
    hide Encode, CalcSize, EncEntries, CalcEntries, CountsAligned;
    var k, keys, vals := Seq(Prim(W8)), [List([])], [x];
    assert Typed(k, keys[0]);
    MapParts(cfg, k, Prim(W8), Table(keys, vals), 4);
    EncEntriesStep(cfg, k, Prim(W8), keys, vals, 0, 8, []);
    EncEntriesStep(cfg, k, Prim(W8), keys, vals, 1, 8, []);
    CalcEntriesStep(XCDRv1, k, Prim(W8), keys, vals, 0, 8);
    CalcEntriesStep(XCDRv1, k, Prim(W8), keys, vals, 1, 8);
    ShortVector(cfg, keys[0], 8);
    WideWord(cfg, x, 12);
    WideWord(cfg, x, 16);
    OutOfStep(cfg, k, Prim(W8), Table(keys, vals), 4);
  }

  lemma WideWord(cfg: Config, x: Value, pos: nat)
    requires cfg.version.XCDRv1? && Typed(Prim(W8), x)
    ensures pos + |Encode(cfg, Prim(W8), x, pos, [])| == pos + CalcSize(XCDRv1, Prim(W8), x, pos)
      == pos + PadLen(pos, W8) + 8
  {
    hide PadLen;
  }

  lemma MapParts(cfg: Config, k: Type, e: Type, v: Value, pos: nat)
    requires cfg.version.XCDRv1? && Typed(Map(k, e), v)
    ensures var p := pos + PadLen(pos, W4) + 4;
      AllTyped(k, v.keys) && AllTyped(e, v.vals)
      && pos + |Encode(cfg, Map(k, e), v, pos, [])| == p + |EncEntries(cfg, k, e, v.keys, v.vals, |v.keys|, p, [])|
      && pos + CalcSize(cfg.version, Map(k, e), v, pos) == p + CalcEntries(cfg.version, k, e, v.keys, v.vals,
          |v.keys|, p)
  {
    hide EncEntries, CalcEntries, PadLen;
    TypedParts(Map(k, e), v);
  }

  lemma OutOfStep(cfg: Config, k: Type, e: Type, v: Value, pos: nat)
    requires cfg.version.XCDRv1? && k == Seq(Prim(W8)) && pos == 4
    requires Typed(Map(k, e), v) && v.keys == [List([])]
    ensures !CountsAligned(cfg, Map(k, e), v, pos)
  {
    hide EncEntries, CountsAligned;
    NotAlignedAtEight(cfg);
    if CountsAligned(cfg, Map(k, e), v, pos) {
      FirstKey(cfg, k, e, v, pos);
      assert false;
    }
  }

  lemma NotAlignedAtEight(cfg: Config)
    requires cfg.version.XCDRv1?
    ensures !CountsAligned(cfg, Seq(Prim(W8)), List([]), 8)
  {
  }

  lemma FirstKey(cfg: Config, k: Type, e: Type, v: Value, pos: nat)
    requires Typed(Map(k, e), v) && 0 < |v.keys| && CountsAligned(cfg, Map(k, e), v, pos)
    ensures Typed(k, v.keys[0]) && CountsAligned(cfg, k, v.keys[0], pos + PadLen(pos, W4) + 4)
  {
    hide PadLen;
    var p := pos + PadLen(pos, W4) + 4;
    TypedParts(Map(k, e), v);
    assert KeyPos(cfg, k, e, v.keys, v.vals, 0, p) == p;
  }
}
