/** Decoding an encoding: when it gives the value back, and exactly when it does not. */
module CdrRoundTrip {
  import opened Basics
  import opened CdrSpec

  /** No optional in the value is empty. Without a presence flag, nothing is written for an empty optional. */
  ghost predicate NoAbsent(v: Value)
    decreases v
  {
    match v
    case Word(_) => true
    case List(items) => forall i :: 0 <= i < |items| ==> NoAbsent(items[i])
    case Table(keys, vals) =>
      && (forall i :: 0 <= i < |keys| ==> NoAbsent(keys[i]))
      && (forall i :: 0 <= i < |vals| ==> NoAbsent(vals[i]))
    case Absent => false
    case Present(x) => NoAbsent(x)
  }

  /** A vector whose elements are arrays of non-primitives occurs in the type. */
  predicate VectorOfArrays(ty: Type)
    decreases ty
  {
    match ty
    case Prim(_) => false
    case Seq(e) => (e.Arr? && !PrimArr(e)) || VectorOfArrays(e)
    case Arr(e, _) => VectorOfArrays(e)
    case Map(k, e) => VectorOfArrays(k) || VectorOfArrays(e)
    case Opt(e) => VectorOfArrays(e)
  }

  // ---------------------------------------------------------------- which values can be read back

  /** Without presence flags an empty optional, or an array of nothing else, is encoded as no bytes at all. */
  ghost predicate Blank(cfg: Config, e: Type, v: Value)
    decreases e
  {
    && !cfg.version.Flagged()
    && if e.Arr? then v.List? && forall i :: 0 <= i < |v.items| ==> Blank(cfg, e.elem, v.items[i])
      else e.Opt? && v.Absent?
  }

  /** No empty optional is in the way of the decoder. Only the trailing elements of a delimited vector or array may
      be blank: the decoder stops before them, at the announced end, and leaves their defaults. */
  ghost predicate Readable(cfg: Config, ty: Type, v: Value)
    decreases ty, 2
  {
    match ty
    case Prim(_) => true
    case Opt(e) => if v.Present? then Readable(cfg, e, v.inner) else cfg.version.Flagged()
    case Seq(e) =>
      && v.List? && Trimmed(cfg, e, v.items, Delimited(cfg, ty))
      && (|v.items| < TWO32 || ReadUpTo(cfg, e, v.items, |v.items|))
    case Arr(e, _) => v.List? && Trimmed(cfg, e, v.items, Delimited(cfg, ty))
    case Map(k, e) => v.Table? && AllReadable(cfg, k, v.keys) && AllReadable(cfg, e, v.vals)
  }

  ghost predicate AllReadable(cfg: Config, ty: Type, vs: seq<Value>)
    decreases ty, 3
  {
    forall i :: 0 <= i < |vs| ==> Readable(cfg, ty, vs[i])
  }

  /** An array inside a container is flattened, so no end stops the decoder inside it. */
  ghost predicate ReadableItem(cfg: Config, e: Type, v: Value)
    decreases e, 3
  {
    if e.Arr? then v.List? && forall i :: 0 <= i < |v.items| ==> ReadableItem(cfg, e.elem, v.items[i])
    else Readable(cfg, e, v)
  }

  /** The first `m` elements are readable and the others blank. */
  ghost predicate ReadUpTo(cfg: Config, e: Type, items: seq<Value>, m: nat)
    decreases e, 4
  {
    && m <= |items|
    && (forall i :: 0 <= i < m ==> ReadableItem(cfg, e, items[i]))
    && (forall i :: m <= i < |items| ==> Blank(cfg, e, items[i]))
  }

  ghost predicate Trimmed(cfg: Config, e: Type, items: seq<Value>, delimited: bool)
    decreases e, 5
  {
    exists m: nat :: ReadUpTo(cfg, e, items, m) && (delimited || m == |items|)
  }

  // ---------------------------------------------------------------- words

  lemma WordRoundTrip(cfg: Config, w: Width, raw: seq<Byte>, pos: nat, pre: seq<Byte>, buf: seq<Byte>)
    requires |raw| == w.Bytes() && At(buf, pos, EncWord(cfg, w, raw, pos, pre))
    ensures DecWord(cfg, w, buf, pos) == Ok(raw, pos + |EncWord(cfg, w, raw, pos, pre)|)
  {
    AtConcat(buf, pos, Pad(pos, PadLen(pos, AlignOf(cfg.version, w)), pre), Ordered(cfg, raw));
    OrderedTwice(cfg, raw);
  }

  lemma U32RoundTrip(cfg: Config, n: nat, pos: nat, pre: seq<Byte>, buf: seq<Byte>)
    requires n < TWO32 && At(buf, pos, Enc32(cfg, n, pos, pre))
    ensures Dec32(cfg, buf, pos) == Ok(n, pos + |Enc32(cfg, n, pos, pre)|)
  {
    WordRoundTrip(cfg, W4, U32(cfg.host, n), pos, pre, buf);
    Val32U32(cfg.host, n);
  }

  // ---------------------------------------------------------------- every readable element takes at least one byte

  lemma {:induction false} NonEmpty(cfg: Config, ty: Type, v: Value, pos: nat, pre: seq<Byte>)
    requires Typed(ty, v)
    ensures Readable(cfg, ty, v) ==> 0 < |Encode(cfg, ty, v, pos, pre)|
    ensures ReadableItem(cfg, ty, v) ==> 0 < |EncItem(cfg, ty, v, pos, pre)|
    decreases ty, 0
  {
    hide U32, EncWord, Pad, Blank, Trimmed, AllReadable;
    match ty
    case Prim(w) => assert |EncWord(cfg, w, v.raw, pos, pre)| >= |v.raw|;
    case Seq(_) =>
    case Map(_, _) =>
    case Opt(e) => if v.Present? && !cfg.version.Flagged() { NonEmpty(cfg, e, v.inner, pos, pre); }
    case Arr(e, n) => ArrayNonEmpty(cfg, e, n, v, pos, pre);
  }

  lemma {:induction false} ArrayNonEmpty(cfg: Config, e: Type, n: Positive, v: Value, pos: nat, pre: seq<Byte>)
    requires Typed(Arr(e, n), v)
    ensures Readable(cfg, Arr(e, n), v) ==> 0 < |Encode(cfg, Arr(e, n), v, pos, pre)|
    ensures ReadableItem(cfg, Arr(e, n), v) ==> 0 < |EncItem(cfg, Arr(e, n), v, pos, pre)|
    decreases e, 9
  {
    hide EncItem, Typed, EncItems, Readable, ReadableItem, Blank;
    TypedParts(Arr(e, n), v);
    var p := pos + |EncItems(cfg, e, v.items, n - 1, pos, pre)|;
    EncItemsStep(cfg, e, v.items, n, pos, pre);
    NonEmpty(cfg, e, v.items[n - 1], p, pre);
    ArrayEncoding(cfg, e, n, v, pos, pre);
  }

  lemma ListReadable(cfg: Config, ty: Type, v: Value)
    requires (ty.Seq? || ty.Arr?) && Readable(cfg, ty, v)
    ensures v.List? && Trimmed(cfg, ty.elem, v.items, Delimited(cfg, ty))
    ensures ty.Seq? ==> |v.items| < TWO32 || ReadUpTo(cfg, ty.elem, v.items, |v.items|)
  {
  }

  /** What a readable array of at least one element amounts to. */
  lemma ArrayEncoding(cfg: Config, e: Type, n: Positive, v: Value, pos: nat, pre: seq<Byte>)
    requires Typed(Arr(e, n), v)
    ensures EncItem(cfg, Arr(e, n), v, pos, pre) == EncItems(cfg, e, v.items, n, pos, pre)
    ensures Delimited(cfg, Arr(e, n)) ==> 4 <= |Encode(cfg, Arr(e, n), v, pos, pre)|
    ensures !Delimited(cfg, Arr(e, n)) ==> Encode(cfg, Arr(e, n), v, pos, pre) == EncItems(cfg, e, v.items, n, pos, pre)
    ensures ReadableItem(cfg, Arr(e, n), v) ==> ReadableItem(cfg, e, v.items[n - 1])
    ensures Readable(cfg, Arr(e, n), v) && !Delimited(cfg, Arr(e, n)) ==> ReadableItem(cfg, e, v.items[n - 1])
  {
    hide EncItems, Blank, Delimited;
    if Readable(cfg, Arr(e, n), v) { ListReadable(cfg, Arr(e, n), v); }
  }

  /** The first `m` elements are readable, so each of them takes at least one byte. */
  lemma {:induction false} ItemsGrow(cfg: Config, e: Type, items: seq<Value>, m: nat, k: nat, n: nat, pos: nat,
                                     pre: seq<Byte>)
    requires k <= n <= m <= |items| && AllTyped(e, items) && ReadUpTo(cfg, e, items, m)
    ensures |EncItems(cfg, e, items, k, pos, pre)| + (n - k) <= |EncItems(cfg, e, items, n, pos, pre)|
    decreases n
  {
    hide Encode, EncItem, Typed, Readable, ReadableItem, Blank;
    if k < n {
      ItemsGrow(cfg, e, items, m, k, n - 1, pos, pre);
      NonEmpty(cfg, e, items[n - 1], pos + |EncItems(cfg, e, items, n - 1, pos, pre)|, pre);
    }
  }

  lemma {:induction false} BlankIsNothing(cfg: Config, e: Type, v: Value, pos: nat, pre: seq<Byte>)
    requires Typed(e, v) && Blank(cfg, e, v)
    ensures EncItem(cfg, e, v, pos, pre) == [] && v == Default(e)
    decreases e, 1
  {
    hide U32, EncWord, Pad;
    if e.Arr? {
      BlankItemsAreNothing(cfg, e.elem, v.items, 0, e.size, pos, pre);
      forall i | 0 <= i < e.size ensures v.items[i] == Default(e.elem) {
        BlankIsNothing(cfg, e.elem, v.items[i], pos, pre);
      }
      assert v.items == Repeat(Default(e.elem), e.size);
    }
  }

  lemma {:induction false} BlankItemsAreNothing(cfg: Config, e: Type, items: seq<Value>, m: nat, n: nat, pos: nat,
                                                pre: seq<Byte>)
    requires m <= n <= |items| && AllTyped(e, items) && forall i :: m <= i < n ==> Blank(cfg, e, items[i])
    ensures |EncItems(cfg, e, items, n, pos, pre)| == |EncItems(cfg, e, items, m, pos, pre)|
    ensures m == 0 ==> EncItems(cfg, e, items, n, pos, pre) == []
    decreases e, 2, n
  {
    hide Encode, EncItem, Typed, Blank;
    if m < n {
      BlankItemsAreNothing(cfg, e, items, m, n - 1, pos, pre);
      BlankIsNothing(cfg, e, items[n - 1], pos + |EncItems(cfg, e, items, n - 1, pos, pre)|, pre);
    }
  }

  lemma {:induction false} EntriesGrow(cfg: Config, k: Type, e: Type, keys: seq<Value>, vals: seq<Value>, i: nat,
                                       n: nat, pos: nat, pre: seq<Byte>)
    requires i <= n <= |keys| == |vals|
    requires AllTyped(k, keys) && AllTyped(e, vals) && AllReadable(cfg, k, keys)
    ensures |EncEntries(cfg, k, e, keys, vals, i, pos, pre)| + (n - i) <= |EncEntries(cfg, k, e, keys, vals, n, pos,
        pre)|
    decreases n
  {
    hide Encode, EncItem, Typed, Readable, ReadableItem;
    if i < n {
      EntriesGrow(cfg, k, e, keys, vals, i, n - 1, pos, pre);
      NonEmpty(cfg, k, keys[n - 1], pos + |EncEntries(cfg, k, e, keys, vals, n - 1, pos, pre)|, pre);
    }
  }

  // ---------------------------------------------------------------- the round trip

  /** XCDRv2 does not read the arrays inside a vector as it writes them. */
  predicate Supported(cfg: Config, ty: Type) {
    cfg.version.XCDRv2? ==> !VectorOfArrays(ty)
  }

  ghost predicate Decodable(cfg: Config, ty: Type, v: Value) {
    Typed(ty, v) && Readable(cfg, ty, v) && Supported(cfg, ty)
  }

  ghost predicate AllDecodable(cfg: Config, ty: Type, vs: seq<Value>)
    ensures AllDecodable(cfg, ty, vs) ==> AllTyped(ty, vs) && AllReadable(cfg, ty, vs)
  {
    forall i :: 0 <= i < |vs| ==> Decodable(cfg, ty, vs[i])
  }

  /** Elements of which the decoder reads the first `m`. */
  ghost predicate DecodableItems(cfg: Config, e: Type, items: seq<Value>, m: nat) {
    AllTyped(e, items) && ReadUpTo(cfg, e, items, m) && Supported(cfg, e)
  }

  /** Whatever the padding holds and whatever follows, decoding stops where encoding stopped, with the same value. */
  lemma {:induction false} RoundTrip(cfg: Config, ty: Type, v: Value, pos: nat, pre: seq<Byte>, buf: seq<Byte>)
    requires Decodable(cfg, ty, v)
    requires |Encode(cfg, ty, v, pos, pre)| < TWO32 && At(buf, pos, Encode(cfg, ty, v, pos, pre))
    ensures Decode(cfg, ty, buf, pos) == Ok(v, pos + |Encode(cfg, ty, v, pos, pre)|)
    decreases ty, 2, 0
  {
    hide EncBody, DecDelimited, DecPlain, EncWord, DecWord, Enc32, Dec32, PadLen, At;
    match ty
    case Prim(w) => WordRoundTrip(cfg, w, v.raw, pos, pre, buf);
    case Opt(e) => OptRoundTrip(cfg, e, v, pos, pre, buf);
    case _ =>
      if Delimited(cfg, ty) {
        var q := pos + PadLen(pos, W4) + 4;
        var body := EncBody(cfg, ty, v, q, pre);
        AtConcat(buf, pos, Enc32(cfg, |body|, pos, pre), body);
        U32RoundTrip(cfg, |body|, pos, pre, buf);
        BodyRoundTrip(cfg, ty, v, q, pre, buf);
      } else {
        BodyRoundTrip(cfg, ty, v, pos, pre, buf);
      }
  }

  lemma {:induction false} OptRoundTrip(cfg: Config, e: Type, v: Value, pos: nat, pre: seq<Byte>, buf: seq<Byte>)
    requires Decodable(cfg, Opt(e), v)
    requires var bytes := Encode(cfg, Opt(e), v, pos, pre); |bytes| < TWO32 && At(buf, pos, bytes)
    ensures Decode(cfg, Opt(e), buf, pos) == Ok(v, pos + |Encode(cfg, Opt(e), v, pos, pre)|)
    decreases e, 9, 0
  {
    hide EncBody, DecDelimited, DecPlain, EncWord, DecWord, Delimited, At;
    var flag: seq<Byte> := if cfg.version.Flagged() then [if v.Present? then 1 else 0] else [];
    var inner := if v.Present? then Encode(cfg, e, v.inner, pos + |flag|, pre) else [];
    assert Encode(cfg, Opt(e), v, pos, pre) == flag + inner;
    AtConcat(buf, pos, flag, inner);
    if cfg.version.Flagged() {
      FirstByte(buf, pos, flag);
      AtFits(buf, pos, flag);
    }
    if v.Present? {
      RoundTrip(cfg, e, v.inner, pos + |flag|, pre, buf);
    }
  }

  lemma {:induction false} BodyRoundTrip(cfg: Config, ty: Type, v: Value, pos: nat, pre: seq<Byte>, buf: seq<Byte>)
    requires ty.Seq? || ty.Arr? || ty.Map?
    requires Decodable(cfg, ty, v)
    requires var bytes := EncBody(cfg, ty, v, pos, pre); |bytes| < TWO32 && At(buf, pos, bytes)
    ensures var bytes := EncBody(cfg, ty, v, pos, pre);
      if Delimited(cfg, ty) then DecDelimited(cfg, ty, |bytes|, pos, buf) == Ok(v, pos + |bytes|)
      else DecPlain(cfg, ty, buf, pos) == Ok(v, pos + |bytes|)
    decreases ty, 1, 0
  {
    hide EncItems, DecItems, Typed, At, Readable, Supported, Default, AllTyped, AllDecodable, Delimited, DecodableItems;
    match ty
    case Arr(e, n) =>
      var m := ItemsDecodable(cfg, ty, v);
      var limit := if Delimited(cfg, ty) then Until(pos + |EncBody(cfg, ty, v, pos, pre)|) else Open;
      ItemsRoundTrip(cfg, e, true, limit, v.items, m, pos, pre, buf);
    case Seq(e) => SeqBodyRoundTrip(cfg, e, v, pos, pre, buf);
    case Map(k, e) => MapBodyRoundTrip(cfg, k, e, v, pos, pre, buf);
  }

  /** How many elements the decoder reads. */
  lemma ItemsDecodable(cfg: Config, ty: Type, v: Value) returns (m: nat)
    requires (ty.Seq? || ty.Arr?) && Decodable(cfg, ty, v)
    ensures v.List? && AllTyped(ty.elem, v.items) && m <= |v.items| && (ty.Arr? ==> |v.items| == ty.size)
    ensures DecodableItems(cfg, ty.elem, v.items, m) && (Delimited(cfg, ty) || m == |v.items|)
    ensures ty.Seq? ==> |v.items| < TWO32 || m == |v.items|
    ensures Delimited(cfg, ty) && ty.Seq? && ty.elem.Arr? ==> PrimArr(ty.elem)
  {
    hide ReadUpTo, Delimited;
    TypedParts(ty, v);
    ListReadable(cfg, ty, v);
    m :| ReadUpTo(cfg, ty.elem, v.items, m) && (Delimited(cfg, ty) || m == |v.items|);
    if ty.Seq? && TWO32 <= |v.items| { m := |v.items|; }
    ReadWithin(cfg, ty.elem, v.items, m);
    DelimitedVersion(cfg, ty);
  }

  lemma ReadWithin(cfg: Config, e: Type, items: seq<Value>, m: nat)
    requires ReadUpTo(cfg, e, items, m)
    ensures m <= |items|
  {
  }

  lemma DelimitedVersion(cfg: Config, ty: Type)
    ensures Delimited(cfg, ty) ==> cfg.version.XCDRv2?
  {
  }

  lemma {:induction false} SeqBodyRoundTrip(cfg: Config, e: Type, v: Value, pos: nat, pre: seq<Byte>, buf: seq<Byte>)
    requires Decodable(cfg, Seq(e), v)
    requires var bytes := EncBody(cfg, Seq(e), v, pos, pre); |bytes| < TWO32 && At(buf, pos, bytes)
    ensures var bytes := EncBody(cfg, Seq(e), v, pos, pre);
      if Delimited(cfg, Seq(e)) then DecDelimited(cfg, Seq(e), |bytes|, pos, buf) == Ok(v, pos + |bytes|)
      else DecPlain(cfg, Seq(e), buf, pos) == Ok(v, pos + |bytes|)
    decreases e, 9, 0
  {
    hide DecItems, Enc32, Dec32, PadLen, At, Decodable, Typed, Default, AllTyped, DecodableItems, Delimited, EncItems;
    var m := ItemsDecodable(cfg, Seq(e), v);
    var n := |v.items|;
    var p := pos + PadLen(pos, W4) + 4;
    var items := EncItems(cfg, e, v.items, n, p, pre);
    AtConcat(buf, pos, Enc32(cfg, n, pos, pre), items);
    AtFits(buf, p, items);
    CountFits(cfg, e, v.items, m, p, pre);
    U32RoundTrip(cfg, n, pos, pre, buf);
    var limit := if Delimited(cfg, Seq(e)) then Until(p + |items|) else Open;
    ItemsRoundTrip(cfg, e, !Delimited(cfg, Seq(e)), limit, v.items, m, p, pre, buf);
    NoBytes(cfg, e, v.items, p, pre);
    assert n == 0 ==> items == [];
    assert n == 0 ==> v == List([]);
  }

  lemma NoBytes(cfg: Config, e: Type, items: seq<Value>, pos: nat, pre: seq<Byte>)
    requires AllTyped(e, items)
    ensures EncItems(cfg, e, items, 0, pos, pre) == []
  {
  }

  lemma CountFits(cfg: Config, e: Type, items: seq<Value>, m: nat, pos: nat, pre: seq<Byte>)
    requires DecodableItems(cfg, e, items, m)
    ensures m == |items| ==> |items| <= |EncItems(cfg, e, items, |items|, pos, pre)|
  {
    hide EncItems, ReadUpTo, AllTyped;
    if m == |items| { ItemsGrow(cfg, e, items, m, 0, m, pos, pre); }
  }

  lemma {:induction false} MapBodyRoundTrip(cfg: Config, k: Type, e: Type, v: Value, pos: nat, pre: seq<Byte>,
                                            buf: seq<Byte>)
    requires Decodable(cfg, Map(k, e), v)
    requires var bytes := EncBody(cfg, Map(k, e), v, pos, pre); |bytes| < TWO32 && At(buf, pos, bytes)
    ensures var bytes := EncBody(cfg, Map(k, e), v, pos, pre);
      if Delimited(cfg, Map(k, e)) then DecDelimited(cfg, Map(k, e), |bytes|, pos, buf) == Ok(v, pos + |bytes|)
      else DecPlain(cfg, Map(k, e), buf, pos) == Ok(v, pos + |bytes|)
    decreases Map(k, e), 0, |v.keys| + 2
  {
    hide EncEntries, DecEntries, Enc32, Dec32, PadLen, At, Decodable, Typed, AllTyped, AllDecodable, Delimited;
    PartsDecodable(cfg, Map(k, e), v);
    var n := |v.keys|;
    var p := pos + PadLen(pos, W4) + 4;
    var entries := EncEntries(cfg, k, e, v.keys, v.vals, n, p, pre);
    AtConcat(buf, pos, Enc32(cfg, n, pos, pre), entries);
    EntriesGrow(cfg, k, e, v.keys, v.vals, 0, n, p, pre);
    U32RoundTrip(cfg, n, pos, pre, buf);
    var limit := if Delimited(cfg, Map(k, e)) then Until(p + |entries|) else Open;
    EntriesRoundTrip(cfg, k, e, limit, v.keys, v.vals, p, pre, buf);
  }

  lemma AtFits(buf: seq<Byte>, pos: nat, bytes: seq<Byte>)
    requires At(buf, pos, bytes)
    ensures pos + |bytes| <= |buf|
  {
  }

  lemma PartsDecodable(cfg: Config, ty: Type, v: Value)
    requires ty.Map? && Decodable(cfg, ty, v)
    ensures v.Table? && |v.keys| == |v.vals| && Distinct(v.keys)
    ensures AllDecodable(cfg, ty.key, v.keys) && AllDecodable(cfg, ty.val, v.vals)
  {
    hide Supported;
    TypedParts(ty, v);
    MapReadable(cfg, ty, v);
    forall i | 0 <= i < |v.keys| ensures Decodable(cfg, ty.key, v.keys[i]) {}
    forall i | 0 <= i < |v.vals| ensures Decodable(cfg, ty.val, v.vals[i]) {}
  }

  lemma MapReadable(cfg: Config, ty: Type, v: Value)
    requires ty.Map? && Readable(cfg, ty, v) && Supported(cfg, ty)
    ensures v.Table? && AllReadable(cfg, ty.key, v.keys) && AllReadable(cfg, ty.val, v.vals)
    ensures Supported(cfg, ty.key) && Supported(cfg, ty.val)
  {
  }

  lemma TypedParts(ty: Type, v: Value)
    requires Typed(ty, v)
    ensures ty.Seq? || ty.Arr? ==> v.List? && forall i :: 0 <= i < |v.items| ==> Typed(ty.elem, v.items[i])
    ensures ty.Arr? ==> |v.items| == ty.size
    ensures ty.Map? ==> v.Table? && |v.keys| == |v.vals|
    ensures ty.Map? ==> forall i :: 0 <= i < |v.keys| ==> Typed(ty.key, v.keys[i])
    ensures ty.Map? ==> forall i :: 0 <= i < |v.vals| ==> Typed(ty.val, v.vals[i])
  {
  }

  lemma {:induction false} ItemRoundTrip(cfg: Config, e: Type, flat: bool, v: Value, pos: nat, pre: seq<Byte>,
                                         buf: seq<Byte>)
    requires Typed(e, v) && ReadableItem(cfg, e, v) && Supported(cfg, e)
    requires !flat && e.Arr? ==> PrimArr(e)
    requires var bytes := EncItem(cfg, e, v, pos, pre); |bytes| < TWO32 && At(buf, pos, bytes)
    ensures DecItem(cfg, e, flat, buf, pos) == Ok(v, pos + |EncItem(cfg, e, v, pos, pre)|)
    decreases e, 3, 0
  {
    hide EncItems, DecItems, At, Readable, Encode;
    if e.Arr? {
      TypedParts(e, v);
      ItemsRoundTrip(cfg, e.elem, true, Open, v.items, e.size, pos, pre, buf);
      assert !flat ==> Decode(cfg, e, buf, pos) == DecPlain(cfg, e, buf, pos);
    } else {
      RoundTrip(cfg, e, v, pos, pre, buf);
    }
  }

  lemma {:induction false} ItemsRoundTrip(cfg: Config, e: Type, flat: bool, limit: Limit, items: seq<Value>, m: nat,
                                          pos: nat, pre: seq<Byte>, buf: seq<Byte>)
    requires DecodableItems(cfg, e, items, m) && (limit.Open? ==> m == |items|)
    requires !flat && e.Arr? ==> PrimArr(e)
    requires var bytes := EncItems(cfg, e, items, |items|, pos, pre);
      |bytes| < TWO32 && At(buf, pos, bytes) && (limit.Until? ==> limit.end == pos + |bytes|)
    ensures DecItems(cfg, e, flat, limit, |items|, [], buf, pos)
         == Ok(List(items), pos + |EncItems(cfg, e, items, |items|, pos, pre)|)
    decreases e, 4, |items| + 1
  {
    hide Encode, Decode, EncItem, DecItem, EncItems, Typed, At, ReadableItem, Readable, Blank, Default, Supported,
        PrimArr;
    ItemsPrefix(cfg, e, flat, limit, items, m, m, pos, pre, buf);
    BlankItemsAreNothing(cfg, e, items, m, |items|, pos, pre);
    forall i | m <= i < |items| ensures items[i] == Default(e) {
      BlankIsNothing(cfg, e, items[i], pos, pre);
    }
    assert items[..m] + Repeat(Default(e), |items| - m) == items;
  }

  lemma DecItemsStep(cfg: Config, e: Type, flat: bool, limit: Limit, n: nat, done: seq<Value>, buf: seq<Byte>, pos: nat)
    requires 0 < n && !limit.Reached(pos) && DecItem(cfg, e, flat, buf, pos).Ok?
    ensures var item := DecItem(cfg, e, flat, buf, pos);
      DecItems(cfg, e, flat, limit, n, done, buf, pos)
      == DecItems(cfg, e, flat, limit, n - 1, done + [item.value], buf, item.end)
  {
    hide DecItem, Default;
  }

  lemma DecItemsUnfold(cfg: Config, e: Type, flat: bool, limit: Limit, n: nat, done: seq<Value>, buf: seq<Byte>,
                       pos: nat)
    ensures DecItems(cfg, e, flat, limit, n, done, buf, pos) ==
      if n == 0 || limit.Reached(pos) then Ok(List(done + Repeat(Default(e), n)), pos)
      else
        var item := DecItem(cfg, e, flat, buf, pos);
        if item.Err? then item else DecItems(cfg, e, flat, limit, n - 1, done + [item.value], buf, item.end)
  {
    hide DecItem, Default;
  }

  lemma DecEntriesUnfold(cfg: Config, k: Type, e: Type, limit: Limit, n: nat, keys: seq<Value>, vals: seq<Value>,
                         buf: seq<Byte>, pos: nat)
    ensures DecEntries(cfg, k, e, limit, n, keys, vals, buf, pos) ==
      if n == 0 || limit.Reached(pos) then Ok(Table(keys, vals), pos)
      else
        var key := Decode(cfg, k, buf, pos);
        if key.Err? then key
        else
          var val := Decode(cfg, e, buf, key.end);
          if val.Err? then val
          else if key.value in keys then DecEntries(cfg, k, e, limit, n - 1, keys, vals, buf, val.end)
          else DecEntries(cfg, k, e, limit, n - 1, keys + [key.value], vals + [val.value], buf, val.end)
  {
    hide Decode;
  }

  lemma EncItemsStep(cfg: Config, e: Type, items: seq<Value>, k: nat, pos: nat, pre: seq<Byte>)
    requires k <= |items| && AllTyped(e, items)
    ensures pos + |EncItems(cfg, e, items, k, pos, pre)| ==
      if k == 0 then pos
      else
        var p := pos + |EncItems(cfg, e, items, k - 1, pos, pre)|;
        p + |EncItem(cfg, e, items[k - 1], p, pre)|
  {
    hide EncItem;
  }

  /** After the first `k` elements the loop has decoded exactly them. */
  lemma {:induction false} ItemsPrefix(cfg: Config, e: Type, flat: bool, limit: Limit, items: seq<Value>, m: nat,
                                       k: nat, pos: nat, pre: seq<Byte>, buf: seq<Byte>)
    requires k <= m <= |items| && DecodableItems(cfg, e, items, m)
    requires !flat && e.Arr? ==> PrimArr(e)
    requires var bytes := EncItems(cfg, e, items, |items|, pos, pre);
      |bytes| < TWO32 && At(buf, pos, bytes) && (limit.Until? ==> limit.end == pos + |bytes|)
    ensures DecItems(cfg, e, flat, limit, |items|, [], buf, pos)
         == DecItems(cfg, e, flat, limit, |items| - k, items[..k], buf, pos + |EncItems(cfg, e, items, k, pos, pre)|)
    decreases e, 4, k
  {
    hide Encode, Decode, EncItem, DecItem, EncItems, DecItems, Typed, At, Default, PrimArr, ReadableItem, Readable,
        Blank,
      AllTyped, Repeat, Supported;
    EncItemsStep(cfg, e, items, k, pos, pre);
    if k > 0 {
      ItemsPrefix(cfg, e, flat, limit, items, m, k - 1, pos, pre, buf);
      ItemsAt(cfg, e, items, k, |items|, pos, pre, buf);
      ItemsGrow(cfg, e, items, m, k - 1, m, pos, pre);
      ItemsGrow(cfg, e, items, m, k, m, pos, pre);
      BlankItemsAreNothing(cfg, e, items, m, |items|, pos, pre);
      var p := pos + |EncItems(cfg, e, items, k - 1, pos, pre)|;
      ItemTyped(e, items, k - 1);
      ItemRoundTrip(cfg, e, flat, items[k - 1], p, pre, buf);
      DecItemsStep(cfg, e, flat, limit, |items| - k + 1, items[..k - 1], buf, p);
      assert items[..k - 1] + [items[k - 1]] == items[..k];
    }
  }

  lemma ItemTyped(e: Type, items: seq<Value>, i: nat)
    requires AllTyped(e, items) && i < |items|
    ensures Typed(e, items[i])
  {
  }

  /** Every element lies in the buffer where the encoding of the whole puts it. */
  lemma {:induction false} ItemsAt(cfg: Config, e: Type, items: seq<Value>, k: nat, n: nat, pos: nat, pre: seq<Byte>,
                                   buf: seq<Byte>)
    requires 0 < k <= n <= |items| && AllTyped(e, items)
    requires At(buf, pos, EncItems(cfg, e, items, n, pos, pre))
    ensures var p := pos + |EncItems(cfg, e, items, k - 1, pos, pre)|;
      At(buf, p, EncItem(cfg, e, items[k - 1], p, pre))
    decreases n
  {
    hide Encode, EncItem, Typed, At;
    var front := EncItems(cfg, e, items, n - 1, pos, pre);
    AtConcat(buf, pos, front, EncItem(cfg, e, items[n - 1], pos + |front|, pre));
    if k < n {
      ItemsAt(cfg, e, items, k, n - 1, pos, pre, buf);
    }
  }

  lemma {:induction false} EntriesRoundTrip(cfg: Config, k: Type, e: Type, limit: Limit, keys: seq<Value>,
                                            vals: seq<Value>, pos: nat, pre: seq<Byte>, buf: seq<Byte>)
    requires |keys| == |vals| && Distinct(keys) && AllDecodable(cfg, k, keys) && AllDecodable(cfg, e, vals)
    requires var bytes := EncEntries(cfg, k, e, keys, vals, |keys|, pos, pre);
      |bytes| < TWO32 && At(buf, pos, bytes) && (limit.Until? ==> limit.end == pos + |bytes|)
    ensures DecEntries(cfg, k, e, limit, |keys|, [], [], buf, pos)
         == Ok(Table(keys, vals), pos + |EncEntries(cfg, k, e, keys, vals, |keys|, pos, pre)|)
    decreases Map(k, e), 0, |keys| + 1
  {
    hide Encode, Decode, EncEntries, Typed, Readable, At, Decodable;
    EntriesPrefix(cfg, k, e, limit, keys, vals, |keys|, pos, pre, buf);
    assert keys[..|keys|] == keys && vals[..|vals|] == vals;
  }

  lemma DecEntriesStep(cfg: Config, k: Type, e: Type, limit: Limit, n: nat, keys: seq<Value>, vals: seq<Value>,
                       buf: seq<Byte>, pos: nat)
    requires 0 < n && !limit.Reached(pos)
    requires var key := Decode(cfg, k, buf, pos); key.Ok? && key.value !in keys && Decode(cfg, e, buf, key.end).Ok?
    ensures var key := Decode(cfg, k, buf, pos);
      var val := Decode(cfg, e, buf, key.end);
      DecEntries(cfg, k, e, limit, n, keys, vals, buf, pos)
      == DecEntries(cfg, k, e, limit, n - 1, keys + [key.value], vals + [val.value], buf, val.end)
  {
    hide Decode;
  }

  lemma EncEntriesStep(cfg: Config, k: Type, e: Type, keys: seq<Value>, vals: seq<Value>, i: nat, pos: nat,
                       pre: seq<Byte>)
    requires i <= |keys| == |vals| && AllTyped(k, keys) && AllTyped(e, vals)
    ensures pos + |EncEntries(cfg, k, e, keys, vals, i, pos, pre)| ==
      if i == 0 then pos
      else
        var p := pos + |EncEntries(cfg, k, e, keys, vals, i - 1, pos, pre)|;
        var q := p + |Encode(cfg, k, keys[i - 1], p, pre)|;
        q + |Encode(cfg, e, vals[i - 1], q, pre)|
  {
    hide Encode;
  }

  lemma {:induction false} EntriesPrefix(cfg: Config, k: Type, e: Type, limit: Limit, keys: seq<Value>,
                                         vals: seq<Value>, i: nat, pos: nat, pre: seq<Byte>, buf: seq<Byte>)
    requires i <= |keys| == |vals| && Distinct(keys) && AllDecodable(cfg, k, keys) && AllDecodable(cfg, e, vals)
    requires var bytes := EncEntries(cfg, k, e, keys, vals, |keys|, pos, pre);
      |bytes| < TWO32 && At(buf, pos, bytes) && (limit.Until? ==> limit.end == pos + |bytes|)
    ensures DecEntries(cfg, k, e, limit, |keys|, [], [], buf, pos)
         == DecEntries(cfg, k, e, limit, |keys| - i, keys[..i], vals[..i], buf,
                       pos + |EncEntries(cfg, k, e, keys, vals, i, pos, pre)|)
    decreases Map(k, e), 0, i
  {
    hide Encode, Decode, EncEntries, DecEntries, Typed, Readable, At, Decodable;
    EncEntriesStep(cfg, k, e, keys, vals, i, pos, pre);
    if i > 0 {
      EntriesPrefix(cfg, k, e, limit, keys, vals, i - 1, pos, pre, buf);
      EntriesAt(cfg, k, e, keys, vals, i, |keys|, pos, pre, buf);
      EntriesGrow(cfg, k, e, keys, vals, i - 1, |keys|, pos, pre);
      EntriesGrow(cfg, k, e, keys, vals, i, |keys|, pos, pre);
      var p := pos + |EncEntries(cfg, k, e, keys, vals, i - 1, pos, pre)|;
      var q := p + |Encode(cfg, k, keys[i - 1], p, pre)|;
      RoundTrip(cfg, k, keys[i - 1], p, pre, buf);
      RoundTrip(cfg, e, vals[i - 1], q, pre, buf);
      assert keys[i - 1] !in keys[..i - 1];
      DecEntriesStep(cfg, k, e, limit, |keys| - i + 1, keys[..i - 1], vals[..i - 1], buf, p);
      assert keys[..i - 1] + [keys[i - 1]] == keys[..i];
      assert vals[..i - 1] + [vals[i - 1]] == vals[..i];
    }
  }

  lemma {:induction false} EntriesAt(cfg: Config, k: Type, e: Type, keys: seq<Value>, vals: seq<Value>, i: nat, n: nat,
                                     pos: nat, pre: seq<Byte>, buf: seq<Byte>)
    requires 0 < i <= n <= |keys| == |vals| && AllTyped(k, keys) && AllTyped(e, vals)
    requires At(buf, pos, EncEntries(cfg, k, e, keys, vals, n, pos, pre))
    ensures var p := pos + |EncEntries(cfg, k, e, keys, vals, i - 1, pos, pre)|;
      var kb := Encode(cfg, k, keys[i - 1], p, pre);
      At(buf, p, kb) && At(buf, p + |kb|, Encode(cfg, e, vals[i - 1], p + |kb|, pre))
    decreases n
  {
    hide Encode, Typed, At;
    var front := EncEntries(cfg, k, e, keys, vals, n - 1, pos, pre);
    var kb := Encode(cfg, k, keys[n - 1], pos + |front|, pre);
    AtConcat(buf, pos, front + kb, Encode(cfg, e, vals[n - 1], pos + |front| + |kb|, pre));
    AtConcat(buf, pos, front, kb);
    if i < n {
      EntriesAt(cfg, k, e, keys, vals, i, n - 1, pos, pre, buf);
    }
  }
}
