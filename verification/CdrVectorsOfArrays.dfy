/** XCDRv2 and the arrays inside a vector: the encoder writes no DHEADER for them, the decoder reads one.

    A decoder that gives back a value without defaults must have read all of it, so from the first such array on it
    stands at least the four bytes of a DHEADER behind the place where the encoder stopped. */
module CdrVectorsOfArrays {
  import opened Basics
  import opened CdrSpec
  import opened CdrRoundTrip
  import opened CdrLimits

  /** A value of the type in which nothing looks like a default: non-zero words, one element everywhere. */
  function Solid(ty: Type): Value
    decreases ty
  {
    match ty
    case Prim(w) => Word(Repeat(1, w.Bytes()))
    case Seq(e) => List([Solid(e)])
    case Arr(e, n) => List(Repeat(Solid(e), n))
    case Map(k, e) => Table([Solid(k)], [Solid(e)])
    case Opt(e) => Present(Solid(e))
  }

  lemma {:induction false} SolidTyped(ty: Type)
    ensures Typed(ty, Solid(ty))
    decreases ty
  {
    match ty
    case Prim(_) =>
    case Seq(e) => SolidTyped(e);
    case Arr(e, _) => SolidTyped(e);
    case Map(k, e) => SolidTyped(k); SolidTyped(e);
    case Opt(e) => SolidTyped(e);
  }

  lemma {:induction false} SolidIsNotDefault(ty: Type)
    ensures Solid(ty) != Default(ty)
    decreases ty
  {
    match ty
    case Arr(e, n) =>
      SolidIsNotDefault(e);
      assert Solid(ty).items[0] != Default(ty).items[0];
    case Prim(w) => assert Solid(ty).raw[0] != Default(ty).raw[0];
    case _ =>
  }

  lemma {:induction false} SolidReadable(cfg: Config, ty: Type)
    ensures Readable(cfg, ty, Solid(ty)) && ReadableItem(cfg, ty, Solid(ty))
    decreases ty, 0
  {
    hide ReadUpTo;
    match ty
    case Prim(_) =>
    case Opt(e) => SolidReadable(cfg, e);
    case Seq(e) =>
      SolidItems(cfg, e, [Solid(e)]);
      assert Trimmed(cfg, e, [Solid(e)], Delimited(cfg, ty));
    case Arr(e, n) =>
      SolidItems(cfg, e, Repeat(Solid(e), n));
      assert Trimmed(cfg, e, Repeat(Solid(e), n), Delimited(cfg, ty));
    case Map(k, e) => SolidReadable(cfg, k); SolidReadable(cfg, e);
  }

  lemma {:induction false} SolidItems(cfg: Config, e: Type, items: seq<Value>)
    requires forall i :: 0 <= i < |items| ==> items[i] == Solid(e)
    ensures ReadUpTo(cfg, e, items, |items|) && forall i :: 0 <= i < |items| ==> ReadableItem(cfg, e, items[i])
    decreases e, 1
  {
    hide ReadableItem, Readable;
    SolidReadable(cfg, e);
  }

  // ---------------------------------------------------------------- how far behind the decoder stands

  /** The decoder stands at or after the encoder, and by a whole DHEADER when it is behind. */
  predicate Behind(q: nat, p: nat, header: bool) {
    q + (if header then 4 else 0) <= p
  }

  lemma PadBehind(q: nat, p: nat, header: bool, w: Width)
    requires Behind(q, p, header) && !w.W8?
    ensures Behind(q + PadLen(q, w), p + PadLen(p, w), header)
  {
    hide PadLen;
    match w
    case W1 => NoPad(q); NoPad(p);
    case W2 =>
      var i := Up2(q);
      var j := Up2(p);
      StepsOf2(q, p, header, i, j);
    case W4 =>
      var i := Up4(q);
      var j := Up4(p);
      StepsOf4(q, p, header, i, j);
  }

  lemma StepsOf2(q: nat, p: nat, header: bool, i: nat, j: nat)
    requires Behind(q, p, header) && q <= 2 * i < q + 2 && p <= 2 * j < p + 2
    ensures Behind(2 * i, 2 * j, header)
  {
  }

  lemma StepsOf4(q: nat, p: nat, header: bool, i: nat, j: nat)
    requires Behind(q, p, header) && q <= 4 * i < q + 4 && p <= 4 * j < p + 4
    ensures Behind(4 * i, 4 * j, header)
  {
  }

  lemma NoPad(pos: nat)
    ensures PadLen(pos, W1) == 0
  {
  }

  lemma Up2(pos: nat) returns (k: nat)
    ensures pos + PadLen(pos, W2) == 2 * k && pos <= 2 * k < pos + 2
  {
    k := if pos % 2 == 0 then pos / 2 else pos / 2 + 1;
    assert pos == 2 * (pos / 2) + pos % 2;
  }

  lemma Up4(pos: nat) returns (k: nat)
    ensures pos + PadLen(pos, W4) == 4 * k && pos <= 4 * k < pos + 4
  {
    k := if pos % 4 == 0 then pos / 4 else pos / 4 + 1;
    assert pos == 4 * (pos / 4) + pos % 4;
  }

  /** A datum of the type makes the decoder read a DHEADER that was not written. */
  predicate Skips(e: Type, flat: bool) {
    VectorOfArrays(e) || (!flat && e.Arr? && !PrimArr(e))
  }

  lemma {:induction false} DecodeBehind(cfg: Config, ty: Type, buf: seq<Byte>, p: nat, q: nat, header: bool,
                                        pre: seq<Byte>)
    requires cfg.version.XCDRv2? && Typed(ty, Solid(ty)) && Behind(q, p, header)
    requires Decode(cfg, ty, buf, p).Ok? && Decode(cfg, ty, buf, p).value == Solid(ty)
    ensures Behind(q + |Encode(cfg, ty, Solid(ty), q, pre)|, Decode(cfg, ty, buf, p).end, header || VectorOfArrays(ty))
    decreases ty, 2, 0
  {
    hide EncBody, DecDelimited, DecPlain, PadLen, EncWord, Enc32, DecWord, Dec32, Delimited, Typed, VectorOfArrays;
    match ty
    case Prim(w) => PrimBehind(cfg, w, buf, p, q, header, pre);
    case Opt(e) => OptBehind(cfg, e, buf, p, q, header, pre);
    case _ =>
      if Delimited(cfg, ty) {
        var d := Dec32(cfg, buf, p);
        PadBehind(q, p, header, W4);
        HeaderEnd(cfg, buf, p, d);
        BodyBehind(cfg, ty, d.value, buf, d.end, q + PadLen(q, W4) + 4, header, pre);
      } else {
        BodyBehind(cfg, ty, 0, buf, p, q, header, pre);
      }
  }

  lemma HeaderEnd(cfg: Config, buf: seq<Byte>, p: nat, d: Result<nat>)
    requires d == Dec32(cfg, buf, p) && d.Ok?
    ensures d.end == p + PadLen(p, W4) + 4
  {
  }

  lemma PrimBehind(cfg: Config, w: Width, buf: seq<Byte>, p: nat, q: nat, header: bool, pre: seq<Byte>)
    requires cfg.version.XCDRv2? && Typed(Prim(w), Solid(Prim(w))) && Behind(q, p, header)
      && Decode(cfg, Prim(w), buf, p).Ok?
    ensures Behind(q + |Encode(cfg, Prim(w), Solid(Prim(w)), q, pre)|, Decode(cfg, Prim(w), buf, p).end,
                   header || VectorOfArrays(Prim(w)))
  {
    hide PadLen;
    PadBehind(q, p, header, AlignOf(cfg.version, w));
  }

  lemma {:induction false} OptBehind(cfg: Config, e: Type, buf: seq<Byte>, p: nat, q: nat, header: bool, pre: seq<Byte>)
    requires cfg.version.XCDRv2? && Typed(Opt(e), Solid(Opt(e))) && Behind(q, p, header)
    requires Decode(cfg, Opt(e), buf, p).Ok? && Decode(cfg, Opt(e), buf, p).value == Solid(Opt(e))
    ensures Behind(q + |Encode(cfg, Opt(e), Solid(Opt(e)), q, pre)|, Decode(cfg, Opt(e), buf, p).end,
                   header || VectorOfArrays(Opt(e)))
    decreases e, 9, 0
  {
    hide EncBody, DecDelimited, DecPlain, PadLen, EncWord, Enc32, DecWord, Dec32, Delimited;
    var flag := if cfg.version.Flagged() then 1 else 0;
    DecodeBehind(cfg, e, buf, p + flag, q + flag, header, pre);
  }

  lemma {:induction false} BodyBehind(cfg: Config, ty: Type, dheader: nat, buf: seq<Byte>, p: nat, q: nat,
                                      header: bool, pre: seq<Byte>)
    requires (ty.Seq? || ty.Arr? || ty.Map?) && cfg.version.XCDRv2? && Typed(ty, Solid(ty)) && Behind(q, p, header)
    requires var r := if Delimited(cfg, ty) then DecDelimited(cfg, ty, dheader, p, buf) else DecPlain(cfg, ty, buf, p);
      r.Ok? && r.value == Solid(ty)
    ensures var r := if Delimited(cfg, ty) then DecDelimited(cfg, ty, dheader, p, buf) else DecPlain(cfg, ty, buf, p);
      Behind(q + |EncBody(cfg, ty, Solid(ty), q, pre)|, r.end, header || VectorOfArrays(ty))
    decreases ty, 1, 0
  {
    hide EncItems, EncEntries, DecItems, DecEntries, PadLen, EncWord, DecWord, Dec32, AllTyped;
    var v := Solid(ty);
    TypedParts(ty, v);
    var limit := if Delimited(cfg, ty) then Until(p + dheader) else Open;
    var len := Dec32(cfg, buf, p);
    PadBehind(q, p, header, W4);
    var c := q + PadLen(q, W4) + 4;
    match ty
    case Arr(e, n) =>
      NoElements(cfg, e, v.items, q, pre);
      ItemsBehind(cfg, e, true, limit, v.items, 0, buf, p, q, header, pre);
    case Seq(e) =>
      HeaderEnd(cfg, buf, p, len);
      var flat := !Delimited(cfg, ty);
      ItemsAdvance(cfg, e, flat, limit, len.value, [], buf, len.end);
      NoElements(cfg, e, v.items, c, pre);
      ItemsBehind(cfg, e, flat, limit, v.items, 0, buf, len.end, c, header, pre);
    case Map(k, e) =>
      HeaderEnd(cfg, buf, p, len);
      EntriesBehind(cfg, k, e, limit, len.value, buf, len.end, c, header, pre);
  }

  lemma NoElements(cfg: Config, e: Type, items: seq<Value>, q: nat, pre: seq<Byte>)
    requires AllTyped(e, items)
    ensures EncItems(cfg, e, items, 0, q, pre) == [] && items[..0] == []
  {
  }

  lemma DefaultsDiffer(e: Type, items: seq<Value>, k: nat)
    requires k < |items| && items[k] == Solid(e)
    ensures items[..k] + Repeat(Default(e), |items| - k) != items
  {
    hide Solid, Default;
    SolidIsNotDefault(e);
    assert (items[..k] + Repeat(Default(e), |items| - k))[k] == Default(e);
  }

  /** After the first `k` elements; `q0` is where the encoder started. */
  lemma {:induction false} ItemsBehind(cfg: Config, e: Type, flat: bool, limit: Limit, items: seq<Value>, k: nat,
                                       buf: seq<Byte>, p: nat, q0: nat, header: bool, pre: seq<Byte>)
    requires k <= |items| && AllTyped(e, items) && cfg.version.XCDRv2?
    requires forall i :: 0 <= i < |items| ==> items[i] == Solid(e)
    requires Behind(q0 + |EncItems(cfg, e, items, k, q0, pre)|, p, header)
    requires var r := DecItems(cfg, e, flat, limit, |items| - k, items[..k], buf, p); r.Ok? && r.value == List(items)
    ensures var r := DecItems(cfg, e, flat, limit, |items| - k, items[..k], buf, p);
      Behind(q0 + |EncItems(cfg, e, items, |items|, q0, pre)|, r.end, header || (k < |items| && Skips(e, flat)))
    decreases e, 4, |items| - k
  {
    hide EncItems, EncItem, DecItem, Typed, VectorOfArrays, PrimArr, Solid, Default, Skips;
    if k < |items| {
      DefaultsDiffer(e, items, k);
      assert !limit.Reached(p);
      var item := DecItem(cfg, e, flat, buf, p);
      ItemsAdvance(cfg, e, flat, limit, |items| - k - 1, items[..k] + [item.value], buf, item.end);
      assert (items[..k] + [item.value])[k] == items[k];
      assert items[..k] + [item.value] == items[..k + 1];
      EncItemsStep(cfg, e, items, k + 1, q0, pre);
      ItemBehind(cfg, e, flat, buf, p, q0 + |EncItems(cfg, e, items, k, q0, pre)|, header, pre);
      ItemsBehind(cfg, e, flat, limit, items, k + 1, buf, item.end, q0, header || Skips(e, flat), pre);
    }
  }

  lemma {:induction false} ItemBehind(cfg: Config, e: Type, flat: bool, buf: seq<Byte>, p: nat, q: nat, header: bool,
                                      pre: seq<Byte>)
    requires cfg.version.XCDRv2? && Typed(e, Solid(e)) && Behind(q, p, header)
    requires DecItem(cfg, e, flat, buf, p).Ok? && DecItem(cfg, e, flat, buf, p).value == Solid(e)
    ensures Behind(q + |EncItem(cfg, e, Solid(e), q, pre)|, DecItem(cfg, e, flat, buf, p).end, header || Skips(e, flat))
    decreases e, 3, 0
  {
    hide EncItems, Encode, Decode, DecItems, PadLen, Dec32, AllTyped, Delimited;
    TypedParts(e, Solid(e));
    if e.Arr? {
      NoElements(cfg, e.elem, Solid(e).items, q, pre);
      if flat || PrimArr(e) {
        FlatArray(cfg, e, flat, buf, p);
        PrimArrHasNoVector(e);
        ItemsBehind(cfg, e.elem, true, Open, Solid(e).items, 0, buf, p, q, header, pre);
      } else {
        var d := DelimitedArray(cfg, e, buf, p);
        ItemsBehind(cfg, e.elem, true, Until(d.end + d.value), Solid(e).items, 0, buf, d.end, q, true, pre);
      }
    } else {
      DecodeBehind(cfg, e, buf, p, q, header, pre);
    }
  }

  /** The decoder's way through an array that it takes to be delimited. */
  lemma DelimitedArray(cfg: Config, e: Type, buf: seq<Byte>, p: nat) returns (d: Result<nat>)
    requires cfg.version.XCDRv2? && e.Arr? && !PrimArr(e) && Decode(cfg, e, buf, p).Ok?
    ensures d.Ok? && p + 4 <= d.end
    ensures Decode(cfg, e, buf, p) == DecItems(cfg, e.elem, true, Until(d.end + d.value), e.size, [], buf, d.end)
  {
    hide DecItems, DecWord;
    d := Dec32(cfg, buf, p);
  }

  lemma {:induction false} PrimArrHasNoVector(e: Type)
    ensures PrimArr(e) ==> !VectorOfArrays(e)
    decreases e
  {
    if e.Arr? { PrimArrHasNoVector(e.elem); }
  }

  lemma {:induction false} EntriesBehind(cfg: Config, k: Type, e: Type, limit: Limit, n: nat, buf: seq<Byte>, p: nat,
                                         q: nat, header: bool, pre: seq<Byte>)
    requires cfg.version.XCDRv2? && Typed(Map(k, e), Solid(Map(k, e))) && Behind(q, p, header)
    requires var r := DecEntries(cfg, k, e, limit, n, [], [], buf, p); r.Ok? && r.value == Solid(Map(k, e))
    ensures var v := Solid(Map(k, e));
      AllTyped(k, v.keys) && AllTyped(e, v.vals) &&
      Behind(q + |EncEntries(cfg, k, e, v.keys, v.vals, 1, q, pre)|, DecEntries(cfg, k, e, limit, n, [], [], buf,
          p).end,
             header || VectorOfArrays(Map(k, e)))
    decreases Map(k, e), 0, 0
  {
    hide Encode, Decode, EncEntries, DecEntries, Typed, VectorOfArrays;
    var v := Solid(Map(k, e));
    TypedParts(Map(k, e), v);
    VectorInMap(k, e);
    EncEntriesStep(cfg, k, e, v.keys, v.vals, 0, q, pre);
    EncEntriesStep(cfg, k, e, v.keys, v.vals, 1, q, pre);
    FirstEntry(cfg, k, e, limit, n, buf, p);
    var key := Decode(cfg, k, buf, p);
    DecodeBehind(cfg, k, buf, p, q, header, pre);
    DecodeBehind(cfg, e, buf, key.end, q + |Encode(cfg, k, Solid(k), q, pre)|, header || VectorOfArrays(k), pre);
  }

  lemma VectorInMap(k: Type, e: Type)
    ensures VectorOfArrays(Map(k, e)) <==> VectorOfArrays(k) || VectorOfArrays(e)
  {
  }

  /** A map of one entry was read from that entry on. */
  lemma FirstEntry(cfg: Config, k: Type, e: Type, limit: Limit, n: nat, buf: seq<Byte>, p: nat)
    requires var r := DecEntries(cfg, k, e, limit, n, [], [], buf, p); r.Ok? && r.value == Solid(Map(k, e))
    ensures var key := Decode(cfg, k, buf, p);
      && key.Ok? && key.value == Solid(k)
      && var val := Decode(cfg, e, buf, key.end);
        && val.Ok? && val.value == Solid(e)
        && val.end <= DecEntries(cfg, k, e, limit, n, [], [], buf, p).end
  {
    hide Decode, DecEntries;
    DecEntriesUnfold(cfg, k, e, limit, n, [], [], buf, p);
    var v := Solid(Map(k, e));
    assert n != 0 && !limit.Reached(p) by { assert v != Table([], []); }
    var key := Decode(cfg, k, buf, p);
    var val := Decode(cfg, e, buf, key.end);
    EntriesAdvance(cfg, k, e, limit, n - 1, [] + [key.value], [] + [val.value], buf, val.end);
    assert ([] + [key.value])[0] == v.keys[0] && ([] + [val.value])[0] == v.vals[0];
  }

  // ---------------------------------------------------------------- exactly which types round trip

  /** Every readable value of the type comes back, in either byte order, wherever it stands. */
  ghost predicate AlwaysRoundTrips(version: Version, ty: Type) {
    forall swap: bool, host: Endianness, v, pos: nat, pre: seq<Byte>, buf: seq<Byte> ::
      var cfg := Config(version, swap, host);
      Typed(ty, v) && Readable(cfg, ty, v) && |Encode(cfg, ty, v, pos, pre)| < TWO32
        && At(buf, pos, Encode(cfg, ty, v, pos, pre))
      ==> Decode(cfg, ty, buf, pos) == Ok(v, pos + |Encode(cfg, ty, v, pos, pre)|)
  }

  /** With a vector of arrays in the type, the solid value does not come back, from any buffer at any position. */
  lemma SolidFails(cfg: Config, ty: Type, pos: nat, pre: seq<Byte>, buf: seq<Byte>)
    requires cfg.version.XCDRv2? && VectorOfArrays(ty) && Typed(ty, Solid(ty))
    ensures Decode(cfg, ty, buf, pos) != Ok(Solid(ty), pos + |Encode(cfg, ty, Solid(ty), pos, pre)|)
  {
    hide Decode, Encode, Typed, VectorOfArrays, Solid;
    if Decode(cfg, ty, buf, pos).Ok? && Decode(cfg, ty, buf, pos).value == Solid(ty) {
      DecodeBehind(cfg, ty, buf, pos, pos, false, pre);
    }
  }

  /** In XCDRv2, with or without presence flags, all readable values of a type come back exactly when it has no
      vector of arrays of non-primitives. The bound is the 32-bit length that any round trip presupposes. */
  lemma RoundTripV2(version: Version, ty: Type)
    requires version.XCDRv2?
    requires VectorOfArrays(ty) && Typed(ty, Solid(ty)) ==>
      |Encode(Config(version, false, Little), ty, Solid(ty), 0, [])| < TWO32
    ensures AlwaysRoundTrips(version, ty) <==> !VectorOfArrays(ty)
  {
    hide Decode, Encode, Typed, Solid, VectorOfArrays, Readable;
    if VectorOfArrays(ty) {
      var cfg := Config(version, false, Little);
      SolidTyped(ty);
      SolidReadable(cfg, ty);
      var bytes := Encode(cfg, ty, Solid(ty), 0, []);
      assert At(bytes, 0, bytes);
      SolidFails(cfg, ty, 0, [], bytes);
      assert !AlwaysRoundTrips(version, ty);
    } else {
      forall swap: bool, host: Endianness, v, pos: nat, pre: seq<Byte>, buf: seq<Byte>
        | var cfg := Config(version, swap, host);
          Typed(ty, v) && Readable(cfg, ty, v) && |Encode(cfg, ty, v, pos, pre)| < TWO32
            && At(buf, pos, Encode(cfg, ty, v, pos, pre))
        ensures var cfg := Config(version, swap, host);
          Decode(cfg, ty, buf, pos) == Ok(v, pos + |Encode(cfg, ty, v, pos, pre)|)
      {
        RoundTrip(Config(version, swap, host), ty, v, pos, pre, buf);
      }
    }
  }
}
