/** Where the round trip stops: exactly which values a decoder gives back.

    What a decoder returns never holds an empty optional that it could not have met: XCDRv1 reads every optional as
    present, and so does PL_CDR2, but for the trailing elements of a delimited container that it never reads. */
module CdrLimits {
  import opened Basics
  import opened CdrSpec
  import opened CdrRoundTrip

  // ---------------------------------------------------------------- decoders advance

  ghost predicate Advances(r: Result<Value>, pos: nat, least: nat) {
    r.Ok? ==> pos + least <= r.end
  }

  lemma {:induction false} DecodeAdvances(cfg: Config, ty: Type, buf: seq<Byte>, pos: nat)
    ensures Advances(Decode(cfg, ty, buf, pos), pos, 1)
    decreases ty, 2, 0
  {
    hide DecItems, DecEntries, PadLen, Default;
    match ty
    case Prim(_) =>
    case Opt(e) => DecodeAdvances(cfg, e, buf, if cfg.version.Flagged() then pos + 1 else pos);
    case Seq(_) => BodyAdvances(cfg, ty, buf, pos);
    case Map(_, _) => BodyAdvances(cfg, ty, buf, pos);
    case Arr(_, _) => BodyAdvances(cfg, ty, buf, pos);
  }

  lemma {:induction false} BodyAdvances(cfg: Config, ty: Type, buf: seq<Byte>, pos: nat)
    requires ty.Seq? || ty.Arr? || ty.Map?
    ensures Advances(Decode(cfg, ty, buf, pos), pos, 1)
    decreases ty, 1, 0
  {
    hide DecItems, DecEntries, PadLen, Default, DecWord;
    var header := Dec32(cfg, buf, pos);
    var limit := if Delimited(cfg, ty) && header.Ok? then Until(header.end + header.value) else Open;
    var off := if Delimited(cfg, ty) && header.Ok? then header.end else pos;
    var len := Dec32(cfg, buf, off);
    match ty
    case Arr(e, n) => ItemsAdvance(cfg, e, true, limit, n, [], buf, off);
    case Seq(e) => if len.Ok? { ItemsAdvance(cfg, e, !Delimited(cfg, ty), limit, len.value, [], buf, len.end); }
    case Map(k, e) => if len.Ok? { EntriesAdvance(cfg, k, e, limit, len.value, [], [], buf, len.end); }
  }

  lemma {:induction false} ItemsAdvance(cfg: Config, e: Type, flat: bool, limit: Limit, n: nat, done: seq<Value>,
                                        buf: seq<Byte>, pos: nat)
    ensures Advances(DecItems(cfg, e, flat, limit, n, done, buf, pos), pos, if n > 0
      && !limit.Reached(pos) then 1 else 0)
    ensures var r := DecItems(cfg, e, flat, limit, n, done, buf, pos);
      r.Ok? ==> r.value.List? && done <= r.value.items && |r.value.items| == |done| + n
    decreases e, 4, n
  {
    hide Decode, Default;
    if n > 0 && !limit.Reached(pos) {
      ItemAdvances(cfg, e, flat, buf, pos);
      var item := DecItem(cfg, e, flat, buf, pos);
      if item.Ok? { ItemsAdvance(cfg, e, flat, limit, n - 1, done + [item.value], buf, item.end); }
    }
  }

  lemma {:induction false} ItemAdvances(cfg: Config, e: Type, flat: bool, buf: seq<Byte>, pos: nat)
    ensures Advances(DecItem(cfg, e, flat, buf, pos), pos, 1)
    decreases e, 3, 0
  {
    hide Decode, DecItems;
    if flat && e.Arr? {
      ItemsAdvance(cfg, e.elem, true, Open, e.size, [], buf, pos);
    } else {
      DecodeAdvances(cfg, e, buf, pos);
    }
  }

  lemma {:induction false} EntriesAdvance(cfg: Config, k: Type, e: Type, limit: Limit, n: nat, keys: seq<Value>,
                                          vals: seq<Value>, buf: seq<Byte>, pos: nat)
    ensures Advances(DecEntries(cfg, k, e, limit, n, keys, vals, buf, pos), pos, 0)
    ensures var r := DecEntries(cfg, k, e, limit, n, keys, vals, buf, pos);
      r.Ok? ==> r.value.Table? && keys <= r.value.keys && vals <= r.value.vals
    decreases Map(k, e), 0, n
  {
    hide Decode;
    if n > 0 && !limit.Reached(pos) {
      var key := Decode(cfg, k, buf, pos);
      DecodeAdvances(cfg, k, buf, pos);
      if key.Ok? {
        var val := Decode(cfg, e, buf, key.end);
        DecodeAdvances(cfg, e, buf, key.end);
        if val.Ok? {
          if key.value in keys {
            EntriesAdvance(cfg, k, e, limit, n - 1, keys, vals, buf, val.end);
          } else {
            EntriesAdvance(cfg, k, e, limit, n - 1, keys + [key.value], vals + [val.value], buf, val.end);
          }
        }
      }
    }
  }

  // ---------------------------------------------------------------- decoded values are readable

  /** What a delimited container leaves in the elements it does not reach. */
  lemma {:induction false} DefaultReadable(cfg: Config, e: Type)
    ensures ReadableItem(cfg, e, Default(e)) || Blank(cfg, e, Default(e))
    ensures !e.Arr? && !e.Opt? ==> Readable(cfg, e, Default(e))
    decreases e
  {
    match e
    case Arr(x, _) => DefaultReadable(cfg, x);
    case Seq(x) =>
      NoneRead(cfg, x, x);
      assert Trimmed(cfg, x, [], Delimited(cfg, e));
      assert Readable(cfg, e, List([]));
    case Map(k, x) => NoneRead(cfg, k, x);
    case _ =>
  }

  lemma {:induction false} DecodedReadable(cfg: Config, ty: Type, buf: seq<Byte>, pos: nat)
    requires Supported(cfg, ty) && Decode(cfg, ty, buf, pos).Ok?
    ensures Readable(cfg, ty, Decode(cfg, ty, buf, pos).value)
    decreases ty, 2, 0
  {
    hide DecWord, Dec32, DecItems, DecEntries, ReadUpTo, AllReadable;
    match ty
    case Prim(_) =>
    case Opt(e) =>
      if Decode(cfg, ty, buf, pos).value.Present? {
        DecodedReadable(cfg, e, buf, if cfg.version.Flagged() then pos + 1 else pos);
      }
    case Arr(e, n) => DecodedArrayReadable(cfg, e, n, buf, pos);
    case Seq(e) => DecodedVectorReadable(cfg, e, buf, pos);
    case Map(k, e) =>
      var header := Dec32(cfg, buf, pos);
      var limit := if Delimited(cfg, ty) then Until(header.end + header.value) else Open;
      var len := Dec32(cfg, buf, if Delimited(cfg, ty) then header.end else pos);
      NoneRead(cfg, k, e);
      DecodedEntriesReadable(cfg, k, e, limit, len.value, [], [], buf, len.end);
  }

  lemma NoneRead(cfg: Config, k: Type, e: Type)
    ensures AllReadable(cfg, k, []) && AllReadable(cfg, e, []) && ReadUpTo(cfg, e, [], 0)
  {
  }

  lemma {:induction false} DecodedArrayReadable(cfg: Config, e: Type, n: Positive, buf: seq<Byte>, pos: nat)
    requires Supported(cfg, Arr(e, n)) && Decode(cfg, Arr(e, n), buf, pos).Ok?
    ensures Readable(cfg, Arr(e, n), Decode(cfg, Arr(e, n), buf, pos).value)
    decreases e, 9, 0
  {
    hide DecWord, Dec32, DecItems, ReadUpTo;
    var header := Dec32(cfg, buf, pos);
    NoneRead(cfg, e, e);
    var m;
    if Delimited(cfg, Arr(e, n)) {
      m := DecodedItemsReadable(cfg, e, true, Until(header.end + header.value), n, [], buf, header.end);
    } else {
      m := DecodedItemsReadable(cfg, e, true, Open, n, [], buf, pos);
    }
    assert ReadUpTo(cfg, e, Decode(cfg, Arr(e, n), buf, pos).value.items, m);
  }

  lemma {:induction false} DecodedVectorReadable(cfg: Config, e: Type, buf: seq<Byte>, pos: nat)
    requires Supported(cfg, Seq(e)) && Decode(cfg, Seq(e), buf, pos).Ok?
    ensures Readable(cfg, Seq(e), Decode(cfg, Seq(e), buf, pos).value)
    decreases e, 9, 0
  {
    hide DecWord, DecItems, ReadUpTo, Dec32;
    NoneRead(cfg, e, e);
    var header := Dec32(cfg, buf, pos);
    var delimited := Delimited(cfg, Seq(e));
    var len := Dec32(cfg, buf, if delimited then header.end else pos);
    CountFits32(cfg, buf, if delimited then header.end else pos);
    if len.value == 0 {
      assert ReadUpTo(cfg, e, Decode(cfg, Seq(e), buf, pos).value.items, 0);
    } else {
      var limit := if delimited then Until(header.end + header.value) else Open;
      var m := DecodedItemsReadable(cfg, e, !delimited, limit, len.value, [], buf, len.end);
      assert ReadUpTo(cfg, e, Decode(cfg, Seq(e), buf, pos).value.items, m);
    }
  }

  lemma CountFits32(cfg: Config, buf: seq<Byte>, pos: nat)
    ensures Dec32(cfg, buf, pos).Ok? ==> Dec32(cfg, buf, pos).value < TWO32
  {
    hide DecWord;
  }

  lemma {:induction false} DecodedItemReadable(cfg: Config, e: Type, flat: bool, buf: seq<Byte>, pos: nat)
    requires Supported(cfg, e) && (!flat && e.Arr? ==> PrimArr(e))
    requires DecItem(cfg, e, flat, buf, pos).Ok?
    ensures ReadableItem(cfg, e, DecItem(cfg, e, flat, buf, pos).value)
    decreases e, 3, 0
  {
    hide Decode, DecItems, ReadUpTo, Readable;
    if e.Arr? {
      NoneRead(cfg, e.elem, e.elem);
      FlatArray(cfg, e, flat, buf, pos);
      var m := DecodedItemsReadable(cfg, e.elem, true, Open, e.size, [], buf, pos);
      AllRead(cfg, e.elem, DecItem(cfg, e, flat, buf, pos).value.items);
    } else {
      DecodedReadable(cfg, e, buf, pos);
    }
  }

  lemma FlatArray(cfg: Config, e: Type, flat: bool, buf: seq<Byte>, pos: nat)
    requires e.Arr? && (!flat ==> PrimArr(e))
    ensures DecItem(cfg, e, flat, buf, pos) == DecItems(cfg, e.elem, true, Open, e.size, [], buf, pos)
  {
    hide DecItems;
    if !flat {
      assert !Delimited(cfg, e);
      assert Decode(cfg, e, buf, pos) == DecPlain(cfg, e, buf, pos);
    }
  }

  lemma AllRead(cfg: Config, e: Type, items: seq<Value>)
    requires ReadUpTo(cfg, e, items, |items|)
    ensures forall i :: 0 <= i < |items| ==> ReadableItem(cfg, e, items[i])
  {
  }

  /** Elements that were read are readable; those after the limit keep their default. */
  lemma {:induction false} DecodedItemsReadable(cfg: Config, e: Type, flat: bool, limit: Limit, n: nat,
                                                done: seq<Value>, buf: seq<Byte>, pos: nat) returns (m: nat)
    requires Supported(cfg, e) && (!flat && e.Arr? ==> PrimArr(e))
    requires ReadUpTo(cfg, e, done, |done|) && DecItems(cfg, e, flat, limit, n, done, buf, pos).Ok?
    ensures var v := DecItems(cfg, e, flat, limit, n, done, buf, pos).value;
      v.List? && |v.items| == |done| + n && ReadUpTo(cfg, e, v.items, m) && (limit.Open? ==> m == |v.items|)
    decreases e, 4, n
  {
    hide DecItem, Default, ReadableItem, Blank;
    if n == 0 || limit.Reached(pos) {
      DefaultReadable(cfg, e);
      m := if n == 0 || ReadableItem(cfg, e, Default(e)) then |done| + n else |done|;
    } else {
      var item := DecItem(cfg, e, flat, buf, pos);
      DecodedItemReadable(cfg, e, flat, buf, pos);
      m := DecodedItemsReadable(cfg, e, flat, limit, n - 1, done + [item.value], buf, item.end);
    }
  }

  lemma {:induction false} DecodedEntriesReadable(cfg: Config, k: Type, e: Type, limit: Limit, n: nat, keys: seq<Value>,
                                                  vals: seq<Value>, buf: seq<Byte>, pos: nat)
    requires Supported(cfg, k) && Supported(cfg, e) && AllReadable(cfg, k, keys) && AllReadable(cfg, e, vals)
    requires DecEntries(cfg, k, e, limit, n, keys, vals, buf, pos).Ok?
    ensures var v := DecEntries(cfg, k, e, limit, n, keys, vals, buf, pos).value;
      v.Table? && AllReadable(cfg, k, v.keys) && AllReadable(cfg, e, v.vals)
    decreases Map(k, e), 0, n
  {
    hide Decode, Readable;
    if n > 0 && !limit.Reached(pos) {
      var key := Decode(cfg, k, buf, pos);
      var val := Decode(cfg, e, buf, key.end);
      DecodedReadable(cfg, k, buf, pos);
      DecodedReadable(cfg, e, buf, key.end);
      if key.value in keys {
        DecodedEntriesReadable(cfg, k, e, limit, n - 1, keys, vals, buf, val.end);
      } else {
        DecodedEntriesReadable(cfg, k, e, limit, n - 1, keys + [key.value], vals + [val.value], buf, val.end);
      }
    }
  }

  // ---------------------------------------------------------------- exactly which values come back

  /** In every version and encoding a value comes back exactly when it is readable. */
  lemma RoundTripExactly(cfg: Config, ty: Type, v: Value, pos: nat, pre: seq<Byte>, buf: seq<Byte>)
    requires Typed(ty, v) && Supported(cfg, ty)
    requires var bytes := Encode(cfg, ty, v, pos, pre); |bytes| < TWO32 && At(buf, pos, bytes)
    ensures Decode(cfg, ty, buf, pos) == Ok(v, pos + |Encode(cfg, ty, v, pos, pre)|) <==> Readable(cfg, ty, v)
  {
    hide Decode, Encode, Readable, Typed, Supported;
    if Readable(cfg, ty, v) {
      RoundTrip(cfg, ty, v, pos, pre, buf);
    } else if Decode(cfg, ty, buf, pos).Ok? {
      DecodedReadable(cfg, ty, buf, pos);
    }
  }

  /** With presence flags every value is readable. */
  lemma {:induction false} FlaggedReadable(cfg: Config, ty: Type, v: Value)
    requires cfg.version.Flagged() && Typed(ty, v)
    ensures Readable(cfg, ty, v) && ReadableItem(cfg, ty, v)
    decreases ty, 0
  {
    hide ReadUpTo, Typed;
    TypedParts(ty, v);
    match ty
    case Prim(_) =>
    case Opt(e) => if v.Present? { PresentTyped(e, v); FlaggedReadable(cfg, e, v.inner); }
    case Seq(e) => FlaggedItems(cfg, e, v.items);
    case Arr(e, _) => FlaggedItems(cfg, e, v.items);
    case Map(k, e) =>
      forall i | 0 <= i < |v.keys| ensures Readable(cfg, k, v.keys[i]) { FlaggedReadable(cfg, k, v.keys[i]); }
      forall i | 0 <= i < |v.vals| ensures Readable(cfg, e, v.vals[i]) { FlaggedReadable(cfg, e, v.vals[i]); }
  }

  lemma PresentTyped(e: Type, v: Value)
    requires Typed(Opt(e), v) && v.Present?
    ensures Typed(e, v.inner)
  {
  }

  lemma {:induction false} FlaggedItems(cfg: Config, e: Type, items: seq<Value>)
    requires cfg.version.Flagged() && forall i :: 0 <= i < |items| ==> Typed(e, items[i])
    ensures ReadUpTo(cfg, e, items, |items|) && forall i :: 0 <= i < |items| ==> ReadableItem(cfg, e, items[i])
    decreases e, 1
  {
    hide ReadableItem, Readable, Typed;
    forall i | 0 <= i < |items| ensures ReadableItem(cfg, e, items[i]) { FlaggedReadable(cfg, e, items[i]); }
  }

  /** In XCDRv1 a value is readable exactly when none of its optionals is empty. */
  lemma {:induction false} PlainReadable(cfg: Config, ty: Type, v: Value)
    requires cfg.version.XCDRv1? && Typed(ty, v)
    ensures Readable(cfg, ty, v) <==> NoAbsent(v)
    ensures ReadableItem(cfg, ty, v) <==> NoAbsent(v)
    decreases ty, 0
  {
    hide ReadUpTo, Typed;
    TypedParts(ty, v);
    match ty
    case Prim(_) => PrimWord(ty, v);
    case Opt(e) => if v.Present? { PresentTyped(e, v); PlainReadable(cfg, e, v.inner); } else { AbsentOtherwise(e, v); }
    case Seq(e) => PlainItems(cfg, e, v.items);
    case Arr(e, _) => PlainItems(cfg, e, v.items);
    case Map(k, e) =>
      forall i | 0 <= i < |v.keys| ensures Readable(cfg, k, v.keys[i])
        <==> NoAbsent(v.keys[i]) { PlainReadable(cfg, k, v.keys[i]); }
      forall i | 0 <= i < |v.vals| ensures Readable(cfg, e, v.vals[i])
        <==> NoAbsent(v.vals[i]) { PlainReadable(cfg, e, v.vals[i]); }
  }

  lemma PrimWord(ty: Type, v: Value)
    requires ty.Prim? && Typed(ty, v)
    ensures v.Word?
  {
  }

  lemma AbsentOtherwise(e: Type, v: Value)
    requires Typed(Opt(e), v) && !v.Present?
    ensures v.Absent?
  {
  }

  lemma {:induction false} PlainItems(cfg: Config, e: Type, items: seq<Value>)
    requires cfg.version.XCDRv1? && forall i :: 0 <= i < |items| ==> Typed(e, items[i])
    ensures ReadUpTo(cfg, e, items, |items|) <==> forall i :: 0 <= i < |items| ==> NoAbsent(items[i])
    ensures (forall i :: 0 <= i < |items| ==> ReadableItem(cfg, e, items[i]))
       <==> forall i :: 0 <= i < |items| ==> NoAbsent(items[i])
    decreases e, 1
  {
    hide ReadableItem, Readable, Typed, NoAbsent;
    forall i | 0 <= i < |items| ensures ReadableItem(cfg, e, items[i])
      <==> NoAbsent(items[i]) { PlainReadable(cfg, e, items[i]); }
  }

  /** In XCDRv1 a value comes back exactly when none of its optionals is empty. */
  lemma RoundTripV1(cfg: Config, ty: Type, v: Value, pos: nat, pre: seq<Byte>, buf: seq<Byte>)
    requires cfg.version.XCDRv1? && Typed(ty, v)
    requires var bytes := Encode(cfg, ty, v, pos, pre); |bytes| < TWO32 && At(buf, pos, bytes)
    ensures Decode(cfg, ty, buf, pos) == Ok(v, pos + |Encode(cfg, ty, v, pos, pre)|) <==> NoAbsent(v)
  {
    hide Decode, Encode, Readable, Typed;
    RoundTripExactly(cfg, ty, v, pos, pre, buf);
    PlainReadable(cfg, ty, v);
  }

  /** An empty optional byte at the end of a stream is written as nothing and cannot be read. */
  lemma EmptyOptionalFails(cfg: Config, pos: nat, buf: seq<Byte>)
    requires cfg.version.XCDRv1? && |buf| == pos
    ensures
      && Encode(cfg, Opt(Prim(W1)), Absent, pos, buf) == []
      && Decode(cfg, Opt(Prim(W1)), buf, pos) == Err(NotEnoughMemory)
  {
    assert Decode(cfg, Prim(W1), buf, pos) == Err(NotEnoughMemory);
  }

  /** In PL_CDR2 a vector of optionals comes back when its empty ones are at the end, and not when one is in front. */
  lemma OnlyTrailingBlanks(cfg: Config, x: Value)
    requires cfg.version == XCDRv2(true) && Typed(Prim(W1), x)
    ensures
      && Readable(cfg, Seq(Opt(Prim(W1))), List([Present(x), Absent]))
      && !Readable(cfg, Seq(Opt(Prim(W1))), List([Absent, Present(x)]))
  {
    var e := Opt(Prim(W1));
    assert ReadUpTo(cfg, e, [Present(x), Absent], 1);
    if Readable(cfg, Seq(e), List([Absent, Present(x)])) {
      ListReadable(cfg, Seq(e), List([Absent, Present(x)]));
      var m :| ReadUpTo(cfg, e, [Absent, Present(x)], m);
      BlankInFront(cfg, x, m);
      assert false;
    }
  }

  lemma BlankInFront(cfg: Config, x: Value, m: nat)
    requires !cfg.version.Flagged()
    ensures !ReadUpTo(cfg, Opt(Prim(W1)), [Absent, Present(x)], m)
  {
    var items := [Absent, Present(x)];
    assert !ReadableItem(cfg, Opt(Prim(W1)), items[0]) && !Blank(cfg, Opt(Prim(W1)), items[1]);
  }
}
