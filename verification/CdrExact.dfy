/** What the decoder accepts: it looks at nothing behind its end, refuses every truncated stream, and, where there are
    neither DHEADERs nor maps, accepts exactly the encodings. */
module CdrExact {
  import opened Basics
  import opened CdrSpec
  import opened CdrByteOrder
  import opened CdrRoundTrip
  import opened CdrLimits
  import opened CdrFrame
  import opened CdrAccepted
  import opened CdrCodec

  // ---------------------------------------------------------------- prefixes of a stream

  /** Against the answer for the whole stream, that for its first `m` bytes: the same when decoding ended within them,
      and not enough memory when it did not. */
  ghost predicate Cut<T>(full: Result<T>, short: Result<T>, m: nat) {
    && (full.Ok? ==> short == if full.end <= m then full else Err(NotEnoughMemory))
    && (short.Ok? ==> full == short)
  }

  lemma WordCut(cfg: Config, w: Width, buf: seq<Byte>, m: nat, pos: nat)
    requires m <= |buf|
    ensures Cut(DecWord(cfg, w, buf, pos), DecWord(cfg, w, buf[..m], pos), m)
  {
    hide PadLen, Ordered;
    var p := pos + PadLen(pos, AlignOf(cfg.version, w));
    if p + w.Bytes() <= m { assert buf[..m][p..p + w.Bytes()] == buf[p..p + w.Bytes()]; }
  }

  lemma CountCut(cfg: Config, buf: seq<Byte>, m: nat, pos: nat)
    requires m <= |buf|
    ensures Cut(Dec32(cfg, buf, pos), Dec32(cfg, buf[..m], pos), m)
  {
    hide DecWord, Val32, PadLen;
    WordCut(cfg, W4, buf, m, pos);
  }

  /** A decoder's answer for a prefix of the stream, in every version and for every type. */
  lemma {:induction false} DecodeCut(cfg: Config, ty: Type, buf: seq<Byte>, m: nat, pos: nat)
    requires pos <= m <= |buf|
    ensures Cut(Decode(cfg, ty, buf, pos), Decode(cfg, ty, buf[..m], pos), m)
    decreases ty, 2, 0
  {
    hide DecWord, Dec32, DecDelimited, DecPlain, Delimited;
    match ty
    case Prim(w) => WordCut(cfg, w, buf, m, pos);
    case Opt(e) =>
      var p := if cfg.version.Flagged() then pos + 1 else pos;
      if p <= m { DecodeCut(cfg, e, buf, m, p); }
      DecodeAdvances(cfg, ty, buf, pos);
    case _ =>
      if Delimited(cfg, ty) {
        CountCut(cfg, buf, m, pos);
        var header := Dec32(cfg, buf, pos);
        DecodeAdvances(cfg, ty, buf, pos);
        if header.Ok? {
          DelimitedAdvances(cfg, ty, header.value, header.end, buf);
          if header.end <= m { DelimitedCut(cfg, ty, header.value, header.end, buf, m); }
        }
      } else {
        PlainCut(cfg, ty, buf, m, pos);
      }
  }

  lemma DelimitedAdvances(cfg: Config, ty: Type, dheader: nat, off: nat, buf: seq<Byte>)
    requires ty.Seq? || ty.Arr? || ty.Map?
    ensures Advances(DecDelimited(cfg, ty, dheader, off, buf), off, 0)
  {
    hide DecItems, DecEntries, DecWord;
    var limit, len := Until(off + dheader), Dec32(cfg, buf, off);
    match ty
    case Arr(e, n) => ItemsAdvance(cfg, e, true, limit, n, [], buf, off);
    case Seq(e) => if len.Ok? { ItemsAdvance(cfg, e, false, limit, len.value, [], buf, len.end); }
    case Map(k, e) => if len.Ok? { EntriesAdvance(cfg, k, e, limit, len.value, [], [], buf, len.end); }
  }

  lemma {:induction false} DelimitedCut(cfg: Config, ty: Type, dheader: nat, off: nat, buf: seq<Byte>, m: nat)
    requires (ty.Seq? || ty.Arr? || ty.Map?) && off <= m <= |buf|
    ensures Cut(DecDelimited(cfg, ty, dheader, off, buf), DecDelimited(cfg, ty, dheader, off, buf[..m]), m)
    decreases ty, 1, 1
  {
    hide DecItems, DecEntries, Dec32;
    var limit, len := Until(off + dheader), Dec32(cfg, buf, off);
    CountCut(cfg, buf, m, off);
    match ty
    case Arr(e, n) => ItemsCut(cfg, e, true, limit, n, [], buf, m, off);
    case Seq(e) =>
      if len.Ok? {
        ItemsAdvance(cfg, e, false, limit, len.value, [], buf, len.end);
        if len.end <= m { ItemsCut(cfg, e, false, limit, len.value, [], buf, m, len.end); }
      }
    case Map(k, e) =>
      if len.Ok? {
        EntriesAdvance(cfg, k, e, limit, len.value, [], [], buf, len.end);
        if len.end <= m { EntriesCut(cfg, k, e, limit, len.value, [], [], buf, m, len.end); }
      }
  }

  lemma {:induction false} PlainCut(cfg: Config, ty: Type, buf: seq<Byte>, m: nat, pos: nat)
    requires (ty.Seq? || ty.Arr? || ty.Map?) && pos <= m <= |buf|
    ensures Cut(DecPlain(cfg, ty, buf, pos), DecPlain(cfg, ty, buf[..m], pos), m)
    decreases ty, 1, 0
  {
    hide DecItems, DecEntries, Dec32;
    var len := Dec32(cfg, buf, pos);
    CountCut(cfg, buf, m, pos);
    match ty
    case Arr(e, n) => ItemsCut(cfg, e, true, Open, n, [], buf, m, pos);
    case Seq(e) =>
      if len.Ok? {
        OpenAdvances(cfg, e, true, len.value, [], buf, len.end);
        if len.end <= m { ItemsCut(cfg, e, true, Open, len.value, [], buf, m, len.end); }
      }
    case Map(k, e) =>
      if len.Ok? {
        EntriesAdvance(cfg, k, e, Open, len.value, [], [], buf, len.end);
        if len.end <= m { EntriesCut(cfg, k, e, Open, len.value, [], [], buf, m, len.end); }
      }
  }

  /** Without a limit every element takes at least one byte. */
  lemma {:induction false} OpenAdvances(cfg: Config, e: Type, flat: bool, n: nat, done: seq<Value>, buf: seq<Byte>,
                                        pos: nat)
    ensures Advances(DecItems(cfg, e, flat, Open, n, done, buf, pos), pos, n)
    decreases n
  {
    hide DecItem, Default;
    if n > 0 {
      ItemAdvances(cfg, e, flat, buf, pos);
      var item := DecItem(cfg, e, flat, buf, pos);
      if item.Ok? { OpenAdvances(cfg, e, flat, n - 1, done + [item.value], buf, item.end); }
    }
  }

  lemma {:induction false} ItemsCut(cfg: Config, e: Type, flat: bool, limit: Limit, n: nat, done: seq<Value>,
                                    buf: seq<Byte>, m: nat, pos: nat)
    requires pos <= m <= |buf|
    ensures Cut(DecItems(cfg, e, flat, limit, n, done, buf, pos), DecItems(cfg, e, flat, limit, n, done, buf[..m], pos),
                m)
    decreases e, 4, n
  {
    hide DecItem, DecItems, Default;
    DecItemsUnfold(cfg, e, flat, limit, n, done, buf, pos);
    DecItemsUnfold(cfg, e, flat, limit, n, done, buf[..m], pos);
    if n > 0 && !limit.Reached(pos) {
      ItemCut(cfg, e, flat, buf, m, pos);
      var item := DecItem(cfg, e, flat, buf, pos);
      if item.Ok? {
        ItemsAdvance(cfg, e, flat, limit, n - 1, done + [item.value], buf, item.end);
        if item.end <= m { ItemsCut(cfg, e, flat, limit, n - 1, done + [item.value], buf, m, item.end); }
      }
    }
  }

  lemma {:induction false} ItemCut(cfg: Config, e: Type, flat: bool, buf: seq<Byte>, m: nat, pos: nat)
    requires pos <= m <= |buf|
    ensures Cut(DecItem(cfg, e, flat, buf, pos), DecItem(cfg, e, flat, buf[..m], pos), m)
    decreases e, 3, 0
  {
    hide Decode, DecItems;
    if flat && e.Arr? {
      ItemsCut(cfg, e.elem, true, Open, e.size, [], buf, m, pos);
    } else {
      DecodeCut(cfg, e, buf, m, pos);
    }
  }

  lemma {:induction false} EntriesCut(cfg: Config, k: Type, e: Type, limit: Limit, n: nat, keys: seq<Value>,
                                      vals: seq<Value>, buf: seq<Byte>, m: nat, pos: nat)
    requires pos <= m <= |buf|
    ensures Cut(DecEntries(cfg, k, e, limit, n, keys, vals, buf, pos),
                DecEntries(cfg, k, e, limit, n, keys, vals, buf[..m], pos), m)
    decreases Map(k, e), 0, n
  {
    hide Decode, DecEntries;
    DecEntriesUnfold(cfg, k, e, limit, n, keys, vals, buf, pos);
    DecEntriesUnfold(cfg, k, e, limit, n, keys, vals, buf[..m], pos);
    if n > 0 && !limit.Reached(pos) {
      DecodeCut(cfg, k, buf, m, pos);
      var key := Decode(cfg, k, buf, pos);
      if key.Ok? {
        DecodeAdvances(cfg, e, buf, key.end);
        var val := Decode(cfg, e, buf, key.end);
        if key.end <= m { DecodeCut(cfg, e, buf, m, key.end); }
        if val.Ok? {
          var seen := key.value in keys;
          var ks, vs := if seen then keys else keys + [key.value], if seen then vals else vals + [val.value];
          EntriesAdvance(cfg, k, e, limit, n - 1, ks, vs, buf, val.end);
          if val.end <= m { EntriesCut(cfg, k, e, limit, n - 1, ks, vs, buf, m, val.end); }
        }
      }
    }
  }

  /** A stream that was accepted is refused, for want of memory, as soon as one of the bytes up to its end is missing;
      bytes after that end do not matter. */
  lemma TruncatedRefused(cfg: Config, ty: Type, buf: seq<Byte>, m: nat, pos: nat)
    requires pos <= m <= |buf| && Decode(cfg, ty, buf, pos).Ok?
    ensures var r := Decode(cfg, ty, buf, pos);
      Decode(cfg, ty, buf[..m], pos) == if r.end <= m then r else Err(NotEnoughMemory)
  {
    hide Decode;
    DecodeCut(cfg, ty, buf, m, pos);
  }

  // ---------------------------------------------------------------- exactly the encodings

  /** No map in the type, and no container with a DHEADER. */
  predicate Bare(cfg: Config, ty: Type)
    decreases ty
  {
    match ty
    case Prim(_) => true
    case Opt(e) => Bare(cfg, e)
    case Seq(e) => !Delimited(cfg, ty) && Bare(cfg, e)
    case Arr(e, _) => !Delimited(cfg, ty) && Bare(cfg, e)
    case Map(_, _) => false
  }

  lemma {:induction false} BareSupported(cfg: Config, ty: Type)
    requires Bare(cfg, ty)
    ensures Supported(cfg, ty)
    decreases ty
  {
    match ty
    case Prim(_) =>
    case Opt(e) => BareSupported(cfg, e);
    case Seq(e) => BareSupported(cfg, e);
    case Arr(e, _) => BareSupported(cfg, e);
  }

  /** The bytes that a scalar was decoded from are its encoding. */
  lemma WordHeld(cfg: Config, w: Width, buf: seq<Byte>, pos: nat)
    requires DecWord(cfg, w, buf, pos).Ok?
    ensures At(buf, pos, EncWord(cfg, w, DecWord(cfg, w, buf, pos).value, pos, buf))
  {
    hide PadLen, Ordered, At, EncWord;
    var p := pos + PadLen(pos, AlignOf(cfg.version, w));
    OrderedTwice(cfg, buf[p..p + w.Bytes()]);
    WordPlaced(cfg, w, DecWord(cfg, w, buf, pos).value, pos, buf);
  }

  lemma CountHeld(cfg: Config, buf: seq<Byte>, pos: nat)
    requires Dec32(cfg, buf, pos).Ok?
    ensures var r := Dec32(cfg, buf, pos); HoldsWord(cfg, r.value, buf, pos, r.end)
  {
    hide PadLen, At, EncWord, U32, Val32;
    WordHeld(cfg, W4, buf, pos);
    WordBytes(cfg.host, DecWord(cfg, W4, buf, pos).value);
    CountPlaced(cfg, Dec32(cfg, buf, pos).value, buf, pos, Dec32(cfg, buf, pos).end);
  }

  /** The bytes that a value was decoded from are its encoding. */
  lemma {:induction false} DecodedHeld(cfg: Config, ty: Type, buf: seq<Byte>, pos: nat)
    requires Bare(cfg, ty) && pos <= |buf| && Decode(cfg, ty, buf, pos).Ok?
    ensures var r := Decode(cfg, ty, buf, pos); Typed(ty, r.value) && Holds(cfg, ty, r.value, buf, pos, r.end)
    decreases ty, 2, 0
  {
    hide DecWord, Dec32, DecItems, DecEntries, Holds, Typed, PadLen, At;
    DecodedTyped(cfg, ty, buf, pos);
    match ty
    case Prim(w) =>
      WordHeld(cfg, w, buf, pos);
      WordHolds(cfg, w, Decode(cfg, ty, buf, pos).value, buf, pos);
    case Opt(e) => OptionalHeld(cfg, e, buf, pos);
    case Seq(_) => ContainerHeld(cfg, ty, buf, pos);
    case Arr(_, _) => ContainerHeld(cfg, ty, buf, pos);
  }

  lemma {:induction false} OptionalHeld(cfg: Config, e: Type, buf: seq<Byte>, pos: nat)
    requires Bare(cfg, e) && pos <= |buf| && Decode(cfg, Opt(e), buf, pos).Ok?
    requires Typed(Opt(e), Decode(cfg, Opt(e), buf, pos).value)
    ensures var r := Decode(cfg, Opt(e), buf, pos); Holds(cfg, Opt(e), r.value, buf, pos, r.end)
    decreases e, 9, 0
  {
    hide DecWord, DecDelimited, DecPlain, EncBody, At, Holds, Delimited;
    var v := Decode(cfg, Opt(e), buf, pos).value;
    var mid := if cfg.version.Flagged() then pos + 1 else pos;
    if cfg.version.Flagged() {
      FlagDecoded(cfg, buf, pos);
      WordHeld(cfg, W1, buf, pos);
    }
    if v.Present? { DecodedHeld(cfg, e, buf, mid); }
    OptionalHolds(cfg, e, v, buf, buf, pos, mid, Decode(cfg, Opt(e), buf, pos).end);
  }

  lemma {:induction false} ContainerHeld(cfg: Config, ty: Type, buf: seq<Byte>, pos: nat)
    requires (ty.Seq? || ty.Arr?) && Bare(cfg, ty) && pos <= |buf| && Decode(cfg, ty, buf, pos).Ok?
    requires Typed(ty, Decode(cfg, ty, buf, pos).value)
    ensures var r := Decode(cfg, ty, buf, pos); Holds(cfg, ty, r.value, buf, pos, r.end)
    decreases ty, 1, 0
  {
    hide Dec32, DecItems, Holds, AllTyped, PadLen, At, HoldsItems, HoldsBody, HoldsWord;
    var r := Decode(cfg, ty, buf, pos);
    TypedParts(ty, r.value);
    TypedElements(ty, r.value);
    var mid := pos;
    if ty.Seq? {
      CountHeld(cfg, buf, pos);
      mid := Dec32(cfg, buf, pos).end;
      ItemsAdvance(cfg, ty.elem, true, Open, Dec32(cfg, buf, pos).value, [], buf, mid);
    }
    NoItems(cfg, ty.elem, r.value.items, buf, mid);
    if ty.Arr? || Dec32(cfg, buf, pos).value != 0 {
      ItemsHeld(cfg, ty.elem, |r.value.items|, [], buf, mid, mid, r.value.items);
    }
    BodyFromParts(cfg, ty, r.value, buf, buf, pos, mid, r.end);
    PlainFromBody(cfg, ty, r.value, buf, pos, r.end);
  }

  lemma TypedElements(ty: Type, v: Value)
    requires (ty.Seq? || ty.Arr?) && Typed(ty, v)
    ensures AllTyped(ty.elem, v.items)
  {
  }

  /** `items` are the elements that the loop ends with; those in `done` lie between `start` and `pos`. */
  lemma {:induction false} ItemsHeld(cfg: Config, e: Type, n: nat, done: seq<Value>, buf: seq<Byte>, start: nat,
                                     pos: nat, items: seq<Value>)
    requires Bare(cfg, e) && AllTyped(e, items) && |items| == |done| + n && done <= items && pos <= |buf|
    requires DecItems(cfg, e, true, Open, n, done, buf, pos).Ok?
    requires DecItems(cfg, e, true, Open, n, done, buf, pos).value == List(items)
    requires HoldsItems(cfg, e, items, |done|, buf, start, pos)
    ensures HoldsItems(cfg, e, items, |items|, buf, start, DecItems(cfg, e, true, Open, n, done, buf, pos).end)
    decreases e, 4, n
  {
    hide DecItem, DecItems, Default, HoldsItems, HoldsItem, Typed, AllTyped, At;
    DecItemsUnfold(cfg, e, true, Open, n, done, buf, pos);
    if n > 0 {
      var item := DecItem(cfg, e, true, buf, pos);
      ItemHeld(cfg, e, buf, pos);
      ItemsAdvance(cfg, e, true, Open, n - 1, done + [item.value], buf, item.end);
      assert (done + [item.value])[|done|] == items[|done|];
      AppendItem(cfg, e, items, |done|, buf, buf, start, pos, item.end);
      ItemEnd(cfg, e, buf, pos);
      ItemsHeld(cfg, e, n - 1, done + [item.value], buf, start, item.end, items);
    }
  }

  lemma ItemEnd(cfg: Config, e: Type, buf: seq<Byte>, pos: nat)
    requires pos <= |buf| && DecItem(cfg, e, true, buf, pos).Ok?
    ensures DecItem(cfg, e, true, buf, pos).end <= |buf|
  {
    hide DecItem;
    ItemCut(cfg, e, true, buf, |buf|, pos);
    assert buf[..|buf|] == buf;
  }

  lemma {:induction false} ItemHeld(cfg: Config, e: Type, buf: seq<Byte>, pos: nat)
    requires Bare(cfg, e) && pos <= |buf| && DecItem(cfg, e, true, buf, pos).Ok?
    ensures var r := DecItem(cfg, e, true, buf, pos); Typed(e, r.value) && HoldsItem(cfg, e, r.value, buf, pos, r.end)
    decreases e, 3, 0
  {
    hide Decode, DecItems, Encode, EncItems, Typed, AllTyped, At;
    DecodedItemTyped(cfg, e, true, buf, pos);
    var r := DecItem(cfg, e, true, buf, pos);
    if e.Arr? {
      TypedParts(e, r.value);
      TypedElements(e, r.value);
      NoItems(cfg, e.elem, r.value.items, buf, pos);
      ItemsHeld(cfg, e.elem, e.size, [], buf, pos, pos, r.value.items);
    } else {
      DecodedHeld(cfg, e, buf, pos);
    }
  }

  /** Where there are neither DHEADERs nor maps the decoder accepts the encodings of readable values, with that value
      and that end, and nothing else. */
  lemma AcceptsExactlyEncodings(cfg: Config, ty: Type, v: Value, buf: seq<Byte>, pos: nat, end: nat)
    requires Bare(cfg, ty) && pos <= |buf| < TWO32
    ensures Decode(cfg, ty, buf, pos) == Ok(v, end)
       <==> Typed(ty, v) && Readable(cfg, ty, v) && Holds(cfg, ty, v, buf, pos, end)
  {
    hide Decode, Typed, Readable, Holds, Bare, Supported;
    BareSupported(cfg, ty);
    if Decode(cfg, ty, buf, pos) == Ok(v, end) {
      DecodedHeld(cfg, ty, buf, pos);
      DecodedReadable(cfg, ty, buf, pos);
    } else if Typed(ty, v) && Readable(cfg, ty, v) && Holds(cfg, ty, v, buf, pos, end) {
      HeldWithin(cfg, ty, v, buf, pos, end);
      ReadBack(cfg, ty, v, buf, pos, end);
    }
  }

  lemma HeldWithin(cfg: Config, ty: Type, v: Value, buf: seq<Byte>, pos: nat, end: nat)
    requires Typed(ty, v) && Holds(cfg, ty, v, buf, pos, end)
    ensures pos <= end <= |buf|
  {
    hide Encode;
    EncodeFrame(cfg, ty, v, pos, buf, []);
  }

  // ---------------------------------------------------------------- maps without a DHEADER

  /** `ks` and `vs` are what the loop ends with; none of the keys it still reads repeats an earlier one. */
  lemma {:induction false} EntriesHeld(cfg: Config, k: Type, e: Type, n: nat, keys: seq<Value>, vals: seq<Value>,
                                       buf: seq<Byte>, start: nat, pos: nat, ks: seq<Value>, vs: seq<Value>)
    requires Bare(cfg, k) && Bare(cfg, e) && pos <= |buf|
    requires |ks| == |vs| == |keys| + n && |keys| == |vals| && AllTyped(k, ks) && AllTyped(e, vs)
    requires var r := DecEntries(cfg, k, e, Open, n, keys, vals, buf, pos); r.Ok? && r.value == Table(ks, vs)
    requires HoldsEntries(cfg, k, e, ks, vs, |keys|, buf, start, pos)
    ensures HoldsEntries(cfg, k, e, ks, vs, |ks|, buf, start, DecEntries(cfg, k, e, Open, n, keys, vals, buf, pos).end)
    decreases n
  {
    hide Decode, DecEntries, HoldsEntries, Holds, Typed, AllTyped;
    DecEntriesUnfold(cfg, k, e, Open, n, keys, vals, buf, pos);
    if n > 0 {
      var key := Decode(cfg, k, buf, pos);
      var val := Decode(cfg, e, buf, key.end);
      EndsWithin(cfg, k, buf, pos);
      EndsWithin(cfg, e, buf, key.end);
      if key.value in keys {
        EntriesWereRead(cfg, k, e, Open, n - 1, keys, vals, buf, val.end);
        assert false;
      } else {
        DecodedHeld(cfg, k, buf, pos);
        DecodedHeld(cfg, e, buf, key.end);
        EntriesAdvance(cfg, k, e, Open, n - 1, keys + [key.value], vals + [val.value], buf, val.end);
        assert (keys + [key.value])[|keys|] == ks[|keys|] && (vals + [val.value])[|keys|] == vs[|keys|];
        AppendEntry(cfg, k, e, ks, vs, |keys|, buf, buf, buf, start, pos, key.end, val.end);
        EntriesHeld(cfg, k, e, n - 1, keys + [key.value], vals + [val.value], buf, start, val.end, ks, vs);
      }
    }
  }

  lemma EndsWithin(cfg: Config, ty: Type, buf: seq<Byte>, pos: nat)
    requires pos <= |buf| && Decode(cfg, ty, buf, pos).Ok?
    ensures Decode(cfg, ty, buf, pos).end <= |buf|
  {
    hide Decode;
    DecodeCut(cfg, ty, buf, |buf|, pos);
    assert buf[..|buf|] == buf;
  }

  /** The bytes that such a map was decoded from are its encoding exactly when no key occurred twice: the table has as
      many keys as were announced. */
  lemma MapHeldExactly(cfg: Config, k: Type, e: Type, buf: seq<Byte>, pos: nat)
    requires !Delimited(cfg, Map(k, e)) && Bare(cfg, k) && Bare(cfg, e) && pos <= |buf|
    requires Decode(cfg, Map(k, e), buf, pos).Ok?
    ensures var r, len := Decode(cfg, Map(k, e), buf, pos), Dec32(cfg, buf, pos);
      && Typed(Map(k, e), r.value) && len.Ok?
      && (Holds(cfg, Map(k, e), r.value, buf, pos, r.end) <==> |r.value.keys| == len.value)
  {
    hide Dec32, DecEntries, Holds, Typed, AllTyped, PadLen, At, HoldsEntries, HoldsBody, HoldsWord, Delimited,
        EncEntries, Enc32, EncBody;
    var r, len := Decode(cfg, Map(k, e), buf, pos), Dec32(cfg, buf, pos);
    DecodedTyped(cfg, Map(k, e), buf, pos);
    TypedTable(k, e, r.value);
    EntriesWereRead(cfg, k, e, Open, len.value, [], [], buf, len.end);
    if |r.value.keys| == len.value {
      CountHeld(cfg, buf, pos);
      CountCut(cfg, buf, |buf|, pos);
      assert buf[..|buf|] == buf;
      NoEntries(cfg, k, e, r.value.keys, r.value.vals, buf, len.end);
      EntriesHeld(cfg, k, e, len.value, [], [], buf, len.end, len.end, r.value.keys, r.value.vals);
      BodyFromParts(cfg, Map(k, e), r.value, buf, buf, pos, len.end, r.end);
      PlainFromBody(cfg, Map(k, e), r.value, buf, pos, r.end);
    } else if Holds(cfg, Map(k, e), r.value, buf, pos, r.end) {
      CountFits32(cfg, buf, pos);
      HeldCount(cfg, k, e, r.value, buf, pos, r.end);
      assert false;
    }
  }

  lemma TypedTable(k: Type, e: Type, v: Value)
    requires Typed(Map(k, e), v)
    ensures v.Table? && |v.keys| == |v.vals| && AllTyped(k, v.keys) && AllTyped(e, v.vals)
  {
  }

  lemma HeldCount(cfg: Config, k: Type, e: Type, v: Value, buf: seq<Byte>, pos: nat, end: nat)
    requires !Delimited(cfg, Map(k, e)) && Typed(Map(k, e), v) && |v.keys| < TWO32
    requires Holds(cfg, Map(k, e), v, buf, pos, end)
    ensures Dec32(cfg, buf, pos).Ok? && Dec32(cfg, buf, pos).value == |v.keys|
  {
    hide Dec32, Enc32, EncEntries, PadLen, At, Delimited, AllTyped, Typed;
    TypedTable(k, e, v);
    var n := |v.keys|;
    var entries := EncEntries(cfg, k, e, v.keys, v.vals, n, pos + PadLen(pos, W4) + 4, buf);
    assert EncBody(cfg, Map(k, e), v, pos, buf) == Enc32(cfg, n, pos, buf) + entries;
    assert Encode(cfg, Map(k, e), v, pos, buf) == EncBody(cfg, Map(k, e), v, pos, buf);
    AtConcat(buf, pos, Enc32(cfg, n, pos, buf), entries);
    U32RoundTrip(cfg, n, pos, buf, buf);
  }

  // ---------------------------------------------------------------- the two errors

  /** A presence flag other than 0 and 1 is a bad parameter. */
  lemma FlagRefused(cfg: Config, e: Type, buf: seq<Byte>, pos: nat)
    requires cfg.version == XCDRv2(false) && pos < |buf|
    ensures 1 < buf[pos] ==> Decode(cfg, Opt(e), buf, pos) == Err(BadParam)
    ensures Decode(cfg, Opt(e), buf, pos) == Ok(Absent, pos + 1) <==> buf[pos] == 0
  {
    hide DecDelimited, DecPlain, DecWord;
  }

  /** Bad parameters are flags and ends that are not where a DHEADER says: XCDRv1, which has neither, only ever lacks
      memory. */
  lemma {:induction false} NoBadParamV1(cfg: Config, ty: Type, buf: seq<Byte>, pos: nat)
    requires cfg.version.XCDRv1?
    ensures Decode(cfg, ty, buf, pos) != Err(BadParam)
    decreases ty, 2, 0
  {
    hide DecItems, DecEntries, PadLen;
    match ty
    case Prim(_) =>
    case Opt(e) => NoBadParamV1(cfg, e, buf, pos);
    case Arr(e, n) => NoBadItemV1(cfg, e, n, [], buf, pos);
    case Seq(e) =>
      var len := Dec32(cfg, buf, pos);
      if len.Ok? { NoBadItemV1(cfg, e, len.value, [], buf, len.end); }
    case Map(k, e) =>
      var len := Dec32(cfg, buf, pos);
      if len.Ok? { NoBadEntryV1(cfg, k, e, len.value, [], [], buf, len.end); }
  }

  lemma {:induction false} NoBadItemV1(cfg: Config, e: Type, n: nat, done: seq<Value>, buf: seq<Byte>, pos: nat)
    requires cfg.version.XCDRv1?
    ensures DecItems(cfg, e, true, Open, n, done, buf, pos) != Err(BadParam)
    decreases e, 4, n
  {
    hide DecItems, Decode, Default;
    DecItemsUnfold(cfg, e, true, Open, n, done, buf, pos);
    if n > 0 {
      if e.Arr? { NoBadItemV1(cfg, e.elem, e.size, [], buf, pos); } else { NoBadParamV1(cfg, e, buf, pos); }
      var item := DecItem(cfg, e, true, buf, pos);
      if item.Ok? { NoBadItemV1(cfg, e, n - 1, done + [item.value], buf, item.end); }
    }
  }

  lemma {:induction false} NoBadEntryV1(cfg: Config, k: Type, e: Type, n: nat, keys: seq<Value>, vals: seq<Value>,
                                        buf: seq<Byte>, pos: nat)
    requires cfg.version.XCDRv1?
    ensures DecEntries(cfg, k, e, Open, n, keys, vals, buf, pos) != Err(BadParam)
    decreases Map(k, e), 0, n
  {
    hide DecEntries, Decode;
    DecEntriesUnfold(cfg, k, e, Open, n, keys, vals, buf, pos);
    if n > 0 {
      NoBadParamV1(cfg, k, buf, pos);
      var key := Decode(cfg, k, buf, pos);
      if key.Ok? {
        NoBadParamV1(cfg, e, buf, key.end);
        var val := Decode(cfg, e, buf, key.end);
        if val.Ok? {
          NoBadEntryV1(cfg, k, e, n - 1, keys, vals, buf, val.end);
          NoBadEntryV1(cfg, k, e, n - 1, keys + [key.value], vals + [val.value], buf, val.end);
        }
      }
    }
  }
}
