/** An encoding depends on the buffer only through the padding bytes inside it. */
module CdrFrame {
  import opened Basics
  import opened CdrSpec
  import opened CdrRoundTrip

  ghost predicate Agree(p: seq<Byte>, q: seq<Byte>, lo: nat, hi: nat) {
    hi <= |p| && hi <= |q| && forall i :: lo <= i < hi ==> p[i] == q[i]
  }

  /** Same length always, same bytes when the buffers agree where the encoding lies. */
  ghost predicate Framed(x: seq<Byte>, y: seq<Byte>, p: seq<Byte>, q: seq<Byte>, pos: nat) {
    |x| == |y| && (Agree(p, q, pos, pos + |x|) ==> x == y)
  }

  lemma FramedConcat(x: seq<Byte>, y: seq<Byte>, x': seq<Byte>, y': seq<Byte>, p: seq<Byte>, q: seq<Byte>, pos: nat)
    requires Framed(x, y, p, q, pos) && Framed(x', y', p, q, pos + |x|)
    ensures Framed(x + x', y + y', p, q, pos)
  {
  }

  lemma WordFrame(cfg: Config, w: Width, raw: seq<Byte>, p: seq<Byte>, q: seq<Byte>, pos: nat)
    requires |raw| == w.Bytes()
    ensures Framed(EncWord(cfg, w, raw, pos, p), EncWord(cfg, w, raw, pos, q), p, q, pos)
  {
    hide PadLen, Ordered;
    var n := PadLen(pos, AlignOf(cfg.version, w));
    if Agree(p, q, pos, pos + n + |raw|) {
      assert Pad(pos, n, p) == Pad(pos, n, q);
    }
  }

  lemma {:induction false} EncodeFrame(cfg: Config, ty: Type, v: Value, pos: nat, p: seq<Byte>, q: seq<Byte>)
    requires Typed(ty, v)
    ensures Framed(Encode(cfg, ty, v, pos, p), Encode(cfg, ty, v, pos, q), p, q, pos)
    decreases ty, 2, 0
  {
    hide EncBody, EncWord, Enc32, Framed, Agree, PadLen, U32, AllTyped, Delimited;
    match ty
    case Prim(w) => WordFrame(cfg, w, v.raw, p, q, pos);
    case Opt(e) => OptFrame(cfg, e, v, pos, p, q);
    case _ =>
      if Delimited(cfg, ty) {
        var r := pos + PadLen(pos, W4) + 4;
        var x, y := EncBody(cfg, ty, v, r, p), EncBody(cfg, ty, v, r, q);
        BodyFrame(cfg, ty, v, r, p, q);
        FramedLength(x, y, p, q, r);
        HeaderFrame(cfg, |x|, pos, p, q);
        FramedConcat(Enc32(cfg, |x|, pos, p), Enc32(cfg, |x|, pos, q), x, y, p, q, pos);
      } else {
        BodyFrame(cfg, ty, v, pos, p, q);
      }
  }

  lemma FramedLength(x: seq<Byte>, y: seq<Byte>, p: seq<Byte>, q: seq<Byte>, pos: nat)
    requires Framed(x, y, p, q, pos)
    ensures |x| == |y|
  {
  }

  lemma HeaderFrame(cfg: Config, n: nat, pos: nat, p: seq<Byte>, q: seq<Byte>)
    ensures Framed(Enc32(cfg, n, pos, p), Enc32(cfg, n, pos, q), p, q, pos)
  {
    hide U32, EncWord, Framed;
    WordFrame(cfg, W4, U32(cfg.host, n), p, q, pos);
  }

  lemma {:induction false} OptFrame(cfg: Config, e: Type, v: Value, pos: nat, p: seq<Byte>, q: seq<Byte>)
    requires Typed(Opt(e), v)
    ensures Framed(Encode(cfg, Opt(e), v, pos, p), Encode(cfg, Opt(e), v, pos, q), p, q, pos)
    decreases e, 9, 0
  {
    hide EncBody, EncWord, Agree;
    var flag: seq<Byte> := if cfg.version.Flagged() then [if v.Present? then 1 else 0] else [];
    if v.Present? {
      EncodeFrame(cfg, e, v.inner, pos + |flag|, p, q);
      FramedConcat(flag, flag, Encode(cfg, e, v.inner, pos + |flag|, p), Encode(cfg, e, v.inner, pos + |flag|, q), p,
          q, pos);
    }
  }

  lemma {:induction false} BodyFrame(cfg: Config, ty: Type, v: Value, pos: nat, p: seq<Byte>, q: seq<Byte>)
    requires (ty.Seq? || ty.Arr? || ty.Map?) && Typed(ty, v)
    ensures Framed(EncBody(cfg, ty, v, pos, p), EncBody(cfg, ty, v, pos, q), p, q, pos)
    decreases ty, 1, 0
  {
    hide EncItems, EncEntries, Enc32, Framed, Agree, PadLen;
    TypedParts(ty, v);
    var r := pos + PadLen(pos, W4) + 4;
    match ty
    case Arr(e, n) => ItemsFrame(cfg, e, v.items, n, pos, p, q);
    case Seq(e) =>
      var n := |v.items|;
      HeaderFrame(cfg, n, pos, p, q);
      ItemsFrame(cfg, e, v.items, n, r, p, q);
      FramedConcat(Enc32(cfg, n, pos, p), Enc32(cfg, n, pos, q),
                   EncItems(cfg, e, v.items, n, r, p), EncItems(cfg, e, v.items, n, r, q), p, q, pos);
    case Map(k, e) =>
      var n := |v.keys|;
      HeaderFrame(cfg, n, pos, p, q);
      EntriesFrame(cfg, k, e, v.keys, v.vals, n, r, p, q);
      FramedConcat(Enc32(cfg, n, pos, p), Enc32(cfg, n, pos, q),
                   EncEntries(cfg, k, e, v.keys, v.vals, n, r, p), EncEntries(cfg, k, e, v.keys, v.vals, n, r, q), p,
                       q, pos);
  }

  lemma {:induction false} ItemsFrame(cfg: Config, e: Type, items: seq<Value>, n: nat, pos: nat, p: seq<Byte>,
                                      q: seq<Byte>)
    requires n <= |items| && AllTyped(e, items)
    ensures Framed(EncItems(cfg, e, items, n, pos, p), EncItems(cfg, e, items, n, pos, q), p, q, pos)
    decreases e, 4, n
  {
    hide EncItem, Typed, Agree;
    if n > 0 {
      ItemsFrame(cfg, e, items, n - 1, pos, p, q);
      var x, y := EncItems(cfg, e, items, n - 1, pos, p), EncItems(cfg, e, items, n - 1, pos, q);
      ItemFrame(cfg, e, items[n - 1], pos + |x|, p, q);
      FramedConcat(x, y, EncItem(cfg, e, items[n - 1], pos + |x|, p), EncItem(cfg, e, items[n - 1], pos + |x|, q), p,
          q, pos);
    }
  }

  lemma {:induction false} ItemFrame(cfg: Config, e: Type, v: Value, pos: nat, p: seq<Byte>, q: seq<Byte>)
    requires Typed(e, v)
    ensures Framed(EncItem(cfg, e, v, pos, p), EncItem(cfg, e, v, pos, q), p, q, pos)
    decreases e, 3, 0
  {
    hide EncItems, Encode, Framed;
    if e.Arr? {
      TypedParts(e, v);
      ItemsFrame(cfg, e.elem, v.items, e.size, pos, p, q);
    } else {
      EncodeFrame(cfg, e, v, pos, p, q);
    }
  }

  lemma EmptyFramed(p: seq<Byte>, q: seq<Byte>, pos: nat)
    ensures Framed([], [], p, q, pos)
  {
  }

  lemma EntriesUnfold(cfg: Config, k: Type, e: Type, keys: seq<Value>, vals: seq<Value>, n: nat, pos: nat,
                      pre: seq<Byte>)
    requires n <= |keys| == |vals| && AllTyped(k, keys) && AllTyped(e, vals)
    ensures EncEntries(cfg, k, e, keys, vals, n, pos, pre) ==
      if n == 0 then []
      else
        var front := EncEntries(cfg, k, e, keys, vals, n - 1, pos, pre);
        var kb := Encode(cfg, k, keys[n - 1], pos + |front|, pre);
        front + kb + Encode(cfg, e, vals[n - 1], pos + |front| + |kb|, pre)
  {
    hide Encode;
  }

  lemma {:induction false} EntriesFrame(cfg: Config, k: Type, e: Type, keys: seq<Value>, vals: seq<Value>, n: nat,
                                        pos: nat, p: seq<Byte>, q: seq<Byte>)
    requires n <= |keys| == |vals| && AllTyped(k, keys) && AllTyped(e, vals)
    ensures Framed(EncEntries(cfg, k, e, keys, vals, n, pos, p), EncEntries(cfg, k, e, keys, vals, n, pos, q), p, q,
        pos)
    decreases Map(k, e), 0, n
  {
    hide Encode, Typed, Agree, EncEntries, Framed;
    EntriesUnfold(cfg, k, e, keys, vals, n, pos, p);
    EntriesUnfold(cfg, k, e, keys, vals, n, pos, q);
    if n == 0 {
      EmptyFramed(p, q, pos);
    } else {
      EntriesFrame(cfg, k, e, keys, vals, n - 1, pos, p, q);
      var x, y := EncEntries(cfg, k, e, keys, vals, n - 1, pos, p), EncEntries(cfg, k, e, keys, vals, n - 1, pos, q);
      var kx, ky := Encode(cfg, k, keys[n - 1], pos + |x|, p), Encode(cfg, k, keys[n - 1], pos + |x|, q);
      FramedLength(x, y, p, q, pos);
      EncodeFrame(cfg, k, keys[n - 1], pos + |x|, p, q);
      FramedLength(kx, ky, p, q, pos + |x|);
      EncodeFrame(cfg, e, vals[n - 1], pos + |x| + |kx|, p, q);
      FramedConcat(x, y, kx, ky, p, q, pos);
      FramedConcat(x + kx, y + ky, Encode(cfg, e, vals[n - 1], pos + |x| + |kx|, p),
                   Encode(cfg, e, vals[n - 1], pos + |x| + |kx|, q), p, q, pos);
    }
  }

  // ---------------------------------------------------------------- encodings in a buffer that goes on changing

  /** The length of an encoding does not depend on the buffer. */
  ghost function Size(cfg: Config, ty: Type, v: Value, pos: nat): nat
    requires Typed(ty, v)
  {
    |Encode(cfg, ty, v, pos, [])|
  }

  ghost function ItemsSize(cfg: Config, e: Type, items: seq<Value>, n: nat, pos: nat): nat
    requires n <= |items| && AllTyped(e, items)
  {
    |EncItems(cfg, e, items, n, pos, [])|
  }

  ghost function EntriesSize(cfg: Config, k: Type, e: Type, keys: seq<Value>, vals: seq<Value>, n: nat, pos: nat): nat
    requires n <= |keys| == |vals| && AllTyped(k, keys) && AllTyped(e, vals)
  {
    |EncEntries(cfg, k, e, keys, vals, n, pos, [])|
  }

  /** The value is encoded in the buffer from `pos` to `end`, whatever its padding holds. */
  ghost predicate Holds(cfg: Config, ty: Type, v: Value, buf: seq<Byte>, pos: nat, end: nat)
    requires Typed(ty, v)
  {
    At(buf, pos, Encode(cfg, ty, v, pos, buf)) && end == pos + Size(cfg, ty, v, pos)
  }

  ghost predicate HoldsItems(cfg: Config, e: Type, items: seq<Value>, n: nat, buf: seq<Byte>, pos: nat, end: nat)
    requires n <= |items| && AllTyped(e, items)
  {
    At(buf, pos, EncItems(cfg, e, items, n, pos, buf)) && end == pos + ItemsSize(cfg, e, items, n, pos)
  }

  ghost predicate HoldsEntries(cfg: Config, k: Type, e: Type, keys: seq<Value>, vals: seq<Value>, n: nat,
                               buf: seq<Byte>, pos: nat, end: nat)
    requires n <= |keys| == |vals| && AllTyped(k, keys) && AllTyped(e, vals)
  {
    && At(buf, pos, EncEntries(cfg, k, e, keys, vals, n, pos, buf))
    && end == pos + EntriesSize(cfg, k, e, keys, vals, n, pos)
  }

  ghost predicate HoldsWord(cfg: Config, n: nat, buf: seq<Byte>, pos: nat, end: nat) {
    At(buf, pos, Enc32(cfg, n, pos, buf)) && end == pos + PadLen(pos, W4) + 4
  }

  /** Bytes stay placed when the buffer changes outside them. */
  lemma MovePlaced(x: seq<Byte>, y: seq<Byte>, p: seq<Byte>, q: seq<Byte>, pos: nat)
    requires Framed(x, y, p, q, pos) && At(p, pos, x) && Agree(p, q, pos, pos + |x|)
    ensures At(q, pos, y)
  {
    assert q[pos..pos + |x|] == p[pos..pos + |x|];
  }

  lemma MoveItems(cfg: Config, e: Type, items: seq<Value>, n: nat, p: seq<Byte>, q: seq<Byte>, pos: nat, end: nat)
    requires n <= |items| && AllTyped(e, items) && HoldsItems(cfg, e, items, n, p, pos, end) && Agree(p, q, pos, end)
    ensures HoldsItems(cfg, e, items, n, q, pos, end)
  {
    hide EncItems, At, AllTyped;
    ItemsFrame(cfg, e, items, n, pos, p, q);
    ItemsFrame(cfg, e, items, n, pos, p, []);
    MovePlaced(EncItems(cfg, e, items, n, pos, p), EncItems(cfg, e, items, n, pos, q), p, q, pos);
  }

  lemma MoveEntries(cfg: Config, k: Type, e: Type, keys: seq<Value>, vals: seq<Value>, n: nat, p: seq<Byte>,
                    q: seq<Byte>, pos: nat, end: nat)
    requires n <= |keys| == |vals| && AllTyped(k, keys) && AllTyped(e, vals)
    requires HoldsEntries(cfg, k, e, keys, vals, n, p, pos, end) && Agree(p, q, pos, end)
    ensures HoldsEntries(cfg, k, e, keys, vals, n, q, pos, end)
  {
    hide EncEntries, At, AllTyped;
    EntriesFrame(cfg, k, e, keys, vals, n, pos, p, q);
    EntriesFrame(cfg, k, e, keys, vals, n, pos, p, []);
    MovePlaced(EncEntries(cfg, k, e, keys, vals, n, pos, p), EncEntries(cfg, k, e, keys, vals, n, pos, q), p, q, pos);
  }

  lemma MoveWord(cfg: Config, n: nat, p: seq<Byte>, q: seq<Byte>, pos: nat, end: nat)
    requires HoldsWord(cfg, n, p, pos, end) && Agree(p, q, pos, end)
    ensures HoldsWord(cfg, n, q, pos, end)
  {
    hide Enc32, At;
    HeaderFrame(cfg, n, pos, p, q);
    MovePlaced(Enc32(cfg, n, pos, p), Enc32(cfg, n, pos, q), p, q, pos);
  }

  ghost function ItemSize(cfg: Config, e: Type, v: Value, pos: nat): nat
    requires Typed(e, v)
  {
    |EncItem(cfg, e, v, pos, [])|
  }

  ghost predicate HoldsItem(cfg: Config, e: Type, v: Value, buf: seq<Byte>, pos: nat, end: nat)
    requires Typed(e, v)
  {
    At(buf, pos, EncItem(cfg, e, v, pos, buf)) && end == pos + ItemSize(cfg, e, v, pos)
  }

  lemma ItemsSizeStep(cfg: Config, e: Type, items: seq<Value>, n: nat, pos: nat)
    requires n < |items| && AllTyped(e, items)
    ensures var mid := pos + ItemsSize(cfg, e, items, n, pos);
      pos + ItemsSize(cfg, e, items, n + 1, pos) == mid + ItemSize(cfg, e, items[n], mid)
  {
    hide EncItems, EncItem;
    EncItemsStep(cfg, e, items, n + 1, pos, []);
  }

  lemma {:induction false} ItemsSizeGrows(cfg: Config, e: Type, items: seq<Value>, k: nat, n: nat, pos: nat)
    requires k <= n <= |items| && AllTyped(e, items)
    ensures ItemsSize(cfg, e, items, k, pos) <= ItemsSize(cfg, e, items, n, pos)
    decreases n
  {
    hide ItemsSize;
    if k < n {
      ItemsSizeStep(cfg, e, items, n - 1, pos);
      ItemsSizeGrows(cfg, e, items, k, n - 1, pos);
    }
  }

  lemma EntriesSizeStep(cfg: Config, k: Type, e: Type, keys: seq<Value>, vals: seq<Value>, n: nat, pos: nat)
    requires n < |keys| == |vals| && AllTyped(k, keys) && AllTyped(e, vals)
    ensures var mid := pos + EntriesSize(cfg, k, e, keys, vals, n, pos);
      var sep := mid + Size(cfg, k, keys[n], mid);
      pos + EntriesSize(cfg, k, e, keys, vals, n + 1, pos) == sep + Size(cfg, e, vals[n], sep)
  {
    hide EncEntries, Encode;
    EncEntriesStep(cfg, k, e, keys, vals, n + 1, pos, []);
  }

  lemma {:induction false} EntriesSizeGrows(cfg: Config, k: Type, e: Type, keys: seq<Value>, vals: seq<Value>, i: nat,
                                            n: nat, pos: nat)
    requires i <= n <= |keys| == |vals| && AllTyped(k, keys) && AllTyped(e, vals)
    ensures EntriesSize(cfg, k, e, keys, vals, i, pos) <= EntriesSize(cfg, k, e, keys, vals, n, pos)
    decreases n
  {
    hide EntriesSize, Size;
    if i < n {
      EntriesSizeStep(cfg, k, e, keys, vals, n - 1, pos);
      EntriesSizeGrows(cfg, k, e, keys, vals, i, n - 1, pos);
    }
  }

  /** One more element after the first `n`. */
  lemma AppendItem(cfg: Config, e: Type, items: seq<Value>, n: nat, p: seq<Byte>, q: seq<Byte>, pos: nat, mid: nat,
                   end: nat)
    requires n < |items| && AllTyped(e, items)
    requires HoldsItems(cfg, e, items, n, p, pos, mid) && Agree(p, q, pos, mid)
      && HoldsItem(cfg, e, items[n], q, mid, end)
    ensures HoldsItems(cfg, e, items, n + 1, q, pos, end)
  {
    hide EncItem, At, Typed;
    MoveItems(cfg, e, items, n, p, q, pos, mid);
    ItemsSizeStep(cfg, e, items, n, pos);
    ItemsFrame(cfg, e, items, n, pos, q, []);
    AtConcat(q, pos, EncItems(cfg, e, items, n, pos, q), EncItem(cfg, e, items[n], mid, q));
  }

  lemma AppendEntry(cfg: Config, k: Type, e: Type, keys: seq<Value>, vals: seq<Value>, n: nat, p: seq<Byte>,
                    q: seq<Byte>, r: seq<Byte>, pos: nat, mid: nat, sep: nat, end: nat)
    requires n < |keys| == |vals| && AllTyped(k, keys) && AllTyped(e, vals)
    requires HoldsEntries(cfg, k, e, keys, vals, n, p, pos, mid) && Agree(p, q, pos, mid) && Agree(q, r, pos, sep)
    requires Holds(cfg, k, keys[n], q, mid, sep) && Holds(cfg, e, vals[n], r, sep, end)
    ensures HoldsEntries(cfg, k, e, keys, vals, n + 1, r, pos, end)
  {
    hide Encode, EncEntries, At, Typed;
    MoveEntries(cfg, k, e, keys, vals, n, p, r, pos, mid);
    EncodeFrame(cfg, k, keys[n], mid, q, r);
    EncodeFrame(cfg, k, keys[n], mid, q, []);
    EncodeFrame(cfg, e, vals[n], sep, r, []);
    EntriesFrame(cfg, k, e, keys, vals, n, pos, r, []);
    EntriesFrame(cfg, k, e, keys, vals, n + 1, pos, r, []);
    EntriesUnfold(cfg, k, e, keys, vals, n + 1, pos, r);
    var x, kb, vb := EncEntries(cfg, k, e, keys, vals, n, pos, r), Encode(cfg, k, keys[n], mid, r), Encode(cfg, e,
        vals[n], sep, r);
    MovePlaced(Encode(cfg, k, keys[n], mid, q), kb, q, r, mid);
    AtConcat(r, pos, x, kb);
    AtConcat(r, pos, x + kb, vb);
  }

  ghost function BodySize(cfg: Config, ty: Type, v: Value, pos: nat): nat
    requires (ty.Seq? || ty.Arr? || ty.Map?) && Typed(ty, v)
  {
    |EncBody(cfg, ty, v, pos, [])|
  }

  ghost predicate HoldsBody(cfg: Config, ty: Type, v: Value, buf: seq<Byte>, pos: nat, end: nat)
    requires (ty.Seq? || ty.Arr? || ty.Map?) && Typed(ty, v)
  {
    At(buf, pos, EncBody(cfg, ty, v, pos, buf)) && end == pos + BodySize(cfg, ty, v, pos)
  }

  lemma MoveBody(cfg: Config, ty: Type, v: Value, p: seq<Byte>, q: seq<Byte>, pos: nat, end: nat)
    requires (ty.Seq? || ty.Arr? || ty.Map?) && Typed(ty, v)
    requires HoldsBody(cfg, ty, v, p, pos, end) && Agree(p, q, pos, end)
    ensures HoldsBody(cfg, ty, v, q, pos, end)
  {
    hide EncBody, At, Typed;
    BodyFrame(cfg, ty, v, pos, p, q);
    BodyFrame(cfg, ty, v, pos, p, []);
    MovePlaced(EncBody(cfg, ty, v, pos, p), EncBody(cfg, ty, v, pos, q), p, q, pos);
  }

  lemma SizeOfContainer(cfg: Config, ty: Type, v: Value, pos: nat)
    requires (ty.Seq? || ty.Arr? || ty.Map?) && Typed(ty, v)
    ensures var mid := if Delimited(cfg, ty) then pos + PadLen(pos, W4) + 4 else pos;
      pos + Size(cfg, ty, v, pos) == mid + BodySize(cfg, ty, v, mid)
  {
    hide EncBody, Delimited, PadLen;
  }

  lemma SizeOfBody(cfg: Config, ty: Type, v: Value, pos: nat)
    requires (ty.Seq? || ty.Arr? || ty.Map?) && Typed(ty, v)
    ensures var mid := if ty.Arr? then pos else pos + PadLen(pos, W4) + 4;
      && pos + BodySize(cfg, ty, v, pos) == mid +
        (if ty.Map? then EntriesSize(cfg, ty.key, ty.val, v.keys, v.vals, |v.keys|, mid)
         else ItemsSize(cfg, ty.elem, v.items, |v.items|, mid))
  {
    hide EncItems, EncEntries, PadLen;
    TypedParts(ty, v);
  }

  /** A body is its count, if it has one, and its elements. */
  lemma BodyFromParts(cfg: Config, ty: Type, v: Value, p: seq<Byte>, q: seq<Byte>, pos: nat, mid: nat, end: nat)
    requires (ty.Seq? || ty.Arr? || ty.Map?) && Typed(ty, v)
    requires if ty.Arr? then mid == pos else HoldsWord(cfg, if ty.Map? then |v.keys| else |v.items|, p, pos, mid)
    requires Agree(p, q, pos, mid)
    requires if ty.Map? then HoldsEntries(cfg, ty.key, ty.val, v.keys, v.vals, |v.keys|, q, mid, end)
      else HoldsItems(cfg, ty.elem, v.items, |v.items|, q, mid, end)
    ensures HoldsBody(cfg, ty, v, q, pos, end)
  {
    hide EncItems, EncEntries, At, AllTyped, Enc32;
    SizeOfBody(cfg, ty, v, pos);
    if !ty.Arr? {
      var n := if ty.Map? then |v.keys| else |v.items|;
      MoveWord(cfg, n, p, q, pos, mid);
      if ty.Map? {
        AtConcat(q, pos, Enc32(cfg, n, pos, q), EncEntries(cfg, ty.key, ty.val, v.keys, v.vals, n, mid, q));
      } else {
        AtConcat(q, pos, Enc32(cfg, n, pos, q), EncItems(cfg, ty.elem, v.items, n, mid, q));
      }
    } else {
      TypedParts(ty, v);
    }
  }

  /** A DHEADER that holds the exact length of the body completes a delimited container. */
  lemma DelimitedFromParts(cfg: Config, ty: Type, v: Value, buf: seq<Byte>, pos: nat, mid: nat, end: nat)
    requires (ty.Seq? || ty.Arr? || ty.Map?) && Typed(ty, v) && Delimited(cfg, ty)
    requires HoldsBody(cfg, ty, v, buf, mid, end) && HoldsWord(cfg, end - mid, buf, pos, mid)
    ensures Holds(cfg, ty, v, buf, pos, end)
  {
    hide EncBody, At, Typed, Enc32, Delimited, PadLen;
    SizeOfContainer(cfg, ty, v, pos);
    BodyFrame(cfg, ty, v, mid, buf, []);
    AtConcat(buf, pos, Enc32(cfg, end - mid, pos, buf), EncBody(cfg, ty, v, mid, buf));
  }

  lemma PlainFromBody(cfg: Config, ty: Type, v: Value, buf: seq<Byte>, pos: nat, end: nat)
    requires (ty.Seq? || ty.Arr? || ty.Map?) && Typed(ty, v) && !Delimited(cfg, ty)
    requires HoldsBody(cfg, ty, v, buf, pos, end)
    ensures Holds(cfg, ty, v, buf, pos, end)
  {
    hide EncBody, At, Typed, Delimited;
  }
}
