/** What a decoder makes of arbitrary bytes that it accepts. */
module CdrAccepted {
  import opened Basics
  import opened CdrSpec
  import opened CdrRoundTrip
  import opened CdrLimits
  import opened CdrVectorsOfArrays

  // ---------------------------------------------------------------- decoded values are well typed

  lemma {:induction false} DecodedTyped(cfg: Config, ty: Type, buf: seq<Byte>, pos: nat)
    requires Decode(cfg, ty, buf, pos).Ok?
    ensures Typed(ty, Decode(cfg, ty, buf, pos).value)
    decreases ty, 2, 0
  {
    hide DecWord, Dec32, DecItems, DecEntries;
    match ty
    case Prim(_) =>
    case Opt(e) =>
      if Decode(cfg, ty, buf, pos).value.Present? {
        DecodedTyped(cfg, e, buf, if cfg.version.Flagged() then pos + 1 else pos);
      }
    case Arr(_, _) => DecodedContainerTyped(cfg, ty, buf, pos);
    case Seq(_) => DecodedContainerTyped(cfg, ty, buf, pos);
    case Map(_, _) => DecodedContainerTyped(cfg, ty, buf, pos);
  }

  lemma {:induction false} DecodedContainerTyped(cfg: Config, ty: Type, buf: seq<Byte>, pos: nat)
    requires (ty.Seq? || ty.Arr? || ty.Map?) && Decode(cfg, ty, buf, pos).Ok?
    ensures Typed(ty, Decode(cfg, ty, buf, pos).value)
    decreases ty, 1, 0
  {
    hide DecWord, Dec32, DecItems, DecEntries;
    var header := Dec32(cfg, buf, pos);
    var limit := if Delimited(cfg, ty) then Until(header.end + header.value) else Open;
    var off := if Delimited(cfg, ty) then header.end else pos;
    var len := Dec32(cfg, buf, off);
    match ty
    case Arr(e, n) => DecodedItemsTyped(cfg, e, true, limit, n, [], buf, off);
    case Seq(e) =>
      if len.value > 0 { DecodedItemsTyped(cfg, e, !Delimited(cfg, ty), limit, len.value, [], buf, len.end); }
    case Map(k, e) => DecodedEntriesTyped(cfg, k, e, limit, len.value, [], [], buf, len.end);
  }

  lemma {:induction false} DecodedItemTyped(cfg: Config, e: Type, flat: bool, buf: seq<Byte>, pos: nat)
    requires DecItem(cfg, e, flat, buf, pos).Ok?
    ensures Typed(e, DecItem(cfg, e, flat, buf, pos).value)
    decreases e, 3, 0
  {
    hide Decode, DecItems;
    if flat && e.Arr? {
      DecodedItemsTyped(cfg, e.elem, true, Open, e.size, [], buf, pos);
    } else {
      DecodedTyped(cfg, e, buf, pos);
    }
  }

  lemma {:induction false} DecodedItemsTyped(cfg: Config, e: Type, flat: bool, limit: Limit, n: nat, done: seq<Value>,
                                             buf: seq<Byte>, pos: nat)
    requires AllTyped(e, done) && DecItems(cfg, e, flat, limit, n, done, buf, pos).Ok?
    ensures var v := DecItems(cfg, e, flat, limit, n, done, buf, pos).value;
      v.List? && |v.items| == |done| + n && AllTyped(e, v.items)
    decreases e, 4, n
  {
    hide DecItem, Default, Typed;
    if n == 0 || limit.Reached(pos) {
      DefaultTyped(e);
    } else {
      var item := DecItem(cfg, e, flat, buf, pos);
      DecodedItemTyped(cfg, e, flat, buf, pos);
      DecodedItemsTyped(cfg, e, flat, limit, n - 1, done + [item.value], buf, item.end);
    }
  }

  lemma {:induction false} DefaultTyped(ty: Type)
    ensures Typed(ty, Default(ty))
    decreases ty
  {
    if ty.Arr? { DefaultTyped(ty.elem); }
  }

  lemma {:induction false} DecodedEntriesTyped(cfg: Config, k: Type, e: Type, limit: Limit, n: nat, keys: seq<Value>,
                                               vals: seq<Value>, buf: seq<Byte>, pos: nat)
    requires |keys| == |vals| && Distinct(keys) && AllTyped(k, keys) && AllTyped(e, vals)
    requires DecEntries(cfg, k, e, limit, n, keys, vals, buf, pos).Ok?
    ensures var v := DecEntries(cfg, k, e, limit, n, keys, vals, buf, pos).value;
      v.Table? && |v.keys| == |v.vals| && Distinct(v.keys) && AllTyped(k, v.keys) && AllTyped(e, v.vals)
    decreases Map(k, e), 0, n
  {
    hide Decode, Typed;
    if n > 0 && !limit.Reached(pos) {
      var key := Decode(cfg, k, buf, pos);
      var val := Decode(cfg, e, buf, key.end);
      DecodedTyped(cfg, k, buf, pos);
      DecodedTyped(cfg, e, buf, key.end);
      if key.value in keys {
        DecodedEntriesTyped(cfg, k, e, limit, n - 1, keys, vals, buf, val.end);
      } else {
        DecodedEntriesTyped(cfg, k, e, limit, n - 1, keys + [key.value], vals + [val.value], buf, val.end);
      }
    }
  }

  // ---------------------------------------------------------------- elements that were never read

  /** How many of `n` elements a loop reads before its limit. */
  function ReadCount(cfg: Config, e: Type, flat: bool, limit: Limit, n: nat, buf: seq<Byte>, pos: nat): (m: nat)
    ensures m <= n
    decreases n
  {
    if n == 0 || limit.Reached(pos) then 0
    else
      var item := DecItem(cfg, e, flat, buf, pos);
      if item.Err? then 0 else 1 + ReadCount(cfg, e, flat, limit, n - 1, buf, item.end)
  }

  /** An accepted loop keeps the defaults of the elements that it did not read, and reads at most one per byte. */
  lemma {:induction false} UnreadAreDefaults(cfg: Config, e: Type, flat: bool, limit: Limit, n: nat, done: seq<Value>,
                                             buf: seq<Byte>, pos: nat)
    requires DecItems(cfg, e, flat, limit, n, done, buf, pos).Ok?
    ensures var r := DecItems(cfg, e, flat, limit, n, done, buf, pos);
      var m := ReadCount(cfg, e, flat, limit, n, buf, pos);
      && r.value.List? && |r.value.items| == |done| + n && pos + m <= r.end
      && forall i :: |done| + m <= i < |done| + n ==> r.value.items[i] == Default(e)
    decreases n
  {
    hide DecItem, Default;
    if n > 0 && !limit.Reached(pos) {
      var item := DecItem(cfg, e, flat, buf, pos);
      ItemAdvances(cfg, e, flat, buf, pos);
      UnreadAreDefaults(cfg, e, flat, limit, n - 1, done + [item.value], buf, item.end);
    }
  }

  /** The elements of a container that ends where its DHEADER says were all read exactly when the loop would give
      the same answer without looking at the DHEADER. */
  lemma {:induction false} AllReadExactly(cfg: Config, e: Type, flat: bool, end: nat, n: nat, done: seq<Value>,
                                          buf: seq<Byte>, pos: nat)
    requires var r := DecItems(cfg, e, flat, Until(end), n, done, buf, pos); r.Ok? && r.end == end
    ensures ReadCount(cfg, e, flat, Until(end), n, buf, pos) == n
       <==> DecItems(cfg, e, flat, Open, n, done, buf, pos) == DecItems(cfg, e, flat, Until(end), n, done, buf, pos)
    decreases n
  {
    hide DecItem, Default;
    if n > 0 {
      var item := DecItem(cfg, e, flat, buf, pos);
      if end <= pos {
        ItemsAdvance(cfg, e, flat, Open, n, done, buf, pos);
      } else {
        AllReadExactly(cfg, e, flat, end, n - 1, done + [item.value], buf, item.end);
      }
    }
  }

  /** How many of `n` entries a loop reads before its limit. */
  function EntryCount(cfg: Config, k: Type, e: Type, limit: Limit, n: nat, buf: seq<Byte>, pos: nat): (m: nat)
    ensures m <= n
    decreases n
  {
    if n == 0 || limit.Reached(pos) then 0
    else
      var key := Decode(cfg, k, buf, pos);
      if key.Err? then 0
      else
        var val := Decode(cfg, e, buf, key.end);
        if val.Err? then 0 else 1 + EntryCount(cfg, k, e, limit, n - 1, buf, val.end)
  }

  /** An accepted map has no more entries than were read, and two bytes are read for each of them. */
  lemma {:induction false} EntriesWereRead(cfg: Config, k: Type, e: Type, limit: Limit, n: nat, keys: seq<Value>,
                                           vals: seq<Value>, buf: seq<Byte>, pos: nat)
    requires DecEntries(cfg, k, e, limit, n, keys, vals, buf, pos).Ok?
    ensures var r := DecEntries(cfg, k, e, limit, n, keys, vals, buf, pos);
      var m := EntryCount(cfg, k, e, limit, n, buf, pos);
      r.value.Table? && |r.value.keys| <= |keys| + m && pos + 2 * m <= r.end
    decreases n
  {
    hide Decode;
    if n > 0 && !limit.Reached(pos) {
      var key := Decode(cfg, k, buf, pos);
      var val := Decode(cfg, e, buf, key.end);
      DecodeAdvances(cfg, k, buf, pos);
      DecodeAdvances(cfg, e, buf, key.end);
      if key.value in keys {
        EntriesWereRead(cfg, k, e, limit, n - 1, keys, vals, buf, val.end);
      } else {
        EntriesWereRead(cfg, k, e, limit, n - 1, keys + [key.value], vals + [val.value], buf, val.end);
      }
    }
  }

  /** The entries of a map that ends where its DHEADER says were all read exactly when the loop would give the same
      answer without looking at the DHEADER. */
  lemma {:induction false} AllEntriesReadExactly(cfg: Config, k: Type, e: Type, end: nat, n: nat, keys: seq<Value>,
                                                 vals: seq<Value>, buf: seq<Byte>, pos: nat)
    requires var r := DecEntries(cfg, k, e, Until(end), n, keys, vals, buf, pos); r.Ok? && r.end == end
    ensures EntryCount(cfg, k, e, Until(end), n, buf, pos) == n
       <==> DecEntries(cfg, k, e, Open, n, keys, vals, buf, pos)
              == DecEntries(cfg, k, e, Until(end), n, keys, vals, buf, pos)
    decreases n
  {
    hide Decode, DecEntries;
    DecEntriesUnfold(cfg, k, e, Open, n, keys, vals, buf, pos);
    DecEntriesUnfold(cfg, k, e, Until(end), n, keys, vals, buf, pos);
    if n > 0 {
      var key := Decode(cfg, k, buf, pos);
      if end <= pos {
        EntriesPassEnd(cfg, k, e, n, keys, vals, buf, pos);
      } else {
        var val := Decode(cfg, e, buf, key.end);
        if key.value in keys {
          AllEntriesReadExactly(cfg, k, e, end, n - 1, keys, vals, buf, val.end);
        } else {
          AllEntriesReadExactly(cfg, k, e, end, n - 1, keys + [key.value], vals + [val.value], buf, val.end);
        }
      }
    }
  }

  /** Without a limit at least one more entry is read. */
  lemma EntriesPassEnd(cfg: Config, k: Type, e: Type, n: nat, keys: seq<Value>, vals: seq<Value>, buf: seq<Byte>,
                       pos: nat)
    requires 0 < n
    ensures Advances(DecEntries(cfg, k, e, Open, n, keys, vals, buf, pos), pos, 1)
  {
    hide Decode;
    var key := Decode(cfg, k, buf, pos);
    DecodeAdvances(cfg, k, buf, pos);
    if key.Ok? {
      var val := Decode(cfg, e, buf, key.end);
      DecodeAdvances(cfg, e, buf, key.end);
      if val.Ok? {
        EntriesAdvance(cfg, k, e, Open, n - 1, keys, vals, buf, val.end);
        EntriesAdvance(cfg, k, e, Open, n - 1, keys + [key.value], vals + [val.value], buf, val.end);
      }
    }
  }

  // ---------------------------------------------------------------- repeated keys

  /** The pairs that the entry loop reads, in the order of the stream. */
  function Pairs(cfg: Config, k: Type, e: Type, limit: Limit, n: nat, buf: seq<Byte>, pos: nat): seq<(Value, Value)>
    decreases n
  {
    if n == 0 || limit.Reached(pos) then []
    else
      var key := Decode(cfg, k, buf, pos);
      if key.Err? then []
      else
        var val := Decode(cfg, e, buf, key.end);
        if val.Err? then []
        else [(key.value, val.value)] + Pairs(cfg, k, e, limit, n - 1, buf, val.end)
  }

  /** No pair before the `j`-th has its key. */
  ghost predicate IsFirst(pairs: seq<(Value, Value)>, j: nat) {
    j < |pairs| && forall i :: 0 <= i < j ==> pairs[i].0 != pairs[j].0
  }

  /** `firsts` lists, in order, the places where a key occurs for the first time. */
  ghost predicate Firsts(pairs: seq<(Value, Value)>, firsts: seq<nat>) {
    && (forall i :: 0 <= i < |firsts| ==> IsFirst(pairs, firsts[i]))
    && (forall i, j :: 0 <= i < j < |firsts| ==> firsts[i] < firsts[j])
    && (forall j :: IsFirst(pairs, j) ==> j in firsts)
  }

  /** The table holds, in this order, the pairs at these places. */
  ghost predicate Picks(pairs: seq<(Value, Value)>, firsts: seq<nat>, keys: seq<Value>, vals: seq<Value>) {
    && |keys| == |vals| == |firsts|
    && forall i :: 0 <= i < |firsts| ==> firsts[i] < |pairs| && pairs[firsts[i]] == (keys[i], vals[i])
  }

  lemma FirstsAppend(pairs: seq<(Value, Value)>, firsts: seq<nat>, keys: seq<Value>, vals: seq<Value>, key: Value,
                     val: Value)
    requires Firsts(pairs, firsts) && Picks(pairs, firsts, keys, vals)
    ensures var more := pairs + [(key, val)];
      if key in keys then Firsts(more, firsts) && Picks(more, firsts, keys, vals)
      else Firsts(more, firsts + [|pairs|]) && Picks(more, firsts + [|pairs|], keys + [key], vals + [val])
  {
    var more := pairs + [(key, val)];
    forall j: nat | j < |pairs| ensures IsFirst(more, j) <==> IsFirst(pairs, j) {
      assert forall i :: 0 <= i <= j ==> more[i] == pairs[i];
    }
    if key in keys {
      var i :| 0 <= i < |keys| && keys[i] == key;
      assert more[firsts[i]].0 == more[|pairs|].0;
      assert !IsFirst(more, |pairs|);
    } else {
      forall i | 0 <= i < |pairs| ensures pairs[i].0 != key { EarliestPicked(pairs, firsts, keys, vals, i); }
      assert IsFirst(more, |pairs|);
    }
  }

  /** Every key that was read is in the table. */
  lemma {:induction false} EarliestPicked(pairs: seq<(Value, Value)>, firsts: seq<nat>, keys: seq<Value>,
                                          vals: seq<Value>, i: nat)
    requires Firsts(pairs, firsts) && Picks(pairs, firsts, keys, vals) && i < |pairs|
    ensures pairs[i].0 in keys
    decreases i
  {
    if IsFirst(pairs, i) {
      var j :| 0 <= j < |firsts| && firsts[j] == i;
      assert keys[j] == pairs[i].0;
    } else {
      var j :| 0 <= j < i && pairs[j].0 == pairs[i].0;
      EarliestPicked(pairs, firsts, keys, vals, j);
    }
  }

  /** An accepted map holds, for every key that was read, the value that came with its first occurrence, in the order
      of the first occurrences. */
  lemma FirstValueStays(cfg: Config, k: Type, e: Type, limit: Limit, n: nat, buf: seq<Byte>, pos: nat)
    requires DecEntries(cfg, k, e, limit, n, [], [], buf, pos).Ok?
    ensures var v := DecEntries(cfg, k, e, limit, n, [], [], buf, pos).value;
      var pairs := Pairs(cfg, k, e, limit, n, buf, pos);
      && v.Table?
      && (forall i :: 0 <= i < |pairs| ==> pairs[i].0 in v.keys)
      && exists firsts :: Firsts(pairs, firsts) && Picks(pairs, firsts, v.keys, v.vals)
  {
    hide DecEntries, Pairs, Firsts, Picks;
    NothingPicked();
    var firsts := EntriesPick(cfg, k, e, limit, n, [], [], [], [], buf, pos);
    var v := DecEntries(cfg, k, e, limit, n, [], [], buf, pos).value;
    var pairs := Pairs(cfg, k, e, limit, n, buf, pos);
    assert [] + pairs == pairs;
    forall i | 0 <= i < |pairs| ensures pairs[i].0 in v.keys { EarliestPicked(pairs, firsts, v.keys, v.vals, i); }
  }

  lemma NothingPicked()
    ensures Firsts([], []) && Picks([], [], [], [])
  {
  }

  lemma {:induction false} EntriesPick(cfg: Config, k: Type, e: Type, limit: Limit, n: nat, before: seq<(Value, Value)>,
                                       firsts: seq<nat>, keys: seq<Value>, vals: seq<Value>, buf: seq<Byte>, pos: nat)
    returns (all: seq<nat>)
    requires Firsts(before, firsts) && Picks(before, firsts, keys, vals)
    requires DecEntries(cfg, k, e, limit, n, keys, vals, buf, pos).Ok?
    ensures var v := DecEntries(cfg, k, e, limit, n, keys, vals, buf, pos).value;
      var pairs := before + Pairs(cfg, k, e, limit, n, buf, pos);
      v.Table? && Firsts(pairs, all) && Picks(pairs, all, v.keys, v.vals)
    decreases n
  {
    hide Decode, DecEntries, Firsts, Picks;
    DecEntriesUnfold(cfg, k, e, limit, n, keys, vals, buf, pos);
    if n == 0 || limit.Reached(pos) {
      assert before + [] == before;
      all := firsts;
    } else {
      var key := Decode(cfg, k, buf, pos);
      var val := Decode(cfg, e, buf, key.end);
      var more := before + [(key.value, val.value)];
      FirstsAppend(before, firsts, keys, vals, key.value, val.value);
      if key.value in keys {
        all := EntriesPick(cfg, k, e, limit, n - 1, more, firsts, keys, vals, buf, val.end);
      } else {
        all := EntriesPick(cfg, k, e, limit, n - 1, more, firsts + [|before|], keys + [key.value], vals + [val.value],
                           buf, val.end);
      }
      assert more + Pairs(cfg, k, e, limit, n - 1, buf, val.end) == before + Pairs(cfg, k, e, limit, n, buf, pos);
    }
  }

  // ---------------------------------------------------------------- accepted containers

  /** An accepted vector of non-primitives has the announced number of elements: those that were read, at most one per
      byte, and defaults for the rest. */
  lemma AcceptedUnread(cfg: Config, e: Type, buf: seq<Byte>, pos: nat)
    requires cfg.version.XCDRv2? && !e.Prim? && Decode(cfg, Seq(e), buf, pos).Ok?
    ensures var r := Decode(cfg, Seq(e), buf, pos);
      var header := Dec32(cfg, buf, pos);
      var len := Dec32(cfg, buf, header.end);
      && header.Ok? && len.Ok? && r.value.List? && |r.value.items| == len.value
      && var m := ReadCount(cfg, e, false, Until(r.end), len.value, buf, len.end);
        && len.end + m <= r.end
        && (forall i :: m <= i < len.value ==> r.value.items[i] == Default(e))
        && (m == len.value <==> DecItems(cfg, e, false, Open, len.value, [], buf, len.end) == r)
  {
    hide DecItems, Default, ReadCount, Dec32;
    var header := Dec32(cfg, buf, pos);
    var len := Dec32(cfg, buf, header.end);
    if len.value == 0 {
      NothingToRead(cfg, e, buf, len.end);
    } else {
      UnreadAreDefaults(cfg, e, false, Until(header.end + header.value), len.value, [], buf, len.end);
      AllReadExactly(cfg, e, false, header.end + header.value, len.value, [], buf, len.end);
    }
  }

  lemma NothingToRead(cfg: Config, e: Type, buf: seq<Byte>, pos: nat)
    ensures ReadCount(cfg, e, false, Until(pos), 0, buf, pos) == 0
    ensures DecItems(cfg, e, false, Open, 0, [], buf, pos) == Ok(List([]), pos)
  {
    assert [] + Repeat(Default(e), 0) == [];
  }

  /** The same for an array of non-primitives, whose number of elements is that of its type. */
  lemma AcceptedUnreadArray(cfg: Config, e: Type, n: Positive, buf: seq<Byte>, pos: nat)
    requires cfg.version.XCDRv2? && !PrimArr(Arr(e, n)) && Decode(cfg, Arr(e, n), buf, pos).Ok?
    ensures var r := Decode(cfg, Arr(e, n), buf, pos);
      var header := Dec32(cfg, buf, pos);
      && header.Ok? && r.value.List? && |r.value.items| == n
      && var m := ReadCount(cfg, e, true, Until(r.end), n, buf, header.end);
        && header.end + m <= r.end
        && (forall i :: m <= i < n ==> r.value.items[i] == Default(e))
        && (m == n <==> DecItems(cfg, e, true, Open, n, [], buf, header.end) == r)
  {
    hide DecItems, Default, ReadCount, Dec32, PrimArr;
    var header := Dec32(cfg, buf, pos);
    UnreadAreDefaults(cfg, e, true, Until(header.end + header.value), n, [], buf, header.end);
    AllReadExactly(cfg, e, true, header.end + header.value, n, [], buf, header.end);
  }

  /** An accepted map of non-primitives can have fewer entries than announced: it has at most those that were read. */
  lemma AcceptedUnreadMap(cfg: Config, k: Type, e: Type, buf: seq<Byte>, pos: nat)
    requires cfg.version.XCDRv2? && !e.Prim? && Decode(cfg, Map(k, e), buf, pos).Ok?
    ensures var r := Decode(cfg, Map(k, e), buf, pos);
      var header := Dec32(cfg, buf, pos);
      var len := Dec32(cfg, buf, header.end);
      && header.Ok? && len.Ok? && r.value.Table?
      && var m := EntryCount(cfg, k, e, Until(r.end), len.value, buf, len.end);
        && |r.value.keys| <= m && len.end + 2 * m <= r.end
        && (m == len.value <==> DecEntries(cfg, k, e, Open, len.value, [], [], buf, len.end) == r)
  {
    hide DecEntries, EntryCount, Dec32;
    var header := Dec32(cfg, buf, pos);
    var len := Dec32(cfg, buf, header.end);
    EntriesWereRead(cfg, k, e, Until(header.end + header.value), len.value, [], [], buf, len.end);
    AllEntriesReadExactly(cfg, k, e, header.end + header.value, len.value, [], [], buf, len.end);
  }

  /** An accepted delimited container ends where its DHEADER says, unless it is a vector that says it is empty: its
      DHEADER is not looked at. */
  lemma HeaderCheckedExactly(cfg: Config, ty: Type, buf: seq<Byte>, pos: nat)
    requires Delimited(cfg, ty) && Decode(cfg, ty, buf, pos).Ok?
    ensures var r := Decode(cfg, ty, buf, pos);
      var header := Dec32(cfg, buf, pos);
      && header.Ok?
      && (r.end == header.end + header.value
          <==> !(ty.Seq? && r.value == List([]) && header.value != r.end - header.end))
      && (ty.Seq? && r.value == List([]) ==> Dec32(cfg, buf, header.end) == Ok(0, r.end))
  {
    hide DecItems, DecEntries, Dec32;
    var header := Dec32(cfg, buf, pos);
    if ty.Seq? {
      var len := Dec32(cfg, buf, header.end);
      if len.Ok? && len.value != 0 {
        ItemsAdvance(cfg, ty.elem, false, Until(header.end + header.value), len.value, [], buf, len.end);
      }
    }
  }

  // ---------------------------------------------------------------- zeros

  /** An optional occurs in the type. */
  predicate HasOptional(ty: Type)
    decreases ty
  {
    match ty
    case Prim(_) => false
    case Opt(_) => true
    case Seq(e) => HasOptional(e)
    case Arr(e, _) => HasOptional(e)
    case Map(k, e) => HasOptional(k) || HasOptional(e)
  }

  ghost predicate Zeros(buf: seq<Byte>) {
    forall i :: 0 <= i < |buf| ==> buf[i] == 0
  }

  lemma ZeroWord(cfg: Config, w: Width, buf: seq<Byte>, pos: nat)
    requires Zeros(buf) && DecWord(cfg, w, buf, pos).Ok?
    ensures DecWord(cfg, w, buf, pos).value == Default(Prim(w)).raw
    ensures w.W4? ==> Dec32(cfg, buf, pos).Ok? && Dec32(cfg, buf, pos).value == 0
  {
    hide PadLen;
    var p := pos + PadLen(pos, AlignOf(cfg.version, w));
    var raw := buf[p..p + w.Bytes()];
    forall i | 0 <= i < |raw| ensures raw[i] == 0 { assert raw[i] == buf[p + i]; }
    assert raw == Default(Prim(w)).raw;
    assert Ordered(cfg, raw) == raw;
  }

  /** What is read from zeros is the default, wherever an empty optional can be read at all. */
  lemma {:induction false} ZerosAreDefault(cfg: Config, ty: Type, buf: seq<Byte>, pos: nat)
    requires Zeros(buf) && (cfg.version.Flagged() || !HasOptional(ty)) && Decode(cfg, ty, buf, pos).Ok?
    ensures Decode(cfg, ty, buf, pos).value == Default(ty)
    decreases ty, 2, 0
  {
    hide DecItems, DecEntries, DecWord, Val32, Default, Zeros;
    match ty
    case Prim(w) => ZeroWord(cfg, w, buf, pos); DefaultOf(ty);
    case Opt(e) => FirstIsZero(buf, pos); DefaultOf(ty);
    case Arr(e, n) =>
      DefaultOf(ty);
      var header := Dec32(cfg, buf, pos);
      if Delimited(cfg, ty) {
        ZeroItems(cfg, e, Until(header.end + header.value), n, [], buf, header.end);
      } else {
        ZeroItems(cfg, e, Open, n, [], buf, pos);
      }
    case Seq(e) => ZeroCounts(cfg, ty, buf, pos); DefaultOf(ty);
    case Map(k, e) => ZeroCounts(cfg, ty, buf, pos); DefaultOf(ty);
  }

  lemma FirstIsZero(buf: seq<Byte>, pos: nat)
    requires Zeros(buf)
    ensures pos < |buf| ==> buf[pos] == 0
  {
  }

  lemma DefaultOf(ty: Type)
    ensures ty.Arr? ==> Default(ty) == List(Repeat(Default(ty.elem), ty.size))
    ensures ty.Seq? ==> Default(ty) == List([])
    ensures ty.Map? ==> Default(ty) == Table([], [])
    ensures ty.Opt? ==> Default(ty) == Absent
    ensures ty.Prim? ==> Default(ty).Word?
  {
  }

  lemma ZeroCounts(cfg: Config, ty: Type, buf: seq<Byte>, pos: nat)
    requires (ty.Seq? || ty.Map?) && Zeros(buf) && Decode(cfg, ty, buf, pos).Ok?
    ensures Decode(cfg, ty, buf, pos).value == if ty.Seq? then List([]) else Table([], [])
  {
    hide DecItems, DecEntries, Val32, PadLen, Default, DecWord;
    var off := if Delimited(cfg, ty) then Dec32(cfg, buf, pos).end else pos;
    ZeroWord(cfg, W4, buf, off);
    if ty.Map? { DecEntriesUnfold(cfg, ty.key, ty.val, Open, 0, [], [], buf, Dec32(cfg, buf, off).end); }
    if ty.Map? && Delimited(cfg, ty) {
      var limit := Until(off + Dec32(cfg, buf, pos).value);
      DecEntriesUnfold(cfg, ty.key, ty.val, limit, 0, [], [], buf, Dec32(cfg, buf, off).end);
    }
  }

  lemma {:induction false} ZeroItems(cfg: Config, e: Type, limit: Limit, n: nat, done: seq<Value>, buf: seq<Byte>,
                                     pos: nat)
    requires Zeros(buf) && (cfg.version.Flagged() || !HasOptional(e))
    requires DecItems(cfg, e, true, limit, n, done, buf, pos).Ok?
    ensures DecItems(cfg, e, true, limit, n, done, buf, pos).value == List(done + Repeat(Default(e), n))
    decreases e, 4, n
  {
    hide DecItem, DecItems, Default, Zeros, Decode;
    DecItemsUnfold(cfg, e, true, limit, n, done, buf, pos);
    if n > 0 && !limit.Reached(pos) {
      var item := DecItem(cfg, e, true, buf, pos);
      ZeroItem(cfg, e, buf, pos);
      ZeroItems(cfg, e, limit, n - 1, done + [item.value], buf, item.end);
      assert done + [Default(e)] + Repeat(Default(e), n - 1) == done + Repeat(Default(e), n);
    }
  }

  lemma {:induction false} ZeroItem(cfg: Config, e: Type, buf: seq<Byte>, pos: nat)
    requires Zeros(buf) && (cfg.version.Flagged() || !HasOptional(e)) && DecItem(cfg, e, true, buf, pos).Ok?
    ensures DecItem(cfg, e, true, buf, pos).value == Default(e)
    decreases e, 3, 0
  {
    hide Decode, DecItems, Default, Zeros;
    if e.Arr? {
      DefaultOf(e);
      ZeroItems(cfg, e.elem, Open, e.size, [], buf, pos);
      assert [] + Repeat(Default(e.elem), e.size) == Repeat(Default(e.elem), e.size);
    } else {
      ZerosAreDefault(cfg, e, buf, pos);
    }
  }

  // ---------------------------------------------------------------- bytes that are accepted so

  lemma TwoWords(cfg: Config, a: nat, b: nat, pre: seq<Byte>)
    requires a < TWO32 && b < TWO32
    ensures var buf := Enc32(cfg, a, 0, pre) + Enc32(cfg, b, 4, pre);
      |buf| == 8 && Dec32(cfg, buf, 0) == Ok(a, 4) && Dec32(cfg, buf, 4) == Ok(b, 8)
  {
    hide Enc32, Dec32;
    var buf := Enc32(cfg, a, 0, pre) + Enc32(cfg, b, 4, pre);
    assert At(buf, 0, Enc32(cfg, a, 0, pre) + Enc32(cfg, b, 4, pre));
    AtConcat(buf, 0, Enc32(cfg, a, 0, pre), Enc32(cfg, b, 4, pre));
    U32RoundTrip(cfg, a, 0, pre, buf);
    U32RoundTrip(cfg, b, 4, pre, buf);
  }

  /** Eight bytes, whatever the count in them says, are read as that many empty vectors. */
  lemma CountWithoutElements(cfg: Config, n: nat, pre: seq<Byte>)
    requires cfg.version.XCDRv2? && 0 < n < TWO32
    ensures var buf := Enc32(cfg, 4, 0, pre) + Enc32(cfg, n, 4, pre);
      |buf| == 8 && Decode(cfg, Seq(Seq(Prim(W1))), buf, 0) == Ok(List(Repeat(List([]), n)), 8)
  {
    hide Enc32, Dec32;
    TwoWords(cfg, 4, n, pre);
    assert Default(Seq(Prim(W1))) == List([]);
    assert [] + Repeat(List([]), n) == Repeat(List([]), n);
  }

  /** Four zero bytes are read as an array of any size. */
  lemma ArrayWithoutElements(cfg: Config, n: Positive, pre: seq<Byte>)
    requires cfg.version.XCDRv2?
    ensures var buf := Enc32(cfg, 0, 0, pre);
      |buf| == 4 && Decode(cfg, Arr(Seq(Prim(W1)), n), buf, 0) == Ok(List(Repeat(List([]), n)), 4)
  {
    hide Enc32, Dec32;
    var buf := Enc32(cfg, 0, 0, pre);
    assert At(buf, 0, buf);
    U32RoundTrip(cfg, 0, 0, pre, buf);
    DecItemsUnfold(cfg, Seq(Prim(W1)), true, Until(4), n, [], buf, 4);
    assert !PrimArr(Arr(Seq(Prim(W1)), n));
    assert Default(Seq(Prim(W1))) == List([]);
    assert [] + Repeat(List([]), n) == Repeat(List([]), n);
  }

  /** Eight bytes, whatever the count in them says, are read as an empty map. */
  lemma CountWithoutEntries(cfg: Config, n: nat, pre: seq<Byte>)
    requires cfg.version.XCDRv2? && n < TWO32
    ensures var buf := Enc32(cfg, 4, 0, pre) + Enc32(cfg, n, 4, pre);
      |buf| == 8 && Decode(cfg, Map(Prim(W1), Seq(Prim(W1))), buf, 0) == Ok(Table([], []), 8)
  {
    hide Enc32, Dec32;
    TwoWords(cfg, 4, n, pre);
  }

  /** An empty vector is accepted whatever its DHEADER says. */
  lemma EmptyVectorUnchecked(cfg: Config, n: nat, pre: seq<Byte>)
    requires cfg.version.XCDRv2? && n < TWO32
    ensures var buf := Enc32(cfg, n, 0, pre) + Enc32(cfg, 0, 4, pre);
      |buf| == 8 && Decode(cfg, Seq(Seq(Prim(W1))), buf, 0) == Ok(List([]), 8)
  {
    hide Enc32, Dec32;
    TwoWords(cfg, n, 0, pre);
  }
}
