/** The codec object: a growing buffer, an offset, an alignment origin and the cached size of the last datum.

    Containers are written in loops; a DHEADER is written as zero, and patched once the length is known. What
    is compiled outside the header (scalars, `resize`) follows its documented contract: a scalar is padded by
    `alignment`, copied with the stream's endianness and remembered as the last datum; `resize` keeps every
    byte and every position index, and refuses to go beyond `limit`. */
module CdrCodec {
  import opened Basics
  import opened CdrSpec
  import opened CdrRoundTrip
  import opened CdrAlignment
  import opened CdrByteOrder
  import opened CdrFrame

  /** A saved state of the codec. */
  datatype State = State(offset: nat, origin: nat, swapBytes: bool, lastDataSize: nat)

  class Cdr {
    const version: Version
    const limit: nat
    const host: Endianness
    const endianness: Endianness
    var swapBytes: bool
    var origin: nat
    var buffer: array<Byte>
    var offset: nat
    var lastDataSize: nat

    function Cfg(): Config
      reads `swapBytes
    {
      Config(version, swapBytes, host)
    }

    /** The bytes that positions are counted in, from the alignment origin. */
    ghost function Data(): seq<Byte>
      requires origin <= buffer.Length
      reads this, buffer
    {
      buffer[origin..]
    }

    ghost function Pos(): nat
      requires origin <= offset
      reads this
    {
      offset - origin
    }

    ghost predicate Valid()
      reads this
    {
      origin <= offset <= buffer.Length <= limit && CacheSound(version, offset - origin, lastDataSize)
    }

    /** Nothing before the old position changes, and the buffer is only ever replaced by a longer one. */
    twostate predicate Appends()
      requires old(Valid()) && Valid()
      reads this, buffer
    {
      && (buffer == old(buffer) || fresh(buffer))
      && old(buffer.Length) <= buffer.Length
      && Agree(old(Data()), Data(), 0, old(Pos()))
    }

    constructor (version: Version, host: Endianness, endianness: Endianness, buffer: array<Byte>, limit: nat,
        origin: nat)
      requires origin <= buffer.Length <= limit
      ensures Valid() && this.buffer == buffer && Pos() == 0 && this.origin == origin && this.limit == limit
      ensures this.version == version && this.host == host && this.endianness == endianness && Matched()
    {
      this.version, this.host, this.endianness, this.limit, this.origin := version, host, endianness, limit, origin;
      this.swapBytes := endianness != host;
      this.buffer, this.offset, this.lastDataSize := buffer, origin, 0;
    }

    /** Bytes are swapped when the stream's endianness is not the host's; then the stream's order is its endianness. */
    predicate Matched()
      reads this
      ensures Matched() ==> StreamOrder(Cfg()) == endianness
    {
      swapBytes <==> endianness != host
    }

    // -------------------------------------------------------------- alignment and state

    method MakeAlignment(align: nat)
      requires Valid() && offset + align <= buffer.Length
      modifies `offset, `lastDataSize
      ensures Valid() && offset == old(offset) + align && lastDataSize == 0
    {
      offset := offset + align;
      lastDataSize := 0;
    }

    method ResetAlignment()
      requires Valid()
      modifies `origin, `lastDataSize
      ensures Valid() && Pos() == 0 && lastDataSize == 0
    {
      origin := offset;
      lastDataSize := 0;
    }

    function GetState(): State
      reads `offset, `origin, `swapBytes, `lastDataSize
    {
      State(offset, origin, swapBytes, lastDataSize)
    }

    /** A state that the codec can go back to, in the present buffer or a longer one. */
    predicate Restorable(s: State)
      reads `buffer
    {
      s.origin <= s.offset <= buffer.Length <= limit && CacheSound(version, s.offset - s.origin, s.lastDataSize)
    }

    /** Origin and byte order are written only where they differ. */
    method SetState(s: State)
      requires Restorable(s)
      modifies `offset, `lastDataSize, if s.origin == origin && s.swapBytes == swapBytes then {} else {this}
      ensures Valid() && GetState() == s && buffer == old(buffer)
    {
      if s.origin != origin || s.swapBytes != swapBytes {
        origin, swapBytes := s.origin, s.swapBytes;
      }
      offset, lastDataSize := s.offset, s.lastDataSize;
    }

    // -------------------------------------------------------------- scalars

    /** A longer buffer with the same bytes; positions are indices, so they carry over. */
    method Resize(room: nat)
      requires Valid() && buffer.Length < offset + room <= limit
      modifies this`buffer
      ensures Valid() && fresh(buffer) && offset + room <= buffer.Length
      ensures Agree(old(Data()), Data(), 0, |old(Data())|)
    {
      var source := buffer;
      var size :| offset + room <= size <= limit;
      var grown := new Byte[size];
      for i := 0 to source.Length
        modifies grown
        invariant forall j :: 0 <= j < i ==> grown[j] == source[j]
      {
        grown[i] := source[i];
      }
      buffer := grown;
    }

    /** Makes room for `size` bytes from the current position, unless the limit forbids it. */
    method EnsureRoom(size: nat) returns (ok: bool)
      requires Valid()
      modifies this`buffer
      ensures Valid() && (ok <==> offset + size <= limit) && (ok ==> offset + size <= buffer.Length)
      ensures buffer == old(buffer) || (fresh(buffer) && buffer.Length > old(buffer.Length))
      ensures offset + size <= old(buffer.Length) || !ok ==> buffer == old(buffer)
      ensures Agree(old(Data()), Data(), 0, |old(Data())|)
    {
      if size <= buffer.Length - offset { return true; }
      if limit < offset + size { return false; }
      Resize(size);
      return true;
    }

    /** The bytes before the position, read in the given order, are the number that the scalar is on the host. */
    ghost predicate Stored(raw: seq<Byte>, order: Endianness)
      reads `offset, `buffer, buffer
    {
      |raw| <= offset <= buffer.Length && Number(order, buffer[offset - |raw|..offset]) == Number(host, raw)
    }

    method SerializeWord(w: Width, raw: seq<Byte>) returns (ok: bool)
      requires Valid() && |raw| == w.Bytes()
      modifies `buffer, `offset, `lastDataSize, buffer
      ensures Valid() && Appends()
      ensures var end := old(Pos()) + PadLen(old(Pos()), AlignOf(version, w)) + w.Bytes();
        && (ok <==> origin + end <= limit)
        && (ok ==> Pos() == end && At(Data(), old(Pos()), EncWord(Cfg(), w, raw, old(Pos()), Data())))
        && (end <= |old(Data())| ==>
              && buffer == old(buffer)
              && Agree(old(Data()), Data(), 0, end - w.Bytes())
              && Agree(old(Data()), Data(), end, |old(Data())|))
      ensures if ok then lastDataSize == w.Bytes() else offset == old(offset) && lastDataSize == old(lastDataSize)
      ensures ok ==> Stored(raw, StreamOrder(Cfg()))
    {
      hide CachedAlignment, At, EncWord, PadLen, CacheSound, Stored, StreamOrder, Ordered;
      var pos := offset - origin;
      ShortcutSound(version, pos, lastDataSize, w);
      CacheAfterWord(version, pos, w);
      var align := CachedAlignment(pos, lastDataSize, AlignOf(version, w).Bytes());
      ok := EnsureRoom(align + w.Bytes());
      if ok {
        MakeAlignment(align);
        CopyOrdered(raw);
        lastDataSize := w.Bytes();
        WordPlaced(Cfg(), w, raw, pos, Data());
      }
    }

    /** Copies a scalar to the current position and steps over it. */
    method CopyOrdered(raw: seq<Byte>)
      requires origin <= offset && offset + |raw| <= buffer.Length
      modifies this`offset, buffer
      ensures offset == old(offset) + |raw|
      ensures Data()[old(offset) - origin..offset - origin] == Ordered(Cfg(), raw)
      ensures Agree(old(Data()), Data(), 0, old(offset) - origin)
      ensures Agree(old(Data()), Data(), offset - origin, |Data()|)
      ensures Stored(raw, StreamOrder(Cfg()))
    {
      hide Ordered, Number, StreamOrder;
      OrderedNumber(Cfg(), raw);
      var bytes := Ordered(Cfg(), raw);
      var target, at := buffer, offset;
      for i := 0 to |raw|
        modifies target
        invariant forall j :: 0 <= j < i ==> target[at + j] == bytes[j]
        invariant forall j :: 0 <= j < target.Length && !(at <= j < at + i) ==> target[j] == old(target[j])
      {
        target[at + i] := bytes[i];
      }
      offset := offset + |raw|;
      DropThenSlice(target[..], origin, at - origin, |raw|);
      assert target[..][at..at + |raw|] == bytes && target[..][origin..] == Data();
    }

    // -------------------------------------------------------------- encoding

    /** The DHEADER fits below the limit and the count after it does not. */
    predicate StopsAfterHeader(ty: Type, start: nat)
      requires origin <= start
      reads `origin, `swapBytes
    {
      var p := start + PadLen(start - origin, W4) + 4;
      Delimited(Cfg(), ty) && !ty.Arr? && p <= limit < p + 4
    }

    /** After a failed vector or map everything is as before, except that its count is written outside the protected
        part: when only that fails, the codec stays after the DHEADER. */
    twostate predicate RolledBack(ty: Type)
      requires old(Valid())
      reads this
    {
      if old(StopsAfterHeader(ty, offset)) then
        offset == old(offset) + PadLen(old(Pos()), W4) + 4 && lastDataSize == 4
      else offset == old(offset) && lastDataSize == old(lastDataSize)
    }

    method Serialize(ty: Type, v: Value) returns (ok: bool)
      requires Valid() && Typed(ty, v)
      modifies `buffer, `offset, `lastDataSize, buffer
      ensures Valid() && Appends()
      ensures ok <==> old(offset) + Size(Cfg(), ty, v, old(Pos())) <= limit
      ensures ok ==> Holds(Cfg(), ty, v, Data(), old(Pos()), Pos())
      ensures !ok && (ty.Seq? || ty.Map?) ==> RolledBack(ty)
      ensures ok && ty.Prim? ==> v.Word? && Stored(v.raw, StreamOrder(Cfg()))
      decreases ty, 2, 0
    {
      match ty {
        case Prim(w) =>
          ok := SerializeWord(w, v.raw);
          WordHolds(Cfg(), w, v, Data(), old(Pos()));
        case Opt(e) =>
          ok := SerializeOptional(e, v);
        case _ =>
          ok := SerializeContainer(ty, v);
      }
    }

    method SerializeOptional(e: Type, v: Value) returns (ok: bool)
      requires Valid() && Typed(Opt(e), v)
      modifies `buffer, `offset, `lastDataSize, buffer
      ensures Valid() && Appends()
      ensures ok <==> old(offset) + Size(Cfg(), Opt(e), v, old(Pos())) <= limit
      ensures ok ==> Holds(Cfg(), Opt(e), v, Data(), old(Pos()), Pos())
      decreases e, 9, 0
    {
      hide Stored, StreamOrder, Encode, EncWord, At, Size, Holds, CacheSound;
      ok := true;
      ghost var pos := Pos();
      OptionalSize(Cfg(), e, v, pos);
      if version.Flagged() {
        ok := SerializeWord(W1, [if v.Present? then 1 else 0]);
        if !ok { return; }
      }
      ghost var mid, flagged := Pos(), Data();
      if v.Present? {
        ok := Serialize(e, v.inner);
      }
      if ok {
        OptionalHolds(Cfg(), e, v, flagged, Data(), pos, mid, Pos());
      }
    }

    method SerializeContainer(ty: Type, v: Value) returns (ok: bool)
      requires (ty.Seq? || ty.Arr? || ty.Map?) && Valid() && Typed(ty, v)
      modifies `buffer, `offset, `lastDataSize, buffer
      ensures Valid() && Appends()
      ensures ok <==> old(offset) + Size(Cfg(), ty, v, old(Pos())) <= limit
      ensures ok ==> Holds(Cfg(), ty, v, Data(), old(Pos()), Pos())
      ensures !ok && !ty.Arr? ==> RolledBack(ty)
      decreases ty, 1, 2
    {
      hide Stored, Size, BodySize, Holds, HoldsBody, EncWord, At, Typed, PadLen, CacheSound, U32, Ordered;
      ghost var pos := Pos();
      SizeOfContainer(Cfg(), ty, v, pos);
      HeaderNeedsNoPadding(pos);
      var saved := GetState();
      if Delimited(Cfg(), ty) {
        ok := SerializeWord(W4, U32(host, 0));
        if !ok { return; }
      }
      ghost var mid := Pos();
      ok := SerializeBody(ty, v, saved);
      if ok {
        if Delimited(Cfg(), ty) {
          PatchDHeader(saved, ty, v);
        } else {
          PlainFromBody(Cfg(), ty, v, Data(), pos, Pos());
        }
      }
    }

    /** The count and the elements; when an element fails, a counted container goes back to the saved state. */
    method SerializeBody(ty: Type, v: Value, saved: State) returns (ok: bool)
      requires (ty.Seq? || ty.Arr? || ty.Map?) && Valid() && Typed(ty, v)
      requires saved.origin == origin && saved.swapBytes == swapBytes && saved.offset <= offset && Restorable(saved)
      modifies `buffer, `offset, `lastDataSize, buffer
      ensures Valid() && Appends()
      ensures ok <==> old(offset) + BodySize(Cfg(), ty, v, old(Pos())) <= limit
      ensures ok ==> HoldsBody(Cfg(), ty, v, Data(), old(Pos()), Pos()) && old(offset) <= offset
      ensures !ok && !ty.Arr? ==>
        GetState() == if old(offset) + PadLen(old(Pos()), W4) + 4 <= limit then saved else old(GetState())
      decreases ty, 1, 1
    {
      hide Stored, BodySize, At, EncBody, PadLen, CacheSound, EntriesSize, ItemsSize, HoldsItems, HoldsEntries,
        HoldsWord, AllTyped;
      ghost var pos := Pos();
      TypedParts(ty, v);
      SizeOfBody(Cfg(), ty, v, pos);
      if !ty.Arr? {
        ok := SerializeCount(if ty.Map? then |v.keys| else |v.items|);
        if !ok { return; }
      }
      ghost var counted, mid := Data(), Pos();
      if ty.Map? {
        ok := SerializeEntries(ty.key, ty.val, v.keys, v.vals);
      } else {
        ok := SerializeArray(ty.elem, v.items);
      }
      if ok {
        BodyFromParts(Cfg(), ty, v, counted, Data(), pos, mid, Pos());
      } else if !ty.Arr? {
        SetState(saved);
      }
    }

    method SerializeCount(n: nat) returns (ok: bool)
      requires Valid()
      modifies `buffer, `offset, `lastDataSize, buffer
      ensures Valid() && Appends()
      ensures ok <==> old(offset) + PadLen(old(Pos()), W4) + 4 <= limit
      ensures ok ==> HoldsWord(Cfg(), n, Data(), old(Pos()), Pos())
      ensures ok ==> Pos() == old(Pos()) + PadLen(old(Pos()), W4) + 4
      ensures !ok ==> offset == old(offset) && lastDataSize == old(lastDataSize)
    {
      hide Stored, StreamOrder, EncWord, Enc32, At, PadLen, CacheSound, U32;
      ok := SerializeWord(W4, U32(host, n));
      if ok { CountPlaced(Cfg(), n, Data(), old(Pos()), Pos()); }
    }

    method SerializeArray(e: Type, items: seq<Value>) returns (ok: bool)
      requires Valid() && AllTyped(e, items)
      modifies `buffer, `offset, `lastDataSize, buffer
      ensures Valid() && Appends()
      ensures ok <==> old(offset) + ItemsSize(Cfg(), e, items, |items|, old(Pos())) <= limit
      ensures ok ==> HoldsItems(Cfg(), e, items, |items|, Data(), old(Pos()), Pos())
      decreases e, 4, 0
    {
      hide Stored, StreamOrder, ItemSize, ItemsSize, HoldsItem, HoldsItems, Typed, CacheSound;
      ghost var pos := Pos();
      NoItems(Cfg(), e, items, Data(), pos);
      for count := 0 to |items|
        invariant Valid() && Appends()
        invariant HoldsItems(Cfg(), e, items, count, Data(), pos, Pos())
        invariant Pos() == pos + ItemsSize(Cfg(), e, items, count, pos)
      {
        ghost var before, mid := Data(), Pos();
        ItemsSizeStep(Cfg(), e, items, count, pos);
        ItemsSizeGrows(Cfg(), e, items, count + 1, |items|, pos);
        ok := SerializeElement(e, items[count]);
        if !ok { return; }
        AppendItem(Cfg(), e, items, count, before, Data(), pos, mid, Pos());
      }
      ok := true;
    }

    /** An array met as an element is written flat. */
    method SerializeElement(e: Type, v: Value) returns (ok: bool)
      requires Valid() && Typed(e, v)
      modifies `buffer, `offset, `lastDataSize, buffer
      ensures Valid() && Appends()
      ensures ok <==> old(offset) + ItemSize(Cfg(), e, v, old(Pos())) <= limit
      ensures ok ==> HoldsItem(Cfg(), e, v, Data(), old(Pos()), Pos())
      ensures ok ==> Pos() == old(Pos()) + ItemSize(Cfg(), e, v, old(Pos()))
      decreases e, 3, 0
    {
      hide Stored, StreamOrder, Encode, EncItems, At, CacheSound;
      if e.Arr? {
        ok := SerializeArray(e.elem, v.items);
      } else {
        ok := Serialize(e, v);
      }
    }

    method SerializeEntries(k: Type, e: Type, keys: seq<Value>, vals: seq<Value>) returns (ok: bool)
      requires Valid() && |keys| == |vals| && AllTyped(k, keys) && AllTyped(e, vals)
      modifies `buffer, `offset, `lastDataSize, buffer
      ensures Valid() && Appends()
      ensures ok <==> old(offset) + EntriesSize(Cfg(), k, e, keys, vals, |keys|, old(Pos())) <= limit
      ensures ok ==> HoldsEntries(Cfg(), k, e, keys, vals, |keys|, Data(), old(Pos()), Pos())
      decreases Map(k, e), 0, 0
    {
      hide Stored, StreamOrder, Size, EntriesSize, HoldsEntries, Typed, AllTyped, CacheSound, At;
      ghost var pos := Pos();
      NoEntries(Cfg(), k, e, keys, vals, Data(), pos);
      for i := 0 to |keys|
        invariant Valid() && Appends()
        invariant HoldsEntries(Cfg(), k, e, keys, vals, i, Data(), pos, Pos())
        invariant Pos() == pos + EntriesSize(Cfg(), k, e, keys, vals, i, pos)
      {
        ghost var before, mid := Data(), Pos();
        EntriesSizeStep(Cfg(), k, e, keys, vals, i, pos);
        EntriesSizeGrows(Cfg(), k, e, keys, vals, i + 1, |keys|, pos);
        ItemTyped(k, keys, i);
        ItemTyped(e, vals, i);
        ok := Serialize(k, keys[i]);
        if !ok { return; }
        ghost var between, sep := Data(), Pos();
        ok := Serialize(e, vals[i]);
        if !ok { return; }
        AppendEntry(Cfg(), k, e, keys, vals, i, before, between, Data(), pos, mid, sep, Pos());
      }
      ok := true;
    }

    /** Goes back to the DHEADER, writes the number of bytes after it, and returns. Only those four bytes change. */
    method PatchDHeader(saved: State, ghost ty: Type, ghost v: Value)
      requires (ty.Seq? || ty.Arr? || ty.Map?) && Valid() && Typed(ty, v) && Delimited(Cfg(), ty)
      requires saved.origin == origin && saved.swapBytes == swapBytes && saved.offset <= offset && Restorable(saved)
      requires var pos := saved.offset - origin; HoldsBody(Cfg(), ty, v, Data(), pos + PadLen(pos, W4) + 4, Pos())
      modifies `buffer, `offset, `lastDataSize, buffer
      ensures Valid() && buffer == old(buffer) && offset == old(offset) && lastDataSize == old(lastDataSize)
      ensures Holds(Cfg(), ty, v, Data(), saved.offset - origin, Pos())
      ensures var mid := saved.offset - origin + PadLen(saved.offset - origin, W4) + 4;
        Agree(old(Data()), Data(), 0, mid - 4) && Agree(old(Data()), Data(), mid, |old(Data())|)
    {
      hide Stored, StreamOrder, Encode, EncBody, EncWord, Enc32, At, Typed, PadLen, CachedAlignment, Delimited,
        CacheSound, U32, Ordered;
      ghost var pos := saved.offset - origin;
      ghost var mid := pos + PadLen(pos, W4) + 4;
      ghost var before := Data();
      var after := GetState();
      SetState(saved);
      ShortcutSound(version, pos, saved.lastDataSize, W4);
      var dheader: nat := after.offset - offset - (4 + CachedAlignment(offset - origin, lastDataSize, 4));
      var _ := SerializeWord(W4, U32(host, dheader));
      CountPlaced(Cfg(), dheader, Data(), pos, mid);
      SetState(after);
      MoveBody(Cfg(), ty, v, before, Data(), mid, after.offset - origin);
      DelimitedFromParts(Cfg(), ty, v, Data(), pos, mid, after.offset - origin);
    }

    // -------------------------------------------------------------- another endianness for one value

    /** The flag for a stream of the given endianness, computed from the present flag. */
    function Override(other: Endianness): bool
      reads `swapBytes
    {
      (swapBytes && endianness == other) || (!swapBytes && endianness != other)
    }

    /** Encodes one value in the endianness asked for, and goes back to the stream's own whether it fits or not. The
        bytes of a scalar, read in that order, are its number on the host. */
    method SerializeAs(ty: Type, v: Value, other: Endianness) returns (ok: bool)
      requires Valid() && Matched() && Typed(ty, v)
      modifies `buffer, `offset, `lastDataSize, `swapBytes, buffer
      ensures Valid() && Matched() && Appends()
      ensures ok ==> Holds(Config(version, other != host, host), ty, v, Data(), old(Pos()), Pos())
      ensures ok <==> old(offset) + Size(Config(version, other != host, host), ty, v, old(Pos())) <= limit
      ensures ok && ty.Prim? ==> v.Word? && Stored(v.raw, other)
    {
      hide Holds, Size, Typed, CacheSound, Stored, StreamOrder;
      OverrideOrder(version, host, other);
      var auxSwap := swapBytes;
      swapBytes := Override(other);
      ok := Serialize(ty, v);
      swapBytes := auxSwap;
    }

    /** What is read with the endianness that it was written in: a scalar's number on the host is that of its bytes in
        this order. */
    method DeserializeAs(ty: Type, other: Endianness) returns (r: Result<Value>)
      requires Valid() && Matched()
      modifies `offset, `lastDataSize, `swapBytes
      ensures Valid() && Matched() && r == Decode(Config(version, other != host, host), ty, Data(), old(Pos()))
      ensures r.Ok? ==> Pos() == r.end
      ensures r.Ok? && ty.Prim? ==> r.value.Word? && Stored(r.value.raw, other)
    {
      hide Decode, CacheSound, Stored, StreamOrder;
      OverrideOrder(version, host, other);
      var auxSwap := swapBytes;
      swapBytes := Override(other);
      r := Deserialize(ty);
      swapBytes := auxSwap;
    }

    // -------------------------------------------------------------- decoding

    /** A scalar that is not all there is not read, and the position stays. */
    method DeserializeWord(w: Width) returns (r: Result<seq<Byte>>)
      requires Valid()
      modifies `offset, `lastDataSize
      ensures Valid() && r == DecWord(Cfg(), w, Data(), old(Pos()))
      ensures if r.Ok? then Pos() == r.end else offset == old(offset) && lastDataSize == old(lastDataSize)
      ensures r.Ok? ==> Stored(r.value, StreamOrder(Cfg()))
    {
      hide CachedAlignment, PadLen, CacheSound, Ordered, Number, StreamOrder;
      var pos := offset - origin;
      ShortcutSound(version, pos, lastDataSize, w);
      CacheAfterWord(version, pos, w);
      var align := CachedAlignment(pos, lastDataSize, AlignOf(version, w).Bytes());
      if buffer.Length - offset < align + w.Bytes() { return Err(NotEnoughMemory); }
      MakeAlignment(align);
      var raw := buffer[offset..offset + w.Bytes()];
      DropThenSlice(buffer[..], origin, offset - origin, w.Bytes());
      assert buffer[..][origin..] == Data() && buffer[..][offset..offset + w.Bytes()] == raw;
      offset := offset + w.Bytes();
      lastDataSize := w.Bytes();
      OrderedNumber(Cfg(), raw);
      r := Ok(Ordered(Cfg(), raw), offset - origin);
    }

    method DeserializeCount() returns (r: Result<nat>)
      requires Valid()
      modifies `offset, `lastDataSize
      ensures Valid() && r == Dec32(Cfg(), Data(), old(Pos()))
      ensures if r.Ok? then Pos() == r.end else offset == old(offset) && lastDataSize == old(lastDataSize)
    {
      hide Stored, StreamOrder, DecWord, CacheSound;
      var word := DeserializeWord(W4);
      match word {
        case Ok(raw, end) => r := Ok(Val32(host, raw), end);
        case Err(e) => r := Err(e);
      }
    }

    /** The reference decoder's answer and position; when a vector or map without a DHEADER fails, and when a scalar
        does, the position is back at its start. */
    method Deserialize(ty: Type) returns (r: Result<Value>)
      requires Valid()
      modifies `offset, `lastDataSize
      ensures Valid() && r == Decode(Cfg(), ty, Data(), old(Pos()))
      ensures r.Ok? ==> Pos() == r.end
      ensures r.Err? && (ty.Prim? || ((ty.Seq? || ty.Map?) && !Delimited(Cfg(), ty))) ==> GetState() == old(GetState())
      ensures r.Ok? && ty.Prim? ==> r.value.Word? && Stored(r.value.raw, StreamOrder(Cfg()))
      decreases ty, 2, 0
    {
      hide Stored, StreamOrder, DecWord, DecDelimited, DecPlain, Dec32, CacheSound, Delimited;
      match ty {
        case Prim(w) =>
          var word := DeserializeWord(w);
          r := if word.Ok? then Ok(Word(word.value), word.end) else Err(word.error);
        case Opt(e) =>
          r := DeserializeOptional(e);
        case _ =>
          if Delimited(Cfg(), ty) {
            var dheader := DeserializeCount();
            if dheader.Err? { return Err(dheader.error); }
            r := DeserializeDelimited(ty, dheader.value);
          } else {
            r := DeserializePlain(ty);
          }
      }
    }

    method DeserializeOptional(e: Type) returns (r: Result<Value>)
      requires Valid()
      modifies `offset, `lastDataSize
      ensures Valid() && r == Decode(Cfg(), Opt(e), Data(), old(Pos())) && (r.Ok? ==> Pos() == r.end)
      decreases e, 9, 0
    {
      hide Stored, StreamOrder, CacheSound, DecDelimited, DecPlain, Dec32;
      var isPresent := true;
      FlagDecoded(Cfg(), Data(), Pos());
      if version.Flagged() {
        var flag := DeserializeWord(W1);
        if flag.Err? { return Err(flag.error); }
        if 1 < flag.value[0] { return Err(BadParam); }
        isPresent := flag.value[0] == 1;
      }
      if !isPresent { return Ok(Absent, offset - origin); }
      r := Deserialize(e);
      if r.Ok? { r := Ok(Present(r.value), r.end); }
    }

    /** The loop of a delimited container stops at the end that its DHEADER announces, or after its count, and then
        must have reached that end. Only a vector that says it is empty returns before, whatever its DHEADER says. */
    method DeserializeDelimited(ty: Type, dheader: nat) returns (r: Result<Value>)
      requires (ty.Seq? || ty.Arr? || ty.Map?) && Valid()
      modifies `offset, `lastDataSize
      ensures Valid() && r == DecDelimited(Cfg(), ty, dheader, old(Pos()), Data()) && (r.Ok? ==> Pos() == r.end)
      decreases ty, 1, 1
    {
      hide Stored, StreamOrder, CacheSound, DecItems, DecEntries, Dec32;
      var start := offset - origin;
      match ty {
        case Arr(e, n) =>
          r := DeserializeItems(e, true, Until(start + dheader), n);
        case Seq(e) =>
          var count := DeserializeCount();
          if count.Err? { return Err(count.error); }
          if count.value == 0 { return Ok(List([]), count.end); }
          r := DeserializeItems(e, false, Until(start + dheader), count.value);
        case Map(k, e) =>
          var count := DeserializeCount();
          if count.Err? { return Err(count.error); }
          r := DeserializeEntries(k, e, Until(start + dheader), count.value);
      }
      if r.Ok? && offset - origin - start != dheader { r := Err(BadParam); }
    }

    method DeserializePlain(ty: Type) returns (r: Result<Value>)
      requires (ty.Seq? || ty.Arr? || ty.Map?) && Valid()
      modifies `offset, `lastDataSize
      ensures Valid() && r == DecPlain(Cfg(), ty, Data(), old(Pos())) && (r.Ok? ==> Pos() == r.end)
      ensures r.Err? && !ty.Arr? ==> GetState() == old(GetState())
      decreases ty, 1, 0
    {
      hide Stored, StreamOrder, CacheSound, DecItems, DecEntries, Dec32;
      var saved := GetState();
      match ty {
        case Arr(e, n) =>
          r := DeserializeItems(e, true, Open, n);
          return;
        case Seq(e) =>
          var count := DeserializeCount();
          if count.Err? { return Err(count.error); }
          if count.value == 0 { return Ok(List([]), count.end); }
          if buffer.Length - offset < count.value {
            r := Err(NotEnoughMemory);
          } else {
            r := DeserializeItems(e, true, Open, count.value);
          }
        case Map(k, e) =>
          var count := DeserializeCount();
          if count.Err? { return Err(count.error); }
          r := DeserializeEntries(k, e, Open, count.value);
      }
      if r.Err? { SetState(saved); }
    }

    method DeserializeItems(e: Type, flat: bool, until: Limit, n: nat) returns (r: Result<Value>)
      requires Valid()
      modifies `offset, `lastDataSize
      ensures Valid() && r == DecItems(Cfg(), e, flat, until, n, [], Data(), old(Pos())) && (r.Ok? ==> Pos() == r.end)
      decreases e, 4, 0
    {
      hide Stored, StreamOrder, CacheSound, DecItems, DecItem, Default;
      var done: seq<Value> := [];
      var count := 0;
      while count < n && !until.Reached(offset - origin)
        invariant count <= n && Valid()
        invariant DecItems(Cfg(), e, flat, until, n - count, done, Data(), Pos())
               == DecItems(Cfg(), e, flat, until, n, [], Data(), old(Pos()))
        decreases n - count
      {
        DecItemsUnfold(Cfg(), e, flat, until, n - count, done, Data(), Pos());
        var item := DeserializeItem(e, flat);
        if item.Err? { return item; }
        done := done + [item.value];
        count := count + 1;
      }
      DecItemsUnfold(Cfg(), e, flat, until, n - count, done, Data(), Pos());
      r := Ok(List(done + Repeat(Default(e), n - count)), offset - origin);
    }

    method DeserializeItem(e: Type, flat: bool) returns (r: Result<Value>)
      requires Valid()
      modifies `offset, `lastDataSize
      ensures Valid() && r == DecItem(Cfg(), e, flat, Data(), old(Pos())) && (r.Ok? ==> Pos() == r.end)
      decreases e, 3, 0
    {
      hide Stored, StreamOrder, CacheSound, DecItems, Decode;
      if flat && e.Arr? {
        r := DeserializeItems(e.elem, true, Open, e.size);
      } else {
        r := Deserialize(e);
      }
    }

    method DeserializeEntries(k: Type, e: Type, until: Limit, n: nat) returns (r: Result<Value>)
      requires Valid()
      modifies `offset, `lastDataSize
      ensures Valid() && r == DecEntries(Cfg(), k, e, until, n, [], [], Data(), old(Pos()))
      ensures r.Ok? ==> Pos() == r.end
      decreases Map(k, e), 0, 0
    {
      hide Stored, StreamOrder, CacheSound, DecEntries, Decode;
      var keys: seq<Value>, vals: seq<Value> := [], [];
      var count := 0;
      while count < n && !until.Reached(offset - origin)
        invariant count <= n && Valid()
        invariant DecEntries(Cfg(), k, e, until, n - count, keys, vals, Data(), Pos())
               == DecEntries(Cfg(), k, e, until, n, [], [], Data(), old(Pos()))
        decreases n - count
      {
        DecEntriesUnfold(Cfg(), k, e, until, n - count, keys, vals, Data(), Pos());
        var key := Deserialize(k);
        if key.Err? { return key; }
        var val := Deserialize(e);
        if val.Err? { return val; }
        if key.value !in keys {
          keys, vals := keys + [key.value], vals + [val.value];
        }
        count := count + 1;
      }
      DecEntriesUnfold(Cfg(), k, e, until, n - count, keys, vals, Data(), Pos());
      r := Ok(Table(keys, vals), offset - origin);
    }
  }

  /** What the encoder object leaves in the buffer, the decoder object reads back, up to the same position. */
  lemma ReadBack(cfg: Config, ty: Type, v: Value, buf: seq<Byte>, pos: nat, end: nat)
    requires Decodable(cfg, ty, v) && Holds(cfg, ty, v, buf, pos, end) && end - pos < TWO32
    ensures Decode(cfg, ty, buf, pos) == Ok(v, end)
  {
    hide Encode, Decode, At, Typed, Readable;
    EncodeFrame(cfg, ty, v, pos, buf, []);
    RoundTrip(cfg, ty, v, pos, buf, buf);
  }

  lemma DropThenSlice(s: seq<Byte>, o: nat, at: nat, n: nat)
    requires o + at + n <= |s|
    ensures s[o..][at..at + n] == s[o + at..o + at + n]
  {
  }

  /** A buffer that has room for the DHEADER of an empty vector, but not for its count: the encoder fails and stays
      behind the DHEADER. */
  method HeaderStaysBehind() returns (ok: bool, offset: nat)
    ensures !ok && offset == 4
  {
    hide Typed, Size, Holds, CacheSound, Delimited, PadLen, Agree;
    var buffer := new Byte[4];
    var cdr := new Cdr(XCDRv2(false), Little, Little, buffer, 4, 0);
    var ty, v := Seq(Seq(Prim(W1))), List([]);
    EmptyVectorSize(cdr.Cfg());
    ok := cdr.Serialize(ty, v);
    offset := cdr.offset;
  }

  lemma EmptyVectorSize(cfg: Config)
    requires cfg.version.XCDRv2?
    ensures Typed(Seq(Seq(Prim(W1))), List([])) && Size(cfg, Seq(Seq(Prim(W1))), List([]), 0) == 8
    ensures Delimited(cfg, Seq(Seq(Prim(W1)))) && PadLen(0, W4) == 0
  {
    assert EncItems(cfg, Seq(Prim(W1)), [], 0, 8, []) == [];
  }

  /** A flag is a byte without padding or byte order. */
  lemma FlagDecoded(cfg: Config, buf: seq<Byte>, pos: nat)
    ensures DecWord(cfg, W1, buf, pos) == if pos < |buf| then Ok([buf[pos]], pos + 1) else Err(NotEnoughMemory)
  {
    if pos < |buf| {
      assert Ordered(cfg, buf[pos..pos + 1]) == [buf[pos]];
    }
  }

  /** Padding left as it was, followed by the ordered bytes, is the encoding of a word. */
  lemma WordPlaced(cfg: Config, w: Width, raw: seq<Byte>, pos: nat, buf: seq<Byte>)
    requires |raw| == w.Bytes()
    requires var p := pos + PadLen(pos, AlignOf(cfg.version, w));
      p + |raw| <= |buf| && buf[p..p + |raw|] == Ordered(cfg, raw)
    ensures At(buf, pos, EncWord(cfg, w, raw, pos, buf))
  {
    var n := PadLen(pos, AlignOf(cfg.version, w));
    assert buf[pos..pos + n] == Pad(pos, n, buf);
    assert At(buf, pos, Pad(pos, n, buf));
    AtConcat(buf, pos, Pad(pos, n, buf), Ordered(cfg, raw));
  }

  lemma WordHolds(cfg: Config, w: Width, v: Value, buf: seq<Byte>, pos: nat)
    requires Typed(Prim(w), v)
    ensures Size(cfg, Prim(w), v, pos) == PadLen(pos, AlignOf(cfg.version, w)) + w.Bytes()
    ensures At(buf, pos, EncWord(cfg, w, v.raw, pos, buf)) ==>
      Holds(cfg, Prim(w), v, buf, pos, pos + PadLen(pos, AlignOf(cfg.version, w)) + w.Bytes())
  {
    hide PadLen, EncWord, At;
  }

  lemma OptionalSize(cfg: Config, e: Type, v: Value, pos: nat)
    requires Typed(Opt(e), v)
    ensures var mid := if cfg.version.Flagged() then pos + 1 else pos;
      pos + Size(cfg, Opt(e), v, pos) == if v.Present? then mid + Size(cfg, e, v.inner, mid) else mid
  {
    hide EncBody, EncWord, Delimited;
  }

  /** The presence flag, if the version has one, and the value. */
  lemma OptionalHolds(cfg: Config, e: Type, v: Value, p: seq<Byte>, q: seq<Byte>, pos: nat, mid: nat, end: nat)
    requires Typed(Opt(e), v) && Agree(p, q, 0, mid) && pos <= |q|
    requires mid == if cfg.version.Flagged() then pos + 1 else pos
    requires cfg.version.Flagged() ==> At(p, pos, EncWord(cfg, W1, [if v.Present? then 1 else 0], pos, p))
    requires if v.Present? then Holds(cfg, e, v.inner, q, mid, end) else end == mid
    ensures Holds(cfg, Opt(e), v, q, pos, end)
  {
    hide EncBody, At, Delimited;
    OptionalSize(cfg, e, v, pos);
    var flag: seq<Byte> := if cfg.version.Flagged() then [if v.Present? then 1 else 0] else [];
    FlagPlaced(cfg, flag, p, q, pos);
    if v.Present? {
      AtConcat(q, pos, flag, Encode(cfg, e, v.inner, mid, q));
    }
  }

  lemma FlagPlaced(cfg: Config, flag: seq<Byte>, p: seq<Byte>, q: seq<Byte>, pos: nat)
    requires |flag| <= 1 && pos <= |q| && Agree(p, q, 0, pos + |flag|)
    requires |flag| == 1 ==> At(p, pos, EncWord(cfg, W1, flag, pos, p))
    ensures At(q, pos, flag)
  {
    assert |flag| == 1 ==> EncWord(cfg, W1, flag, pos, p) == flag;
  }

  lemma HeaderNeedsNoPadding(pos: nat)
    ensures PadLen(pos + PadLen(pos, W4) + 4, W4) == 0
  {
    WordAligns(pos);
  }

  lemma CountPlaced(cfg: Config, n: nat, buf: seq<Byte>, pos: nat, end: nat)
    requires At(buf, pos, EncWord(cfg, W4, U32(cfg.host, n), pos, buf)) && end == pos + PadLen(pos, W4) + 4
    ensures HoldsWord(cfg, n, buf, pos, end)
  {
    hide EncWord, At, PadLen;
  }

  lemma NoItems(cfg: Config, e: Type, items: seq<Value>, buf: seq<Byte>, pos: nat)
    requires AllTyped(e, items) && pos <= |buf|
    ensures HoldsItems(cfg, e, items, 0, buf, pos, pos) && ItemsSize(cfg, e, items, 0, pos) == 0
  {
  }

  lemma NoEntries(cfg: Config, k: Type, e: Type, keys: seq<Value>, vals: seq<Value>, buf: seq<Byte>, pos: nat)
    requires |keys| == |vals| && AllTyped(k, keys) && AllTyped(e, vals) && pos <= |buf|
    ensures HoldsEntries(cfg, k, e, keys, vals, 0, buf, pos, pos) && EntriesSize(cfg, k, e, keys, vals, 0, pos) == 0
  {
  }
}
