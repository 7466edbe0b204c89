/** The size calculator as the source runs it: an alignment that advances, a mark that remembers a leading
    length word, loops over containers, and the sizing of members with their headers. */
module CdrSizeCalculator {
  import opened Basics
  import opened CdrSpec
  import opened CdrRoundTrip
  import opened CdrSize

  /** serialized_member_size_: whether a length that can be joined with NEXTINT comes first. */
  datatype Mark = NoMemberSize | MemberSize | MemberSize4 | MemberSize8

  datatype Encoding = PlainCdr | PlCdr | PlainCdr2 | DelimitCdr2 | PlCdr2

  function MarkOf(w: Width): Mark {
    match w case W1 => MemberSize case W2 => NoMemberSize case W4 => MemberSize4 case W8 => MemberSize8
  }

  /** The mark after sizing a value. Optionals and maps of scalars leave it to their parts. */
  function MarkAfter(version: Version, ty: Type, v: Value, mark: Mark): Mark
    requires Typed(ty, v)
    decreases ty, 0
  {
    if version.XCDRv1? then mark
    else
      match ty
      case Prim(_) => mark
      case Opt(e) => if v.Present? then MarkAfter(version, e, v.inner, mark) else mark
      case Seq(e) => if e.Prim? then MarkOf(e.width) else MemberSize
      case Arr(_, _) => if PrimArr(ty) then mark else MemberSize
      case Map(k, e) => if e.Prim? then MarkAfterKeys(version, k, v.keys, |v.keys|, mark) else MemberSize
  }

  function MarkAfterKeys(version: Version, k: Type, keys: seq<Value>, n: nat, mark: Mark): Mark
    requires n <= |keys| && AllTyped(k, keys)
    decreases k, 1, n
  {
    if n == 0 then mark else MarkAfter(version, k, keys[n - 1], MarkAfterKeys(version, k, keys, n - 1, mark))
  }

  // ---------------------------------------------------------------- members of constructed types

  /** CORBA_CDR and DDS_CDR lay data out as XCDRv1 does, but the member sizers tell them apart from it. */
  datatype CdrVersion = CorbaCdr | DdsCdr | Xcdr1 | Xcdr2

  datatype Sized = Sized(size: nat, current: nat)

  /** One call of a member sizer; `optional` selects the overload for optional members. */
  datatype MemberCall = MemberCall(id: nat, ty: Type, value: Value, optional: bool)

  ghost predicate ValidCall(c: MemberCall) {
    Typed(c.ty, c.value) && (c.optional ==> c.ty.Opt?)
  }

  /** Short or long XCDRv1 member header. */
  function HeaderV1(id: nat, size: nat): nat {
    if 0x3F00 < id || size > 0xFFFF then 12 else 4
  }

  /** The version together with the encoding in use, which decides about presence flags. */
  function Current(version: CdrVersion, enc: Encoding): Version {
    if version.Xcdr2? then XCDRv2(enc.PlCdr2?) else XCDRv1
  }

  function PlainMember(version: CdrVersion, enc: Encoding, mark: Mark, c: MemberCall, current: nat): Sized
    requires ValidCall(c)
  {
    var prev := if enc.PlCdr? || enc.PlCdr2? then PadLen(current, W4) else 0;
    var start := if enc.PlCdr? then 0 else current + prev;
    var size := CalcSize(Current(version, enc), c.ty, c.value, start);
    var extra :=
      if version.Xcdr2? && enc.PlCdr2? && 0 < size then (if 8 < size then 8 else 4)
      else if version.Xcdr1? && enc.PlCdr? && 0 < size then HeaderV1(c.id, size)
      else 0;
    var marked := MarkAfter(Current(version, enc), c.ty, c.value, mark) != NoMemberSize;
    var joined := if version.Xcdr2? && enc.PlCdr2? && 8 < size && marked then 4 else 0;
    Sized(size - joined + prev + extra, start + size + if enc.PlCdr? then 0 else extra)
  }

  function OptionalMember(version: CdrVersion, enc: Encoding, mark: Mark, c: MemberCall, current: nat): Sized
    requires ValidCall(c) && c.optional
  {
    var written := c.value.Present? || enc.PlainCdr?;
    var prev := if (!version.Xcdr2? || enc.PlCdr2?) && written then PadLen(current, W4) else 0;
    var start := if version.Xcdr1? && written then 0 else current + prev;
    var size := CalcSize(Current(version, enc), c.ty, c.value, start);
    var extra :=
      if version.Xcdr2? && enc.PlCdr2? && 0 < size then
        (if 8 < size && MarkAfter(Current(version, enc), c.ty, c.value, mark) == NoMemberSize then 8 else 4)
      else if version.Xcdr1? && (0 < size || enc.PlainCdr?) then HeaderV1(c.id, size)
      else 0;
    Sized(size + prev + extra, start + size + if version.Xcdr1? then 0 else extra)
  }

  function Member(version: CdrVersion, enc: Encoding, mark: Mark, c: MemberCall, current: nat): Sized
    requires ValidCall(c)
  {
    if c.optional then OptionalMember(version, enc, mark, c, current) else PlainMember(version, enc, mark, c, current)
  }

  /** The plain overload clears the mark; the one for optionals leaves it as the member set it. */
  function MarkAfterMember(version: CdrVersion, enc: Encoding, mark: Mark, c: MemberCall): Mark
    requires ValidCall(c)
  {
    if c.optional then MarkAfter(Current(version, enc), c.ty, c.value, mark) else NoMemberSize
  }

  /** A run of member calls: the sum of the returned sizes, and the alignment and mark they leave. */
  function Run(version: CdrVersion, enc: Encoding, mark: Mark, calls: seq<MemberCall>, total: nat,
               current: nat): (nat, nat, Mark)
    requires forall i :: 0 <= i < |calls| ==> ValidCall(calls[i])
    decreases |calls|
  {
    if calls == [] then (total, current, mark)
    else
      var m := Member(version, enc, mark, calls[0], current);
      Run(version, enc, MarkAfterMember(version, enc, mark, calls[0]), calls[1..], total + m.size, m.current)
  }

  predicate Congruent4(a: int, b: int) {
    (a - b) % 4 == 0
  }

  lemma PadMakesMultiple(n: nat) returns (q: nat)
    ensures n + PadLen(n, W4) == 4 * q
  {
    q := if n % 4 == 0 then n / 4 else n / 4 + 1;
    assert n == 4 * (n / 4) + n % 4;
  }

  lemma HeaderV1Words(id: nat, size: nat) returns (h: nat)
    ensures HeaderV1(id, size) == 4 * h
  {
    h := if 0x3F00 < id || size > 0xFFFF then 3 else 1;
  }

  /** One member keeps the size so far and the alignment congruent modulo 4, whatever the mark says. */
  lemma MemberKeepsCongruence(version: CdrVersion, enc: Encoding, mark: Mark, c: MemberCall, total: nat, current: nat)
    requires ValidCall(c) && Congruent4(total, current)
    ensures var m := Member(version, enc, mark, c, current); Congruent4(total + m.size, m.current)
  {
    hide ValidCall, PlainMember, OptionalMember;
    var k := (total - current) / 4;
    var m := Member(version, enc, mark, c, current);
    var j;
    if c.optional {
      j := OptionalShift(version, enc, mark, c, current);
    } else {
      j := PlainShift(version, enc, mark, c, current);
    }
    assert total + m.size - m.current == 4 * (k + j);
    Multiple4(k + j);
  }

  lemma PlainShift(version: CdrVersion, enc: Encoding, mark: Mark, c: MemberCall, current: nat) returns (j: int)
    requires ValidCall(c) && !c.optional
    ensures var m := PlainMember(version, enc, mark, c, current); current + m.size - m.current == 4 * j
  {
    hide CalcSize, MarkAfter, PadLen, HeaderV1;
    var q := PadMakesMultiple(current);
    var m := PlainMember(version, enc, mark, c, current);
    if enc.PlCdr? {
      var h := HeaderV1Words(c.id, CalcSize(Current(version, enc), c.ty, c.value, 0));
      j := if version.Xcdr1? && 0 < CalcSize(Current(version, enc), c.ty, c.value, 0) then q + h else q;
    } else {
      j := if m.size + current == m.current then 0 else -1;
    }
  }

  lemma OptionalShift(version: CdrVersion, enc: Encoding, mark: Mark, c: MemberCall, current: nat) returns (j: int)
    requires ValidCall(c) && c.optional
    ensures var m := OptionalMember(version, enc, mark, c, current); current + m.size - m.current == 4 * j
  {
    hide CalcSize, MarkAfter, PadLen, HeaderV1, AllTyped;
    var q := PadMakesMultiple(current);
    j := 0;
    if version.Xcdr1? {
      if c.value.Absent? { AbsentTakesNothing(Current(version, enc), c, current); }
      if c.value.Present? || enc.PlainCdr? {
        var h := HeaderV1Words(c.id, CalcSize(Current(version, enc), c.ty, c.value, 0));
        j := if 0 < CalcSize(Current(version, enc), c.ty, c.value, 0) || enc.PlainCdr? then q + h else q;
      }
    }
  }

  lemma AbsentTakesNothing(version: Version, c: MemberCall, current: nat)
    requires ValidCall(c) && c.optional && version.XCDRv1? && c.value.Absent?
    ensures CalcSize(version, c.ty, c.value, current) == 0
  {
  }

  /** Over any run of members the total and the alignment stay congruent modulo 4. */
  lemma {:induction false} RunKeepsCongruence(version: CdrVersion, enc: Encoding, mark: Mark, calls: seq<MemberCall>,
                                              total: nat, current: nat)
    requires forall i :: 0 <= i < |calls| ==> ValidCall(calls[i])
    requires Congruent4(total, current)
    ensures var r := Run(version, enc, mark, calls, total, current); Congruent4(r.0, r.1)
    decreases |calls|
  {
    hide Member, ValidCall, Congruent4;
    if calls != [] {
      var m := Member(version, enc, mark, calls[0], current);
      MemberKeepsCongruence(version, enc, mark, calls[0], total, current);
      RunKeepsCongruence(version, enc, MarkAfterMember(version, enc, mark, calls[0]), calls[1..], total + m.size,
          m.current);
    }
  }

  // ---------------------------------------------------------------- marks that outlive their member

  /** Sizing the value leaves the mark alone: scalars, arrays of them, empty optionals, and maps of scalars whose keys
      leave it alone. */
  predicate Keeps(ty: Type, v: Value)
    requires Typed(ty, v)
    decreases ty, 0
  {
    match ty
    case Prim(_) => true
    case Seq(_) => false
    case Arr(_, _) => PrimArr(ty)
    case Opt(e) => v.Present? ==> Keeps(e, v.inner)
    case Map(k, e) => e.Prim? && KeysKeep(k, v.keys, |v.keys|)
  }

  predicate KeysKeep(k: Type, keys: seq<Value>, n: nat)
    requires n <= |keys| && AllTyped(k, keys)
    decreases k, 1, n
  {
    n > 0 ==> KeysKeep(k, keys, n - 1) && Keeps(k, keys[n - 1])
  }

  /** Sizing the value leaves a mark: vectors but for those of 16-bit scalars, and all that is delimited. In a map of
      scalars the last key that does not keep the mark decides. */
  predicate Marks(ty: Type, v: Value)
    requires Typed(ty, v)
    decreases ty, 0
  {
    match ty
    case Prim(_) => false
    case Seq(e) => !e.Prim? || !e.width.W2?
    case Arr(_, _) => !PrimArr(ty)
    case Opt(e) => v.Present? && Marks(e, v.inner)
    case Map(k, e) => !e.Prim? || KeysMark(k, v.keys, |v.keys|)
  }

  predicate KeysMark(k: Type, keys: seq<Value>, n: nat)
    requires n <= |keys| && AllTyped(k, keys)
    decreases k, 1, n
  {
    0 < n && (Marks(k, keys[n - 1]) || (Keeps(k, keys[n - 1]) && KeysMark(k, keys, n - 1)))
  }

  /** What sizing a value does to the mark, in terms of the value alone. */
  lemma {:induction false} MarkAfterValue(version: Version, ty: Type, v: Value, mark: Mark)
    requires version.XCDRv2? && Typed(ty, v)
    ensures Keeps(ty, v) ==> MarkAfter(version, ty, v, mark) == mark && !Marks(ty, v)
    ensures !Keeps(ty, v) ==> (MarkAfter(version, ty, v, mark) != NoMemberSize <==> Marks(ty, v))
    decreases ty, 0
  {
    match ty
    case Opt(e) => if v.Present? { MarkAfterValue(version, e, v.inner, mark); }
    case Map(k, e) => if e.Prim? { MarkAfterAllKeys(version, k, v.keys, |v.keys|, mark); }
    case _ =>
  }

  lemma {:induction false} MarkAfterAllKeys(version: Version, k: Type, keys: seq<Value>, n: nat, mark: Mark)
    requires version.XCDRv2? && n <= |keys| && AllTyped(k, keys)
    ensures KeysKeep(k, keys, n) ==> MarkAfterKeys(version, k, keys, n, mark) == mark && !KeysMark(k, keys, n)
    ensures !KeysKeep(k, keys, n) ==> (MarkAfterKeys(version, k, keys, n, mark) != NoMemberSize
      <==> KeysMark(k, keys, n))
    decreases k, 1, n
  {
    hide MarkAfter, Keeps, Marks, Typed;
    if n > 0 {
      MarkAfterAllKeys(version, k, keys, n - 1, mark);
      MarkAfterValue(version, k, keys[n - 1], MarkAfterKeys(version, k, keys, n - 1, mark));
    }
  }

  /** The members that a stale mark can hit: longer than 8 bytes, in a PL_CDR2 type, and keeping the mark. */
  predicate Exposed(version: CdrVersion, enc: Encoding, c: MemberCall, current: nat)
    requires ValidCall(c)
  {
    && version.Xcdr2? && enc.PlCdr2? && Keeps(c.ty, c.value)
    && 8 < CalcSize(Current(version, enc), c.ty, c.value, current + PadLen(current, W4))
  }

  /** A mark left by an earlier member takes 4 bytes off the size of exactly the exposed members, and off the alignment
      after them when they are optionals. */
  lemma StaleMark(version: CdrVersion, enc: Encoding, stale: Mark, c: MemberCall, current: nat)
    requires ValidCall(c)
    ensures var clean := Member(version, enc, NoMemberSize, c, current);
      var m := Member(version, enc, stale, c, current);
      var short := if stale != NoMemberSize && Exposed(version, enc, c, current) then 4 else 0;
      && clean.size == m.size + short
      && clean.current == m.current + if c.optional then short else 0
  {
    hide Member, ValidCall, Exposed;
    if c.optional {
      StaleOptional(version, enc, stale, c, current);
    } else {
      StalePlain(version, enc, stale, c, current);
    }
  }

  lemma StalePlain(version: CdrVersion, enc: Encoding, stale: Mark, c: MemberCall, current: nat)
    requires ValidCall(c) && !c.optional
    ensures var clean := Member(version, enc, NoMemberSize, c, current);
      var m := Member(version, enc, stale, c, current);
      && clean.size == m.size + (if stale != NoMemberSize && Exposed(version, enc, c, current) then 4 else 0)
      && clean.current == m.current
  {
    hide CalcSize, MarkAfter, Typed, PadLen, Keeps, Marks;
    if version.Xcdr2? {
      MarkAfterValue(Current(version, enc), c.ty, c.value, stale);
      MarkAfterValue(Current(version, enc), c.ty, c.value, NoMemberSize);
    }
  }

  lemma StaleOptional(version: CdrVersion, enc: Encoding, stale: Mark, c: MemberCall, current: nat)
    requires ValidCall(c) && c.optional
    ensures var clean := Member(version, enc, NoMemberSize, c, current);
      var m := Member(version, enc, stale, c, current);
      var short := if stale != NoMemberSize && Exposed(version, enc, c, current) then 4 else 0;
      clean.size == m.size + short && clean.current == m.current + short
  {
    hide CalcSize, MarkAfter, Typed, PadLen, Keeps, Marks;
    if version.Xcdr2? && enc.PlCdr2? {
      MarkAfterValue(XCDRv2(true), c.ty, c.value, stale);
      MarkAfterValue(XCDRv2(true), c.ty, c.value, NoMemberSize);
      BlankOptional(c, current);
      BlankOptional(c, current + PadLen(current, W4));
    }
  }

  lemma BlankOptional(c: MemberCall, current: nat)
    requires ValidCall(c) && c.optional
    ensures c.value.Absent? || c.value.Present?
    ensures c.value.Absent? ==> CalcSize(XCDRv2(true), c.ty, c.value, current) == 0
  {
  }

  /** The optional at `j` leaves a mark, and every member from there to `i` is an optional that keeps it. */
  ghost predicate MarkReaches(calls: seq<MemberCall>, j: nat, i: nat)
    requires AllValid(calls)
  {
    && j < i <= |calls| && calls[j].optional && Marks(calls[j].ty, calls[j].value)
    && forall l :: j < l < i ==> calls[l].optional && Keeps(calls[l].ty, calls[l].value)
  }

  ghost predicate Reached(calls: seq<MemberCall>, i: nat)
    requires AllValid(calls)
  {
    exists j: nat :: MarkReaches(calls, j, i)
  }

  ghost predicate AllValid(calls: seq<MemberCall>) {
    forall i :: 0 <= i < |calls| ==> ValidCall(calls[i])
  }

  /** One more call at the end of a run. */
  lemma {:induction false} RunAppend(version: CdrVersion, enc: Encoding, mark: Mark, calls: seq<MemberCall>,
                                     c: MemberCall, total: nat, current: nat)
    requires AllValid(calls) && ValidCall(c) && AllValid(calls + [c])
    ensures var r := Run(version, enc, mark, calls, total, current);
      var m := Member(version, enc, r.2, c, r.1);
      Run(version, enc, mark, calls + [c], total, current) == (r.0 + m.size, m.current, MarkAfterMember(version, enc,
          r.2, c))
    decreases |calls|
  {
    hide Member, ValidCall, MarkAfterMember;
    if calls == [] {
      assert (calls + [c])[1..] == [];
    } else {
      var m := Member(version, enc, mark, calls[0], current);
      assert (calls + [c])[1..] == calls[1..] + [c];
      RunAppend(version, enc, MarkAfterMember(version, enc, mark, calls[0]), calls[1..], c, total + m.size, m.current);
    }
  }

  /** After `i` members of a type a mark is set if and only if an optional before them left one that reaches there. */
  lemma {:induction false} MarkOfRun(version: CdrVersion, enc: Encoding, calls: seq<MemberCall>, i: nat, current: nat)
    requires version.Xcdr2? && AllValid(calls) && i <= |calls|
    ensures AllValid(calls[..i])
    ensures Run(version, enc, NoMemberSize, calls[..i], 0, current).2 != NoMemberSize <==> Reached(calls, i)
    decreases i
  {
    hide Member, ValidCall, MarkAfter, Keeps, Marks, Typed;
    if i > 0 {
      var c := calls[i - 1];
      var before := Run(version, enc, NoMemberSize, calls[..i - 1], 0, current);
      MarkOfRun(version, enc, calls, i - 1, current);
      assert calls[..i] == calls[..i - 1] + [c];
      RunAppend(version, enc, NoMemberSize, calls[..i - 1], c, 0, current);
      CallTyped(c);
      MarkAfterValue(Current(version, enc), c.ty, c.value, before.2);
      ReachStep(calls, i);
    }
  }

  lemma CallTyped(c: MemberCall)
    requires ValidCall(c)
    ensures Typed(c.ty, c.value)
  {
  }

  /** A mark reaches one member further when that is an optional that keeps it, or sets one itself. */
  lemma ReachStep(calls: seq<MemberCall>, i: nat)
    requires AllValid(calls) && 0 < i <= |calls|
    ensures Typed(calls[i - 1].ty, calls[i - 1].value)
    ensures var c := calls[i - 1];
      Reached(calls, i) <==> c.optional && (Marks(c.ty, c.value) || (Keeps(c.ty, c.value) && Reached(calls, i - 1)))
  {
    hide ValidCall, Keeps, Marks, Typed;
    var c := calls[i - 1];
    CallTyped(c);
    if c.optional && Marks(c.ty, c.value) {
      assert MarkReaches(calls, i - 1, i);
    } else if c.optional && Keeps(c.ty, c.value) && Reached(calls, i - 1) {
      var j: nat :| MarkReaches(calls, j, i - 1);
      assert MarkReaches(calls, j, i);
    }
    if Reached(calls, i) {
      var j: nat :| MarkReaches(calls, j, i);
      if j < i - 1 { assert MarkReaches(calls, j, i - 1); }
    }
  }

  /** In the members of a type, exactly these come out 4 bytes short: the exposed ones that a mark reaches. */
  lemma ShortMembers(version: CdrVersion, enc: Encoding, calls: seq<MemberCall>, i: nat, current: nat)
    requires AllValid(calls) && i < |calls|
    ensures AllValid(calls[..i])
    ensures var r := Run(version, enc, NoMemberSize, calls[..i], 0, current);
      var clean := Member(version, enc, NoMemberSize, calls[i], r.1);
      var m := Member(version, enc, r.2, calls[i], r.1);
      var short := if Exposed(version, enc, calls[i], r.1) && Reached(calls, i) then 4 else 0;
      && clean.size == m.size + short
      && clean.current == m.current + if calls[i].optional then short else 0
  {
    hide Member, ValidCall, Keeps, Marks, CalcSize, MarkReaches;
    var r := Run(version, enc, NoMemberSize, calls[..i], 0, current);
    StaleMark(version, enc, r.2, calls[i], r.1);
    if version.Xcdr2? { MarkOfRun(version, enc, calls, i, current); }
  }

  /** An array of three 32-bit scalars after an optional vector of them is sized 4 bytes short. */
  lemma StaleMarkExample(v: Value, fixed: Value)
    requires Typed(Seq(Prim(W4)), v) && Typed(Arr(Prim(W4), 3), fixed)
    ensures var optional := MemberCall(0, Opt(Seq(Prim(W4))), Present(v), true);
      var plain := MemberCall(1, Arr(Prim(W4), 3), fixed, false);
      var stale := MarkAfterMember(Xcdr2, PlCdr2, NoMemberSize, optional);
      && ValidCall(optional) && ValidCall(plain)
      && Member(Xcdr2, PlCdr2, stale, plain, 0).size == 16
      && Member(Xcdr2, PlCdr2, NoMemberSize, plain, 0).size == 20
  {
    assert CalcSize(XCDRv2(true), Arr(Prim(W4), 3), fixed, 0) == 12;
  }

  /** As an optional member the same array is sized 4 bytes short and leaves the alignment 4 bytes short as well. */
  lemma StaleOptionalExample(v: Value, fixed: Value)
    requires Typed(Seq(Prim(W4)), v) && Typed(Arr(Prim(W4), 3), fixed)
    ensures var first := MemberCall(0, Opt(Seq(Prim(W4))), Present(v), true);
      var second := MemberCall(1, Opt(Arr(Prim(W4), 3)), Present(fixed), true);
      var stale := MarkAfterMember(Xcdr2, PlCdr2, NoMemberSize, first);
      && ValidCall(first) && ValidCall(second)
      && Member(Xcdr2, PlCdr2, stale, second, 0) == Sized(16, 16)
      && Member(Xcdr2, PlCdr2, NoMemberSize, second, 0) == Sized(20, 20)
  {
    assert CalcSize(XCDRv2(true), Arr(Prim(W4), 3), fixed, 0) == 12;
    assert CalcSize(XCDRv2(true), Opt(Arr(Prim(W4), 3)), Present(fixed), 0) == 12;
  }

  // ---------------------------------------------------------------- sizing does not depend on whole words before it

  /** A shift that the widest alignment of the version cannot see. */
  function Shift(version: Version, k: nat): nat {
    if version.XCDRv1? then 8 * k else 4 * k
  }

  lemma PadOfShift(version: Version, a: nat, k: nat, w: Width)
    requires w.W8? ==> version.XCDRv1?
    ensures PadLen(a + Shift(version, k), w) == PadLen(a, w)
  {
    var words := if version.XCDRv1? then 2 * k else k;
    match w
    case W1 =>
    case W2 => Shift2(a, 2 * words);
    case W4 => Shift4(a, words);
    case W8 => Shift8(a, k);
  }

  lemma {:induction false} SizeOfShift(version: Version, ty: Type, v: Value, a: nat, k: nat)
    requires Typed(ty, v)
    ensures CalcSize(version, ty, v, a + Shift(version, k)) == CalcSize(version, ty, v, a)
    decreases ty, 2, 0
  {
    hide CalcBody, PadLen, Shift, AllTyped;
    var b := a + Shift(version, k);
    match ty
    case Prim(w) => PadOfShift(version, a, k, AlignOf(version, w));
    case Opt(e) =>
      var flag := if version.Flagged() then 1 else 0;
      assert b + flag == a + flag + Shift(version, k);
      if v.Present? { SizeOfShift(version, e, v.inner, a + flag, k); }
    case _ =>
      PadOfShift(version, a, k, W4);
      var header := if Delimited(Config(version, false, Little), ty) then PadLen(a, W4) + 4 else 0;
      assert b + header == a + header + Shift(version, k);
      BodyOfShift(version, ty, v, a + header, k);
  }

  lemma {:induction false} BodyOfShift(version: Version, ty: Type, v: Value, a: nat, k: nat)
    requires (ty.Seq? || ty.Arr? || ty.Map?) && Typed(ty, v)
    ensures CalcBody(version, ty, v, a + Shift(version, k)) == CalcBody(version, ty, v, a)
    decreases ty, 1, 0
  {
    hide CalcItems, CalcEntries, PadLen, Shift, AllTyped;
    TypedParts(ty, v);
    PadOfShift(version, a, k, W4);
    var p := a + PadLen(a, W4) + 4;
    assert a + Shift(version, k) + (PadLen(a, W4) + 4) == p + Shift(version, k);
    match ty
    case Arr(e, n) => ItemsOfShift(version, e, v.items, n, a, k);
    case Seq(e) => ItemsOfShift(version, e, v.items, |v.items|, p, k);
    case Map(key, e) => EntriesOfShift(version, key, e, v.keys, v.vals, |v.keys|, p, k);
  }

  lemma {:induction false} ItemsOfShift(version: Version, e: Type, items: seq<Value>, n: nat, a: nat, k: nat)
    requires n <= |items| && AllTyped(e, items)
    ensures CalcItems(version, e, items, n, a + Shift(version, k)) == CalcItems(version, e, items, n, a)
    decreases e, 4, n
  {
    hide CalcItem, PadLen, Shift, Typed, Bulk, BulkBytes, BulkWidth;
    if Bulk(e) {
      PadOfShift(version, a, k, AlignOf(version, BulkWidth(e)));
    } else if n > 0 {
      ItemsOfShift(version, e, items, n - 1, a, k);
      var front := CalcItems(version, e, items, n - 1, a);
      assert a + Shift(version, k) + front == a + front + Shift(version, k);
      ItemOfShift(version, e, items[n - 1], a + front, k);
    }
  }

  lemma {:induction false} ItemOfShift(version: Version, e: Type, v: Value, a: nat, k: nat)
    requires Typed(e, v)
    ensures CalcItem(version, e, v, a + Shift(version, k)) == CalcItem(version, e, v, a)
    decreases e, 3, 0
  {
    hide CalcItems, CalcSize, Shift;
    if e.Arr? {
      TypedParts(e, v);
      ItemsOfShift(version, e.elem, v.items, e.size, a, k);
    } else {
      SizeOfShift(version, e, v, a, k);
    }
  }

  lemma {:induction false} EntriesOfShift(version: Version, key: Type, e: Type, keys: seq<Value>, vals: seq<Value>,
                                          n: nat, a: nat, k: nat)
    requires n <= |keys| == |vals| && AllTyped(key, keys) && AllTyped(e, vals)
    ensures CalcEntries(version, key, e, keys, vals, n, a + Shift(version, k))
      == CalcEntries(version, key, e, keys, vals, n, a)
    decreases Map(key, e), 0, n
  {
    hide CalcSize, CalcEntries, PadLen, Shift, Typed;
    CalcEntriesStep(version, key, e, keys, vals, n, a);
    CalcEntriesStep(version, key, e, keys, vals, n, a + Shift(version, k));
    if n > 0 {
      EntriesOfShift(version, key, e, keys, vals, n - 1, a, k);
      var b := a + Shift(version, k);
      var front := CalcEntries(version, key, e, keys, vals, n - 1, a);
      assert b + front == a + front + Shift(version, k);
      SizeOfShift(version, key, keys[n - 1], a + front, k);
      var ks := CalcSize(version, key, keys[n - 1], a + front);
      assert b + front + ks == a + front + ks + Shift(version, k);
      SizeOfShift(version, e, vals[n - 1], a + front + ks, k);
    }
  }

  /** Sizing a payload before its XCDRv2 header is sound: whole words before it leave the size unchanged, so it is
      what the encoder writes wherever the payload finally starts. */
  lemma PayloadBeforeHeader(cfg: Config, ty: Type, v: Value, cur: nat, words: nat, pre: seq<Byte>)
    requires cfg.version.XCDRv2? && Typed(ty, v)
    ensures CalcSize(cfg.version, ty, v, cur) == |Encode(cfg, ty, v, cur + 4 * words, pre)|
  {
    hide CalcSize, Encode, Typed;
    SizeOfShift(cfg.version, ty, v, cur, words);
    SizeAgreesV2(cfg, ty, v, cur + 4 * words, pre);
  }

  // ---------------------------------------------------------------- what the marks cost a whole type

  /** The sizes of the first `n` members, each sized with a clear mark. */
  function CleanRun(version: CdrVersion, enc: Encoding, calls: seq<MemberCall>, n: nat, current: nat): Sized
    requires AllValid(calls) && n <= |calls|
    decreases n
  {
    if n == 0 then Sized(0, current)
    else
      var front := CleanRun(version, enc, calls, n - 1, current);
      var m := Member(version, enc, NoMemberSize, calls[n - 1], front.current);
      Sized(front.size + m.size, m.current)
  }

  /** The member is exposed where the run reaches it, and a mark reaches it too. */
  ghost predicate IsShort(version: CdrVersion, enc: Encoding, calls: seq<MemberCall>, i: nat, current: nat)
    requires AllValid(calls) && i < |calls|
  {
    Exposed(version, enc, calls[i], Run(version, enc, NoMemberSize, calls[..i], 0, current).1) && Reached(calls, i)
  }

  /** The short ones among the first `n` members, or the short optionals among them. */
  ghost function Shorts(version: CdrVersion, enc: Encoding, calls: seq<MemberCall>, n: nat, current: nat,
                        optionals: bool): nat
    requires AllValid(calls) && n <= |calls|
    decreases n
  {
    if n == 0 then 0
    else
      Shorts(version, enc, calls, n - 1, current, optionals)
      + Once(IsShort(version, enc, calls, n - 1, current) && (optionals ==> calls[n - 1].optional))
  }

  /** Whole words before a member of a PL_CDR2 type do not change its size. */
  lemma MemberOfShift(mark: Mark, c: MemberCall, current: nat, k: nat)
    requires ValidCall(c)
    ensures var m := Member(Xcdr2, PlCdr2, mark, c, current);
      Member(Xcdr2, PlCdr2, mark, c, current + 4 * k) == Sized(m.size, m.current + 4 * k)
  {
    hide PlainMember, OptionalMember, ValidCall;
    if c.optional { OptionalOfShift(mark, c, current, k); } else { PlainOfShift(mark, c, current, k); }
  }

  lemma PayloadOfShift(c: MemberCall, current: nat, k: nat)
    requires ValidCall(c)
    ensures PadLen(current + 4 * k, W4) == PadLen(current, W4)
    ensures var v := XCDRv2(true);
      && CalcSize(v, c.ty, c.value, current + 4 * k) == CalcSize(v, c.ty, c.value, current)
      && CalcSize(v, c.ty, c.value, current + 4 * k + PadLen(current, W4))
        == CalcSize(v, c.ty, c.value, current + PadLen(current, W4))
  {
    hide CalcSize, PadLen, Typed;
    var start := current + PadLen(current, W4);
    PadOfShift(XCDRv2(true), current, k, W4);
    SizeOfShift(XCDRv2(true), c.ty, c.value, current, k);
    SizeOfShift(XCDRv2(true), c.ty, c.value, start, k);
    assert current + 4 * k + PadLen(current, W4) == start + 4 * k;
  }

  lemma PlainOfShift(mark: Mark, c: MemberCall, current: nat, k: nat)
    requires ValidCall(c) && !c.optional
    ensures var m := PlainMember(Xcdr2, PlCdr2, mark, c, current);
      PlainMember(Xcdr2, PlCdr2, mark, c, current + 4 * k) == Sized(m.size, m.current + 4 * k)
  {
    hide CalcSize, MarkAfter, Typed, PadLen;
    PayloadOfShift(c, current, k);
  }

  lemma OptionalOfShift(mark: Mark, c: MemberCall, current: nat, k: nat)
    requires ValidCall(c) && c.optional
    ensures var m := OptionalMember(Xcdr2, PlCdr2, mark, c, current);
      OptionalMember(Xcdr2, PlCdr2, mark, c, current + 4 * k) == Sized(m.size, m.current + 4 * k)
  {
    hide CalcSize, MarkAfter, Typed, PadLen;
    PayloadOfShift(c, current, k);
  }

  /** Over the members of a type, stale marks take 4 bytes off the total for every short member, and 4 bytes off the
      alignment for every short optional, and nothing else. */
  lemma {:induction false} RunDeficit(version: CdrVersion, enc: Encoding, calls: seq<MemberCall>, n: nat, current: nat)
    requires AllValid(calls) && n <= |calls|
    ensures AllValid(calls[..n])
    ensures var r := Run(version, enc, NoMemberSize, calls[..n], 0, current);
      CleanRun(version, enc, calls, n, current)
        == Sized(r.0 + 4 * Shorts(version, enc, calls, n, current, false),
                 r.1 + 4 * Shorts(version, enc, calls, n, current, true))
    decreases n
  {
    hide Member, ValidCall, IsShort, MarkAfterMember, Run;
    if n == 0 {
      RunOfNone(version, enc, calls[..0], current);
    } else {
      var c := calls[n - 1];
      var r := Run(version, enc, NoMemberSize, calls[..n - 1], 0, current);
      RunDeficit(version, enc, calls, n - 1, current);
      assert calls[..n] == calls[..n - 1] + [c];
      RunAppend(version, enc, NoMemberSize, calls[..n - 1], c, 0, current);
      ShortStep(version, enc, calls, n - 1, current);
      CleanAhead(version, enc, calls, n - 1, current, r.1);
    }
  }

  lemma RunOfNone(version: CdrVersion, enc: Encoding, calls: seq<MemberCall>, current: nat)
    requires calls == []
    ensures Run(version, enc, NoMemberSize, calls, 0, current) == (0, current, NoMemberSize)
  {
  }

  /** A member sized where the clean run stands, ahead by the short optionals so far. */
  lemma CleanAhead(version: CdrVersion, enc: Encoding, calls: seq<MemberCall>, i: nat, current: nat, at: nat)
    requires AllValid(calls) && i < |calls|
    ensures ValidCall(calls[i])
    ensures var k := Shorts(version, enc, calls, i, current, true);
      var m := Member(version, enc, NoMemberSize, calls[i], at);
      Member(version, enc, NoMemberSize, calls[i], at + 4 * k) == Sized(m.size, m.current + 4 * k)
  {
    hide Member, ValidCall, Shorts;
    if version.Xcdr2? && enc.PlCdr2? {
      MemberOfShift(NoMemberSize, calls[i], at, Shorts(version, enc, calls, i, current, true));
    } else {
      NeverShort(version, enc, calls, i, current);
    }
  }

  lemma ShortStep(version: CdrVersion, enc: Encoding, calls: seq<MemberCall>, i: nat, current: nat)
    requires AllValid(calls) && i < |calls|
    ensures AllValid(calls[..i])
    ensures var r := Run(version, enc, NoMemberSize, calls[..i], 0, current);
      var clean := Member(version, enc, NoMemberSize, calls[i], r.1);
      var m := Member(version, enc, r.2, calls[i], r.1);
      && clean.size == m.size + 4 * Once(IsShort(version, enc, calls, i, current))
      && clean.current == m.current + 4 * Once(IsShort(version, enc, calls, i, current) && calls[i].optional)
  {
    hide Member, ValidCall, Exposed, Reached;
    ShortMembers(version, enc, calls, i, current);
  }

  lemma {:induction false} NeverShort(version: CdrVersion, enc: Encoding, calls: seq<MemberCall>, n: nat, current: nat)
    requires AllValid(calls) && n <= |calls| && !(version.Xcdr2? && enc.PlCdr2?)
    ensures Shorts(version, enc, calls, n, current, true) == 0
    decreases n
  {
    hide Keeps, CalcSize, Reached;
    if n > 0 { NeverShort(version, enc, calls, n - 1, current); }
  }

  // ---------------------------------------------------------------- what a member's size is made of

  /** The padding before a member's header, its payload, and its header. */
  datatype Parts = Parts(padding: nat, payload: nat, header: nat)

  function Total(p: Parts): nat { p.padding + p.payload + p.header }

  /** A header, or the place of an optional one in XCDRv1, starts on a multiple of 4. */
  predicate Padded(version: CdrVersion, enc: Encoding, c: MemberCall) {
    if c.optional then (if version.Xcdr2? then enc.PlCdr2? else true) && (c.value.Present? || enc.PlainCdr?)
    else enc.PlCdr? || enc.PlCdr2?
  }

  /** The payload of a parameter list is aligned from its own start. */
  predicate OwnOrigin(version: CdrVersion, enc: Encoding, c: MemberCall) {
    if c.optional then version.Xcdr1? && (c.value.Present? || enc.PlainCdr?) else enc.PlCdr?
  }

  /** XCDRv1 writes a header before every member of a parameter list that has bytes, and before every optional of
      plain CDR, present or not. */
  predicate HeaderV1Due(version: CdrVersion, enc: Encoding, c: MemberCall, payload: nat) {
    && version.Xcdr1?
    && if c.optional then 0 < payload || enc.PlainCdr? else enc.PlCdr? && 0 < payload
  }

  predicate HeaderV2Due(version: CdrVersion, enc: Encoding, payload: nat) {
    version.Xcdr2? && enc.PlCdr2? && 0 < payload
  }

  /** The parts of a member: an XCDRv1 header has 4 bytes as long as the id is at most 0x3F00 and the length fits 16
      bits, and 12 bytes otherwise; a PL_CDR2 header has 4 bytes up to a payload of 8 bytes, and a length word more
      above that, unless the payload starts with a length word that serves as well. */
  ghost predicate HasParts(version: CdrVersion, enc: Encoding, c: MemberCall, current: nat, p: Parts)
    requires ValidCall(c)
  {
    var layout := if version.Xcdr2? then XCDRv2(enc == PlCdr2) else XCDRv1;
    && p.padding == (if Padded(version, enc, c) then PadLen(current, W4) else 0)
    && p.payload == CalcSize(layout, c.ty, c.value, if OwnOrigin(version, enc, c) then 0 else current + p.padding)
    && (HeaderV1Due(version, enc, c, p.payload) ==>
          p.header == if c.id <= 0x3F00 && p.payload <= 0xFFFF then 4 else 12)
    && (HeaderV2Due(version, enc, p.payload) ==>
          p.header == if p.payload <= 8 || Marks(c.ty, c.value) then 4 else 8)
    && (!HeaderV1Due(version, enc, c, p.payload) && !HeaderV2Due(version, enc, p.payload) ==> p.header == 0)
  }

  /** In every version and encoding, with a clear mark, a member is sized padding, header and payload. The alignment
      goes on from its end, or from the origin of its payload; a plain member counts the joined length word there. */
  lemma MemberParts(version: CdrVersion, enc: Encoding, c: MemberCall, current: nat, p: Parts)
    requires ValidCall(c) && HasParts(version, enc, c, current, p)
    ensures var m := Member(version, enc, NoMemberSize, c, current);
      && m.size == Total(p)
      && (OwnOrigin(version, enc, c) ==> m.current == p.payload)
      && (!OwnOrigin(version, enc, c) ==>
            m.current == current + Total(p)
              + (if !c.optional && HeaderV2Due(version, enc, p.payload) && 8 < p.payload && Marks(c.ty, c.value)
                 then 4 else 0))
  {
    hide CalcSize, MarkAfter, Typed, PadLen, Keeps, Marks;
    MarkWhenClear(version, enc, c);
    if c.optional { OptionalParts(version, enc, c, current, p); } else { PlainParts(version, enc, c, current, p); }
  }

  lemma MarkWhenClear(version: CdrVersion, enc: Encoding, c: MemberCall)
    requires ValidCall(c)
    ensures version.Xcdr2? ==>
      (MarkAfter(Current(version, enc), c.ty, c.value, NoMemberSize) != NoMemberSize <==> Marks(c.ty, c.value))
  {
    hide MarkAfter, Typed, Keeps, Marks;
    if version.Xcdr2? { MarkAfterValue(Current(version, enc), c.ty, c.value, NoMemberSize); }
  }

  lemma PlainParts(version: CdrVersion, enc: Encoding, c: MemberCall, current: nat, p: Parts)
    requires ValidCall(c) && !c.optional && HasParts(version, enc, c, current, p)
    requires version.Xcdr2? ==>
      (MarkAfter(Current(version, enc), c.ty, c.value, NoMemberSize) != NoMemberSize <==> Marks(c.ty, c.value))
    ensures var m := PlainMember(version, enc, NoMemberSize, c, current);
      && m.size == Total(p)
      && (enc.PlCdr? ==> m.current == p.payload)
      && (!enc.PlCdr? ==>
            m.current == current + Total(p)
              + (if HeaderV2Due(version, enc, p.payload) && 8 < p.payload && Marks(c.ty, c.value) then 4 else 0))
  {
    hide CalcSize, MarkAfter, Typed, PadLen, Keeps, Marks;
  }

  lemma OptionalParts(version: CdrVersion, enc: Encoding, c: MemberCall, current: nat, p: Parts)
    requires ValidCall(c) && c.optional && HasParts(version, enc, c, current, p)
    requires version.Xcdr2? ==>
      (MarkAfter(Current(version, enc), c.ty, c.value, NoMemberSize) != NoMemberSize <==> Marks(c.ty, c.value))
    ensures var m := OptionalMember(version, enc, NoMemberSize, c, current);
      && m.size == Total(p)
      && m.current == if OwnOrigin(version, enc, c) then p.payload else current + Total(p)
  {
    hide CalcSize, MarkAfter, Typed, PadLen, Keeps, Marks, ValidCall, AllTyped;
    CallTyped(c);
    match version {
      case Xcdr1 =>
        if OwnOrigin(Xcdr1, enc, c) {
          WrittenOptional(enc, c, current, p);
        } else {
          UnwrittenOptional(enc, c, current, p);
        }
      case Xcdr2 =>
        if enc.PlCdr2? && 0 < p.payload {
          assert p.payload == CalcSize(XCDRv2(true), c.ty, c.value, current + p.padding);
        }
      case _ =>
    }
  }

  lemma WrittenOptional(enc: Encoding, c: MemberCall, current: nat, p: Parts)
    requires ValidCall(c) && c.optional && HasParts(Xcdr1, enc, c, current, p) && OwnOrigin(Xcdr1, enc, c)
    ensures var m := OptionalMember(Xcdr1, enc, NoMemberSize, c, current);
      m.size == Total(p) && m.current == p.payload
  {
    hide CalcSize, MarkAfter, Typed, PadLen, Keeps, Marks, ValidCall, AllTyped;
    CallTyped(c);
    assert p.payload == CalcSize(XCDRv1, c.ty, c.value, 0);
  }

  lemma UnwrittenOptional(enc: Encoding, c: MemberCall, current: nat, p: Parts)
    requires ValidCall(c) && c.optional && HasParts(Xcdr1, enc, c, current, p) && !OwnOrigin(Xcdr1, enc, c)
    ensures var m := OptionalMember(Xcdr1, enc, NoMemberSize, c, current);
      m.size == Total(p) && m.current == current + Total(p)
  {
    hide HasParts, OptionalMember, ValidCall, OwnOrigin, Total;
    NothingWritten(enc, c, current);
    NoParts(enc, c, current, p);
  }

  lemma NothingWritten(enc: Encoding, c: MemberCall, current: nat)
    requires ValidCall(c) && c.optional && !OwnOrigin(Xcdr1, enc, c)
    ensures OptionalMember(Xcdr1, enc, NoMemberSize, c, current) == Sized(0, current)
  {
    hide CalcSize, MarkAfter, PadLen, ValidCall, HeaderV1;
    PresentOrAbsent(c);
    AbsentTakesNothing(XCDRv1, c, current);
  }

  lemma NoParts(enc: Encoding, c: MemberCall, current: nat, p: Parts)
    requires ValidCall(c) && c.optional && HasParts(Xcdr1, enc, c, current, p) && !OwnOrigin(Xcdr1, enc, c)
    ensures Total(p) == 0
  {
    hide CalcSize, PadLen, ValidCall, Marks;
    PresentOrAbsent(c);
    AbsentTakesNothing(XCDRv1, c, current);
  }

  lemma PresentOrAbsent(c: MemberCall)
    requires ValidCall(c) && c.optional
    ensures c.value.Present? || c.value.Absent?
  {
  }

  function Sum(parts: seq<Parts>): nat {
    if parts == [] then 0 else Sum(parts[..|parts| - 1]) + Total(parts[|parts| - 1])
  }

  /** The members have these parts, each at the alignment at which the run reaches it. */
  ghost predicate AllParts(version: CdrVersion, enc: Encoding, calls: seq<MemberCall>, parts: seq<Parts>, n: nat,
                           current: nat)
    requires AllValid(calls) && n <= |calls| == |parts|
  {
    forall i :: 0 <= i < n ==>
      HasParts(version, enc, calls[i], Run(version, enc, NoMemberSize, calls[..i], 0, current).1, parts[i])
  }

  /** The size of a whole type is the sum of its members' paddings, headers and payloads, less 4 bytes for every member
      that a stale mark makes short. */
  lemma {:induction false} RunOfParts(version: CdrVersion, enc: Encoding, calls: seq<MemberCall>, parts: seq<Parts>,
                                      n: nat, current: nat)
    requires AllValid(calls) && n <= |calls| == |parts| && AllParts(version, enc, calls, parts, n, current)
    ensures AllValid(calls[..n])
    ensures Run(version, enc, NoMemberSize, calls[..n], 0, current).0
          + 4 * Shorts(version, enc, calls, n, current, false) == Sum(parts[..n])
    decreases n
  {
    hide Member, ValidCall, IsShort, MarkAfterMember, HasParts, Run;
    if n == 0 {
      RunOfNone(version, enc, calls[..0], current);
    } else {
      var c := calls[n - 1];
      RunOfParts(version, enc, calls, parts, n - 1, current);
      assert calls[..n] == calls[..n - 1] + [c];
      RunAppend(version, enc, NoMemberSize, calls[..n - 1], c, 0, current);
      PartsStep(version, enc, calls, n - 1, current, parts[n - 1]);
      assert parts[..n][..n - 1] == parts[..n - 1];
    }
  }

  lemma PartsStep(version: CdrVersion, enc: Encoding, calls: seq<MemberCall>, i: nat, current: nat, p: Parts)
    requires AllValid(calls) && i < |calls|
    requires HasParts(version, enc, calls[i], Run(version, enc, NoMemberSize, calls[..i], 0, current).1, p)
    ensures AllValid(calls[..i])
    ensures var r := Run(version, enc, NoMemberSize, calls[..i], 0, current);
      Member(version, enc, r.2, calls[i], r.1).size + 4 * Once(IsShort(version, enc, calls, i, current)) == Total(p)
  {
    hide Member, ValidCall, IsShort, HasParts, OwnOrigin, HeaderV2Due, Marks, Run;
    ShortStep(version, enc, calls, i, current);
    MemberParts(version, enc, calls[i], Run(version, enc, NoMemberSize, calls[..i], 0, current).1, p);
  }

  /** A 32-bit member of a parameter list takes 8 bytes under a small id and 16 under a large one; as an optional of
      plain CDR it takes its header even when it is empty. */
  lemma HeaderExamples(v: Value)
    requires Typed(Prim(W4), v)
    ensures Member(Xcdr1, PlCdr, NoMemberSize, MemberCall(1, Prim(W4), v, false), 0) == Sized(8, 4)
    ensures Member(Xcdr1, PlCdr, NoMemberSize, MemberCall(0x3F01, Prim(W4), v, false), 0) == Sized(16, 4)
    ensures Member(Xcdr1, PlainCdr, NoMemberSize, MemberCall(1, Opt(Prim(W4)), Present(v), true), 0) == Sized(8, 4)
    ensures Member(Xcdr1, PlainCdr, NoMemberSize, MemberCall(1, Opt(Prim(W4)), Absent, true), 0) == Sized(4, 0)
  {
    assert CalcSize(XCDRv1, Opt(Prim(W4)), Present(v), 0) == 4;
  }

  // ---------------------------------------------------------------- the calculator object

  class SizeCalculator {
    const version: CdrVersion
    const encoding: Encoding
    var serializedMemberSize: Mark

    constructor (version: CdrVersion, encoding: Encoding)
      ensures this.version == version && this.encoding == encoding && serializedMemberSize == NoMemberSize
    {
      this.version := version;
      this.encoding := encoding;
      serializedMemberSize := NoMemberSize;
    }

    function Mode(): Version {
      Current(version, encoding)
    }

    method CalculateSerializedSize(ty: Type, v: Value, currentAlignment: nat) returns (size: nat, alignment: nat)
      requires Typed(ty, v)
      modifies this
      ensures size == CalcSize(Mode(), ty, v, currentAlignment)
      ensures alignment == currentAlignment + size
      ensures serializedMemberSize == MarkAfter(Mode(), ty, v, old(serializedMemberSize))
      decreases ty, 2, 0
    {
      hide CalcItems, CalcEntries, MarkAfterKeys, AllTyped;
      alignment := currentAlignment;
      match ty
      case Prim(w) =>
        size := PadLen(alignment, AlignOf(Mode(), w)) + w.Bytes();
        alignment := alignment + size;
      case Opt(e) =>
        if Mode().Flagged() { alignment := alignment + 1; }
        size := alignment - currentAlignment;
        if v.Present? {
          var inner;
          inner, alignment := CalculateSerializedSize(e, v.inner, alignment);
          size := size + inner;
        }
      case _ =>
        size, alignment := CalculateContainerSize(ty, v, alignment);
    }

    method CalculateContainerSize(ty: Type, v: Value, currentAlignment: nat) returns (size: nat, alignment: nat)
      requires (ty.Seq? || ty.Arr? || ty.Map?) && Typed(ty, v)
      modifies this
      ensures size == CalcSize(Mode(), ty, v, currentAlignment)
      ensures alignment == currentAlignment + size
      ensures serializedMemberSize == MarkAfter(Mode(), ty, v, old(serializedMemberSize))
      decreases ty, 1, 0
    {
      hide CalcItems, CalcEntries, PadLen;
      ghost var mark := serializedMemberSize;
      TypedParts(ty, v);
      alignment := currentAlignment;
      if Delimited(Config(Mode(), false, Little), ty) { alignment := alignment + 4 + PadLen(alignment, W4); }
      if !ty.Arr? { alignment := alignment + 4 + PadLen(alignment, W4); }
      size := alignment - currentAlignment;
      var items;
      if ty.Map? {
        items, alignment := CalculateEntriesSize(ty.key, ty.val, v.keys, v.vals, alignment);
      } else {
        items, alignment := CalculateArraySerializedSize(ty.elem, v.items, alignment);
      }
      size := size + items;
      if Mode().XCDRv2? {
        if Delimited(Config(Mode(), false, Little), ty) {
          serializedMemberSize := MemberSize;
        } else if ty.Seq? {
          serializedMemberSize := MarkOf(ty.elem.width);
        }
      }
    }

    method CalculateArraySerializedSize(e: Type, items: seq<Value>, currentAlignment: nat) returns (size: nat,
                                        alignment: nat)
      requires AllTyped(e, items)
      modifies this
      ensures size == CalcItems(Mode(), e, items, |items|, currentAlignment)
      ensures alignment == currentAlignment + size
      ensures Mode().XCDRv1? || Bulk(e) ==> serializedMemberSize == old(serializedMemberSize)
      decreases e, 4, 0
    {
      hide CalcSize, PadLen, Typed, MarkAfter;
      alignment := currentAlignment;
      if Bulk(e) {
        TimesIsProduct(|items|, BulkBytes(e));
        size := |items| * BulkBytes(e) + PadLen(alignment, AlignOf(Mode(), BulkWidth(e)));
        alignment := alignment + size;
        return;
      }
      size := 0;
      for count := 0 to |items|
        invariant size == CalcItems(Mode(), e, items, count, currentAlignment)
        invariant alignment == currentAlignment + size
        invariant Mode().XCDRv1? ==> serializedMemberSize == old(serializedMemberSize)
      {
        var one;
        one, alignment := CalculateElementSize(e, items[count], alignment);
        size := size + one;
      }
    }

    method CalculateElementSize(e: Type, v: Value, currentAlignment: nat) returns (size: nat, alignment: nat)
      requires Typed(e, v)
      modifies this
      ensures size == CalcItem(Mode(), e, v, currentAlignment)
      ensures alignment == currentAlignment + size
      ensures Mode().XCDRv1? ==> serializedMemberSize == old(serializedMemberSize)
      decreases e, 3, 0
    {
      if e.Arr? {
        size, alignment := CalculateArraySerializedSize(e.elem, v.items, currentAlignment);
      } else {
        size, alignment := CalculateSerializedSize(e, v, currentAlignment);
      }
    }

    method CalculateEntriesSize(k: Type, e: Type, keys: seq<Value>, vals: seq<Value>, currentAlignment: nat)
      returns (size: nat, alignment: nat)
      requires |keys| == |vals| && AllTyped(k, keys) && AllTyped(e, vals)
      modifies this
      ensures size == CalcEntries(Mode(), k, e, keys, vals, |keys|, currentAlignment)
      ensures alignment == currentAlignment + size
      ensures Mode().XCDRv1? ==> serializedMemberSize == old(serializedMemberSize)
      ensures Mode().XCDRv2? && e.Prim? ==>
        serializedMemberSize == MarkAfterKeys(Mode(), k, keys, |keys|, old(serializedMemberSize))
      decreases Map(k, e), 0, 0
    {
      hide CalcSize, CalcEntries, Typed;
      alignment := currentAlignment;
      size := 0;
      CalcEntriesStep(Mode(), k, e, keys, vals, 0, currentAlignment);
      for i := 0 to |keys|
        invariant size == CalcEntries(Mode(), k, e, keys, vals, i, currentAlignment)
        invariant alignment == currentAlignment + size
        invariant Mode().XCDRv1? ==> serializedMemberSize == old(serializedMemberSize)
        invariant Mode().XCDRv2? && e.Prim? ==>
          serializedMemberSize == MarkAfterKeys(Mode(), k, keys, i, old(serializedMemberSize))
      {
        CalcEntriesStep(Mode(), k, e, keys, vals, i + 1, currentAlignment);
        var one;
        one, alignment := CalculateSerializedSize(k, keys[i], alignment);
        size := size + one;
        one, alignment := CalculateSerializedSize(e, vals[i], alignment);
        size := size + one;
      }
    }

    method CalculateMemberSerializedSize(id: nat, ty: Type, v: Value, currentAlignment: nat) returns (size: nat,
                                         alignment: nat)
      requires Typed(ty, v)
      modifies this
      ensures Sized(size, alignment)
           == Member(version, encoding, old(serializedMemberSize), MemberCall(id, ty, v, false), currentAlignment)
      ensures serializedMemberSize == MarkAfterMember(version, encoding, old(serializedMemberSize), MemberCall(id,
          ty, v, false))
    {
      hide CalcSize, MarkAfter, PadLen;
      alignment := currentAlignment;
      if encoding.PlCdr? || encoding.PlCdr2? { alignment := alignment + PadLen(alignment, W4); }
      var prevSize := alignment - currentAlignment;
      var extraSize := 0;
      if encoding.PlCdr? { alignment := 0; }
      size, alignment := CalculateSerializedSize(ty, v, alignment);
      if version.Xcdr2? && encoding.PlCdr2? && 0 < size {
        if 8 < size {
          extraSize := 8;
          if serializedMemberSize != NoMemberSize { size := size - 4; }
        } else {
          extraSize := 4;
        }
      } else if version.Xcdr1? && encoding.PlCdr? && 0 < size {
        extraSize := 4;
        if 0x3F00 < id || size > 0xFFFF { extraSize := extraSize + 8; }
      }
      size := size + prevSize + extraSize;
      if !encoding.PlCdr? { alignment := alignment + extraSize; }
      serializedMemberSize := NoMemberSize;
    }

    method CalculateOptionalMemberSerializedSize(id: nat, ty: Type, v: Value, currentAlignment: nat)
      returns (size: nat, alignment: nat)
      requires ty.Opt? && Typed(ty, v)
      modifies this
      ensures Sized(size, alignment)
           == Member(version, encoding, old(serializedMemberSize), MemberCall(id, ty, v, true), currentAlignment)
      ensures serializedMemberSize == MarkAfterMember(version, encoding, old(serializedMemberSize), MemberCall(id,
          ty, v, true))
    {
      hide CalcSize, MarkAfter, PadLen;
      alignment := currentAlignment;
      if !version.Xcdr2? || encoding.PlCdr2? {
        if v.Present? || encoding.PlainCdr? { alignment := alignment + PadLen(alignment, W4); }
      }
      var prevSize := alignment - currentAlignment;
      var extraSize := 0;
      if version.Xcdr1? && (v.Present? || encoding.PlainCdr?) { alignment := 0; }
      size, alignment := CalculateSerializedSize(ty, v, alignment);
      if version.Xcdr2? && encoding.PlCdr2? && 0 < size {
        if 8 < size {
          extraSize := 8;
          if serializedMemberSize != NoMemberSize { extraSize := extraSize - 4; }
        } else {
          extraSize := 4;
        }
      } else if version.Xcdr1? && (0 < size || encoding.PlainCdr?) {
        extraSize := 4;
        if 0x3F00 < id || size > 0xFFFF { extraSize := extraSize + 8; }
      }
      size := size + prevSize + extraSize;
      if !version.Xcdr1? { alignment := alignment + extraSize; }
    }
  }
}
