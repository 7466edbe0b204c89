/** What the calculator's mark promises: that the first word of a member tells its length, so that it can serve as the
    NEXTINT of the member header. */
module CdrNextInt {
  import opened Basics
  import opened CdrSpec
  import opened CdrByteOrder
  import opened CdrRoundTrip
  import opened CdrSize
  import opened CdrSizeCalculator
  import opened CdrLayout

  /** What the word counts: bytes, 32-bit elements or 64-bit elements. */
  function Unit(mark: Mark): nat {
    match mark case NoMemberSize => 0 case MemberSize => 1 case MemberSize4 => 4 case MemberSize8 => 8
  }

  /** The bytes start with a word, and it counts the bytes after it. */
  ghost predicate Tells(cfg: Config, bytes: seq<Byte>, pos: nat, unit: nat) {
    exists rest :: |rest| < TWO32 && TellsOf(cfg, bytes, pos, unit, rest)
  }

  ghost predicate TellsOf(cfg: Config, bytes: seq<Byte>, pos: nat, unit: nat, rest: seq<Byte>) {
    var gap := Above(pos, 4) - pos;
    && gap + 4 <= |bytes| && rest == bytes[gap + 4..]
    && |rest| == Number(StreamOrder(cfg), bytes[gap..gap + 4]) * unit
  }

  /** The value starts with a word that tells its length: a vector, but for one of 16-bit scalars, or anything with a
      DHEADER. */
  predicate Led(ty: Type)
    decreases ty
  {
    match ty
    case Prim(_) => false
    case Seq(e) => e != Prim(W2)
    case Arr(_, _) => !Core(ty).Prim?
    case Map(_, e) => !e.Prim?
    case Opt(e) => Led(e)
  }

  /** No optional around the value is empty. */
  predicate Filled(ty: Type, v: Value)
    requires Typed(ty, v)
    decreases ty
  {
    ty.Opt? ==> v.Present? && Filled(ty.elem, v.inner)
  }

  lemma AnnouncedTells(cfg: Config, bytes: seq<Byte>, pos: nat, n: nat, unit: nat, rest: seq<Byte>)
    requires Announced(cfg, bytes, pos, n, rest) && |rest| == n * unit && |rest| < TWO32 && n < TWO32
    ensures Tells(cfg, bytes, pos, unit)
  {
    hide Number, Above;
    assert TellsOf(cfg, bytes, pos, unit, rest);
  }

  /** The elements of a vector of scalars whose sizes the marks know follow the count without padding. */
  lemma VectorTells(cfg: Config, w: Width, v: Value, pos: nat, pre: seq<Byte>)
    requires cfg.version.XCDRv2? && Typed(Seq(Prim(w)), v) && w != W2
    requires |Encode(cfg, Seq(Prim(w)), v, pos, pre)| < TWO32
    ensures Tells(cfg, Encode(cfg, Seq(Prim(w)), v, pos, pre), pos, Unit(MarkOf(w)))
  {
    hide Number, Encode, Row, AllTyped, Tells, Announced;
    var bytes, n, start := Encode(cfg, Seq(Prim(w)), v, pos, pre), |v.items|, Above(pos, 4) + 4;
    VectorOfScalars(cfg, w, v, pos, pre);
    var row := Row(cfg, Prim(w), v.items, start, pre);
    AnnouncedLength(cfg, bytes, pos, n, row);
    WordStarts(pos);
    AboveFrom(pos, 4);
    assert w.Bytes() == Unit(MarkOf(w));
    assert n <= n * w.Bytes();
    AnnouncedTells(cfg, bytes, pos, n, w.Bytes(), row);
  }

  /** In XCDRv2, what starts so leaves a mark when it is there, and the mark tells the truth. */
  lemma {:induction false} MarkTellsLength(cfg: Config, ty: Type, v: Value, mark: Mark, pos: nat, pre: seq<Byte>)
    requires cfg.version == XCDRv2(true) && Typed(ty, v) && Led(ty) && Filled(ty, v)
    requires |Encode(cfg, ty, v, pos, pre)| < TWO32
    ensures var after := MarkAfter(cfg.version, ty, v, mark);
      after != NoMemberSize && Tells(cfg, Encode(cfg, ty, v, pos, pre), pos, Unit(after))
    decreases ty
  {
    hide Number, Encode, Tells, Announced, Row, PairRow, Above, Leaves;
    var bytes := Encode(cfg, ty, v, pos, pre);
    AboveFrom(pos, 4);
    match ty
    case Opt(e) =>
      OptionalLayout(cfg, e, v, pos, pre);
      MarkTellsLength(cfg, e, v.inner, mark, pos, pre);
    case Seq(e) =>
      if e.Prim? {
        VectorTells(cfg, e.width, v, pos, pre);
      } else {
        VectorLayout(cfg, e, v, pos, pre);
        BodyTells(cfg, bytes, pos, bytes[Above(pos, 4) + 4 - pos..]);
      }
    case Arr(e, n) =>
      ScalarArrays(ty);
      ArrayLayout(cfg, e, n, v, pos, pre);
      BodyTells(cfg, bytes, pos, Row(cfg, Core(e), Leaves(e, v.items, n), Above(pos, 4) + 4, pre));
    case Map(k, e) =>
      MapLayout(cfg, k, e, v, pos, pre);
      BodyTells(cfg, bytes, pos, bytes[Above(pos, 4) + 4 - pos..]);
  }

  lemma BodyTells(cfg: Config, bytes: seq<Byte>, pos: nat, body: seq<Byte>)
    requires Announced(cfg, bytes, pos, |body|, body) && |bytes| < TWO32
    ensures Tells(cfg, bytes, pos, 1)
  {
    hide Number, Above, Tells, Announced;
    AnnouncedLength(cfg, bytes, pos, |body|, body);
    AboveFrom(pos, 4);
    AnnouncedTells(cfg, bytes, pos, |body|, 1, body);
  }

  /** The type below all optionals. */
  function Unwrapped(ty: Type): Type
    decreases ty
  {
    if ty.Opt? then Unwrapped(ty.elem) else ty
  }

  /** The mark of everything else but maps of scalars: a vector of 16-bit scalars takes it away, and empty optionals,
      scalars and arrays of them leave it as it is. */
  lemma {:induction false} MarkOtherwise(version: Version, ty: Type, v: Value, mark: Mark)
    requires version.XCDRv2? && Typed(ty, v) && !(Led(ty) && Filled(ty, v))
    requires !(Unwrapped(ty).Map? && Unwrapped(ty).val.Prim?)
    ensures MarkAfter(version, ty, v, mark)
         == if Unwrapped(ty) == Seq(Prim(W2)) && Filled(ty, v) then NoMemberSize else mark
    ensures Marks(ty, v) == false && (Keeps(ty, v) <==> !(Unwrapped(ty) == Seq(Prim(W2)) && Filled(ty, v)))
    decreases ty
  {
    match ty
    case Opt(e) => if v.Present? { MarkOtherwise(version, e, v.inner, mark); }
    case Arr(_, _) => ScalarArrays(ty);
    case _ =>
  }

  /** A map of scalars that a key marks is the only value that is marked without starting with its length. Such a map
      starts with the number of its entries, which tells nothing about its length; all the same a PL_CDR2
      member loses the 4 bytes of its NEXTINT, 14 instead of 18. */
  lemma MarkMisleads(cfg: Config, a: Byte, b: Byte)
    requires cfg.version == XCDRv2(true)
    ensures var ty, v := Map(Seq(Prim(W1)), Prim(W1)), Table([List([Word([a])])], [Word([b])]);
      && Typed(ty, v)
      && var bytes := Encode(cfg, ty, v, 0, []);
        && |bytes| == 10 && Number(StreamOrder(cfg), bytes[..4]) == 1
        && MarkAfter(cfg.version, ty, v, NoMemberSize) == MemberSize && !Tells(cfg, bytes, 0, Unit(MemberSize))
        && Member(Xcdr2, PlCdr2, NoMemberSize, MemberCall(1, ty, v, false), 0) == Sized(14, 18)
  {
    hide Number, Encode, Row, PairRow, CalcSize;
    var k, key, val := Seq(Prim(W1)), List([Word([a])]), Word([b]);
    var ty, v := Map(k, Prim(W1)), Table([key], [val]);
    OneByteKept(cfg, a, 0);
    OneByteKept(cfg, b, 9);
    assert Typed(Prim(W1), key.items[0]) && Typed(k, v.keys[0]) && Typed(Prim(W1), v.vals[0]);
    MapLayout(cfg, k, Prim(W1), v, 0, []);
    VectorOfScalars(cfg, W1, key, 4, []);
    PairRowUnfold(cfg, k, Prim(W1), v.keys, v.vals, 4, []);
    PairRowUnfold(cfg, k, Prim(W1), v.keys[1..], v.vals[1..], 10, []);
    SizeAgreesV2(cfg, ty, v, 0, []);
    assert MarkAfterKeys(cfg.version, k, v.keys, 1, NoMemberSize) == MemberSize;
  }
}
