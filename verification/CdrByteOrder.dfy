/** Byte order, by the numbers that bytes stand for. */
module CdrByteOrder {
  import opened CdrSpec

  /** The number that bytes stand for when the first one is the lowest. */
  function LowFirst(s: seq<Byte>): nat {
    if s == [] then 0 else s[0] as int + 256 * LowFirst(s[1..])
  }

  /** The number that bytes stand for when the first one is the highest. */
  function HighFirst(s: seq<Byte>): nat {
    if s == [] then 0 else 256 * HighFirst(s[..|s| - 1]) + s[|s| - 1] as int
  }

  function Number(order: Endianness, s: seq<Byte>): nat {
    match order case Little => LowFirst(s) case Big => HighFirst(s)
  }

  /** The order of the bytes in the stream. */
  function StreamOrder(cfg: Config): Endianness {
    match cfg.host case Little => (if cfg.swap then Big else Little) case Big => if cfg.swap then Little else Big
  }

  /** A number and a length leave no choice of bytes. */
  lemma {:induction false} NumberInjective(order: Endianness, s: seq<Byte>, t: seq<Byte>)
    requires |s| == |t| && Number(order, s) == Number(order, t)
    ensures s == t
    decreases |s|
  {
    if s != [] {
      if order.Little? {
        NumberInjective(order, s[1..], t[1..]);
        assert s == [s[0]] + s[1..] && t == [t[0]] + t[1..];
      } else {
        NumberInjective(order, s[..|s| - 1], t[..|t| - 1]);
        assert s == s[..|s| - 1] + [s[|s| - 1]] && t == t[..|t| - 1] + [t[|t| - 1]];
      }
    }
  }

  lemma {:induction false} ReversedNumber(s: seq<Byte>)
    ensures LowFirst(Reverse(s)) == HighFirst(s) && HighFirst(Reverse(s)) == LowFirst(s)
    decreases |s|
  {
    if s != [] {
      var r := Reverse(s);
      ReversedNumber(s[..|s| - 1]);
      ReversedNumber(s[1..]);
      assert r[1..] == Reverse(s[..|s| - 1]);
      assert r[..|s| - 1] == Reverse(s[1..]);
    }
  }

  /** Read in the order of the stream, ordered bytes are the number that they were on the host; and the other way
      round. */
  lemma OrderedNumber(cfg: Config, raw: seq<Byte>)
    ensures Number(StreamOrder(cfg), Ordered(cfg, raw)) == Number(cfg.host, raw)
    ensures Number(cfg.host, Ordered(cfg, raw)) == Number(StreamOrder(cfg), raw)
  {
    ReversedNumber(raw);
  }

  lemma FourBytes(s: seq<Byte>)
    requires |s| == 4
    ensures LowFirst(s) == s[0] as int + 256 * (s[1] as int + 256 * (s[2] as int + 256 * (s[3] as int)))
    ensures HighFirst(s) == s[3] as int + 256 * (s[2] as int + 256 * (s[1] as int + 256 * (s[0] as int)))
  {
    LowPair(s[2..]);
    LowPair(s[..2]);
    assert s[1..][1..] == s[2..];
    assert s[..3][..2] == s[..2];
  }

  lemma LowPair(s: seq<Byte>)
    requires |s| == 2
    ensures LowFirst(s) == s[0] as int + 256 * (s[1] as int) && HighFirst(s) == s[1] as int + 256 * (s[0] as int)
  {
    assert s[1..] == [s[1]] && s[..1] == [s[0]];
    OneByte(s[1]);
    OneByte(s[0]);
  }

  lemma OneByte(b: Byte)
    ensures LowFirst([b]) == HighFirst([b]) == b as int
  {
    assert [b][1..] == [] && [b][..0] == [];
  }

  /** A length is the number of its four bytes on the host, modulo 2^32. */
  lemma LengthNumber(host: Endianness, n: nat)
    ensures Number(host, U32(host, n)) == n % TWO32
  {
    FourBytes(U32(host, n));
    BytesOf(n);
  }

  lemma BytesOf(n: nat)
    ensures n % 256 + 256 * (n / 256 % 256 + 256 * (n / 256 / 256 % 256 + 256 * (n / 256 / 256 / 256 % 256)))
         == n % TWO32
  {
    var a, b, c := n / 256, n / 256 / 256, n / 256 / 256 / 256;
    var d := c / 256;
    assert n == 256 * a + n % 256 && a == 256 * b + a % 256 && b == 256 * c + b % 256 && c == 256 * d + c % 256;
    var low := n % 256 + 256 * (a % 256 + 256 * (b % 256 + 256 * (c % 256)));
    assert n == TWO32 * d + low;
  }

  lemma WordValue(host: Endianness, raw: seq<Byte>)
    requires |raw| == 4
    ensures Val32(host, raw) == Number(host, raw)
  {
    FourBytes(raw);
  }

  /** The bytes of a word are those of the length that it is read as. */
  lemma WordBytes(host: Endianness, raw: seq<Byte>)
    requires |raw| == 4
    ensures U32(host, Val32(host, raw)) == raw
  {
    hide U32, Number;
    WordValue(host, raw);
    LengthNumber(host, Val32(host, raw));
    NumberInjective(host, U32(host, Val32(host, raw)), raw);
  }

  // ---------------------------------------------------------------- words in a stream

  /** The last bytes of an encoded scalar, read in the order of the stream, are its number on the host. */
  lemma EncodedNumber(cfg: Config, w: Width, raw: seq<Byte>, pos: nat, pre: seq<Byte>)
    ensures var b := EncWord(cfg, w, raw, pos, pre);
      Number(StreamOrder(cfg), b[|b| - |raw|..]) == Number(cfg.host, raw)
  {
    hide Number, PadLen, Ordered;
    var b := EncWord(cfg, w, raw, pos, pre);
    OrderedNumber(cfg, raw);
    assert b[|b| - |raw|..] == Ordered(cfg, raw);
  }

  /** The last four bytes of an encoded length, read in the order of the stream, are that length modulo 2^32. */
  lemma EncodedLength(cfg: Config, n: nat, pos: nat, pre: seq<Byte>)
    ensures var b := Enc32(cfg, n, pos, pre); Number(StreamOrder(cfg), b[|b| - 4..]) == n % TWO32
  {
    hide Number, PadLen, U32;
    EncodedNumber(cfg, W4, U32(cfg.host, n), pos, pre);
    LengthNumber(cfg.host, n);
  }

  /** A decoded scalar is, on the host, the number that its bytes are in the order of the stream. */
  lemma DecodedNumber(cfg: Config, w: Width, buf: seq<Byte>, pos: nat)
    requires DecWord(cfg, w, buf, pos).Ok?
    ensures var r := DecWord(cfg, w, buf, pos);
      Number(cfg.host, r.value) == Number(StreamOrder(cfg), buf[r.end - w.Bytes()..r.end])
  {
    hide Number, PadLen, Ordered;
    var r := DecWord(cfg, w, buf, pos);
    OrderedNumber(cfg, buf[r.end - w.Bytes()..r.end]);
  }

  lemma DecodedLength(cfg: Config, buf: seq<Byte>, pos: nat)
    requires Dec32(cfg, buf, pos).Ok?
    ensures var r := Dec32(cfg, buf, pos); r.value == Number(StreamOrder(cfg), buf[r.end - 4..r.end])
  {
    hide Number, PadLen, Ordered, Val32;
    DecodedNumber(cfg, W4, buf, pos);
    WordValue(cfg.host, DecWord(cfg, W4, buf, pos).value);
  }

  /** A value written for one order is stored in that order, whatever the host's. */
  lemma OverrideOrder(version: Version, host: Endianness, order: Endianness)
    ensures StreamOrder(Config(version, order != host, host)) == order
  {
  }
}
