/** Bytes, and 32-bit signed integers packed in either byte order (`struct.pack("!i", ...)`,
    numpy int32 views). */
module Bytes {

  type Byte = x: int | 0 <= x < 256

  const INT_LIMIT := 0x8000_0000

  predicate IsInt32(v: int)
  {
    -INT_LIMIT <= v < INT_LIMIT
  }

  /** Two's complement as an unsigned number. */
  function Unsigned(v: int): (u: int)
    requires IsInt32(v)
    ensures 0 <= u < 0x1_0000_0000
  {
    if v < 0 then v + 0x1_0000_0000 else v
  }

  function Digit(u: int): (b: Byte) { u % 0x100 }

  function PackInt(v: int, bigEndian: bool): (b: seq<Byte>)
    requires IsInt32(v)
    ensures |b| == 4
  {
    var u := Unsigned(v);
    var b0, b1, b2, b3 := Digit(u / 0x100 / 0x100 / 0x100), Digit(u / 0x100 / 0x100), Digit(u / 0x100), Digit(u);
    if bigEndian then [b0, b1, b2, b3] else [b3, b2, b1, b0]
  }

  function FromDigits(b0: int, b1: int, b2: int, b3: int): int
  {
    ((b0 * 0x100 + b1) * 0x100 + b2) * 0x100 + b3
  }

  function Signed(u: int): int
  {
    if u >= INT_LIMIT then u - 0x1_0000_0000 else u
  }

  function UnpackInt(b: seq<Byte>, bigEndian: bool): (v: int)
    requires |b| == 4
    ensures IsInt32(v)
  {
    Signed(if bigEndian then FromDigits(b[0], b[1], b[2], b[3]) else FromDigits(b[3], b[2], b[1], b[0]))
  }

  lemma SplitDigit(q: int, r: int)
    requires 0 <= r < 0x100
    ensures (q * 0x100 + r) / 0x100 == q && (q * 0x100 + r) % 0x100 == r
  {
  }

  lemma UnpackPack(v: int, bigEndian: bool)
    requires IsInt32(v)
    ensures UnpackInt(PackInt(v, bigEndian), bigEndian) == v
  {
    var u := Unsigned(v);
    var u1, u2, u3 := u / 0x100, u / 0x100 / 0x100, u / 0x100 / 0x100 / 0x100;
    assert u == u1 * 0x100 + Digit(u) && u1 == u2 * 0x100 + Digit(u1) && u2 == u3 * 0x100 + Digit(u2);
    assert u3 == Digit(u3);
    assert FromDigits(Digit(u3), Digit(u2), Digit(u1), Digit(u)) == u;
  }

  lemma PackUnpack(b: seq<Byte>, bigEndian: bool)
    requires |b| == 4
    ensures PackInt(UnpackInt(b, bigEndian), bigEndian) == b
  {
    if bigEndian {
      Redigit(b[0], b[1], b[2], b[3]);
    } else {
      Redigit(b[3], b[2], b[1], b[0]);
    }
  }

  lemma Redigit(b0: Byte, b1: Byte, b2: Byte, b3: Byte)
    ensures var u := FromDigits(b0, b1, b2, b3);
      && Unsigned(Signed(u)) == u
      && Digit(u) == b3 && Digit(u / 0x100) == b2 && Digit(u / 0x100 / 0x100) == b1 && Digit(u / 0x100 / 0x100 / 0x100) == b0
  {
    SplitDigit((b0 * 0x100 + b1) * 0x100 + b2, b3);
    SplitDigit(b0 * 0x100 + b1, b2);
    SplitDigit(b0, b1);
  }

  /** The digits written out: the most significant byte first, or last. */
  lemma PackIntDigits(v: int)
    requires IsInt32(v)
    ensures var b := PackInt(v, true);
      0x100_0000 * (b[0] as int) + 0x1_0000 * (b[1] as int) + 0x100 * (b[2] as int) + (b[3] as int) == if v < 0 then v + 0x1_0000_0000 else v
    ensures forall i :: 0 <= i < 4 ==> PackInt(v, false)[i] == PackInt(v, true)[3 - i]
  {
    UnpackPack(v, true);
  }
}
