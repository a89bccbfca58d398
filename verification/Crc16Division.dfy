/** CRC-16/XMODEM is the remainder of the division by x^16 + x^12 + x^5 + 1. */
module Crc16Division {
  import opened Bits
  import opened CrcDivision
  import Crc16

  function BitsOf(bytes: seq<byte>): (r: bits)
    ensures |r| == 8 * |bytes|
  {
    if bytes == [] then [] else BitsOf(bytes[..|bytes| - 1]) + ToBits(bytes[|bytes| - 1], 8)
  }

  lemma Generator()
    ensures HasPowers(Crc16.POLY, {12, 5, 0})
  {
  }

  lemma ShiftBit(m: Crc16.register, i: nat)
    requires i < 16
    ensures Crc16.Shift(m)[i] == ((i + 1 < 16 && m[i + 1]) != (m[0] && Crc16.POLY[i]))
  {
  }

  /** One turn of the loop pushes the first bit of the byte in hand. */
  lemma PushMixed(c: Crc16.register, bit: bool, rest: bits)
    requires |rest| < 16
    ensures Crc16.Shift(Xor(c, [bit] + rest + Zeros(15 - |rest|))) == Xor(Push(Crc16.POLY, c, bit), rest + Zeros(16 - |rest|))
  {
    hide Crc16.Shift, Push;
    var z, y := [bit] + rest + Zeros(15 - |rest|), rest + Zeros(16 - |rest|);
    var l, r := Crc16.Shift(Xor(c, z)), Xor(Push(Crc16.POLY, c, bit), y);
    forall i | 0 <= i < 16
      ensures l[i] == r[i]
    {
      ShiftBit(Xor(c, z), i);
      PushBit(Crc16.POLY, c, bit, i);
      assert i + 1 < 16 ==> z[i + 1] == y[i];
    }
  }

  lemma {:induction false} ShiftsPush(c: Crc16.register, s: bits)
    requires |s| <= 16
    ensures Crc16.Shifts(Xor(c, s + Zeros(16 - |s|)), |s|) == PushAll(Crc16.POLY, c, s)
    decreases |s|
  {
    hide Crc16.Shift, Push;
    if s == [] {
      assert Xor(c, [] + Zeros(16)) == c;
    } else {
      var rest := s[1..];
      assert s + Zeros(16 - |s|) == [s[0]] + rest + Zeros(15 - |rest|);
      PushMixed(c, s[0], rest);
      ShiftsPush(Push(Crc16.POLY, c, s[0]), rest);
    }
  }

  lemma Eight(c: Crc16.register, s: bits)
    requires |s| == 8
    ensures Crc16.Shifts(Xor(c, s + Zeros(8)), |s|) == PushAll(Crc16.POLY, c, s)
  {
    ShiftsPush(c, s);
  }

  lemma OneByte(c: Crc16.register, b: byte)
    ensures Crc16.Absorb(c, [b]) == PushAll(Crc16.POLY, c, ToBits(b, 8))
  {
    hide Crc16.Shifts, PushAll;
    Crc16.AbsorbStep(c, [b]);
    assert [b][1..] == [];
    Eight(c, ToBits(b, 8));
  }

  lemma {:induction false} CrcIsPushed(bytes: seq<byte>)
    ensures Crc16.Crc(bytes) == PushAll(Crc16.POLY, Zeros(16), BitsOf(bytes))
  {
    hide PushAll, Crc16.Absorb;
    if bytes == [] {
      NothingPushed();
    } else {
      var n := |bytes| - 1;
      var before, last := bytes[..n], bytes[n];
      CrcIsPushed(before);
      assert bytes == before + [last];
      Crc16.AbsorbAppend(Zeros(16), before, [last]);
      OneByte(Crc16.Crc(before), last);
      PushAllMore(Crc16.POLY, Zeros(16), BitsOf(before), ToBits(last, 8));
    }
  }

  lemma NothingPushed()
    ensures Crc16.Crc([]) == Zeros(16) == PushAll(Crc16.POLY, Zeros(16), BitsOf([]))
  {
  }

  /** For every message: the generator has exactly these powers, and the checksum is the remainder. */
  lemma CrcIsRemainder(bytes: seq<byte>) returns (g: bits, q: bits)
    ensures |g| == 16 && HasPowers(g, {12, 5, 0})
    ensures Divides(g, Zeros(16), BitsOf(bytes), q, Crc16.Crc(bytes))
  {
    hide Divides, PushAll, HasPowers;
    Generator();
    CrcIsPushed(bytes);
    g := Crc16.POLY;
    q := PushAllDivides(g, Zeros(16), BitsOf(bytes));
  }
}
