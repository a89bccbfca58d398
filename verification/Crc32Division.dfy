/**
 CRC-32 is the complement of the remainder of a division too: by the generator of IEEE
 802.3, over the message with the bits of each byte lowest first and its first thirty-two
 complemented. The register is kept the other way about.
 */
module Crc32Division {
  import opened Bits
  import opened CrcDivision
  import Crc32

  function Mirrored(s: bits): (r: bits)
    ensures |r| == |s|
    ensures forall i :: 0 <= i < |s| ==> r[i] == s[|s| - 1 - i]
  {
    seq(|s|, i requires 0 <= i < |s| => s[|s| - 1 - i])
  }

  /** The message, each byte lowest bit first. */
  function BitsOf(bytes: seq<byte>): (r: bits)
    ensures |r| == 8 * |bytes|
  {
    if bytes == [] then [] else BitsOf(bytes[..|bytes| - 1]) + Mirrored(ToBits(bytes[|bytes| - 1], 8))
  }

  function Ones(): (r: bits)
    ensures |r| == 32 && forall i :: 0 <= i < 32 ==> r[i]
  {
    seq(32, _ => true)
  }

  function Poly(): (g: bits)
    ensures |g| == 32
  {
    Mirrored(Crc32.POLY)
  }

  /** The powers of the generator of IEEE 802.3 below the highest. */
  function Powers(): set<nat> {
    {26, 23, 22, 16, 12, 11, 10, 8, 7, 5, 4, 2, 1, 0}
  }

  lemma LowPower(k: nat)
    requires k < 16
    ensures Crc32.POLY[k] <==> k in Powers()
  {
  }

  lemma HighPower(k: nat)
    requires 16 <= k < 32
    ensures Crc32.POLY[k] <==> k in Powers()
  {
  }

  lemma OnePower(i: nat)
    requires i < 32
    ensures Poly()[i] <==> (31 - i) in Powers()
  {
    hide Powers, Mirrored;
    if i < 16 {
      HighPower(31 - i);
    } else {
      LowPower(31 - i);
    }
  }

  lemma Generator()
    ensures HasPowers(Poly(), Powers())
  {
    hide Powers, Mirrored, Poly;
    forall i | 0 <= i < 32
      ensures Poly()[i] <==> (31 - i) in Powers()
    {
      OnePower(i);
    }
  }

  lemma ShiftBit(m: Crc32.register, k: nat)
    requires k < 32
    ensures Crc32.Shift(m)[k] == ((k > 0 && m[k - 1]) != (m[31] && Crc32.POLY[k]))
  {
    ShiftedBit(Crc32.POLY, m, k);
  }

  lemma ShiftedBit(poly: bits, m: bits, k: nat)
    requires |poly| == |m| == 32 && k < 32
    ensures (if m[31] then Xor([false] + m[..31], poly) else [false] + m[..31])[k] == ((k > 0 && m[k - 1]) != (m[31] && poly[k]))
  {
  }

  /** One turn, seen the other way about: the lowest bit of the byte in hand is pushed. */
  lemma PushMixed(c: Crc32.register, rest: bits, bit: bool)
    requires |rest| < 32
    ensures Mirrored(Crc32.Shift(Xor(c, Zeros(31 - |rest|) + rest + [bit])))
         == Xor(Push(Poly(), Mirrored(c), bit), Mirrored(Zeros(32 - |rest|) + rest))
  {
    hide Crc32.Shift, Push;
    var z, y := Zeros(31 - |rest|) + rest + [bit], Zeros(32 - |rest|) + rest;
    var m := Xor(c, z);
    var l, r := Mirrored(Crc32.Shift(m)), Xor(Push(Poly(), Mirrored(c), bit), Mirrored(y));
    forall i | 0 <= i < 32
      ensures l[i] == r[i]
    {
      TurnBit(c, z, y, bit, i);
    }
  }

  lemma TurnBit(c: Crc32.register, z: bits, y: bits, bit: bool, i: nat)
    requires |z| == |y| == 32 && i < 32 && z[31] == bit && !y[0] && forall k :: 0 < k < 32 ==> z[k - 1] == y[k]
    ensures Mirrored(Crc32.Shift(Xor(c, z)))[i] == Xor(Push(Poly(), Mirrored(c), bit), Mirrored(y))[i]
  {
    hide Crc32.Shift, Push, Mirrored;
    var m, k := Xor(c, z), 31 - i;
    ShiftBit(m, k);
    PushBit(Poly(), Mirrored(c), bit, i);
    assert m[31] == (c[31] != bit) && Mirrored(c)[0] == c[31];
    assert k > 0 ==> m[k - 1] == (c[k - 1] != y[k]) && Mirrored(c)[i + 1] == c[k - 1];
  }

  /** One turn leaves the register with the bit pushed, and the rest of the byte in hand. */
  lemma TurnedOnce(c: Crc32.register, rest: bits, bit: bool) returns (d: Crc32.register)
    requires |rest| < 32
    ensures Mirrored(d) == Push(Poly(), Mirrored(c), bit)
    ensures Crc32.Shift(Xor(c, Zeros(31 - |rest|) + rest + [bit])) == Xor(d, Zeros(32 - |rest|) + rest)
  {
    hide Crc32.Shift, Push, Poly, Mirrored, Xor, Zeros;
    PushMixed(c, rest, bit);
    d := MirroredBack(Push(Poly(), Mirrored(c), bit));
    Unmirror(Crc32.Shift(Xor(c, Zeros(31 - |rest|) + rest + [bit])), d, Zeros(32 - |rest|) + rest, Push(Poly(), Mirrored(c), bit));
  }

  lemma SplitByte(s: bits)
    requires 0 < |s| <= 32
    ensures var n := |s| - 1;
            && Zeros(32 - |s|) + s == Zeros(31 - n) + s[..n] + [s[n]]
            && Mirrored(s)[0] == s[n] && Mirrored(s)[1..] == Mirrored(s[..n])
  {
  }

  lemma {:induction false} ShiftsPush(c: Crc32.register, s: bits)
    requires |s| <= 32
    ensures Mirrored(Crc32.Shifts(Xor(c, Zeros(32 - |s|) + s), |s|)) == PushAll(Poly(), Mirrored(c), Mirrored(s))
    decreases |s|
  {
    if s == [] {
      NothingInHand(c);
    } else {
      hide Crc32.Shift, Push, Poly, Mirrored, Xor, Zeros;
      var n := |s| - 1;
      SplitByte(s);
      var d := TurnedOnce(c, s[..n], s[n]);
      ShiftsPush(d, s[..n]);
    }
  }

  lemma NothingInHand(c: Crc32.register)
    ensures Mirrored(Crc32.Shifts(Xor(c, Zeros(32) + []), 0)) == PushAll(Poly(), Mirrored(c), Mirrored([]))
  {
    assert Xor(c, Zeros(32) + []) == c;
    assert Mirrored([]) == [];
  }

  function MirroredBack(r: bits): (d: Crc32.register)
    requires |r| == 32
    ensures Mirrored(d) == r
  {
    assert Mirrored(Mirrored(r)) == r;
    Mirrored(r)
  }

  lemma Unmirror(a: bits, d: bits, y: bits, r: bits)
    requires |a| == |d| == |y| == |r| && Mirrored(d) == r && Mirrored(a) == Xor(r, Mirrored(y))
    ensures a == Xor(d, y)
  {
    forall i | 0 <= i < |a|
      ensures a[i] == Xor(d, y)[i]
    {
      var k := |a| - 1 - i;
      assert Mirrored(a)[k] == a[i] && Mirrored(d)[k] == d[i] && Mirrored(y)[k] == y[i];
    }
  }

  lemma Eight(c: Crc32.register, s: bits)
    requires |s| == 8
    ensures Mirrored(Crc32.Shifts(Xor(c, Zeros(24) + s), |s|)) == PushAll(Poly(), Mirrored(c), Mirrored(s))
  {
    ShiftsPush(c, s);
  }

  lemma OneByte(c: Crc32.register, b: byte)
    ensures Mirrored(Crc32.Absorb(c, [b])) == PushAll(Poly(), Mirrored(c), Mirrored(ToBits(b, 8)))
  {
    hide Crc32.Shifts, PushAll, Poly;
    var next := Crc32.Shifts(Xor(c, Zeros(24) + ToBits(b, 8)), 8);
    assert [b][1..] == [];
    assert Crc32.Absorb(c, [b]) == Crc32.Absorb(next, []) == next;
    Eight(c, ToBits(b, 8));
  }

  lemma {:induction false} AbsorbIsPushed(c: Crc32.register, bytes: seq<byte>)
    ensures Mirrored(Crc32.Absorb(c, bytes)) == PushAll(Poly(), Mirrored(c), BitsOf(bytes))
    decreases |bytes|
  {
    hide Poly, Mirrored, PushAll, Crc32.Absorb;
    if bytes == [] {
      NothingAbsorbed(c);
    } else {
      var n := |bytes| - 1;
      var before, last := bytes[..n], bytes[n];
      AbsorbIsPushed(c, before);
      assert bytes == before + [last];
      Crc32.AbsorbAppend(c, before, [last]);
      OneByte(Crc32.Absorb(c, before), last);
      PushAllMore(Poly(), Mirrored(c), BitsOf(before), Mirrored(ToBits(last, 8)));
    }
  }

  lemma NothingAbsorbed(c: Crc32.register)
    ensures Mirrored(Crc32.Absorb(c, [])) == PushAll(Poly(), Mirrored(c), BitsOf([]))
  {
    hide Poly, Mirrored;
  }

  /** For every message: the generator has exactly these powers, and the checksum mirrored and complemented is the remainder. */
  lemma CrcIsRemainder(bytes: seq<byte>) returns (g: bits, q: bits)
    ensures |g| == 32 && HasPowers(g, Powers())
    ensures Divides(g, Ones(), BitsOf(bytes), q, Mirrored(Crc32.Not(Crc32.Update(Zeros(32), bytes))))
  {
    hide Divides, PushAll, HasPowers, Poly, Crc32.Absorb, Powers;
    Generator();
    var c := Crc32.Not(Zeros(32));
    AbsorbIsPushed(c, bytes);
    assert Mirrored(c) == Ones();
    Crc32.NotNot(Crc32.Absorb(c, bytes));
    g := Poly();
    q := PushAllDivides(g, Ones(), BitsOf(bytes));
  }
}
