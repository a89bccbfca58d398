/**
 CRC-16/XMODEM as the serial transport computes it: polynomial 0x1021, register
 initialised to zero, no reflection, no final exclusive or. The 16-bit register is
 held as its bits, so the mask applied after every shift is the register's length.
 */
module Crc16 {
  import opened Bits

  type register = r: bits | |r| == 16 witness Zeros(16)

  /** 0x1021 */
  const POLY: register :=
    [false, false, false, true, false, false, false, false,
     false, false, true, false, false, false, false, true]

  /** One turn of the bitwise loop. */
  function Shift(c: register): register {
    if c[0] then Xor(c[1..] + [false], POLY) else c[1..] + [false]
  }

  function Shifts(c: register, n: nat): register
    decreases n
  {
    if n == 0 then c else Shifts(Shift(c), n - 1)
  }

  /** The byte enters at the top of the register. */
  function Mix(c: register, b: byte): register {
    Xor(c, ToBits(b, 8) + Zeros(8))
  }

  /** The register after absorbing `bytes`, starting from `c`. */
  function Absorb(c: register, bytes: seq<byte>): register
    decreases bytes
  {
    if bytes == [] then c else Absorb(Shifts(Mix(c, bytes[0]), 8), bytes[1..])
  }

  function Crc(bytes: seq<byte>): register {
    Absorb(Zeros(16), bytes)
  }

  /** The register as two bytes, most significant first. */
  function Be(c: register): (r: seq<byte>)
    ensures |r| == 2
    ensures ToBits(r[0], 8) + ToBits(r[1], 8) == c
  {
    [ByteOf(c[..8]), ByteOf(c[8..])]
  }

  /** The bitwise loop over a register that already holds the next byte. */
  method Turn(mixed: register, turns: nat) returns (crc: register)
    ensures crc == Shifts(mixed, turns)
  {
    crc := mixed;
    for i := 0 to turns
      invariant Shifts(crc, turns - i) == Shifts(mixed, turns)
    {
      var carry := crc[0];
      crc := crc[1..] + [false];
      if carry {
        crc := Xor(crc, POLY);
      }
    }
  }

  /** The loop over the bytes, shared by the encoder and the decoder. */
  method Compute(bytes: seq<byte>) returns (crc: register)
    ensures crc == Crc(bytes)
  {
    crc := Zeros(16);
    for k := 0 to |bytes|
      invariant Absorb(crc, bytes[k..]) == Crc(bytes)
    {
      AbsorbStep(crc, bytes[k..]);
      assert bytes[k..][1..] == bytes[k + 1..];
      crc := Turn(Xor(crc, ToBits(bytes[k], 8) + Zeros(8)), 8);
    }
  }

  lemma AbsorbStep(c: register, bytes: seq<byte>)
    requires bytes != []
    ensures Absorb(c, bytes) == Absorb(Shifts(Mix(c, bytes[0]), 8), bytes[1..])
  {
  }

  // ----- the register as a linear map

  lemma ShiftLinear(a: register, b: register)
    ensures Shift(Xor(a, b)) == Xor(Shift(a), Shift(b))
  {
  }

  lemma {:induction false} ShiftsLinear(a: register, b: register, n: nat)
    ensures Shifts(Xor(a, b), n) == Xor(Shifts(a, n), Shifts(b, n))
    decreases n
  {
    if n > 0 {
      ShiftLinear(a, b);
      ShiftsLinear(Shift(a), Shift(b), n - 1);
    }
  }

  /** The polynomial ends in a one, so no turn loses information. */
  lemma ShiftKernel(c: register)
    ensures Shift(c) == Zeros(16) <==> c == Zeros(16)
  {
    if Shift(c) == Zeros(16) {
      assert Shift(c)[15] == c[0];
      assert forall i :: 0 <= i < 15 ==> Shift(c)[i] == c[i + 1];
      assert forall i :: 0 < i < 16 ==> c[i] == Shift(c)[i - 1];
    }
  }

  lemma {:induction false} ShiftsKernel(c: register, n: nat)
    ensures Shifts(c, n) == Zeros(16) <==> c == Zeros(16)
    decreases n
  {
    if n > 0 {
      ShiftKernel(c);
      ShiftsKernel(Shift(c), n - 1);
    }
  }

  lemma {:induction false} ShiftsAdd(c: register, m: nat, n: nat)
    ensures Shifts(Shifts(c, m), n) == Shifts(c, m + n)
    decreases m
  {
    if m > 0 {
      ShiftsAdd(Shift(c), m - 1, n);
    }
  }

  /** Behind `n` leading zeros the rest of the register only moves up. */
  lemma {:induction false} ShiftsMove(r: bits, n: nat)
    requires |r| + n == 16
    ensures Shifts(Zeros(n) + r, n) == r + Zeros(n)
    decreases n
  {
    if n == 0 {
      assert Zeros(0) + r == r == r + Zeros(0);
    } else {
      assert Shift(Zeros(n) + r) == Zeros(n - 1) + (r + [false]);
      ShiftsMove(r + [false], n - 1);
      assert r + [false] + Zeros(n - 1) == r + Zeros(n);
    }
  }

  lemma XorZero(a: register, b: register)
    ensures Xor(a, b) == Zeros(16) <==> a == b
  {
    if Xor(a, b) == Zeros(16) {
      assert forall i :: 0 <= i < 16 ==> !Xor(a, b)[i];
    }
  }

  /** Registers that differ still differ after the same turns. */
  lemma ShiftsInjective(a: register, b: register, n: nat)
    requires a != b
    ensures Shifts(a, n) != Shifts(b, n)
  {
    ShiftsLinear(a, b, n);
    ShiftsKernel(Xor(a, b), n);
    XorZero(a, b);
    XorZero(Shifts(a, n), Shifts(b, n));
  }

  lemma XorInjective(c: register, a: register, b: register)
    requires Xor(c, a) == Xor(c, b)
    ensures a == b
  {
    assert forall i :: 0 <= i < 16 ==> Xor(c, a)[i] == Xor(c, b)[i];
  }

  // ----- what a checksum says

  lemma {:induction false} AbsorbAppend(c: register, a: seq<byte>, b: seq<byte>)
    ensures Absorb(c, a + b) == Absorb(Absorb(c, a), b)
    decreases a
  {
    if a == [] {
      assert a + b == b;
    } else {
      assert (a + b)[1..] == a[1..] + b;
      AbsorbAppend(Shifts(Mix(c, a[0]), 8), a[1..], b);
    }
  }

  function Spelled(hi: byte, lo: byte): register {
    ToBits(hi, 8) + ToBits(lo, 8)
  }

  /** Two bytes absorbed from `c` are sixteen turns of `c` against the bits they spell. */
  lemma AbsorbTwo(c: register, hi: byte, lo: byte)
    ensures Absorb(c, [hi, lo]) == Shifts(Xor(c, Spelled(hi, lo)), 16)
  {
    var h, l: register := Mix(c, hi), Zeros(8) + ToBits(lo, 8);
    assert [hi, lo][1..] == [lo] && [lo][1..] == [];
    AbsorbStep(c, [hi, lo]);
    AbsorbStep(Shifts(h, 8), [lo]);
    calc {
      Absorb(c, [hi, lo]);
      Shifts(Mix(Shifts(h, 8), lo), 8);
      { ShiftsMove(ToBits(lo, 8), 8); }
      Shifts(Xor(Shifts(h, 8), Shifts(l, 8)), 8);
      { ShiftsLinear(h, l, 8); }
      Shifts(Shifts(Xor(h, l), 8), 8);
      { ShiftsAdd(Xor(h, l), 8, 8); }
      Shifts(Xor(h, l), 16);
      { assert Xor(h, l) == Xor(c, Spelled(hi, lo)); }
      Shifts(Xor(c, Spelled(hi, lo)), 16);
    }
  }

  lemma SpelledInjective(a: byte, b: byte, c: byte, d: byte)
    requires Spelled(a, b) == Spelled(c, d)
    ensures a == c && b == d
  {
    assert Spelled(a, b)[..8] == ToBits(a, 8) && Spelled(a, b)[8..] == ToBits(b, 8);
    assert Spelled(c, d)[..8] == ToBits(c, 8) && Spelled(c, d)[8..] == ToBits(d, 8);
    ByteBits(a);
    ByteBits(b);
    ByteBits(c);
    ByteBits(d);
  }

  /**
   The decoder's test. Running the checksum over a body and two trailing bytes comes
   out zero exactly when those two bytes are the body's own checksum.
   */
  lemma ZeroResidue(body: seq<byte>, hi: byte, lo: byte)
    ensures Crc(body + [hi, lo]) == Zeros(16) <==> [hi, lo] == Be(Crc(body))
  {
    var c := Crc(body);
    var r := Be(c);
    AbsorbAppend(Zeros(16), body, [hi, lo]);
    AbsorbTwo(c, hi, lo);
    ShiftsKernel(Xor(c, Spelled(hi, lo)), 16);
    XorZero(c, Spelled(hi, lo));
    if Spelled(hi, lo) == c {
      SpelledInjective(hi, lo, r[0], r[1]);
    }
  }

  lemma MixInjective(c: register, d: register, b: byte)
    requires Mix(c, b) == Mix(d, b)
    ensures c == d
  {
    assert forall i :: 0 <= i < 16 ==> Mix(c, b)[i] == Mix(d, b)[i];
  }

  lemma {:induction false} AbsorbInjective(c: register, d: register, bytes: seq<byte>)
    requires c != d
    ensures Absorb(c, bytes) != Absorb(d, bytes)
    decreases bytes
  {
    if bytes != [] {
      var c', d' := Mix(c, bytes[0]), Mix(d, bytes[0]);
      if c' == d' {
        MixInjective(c, d, bytes[0]);
      }
      ShiftsInjective(c', d', 8);
      AbsorbInjective(Shifts(c', 8), Shifts(d', 8), bytes[1..]);
    }
  }

  /**
   Damage confined to two neighbouring bytes, anywhere in a stream of any length,
   always changes the checksum, so at most one of the two versions has residue zero.
   */
  lemma BurstDetected(pre: seq<byte>, a: seq<byte>, b: seq<byte>, post: seq<byte>)
    requires |a| == 2 && |b| == 2 && a != b
    ensures Crc(pre + a + post) != Crc(pre + b + post)
  {
    var c := Crc(pre);
    assert a == [a[0], a[1]] && b == [b[0], b[1]];
    AbsorbAppend(Zeros(16), pre + a, post);
    AbsorbAppend(Zeros(16), pre, a);
    AbsorbAppend(Zeros(16), pre + b, post);
    AbsorbAppend(Zeros(16), pre, b);
    AbsorbTwo(c, a[0], a[1]);
    AbsorbTwo(c, b[0], b[1]);
    var x, y := Spelled(a[0], a[1]), Spelled(b[0], b[1]);
    if x == y {
      SpelledInjective(a[0], a[1], b[0], b[1]);
    }
    if Xor(c, x) == Xor(c, y) {
      XorInjective(c, x, y);
    }
    ShiftsInjective(Xor(c, x), Xor(c, y), 16);
    AbsorbInjective(Absorb(c, a), Absorb(c, b), post);
  }
}
