/** CRC-32 (IEEE 802.3, reflected), resumable from an earlier result. */
module Crc32 {
  import opened Bits
  import opened Seqs

  type register = r: bits | |r| == 32 witness Zeros(32)

  /** 0xedb88320 */
  const POLY: register :=
    [true, true, true, false, true, true, false, true,
     true, false, true, true, true, false, false, false,
     true, false, false, false, false, false, true, true,
     false, false, true, false, false, false, false, false]

  function Not(c: register): (r: register)
    ensures forall i :: 0 <= i < 32 ==> r[i] == !c[i]
  {
    seq(32, i requires 0 <= i < 32 => !c[i])
  }

  function Shift(c: register): register {
    if c[31] then Xor([false] + c[..31], POLY) else [false] + c[..31]
  }

  function Shifts(c: register, n: nat): register
    decreases n
  {
    if n == 0 then c else Shifts(Shift(c), n - 1)
  }

  function Absorb(c: register, data: seq<byte>): register
    decreases data
  {
    if data == [] then c
    else Absorb(Shifts(Xor(c, Zeros(24) + ToBits(data[0], 8)), 8), data[1..])
  }

  /** Continue a checksum over more data; both ends of a run are complemented. */
  function Update(c: register, data: seq<byte>): register {
    Not(Absorb(Not(c), data))
  }

  function Sum(data: seq<byte>): (n: nat)
    ensures n < 0x1_0000_0000
  {
    ToFromBits(Update(Zeros(32), data));
    ThirtyTwo();
    FromBits(Update(Zeros(32), data))
  }

  lemma ThirtyTwo()
    ensures Pow2(32) == 0x1_0000_0000
  {
    assert Pow2(8) == 0x100;
    assert Pow2(16) == 0x1_0000;
    assert Pow2(24) == 0x100_0000;
  }

  lemma {:induction false} AbsorbAppend(c: register, a: seq<byte>, b: seq<byte>)
    ensures Absorb(c, a + b) == Absorb(Absorb(c, a), b)
    decreases a
  {
    if a == [] {
      Empty(b);
    } else {
      assert (a + b)[0] == a[0] && (a + b)[1..] == a[1..] + b;
      AbsorbAppend(Shifts(Xor(c, Zeros(24) + ToBits(a[0], 8)), 8), a[1..], b);
    }
  }

  lemma NotNot(c: register)
    ensures Not(Not(c)) == c
  {
  }

  /** Runs fed one after another sum like one run, which is what lets the receiver keep a running value. */
  lemma UpdateAppend(c: register, a: seq<byte>, b: seq<byte>)
    ensures Update(Update(c, a), b) == Update(c, a + b)
  {
    AbsorbAppend(Not(c), a, b);
    NotNot(Absorb(Not(c), a));
  }
}
