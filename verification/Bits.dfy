/**
 Bytes, 16-bit words, and strings of bits most significant first. Widths are
 written out, so a truncation in the modelled program is explicit here.
 */
module Bits {

  type byte = b: int | 0 <= b < 0x100
  type word = w: int | 0 <= w < 0x1_0000

  /** A word as two bytes, most significant first. */
  function Be16(w: word): (r: seq<byte>)
    ensures |r| == 2
    ensures Word(r[0], r[1]) == w
  {
    [w / 0x100, w % 0x100]
  }

  function Word(hi: byte, lo: byte): word {
    0x100 * hi + lo
  }

  type bits = seq<bool>

  /** The low `n` bits of `v`. */
  function ToBits(v: nat, n: nat): (s: bits)
    ensures |s| == n
  {
    if n == 0 then [] else ToBits(v / 2, n - 1) + [v % 2 == 1]
  }

  function FromBits(s: bits): nat {
    if s == [] then 0
    else 2 * FromBits(s[..|s| - 1]) + (if s[|s| - 1] then 1 else 0)
  }

  function Pow2(k: nat): (p: nat)
    ensures p >= 1
  {
    if k == 0 then 1 else 2 * Pow2(k - 1)
  }

  lemma {:induction false} FromToBits(v: nat, n: nat)
    requires v < Pow2(n)
    ensures FromBits(ToBits(v, n)) == v
  {
    if n > 0 {
      FromToBits(v / 2, n - 1);
      assert ToBits(v, n)[..n - 1] == ToBits(v / 2, n - 1);
    }
  }

  lemma {:induction false} ToFromBits(s: bits)
    ensures FromBits(s) < Pow2(|s|)
    ensures ToBits(FromBits(s), |s|) == s
  {
    if s != [] {
      var t := s[..|s| - 1];
      ToFromBits(t);
      assert s == t + [s[|s| - 1]];
    }
  }

  lemma ByteBits(b: byte)
    ensures FromBits(ToBits(b, 8)) == b
  {
    assert Pow2(8) == 0x100;
    FromToBits(b, 8);
  }

  /** The byte eight bits spell. */
  function ByteOf(s: bits): (b: byte)
    requires |s| == 8
    ensures ToBits(b, 8) == s
  {
    ToFromBits(s);
    assert Pow2(8) == 0x100;
    FromBits(s)
  }

  function Xor(a: bits, b: bits): (r: bits)
    requires |a| == |b|
    ensures |r| == |a|
    ensures forall i :: 0 <= i < |r| ==> r[i] == (a[i] != b[i])
  {
    seq(|a|, i requires 0 <= i < |a| => a[i] != b[i])
  }

  function Zeros(n: nat): (r: bits)
    ensures |r| == n
    ensures forall i :: 0 <= i < n ==> !r[i]
  {
    seq(n, _ => false)
  }
}
