/**
 Cyclic checksums by their definition: the remainder of the message, a register's width up,
 divided by the generator over the field of two elements. Polynomials are bit strings, the
 highest power first; the generator of width w is x^w and the bits of `poly`.
 */
module CrcDivision {
  import opened Bits

  /** A quotient times the generator, by long multiplication. */
  function Product(poly: bits, q: bits): (r: bits)
    ensures |r| == |q| + |poly|
  {
    if q == [] then Zeros(|poly|)
    else
      var n := |q| - 1;
      Xor(Product(poly, q[..n]) + [false], Zeros(n) + if q[n] then [true] + poly else Zeros(|poly| + 1))
  }

  /** The register after one more bit of the message. */
  function Push(poly: bits, c: bits, bit: bool): (r: bits)
    requires |c| == |poly| > 0
    ensures |r| == |poly|
  {
    if c[0] != bit then Xor(c[1..] + [false], poly) else c[1..] + [false]
  }

  lemma PushBit(poly: bits, c: bits, bit: bool, i: nat)
    requires |c| == |poly| > 0 && i < |poly|
    ensures Push(poly, c, bit)[i] == ((i + 1 < |poly| && c[i + 1]) != (c[0] != bit && poly[i]))
  {
  }

  function PushAll(poly: bits, c: bits, s: bits): (r: bits)
    requires |c| == |poly| > 0
    ensures |r| == |poly|
    decreases |s|
  {
    if s == [] then c else PushAll(poly, Push(poly, c, s[0]), s[1..])
  }

  /**
   The message a register's width up, with the initial register added to its highest powers,
   is the quotient times the generator, and the remainder.
   */
  predicate Divides(poly: bits, start: bits, message: bits, q: bits, remainder: bits)
    requires |start| == |remainder| == |poly|
  {
    && |q| == |message|
    && Xor(message + Zeros(|poly|), start + Zeros(|message|)) == Xor(Product(poly, q), Zeros(|q|) + remainder)
  }

  lemma {:induction false} PushAllMore(poly: bits, c: bits, a: bits, b: bits)
    requires |c| == |poly| > 0
    ensures PushAll(poly, c, a + b) == PushAll(poly, PushAll(poly, c, a), b)
    decreases |a|
  {
    hide Push;
    if a == [] {
      assert a + b == b;
    } else {
      assert (a + b)[0] == a[0] && (a + b)[1..] == a[1..] + b;
      PushAllMore(poly, Push(poly, c, a[0]), a[1..], b);
    }
  }

  lemma OnePushed(poly: bits, c: bits, bit: bool)
    requires |c| == |poly| > 0
    ensures PushAll(poly, c, [bit]) == Push(poly, c, bit)
  {
    hide Push;
    assert [bit][1..] == [];
  }

  lemma LastBit(poly: bits, q: bits, bit: bool)
    ensures Product(poly, q + [bit])
         == Xor(Product(poly, q) + [false], Zeros(|q|) + if bit then [true] + poly else Zeros(|poly| + 1))
  {
    assert (q + [bit])[..|q|] == q;
    assert (q + [bit])[|q|] == bit;
  }

  lemma StepDivides(poly: bits, start: bits, message: bits, q: bits, r: bits, bit: bool)
    requires |start| == |r| == |poly| > 0 && Divides(poly, start, message, q, r)
    ensures Divides(poly, start, message + [bit], q + [r[0] != bit], Push(poly, r, bit))
  {
    LastBit(poly, q, r[0] != bit);
    hide Product, Push;
    StepBits(poly, start, message, Product(poly, q), Product(poly, q + [r[0] != bit]), r, bit);
  }

  lemma StepBits(poly: bits, start: bits, message: bits, before: bits, after: bits, r: bits, bit: bool)
    requires |start| == |r| == |poly| > 0 && |before| == |message| + |poly| && |after| == |message| + |poly| + 1
    requires Xor(message + Zeros(|poly|), start + Zeros(|message|)) == Xor(before, Zeros(|message|) + r)
    requires after == Xor(before + [false], Zeros(|message|) + if r[0] != bit then [true] + poly else Zeros(|poly| + 1))
    ensures Xor(message + [bit] + Zeros(|poly|), start + Zeros(|message| + 1)) == Xor(after, Zeros(|message| + 1) + Push(poly, r, bit))
  {
    var w, n := |poly|, |message|;
    var left, right := Xor(message + [bit] + Zeros(w), start + Zeros(n + 1)), Xor(after, Zeros(n + 1) + Push(poly, r, bit));
    forall i | 0 <= i < n + w + 1
      ensures left[i] == right[i]
    {
      BitOf(poly, start, message, before, after, r, bit, i);
    }
  }

  lemma BitOf(poly: bits, start: bits, message: bits, before: bits, after: bits, r: bits, bit: bool, i: nat)
    requires |start| == |r| == |poly| > 0 && |before| == |message| + |poly| && |after| == |message| + |poly| + 1
    requires Xor(message + Zeros(|poly|), start + Zeros(|message|)) == Xor(before, Zeros(|message|) + r)
    requires after == Xor(before + [false], Zeros(|message|) + if r[0] != bit then [true] + poly else Zeros(|poly| + 1))
    requires i < |message| + |poly| + 1
    ensures Xor(message + [bit] + Zeros(|poly|), start + Zeros(|message| + 1))[i] == Xor(after, Zeros(|message| + 1) + Push(poly, r, bit))[i]
  {
    var w, n := |poly|, |message|;
    if i < n + w {
      assert Xor(message + Zeros(w), start + Zeros(n))[i] == Xor(before, Zeros(n) + r)[i];
    }
    var g := if r[0] != bit then [true] + poly else Zeros(w + 1);
    assert after[i] == ((before + [false])[i] != (Zeros(n) + g)[i]);
    assert i < n ==> (Zeros(n + 1) + Push(poly, r, bit))[i] == false && (Zeros(n) + r)[i] == false && (Zeros(n) + g)[i] == false;
    assert i == n ==> (Zeros(n) + r)[i] == r[0] && (Zeros(n) + g)[i] == (r[0] != bit);
    assert i > n ==> (Zeros(n) + g)[i] == g[i - n] && (Zeros(n + 1) + Push(poly, r, bit))[i] == Push(poly, r, bit)[i - n - 1];
  }

  lemma {:induction false} PushAllDivides(poly: bits, start: bits, message: bits) returns (q: bits)
    requires |start| == |poly| > 0
    ensures Divides(poly, start, message, q, PushAll(poly, start, message))
    decreases |message|
  {
    hide Push, Divides;
    if message == [] {
      q := [];
      NoMessage(poly, start);
    } else {
      var n := |message| - 1;
      var before, bit := message[..n], message[n];
      var p := PushAllDivides(poly, start, before);
      var r := PushAll(poly, start, before);
      StepDivides(poly, start, before, p, r, bit);
      assert message == before + [bit];
      PushAllMore(poly, start, before, [bit]);
      OnePushed(poly, r, bit);
      q := p + [r[0] != bit];
    }
  }

  lemma NoMessage(poly: bits, start: bits)
    requires |start| == |poly| > 0
    ensures Divides(poly, start, [], [], PushAll(poly, start, []))
  {
    var w := |poly|;
    assert Xor([] + Zeros(w), start + Zeros(0)) == Xor(Zeros(w), Zeros(0) + start);
  }

  /** The powers below the highest that a generator has, as bits. */
  predicate HasPowers(poly: bits, powers: set<nat>) {
    forall i :: 0 <= i < |poly| ==> (poly[i] <==> (|poly| - 1 - i) in powers)
  }
}
