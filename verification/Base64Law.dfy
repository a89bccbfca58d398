/**
 The base64 codec held to section 4 of RFC 4648: its alphabet, the bits its characters
 stand for, and exactly which texts it decodes.
 */
module Base64Law {
  import opened Bits
  import opened Options
  import opened Base64

  const UPPER := "ABCDEFGHIJKLMNOPQRSTUVWXYZ"
  const LOWER := "abcdefghijklmnopqrstuvwxyz"
  const REST := "0123456789+/"
  const ALPHABET := UPPER + LOWER + REST

  lemma UpperIs(k: nat)
    ensures |UPPER| == 26 && (k < 26 ==> UPPER[k] as int == 65 + k)
  {
  }

  lemma LowerIs(k: nat)
    ensures |LOWER| == 26 && (k < 26 ==> LOWER[k] as int == 97 + k)
  {
  }

  lemma RestIs(k: nat)
    ensures |REST| == 12 && (k < 12 ==> REST[k] as int == if k < 10 then 48 + k else if k == 10 then 43 else 47)
  {
  }

  lemma AlphabetIs(v: sextet)
    ensures |ALPHABET| == 64 && ALPHABET[v] as int == Char(v)
  {
    UpperIs(v);
    LowerIs(if v < 26 then 0 else v - 26);
    RestIs(if v < 52 then 0 else v - 52);
  }

  function Letter(v: sextet): byte {
    AlphabetIs(v);
    ALPHABET[v] as int
  }

  /** A character has a value exactly when the alphabet has it there. */
  lemma ValIff(c: byte, v: sextet)
    ensures Val(c) == Some(v) <==> c == Letter(v)
  {
    AlphabetIs(v);
  }

  // ----- bits

  function SixBits(v: seq<sextet>): (r: bits)
    ensures |r| == 6 * |v|
  {
    if v == [] then [] else ToBits(v[0], 6) + SixBits(v[1..])
  }

  function EightBits(s: seq<byte>): (r: bits)
    ensures |r| == 8 * |s|
  {
    if s == [] then [] else ToBits(s[0], 8) + EightBits(s[1..])
  }

  /** A number cut in two is its bits cut in two. */
  lemma {:induction false} Joined(hi: nat, lo: nat, n: nat, k: nat)
    requires lo < Pow2(k)
    ensures ToBits(hi * Pow2(k) + lo, n + k) == ToBits(hi, n) + ToBits(lo, k)
    decreases k
  {
    if k > 0 {
      var v := hi * Pow2(k) + lo;
      Halved(hi * Pow2(k - 1), lo);
      assert hi * Pow2(k) == 2 * (hi * Pow2(k - 1));
      Joined(hi, lo / 2, n, k - 1);
    }
  }

  lemma Halved(h: nat, lo: nat)
    ensures (2 * h + lo) / 2 == h + lo / 2 && (2 * h + lo) % 2 == lo % 2
  {
  }

  lemma SmallPowers()
    ensures Pow2(2) == 4 && Pow2(4) == 16 && Pow2(6) == 64
  {
    assert Pow2(4) == 16;
  }

  /** A byte cut six and two, four and four, two and six. */
  lemma Cuts(b: byte)
    ensures ToBits(b, 8) == ToBits(b / 4, 6) + ToBits(b % 4, 2)
    ensures ToBits(b, 8) == ToBits(b / 16, 4) + ToBits(b % 16, 4)
    ensures ToBits(b, 8) == ToBits(b / 64, 2) + ToBits(b % 64, 6)
  {
    hide ToBits, Pow2;
    SmallPowers();
    Joined(b / 4, b % 4, 6, 2);
    Joined(b / 16, b % 16, 4, 4);
    Joined(b / 64, b % 64, 2, 6);
  }

  /** A sextet made of two ends. */
  lemma Ends(hi: nat, lo: nat)
    ensures lo < 16 ==> ToBits(hi * 16 + lo, 6) == ToBits(hi, 2) + ToBits(lo, 4)
    ensures lo < 4 ==> ToBits(hi * 4 + lo, 6) == ToBits(hi, 4) + ToBits(lo, 2)
  {
    hide ToBits, Pow2;
    SmallPowers();
    if lo < 16 {
      Joined(hi, lo, 2, 4);
    }
    if lo < 4 {
      Joined(hi, lo, 4, 2);
    }
  }

  lemma ZeroBits()
    ensures ToBits(0, 2) == [false, false] && ToBits(0, 4) == [false, false, false, false]
  {
    assert ToBits(0, 2) == [false, false];
  }

  function OfThree(a: nat, b: nat, c: nat): bits {
    ToBits(a, 8) + ToBits(b, 8) + ToBits(c, 8)
  }

  function OfFour(a: nat, b: nat, c: nat, d: nat): bits {
    ToBits(a, 6) + ToBits(b, 6) + ToBits(c, 6) + ToBits(d, 6)
  }

  /** The second and third sextets of three bytes. */
  function Second(a: byte, b: byte): nat {
    a % 4 * 16 + b / 16
  }

  function Third(b: byte, c: byte): nat {
    b % 16 * 4 + c / 64
  }

  lemma ThreeBytes(a: byte, b: byte, c: byte)
    ensures OfThree(a, b, c) == OfFour(a / 4, Second(a, b), Third(b, c), c % 64)
  {
    hide ToBits;
    Cuts(a);
    Cuts(b);
    Cuts(c);
    Ends(a % 4, b / 16);
    Ends(b % 16, c / 64);
  }

  lemma TwoBytes(a: byte, b: byte)
    ensures ToBits(a, 8) + ToBits(b, 8) + [false, false]
         == ToBits(a / 4, 6) + ToBits(a % 4 * 16 + b / 16, 6) + ToBits(b % 16 * 4, 6)
  {
    hide ToBits;
    Cuts(a);
    Cuts(b);
    Ends(a % 4, b / 16);
    Ends(b % 16, 0);
    ZeroBits();
  }

  lemma OneByte(a: byte)
    ensures ToBits(a, 8) + [false, false, false, false] == ToBits(a / 4, 6) + ToBits(a % 4 * 16, 6)
  {
    hide ToBits;
    Cuts(a);
    Ends(a % 4, 0);
    ZeroBits();
  }

  // ----- a group at a time

  lemma Group3(a: bits, b: bits, c: bits, r: bits)
    ensures a + (b + (c + r)) == a + b + c + r
  {
  }

  lemma Group4(a: bits, b: bits, c: bits, d: bits, r: bits)
    ensures a + (b + (c + (d + r))) == a + b + c + d + r
  {
  }

  lemma SixTwo(v: seq<sextet>)
    requires |v| >= 2
    ensures SixBits(v) == ToBits(v[0], 6) + (ToBits(v[1], 6) + SixBits(v[2..]))
  {
    hide ToBits;
    assert v[1..][1..] == v[2..];
  }

  lemma SixFour(v: seq<sextet>)
    requires |v| >= 4
    ensures SixBits(v) == OfFour(v[0], v[1], v[2], v[3]) + SixBits(v[4..])
  {
    hide ToBits, SixBits;
    SixTwo(v);
    SixTwo(v[2..]);
    assert v[2..][2..] == v[4..];
    Group4(ToBits(v[0], 6), ToBits(v[1], 6), ToBits(v[2], 6), ToBits(v[3], 6), SixBits(v[4..]));
  }

  lemma SixFew(v: seq<sextet>)
    ensures |v| == 2 ==> SixBits(v) == ToBits(v[0], 6) + ToBits(v[1], 6)
    ensures |v| == 3 ==> SixBits(v) == ToBits(v[0], 6) + ToBits(v[1], 6) + ToBits(v[2], 6)
  {
    hide ToBits;
    if |v| == 2 {
      assert v[1..][1..] == [];
    }
    if |v| == 3 {
      assert v[1..][1..] == v[2..] && v[2..][1..] == [];
    }
  }

  lemma EightThree(s: seq<byte>)
    requires |s| >= 3
    ensures EightBits(s) == OfThree(s[0], s[1], s[2]) + EightBits(s[3..])
  {
    hide ToBits;
    assert s[1..][1..] == s[2..] && s[2..][1..] == s[3..];
    Group3(ToBits(s[0], 8), ToBits(s[1], 8), ToBits(s[2], 8), EightBits(s[3..]));
  }

  lemma EightFew(s: seq<byte>)
    ensures |s| == 1 ==> EightBits(s) == ToBits(s[0], 8)
    ensures |s| == 2 ==> EightBits(s) == ToBits(s[0], 8) + ToBits(s[1], 8)
  {
    hide ToBits;
    if |s| == 1 {
      assert s[1..] == [];
    }
    if |s| == 2 {
      assert s[1..][1..] == [];
    }
  }

  function Spare(n: nat): bits {
    if n % 3 == 1 then [false, false, false, false] else if n % 3 == 2 then [false, false] else []
  }

  /** The characters carry the bits of the bytes in order, the last filled up with zeros. */
  lemma {:induction false} SextetsCarryBits(s: seq<byte>)
    ensures SixBits(Sextets(s)) == EightBits(s) + Spare(|s|)
    decreases |s|
  {
    hide SixBits, EightBits, OfThree, Sextets;
    if |s| >= 3 {
      SextetsCarryBits(s[3..]);
      LongText(s);
    } else {
      ShortText(s);
    }
  }

  lemma ShortText(s: seq<byte>)
    requires |s| < 3
    ensures SixBits(Sextets(s)) == EightBits(s) + Spare(|s|)
  {
    hide SixBits, EightBits, ToBits, Sextets;
    SixFew(Sextets(s));
    EightFew(s);
    SextetsAt(s);
    if s == [] {
      NoBits();
    } else if |s| == 1 {
      OneByte(s[0]);
    } else {
      TwoBytes(s[0], s[1]);
    }
  }

  lemma SextetsAt(s: seq<byte>)
    ensures var v := Sextets(s);
            && (|s| == 0 ==> v == [])
            && (|s| == 1 ==> |v| == 2 && v[0] == s[0] / 4 && v[1] == s[0] % 4 * 16)
            && (|s| == 2 ==> |v| == 3 && v[0] == s[0] / 4 && v[1] == s[0] % 4 * 16 + s[1] / 16 && v[2] == s[1] % 16 * 4)
  {
  }

  lemma NoBits()
    ensures SixBits([]) == [] && EightBits([]) == []
  {
  }

  lemma FirstFour(s: seq<byte>)
    requires |s| >= 3
    ensures var v := Sextets(s);
            && |v| >= 4 && v[4..] == Sextets(s[3..])
            && v[0] == s[0] / 4 && v[1] == Second(s[0], s[1]) && v[2] == Third(s[1], s[2]) && v[3] == s[2] % 64
  {
  }

  lemma HeadText(s: seq<byte>)
    requires |s| >= 3
    ensures |Sextets(s)| >= 4 && Sextets(s)[4..] == Sextets(s[3..])
    ensures var v := Sextets(s); OfThree(s[0], s[1], s[2]) == OfFour(v[0], v[1], v[2], v[3])
  {
    hide OfThree, OfFour, Sextets, Second, Third;
    FirstFour(s);
    ThreeBytes(s[0], s[1], s[2]);
  }

  lemma LongText(s: seq<byte>)
    requires |s| >= 3
    ensures var head := OfThree(s[0], s[1], s[2]);
            EightBits(s) == head + EightBits(s[3..]) && SixBits(Sextets(s)) == head + SixBits(Sextets(s[3..]))
  {
    hide SixBits, EightBits, OfThree, OfFour, Sextets;
    HeadText(s);
    SixFour(Sextets(s));
    EightThree(s);
  }

  function Letters(v: seq<sextet>): seq<byte> {
    if v == [] then [] else [Letter(v[0])] + Letters(v[1..])
  }

  lemma {:induction false} CharsAreLetters(v: seq<sextet>)
    ensures Chars(v) == Letters(v)
  {
    hide Letter;
    if v != [] {
      CharsAreLetters(v[1..]);
      LetterIs(v[0]);
      assert Chars(v) == [Char(v[0])] + Chars(v[1..]);
    }
  }

  lemma LetterIs(v: sextet)
    ensures Letter(v) == Char(v)
  {
    AlphabetIs(v);
  }

  /** The text of a byte string: one letter for every six bits, and `=` up to a multiple of four. */
  lemma BtoaIs(s: seq<byte>)
    ensures var v := Sextets(s);
            && SixBits(v) == EightBits(s) + Spare(|s|)
            && Btoa(s) == Letters(v) + if |s| % 3 == 1 then [61, 61] else if |s| % 3 == 2 then [61] else []
  {
    SextetsCarryBits(s);
    CharsAreLetters(Sextets(s));
  }

  // ----- what is decoded

  /** Tab, line feed, form feed, carriage return and space are passed over. */
  function Unspaced(t: seq<byte>): seq<byte> {
    if t == [] then []
    else (if t[0] in {9, 10, 12, 13, 32} then [] else [t[0]]) + Unspaced(t[1..])
  }

  lemma {:induction false} StripIs(t: seq<byte>)
    ensures Strip(t) == Unspaced(t)
  {
    if t != [] {
      StripIs(t[1..]);
    }
  }

  /** Up to two `=` may end a text of a multiple of four characters. */
  function Unpadded(t: seq<byte>): seq<byte> {
    if |t| % 4 == 0 && |t| > 0 && t[|t| - 1] == 61
    then if t[|t| - 2] == 61 then t[..|t| - 2] else t[..|t| - 1]
    else t
  }

  predicate Spells(t: seq<byte>, v: seq<sextet>) {
    t == Letters(v)
  }

  lemma {:induction false} ValsIff(t: seq<byte>, v: seq<sextet>)
    ensures Vals(t) == Some(v) <==> Spells(t, v)
  {
    hide Letter, Val;
    if t != [] && v != [] {
      ValIff(t[0], v[0]);
      ValsIff(t[1..], v[1..]);
      assert t == [t[0]] + t[1..] && v == [v[0]] + v[1..];
      var rest := Vals(t[1..]);
    }
  }

  /** `x` joins the whole of `a` and the top of `b`, and so on. */
  predicate Joins(a: sextet, b: sextet, x: byte) {
    x / 4 == a && x % 4 == b / 16
  }

  lemma JoinsFirst(a: sextet, b: sextet)
    ensures Joins(a, b, a * 4 + b / 16)
  {
  }

  lemma JoinsSecond(b: sextet, c: sextet)
    ensures var y := b % 16 * 16 + c / 4; y / 16 == b % 16 && y % 16 == c / 4
  {
  }

  lemma JoinsThird(c: sextet, d: sextet)
    ensures var z := c % 4 * 64 + d; z / 64 == c % 4 && z % 64 == d
  {
  }

  lemma FourSextets(a: sextet, b: sextet, c: sextet, d: sextet)
    ensures OfThree(a * 4 + b / 16, b % 16 * 16 + c / 4, c % 4 * 64 + d) == OfFour(a, b, c, d)
  {
    hide OfThree, OfFour;
    JoinsFirst(a, b);
    JoinsSecond(b, c);
    JoinsThird(c, d);
    ThreeBytes(a * 4 + b / 16, b % 16 * 16 + c / 4, c % 4 * 64 + d);
  }

  lemma Regroup(a: bits, b: bits, c: bits, d: bits, e: bits)
    ensures (a + b) + (c + d) + e == a + (b + c) + (d + e)
  {
  }

  lemma ThreeSextets(a: sextet, b: sextet, c: sextet)
    ensures ToBits(a * 4 + b / 16, 8) + ToBits(b % 16 * 16 + c / 4, 8) + ToBits(c % 4, 2)
         == ToBits(a, 6) + ToBits(b, 6) + ToBits(c, 6)
  {
    hide ToBits;
    FirstByteIs(a, b);
    SecondByteIs(b, c);
    Halves(b, c);
    Regroup(ToBits(a, 6), ToBits(b / 16, 2), ToBits(b % 16, 4), ToBits(c / 4, 4), ToBits(c % 4, 2));
  }

  lemma FirstByteIs(a: sextet, b: sextet)
    ensures ToBits(a * 4 + b / 16, 8) == ToBits(a, 6) + ToBits(b / 16, 2)
  {
    hide ToBits;
    JoinsFirst(a, b);
    Cuts(a * 4 + b / 16);
  }

  lemma SecondByteIs(b: sextet, c: sextet)
    ensures ToBits(b % 16 * 16 + c / 4, 8) == ToBits(b % 16, 4) + ToBits(c / 4, 4)
  {
    hide ToBits;
    JoinsSecond(b, c);
    Cuts(b % 16 * 16 + c / 4);
  }

  lemma Halves(b: sextet, c: sextet)
    ensures ToBits(b, 6) == ToBits(b / 16, 2) + ToBits(b % 16, 4)
    ensures ToBits(c, 6) == ToBits(c / 4, 4) + ToBits(c % 4, 2)
  {
    hide ToBits;
    Ends(b / 16, b % 16);
    Ends(c / 4, c % 4);
  }

  lemma TwoSextets(a: sextet, b: sextet)
    ensures ToBits(a * 4 + b / 16, 8) + ToBits(b % 16, 4) == ToBits(a, 6) + ToBits(b, 6)
  {
    hide ToBits;
    JoinsFirst(a, b);
    Cuts(a * 4 + b / 16);
    Ends(b / 16, b % 16);
  }

  lemma ShortRun(v: seq<sextet>)
    requires |v| == 2 || |v| == 3
    ensures EightBits(Bytes(v)) <= SixBits(v) && |SixBits(v)| - |EightBits(Bytes(v))| < 8
  {
    hide SixBits, EightBits, ToBits;
    SixFew(v);
    EightFew(Bytes(v));
    if |v| == 2 {
      TwoSextets(v[0], v[1]);
      assert SixBits(v) == EightBits(Bytes(v)) + ToBits(v[1] % 16, 4);
    } else {
      ThreeSextets(v[0], v[1], v[2]);
      assert SixBits(v) == EightBits(Bytes(v)) + ToBits(v[2] % 4, 2);
    }
  }

  lemma BytesAt(v: seq<sextet>)
    requires |v| >= 4 && |v| % 4 != 1
    ensures var s := Bytes(v);
            var a: int, b: int, c: int, d: int := v[0], v[1], v[2], v[3];
            && |s| >= 3 && s[0] == a * 4 + b / 16 && s[1] == b % 16 * 16 + c / 4
            && s[2] == c % 4 * 64 + d && s[3..] == Bytes(v[4..])
  {
  }

  lemma LongRun(v: seq<sextet>)
    requires |v| >= 4 && |v| % 4 != 1
    ensures var head := OfFour(v[0], v[1], v[2], v[3]);
            EightBits(Bytes(v)) == head + EightBits(Bytes(v[4..])) && SixBits(v) == head + SixBits(v[4..])
  {
    hide SixBits, EightBits, OfThree, OfFour, Bytes;
    BytesAt(v);
    SixFour(v);
    EightThree(Bytes(v));
    FourSextets(v[0], v[1], v[2], v[3]);
  }

  /** What is left of a run of sextets that fills no byte is dropped. */
  lemma {:induction false} BytesKeepBits(v: seq<sextet>)
    requires |v| % 4 != 1
    ensures EightBits(Bytes(v)) <= SixBits(v) && |SixBits(v)| - |EightBits(Bytes(v))| < 8
    decreases |v|
  {
    hide SixBits, EightBits, OfFour, Bytes;
    if |v| >= 4 {
      LongRun(v);
      BytesKeepBits(v[4..]);
    } else if |v| >= 2 {
      ShortRun(v);
    } else {
      EmptyRun(v);
    }
  }

  lemma EmptyRun(v: seq<sextet>)
    requires v == []
    ensures EightBits(Bytes(v)) == [] == SixBits(v)
  {
  }

  /**
   A text decodes if and only if, without its white space and padding, it is spelled in
   the alphabet and is not one character past a multiple of four; and what it decodes to
   is its bits, as many as make whole bytes.
   */
  lemma AtobIff(t: seq<byte>, v: seq<sextet>)
    ensures var u := Unpadded(Unspaced(t));
            && (Atob(t).Some? ==> |u| % 4 != 1 && Vals(u).Some? && Spells(u, Vals(u).value))
            && (Spells(u, v) && |u| % 4 != 1 ==>
                  && Atob(t).Some?
                  && EightBits(Atob(t).value) <= SixBits(v) && |SixBits(v)| - |EightBits(Atob(t).value)| < 8)
  {
    hide Bytes, SixBits, EightBits, Vals, Letters, Unspaced, Strip;
    StripIs(t);
    var u := Unpadded(Unspaced(t));
    assert u == DropPadding(Strip(t));
    ValsLength(u);
    if Vals(u).Some? {
      ValsIff(u, Vals(u).value);
    }
    ValsIff(u, v);
    if Spells(u, v) && |u| % 4 != 1 {
      BytesKeepBits(v);
    }
  }
}
