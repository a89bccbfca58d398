/**
 The Verhoeff check digit of the manual pairing code: its tables, the loop that computes
 it, and the errors it catches in digit strings of every length.
 */
module Verhoeff {

  type digit = d: int | 0 <= d < 10

  const MUL: seq<seq<digit>> := [
    [0, 1, 2, 3, 4, 5, 6, 7, 8, 9], [1, 2, 3, 4, 0, 6, 7, 8, 9, 5],
    [2, 3, 4, 0, 1, 7, 8, 9, 5, 6], [3, 4, 0, 1, 2, 8, 9, 5, 6, 7],
    [4, 0, 1, 2, 3, 9, 5, 6, 7, 8], [5, 9, 8, 7, 6, 0, 4, 3, 2, 1],
    [6, 5, 9, 8, 7, 1, 0, 4, 3, 2], [7, 6, 5, 9, 8, 2, 1, 0, 4, 3],
    [8, 7, 6, 5, 9, 3, 2, 1, 0, 4], [9, 8, 7, 6, 5, 4, 3, 2, 1, 0]]

  const PERM: seq<seq<digit>> := [
    [0, 1, 2, 3, 4, 5, 6, 7, 8, 9], [1, 5, 7, 6, 2, 8, 3, 0, 9, 4],
    [5, 8, 0, 3, 7, 9, 6, 1, 4, 2], [8, 9, 1, 6, 0, 4, 3, 5, 2, 7],
    [9, 4, 5, 3, 1, 2, 6, 8, 7, 0], [4, 2, 8, 6, 5, 7, 3, 9, 0, 1],
    [2, 7, 9, 3, 8, 0, 6, 4, 1, 5], [7, 0, 4, 6, 9, 1, 3, 2, 5, 8]]

  const INV: seq<digit> := [0, 4, 3, 2, 1, 5, 6, 7, 8, 9]

  // ----- the tables

  /** The dihedral group of the pentagon: 0 to 4 are rotations, 5 to 9 reflections. */
  function D5(a: digit, b: digit): digit {
    var turn := (if a < 5 then a + b else a - b) % 5;
    if (a < 5) == (b < 5) then turn else 5 + turn
  }

  lemma MulIsD5(a: digit, b: digit)
    ensures |MUL| == 10 && |MUL[a]| == 10 && MUL[a][b] == D5(a, b)
  {
  }

  lemma Congruent(x: int, y: int, z: int)
    requires x % 5 == y % 5
    ensures (x + z) % 5 == (y + z) % 5 && (x - z) % 5 == (y - z) % 5 && (z - x) % 5 == (z - y) % 5
  {
    var k := x / 5 - y / 5;
    assert x == y + 5 * k;
    Shift(y + z, k);
    Shift(y - z, k);
    Shift(z - y, -k);
  }

  lemma Shift(v: int, k: int)
    ensures (v + 5 * k) % 5 == v % 5
  {
  }

  function Turn(a: digit, b: digit): int {
    if a < 5 then a + b else a - b
  }

  lemma D5Parts(a: digit, b: digit)
    ensures D5(a, b) % 5 == Turn(a, b) % 5 && (D5(a, b) < 5 <==> (a < 5) == (b < 5))
  {
  }

  lemma SameParts(a: digit, b: digit)
    requires a % 5 == b % 5 && (a < 5 <==> b < 5)
    ensures a == b
  {
  }

  lemma TurnAssoc(a: digit, b: digit, c: digit, ab: digit, bc: digit)
    requires ab % 5 == Turn(a, b) % 5 && (ab < 5 <==> (a < 5) == (b < 5))
    requires bc % 5 == Turn(b, c) % 5
    ensures Turn(ab, c) % 5 == Turn(a, bc) % 5
  {
    if a < 5 {
      RotationFirst(a, b, c, ab, bc);
    } else {
      ReflectionFirst(a, b, c, ab, bc);
    }
  }

  lemma RotationFirst(a: digit, b: digit, c: digit, ab: digit, bc: digit)
    requires a < 5 && ab % 5 == (a + b) % 5 && (ab < 5 <==> b < 5) && bc % 5 == Turn(b, c) % 5
    ensures Turn(ab, c) % 5 == (a + bc) % 5
  {
    var t := Turn(b, c);
    Congruent(bc, t, a);
    Congruent(ab, a + b, c);
    assert (a + bc) % 5 == (a + t) % 5;
  }

  lemma ReflectionFirst(a: digit, b: digit, c: digit, ab: digit, bc: digit)
    requires a >= 5 && ab % 5 == (a - b) % 5 && (ab < 5 <==> b >= 5) && bc % 5 == Turn(b, c) % 5
    ensures Turn(ab, c) % 5 == (a - bc) % 5
  {
    var t := Turn(b, c);
    Congruent(bc, t, a);
    Congruent(ab, a - b, c);
    assert (a - bc) % 5 == (a - t) % 5;
  }

  lemma Assoc(a: digit, b: digit, c: digit)
    ensures D5(D5(a, b), c) == D5(a, D5(b, c))
  {
    hide D5, Turn;
    var ab, bc := D5(a, b), D5(b, c);
    D5Parts(a, b);
    D5Parts(b, c);
    D5Parts(ab, c);
    D5Parts(a, bc);
    TurnAssoc(a, b, c, ab, bc);
    SameParts(D5(ab, c), D5(a, bc));
  }

  /** Multiplying by one side or the other loses nothing. */
  lemma Cancels(a: digit, b: digit, c: digit)
    ensures D5(a, c) == D5(b, c) ==> a == b
    ensures D5(c, a) == D5(c, b) ==> a == b
  {
    hide D5;
    D5Parts(a, c);
    D5Parts(b, c);
    D5Parts(c, a);
    D5Parts(c, b);
    if D5(a, c) == D5(b, c) {
      SameTurn(a, b, c);
      SameParts(a, b);
    }
    if D5(c, a) == D5(c, b) {
      SameTurn2(a, b, c);
      SameParts(a, b);
    }
  }

  lemma SameTurn(a: digit, b: digit, c: digit)
    requires Turn(a, c) % 5 == Turn(b, c) % 5 && (a < 5 <==> b < 5)
    ensures a % 5 == b % 5
  {
    if a < 5 {
      Congruent(a + c, b + c, c);
    } else {
      Congruent(a - c, b - c, c);
    }
  }

  lemma SameTurn2(a: digit, b: digit, c: digit)
    requires Turn(c, a) % 5 == Turn(c, b) % 5
    ensures a % 5 == b % 5
  {
    if c < 5 {
      Congruent(c + a, c + b, c);
    } else {
      Congruent(c - a, c - b, c);
    }
  }

  lemma Inverse(a: digit)
    ensures |INV| == 10 && D5(INV[a], a) == 0 && D5(0, a) == a
  {
  }

  /** The permutations are the powers of the first. */
  lemma NextPerm(i: nat, d: digit)
    requires i < 8
    ensures |PERM| == 8 && |PERM[i]| == 10 && |PERM[(i + 1) % 8]| == 10 && |PERM[1]| == 10
    ensures PERM[(i + 1) % 8][d] == PERM[1][PERM[i][d]]
  {
  }

  lemma Perm0(d: digit)
    ensures |PERM| == 8 && |PERM[0]| == 10 && PERM[0][d] == d
  {
  }

  lemma Perm1Injective(a: digit, b: digit)
    ensures |PERM| == 8 && |PERM[1]| == 10
    ensures PERM[1][a] == PERM[1][b] ==> a == b
  {
  }

  /** What makes a swap of neighbours show. */
  lemma Perm1Skew(a: digit, b: digit)
    ensures |PERM| == 8 && |PERM[1]| == 10
    ensures a != b ==> D5(a, PERM[1][b]) != D5(b, PERM[1][a])
  {
  }

  // ----- the check digit

  function Perm(i: nat, d: digit): digit {
    NextPerm(i % 8, d);
    PERM[i % 8][d]
  }

  /** The digits folded in from the right, the last at place `i`. */
  function Fold(c: digit, s: seq<digit>, i: nat): digit
    decreases |s|
  {
    if s == [] then c else Fold(D5(c, Perm(i, s[|s| - 1])), s[..|s| - 1], i + 1)
  }

  function Check(body: seq<digit>): digit {
    Inverse(0);
    INV[Fold(0, body, 1)]
  }

  method CheckDigit(digits: seq<digit>) returns (d: digit)
    ensures d == Check(digits)
  {
    hide D5, Perm;
    var c: digit := 0;
    assert digits[..|digits|] == digits;
    for i := 0 to |digits|
      invariant Fold(c, digits[..|digits| - i], i + 1) == Fold(0, digits, 1)
    {
      var left := digits[..|digits| - i];
      assert left[..|left| - 1] == digits[..|digits| - (i + 1)];
      assert left[|left| - 1] == digits[|digits| - 1 - i];
      var p := PermAt(i + 1, digits[|digits| - 1 - i]);
      c := MulAt(c, p);
    }
    Inverse(0);
    d := INV[c];
  }

  method PermAt(i: nat, d: digit) returns (r: digit)
    ensures r == Perm(i, d)
  {
    NextPerm(i % 8, d);
    r := PERM[i % 8][d];
  }

  method MulAt(a: digit, b: digit) returns (r: digit)
    ensures r == D5(a, b)
  {
    MulIsD5(a, b);
    r := MUL[a][b];
  }

  /** A digit string that ends with the check digit of the rest. */
  predicate Coded(s: seq<digit>) {
    s != [] && s[|s| - 1] == Check(s[..|s| - 1])
  }

  lemma {:induction false} FoldFactor(c: digit, s: seq<digit>, i: nat)
    ensures Fold(c, s, i) == D5(c, Fold(0, s, i))
    decreases |s|
  {
    hide Perm;
    if s == [] {
      RightUnit(c);
    } else {
      var p := Perm(i, s[|s| - 1]);
      var t := s[..|s| - 1];
      Inverse(p);
      FoldFactor(D5(c, p), t, i + 1);
      FoldFactor(p, t, i + 1);
      Assoc(c, p, Fold(0, t, i + 1));
    }
  }

  lemma RightUnit(c: digit)
    ensures D5(c, 0) == c
  {
  }

  lemma StartShows(c: digit, c': digit, s: seq<digit>, i: nat)
    requires c != c'
    ensures Fold(c, s, i) != Fold(c', s, i)
  {
    FoldFactor(c, s, i);
    FoldFactor(c', s, i);
    Cancels(c, c', Fold(0, s, i));
  }

  /** Being coded is folding to zero with the check digit in place 0. */
  lemma CodedIff(s: seq<digit>)
    requires s != []
    ensures Coded(s) <==> Fold(0, s, 0) == 0
  {
    hide D5;
    var x := s[|s| - 1];
    var r := Fold(0, s[..|s| - 1], 1);
    Perm0(x);
    Inverse(x);
    FoldFactor(x, s[..|s| - 1], 1);
    assert Fold(0, s, 0) == D5(x, r);
    Inverse(r);
    Cancels(x, INV[r], r);
  }

  /** The permutation of place 1, which the others repeat. */
  function First(d: digit): digit {
    Perm1Injective(d, d);
    PERM[1][d]
  }

  lemma {:induction false} PermInjective(i: nat, a: digit, b: digit)
    requires Perm(i, a) == Perm(i, b)
    ensures a == b
  {
    hide Perm, First;
    if i == 0 {
      PermAtZero(a);
      PermAtZero(b);
    } else {
      NextPermAt(i - 1, a);
      NextPermAt(i - 1, b);
      FirstInjective(Perm(i - 1, a), Perm(i - 1, b));
      PermInjective(i - 1, a, b);
    }
  }

  lemma PermAtZero(d: digit)
    ensures Perm(0, d) == d
  {
    Perm0(d);
  }

  lemma FirstInjective(a: digit, b: digit)
    requires First(a) == First(b)
    ensures a == b
  {
    Perm1Injective(a, b);
  }

  lemma NextPermAt(i: nat, d: digit)
    ensures Perm(i + 1, d) == First(Perm(i, d))
  {
    NextPlace(i);
    NextPerm(i % 8, d);
  }

  lemma NextPlace(i: nat)
    ensures (i + 1) % 8 == (i % 8 + 1) % 8
  {
  }

  lemma {:induction false} ChangeShows(c: digit, s: seq<digit>, i: nat, k: nat, d: digit)
    requires k < |s| && d != s[k]
    ensures Fold(c, s[k := d], i) != Fold(c, s, i)
    decreases |s|
  {
    hide Perm, D5;
    var t := s[..|s| - 1];
    var s' := s[k := d];
    if k == |s| - 1 {
      assert s'[..|s| - 1] == t;
      var p, p' := Perm(i, s[k]), Perm(i, d);
      if p == p' {
        PermInjective(i, s[k], d);
      }
      Cancels(p, p', c);
      StartShows(D5(c, p), D5(c, p'), t, i + 1);
    } else {
      assert s'[..|s| - 1] == t[k := d];
      ChangeShows(D5(c, Perm(i, s[|s| - 1])), t, i + 1, k, d);
    }
  }

  function Swapped(s: seq<digit>, k: nat): seq<digit>
    requires k + 1 < |s|
  {
    s[k := s[k + 1]][k + 1 := s[k]]
  }

  lemma FirstSkew(a: digit, b: digit)
    requires a != b
    ensures D5(a, First(b)) != D5(b, First(a))
  {
    hide D5;
    Perm1Skew(a, b);
  }

  /** Two neighbours in the other order contribute something else. */
  lemma PairShows(c: digit, i: nat, a: digit, b: digit)
    requires a != b
    ensures D5(D5(c, Perm(i, b)), Perm(i + 1, a)) != D5(D5(c, Perm(i, a)), Perm(i + 1, b))
  {
    hide D5, Perm, First;
    var x, y := Perm(i, b), Perm(i, a);
    if x == y {
      PermInjective(i, a, b);
    }
    NextPermAt(i, a);
    NextPermAt(i, b);
    FirstSkew(x, y);
    Assoc(c, x, Perm(i + 1, a));
    Assoc(c, y, Perm(i + 1, b));
    Cancels(D5(x, Perm(i + 1, a)), D5(y, Perm(i + 1, b)), c);
  }

  lemma {:induction false} SwapShows(c: digit, s: seq<digit>, i: nat, k: nat)
    requires k + 1 < |s| && s[k] != s[k + 1]
    ensures Fold(c, Swapped(s, k), i) != Fold(c, s, i)
    decreases |s|
  {
    hide Perm, D5;
    var s' := Swapped(s, k);
    var t := s[..|s| - 1];
    if k + 2 == |s| {
      var rest := s[..k];
      assert t[..k] == rest && s'[..|s| - 1][..k] == rest;
      assert t[k] == s[k] && s'[..|s| - 1][k] == s[k + 1];
      PairShows(c, i, s[k], s[k + 1]);
      StartShows(D5(D5(c, Perm(i, s[k + 1])), Perm(i + 1, s[k])), D5(D5(c, Perm(i, s[k])), Perm(i + 1, s[k + 1])), rest, i + 2);
      TwoSteps(c, s, i);
      TwoSteps(c, s', i);
    } else {
      assert s'[..|s| - 1] == Swapped(t, k);
      SwapShows(D5(c, Perm(i, s[|s| - 1])), t, i + 1, k);
    }
  }

  lemma TwoSteps(c: digit, s: seq<digit>, i: nat)
    requires |s| >= 2
    ensures Fold(c, s, i) == Fold(D5(D5(c, Perm(i, s[|s| - 1])), Perm(i + 1, s[|s| - 2])), s[..|s| - 2], i + 2)
  {
    hide Perm, D5;
    assert s[..|s| - 1][..|s| - 2] == s[..|s| - 2];
  }

  /** Changing any one digit of a coded string, the check digit included, is caught. */
  lemma SingleErrorCaught(s: seq<digit>, k: nat, d: digit)
    requires Coded(s) && k < |s| && d != s[k]
    ensures !Coded(s[k := d])
  {
    CodedIff(s);
    CodedIff(s[k := d]);
    ChangeShows(0, s, 0, k, d);
  }

  /** Swapping any two unequal neighbours, the last digit and the check digit included, is caught. */
  lemma SwapCaught(s: seq<digit>, k: nat)
    requires Coded(s) && k + 1 < |s| && s[k] != s[k + 1]
    ensures !Coded(Swapped(s, k))
  {
    CodedIff(s);
    CodedIff(Swapped(s, k));
    SwapShows(0, s, 0, k);
  }
}
