/**
 Point arithmetic on P-256 (secp256r1 of SEC 2): the tangent-and-chord sum, and the
 double-and-add loop over it.
 */
module Curve {
  import opened Numbers

  /** A short Weierstrass curve: the field prime, the two coefficients, and the order of its points. */
  datatype Params = Params(p: int, a: int, b: int, n: int)

  const P256: field := Params(
    0xFFFFFFFF00000001000000000000000000000000FFFFFFFFFFFFFFFFFFFFFFFF,
    0xFFFFFFFF00000001000000000000000000000000FFFFFFFFFFFFFFFFFFFFFFFC,
    0x5AC635D8AA3A93E7B3EBBD55769886BC651D06B0CC53B0F63BCE3C3E27D2604B,
    0xFFFFFFFF00000000FFFFFFFFFFFFFFFFBCE6FAADA7179E84F3B9CAC2FC632551)

  type field = c: Params | c.p >= 3 && c.n >= 1 witness Params(3, 0, 0, 1)

  datatype Point = Infinity | Affine(x: int, y: int)

  predicate Zero(p: int, v: int)
    requires p > 0
  {
    v % p == 0
  }

  function Cubic(a: int, b: int, x: int): int {
    x * x * x + a * x + b
  }

  predicate OnCurve(c: field, pt: Point) {
    pt.Infinity? || Zero(c.p, pt.y * pt.y - Cubic(c.a, c.b, pt.x))
  }

  /** Coordinates are residues. */
  predicate InField(c: field, pt: Point) {
    pt.Affine? ==> 0 <= pt.x < c.p && 0 <= pt.y < c.p
  }

  function PowMod(p: int, x: int, e: nat): int
    requires p > 0
  {
    if e == 0 then 1 % p else (x * PowMod(p, x, e - 1)) % p
  }

  /** The inverse by Fermat's little theorem. */
  function Inverse(p: int, x: int): int
    requires p >= 3
  {
    PowMod(p, x, p - 2)
  }

  function Power(x: int, e: nat): int {
    if e == 0 then 1 else x * Power(x, e - 1)
  }

  /** What Fermat's little theorem says when `p` is prime, taken as given. */
  ghost predicate Fermat(p: int)
    requires p >= 3
  {
    forall x: int :: !Zero(p, x) ==> Power(x, p - 1) % p == 1
  }

  /** The slope of the tangent, or of the chord. */
  function Slope(c: field, s: Point, t: Point): int
    requires s.Affine? && t.Affine?
  {
    if s == t then ((3 * s.x * s.x + c.a) * Inverse(c.p, 2 * s.y)) % c.p
    else ((t.y - s.y) * Inverse(c.p, t.x - s.x)) % c.p
  }

  function Add(c: field, s: Point, t: Point): Point {
    if s.Infinity? then t
    else if t.Infinity? then s
    else if s.x == t.x && Zero(c.p, s.y + t.y) then Infinity
    else Third(c.p, Slope(c, s, t), s.x, s.y, t.x)
  }

  /** The third point of a line, mirrored. */
  function Third(p: int, lam: int, x1: int, y1: int, x2: int): Point
    requires p > 0
  {
    var x3 := (lam * lam - x1 - x2) % p;
    Affine(x3, (lam * (x1 - x3) - y1) % p)
  }

  // ----- residues

  lemma IsZero(p: int, k: int)
    requires p > 0
    ensures Zero(p, p * k)
  {
    DivModOf(p, 0, k);
  }

  lemma ZeroIs(p: int, v: int) returns (k: int)
    requires p > 0 && Zero(p, v)
    ensures v == p * k
  {
    k := v / p;
  }

  lemma ZeroSum(p: int, u: int, v: int)
    requires p > 0 && Zero(p, u) && Zero(p, v)
    ensures Zero(p, u + v) && Zero(p, u - v)
  {
    hide Zero;
    var j := ZeroIs(p, u);
    var k := ZeroIs(p, v);
    IsZero(p, j + k);
    IsZero(p, j - k);
    assert p * (j + k) == u + v && p * (j - k) == u - v;
  }

  lemma ZeroTimes(p: int, u: int, v: int)
    requires p > 0 && Zero(p, u)
    ensures Zero(p, u * v)
  {
    hide Zero;
    var k := ZeroIs(p, u);
    assert u * v == p * (k * v);
    IsZero(p, k * v);
  }

  lemma Residue(p: int, v: int)
    requires p > 0
    ensures Zero(p, v - v % p) && 0 <= v % p < p
  {
    hide Zero;
    assert v - v % p == p * (v / p);
    IsZero(p, v / p);
  }

  lemma Flip(p: int, v: int)
    requires p > 0 && Zero(p, v)
    ensures Zero(p, -v)
  {
    hide Zero;
    var k := ZeroIs(p, v);
    IsZero(p, -k);
    assert p * (-k) == -v;
  }

  lemma SameResidue(p: int, u: int, v: int)
    requires p > 0 && Zero(p, u - v)
    ensures u % p == v % p
  {
    var k := ZeroIs(p, u - v);
    assert u == v % p + p * (v / p + k);
    DivModOf(p, v % p, v / p + k);
  }

  /** A factor may be reduced before it is multiplied. */
  lemma ReduceFirst(p: int, x: int, y: int)
    requires p > 0
    ensures (x * (y % p)) % p == (x * y) % p
  {
    hide Zero;
    Residue(p, y);
    ZeroTimes(p, y - y % p, x);
    assert (y - y % p) * x == x * y - x * (y % p);
    SameResidue(p, x * y, x * (y % p));
  }

  lemma {:induction false} PowModIs(p: int, x: int, e: nat)
    requires p > 0
    ensures PowMod(p, x, e) == Power(x, e) % p
  {
    if e > 0 {
      PowModIs(p, x, e - 1);
      ReduceFirst(p, x, Power(x, e - 1));
    }
  }

  /** So the power taken for an inverse is one. */
  lemma Inverts(p: int, x: int)
    requires p >= 3 && Fermat(p) && !Zero(p, x)
    ensures (x * Inverse(p, x)) % p == 1
  {
    hide Zero;
    PowModIs(p, x, p - 2);
    ReduceFirst(p, x, Power(x, p - 2));
    assert x * Power(x, p - 2) == Power(x, p - 1);
  }

  /** A factor that is not zero can be cancelled. */
  lemma Cancel(p: int, d: int, v: int)
    requires p >= 3 && Fermat(p) && !Zero(p, d) && Zero(p, d * v)
    ensures Zero(p, v)
  {
    hide Zero, Inverse, Fermat;
    var i := Inverse(p, d);
    Inverts(p, d);
    var k := (d * i) / p;
    assert d * i == p * k + 1;
    ZeroTimes(p, d * v, i);
    Cancelled(p, d, i, k, v);
    IsZero(p, k * v);
    ZeroSum(p, (d * v) * i, p * (k * v));
  }

  lemma Cancelled(p: int, d: int, i: int, k: int, v: int)
    requires d * i == p * k + 1
    ensures (d * v) * i - p * (k * v) == v
  {
    assert (d * v) * i == (d * i) * v;
    assert (p * k + 1) * v == p * (k * v) + v;
  }

  // ----- the sum stays on the curve

  /** Zero for the slope of the tangent and of the chord alike. */
  function SlopeGap(a: int, lam: int, x1: int, y1: int, x2: int): int {
    x1 * x1 + x1 * x2 + x2 * x2 + a - 2 * (lam * y1) - lam * lam * (x2 - x1)
  }

  lemma Square(lam: int, y: int, d: int)
    ensures (lam * d + y) * (lam * d + y) == lam * lam * (d * d) + 2 * (lam * y) * d + y * y
  {
  }

  lemma CubicDifference(a: int, b: int, x: int, z: int)
    ensures Cubic(a, b, x) - Cubic(a, b, z) == (x - z) * (x * x + z * x + z * z + a)
  {
  }

  lemma Bracket(a: int, lam: int, x1: int, y1: int, x2: int, x3: int)
    requires x3 == lam * lam - x1 - x2
    ensures x3 * x3 + x1 * x3 + x1 * x1 + a - lam * lam * (x3 - x1) - 2 * (lam * y1) == SlopeGap(a, lam, x1, y1, x2)
  {
    var l2 := lam * lam;
    assert l2 == x1 + x2 + x3;
    assert l2 * (x3 - x1) == x3 * x3 + x2 * x3 - x1 * x1 - x1 * x2;
    assert l2 * (x2 - x1) == x2 * x2 - x1 * x1 + x3 * x2 - x3 * x1;
  }

  /** The integer identity behind the group law: how far the third point misses the curve. */
  lemma ThirdPoint(a: int, b: int, lam: int, x1: int, y1: int, x2: int, x3: int, y3: int)
    requires x3 == lam * lam - x1 - x2 && y3 == lam * (x1 - x3) - y1
    ensures Cubic(a, b, x3) - y3 * y3 == (Cubic(a, b, x1) - y1 * y1) + (x3 - x1) * SlopeGap(a, lam, x1, y1, x2)
  {
    hide Cubic, SlopeGap;
    var d := x3 - x1;
    var l2 := lam * lam;
    var q := x3 * x3 + x1 * x3 + x1 * x1 + a;
    Negated(lam, d, x1 - x3, y1, y3);
    Square(lam, y1, d);
    CubicDifference(a, b, x3, x1);
    Bracket(a, lam, x1, y1, x2, x3);
    Gather(d, q, l2, lam * y1);
  }

  lemma Negated(lam: int, d: int, e: int, y1: int, y3: int)
    requires e == -d && y3 == lam * e - y1
    ensures y3 * y3 == (lam * d + y1) * (lam * d + y1)
  {
    assert lam * e == -(lam * d);
  }

  lemma Gather(d: int, q: int, l2: int, ly: int)
    ensures d * q - (l2 * (d * d) + 2 * ly * d) == d * (q - l2 * d - 2 * ly)
  {
    assert l2 * (d * d) == d * (l2 * d);
    assert 2 * ly * d == d * (2 * ly);
  }

  /** Being on the curve is a matter of residues. */
  lemma SameResidues(p: int, a: int, b: int, x: int, y: int, u: int, v: int)
    requires p > 0 && Zero(p, x - u) && Zero(p, y - v) && Zero(p, Cubic(a, b, u) - v * v)
    ensures Zero(p, y * y - Cubic(a, b, x))
  {
    hide Zero, Cubic;
    CubicDifference(a, b, x, u);
    ZeroTimes(p, x - u, x * x + u * x + u * u + a);
    ZeroTimes(p, y - v, y + v);
    assert (y - v) * (y + v) == y * y - v * v;
    ZeroSum(p, Cubic(a, b, x) - Cubic(a, b, u), Cubic(a, b, u) - v * v);
    ZeroSum(p, (y - v) * (y + v), Cubic(a, b, x) - v * v);
  }

  /** Before reduction, a third point from a right slope is on the curve. */
  lemma UnreducedOnCurve(p: int, a: int, b: int, lam: int, x1: int, y1: int, x2: int, u: int, v: int)
    requires p > 0 && Zero(p, y1 * y1 - Cubic(a, b, x1)) && Zero(p, SlopeGap(a, lam, x1, y1, x2))
    requires u == lam * lam - x1 - x2 && v == lam * (x1 - u) - y1
    ensures Zero(p, Cubic(a, b, u) - v * v)
  {
    hide Zero, Cubic, SlopeGap;
    var gap := SlopeGap(a, lam, x1, y1, x2);
    ThirdPoint(a, b, lam, x1, y1, x2, u, v);
    ZeroTimes(p, gap, u - x1);
    Flip(p, y1 * y1 - Cubic(a, b, x1));
    ZeroSum(p, Cubic(a, b, x1) - y1 * y1, gap * (u - x1));
  }

  /** And after reduction. */
  lemma SumOnCurve(p: int, a: int, b: int, lam: int, x1: int, y1: int, x2: int)
    requires p > 0 && Zero(p, y1 * y1 - Cubic(a, b, x1)) && Zero(p, SlopeGap(a, lam, x1, y1, x2))
    ensures var t := Third(p, lam, x1, y1, x2); Zero(p, t.y * t.y - Cubic(a, b, t.x))
    ensures var t := Third(p, lam, x1, y1, x2); 0 <= t.x < p && 0 <= t.y < p
  {
    hide Zero, Cubic, SlopeGap;
    var u := lam * lam - x1 - x2;
    var v := lam * (x1 - u) - y1;
    UnreducedOnCurve(p, a, b, lam, x1, y1, x2, u, v);
    var x3 := u % p;
    var w := lam * (x1 - x3) - y1;
    Residue(p, u);
    Residue(p, w);
    Flip(p, u - x3);
    Flip(p, w - w % p);
    ZeroTimes(p, u - x3, lam);
    assert w - v == (u - x3) * lam by { Distribute(lam, x1, x3, u); }
    ZeroSum(p, w % p - w, w - v);
    SameResidues(p, a, b, x3, w % p, u, v);
  }

  lemma Distribute(lam: int, x: int, s: int, t: int)
    ensures lam * (x - s) - lam * (x - t) == (t - s) * lam
  {
  }

  // ----- the two slopes

  /** Dividing by what is not zero. */
  lemma Quotient(p: int, num: int, den: int)
    requires p >= 3 && Fermat(p) && !Zero(p, den)
    ensures Zero(p, ((num * Inverse(p, den)) % p) * den - num)
  {
    hide Inverse, Zero, Fermat;
    var i := Inverse(p, den);
    Inverts(p, den);
    var k := (den * i) / p;
    var lam := (num * i) % p;
    var j := (num * i) / p;
    assert den * i == p * k + 1 && num * i == p * j + lam;
    QuotientParts(p, num, den, i, lam, k, j);
    IsZero(p, num * k - j * den);
  }

  lemma QuotientParts(p: int, num: int, den: int, i: int, lam: int, k: int, j: int)
    requires den * i == p * k + 1 && num * i == p * j + lam
    ensures lam * den - num == p * (num * k - j * den)
  {
    assert lam * den == (num * i) * den - p * (j * den);
    assert (num * i) * den == num * (den * i) == p * (num * k) + num;
  }

  lemma TangentSlope(p: int, a: int, x: int, y: int)
    requires p >= 3 && Fermat(p) && !Zero(p, 2 * y)
    ensures Zero(p, SlopeGap(a, ((3 * x * x + a) * Inverse(p, 2 * y)) % p, x, y, x))
  {
    hide Inverse, Zero, Fermat;
    var num := 3 * x * x + a;
    var lam := (num * Inverse(p, 2 * y)) % p;
    Quotient(p, num, 2 * y);
    assert 3 * x * x == 3 * (x * x);
    assert lam * (2 * y) == 2 * (lam * y);
    assert lam * lam * (x - x) == 0;
    Flip(p, lam * (2 * y) - num);
  }

  /** The chord's gap, times the run, is made of what vanishes. */
  lemma ChordIdentity(a: int, b: int, lam: int, x1: int, y1: int, x2: int, y2: int)
    ensures var t := lam * (x2 - x1) - (y2 - y1);
            (x2 - x1) * SlopeGap(a, lam, x1, y1, x2)
            == (y1 * y1 - Cubic(a, b, x1)) - (y2 * y2 - Cubic(a, b, x2)) - t * (2 * y2 + t)
  {
    hide Cubic;
    var d, e := x2 - x1, y2 - y1;
    var t := lam * d - e;
    var s := x1 * x1 + x1 * x2 + x2 * x2 + a;
    CubicDifference(a, b, x2, x1);
    assert d * s == Cubic(a, b, x2) - Cubic(a, b, x1);
    Spread(d, s, lam, y1);
    assert d * SlopeGap(a, lam, x1, y1, x2) == d * s - 2 * y1 * (lam * d) - (lam * d) * (lam * d);
    Complete(y1, y2, e, t, lam * d);
  }

  lemma Spread(d: int, s: int, lam: int, y: int)
    ensures d * (s - 2 * (lam * y) - lam * lam * d) == d * s - 2 * y * (lam * d) - (lam * d) * (lam * d)
  {
    assert d * (2 * (lam * y)) == 2 * y * (lam * d);
    assert d * (lam * lam * d) == (lam * d) * (lam * d);
  }

  lemma Complete(y1: int, y2: int, e: int, t: int, ld: int)
    requires y2 == y1 + e && ld == e + t
    ensures 2 * y1 * ld + ld * ld == y2 * y2 - y1 * y1 + t * (2 * y2 + t)
  {
    assert ld * ld == e * e + 2 * (e * t) + t * t;
    assert y2 * y2 == y1 * y1 + 2 * (y1 * e) + e * e;
  }

  lemma ChordSlope(p: int, a: int, b: int, x1: int, y1: int, x2: int, y2: int)
    requires p >= 3 && Fermat(p) && !Zero(p, x2 - x1)
    requires Zero(p, y1 * y1 - Cubic(a, b, x1)) && Zero(p, y2 * y2 - Cubic(a, b, x2))
    ensures Zero(p, SlopeGap(a, ((y2 - y1) * Inverse(p, x2 - x1)) % p, x1, y1, x2))
  {
    hide Inverse, Zero, Cubic, SlopeGap, Fermat;
    var lam := ((y2 - y1) * Inverse(p, x2 - x1)) % p;
    Quotient(p, y2 - y1, x2 - x1);
    var t := lam * (x2 - x1) - (y2 - y1);
    ChordIdentity(a, b, lam, x1, y1, x2, y2);
    ZeroTimes(p, t, 2 * y2 + t);
    ZeroSum(p, y1 * y1 - Cubic(a, b, x1), y2 * y2 - Cubic(a, b, x2));
    ZeroSum(p, y1 * y1 - Cubic(a, b, x1) - (y2 * y2 - Cubic(a, b, x2)), t * (2 * y2 + t));
    Cancel(p, x2 - x1, SlopeGap(a, lam, x1, y1, x2));
  }

  /** Residues a multiple of the modulus apart are equal. */
  lemma Apart(p: int, u: int, v: int)
    requires 0 <= u < p && 0 <= v < p && Zero(p, u - v)
    ensures u == v
  {
    var k := ZeroIs(p, u - v);
    SmallMultiple(p, k);
  }

  /** Two points over one x that do not cancel are the same point. */
  lemma SameX(p: int, a: int, b: int, x: int, y1: int, y2: int)
    requires p >= 3 && Fermat(p) && 0 <= y1 < p && 0 <= y2 < p && !Zero(p, y1 + y2)
    requires Zero(p, y1 * y1 - Cubic(a, b, x)) && Zero(p, y2 * y2 - Cubic(a, b, x))
    ensures y1 == y2
  {
    hide Cubic, Inverse, Fermat, Zero;
    ZeroSum(p, y1 * y1 - Cubic(a, b, x), y2 * y2 - Cubic(a, b, x));
    assert (y1 + y2) * (y1 - y2) == y1 * y1 - y2 * y2;
    Cancel(p, y1 + y2, y1 - y2);
    Apart(p, y1, y2);
  }

  lemma SlopeIsRight(c: field, s: Point, t: Point)
    requires Fermat(c.p)
    requires s.Affine? && t.Affine? && Element(c, s) && Element(c, t)
    requires !(s.x == t.x && Zero(c.p, s.y + t.y))
    ensures Zero(c.p, SlopeGap(c.a, Slope(c, s, t), s.x, s.y, t.x))
  {
    hide Zero, Cubic, Inverse, SlopeGap, Fermat;
    if s.x == t.x {
      SameX(c.p, c.a, c.b, s.x, s.y, t.y);
      assert s.y + t.y == 2 * s.y;
      TangentSlope(c.p, c.a, s.x, s.y);
    } else {
      if Zero(c.p, t.x - s.x) {
        Apart(c.p, t.x, s.x);
      }
      ChordSlope(c.p, c.a, c.b, s.x, s.y, t.x, t.y);
    }
  }

  /** A point of the curve with reduced coordinates. */
  predicate Element(c: field, pt: Point) {
    OnCurve(c, pt) && InField(c, pt)
  }

  /** The sum of two points of the curve is a point of the curve, its coordinates residues. */
  lemma AddKeepsCurve(c: field, s: Point, t: Point)
    requires Fermat(c.p) && Element(c, s) && Element(c, t)
    ensures Element(c, Add(c, s, t))
  {
    hide Zero, Cubic, Inverse, SlopeGap, Fermat, Slope, Third;
    if s.Affine? && t.Affine? && !(s.x == t.x && Zero(c.p, s.y + t.y)) {
      SlopeIsRight(c, s, t);
      SumOnCurve(c.p, c.a, c.b, Slope(c, s, t), s.x, s.y, t.x);
    }
  }

  // ----- double and add

  /** The n-fold sum, one term at a time. */
  function Times<T>(op: (T, T) -> T, e: T, n: nat, x: T): T {
    if n == 0 then e else op(Times(op, e, n - 1, x), x)
  }

  /** `op` is associative with identity `e` on a carrier it stays in. */
  ghost predicate Monoid<T(!new)>(op: (T, T) -> T, e: T, carrier: T -> bool) {
    && carrier(e)
    && (forall a, b :: carrier(a) && carrier(b) ==> carrier(op(a, b)))
    && (forall a :: carrier(a) ==> op(e, a) == a && op(a, e) == a)
    && (forall a, b, c :: carrier(a) && carrier(b) && carrier(c) ==> op(op(a, b), c) == op(a, op(b, c)))
  }

  lemma {:induction false} TimesInside<T(!new)>(op: (T, T) -> T, e: T, carrier: T -> bool, n: nat, x: T)
    requires Monoid(op, e, carrier) && carrier(x)
    ensures carrier(Times(op, e, n, x))
  {
    if n > 0 {
      TimesInside(op, e, carrier, n - 1, x);
    }
  }

  lemma {:induction false} TimesSum<T(!new)>(op: (T, T) -> T, e: T, carrier: T -> bool, m: nat, n: nat, x: T)
    requires Monoid(op, e, carrier) && carrier(x)
    ensures op(Times(op, e, m, x), Times(op, e, n, x)) == Times(op, e, m + n, x)
  {
    hide Monoid;
    TimesInside(op, e, carrier, m, x);
    if n == 0 {
      Unit(op, e, carrier, Times(op, e, m, x));
    } else {
      TimesSum(op, e, carrier, m, n - 1, x);
      TimesInside(op, e, carrier, n - 1, x);
      Regroup(op, e, carrier, Times(op, e, m, x), Times(op, e, n - 1, x), x);
    }
  }

  lemma Unit<T(!new)>(op: (T, T) -> T, e: T, carrier: T -> bool, a: T)
    requires Monoid(op, e, carrier) && carrier(a)
    ensures op(a, e) == a == op(e, a)
  {
  }

  lemma Regroup<T(!new)>(op: (T, T) -> T, e: T, carrier: T -> bool, a: T, b: T, c: T)
    requires Monoid(op, e, carrier) && carrier(a) && carrier(b) && carrier(c)
    ensures op(op(a, b), c) == op(a, op(b, c))
  {
  }

  /** What doubling and adding comes to, whatever `op` is. */
  function Ladder<T>(op: (T, T) -> T, r: T, acc: T, k: nat): T {
    if k == 0 then r else Ladder(op, if k % 2 == 1 then op(r, acc) else r, op(acc, acc), k / 2)
  }

  /** The loop of `mul`. */
  method DoubleAndAdd<T>(op: (T, T) -> T, e: T, k0: nat, x: T) returns (r: T)
    ensures r == Ladder(op, e, x, k0)
  {
    r := e;
    var acc := x;
    var k := k0;
    while k > 0
      invariant Ladder(op, r, acc, k) == Ladder(op, e, x, k0)
    {
      if k % 2 == 1 {
        r := op(r, acc);
      }
      acc := op(acc, acc);
      k := k / 2;
    }
  }

  lemma {:induction false} LadderFrom<T(!new)>(op: (T, T) -> T, e: T, carrier: T -> bool, x: T, done: nat, step: nat, k: nat)
    requires Monoid(op, e, carrier) && carrier(x)
    ensures Ladder(op, Times(op, e, done, x), Times(op, e, step, x), k) == Times(op, e, done + step * k, x)
    decreases k
  {
    hide Monoid;
    if k == 0 {
      assert step * k == 0;
    } else {
      TimesSum(op, e, carrier, step, step, x);
      if k % 2 == 1 {
        TimesSum(op, e, carrier, done, step, x);
        Odd(done, step, k, k / 2);
        LadderFrom(op, e, carrier, x, done + step, step + step, k / 2);
      } else {
        Even(step, k, k / 2);
        LadderFrom(op, e, carrier, x, done, step + step, k / 2);
      }
    }
  }

  /** For any associative operation with an identity, the loop returns the k-fold sum. */
  lemma LadderIsTimes<T(!new)>(op: (T, T) -> T, e: T, carrier: T -> bool, k: nat, x: T)
    requires Monoid(op, e, carrier) && carrier(x)
    ensures Ladder(op, e, x, k) == Times(op, e, k, x)
  {
    hide Monoid;
    One(op, e, carrier, x);
    assert Times(op, e, 0, x) == e;
    LadderFrom(op, e, carrier, x, 0, 1, k);
  }

  lemma One<T(!new)>(op: (T, T) -> T, e: T, carrier: T -> bool, x: T)
    requires Monoid(op, e, carrier) && carrier(x)
    ensures Times(op, e, 1, x) == x
  {
    hide Monoid;
    assert Times(op, e, 0, x) == e;
    Unit(op, e, carrier, x);
  }

  lemma Odd(done: nat, step: nat, k: nat, half: nat)
    requires k == 2 * half + 1
    ensures done + step * k == done + step + (step + step) * half
  {
  }

  lemma Even(step: nat, k: nat, half: nat)
    requires k == 2 * half
    ensures step * k == (step + step) * half
  {
  }

  /** The sum of curve points is associative, which is classical and taken as given. */
  ghost predicate Associative(c: field) {
    forall s, t, u :: Element(c, s) && Element(c, t) && Element(c, u) ==>
      Add(c, Add(c, s, t), u) == Add(c, s, Add(c, t, u))
  }

  function Sum(c: field): (Point, Point) -> Point {
    (s, t) => Add(c, s, t)
  }

  function Points(c: field): Point -> bool {
    pt => Element(c, pt)
  }

  /** With Fermat and associativity given, the curve is what double-and-add needs. */
  lemma CurveIsMonoid(c: field)
    requires Fermat(c.p) && Associative(c)
    ensures Monoid(Sum(c), Infinity, Points(c))
  {
    hide Element, Add, Fermat;
    assert Element(c, Infinity) by { InfinityIn(c); }
    forall s, t | Element(c, s) && Element(c, t)
      ensures Element(c, Add(c, s, t))
    {
      AddKeepsCurve(c, s, t);
    }
    forall s
      ensures Add(c, Infinity, s) == s && Add(c, s, Infinity) == s
    {
      InfinityAdds(c, s);
    }
  }

  lemma InfinityIn(c: field)
    ensures Element(c, Infinity)
  {
  }

  lemma InfinityAdds(c: field, s: Point)
    ensures Add(c, Infinity, s) == s && Add(c, s, Infinity) == s
  {
  }

  /** The multiple of a point of the curve is the (k mod n)-fold sum, for every integer k. */
  lemma MultipleIsTimes(c: field, k: int, pt: Point)
    requires Fermat(c.p) && Associative(c) && Element(c, pt)
    ensures var r := Ladder(Sum(c), Infinity, pt, k % c.n);
            r == Times(Sum(c), Infinity, k % c.n, pt) && Element(c, r)
  {
    hide Fermat, Associative, Add, Element, Times, Monoid, Ladder;
    CurveIsMonoid(c);
    TimesInside(Sum(c), Infinity, Points(c), k % c.n, pt);
    LadderIsTimes(Sum(c), Infinity, Points(c), k % c.n, pt);
  }

  /** `mul`, for every scalar and every point, on the curve or not. */
  method Multiply(c: field, k: int, pt: Point) returns (r: Point)
    ensures r == Ladder(Sum(c), Infinity, pt, k % c.n)
    ensures k % c.n == 0 ==> r == Infinity
    ensures Fermat(c.p) && Associative(c) && Element(c, pt) ==>
              r == Times(Sum(c), Infinity, k % c.n, pt) && Element(c, r)
  {
    hide Fermat, Associative, Add, Element, Times;
    if Fermat(c.p) && Associative(c) && Element(c, pt) {
      MultipleIsTimes(c, k, pt);
    }
    r := DoubleAndAdd(Sum(c), Infinity, k % c.n, pt);
  }

  // ----- P-256

  const BASE := Affine(
    0x6B17D1F2E12C4247F8BCE6E563A440F277037D812DEB33A0F4A13945D898C296,
    0x4FE342E2FE1A7F9B8EE7EB4A7C0F9E162BCE33576B315ECECBB6406837BF51F5)

  /** The base point is on P-256. */
  lemma BaseOnCurve()
    ensures Element(P256, BASE)
  {
  }

  /** And so, Fermat and associativity given, is every multiple of it that `mul` returns. */
  lemma VerifierOnCurve(w1: int)
    requires Fermat(P256.p) && Associative(P256)
    ensures Element(P256, Ladder(Sum(P256), Infinity, BASE, w1 % P256.n))
  {
    hide Fermat, Associative, Element, Ladder;
    BaseOnCurve();
    MultipleIsTimes(P256, w1, BASE);
  }
}
