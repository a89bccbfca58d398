/**
 Which point the sum of two points is: their line meets the curve in a third point, and the
 sum is its mirror image.
 */
module CurveLaw {
  import opened Numbers
  import opened Curve

  /** The same x, the y negated. */
  function Mirror(c: field, s: Point): Point {
    if s.Infinity? then Infinity else Affine(s.x, (-s.y) % c.p)
  }

  /** `lam` times the run is the rise: of the chord, or of the tangent where the points are one. */
  predicate IsSlope(c: field, lam: int, s: Point, t: Point)
    requires s.Affine? && t.Affine?
  {
    if s == t then Zero(c.p, lam * (2 * s.y) - (3 * s.x * s.x + c.a))
    else Zero(c.p, lam * (t.x - s.x) - (t.y - s.y))
  }

  /** The point (x, y) is on the line of `s` and `t`. */
  predicate OnLine(c: field, s: Point, t: Point, x: int, y: int)
    requires s.Affine? && t.Affine?
  {
    if s == t then Zero(c.p, 2 * s.y * (y - s.y) - (3 * s.x * s.x + c.a) * (x - s.x))
    else Zero(c.p, (t.x - s.x) * (y - s.y) - (t.y - s.y) * (x - s.x))
  }

  lemma MirrorIff(c: field, s: Point, t: Point)
    requires s.Affine? && t.Affine? && InField(c, s) && InField(c, t)
    ensures t == Mirror(c, s) <==> s.x == t.x && Zero(c.p, s.y + t.y)
  {
    hide Zero;
    var m := (-s.y) % c.p;
    Residue(c.p, -s.y);
    Flip(c.p, -s.y - m);
    assert -(-s.y - m) == s.y + m;
    if t.y == m {
    } else if Zero(c.p, s.y + t.y) {
      ZeroSum(c.p, s.y + t.y, s.y + m);
      Apart(c.p, t.y, m);
    }
  }

  /** The slope the program computes is one. */
  lemma SlopeFits(c: field, s: Point, t: Point)
    requires Fermat(c.p) && s.Affine? && t.Affine? && Element(c, s) && Element(c, t) && t != Mirror(c, s)
    ensures IsSlope(c, Slope(c, s, t), s, t)
  {
    hide Zero, Cubic, Inverse, Fermat;
    MirrorIff(c, s, t);
    if s == t {
      assert s.y + t.y == 2 * s.y;
      Quotient(c.p, 3 * s.x * s.x + c.a, 2 * s.y);
    } else {
      if s.x == t.x {
        SameX(c.p, c.a, c.b, s.x, s.y, t.y);
      }
      if Zero(c.p, t.x - s.x) {
        Apart(c.p, t.x, s.x);
      }
      Quotient(c.p, t.y - s.y, t.x - s.x);
    }
  }

  /** The third point's coordinates, as residues. */
  lemma ThirdIs(p: int, lam: int, x1: int, y1: int, x2: int)
    requires p > 0
    ensures var r := Third(p, lam, x1, y1, x2);
            Zero(p, r.x + x1 + x2 - lam * lam) && Zero(p, -r.y - y1 - lam * (r.x - x1))
  {
    hide Zero;
    var r := Third(p, lam, x1, y1, x2);
    Residue(p, lam * lam - x1 - x2);
    Flip(p, lam * lam - x1 - x2 - r.x);
    Residue(p, lam * (x1 - r.x) - y1);
    assert lam * (x1 - r.x) == -(lam * (r.x - x1));
  }

  /** A point at slope `lam` from the first is on the line. */
  lemma SlopeIsLine(p: int, lam: int, run: int, rise: int, dx: int, dy: int)
    requires p > 0 && Zero(p, lam * run - rise) && Zero(p, dy - lam * dx)
    ensures Zero(p, run * dy - rise * dx)
  {
    hide Zero;
    ZeroTimes(p, dy - lam * dx, run);
    ZeroTimes(p, lam * run - rise, dx);
    ZeroSum(p, (dy - lam * dx) * run, (lam * run - rise) * dx);
    Rearranged(lam, run, rise, dx, dy);
  }

  lemma Rearranged(lam: int, run: int, rise: int, dx: int, dy: int)
    ensures (dy - lam * dx) * run + (lam * run - rise) * dx == run * dy - rise * dx
  {
    assert (dy - lam * dx) * run == run * dy - (lam * dx) * run;
    assert (lam * run - rise) * dx == (lam * run) * dx - rise * dx;
    assert (lam * dx) * run == (lam * run) * dx;
  }

  /** A point that is nowhere is added by the other; a point and its mirror image cancel, and no others do. */
  lemma CancelsIff(c: field, s: Point, t: Point)
    requires InField(c, s) && InField(c, t)
    ensures s.Infinity? ==> Add(c, s, t) == t
    ensures t.Infinity? ==> Add(c, s, t) == s
    ensures Add(c, s, t) == Infinity <==> t == Mirror(c, s)
  {
    hide Slope, Third, Zero;
    if s.Affine? && t.Affine? {
      MirrorIff(c, s, t);
      ThirdAffine(c.p, Slope(c, s, t), s.x, s.y, t.x);
    }
  }

  lemma ThirdAffine(p: int, lam: int, x1: int, y1: int, x2: int)
    requires p > 0
    ensures Third(p, lam, x1, y1, x2).Affine?
  {
  }

  /**
   Two points of the curve that do not cancel: the mirror image of their sum lies on their
   line, and with it the three x add up to the square of the line's slope.
   */
  lemma SumLaw(c: field, s: Point, t: Point)
    requires Fermat(c.p) && s.Affine? && t.Affine? && Element(c, s) && Element(c, t) && t != Mirror(c, s)
    ensures var r := Add(c, s, t);
            && r.Affine? && Element(c, r)
            && OnLine(c, s, t, r.x, -r.y)
            && exists lam :: IsSlope(c, lam, s, t) && Zero(c.p, r.x + s.x + t.x - lam * lam)
  {
    hide Zero, Cubic, Inverse, Fermat, Slope, Third, Element;
    MirrorOf(c, s, t);
    AddKeepsCurve(c, s, t);
    SlopeFits(c, s, t);
    var lam := Slope(c, s, t);
    var r := Add(c, s, t);
    ThirdIs(c.p, lam, s.x, s.y, t.x);
    ThirdAffine(c.p, lam, s.x, s.y, t.x);
    var dx, dy := r.x - s.x, -r.y - s.y;
    if s == t {
      SlopeIsLine(c.p, lam, 2 * s.y, 3 * s.x * s.x + c.a, dx, dy);
    } else {
      SlopeIsLine(c.p, lam, t.x - s.x, t.y - s.y, dx, dy);
    }
    assert IsSlope(c, lam, s, t);
  }

  lemma MirrorOf(c: field, s: Point, t: Point)
    requires s.Affine? && t.Affine? && Element(c, s) && Element(c, t)
    ensures t == Mirror(c, s) <==> s.x == t.x && Zero(c.p, s.y + t.y)
  {
    MirrorIff(c, s, t);
  }

  /** The slope of a line is one residue. */
  lemma OneSlope(c: field, lam: int, mu: int, s: Point, t: Point)
    requires Fermat(c.p) && s.Affine? && t.Affine? && Element(c, s) && Element(c, t) && t != Mirror(c, s)
    requires IsSlope(c, lam, s, t) && IsSlope(c, mu, s, t)
    ensures Zero(c.p, lam - mu)
  {
    hide Zero, Cubic, Inverse, Fermat;
    MirrorIff(c, s, t);
    if s == t {
      var d := 2 * s.y;
      assert s.y + t.y == d;
      ZeroSum(c.p, lam * d - (3 * s.x * s.x + c.a), mu * d - (3 * s.x * s.x + c.a));
      assert lam * d - mu * d == d * (lam - mu);
      Cancel(c.p, d, lam - mu);
    } else {
      var d := t.x - s.x;
      if s.x == t.x {
        SameX(c.p, c.a, c.b, s.x, s.y, t.y);
      }
      if Zero(c.p, d) {
        Apart(c.p, t.x, s.x);
      }
      ZeroSum(c.p, lam * d - (t.y - s.y), mu * d - (t.y - s.y));
      assert lam * d - mu * d == d * (lam - mu);
      Cancel(c.p, d, lam - mu);
    }
  }

  /** So the order of the two does not matter. */
  lemma Commutes(c: field, s: Point, t: Point)
    requires Fermat(c.p) && Element(c, s) && Element(c, t)
    ensures Add(c, s, t) == Add(c, t, s)
  {
    hide Zero, Cubic, Inverse, Fermat, Slope, Third;
    if s.Affine? && t.Affine? && s != t {
      MirrorIff(c, s, t);
      MirrorIff(c, t, s);
      assert s.y + t.y == t.y + s.y;
      if t != Mirror(c, s) {
        CommutesChord(c, s, t);
      }
    }
  }

  lemma CommutesChord(c: field, s: Point, t: Point)
    requires Fermat(c.p) && s.Affine? && t.Affine? && Element(c, s) && Element(c, t) && s != t
    requires t != Mirror(c, s) && s != Mirror(c, t)
    ensures Third(c.p, Slope(c, s, t), s.x, s.y, t.x) == Third(c.p, Slope(c, t, s), t.x, t.y, s.x)
  {
    hide Zero, Cubic, Inverse, Fermat, Slope, Third;
    var lam, mu := Slope(c, s, t), Slope(c, t, s);
    SlopeFits(c, s, t);
    SlopeFits(c, t, s);
    Flip(c.p, mu * (s.x - t.x) - (s.y - t.y));
    assert -(mu * (s.x - t.x) - (s.y - t.y)) == mu * (t.x - s.x) - (t.y - s.y) by { Negates(mu, s.x, t.x); }
    OneSlope(c, lam, mu, s, t);
    SameThird(c.p, lam, mu, s, t);
  }

  lemma Negates(mu: int, a: int, b: int)
    ensures mu * (a - b) == -(mu * (b - a))
  {
  }

  lemma SameThird(p: int, lam: int, mu: int, s: Point, t: Point)
    requires p > 0 && s.Affine? && t.Affine? && Zero(p, lam - mu) && Zero(p, lam * (t.x - s.x) - (t.y - s.y))
    ensures Third(p, lam, s.x, s.y, t.x) == Third(p, mu, t.x, t.y, s.x)
  {
    hide Zero, Third;
    var r, q := Third(p, lam, s.x, s.y, t.x), Third(p, mu, t.x, t.y, s.x);
    ThirdIs(p, lam, s.x, s.y, t.x);
    ThirdIs(p, mu, t.x, t.y, s.x);
    ThirdRange(p, lam, s.x, s.y, t.x);
    ThirdRange(p, mu, t.x, t.y, s.x);
    ThirdAffine(p, lam, s.x, s.y, t.x);
    ThirdAffine(p, mu, t.x, t.y, s.x);
    ZeroTimes(p, lam - mu, lam + mu);
    assert (lam - mu) * (lam + mu) == lam * lam - mu * mu;
    ZeroSum(p, r.x + s.x + t.x - lam * lam, q.x + t.x + s.x - mu * mu);
    ZeroSum(p, r.x - q.x - (lam * lam - mu * mu), lam * lam - mu * mu);
    Apart(p, r.x, q.x);
    SameY(p, lam, mu, s, t, r.x, r.y, q.y);
    Apart(p, r.y, q.y);
  }

  lemma ThirdRange(p: int, lam: int, x1: int, y1: int, x2: int)
    requires p > 0
    ensures var r := Third(p, lam, x1, y1, x2); 0 <= r.x < p && 0 <= r.y < p
  {
    var x3 := (lam * lam - x1 - x2) % p;
    Residue(p, lam * lam - x1 - x2);
    Residue(p, lam * (x1 - x3) - y1);
  }

  lemma SameY(p: int, lam: int, mu: int, s: Point, t: Point, x: int, y: int, z: int)
    requires p > 0 && s.Affine? && t.Affine? && Zero(p, lam - mu) && Zero(p, lam * (t.x - s.x) - (t.y - s.y))
    requires Zero(p, -y - s.y - lam * (x - s.x)) && Zero(p, -z - t.y - mu * (x - t.x))
    ensures Zero(p, y - z)
  {
    hide Zero;
    var a, b := -y - s.y - lam * (x - s.x), -z - t.y - mu * (x - t.x);
    ZeroTimes(p, lam - mu, x - t.x);
    ZeroSum(p, b, a);
    ZeroSum(p, b - a, lam * (t.x - s.x) - (t.y - s.y));
    ZeroSum(p, b - a - (lam * (t.x - s.x) - (t.y - s.y)), (lam - mu) * (x - t.x));
    assert (lam - mu) * (x - t.x) == lam * (x - t.x) - mu * (x - t.x);
    assert lam * (x - s.x) == lam * (x - t.x) + lam * (t.x - s.x);
  }

  /** What the run of the line of two points that do not cancel is: not zero. */
  function RunOf(s: Point, t: Point): int
    requires s.Affine? && t.Affine?
  {
    if s == t then 2 * s.y else t.x - s.x
  }

  lemma RunIsNot(c: field, s: Point, t: Point)
    requires Fermat(c.p) && s.Affine? && t.Affine? && Element(c, s) && Element(c, t) && t != Mirror(c, s)
    ensures !Zero(c.p, RunOf(s, t))
  {
    hide Zero, Cubic, Inverse, Fermat;
    MirrorIff(c, s, t);
    if s == t {
      assert s.y + t.y == 2 * s.y;
    } else {
      if s.x == t.x {
        SameX(c.p, c.a, c.b, s.x, s.y, t.y);
      }
      if Zero(c.p, t.x - s.x) {
        Apart(c.p, t.x, s.x);
      }
    }
  }

  lemma SameOnLine(p: int, run: int, rise: int, dx: int, y: int, z: int, w: int)
    requires p >= 3 && Fermat(p) && !Zero(p, run)
    requires Zero(p, run * (-y - w) - rise * dx) && Zero(p, run * (-z - w) - rise * dx)
    ensures Zero(p, y - z)
  {
    hide Zero, Inverse, Fermat;
    ZeroSum(p, run * (-z - w) - rise * dx, run * (-y - w) - rise * dx);
    assert run * (-z - w) - run * (-y - w) == run * (y - z) by { Spread3(run, y, z, w); }
    Cancel(p, run, y - z);
  }

  lemma Spread3(run: int, y: int, z: int, w: int)
    ensures run * (-z - w) - run * (-y - w) == run * (y - z)
  {
  }

  /** No other point with reduced coordinates satisfies the law. */
  lemma SumIsTheOnly(c: field, s: Point, t: Point, r: Point, lam: int)
    requires Fermat(c.p) && s.Affine? && t.Affine? && Element(c, s) && Element(c, t) && t != Mirror(c, s)
    requires r.Affine? && InField(c, r) && OnLine(c, s, t, r.x, -r.y)
    requires IsSlope(c, lam, s, t) && Zero(c.p, r.x + s.x + t.x - lam * lam)
    ensures r == Add(c, s, t)
  {
    hide Zero, Cubic, Inverse, Fermat, Slope, Third, Element, Add, IsSlope, OnLine;
    var q := Add(c, s, t);
    SumLaw(c, s, t);
    var mu :| IsSlope(c, mu, s, t) && Zero(c.p, q.x + s.x + t.x - mu * mu);
    OneSlope(c, lam, mu, s, t);
    ZeroTimes(c.p, lam - mu, lam + mu);
    assert (lam - mu) * (lam + mu) == lam * lam - mu * mu;
    ZeroSum(c.p, r.x + s.x + t.x - lam * lam, q.x + s.x + t.x - mu * mu);
    ZeroSum(c.p, r.x - q.x - (lam * lam - mu * mu), lam * lam - mu * mu);
    InFieldOf(c, q);
    Apart(c.p, r.x, q.x);
    SameYOnLine(c, s, t, r.x, r.y, q.y);
    Apart(c.p, r.y, q.y);
  }

  lemma InFieldOf(c: field, q: Point)
    requires Element(c, q)
    ensures InField(c, q)
  {
  }

  lemma SameYOnLine(c: field, s: Point, t: Point, x: int, y: int, z: int)
    requires Fermat(c.p) && s.Affine? && t.Affine? && Element(c, s) && Element(c, t) && t != Mirror(c, s)
    requires OnLine(c, s, t, x, -y) && OnLine(c, s, t, x, -z)
    ensures Zero(c.p, y - z)
  {
    hide Zero, Cubic, Inverse, Fermat, Element;
    RunIsNot(c, s, t);
    SameOnLine(c.p, RunOf(s, t), if s == t then 3 * s.x * s.x + c.a else t.y - s.y, x - s.x, y, z, s.y);
  }
}
