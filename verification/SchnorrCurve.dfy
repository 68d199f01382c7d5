/** The addition of points: the chord and the tangent, that sums stay on the curve, and which laws of a
    commutative group follow from that. */
module SchnorrCurve {
  import opened Common
  import opened NumberTheory
  import opened Bytes
  import opened Groups
  import opened Schnorr

  /** How far (x, y) is off the curve y^2 = x^3 + 7. */
  function Off(x: int, y: int): int { y * y - x * x * x - 7 }

  // ------------------------------------------------------------------ multiples of p

  lemma {:induction false} ZeroTimes(p: int, k: int, a: int)
    requires p > 0 && a % p == 0
    ensures (k * a) % p == 0
  {
    ModMulRight(k, a, p);
  }

  lemma {:induction false} ZeroPlus(p: int, a: int, b: int)
    requires p > 0 && a % p == 0
    ensures (a + b) % p == b % p
  {
    assert a == (a / p) * p;
    ModShift(b, a / p, p);
  }

  lemma {:induction false} Reduced(p: int, a: int)
    requires p > 0
    ensures (a % p - a) % p == 0 && (a - a % p) % p == 0
  {
    assert a - a % p == (a / p) * p + 0;
    ModUnique(a - a % p, a / p, 0, p);
    ModUnique(a % p - a, -(a / p), 0, p);
  }

  lemma {:induction false} OnCurveIs(c: Curve, P: Point)
    requires c.p >= 2 && 0 <= P.x < c.p && 0 <= P.y < c.p
    ensures OnCurve(c, P) <==> Off(P.x, P.y) % c.p == 0
  {
    var square, cube := P.y * P.y, P.x * P.x * P.x;
    SmallPowers(P.x);
    SmallPowers(P.y);
    hide Pow;
    ModPlus(cube, 7, c.p);
    ModDifference(square, cube + 7, c.p);
  }

  /** Being on the curve depends on the coordinates modulo p. */
  lemma {:induction false} OffReduced(p: int, x: int, y: int)
    requires p > 0
    ensures Off(x % p, y % p) % p == Off(x, y) % p
  {
    var u, v := x % p, y % p;
    ModUnique(u, 0, u, p);
    ModUnique(v, 0, v, p);
    ModMulCongruent(v, y, v, y, p);
    ModMulCongruent(u, x, u, x, p);
    ModMulCongruent(u * u, x * x, u, x, p);
    SameOff(p, v * v, y * y, u * u * u, x * x * x);
  }

  lemma {:induction false} SameOff(p: int, a: int, b: int, s: int, t: int)
    requires p > 0 && a % p == b % p && s % p == t % p
    ensures (a - s - 7) % p == (b - t - 7) % p
  {
    ModDifference(a, b, p);
    ModDifference(t, s, p);
    ZeroPlus(p, a - b, t - s);
    assert (a - s - 7) - (b - t - 7) == (a - b) + (t - s);
    ModDifference(a - s - 7, b - t - 7, p);
  }

  // ------------------------------------------------------------------ the slope

  /** w / v modulo p, as the code computes it. */
  lemma {:induction false} Quotient(p: int, v: int, w: int)
    requires Prime(p) && v % p != 0
    ensures var lam := (w * PowMod(v, p - 2, p)) % p; 0 <= lam < p && (v * lam - w) % p == 0
  {
    var inverse := Pow(v, p - 2);
    assert Pow(v, p - 1) == v * inverse;
    Fermat(p, v);
    hide Pow;
    ModMulRight(w, inverse, p);
    var lam := (w * inverse) % p;
    ModMulRight(v, w * inverse, p);
    assert v * (w * inverse) == w * (v * inverse);
    ModMulRight(w, v * inverse, p);
    assert w * 1 == w;
    ModDifference(v * lam, w, p);
  }

  /** There is only one slope. */
  lemma {:induction false} OneSlope(p: int, v: int, w: int, l: int, m: int)
    requires Prime(p) && v % p != 0 && 0 <= l < p && 0 <= m < p
    requires (v * l - w) % p == 0 && (v * m - w) % p == 0
    ensures l == m
  {
    ModDifference(v * l, w, p);
    ModDifference(v * m, w, p);
    Cancel(p, v, l, m);
    ModUnique(l, 0, l, p);
    ModUnique(m, 0, m, p);
  }

  /** lam is the slope of the line through P and Q, or of the tangent where they are one point. */
  ghost predicate Slope(p: int, P: Point, Q: Point, lam: int)
    requires p > 0
  {
    && 0 <= lam < p
    && if P == Q then (2 * P.y * lam - 3 * P.x * P.x) % p == 0
       else ((Q.x - P.x) * lam - (Q.y - P.y)) % p == 0
  }

  /** R, turned over, lies on the line of that slope through P, and the three x-coordinates add up to the
      square of the slope. */
  ghost predicate Third(p: int, P: Point, Q: Point, lam: int, R: Point)
    requires p > 0
  {
    && 0 <= R.x < p && 0 <= R.y < p
    && (P.x + Q.x + R.x - lam * lam) % p == 0
    && (P.y + lam * (R.x - P.x) + R.y) % p == 0
  }

  /** Neither opposite points nor a point that is its own opposite. */
  ghost predicate Apart(P: Point, Q: Point) { if P.x == Q.x then P == Q && P.y != 0 else true }

  lemma {:induction false} SmallNonzero(p: int, a: int)
    requires p > 0 && -p < a < p && a != 0
    ensures a % p != 0
  {
    if a > 0 {
      ModUnique(a, 0, a, p);
    } else {
      ModUnique(a, -1, a + p, p);
    }
  }

  lemma {:induction false} TwiceNonzero(p: int, y: int)
    requires Prime(p) && p > 2 && 0 < y < p
    ensures (2 * y) % p != 0
  {
    SmallNonzero(p, y);
    SmallNonzero(p, 2);
    if (2 * y) % p == 0 {
      Euclid(p, 2, y);
    }
  }

  /** The sum of two points is the third point of their line, turned over. */
  lemma {:induction false} SumIsThird(c: Curve, P: Point, Q: Point) returns (lam: int, R: Point)
    requires Prime(c.p) && c.p > 2 && OnCurve(c, P) && OnCurve(c, Q) && Apart(P, Q)
    ensures PointAdd(c, Some(P), Some(Q)) == Some(R)
    ensures Slope(c.p, P, Q, lam) && Third(c.p, P, Q, lam, R)
  {
    var p := c.p;
    lam := if P == Q then (3 * P.x * P.x * PowMod(2 * P.y, p - 2, p)) % p
           else ((Q.y - P.y) * PowMod(Q.x - P.x, p - 2, p)) % p;
    if P == Q {
      TwiceNonzero(p, P.y);
      Quotient(p, 2 * P.y, 3 * P.x * P.x);
    } else {
      SmallNonzero(p, Q.x - P.x);
      Quotient(p, Q.x - P.x, Q.y - P.y);
    }
    hide PowMod, OnCurve;
    var x3 := (lam * lam - P.x - Q.x) % p;
    R := Point(x3, (lam * (P.x - x3) - P.y) % p);
    ThirdMade(p, P, Q, lam, R);
  }

  lemma {:induction false} ThirdMade(p: int, P: Point, Q: Point, lam: int, R: Point)
    requires p > 0 && R.x == (lam * lam - P.x - Q.x) % p && R.y == (lam * (P.x - R.x) - P.y) % p
    ensures Third(p, P, Q, lam, R)
  {
    var a, b := lam * lam - P.x - Q.x, lam * (P.x - R.x) - P.y;
    assert lam * (R.x - P.x) == -(lam * (P.x - R.x));
    Reduced(p, a);
    Reduced(p, b);
    assert P.x + Q.x + R.x - lam * lam == a % p - a;
    assert P.y + lam * (R.x - P.x) + R.y == b % p - b;
  }

  // ------------------------------------------------------------------ sums stay on the curve

  /** What is left of the cubic along a line through one of its points. */
  function Quadratic(x: int, y: int, l: int, t: int): int {
    t * t - (l * l - 3 * x) * t + (3 * x * x - 2 * l * y)
  }

  /** Along the line through (x, y) of slope l, off by t: the cubic less the square is t times a quadratic. */
  lemma {:induction false} AlongLine(x: int, y: int, l: int, t: int)
    ensures Off(x + t, y + l * t) == Off(x, y) - t * Quadratic(x, y, l, t)
  {
    var a, s, q := l * t, t * t, x * x;
    SquareOfSum(y, a);
    Cube(x, t);
    Distribute(t, s, (l * l - 3 * x) * t, 3 * x * x - 2 * l * y);
    SlopeTerm(x, l, t);
    LastTerm(x, y, l, t);
    assert t * s == s * t && x * x * x == q * x && y * a == a * y;
  }

  lemma SquareOfSum(y: int, a: int)
    ensures (y + a) * (y + a) == y * y + 2 * (y * a) + a * a
  {
  }

  lemma Distribute(t: int, a: int, b: int, c: int)
    ensures t * (a - b + c) == t * a - t * b + t * c
  {
  }

  lemma SlopeTerm(x: int, l: int, t: int)
    ensures t * ((l * l - 3 * x) * t) == (l * t) * (l * t) - 3 * (x * (t * t))
  {
    assert (l * l - 3 * x) * t == (l * l) * t - 3 * (x * t);
  }

  lemma LastTerm(x: int, y: int, l: int, t: int)
    ensures t * (3 * x * x - 2 * l * y) == 3 * ((x * x) * t) - 2 * (y * (l * t))
  {
    assert 3 * x * x == 3 * (x * x) && 2 * l * y == 2 * (l * y);
    assert (l * y) * t == y * (l * t);
  }

  lemma {:induction false} Cube(x: int, t: int)
    ensures (x + t) * (x + t) * (x + t) == (x * x) * x + 3 * ((x * x) * t) + 3 * (x * (t * t)) + (t * t) * t
  {
    assert (x + t) * (x + t) == x * x + 2 * (x * t) + t * t;
  }

  /** Where the line meets the curve again the quadratic is zero modulo p. */
  ghost predicate Meets(p: int, x: int, y: int, l: int, e: int)
    requires p > 0
  {
    Quadratic(x, y, l, e) % p == 0
  }

  lemma {:induction false} ChordMeets(p: int, P: Point, Q: Point, l: int)
    requires Prime(p) && Off(P.x, P.y) % p == 0 && Off(Q.x, Q.y) % p == 0
    requires (Q.x - P.x) % p != 0 && ((Q.x - P.x) * l - (Q.y - P.y)) % p == 0
    ensures Meets(p, P.x, P.y, l, Q.x - P.x)
  {
    var e, s := Q.x - P.x, (Q.x - P.x) * l - (Q.y - P.y);
    var k := Quadratic(P.x, P.y, l, e);
    ChordIdentity(P.x, P.y, e, Q.y, l, s);
    hide Off, Quadratic;
    Combined(p, Off(P.x, P.y), Off(Q.x, Q.y), s + 2 * Q.y, s);
    Euclid(p, e, k);
  }

  lemma {:induction false} Combined(p: int, a: int, b: int, k: int, s: int)
    requires p > 0 && a % p == 0 && b % p == 0 && s % p == 0
    ensures (a - b - k * s) % p == 0
  {
    ZeroTimes(p, k, s);
    ModDifference(a, b, p);
    ModDifference(a - b, k * s, p);
  }

  /** From (x, y) along the slope to x + e, where the point (x + e, v) is off the line by s. */
  lemma {:induction false} ChordIdentity(x: int, y: int, e: int, v: int, l: int, s: int)
    requires s == e * l - (v - y)
    ensures e * Quadratic(x, y, l, e) == Off(x, y) - Off(x + e, v) - (s + 2 * v) * s
  {
    hide Off, Quadratic;
    AlongLine(x, y, l, e);
    assert y + l * e == v + s;
    SquareOff(x + e, v, s);
  }

  lemma SquareOff(u: int, v: int, s: int)
    ensures Off(u, v + s) == Off(u, v) + (s + 2 * v) * s
  {
    assert (v + s) * (v + s) == v * v + 2 * (v * s) + s * s;
    assert (s + 2 * v) * s == s * s + 2 * (v * s);
  }

  lemma {:induction false} TangentMeets(p: int, P: Point, l: int)
    requires p > 0 && (2 * P.y * l - 3 * P.x * P.x) % p == 0
    ensures Meets(p, P.x, P.y, l, 0)
  {
    var s := 2 * P.y * l - 3 * P.x * P.x;
    ZeroTimes(p, -1, s);
    assert 2 * l * P.y == 2 * P.y * l;
  }

  /** The two other roots of the quadratic add up to the slope's square less three times x. */
  lemma {:induction false} OtherRoot(p: int, x: int, y: int, l: int, e: int)
    requires p > 0 && Off(x, y) % p == 0 && Meets(p, x, y, l, e)
    ensures var t := l * l - 3 * x - e; Off(x + t, y + l * t) % p == 0
  {
    hide Off, Quadratic;
    var t, k := l * l - 3 * x - e, Quadratic(x, y, l, e);
    AlongLine(x, y, l, t);
    SameQuadratic(x, y, l, e, t);
    ZeroTimes(p, -t, k);
    ZeroPlus(p, -t * k, Off(x, y));
  }

  lemma {:induction false} SameQuadratic(x: int, y: int, l: int, e: int, t: int)
    requires t == l * l - 3 * x - e
    ensures Quadratic(x, y, l, t) == Quadratic(x, y, l, e)
  {
    var a := l * l - 3 * x;
    assert t * t - a * t == e * e - a * e;
  }

  /** So the third point is on the curve. */
  lemma {:induction false} ThirdOnCurve(c: Curve, P: Point, Q: Point, lam: int, R: Point)
    requires Prime(c.p) && OnCurve(c, P) && OnCurve(c, Q) && Apart(P, Q)
    requires Slope(c.p, P, Q, lam) && Third(c.p, P, Q, lam, R)
    ensures OnCurve(c, R)
  {
    var p, e := c.p, Q.x - P.x;
    OnCurveIs(c, P);
    OnCurveIs(c, Q);
    if P == Q {
      TangentMeets(p, P, lam);
    } else {
      SmallNonzero(p, e);
      ChordMeets(p, P, Q, lam);
    }
    OtherRoot(p, P.x, P.y, lam, e);
    var t := lam * lam - 3 * P.x - e;
    TurnOver(p, P, Q, lam, R, t);
    OnCurveIs(c, R);
  }

  /** R is the point at t on the line, turned over and reduced. */
  lemma {:induction false} TurnOver(p: int, P: Point, Q: Point, lam: int, R: Point, t: int)
    requires p > 0 && Third(p, P, Q, lam, R) && t == lam * lam - 2 * P.x - Q.x
    requires Off(P.x + t, P.y + lam * t) % p == 0
    ensures Off(R.x, R.y) % p == 0
  {
    var u, v := P.x + t, P.y + lam * t;
    var d := R.x - u;
    assert d == P.x + Q.x + R.x - lam * lam;
    Split(lam, d, t);
    assert R.x - P.x == d + t;
    assert (lam * d + (v + R.y)) % p == 0;
    hide Third, Off;
    ZeroTimes(p, lam, d);
    ZeroPlus(p, lam * d, v + R.y);
    Opposite(p, u, v, R.x, R.y);
  }

  lemma Split(l: int, d: int, t: int)
    ensures l * (d + t) == l * d + l * t
  {
  }

  lemma {:induction false} Opposite(p: int, u: int, v: int, x: int, y: int)
    requires p > 0 && 0 <= x < p && 0 <= y < p && (x - u) % p == 0 && (v + y) % p == 0 && Off(u, v) % p == 0
    ensures Off(x, y) % p == 0
  {
    assert Off(u, -v) == Off(u, v);
    hide Off;
    ModDifference(x, u, p);
    ModDifference(y, -v, p);
    ModUnique(x, 0, x, p);
    ModUnique(y, 0, y, p);
    OffReduced(p, u, -v);
  }

  // ------------------------------------------------------------------ the laws

  /** (x, 0) is on the curve for some x: a point that is its own opposite. */
  ghost predicate SelfOpposite(c: Curve) { exists x: int :: OnCurve(c, Point(x, 0)) }

  /** The opposite points, and they alone, add up to infinity. */
  lemma {:induction false} OppositesExactly(c: Curve, P: Point, Q: Point)
    requires Prime(c.p) && c.p > 2 && OnCurve(c, P) && OnCurve(c, Q)
    ensures PointAdd(c, Some(P), Some(Q)) == None <==> P.y != 0 && Q == Point(P.x, c.p - P.y)
  {
    hide PowMod;
    if P.x == Q.x && P.y != Q.y {
      RootsAgree(c.p, P.y, Q.y);
    }
    if Q == Point(P.x, c.p - P.y) && P.y == Q.y {
      HalfOdd(c.p, P.y);
    }
  }

  lemma {:induction false} HalfOdd(p: int, y: int)
    requires Prime(p) && p == 2 * y
    ensures y == 1
  {
    assert 1 < 2 < p ==> !Divides(2, p);
  }

  /** Addition is commutative, whatever the points. */
  lemma {:induction false} AddCommutes(c: Curve, a: MaybePoint, b: MaybePoint)
    requires Prime(c.p) && c.p > 2
    ensures Commutes(CurveGroup(c), a, b)
  {
    if a.Some? && b.Some? && OnCurve(c, a.value) && OnCurve(c, b.value) && a.value.x != b.value.x {
      var P, Q := a.value, b.value;
      var l, R := SumIsThird(c, P, Q);
      var m, S := SumIsThird(c, Q, P);
      SameThird(c.p, P, Q, l, m, R, S);
    }
  }

  lemma {:induction false} SameThird(p: int, P: Point, Q: Point, l: int, m: int, R: Point, S: Point)
    requires Prime(p) && 0 <= P.x < p && 0 <= Q.x < p && P.x != Q.x
    requires Slope(p, P, Q, l) && Third(p, P, Q, l, R) && Slope(p, Q, P, m) && Third(p, Q, P, m, S)
    ensures R == S
  {
    var e, w := Q.x - P.x, Q.y - P.y;
    SmallNonzero(p, e);
    TurnedSlope(p, e, w, m, P.x - Q.x, P.y - Q.y);
    OneSlope(p, e, w, l, m);
    hide Slope;
    Equal(p, R.x, S.x, P.x + Q.x - l * l);
    FromEither(p, l, R.x - P.x, e, w, P.y, S.y);
    assert R.x - Q.x == R.x - P.x - e && Q.y == P.y + w;
    Equal(p, R.y, S.y, P.y + l * (R.x - P.x));
  }

  lemma {:induction false} TurnedSlope(p: int, e: int, w: int, m: int, f: int, v: int)
    requires p > 0 && f == -e && v == -w && (f * m - v) % p == 0
    ensures (e * m - w) % p == 0
  {
    var s := f * m - v;
    assert f * m == -(e * m);
    ZeroTimes(p, -1, s);
    assert -1 * s == e * m - w;
  }

  /** The line may be followed from either point. */
  lemma {:induction false} FromEither(p: int, l: int, t: int, e: int, w: int, y: int, z: int)
    requires p > 0 && (e * l - w) % p == 0 && (y + w + l * (t - e) + z) % p == 0
    ensures (y + l * t + z) % p == 0
  {
    var s := e * l - w;
    assert l * (t - e) == l * t - e * l;
    ZeroPlus(p, s, y + w + l * (t - e) + z);
    assert s + (y + w + l * (t - e) + z) == y + l * t + z;
  }

  lemma {:induction false} Equal(p: int, a: int, b: int, k: int)
    requires p > 0 && 0 <= a < p && 0 <= b < p && (k + a) % p == 0 && (k + b) % p == 0
    ensures a == b
  {
    ModDifference(k + a, k + b, p);
    if a != b {
      SmallNonzero(p, a - b);
    }
  }

  /** Sums of points stay on the curve, but for the double of a point that is its own opposite. */
  lemma {:induction false} SumOnCurve(c: Curve, a: MaybePoint, b: MaybePoint)
    requires Prime(c.p) && c.p > 2 && !SelfOpposite(c)
    ensures Closed(CurveGroup(c), a, b)
  {
    if a.Some? && b.Some? && OnCurve(c, a.value) && OnCurve(c, b.value) && PointAdd(c, a, b).Some? {
      var P, Q := a.value, b.value;
      assert P.y == 0 ==> P == Point(P.x, 0);
      hide OnCurve, PowMod;
      var lam, R := SumIsThird(c, P, Q);
      ThirdOnCurve(c, P, Q, lam, R);
    }
  }

  /** That one leaves the curve. */
  lemma {:induction false} DoubleLeaves(c: Curve, x: int)
    requires Prime(c.p) && c.p > 7 && OnCurve(c, Point(x, 0))
    ensures !Closed(CurveGroup(c), Some(Point(x, 0)), Some(Point(x, 0)))
  {
    var p, P := c.p, Point(x, 0);
    var cube := x * x * x;
    OnCurveIs(c, P);
    PowZero(p - 2);
    ModUnique(0, 0, 0, p);
    assert PointAdd(c, Some(P), Some(P)) == Some(Point((-2 * x) % p, 0)) by {
      assert 3 * x * x * 0 == 0;
      assert 0 * (x - (-2 * x) % p) == 0;
    }
    OnCurveIs(c, Point((-2 * x) % p, 0));
    OffReduced(p, -2 * x, 0);
    assert Off(-2 * x, 0) == -8 * Off(x, 0) - 63 by { MinusTwice(x); }
    ZeroTimes(p, -8, Off(x, 0));
    ZeroPlus(p, -8 * Off(x, 0), -63);
    NotSixtyThree(p);
  }

  lemma {:induction false} MinusTwice(x: int)
    ensures Off(-2 * x, 0) == -8 * Off(x, 0) - 63
  {
    assert (-2 * x) * (-2 * x) == 4 * (x * x);
    assert 4 * (x * x) * (-2 * x) == -8 * (x * x * x);
  }

  lemma {:induction false} NotSixtyThree(p: int)
    requires Prime(p) && p > 7
    ensures (-63) % p != 0
  {
    SmallNonzero(p, 7);
    assert 9 % p != 0 by {
      if p == 9 {
        assert Divides(3, 9);
      } else if p > 9 {
        SmallNonzero(p, 9);
      }
    }
    if (-63) % p == 0 {
      ZeroTimes(p, -1, -63);
      Euclid(p, 9, 7);
    }
  }

  ghost predicate Associative(c: Curve)
    requires c.p >= 2
  {
    forall a, b, d :: Associates(CurveGroup(c), a, b, d)
  }

  /** The code's addition makes the points a commutative group exactly when no point is its own opposite
      and the addition is associative. */
  lemma {:induction false} LawsIff(c: Curve)
    requires Prime(c.p) && c.p > 7
    ensures Laws(CurveGroup(c)) <==> !SelfOpposite(c) && Associative(c)
  {
    hide OnCurve, PointAdd;
    var g := CurveGroup(c);
    forall a, b ensures Commutes(g, a, b) {
      AddCommutes(c, a, b);
    }
    if !SelfOpposite(c) {
      forall a, b ensures Closed(g, a, b) {
        SumOnCurve(c, a, b);
      }
      forall a ensures Unital(g, a) {
        InfinityAdds(c, a);
      }
    } else {
      var x: int :| OnCurve(c, Point(x, 0));
      DoubleLeaves(c, x);
    }
  }

  lemma InfinityAdds(c: Curve, a: MaybePoint)
    requires c.p >= 2
    ensures Unital(CurveGroup(c), a)
  {
  }

  // ------------------------------------------------------------------ lifting

  /** lift_x finds the point at x whose y is even, if there is a point at x at all. */
  lemma {:induction false} LiftXExactly(c: Curve, x: int, P: Point)
    requires Prime(c.p) && c.p % 4 == 3 && x >= 0
    ensures LiftX(c, x) == Some(P) <==> OnCurve(c, P) && P.x == x && P.y % 2 == 0
    ensures LiftX(c, x) == None ==> !OnCurve(c, Point(x, P.y))
  {
    hide LiftX, OnCurve;
    if LiftX(c, x).Some? {
      LiftXOnCurve(c, x);
    }
    if OnCurve(c, P) && P.x == x {
      LiftXRecovers(c, P);
    }
    if OnCurve(c, Point(x, P.y)) {
      LiftXRecovers(c, Point(x, P.y));
    }
  }

  // ------------------------------------------------------------------ what is taken on trust

  /** What is taken from the theory of the curve: p and n are prime, no point is its own opposite, addition is
      associative, and n takes the base point to infinity. */
  ghost predicate Theory(c: Curve)
    requires c.p >= 2
  {
    && Prime(c.p) && Prime(c.n) && !SelfOpposite(c) && Associative(c)
    && Times(CurveGroup(c), c.n, Some(c.g)) == None
  }

  lemma {:induction false} LawsFollow(c: Curve)
    requires Constants(c) && Theory(c)
    ensures CurveLaws(c)
  {
    hide PointAdd, OnCurve, Power256, SelfOpposite, Associative;
    LawsIff(c);
    BasePoint(c);
    hide Constants, Prime, Laws;
    forall k: nat | 0 < k < c.n ensures Times(CurveGroup(c), k, Some(c.g)) != None {
      PrimeOrder(CurveGroup(c), c.n, k, Some(c.g));
    }
  }

  /** The constants of secp256k1 are as they must be, so only the theory of the curve is taken on trust. */
  lemma {:induction false} Secp256k1(c: Curve)
    requires c == SECP256K1
    ensures Constants(c) && (Theory(c) ==> CurveLaws(c))
  {
    hide OnCurve, Theory, CurveLaws, Power256, Pow;
    PowerValue();
    BaseOnCurve(c.p, c.g.x, c.g.y);
    SmallPowers(c.g.x);
    SmallPowers(c.g.y);
    PointOnCurve(c, Pow(c.g.y, 2), Pow(c.g.x, 3));
    assert Constants(c);
    if Theory(c) {
      hide Constants;
      LawsFollow(c);
    }
  }

  lemma {:induction false} PointOnCurve(c: Curve, square: int, cube: int)
    requires c.p >= 2 && 0 <= c.g.x < c.p && 0 <= c.g.y < c.p
    requires square == Pow(c.g.y, 2) && cube == Pow(c.g.x, 3) && square % c.p == (cube + 7) % c.p
    ensures OnCurve(c, c.g)
  {
    hide Pow;
    ModPlus(cube, 7, c.p);
  }

  lemma BaseOnCurve(p: int, x: int, y: int)
    requires p == SECP256K1.p && x == SECP256K1.g.x && y == SECP256K1.g.y
    ensures (y * y) % p == (x * x * x + 7) % p
  {
  }

  lemma PowerValue()
    ensures Power256(32) == 0x1_0000000000000000_0000000000000000_0000000000000000_0000000000000000
  {
    assert Power256(8) == 0x1_0000000000000000;
    assert Power256(16) == 0x1_0000000000000000_0000000000000000;
    assert Power256(24) == 0x1_0000000000000000_0000000000000000_0000000000000000;
  }
}
