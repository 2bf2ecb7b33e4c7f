/**
 The Wilson score interval of the statistics report, over exact reals.  The square root is a
 parameter: any non-negative r with r * r equal to the radicand.
 */
module Wilson {

  function Ratio(k: int, n: int): real
    requires n > 0
  {
    k as real / n as real
  }

  function Radicand(k: int, n: int, z: real): real
    requires n > 0
  {
    var m := n as real;
    Ratio(k, n) * (1.0 - Ratio(k, n)) / m + z * z / (4.0 * m * m)
  }

  predicate IsRoot(r: real, k: int, n: int, z: real)
    requires n > 0
  {
    r >= 0.0 && r * r == Radicand(k, n, z)
  }

  function Centre(k: int, n: int, z: real): real
    requires n > 0 && z > 0.0
  {
    var m := n as real;
    Positive(z, m);
    (Ratio(k, n) + z * z / (2.0 * m)) / (1.0 + z * z / m)
  }

  function HalfWidth(r: real, n: int, z: real): real
    requires n > 0 && z > 0.0
  {
    Positive(z, n as real);
    z * r / (1.0 + z * z / n as real)
  }

  function MaxReal(x: real, y: real): real {
    if x >= y then x else y
  }

  function MinReal(x: real, y: real): real {
    if x <= y then x else y
  }

  /** (lo, hi) with both clamps, (0, 1) when nothing was observed. */
  function Interval(k: int, n: int, z: real, r: real): (real, real)
    requires z > 0.0
  {
    if n <= 0 then (0.0, 1.0)
    else (MaxReal(0.0, Centre(k, n, z) - HalfWidth(r, n, z)), MinReal(1.0, Centre(k, n, z) + HalfWidth(r, n, z)))
  }

  lemma Positive(z: real, m: real)
    requires z > 0.0 && m > 0.0
    ensures z * z / m > 0.0 && 1.0 + z * z / m > 1.0
  {
    DivPositive(z, m);
    MulPositive(z, z / m);
    assert z * (z / m) == z * z / m;
  }

  lemma MulPositive(x: real, y: real)
    requires x > 0.0 && y > 0.0
    ensures x * y > 0.0
  {
  }

  lemma DivPositive(x: real, y: real)
    requires x > 0.0 && y > 0.0
    ensures x / y > 0.0
  {
  }

  lemma SquareGrows(x: real, y: real)
    requires x > y >= 0.0
    ensures x * x > y * y
  {
    var d, e := x - y, x + y;
    MulPositive(d, e);
    assert d * e == x * x - y * y;
  }

  /** |x| <= y when x^2 <= y^2 and y >= 0. */
  lemma AbsFromSquares(x: real, y: real)
    requires y >= 0.0 && x * x <= y * y
    ensures -y <= x <= y
  {
    var u := -x;
    assert u * u == x * x;
    if x > y {
      SquareGrows(x, y);
    } else if u > y {
      SquareGrows(u, y);
    }
  }

  /**
   The algebra, with p = k/n, a = z^2/n and h = z r, so h^2 = a p (1 - p) + a^2/4:
   (p + a/2)^2 - h^2 = p^2 (1 + a), and its mirror image, and (a (1/2 - p))^2 <= h^2.
   */
  lemma Algebra(p: real, a: real, h: real)
    requires 0.0 <= p <= 1.0 && a > 0.0 && h >= 0.0
    requires h * h == a * p * (1.0 - p) + a * a / 4.0
    ensures h <= p + a / 2.0
    ensures h <= 1.0 - p + a / 2.0
    ensures -h <= a / 2.0 - a * p <= h
  {
    var q := 1.0 - p;
    var ap, aq := a * p, a * q;
    assert 0.0 <= ap && 0.0 <= aq && 0.0 <= ap * q;
    assert a * p * q == ap * q;
    assert p * p >= 0.0 && q * q >= 0.0;
    assert a * (p * p) >= 0.0 && a * (q * q) >= 0.0;
    var x := p + a / 2.0;
    assert x * x == p * p + ap + a * a / 4.0;
    assert ap * q == ap - a * (p * p);
    assert h * h <= x * x;
    AbsFromSquares(h, x);
    var y := q + a / 2.0;
    assert y * y == q * q + aq + a * a / 4.0;
    assert ap * q == aq - a * (q * q);
    assert h * h <= y * y;
    AbsFromSquares(h, y);
    var w := a / 2.0 - ap;
    assert w * w == a * a / 4.0 - a * ap + ap * ap;
    assert ap * ap == a * (p * ap);
    assert a * ap - ap * ap == a * (ap * q);
    assert a * (ap * q) >= 0.0;
    AbsFromSquares(w, h);
  }

  /** The scaled form of the interval: centre and half width times 1 + z^2/n. */
  lemma Scaled(k: int, n: int, z: real, r: real)
    requires n >= 1 && z > 0.0 && IsRoot(r, k, n, z)
    ensures var p, a, den := Ratio(k, n), z * z / n as real, 1.0 + z * z / n as real;
            && a > 0.0 && den == 1.0 + a && z * r >= 0.0
            && Centre(k, n, z) == (p + a / 2.0) / den
            && HalfWidth(r, n, z) == z * r / den
            && (z * r) * (z * r) == a * p * (1.0 - p) + a * a / 4.0
  {
    var m := n as real;
    Positive(z, m);
    var p, a := Ratio(k, n), z * z / m;
    assert z * z / (2.0 * m) == a / 2.0;
    assert z * r >= 0.0;
    var s := z * z;
    assert s == a * m;
    SquareOfHalf(s, a, m, p * (1.0 - p));
    assert (z * r) * (z * r) == s * (r * r);
    assert a * p * (1.0 - p) == a * (p * (1.0 - p));
  }

  /** With s = a m: s (v/m + s/(4 m^2)) = a v + a^2/4. */
  lemma SquareOfHalf(s: real, a: real, m: real, v: real)
    requires m > 0.0 && s == a * m
    ensures s * (v / m + s / (4.0 * m * m)) == a * v + a * a / 4.0
  {
    var u, t := v / m, s / (4.0 * m * m);
    assert u * m == v && t * (4.0 * m * m) == s;
    assert s * u == a * (u * m);
    assert (4.0 * (t * m)) * m == a * m;
    CancelRight(4.0 * (t * m), a, m);
    assert s * t == a * (t * m);
  }

  lemma CancelRight(x: real, y: real, m: real)
    requires m > 0.0 && x * m == y * m
    ensures x == y
  {
    assert (x - y) * m == 0.0;
  }

  /** The interval contains k/n and lies in [0, 1]; neither clamp ever changes a bound. */
  lemma IntervalContainsRatio(k: int, n: int, z: real, r: real)
    requires 0 <= k <= n && n >= 1 && z > 0.0 && IsRoot(r, k, n, z)
    ensures var (lo, hi) := Interval(k, n, z, r);
            && lo == Centre(k, n, z) - HalfWidth(r, n, z)
            && hi == Centre(k, n, z) + HalfWidth(r, n, z)
            && 0.0 <= lo <= Ratio(k, n) <= hi <= 1.0
  {
    Scaled(k, n, z, r);
    RatioBounds(k, n);
    var p, a := Ratio(k, n), z * z / n as real;
    Algebra(p, a, z * r);
    Bounds(p, a, z * r);
  }

  lemma RatioBounds(k: int, n: int)
    requires 0 <= k <= n && n >= 1
    ensures 0.0 <= Ratio(k, n) <= 1.0
  {
    DivBounds(k as real, n as real, 0.0, 1.0);
  }

  lemma Bounds(p: real, a: real, h: real)
    requires 0.0 <= p <= 1.0 && a > 0.0
    requires h <= p + a / 2.0 && h <= 1.0 - p + a / 2.0 && -h <= a / 2.0 - a * p <= h
    ensures var c, den := p + a / 2.0, 1.0 + a;
            0.0 <= c / den - h / den <= p <= c / den + h / den <= 1.0
  {
    var c, den := p + a / 2.0, 1.0 + a;
    DivDiff(c, h, den);
    DivSum(c, h, den);
    assert p * den == p + a * p;
    DivBounds(c - h, den, 0.0, p);
    DivBounds(c + h, den, p, 1.0);
  }

  lemma DivDiff(x: real, y: real, d: real)
    requires d > 0.0
    ensures x / d - y / d == (x - y) / d
  {
  }

  lemma DivSum(x: real, y: real, d: real)
    requires d > 0.0
    ensures x / d + y / d == (x + y) / d
  {
  }

  lemma DivBounds(x: real, d: real, lo: real, hi: real)
    requires d > 0.0 && lo * d <= x <= hi * d
    ensures lo <= x / d <= hi
  {
    var q := x / d;
    assert q * d == x;
  }

  lemma RatioMirrors(k: int, n: int)
    requires n >= 1
    ensures Ratio(n - k, n) == 1.0 - Ratio(k, n)
  {
    var m := n as real;
    assert (n - k) as real == m - k as real;
    DivDiff(m, k as real, m);
    assert m / m == 1.0;
  }

  /** The mirrored centre: (1 - p + a/2) / (1 + a) = 1 - (p + a/2) / (1 + a). */
  lemma CentreMirrors(p: real, a: real)
    requires a > 0.0
    ensures (1.0 - p + a / 2.0) / (1.0 + a) == 1.0 - (p + a / 2.0) / (1.0 + a)
  {
    var den := 1.0 + a;
    assert den / den == 1.0;
    DivDiff(den, p + a / 2.0, den);
  }

  /** Counting failures instead of successes mirrors the interval. */
  lemma IntervalMirrors(k: int, n: int, z: real, r: real)
    requires 0 <= k <= n && n >= 1 && z > 0.0 && IsRoot(r, k, n, z)
    ensures IsRoot(r, n - k, n, z)
    ensures var (lo, hi) := Interval(k, n, z, r);
            Interval(n - k, n, z, r) == (1.0 - hi, 1.0 - lo)
  {
    var p, a := Ratio(k, n), z * z / n as real;
    RatioMirrors(k, n);
    assert Ratio(n - k, n) * (1.0 - Ratio(n - k, n)) == p * (1.0 - p);
    IntervalContainsRatio(k, n, z, r);
    IntervalContainsRatio(n - k, n, z, r);
    Scaled(k, n, z, r);
    Scaled(n - k, n, z, r);
    CentreMirrors(p, a);
  }

  // ---------- what the interval means ----------

  lemma SquareOfSum(u: real, v: real)
    ensures (u + v) * (u + v) == u * u + 2.0 * (u * v) + v * v
    ensures (u - v) * (u - v) == u * u - 2.0 * (u * v) + v * v
  {
  }

  /** (p - x)^2 - a x (1 - x) = (1 + a) x^2 - 2 x (p + a/2) + p^2. */
  lemma QuadraticForm(p: real, a: real, x: real)
    ensures (p - x) * (p - x) - a * x * (1.0 - x) ==
            (1.0 + a) * (x * x) - 2.0 * (x * (p + a / 2.0)) + p * p
  {
    var xx, px, ax := x * x, p * x, a * x;
    SquareOfSum(p, x);
    assert ax * (1.0 - x) == ax - a * xx;
    assert x * (p + a / 2.0) == px + ax / 2.0;
    assert (1.0 + a) * xx == xx + a * xx;
  }

  lemma CompleteSquare(den: real, x: real, c: real, e: real)
    ensures den * (den * (x * x) - 2.0 * (x * c) + e) == (den * x - c) * (den * x - c) - (c * c - den * e)
  {
    var m := den * x;
    SquareOfSum(m, c);
    assert m * c == den * (x * c);
    assert m * m == den * (den * (x * x));
    Distribute(den, den * (x * x), 2.0 * (x * c), e);
    assert den * (2.0 * (x * c)) == 2.0 * (m * c);
  }

  /** (p + a/2)^2 - h^2 = (1 + a) p^2. */
  lemma CentreSquared(p: real, a: real, h: real)
    requires h * h == a * p * (1.0 - p) + a * a / 4.0
    ensures (p + a / 2.0) * (p + a / 2.0) - (1.0 + a) * (p * p) == h * h
  {
    var ap := a * p;
    SquareOfSum(p, a / 2.0);
    assert ap * (1.0 - p) == ap - a * (p * p);
  }

  /** With y = (1 + a) x - (p + a/2): (1 + a) ((p - x)^2 - a x (1 - x)) = y^2 - h^2. */
  lemma ScoreAlgebra(p: real, a: real, h: real, x: real)
    requires h * h == a * p * (1.0 - p) + a * a / 4.0
    ensures var y, den := (1.0 + a) * x - (p + a / 2.0), 1.0 + a;
            den * ((p - x) * (p - x) - a * x * (1.0 - x)) == y * y - h * h
  {
    QuadraticForm(p, a, x);
    CompleteSquare(1.0 + a, x, p + a / 2.0, p * p);
    CentreSquared(p, a, h);
  }

  lemma Distribute(d: real, u: real, v: real, w: real)
    ensures d * (u - v + w) == d * u - d * v + d * w
  {
  }

  lemma SquaresFromAbs(x: real, y: real)
    requires -y <= x <= y
    ensures x * x <= y * y
  {
    MulNonNegative(y - x, y + x);
    assert (y - x) * (y + x) == y * y - x * x;
  }

  lemma MulNonNegative(x: real, y: real)
    requires x >= 0.0 && y >= 0.0
    ensures x * y >= 0.0
  {
  }

  lemma SignOfProduct(d: real, q: real, e: real)
    requires d > 0.0 && d * q == e
    ensures q <= 0.0 <==> e <= 0.0
  {
    if q > 0.0 {
      MulPositive(d, q);
    } else {
      MulNonNegative(d, -q);
      assert d * (-q) == -(d * q);
    }
  }

  lemma DivOrder(u: real, d: real, x: real)
    requires d > 0.0
    ensures u / d <= x <==> u <= d * x
    ensures x <= u / d <==> d * x <= u
  {
    var q := u / d;
    assert q * d == u;
    assert (x - q) * d == d * x - u;
    if x - q > 0.0 {
      MulPositive(x - q, d);
    } else if q - x > 0.0 {
      MulPositive(q - x, d);
      assert (q - x) * d == u - d * x;
    }
  }

  lemma IntervalEnds(k: int, n: int, z: real, r: real)
    requires 0 <= k <= n && n >= 1 && z > 0.0 && IsRoot(r, k, n, z)
    ensures var c, h, den := Ratio(k, n) + z * z / n as real / 2.0, z * r, 1.0 + z * z / n as real;
            den > 0.0 && Interval(k, n, z, r) == (c / den - h / den, c / den + h / den)
  {
    Scaled(k, n, z, r);
    IntervalContainsRatio(k, n, z, r);
  }

  /**
   The interval is the set of true ratios x that k of n does not contradict: the distance of k/n from
   x is at most z standard deviations of x.
   */
  lemma IntervalIsScoreTest(k: int, n: int, z: real, r: real, x: real)
    requires 0 <= k <= n && n >= 1 && z > 0.0 && IsRoot(r, k, n, z)
    ensures Interval(k, n, z, r).0 <= x <= Interval(k, n, z, r).1 <==> Uncontradicted(Ratio(k, n), z * z / n as real, x)
  {
    var p, a, h := Ratio(k, n), z * z / n as real, z * r;
    IntervalEnds(k, n, z, r);
    ScaledRoot(k, n, z, r);
    ScoreIff(p, a, h, x);
    ScoreBounds(p + a / 2.0, h, 1.0 + a, x);
  }

  /** (p - x)^2 <= a x (1 - x), with a = z^2/n. */
  predicate Uncontradicted(p: real, a: real, x: real) {
    (p - x) * (p - x) <= a * x * (1.0 - x)
  }

  lemma ScaledRoot(k: int, n: int, z: real, r: real)
    requires n >= 1 && z > 0.0 && IsRoot(r, k, n, z)
    ensures var p, a, h := Ratio(k, n), z * z / n as real, z * r;
            a > 0.0 && h >= 0.0 && h * h == a * p * (1.0 - p) + a * a / 4.0
  {
    Scaled(k, n, z, r);
  }

  lemma ScoreIff(p: real, a: real, h: real, x: real)
    requires a > 0.0 && h >= 0.0 && h * h == a * p * (1.0 - p) + a * a / 4.0
    ensures Uncontradicted(p, a, x) <==> -h <= (1.0 + a) * x - (p + a / 2.0) <= h
  {
    var den, y := 1.0 + a, (1.0 + a) * x - (p + a / 2.0);
    var quad := (p - x) * (p - x) - a * x * (1.0 - x);
    ScoreAlgebra(p, a, h, x);
    SignOfProduct(den, quad, y * y - h * h);
    if y * y <= h * h {
      AbsFromSquares(y, h);
    } else if -h <= y <= h {
      SquaresFromAbs(y, h);
    }
  }

  lemma ScoreBounds(c: real, h: real, den: real, x: real)
    requires den > 0.0
    ensures c / den - h / den <= x <= c / den + h / den <==> -h <= den * x - c <= h
  {
    DivDiff(c, h, den);
    DivSum(c, h, den);
    DivOrder(c - h, den, x);
    DivOrder(c + h, den, x);
  }
}
