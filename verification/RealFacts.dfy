/** Facts about products and quotients of reals that the statistics rest on. */
module RealFacts {

  /** A product and its sign. */
  function Mul(a: real, b: real): (r: real)
    ensures (a > 0.0 && b > 0.0) || (a < 0.0 && b < 0.0) ==> r > 0.0
    ensures a == 0.0 || b == 0.0 ==> r == 0.0
  {
    a * b
  }

  function Sq(x: real): (r: real)
    ensures r >= 0.0 && (r == 0.0 <==> x == 0.0)
  {
    Mul(x, x)
  }

  function Cube(x: real): (r: real)
    ensures x > 0.0 ==> r > 0.0
    ensures x == 0.0 ==> r == 0.0
  {
    x * Sq(x)
  }

  lemma Quotient(a: real, n: real)
    requires n > 0.0
    ensures (a / n) * n == a
  {
  }

  lemma QuotientBetween(a: real, n: real, lo: real, hi: real)
    requires n > 0.0 && lo * n <= a <= hi * n
    ensures lo <= a / n <= hi
  {
    var q := a / n;
    assert q * n == a;
    assert q < lo ==> q * n < lo * n;
    assert q > hi ==> q * n > hi * n;
  }

  lemma DivideOut(s: real, a: real, b: real)
    requires s > 0.0 && s * a <= s * b
    ensures a <= b
  {
    assert a > b ==> s * a > s * b;
  }

  lemma ProductNonNegative(a: real, b: real)
    requires a >= 0.0 && b >= 0.0
    ensures a * b >= 0.0
  {
  }

  lemma ProductMonotone(a: real, b: real, c: real)
    requires a <= b && c >= 0.0
    ensures a * c <= b * c && c * a <= c * b
  {
  }

  lemma MulMonotone(a: real, b: real, c: real)
    requires a <= b && c >= 0.0
    ensures Mul(a, c) <= Mul(b, c) && Mul(c, a) <= Mul(c, b)
  {
    ProductMonotone(a, b, c);
  }

  lemma MulNonNegative(a: real, b: real)
    requires a >= 0.0 && b >= 0.0
    ensures Mul(a, b) >= 0.0
  {
  }

  lemma SqOfSum(a: real, b: real)
    ensures Sq(a + b) == Sq(a) + 2.0 * (a * b) + Sq(b)
  {
  }

  lemma SqOfDifference(a: real, b: real)
    ensures Sq(a - b) == Sq(a) - 2.0 * (a * b) + Sq(b)
  {
  }

  lemma SqOfProduct(a: real, b: real)
    ensures Sq(a * b) == Sq(a) * Sq(b)
  {
    assert (a * b) * (a * b) == (a * a) * (b * b);
  }

  lemma CubeOfSum(s: real, q: real)
    ensures Cube(s + q) == Cube(s) + 3.0 * (Sq(s) * q) + 3.0 * (s * Sq(q)) + Cube(q)
  {
    SqOfSum(s, q);
    assert (s + q) * (Sq(s) + 2.0 * (s * q) + Sq(q))
        == s * Sq(s) + s * (2.0 * (s * q)) + s * Sq(q) + q * Sq(s) + q * (2.0 * (s * q)) + q * Sq(q);
    assert s * (2.0 * (s * q)) == 2.0 * (Sq(s) * q);
    assert q * (2.0 * (s * q)) == 2.0 * (s * Sq(q));
  }

  /** 4ab <= (a + b)^2. */
  lemma ArithmeticGeometric(a: real, b: real)
    ensures 4.0 * (a * b) <= Sq(a + b)
  {
    SqOfSum(a, b);
    SqOfDifference(a, b);
  }

  /** (hi - x)(x - lo) around a centre c. */
  lemma GapAround(x: real, c: real, lo: real, hi: real)
    ensures (hi - x) * (x - lo) == (hi - c) * (c - lo) + (hi + lo - 2.0 * c) * (x - c) - Sq(x - c)
  {
    var u, v, d := hi - c, c - lo, x - c;
    assert (u - d) * (v + d) == u * v + (u - v) * d - d * d;
    assert hi - x == u - d && x - lo == v + d && hi + lo - 2.0 * c == u - v;
  }

  // ------------------------------------------------------------- sums of powers

  lemma SixthPower(d: real)
    ensures Sq(Cube(d)) == Cube(Sq(d))
  {
    SqOfProduct(d, Sq(d));
  }

  lemma ScaledBound(t: real, s: real, q: real)
    requires Sq(t) <= Cube(s) && q >= 0.0
    ensures Sq(t) * q <= s * (Sq(s) * q)
  {
    ProductMonotone(Sq(t), s * Sq(s), q);
  }

  /** 2uv <= u^2 + v^2, with each side known under other names. */
  lemma TwiceProduct(u: real, v: real, uv: real, u2: real, v2: real)
    requires u * v == uv && Sq(u) <= u2 && Sq(v) <= v2
    ensures 2.0 * uv <= u2 + v2
  {
    SqOfDifference(u, v);
  }

  lemma ScaledSquare(s: real, q: real)
    ensures Sq(s * q) == s * (s * Sq(q))
  {
    SqOfProduct(s, q);
    assert (s * s) * Sq(q) == s * (s * Sq(q));
  }

  lemma Rearranged(t: real, d: real, s: real, q: real)
    ensures (t * d) * (s * q) == s * (t * (d * q))
  {
  }

  lemma RearrangedCube(t: real, d: real, s: real, u: real, v: real, x: real)
    requires u == t * d && v == s * Sq(d) && x == t * Cube(d)
    ensures u * v == s * x
  {
    Rearranged(t, d, s, Sq(d));
    assert d * Sq(d) == Cube(d);
  }

  lemma SquaredProductBound(t: real, d: real, s: real)
    requires Sq(t) <= Cube(s)
    ensures Sq(t * d) <= s * (Sq(s) * Sq(d))
  {
    SqOfProduct(t, d);
    ScaledBound(t, s, Sq(d));
  }

  lemma CrossTerm(t: real, s: real, d: real)
    requires s > 0.0 && Sq(t) <= Cube(s)
    ensures 2.0 * (t * Cube(d)) <= Sq(s) * Sq(d) + s * Sq(Sq(d))
  {
    var u, v, x := t * d, s * Sq(d), t * Cube(d);
    SquaredProductBound(t, d, s);
    ScaledSquare(s, Sq(d));
    RearrangedCube(t, d, s, u, v, x);
    CrossTermCombined(u, v, s, x, Sq(s) * Sq(d), s * Sq(Sq(d)));
  }

  lemma CrossTermCombined(u: real, v: real, s: real, x: real, a: real, b: real)
    requires s > 0.0 && u * v == s * x && Sq(u) <= s * a && Sq(v) <= s * b
    ensures 2.0 * x <= a + b
  {
    TwiceProduct(u, v, s * x, s * a, s * b);
    CrossTermDivided(s, x, a, b);
  }

  lemma CrossTermDivided(s: real, x: real, a: real, b: real)
    requires s > 0.0 && 2.0 * (s * x) <= s * a + s * b
    ensures 2.0 * x <= a + b
  {
    assert s * (2.0 * x) == 2.0 * (s * x) && s * (a + b) == s * a + s * b;
    DivideOut(s, 2.0 * x, a + b);
  }

  /** One more deviation d keeps (sum of cubes)^2 <= (sum of squares)^3. */
  lemma CubesStep(t: real, s: real, d: real, t': real, s': real)
    requires s >= 0.0 && Sq(t) <= Cube(s)
    requires t' == t + Cube(d) && s' == s + Sq(d)
    ensures Sq(t') <= Cube(s')
  {
    SixthPower(d);
    if s == 0.0 {
      assert t == 0.0;
    } else {
      var a, b := Sq(s) * Sq(d), s * Sq(Sq(d));
      assert 2.0 * (t * Cube(d)) <= a + b by { CrossTerm(t, s, d); }
      assert a >= 0.0 by { ProductNonNegative(Sq(s), Sq(d)); }
      assert b >= 0.0 by { ProductNonNegative(s, Sq(Sq(d))); }
      assert Sq(t') == Sq(t) + 2.0 * (t * Cube(d)) + Sq(Cube(d)) by { SqOfSum(t, Cube(d)); }
      assert Cube(s') == Cube(s) + 3.0 * a + 3.0 * b + Cube(Sq(d)) by { CubeOfSum(s, Sq(d)); }
    }
  }

  lemma CubeScaled(m: real, n: real)
    ensures Cube(m * n) == Sq(n) * (n * Cube(m))
  {
    SqOfProduct(m, n);
    assert (m * n) * (Sq(m) * Sq(n)) == Sq(n) * (n * (m * Sq(m)));
  }

  /** The moments are m2 = s / n and m3 = t / n. */
  lemma SkewAlgebra(n: real, t: real, s: real, m2: real, m3: real)
    requires n > 0.0 && Sq(t) <= Cube(s) && m2 * n == s && m3 * n == t
    ensures Sq(m3) <= n * Cube(m2)
  {
    assert Sq(t) == Sq(n) * Sq(m3) by { SqOfProduct(m3, n); }
    assert Cube(s) == Sq(n) * (n * Cube(m2)) by { CubeScaled(m2, n); }
    DivideOut(Sq(n), Sq(m3), n * Cube(m2));
  }

  lemma RatioBelow(a: real, b: real, n: real)
    requires b > 0.0 && a >= 0.0 && a <= n * b
    ensures a / b <= n
  {
    QuotientBetween(a, b, 0.0, n);
  }

  /** Dividing a non-negative sum by n - 1 instead of n does not make it smaller. */
  lemma SampleDivisor(n: real, s: real)
    requires n > 1.0 && s >= 0.0
    ensures 0.0 <= s / n <= s / (n - 1.0)
  {
    var a, b := s / n, s / (n - 1.0);
    Quotient(s, n);
    Quotient(s, n - 1.0);
    assert s <= s * n;
    QuotientBetween(s, n, 0.0, s);
    assert (n - 1.0) * a == a * n - a;
    assert (n - 1.0) * a <= (n - 1.0) * b;
    DivideOut(n - 1.0, a, b);
  }

  lemma QuotientWithin(q: real, a: real, n: real, hi: real)
    requires n > 0.0 && q == a / n && 0.0 <= a <= hi * n
    ensures 0.0 <= q <= hi
  {
    QuotientBetween(a, n, 0.0, hi);
  }
}
