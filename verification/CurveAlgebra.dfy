/** Arithmetic modulo 2^255 - 19, and the polynomial identity behind doubling a point of the curve. */
module CurveAlgebra {
  const A: int := 486662
  const P: int := 0x7fffffffffffffffffffffffffffffffffffffffffffffffffffffffffffffed

  /** a and b are the same modulo P. */
  ghost predicate Same(a: int, b: int) {
    exists k: int :: a == b + k * P
  }

  /** The right side of the curve equation */
  function Cubic(x: int): int {
    x * x * x + A * (x * x) + x
  }

  // ---------- Arithmetic modulo P

  lemma Multiple(a: int, b: int, k: int)
    requires a == b + k * P
    ensures Same(a, b)
  {
  }

  lemma Witness(a: int, b: int) returns (k: int)
    requires Same(a, b)
    ensures a == b + k * P
  {
    k :| a == b + k * P;
  }

  lemma SameMod(a: int)
    ensures Same(a % P, a) && Same(a, a % P)
  {
    assert a == a / P * P + a % P;
    Multiple(a, a % P, a / P);
    Multiple(a % P, a, -(a / P));
  }

  lemma SameSelf(a: int)
    ensures Same(a, a)
  {
    Multiple(a, a, 0);
  }

  lemma SameSym(a: int, b: int)
    requires Same(a, b)
    ensures Same(b, a)
  {
    var k := Witness(a, b);
    Multiple(b, a, -k);
  }

  lemma SameTrans(a: int, b: int, c: int)
    requires Same(a, b) && Same(b, c)
    ensures Same(a, c)
  {
    var k := Witness(a, b);
    var l := Witness(b, c);
    assert k * P + l * P == (k + l) * P;
    Multiple(a, c, k + l);
  }

  lemma SameAdd(a: int, b: int, c: int, d: int)
    requires Same(a, b) && Same(c, d)
    ensures Same(a + c, b + d)
  {
    var k := Witness(a, b);
    var l := Witness(c, d);
    assert k * P + l * P == (k + l) * P;
    Multiple(a + c, b + d, k + l);
  }

  lemma SameTimes(a: int, b: int, c: int)
    requires Same(a, b)
    ensures Same(a * c, b * c)
  {
    var k := Witness(a, b);
    Distribute(b, k * P, c);
    Regroup(k, P, c);
    Multiple(a * c, b * c, k * c);
  }

  lemma Distribute(a: int, b: int, c: int)
    ensures (a + b) * c == a * c + b * c
  {
  }

  lemma Regroup(a: int, b: int, c: int)
    ensures a * b * c == a * c * b
  {
  }

  lemma SameMul(a: int, b: int, c: int, d: int)
    requires Same(a, b) && Same(c, d)
    ensures Same(a * c, b * d)
  {
    SameTimes(a, b, c);
    SameTimes(c, d, b);
    Commute(c, b);
    Commute(d, b);
    SameTrans(a * c, b * c, b * d);
  }

  lemma Commute(a: int, b: int)
    ensures a * b == b * a
  {
  }

  // ---------- The identity behind doubling

  /** With n = s^2 - v^2: n^2 + 4t(s + t)n + 4v^2(s + t)^2 = (s^2 + 2ts + v^2)^2 */
  lemma Identity(s: int, t: int, v: int)
    ensures var n, e, q := s * s - v * v, s + t, s * s + 2 * (t * s) + v * v;
            n * n + 4 * (t * e) * n + 4 * (v * e) * (v * e) == q * q
  {
    var n, e, k := s * s - v * v, s + t, t * s + v * v;
    SquareOfSum(n, k);
    Difference(t, s, v);
    Excess(s, t, v);
    Balance(n, k, t * e, v * e, t * t - v * v, (n + 2 * k) * (n + 2 * k));
    assert n + 2 * k == s * s + 2 * (t * s) + v * v;
  }

  lemma Excess(s: int, t: int, v: int)
    ensures t * s + v * v - t * (s + t) == -(t * t - v * v)
  {
  }

  lemma Balance(n: int, k: int, te: int, ve: int, x: int, qq: int)
    requires qq == n * n + 4 * (n * k) + 4 * (k * k) && k * k - ve * ve == x * n && k - te == -x
    ensures n * n + 4 * te * n + 4 * ve * ve == qq
  {
    Distribute(te, -x, n);
    Commute(n, k);
    Associate(4, te, n);
    Associate(4, ve, ve);
    assert -x * n == -(x * n);
  }

  lemma SquareOfSum(n: int, k: int)
    ensures (n + 2 * k) * (n + 2 * k) == n * n + 4 * (n * k) + 4 * (k * k)
  {
  }

  lemma Difference(t: int, s: int, v: int)
    ensures var n, k, ve := s * s - v * v, t * s + v * v, v * (s + t);
            k * k - ve * ve == (t * t - v * v) * n
  {
  }

  function Square(a: int): int {
    a * a
  }

  /** The numerator of the doubled coordinate */
  function Numerator(x: int): int {
    Square(x * x - 1)
  }

  function Root(x: int): int {
    Square(x * x) + 2 * (A * x) * (x * x) + 6 * (x * x) + 2 * (A * x) + 1
  }

  /** The value of the curve at a doubled coordinate n/d is n/d^3 times a square. */
  lemma DoublingIdentity(x: int)
    ensures var n, d := Numerator(x), 4 * Cubic(x);
            n * n + A * (n * d) + d * d == Square(Root(x))
  {
    hide Numerator, Cubic, Root;
    NumeratorIs(x);
    RootIs(x);
    CurveFactors(x);
    Combine(x * x + 1, A * x, 2 * x, Numerator(x), 4 * Cubic(x), Root(x), x);
  }

  lemma NumeratorIs(x: int)
    ensures Numerator(x) == (x * x + 1) * (x * x + 1) - 2 * x * (2 * x)
  {
    SquareOfSum(x * x - 1, 1);
  }

  lemma RootIs(x: int)
    ensures Root(x) == (x * x + 1) * (x * x + 1) + 2 * (A * x * (x * x + 1)) + 2 * x * (2 * x)
  {
    SquareOfSum(x * x - 1, 1);
    Distribute(x * x, 1, A * x);
  }

  lemma CurveFactors(x: int)
    ensures 4 * Cubic(x) == 2 * (2 * x * (x * x + 1 + A * x))
  {
    Distribute(x * x, 1 + A * x, x);
  }

  lemma Combine(s: int, t: int, v: int, n: int, d: int, q: int, x: int)
    requires n == s * s - v * v && d == 2 * (v * (s + t)) && q == s * s + 2 * (t * s) + v * v
    requires t == A * x && v == 2 * x
    ensures n * n + A * (n * d) + d * d == q * q
  {
    Identity(s, t, v);
    var e := s + t;
    TripleProduct(x, e, n, t, v * e);
    SquareOfDouble(v * e);
    Substitute(n, d, q, 4 * (t * e) * n, 4 * (v * e) * (v * e));
  }

  lemma Substitute(n: int, d: int, q: int, a: int, b: int)
    requires n * n + a + b == q * q && a == A * (n * d) && b == d * d
    ensures n * n + A * (n * d) + d * d == q * q
  {
  }

  lemma SquareOfDouble(w: int)
    ensures 4 * w * w == 2 * w * (2 * w)
  {
  }

  lemma TripleProduct(x: int, e: int, n: int, t: int, ve: int)
    requires t == A * x && ve == 2 * x * e
    ensures 4 * (t * e) * n == A * (n * (2 * ve))
  {
    assert t * e == A * (x * e) by { Regroup(A, x, e); Associate(A, x, e); }
    Associate(4 * A, x * e, n);
    assert 2 * ve == 4 * (x * e) by { Associate(2, x, e); }
    Commute(n, x * e);
    assert n * (4 * (x * e)) == 4 * (n * (x * e)) by { Pull(n, 4, x * e); }
  }

  lemma Associate(a: int, b: int, c: int)
    ensures a * b * c == a * (b * c)
  {
  }

  lemma Pull(a: int, k: int, b: int)
    ensures a * (k * b) == k * (a * b)
  {
  }

  /** A square y^2 w, where y^2 is c and c w is z times one, is z. */
  lemma SquareIs(square: int, yy: int, w: int, c: int, one: int, z: int)
    requires Same(yy, c) && Same(one, 1) && square == yy * w && c * w == one * z
    ensures Same(square, z)
  {
    hide Same;
    SameTimes(yy, c, w);
    SameTimes(one, 1, z);
    SameTrans(square, c * w, 1 * z);
  }

  lemma InverseOut(c: int, z: int, d: int)
    ensures c * (4 * z * d) == 4 * c * d * z
  {
    Associate(4, z, d);
    Pull(c, 4, z * d);
    Associate(4 * c, d, z);
    Associate(4, c, d * z);
    Commute(z, d);
  }

  lemma RootSquared(u: int, q: int, y: int, d: int)
    ensures var r, z := 2 * y * (u * q * (d * d)), u * u * (q * q) * (d * d * d);
            r * r == y * y * (4 * z * d)
  {
    var w := u * q * (d * d);
    assert w * w == u * u * (q * q) * (d * d * d) * d;
  }

  /** Fractions: if d inverts e, the curve at n d is n d^3 (n^2 + A n e + e^2). */
  lemma CurveOfFraction(n: int, d: int, e: int)
    requires Same(e * d, 1)
    ensures Same(Cubic(n * d), n * (d * d * d) * (n * n + A * (n * e) + e * e))
  {
    var one, nd := e * d, n * d;
    SameSym(one, 1);
    SameTimes(1, one, A * (nd * nd));
    SameMul(1, one, 1, one);
    SameTimes(1, one * one, nd);
    SameSelf(nd * nd * nd);
    SameAdd(nd * nd * nd, nd * nd * nd, 1 * (A * (nd * nd)), one * (A * (nd * nd)));
    SameAdd(nd * nd * nd + A * (nd * nd), nd * nd * nd + one * (A * (nd * nd)), nd, one * one * nd);
    Expand(n, d, e);
  }

  lemma Expand(n: int, d: int, e: int)
    ensures var one, nd := e * d, n * d;
            nd * nd * nd + one * (A * (nd * nd)) + one * one * nd == n * (d * d * d) * (n * n + A * (n * e) + e * e)
  {
    var m := n * (d * d * d);
    Cube(n, d);
    Mixed(n, d, e);
    Twice(n, d, e);
    Pull(e * d, A, n * d * (n * d));
    Spread(m, n * n, n * e, e * e);
  }

  lemma Cube(n: int, d: int)
    ensures n * d * (n * d) * (n * d) == n * (d * d * d) * (n * n)
  {
  }

  lemma Mixed(n: int, d: int, e: int)
    ensures e * d * (n * d * (n * d)) == n * (d * d * d) * (n * e)
  {
  }

  lemma Twice(n: int, d: int, e: int)
    ensures e * d * (e * d) * (n * d) == n * (d * d * d) * (e * e)
  {
  }

  lemma Spread(m: int, a: int, b: int, c: int)
    ensures m * (a + A * b + c) == m * a + A * (m * b) + m * c
  {
    Distribute(a + A * b, c, m);
    Distribute(a, A * b, m);
    Associate(A, b, m);
    Commute(m, a + A * b + c);
    Commute(m, a);
    Commute(m, b);
    Commute(m, c);
  }

  lemma Divides(r: int, n: int, d: int, c: int)
    requires Same(r, n * d) && Same(c * d, 1)
    ensures Same(r * c, n)
  {
    hide Same;
    SameTimes(r, n * d, c);
    SameTimes(c * d, 1, n);
    Regroup(n, d, c);
    Commute(n * c, d);
    Associate(d, n, c);
    Commute(n, c);
    Associate(d, c, n);
    Commute(d, c);
    SameTrans(r * c, n * d * c, 1 * n);
  }

  lemma SquaresMeet(square: int, value: int, m: int, m': int, a: int, b: int)
    requires Same(square, m * a) && Same(value, m' * b) && m == m' && a == b
    ensures Same(square, value)
  {
    hide Same;
    SameSym(value, m * b);
    SameTrans(square, m * a, value);
  }
}
