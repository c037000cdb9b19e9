/** The fake public key: the coordinate of a curve point, doubled modulo 2^255 - 19. */
module Curve25519 {
  import opened Options
  import opened Bytes
  import opened CurveAlgebra

  /** The product as repeated addition: the statements below do not depend on what the verifier knows of products. */
  function Mul(a: int, b: int): int
    decreases if b < 0 then -b else b
  {
    if b == 0 then 0 else if b > 0 then Mul(a, b - 1) + a else Mul(a, b + 1) - a
  }

  lemma {:induction false} MulIs(a: int, b: int)
    ensures Mul(a, b) == a * b
    decreases if b < 0 then -b else b
  {
    if b > 0 {
      MulIs(a, b - 1);
      assert a * (b - 1) == a * b - a;
    } else if b < 0 {
      MulIs(a, b + 1);
      assert a * (b + 1) == a * b + a;
    }
  }

  function Sq(a: int): int {
    Mul(a, a)
  }

  /** x^3 + 486662 x^2 + x */
  function Curve(x: int): int {
    Mul(Sq(x), x) + A * Sq(x) + x
  }

  /** x is the coordinate of a point: y^2 = x^3 + 486662 x^2 + x for some y. */
  ghost predicate OnCurve(x: int) {
    exists y: int :: Same(Sq(y), Curve(x))
  }

  /** The base point of section 4.1 of RFC 7748 is on this curve. */
  lemma BasePoint()
    ensures OnCurve(9)
  {
    var y := 14781619447589544791020593568409986887264606134616475288964881837755586237401;
    var k := 3773941293097298634799158394344131590250402624247855264280139529679695560109;
    MulIs(y, y);
    CurveIs(9);
    assert Cubic(9) == 39420360;
    Multiple(Sq(y), Curve(9), k);
  }

  /** An inverse, or an error for a number that has none; modulo a prime that is only zero. */
  ghost predicate IsInverse(d: int, inverse: Option<int>) {
    if inverse.Some? then Same(Mul(d, inverse.value), 1) else Same(d, 0)
  }

  /** What the big-number library answers when asked to invert */
  type Inversion = int -> Option<int>

  lemma CurveIs(x: int)
    ensures Curve(x) == Cubic(x)
  {
    MulIs(x, x);
    MulIs(x * x, x);
  }

  /** (x^2 - 1)^2 */
  function DoubleNumerator(x: int): int {
    Sq(Sq(x) - 1)
  }

  lemma NumeratorIsSquare(x: int)
    ensures DoubleNumerator(x) == Numerator(x)
  {
    MulIs(x, x);
    MulIs(x * x - 1, x * x - 1);
  }

  lemma SameProduct(a: int, b: int, c: int, d: int)
    requires Same(a, b) && Same(c, d)
    ensures Same(Mul(a, c), Mul(b, d))
  {
    hide Same;
    MulIs(a, c);
    MulIs(b, d);
    SameMul(a, b, c, d);
  }

  /** Coordinates that are the same modulo P have the same value of the curve. */
  lemma SameCurve(a: int, b: int)
    requires Same(a, b)
    ensures Same(Curve(a), Curve(b))
  {
    hide Same, Mul;
    SameProduct(a, b, a, b);
    SameProduct(Sq(a), Sq(b), a, b);
    SameTimes(Sq(a), Sq(b), A);
    SameAdd(Mul(Sq(a), a), Mul(Sq(b), b), Sq(a) * A, Sq(b) * A);
    SameAdd(Mul(Sq(a), a) + Sq(a) * A, Mul(Sq(b), b) + Sq(b) * A, a, b);
  }

  lemma CurveCarriesOver(r: int, x: int)
    requires Same(r, x) && OnCurve(x)
    ensures OnCurve(r)
  {
    hide Same, Curve;
    SameCurve(r, x);
    SameSym(Curve(r), Curve(x));
    var y :| Same(Sq(y), Curve(x));
    SameTrans(Sq(y), Curve(x), Curve(r));
  }

  lemma ZeroIsOnCurve()
    ensures OnCurve(0)
  {
    SameSelf(0);
    assert Same(Sq(0), Curve(0));
  }

  /** The coordinate (x^2 - 1)^2 / (4 y^2) of the doubled point is the coordinate of a point again. */
  lemma DoublePoint(x: int, d: int)
    requires OnCurve(x) && Same(Mul(4 * Curve(x), d), 1)
    ensures OnCurve(Mul(DoubleNumerator(x), d))
  {
    hide Same, Curve, Cubic, Root, Mul, DoubleNumerator;
    var c, n, q, u := Cubic(x), Numerator(x), Root(x), x * x - 1;
    var y :| Same(Sq(y), Curve(x));
    MulIs(y, y);
    CurveIs(x);
    MulIs(4 * c, d);
    var r, z := 2 * y * (u * q * (d * d)), u * u * (q * q) * (d * d * d);
    RootSquared(u, q, y, d);
    InverseOut(c, z, d);
    SquareIs(r * r, y * y, 4 * z * d, c, 4 * c * d, z);
    Regroup(u * u, q * q, d * d * d);
    CurveOfFraction(n, d, 4 * c);
    DoublingIdentity(x);
    SquaresMeet(r * r, Cubic(n * d), u * u * (d * d * d), n * (d * d * d), q * q,
                n * n + A * (n * (4 * c)) + 4 * c * (4 * c));
    NumeratorIsSquare(x);
    MulIs(n, d);
    MulIs(r, r);
    CurveIs(n * d);
    assert Same(Sq(r), Curve(n * d));
  }

  // ---------- The code

  method ModAdd(a: int, b: int) returns (r: int)
    ensures Same(r, a + b) && 0 <= r < P
  {
    SameMod(a + b);
    return (a + b) % P;
  }

  method ModMul(a: int, b: int) returns (r: int)
    ensures Same(r, Mul(a, b)) && 0 <= r < P
  {
    MulIs(a, b);
    SameMod(a * b);
    return a * b % P;
  }

  lemma ProductsAgree(r: int, a: int, b: int, c: int)
    requires Same(r, Mul(a, c)) && Same(a, b)
    ensures Same(r, Mul(b, c))
  {
    hide Same;
    MulIs(a, c);
    MulIs(b, c);
    SameTimes(a, b, c);
    SameTrans(r, a * c, b * c);
  }

  lemma SumsAgree(r: int, a: int, b: int, c: int)
    requires Same(r, a + c) && Same(a, b)
    ensures Same(r, b + c)
  {
    hide Same;
    SameSelf(c);
    SameAdd(a, b, c, c);
    SameTrans(r, a + c, b + c);
  }

  /** get_y2: what it returns stands for the right side of the curve equation. */
  method GetY2(x: int) returns (y: int)
    ensures Same(y, Curve(x)) && 0 <= y < P
  {
    hide Same, Curve, Mul;
    y := ModAdd(x, A);
    ghost var y1 := y;
    y := ModMul(y, x);
    ProductsAgree(y, y1, x + A, x);
    ghost var y2 := y;
    y := ModAdd(y, 1);
    SumsAgree(y, y2, Mul(x + A, x), 1);
    ghost var y3 := y;
    y := ModMul(y, x);
    ProductsAgree(y, y3, Mul(x + A, x) + 1, x);
    Horner(x);
  }

  lemma Horner(x: int)
    ensures Mul(Mul(x + A, x) + 1, x) == Curve(x)
  {
    CurveIs(x);
    MulIs(x + A, x);
    MulIs((x + A) * x + 1, x);
    Distribute((x + A) * x, 1, x);
    Distribute(x, A, x);
    Distribute(x * x, A * x, x);
  }

  /** The numerator of get_double_x */
  method GetNumerator(x: int) returns (n: int)
    ensures Same(n, DoubleNumerator(x))
  {
    hide Same, Mul;
    var square := ModMul(x, x);
    var m := ModAdd(square, -1);
    SumsAgree(m, square, Sq(x), -1);
    n := ModMul(m, m);
    ProductsAgree(n, m, Sq(x) - 1, m);
    MulCommutes(Sq(x) - 1, m);
    ProductsAgree(n, m, Sq(x) - 1, Sq(x) - 1);
  }

  lemma MulCommutes(a: int, b: int)
    ensures Mul(a, b) == Mul(b, a)
  {
    MulIs(a, b);
    MulIs(b, a);
    Commute(a, b);
  }

  /** r is x doubled: r 4 y^2 is (x^2 - 1)^2, and r is zero where y is. */
  ghost predicate DoublesTo(x: int, r: int) {
    if Same(4 * Curve(x), 0) then Same(r, 0) else Same(Mul(r, 4 * Curve(x)), DoubleNumerator(x))
  }

  /** get_double_x: the doubled coordinate, also when the denominator vanishes and the inversion fails; it is the
      coordinate of a point if x is. */
  method GetDoubleX(x: int, inversion: Inversion) returns (r: int)
    requires forall d: int :: IsInverse(d, inversion(d))
    ensures 0 <= r < P
    ensures OnCurve(x) ==> OnCurve(r)
    ensures DoublesTo(x, r)
  {
    hide Same, Curve, DoubleNumerator, Mul;
    var y2 := GetY2(x);
    var denominator := ModMul(y2, 4);
    ProductsAgree(denominator, y2, Curve(x), 4);
    MulIs(Curve(x), 4);
    SameSym(denominator, 4 * Curve(x));
    var numerator := GetNumerator(x);
    var inverse := inversion(denominator);
    assert IsInverse(denominator, inverse);
    if inverse.None? {
      r := ModMul(numerator, denominator);
      SameTrans(4 * Curve(x), denominator, 0);
      MulCommutes(numerator, denominator);
      ProductsAgree(r, denominator, 0, numerator);
      MulIs(0, numerator);
      ZeroIsOnCurve();
      CurveCarriesOver(r, 0);
    } else {
      var d := inverse.value;
      r := ModMul(numerator, d);
      ProductsAgree(r, numerator, DoubleNumerator(x), d);
      InverseAgrees(4 * Curve(x), denominator, d);
      ZeroHasNoInverse(4 * Curve(x), d);
      if OnCurve(x) {
        DoublePoint(x, d);
        CurveCarriesOver(r, Mul(DoubleNumerator(x), d));
      }
      QuotientTimes(r, DoubleNumerator(x), d, 4 * Curve(x));
    }
  }

  lemma ZeroHasNoInverse(a: int, d: int)
    requires Same(Mul(a, d), 1)
    ensures !Same(a, 0)
  {
    if Same(a, 0) {
      MulIs(a, d);
      SameTimes(a, 0, d);
      SameSym(a * d, 0);
      SameTrans(0, a * d, 1);
      var k := Witness(0, 1);
      assert false;
    }
  }

  lemma InverseAgrees(a: int, b: int, d: int)
    requires Same(a, b) && Same(Mul(b, d), 1)
    ensures Same(Mul(a, d), 1)
  {
    hide Same;
    MulIs(a, d);
    MulIs(b, d);
    SameTimes(a, b, d);
    SameTrans(a * d, b * d, 1);
  }

  lemma QuotientTimes(r: int, n: int, d: int, c: int)
    requires Same(r, Mul(n, d)) && Same(Mul(c, d), 1)
    ensures Same(Mul(r, c), n)
  {
    hide Same;
    MulIs(n, d);
    MulIs(c, d);
    MulIs(r, c);
    Divides(r, n, d, c);
  }

  /** r is 2^n times x. */
  ghost predicate IsMultiple(x: int, r: int, n: nat)
    decreases n
  {
    if n == 0 then r == x else exists y: int :: IsMultiple(x, y, n - 1) && DoublesTo(y, r)
  }

  /** The key that is stored: a coordinate whose curve value passed the residue test, times eight, in 32 bytes */
  method StoreKey(candidate: int, inversion: Inversion) returns (key: seq<byte>)
    requires forall d: int :: IsInverse(d, inversion(d))
    requires OnCurve(candidate)
    ensures |key| == 32 && OnCurve(FromLittleEndian(key)) && FromLittleEndian(key) < P
    ensures exists x1: int, x2: int ::
              DoublesTo(candidate, x1) && DoublesTo(x1, x2) && DoublesTo(x2, FromLittleEndian(key))
  {
    hide OnCurve, IsInverse, DoublesTo;
    var x := candidate;
    for i := 0 to 3
      invariant OnCurve(x) && (i > 0 ==> 0 <= x < P) && IsMultiple(candidate, x, i)
    {
      x := GetDoubleX(x, inversion);
    }
    ThreeDoublings(candidate, x);
    FitsIn32Bytes();
    LittleEndianRoundTrip(x, 32);
    hide *;
    return LittleEndian(x, 32);
  }

  lemma ThreeDoublings(x: int, r: int)
    requires IsMultiple(x, r, 3)
    ensures exists x1: int, x2: int :: DoublesTo(x, x1) && DoublesTo(x1, x2) && DoublesTo(x2, r)
  {
    hide DoublesTo;
    var x2: int :| IsMultiple(x, x2, 2) && DoublesTo(x2, r);
    var x1: int :| IsMultiple(x, x1, 1) && DoublesTo(x1, x2);
    var x0: int :| IsMultiple(x, x0, 0) && DoublesTo(x0, x1);
    assert x0 == x && DoublesTo(x, x1);
  }

  lemma FitsIn32Bytes()
    ensures P < Pow256(32)
  {
    FourMore(0);
    FourMore(4);
    FourMore(8);
    FourMore(12);
    FourMore(16);
    FourMore(20);
    FourMore(24);
    FourMore(28);
  }

  lemma FourMore(k: nat)
    ensures Pow256(k + 4) == 0x1_0000_0000 * Pow256(k)
  {
    assert Pow256(k + 1) == 256 * Pow256(k);
    assert Pow256(k + 2) == 256 * Pow256(k + 1);
    assert Pow256(k + 3) == 256 * Pow256(k + 2);
    assert Pow256(k + 4) == 256 * Pow256(k + 3);
  }
}
