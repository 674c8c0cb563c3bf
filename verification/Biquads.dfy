/** Second-order sections: their zeros and poles, as CalculateZeroPosition and
    CalculatePolePosition place them in the complex plane (qt_widgets/DNREQPanel.cpp). */
module Biquads {
  import opened RealArithmetic

  /** (b0 z^2 + b1 z + b2) / (a0 z^2 + a1 z + a2) */
  datatype Biquad = Biquad(b0: real, b1: real, b2: real, a0: real, a1: real, a2: real)

  ghost predicate IsSqrt(sqrt: real -> real) {
    forall x :: x >= 0.0 ==> sqrt(x) >= 0.0 && sqrt(x) * sqrt(x) == x
  }

  // ----- complex numbers and quadratics -----

  datatype Complex = Complex(x: real, y: real) {
    function Norm2(): real {
      x * x + y * y
    }

    function Minus(c: Complex): Complex {
      Complex(x - c.x, y - c.y)
    }

    function Times(c: Complex): Complex {
      Complex(x * c.x - y * c.y, x * c.y + y * c.x)
    }

    function Scaled(k: real): Complex {
      Complex(k * x, k * y)
    }
  }

  const ZERO := Complex(0.0, 0.0)

  function Quadratic(a: real, b: real, c: real, z: Complex): Complex {
    Complex(a * (z.x * z.x - z.y * z.y) + b * z.x + c, 2.0 * a * z.x * z.y + b * z.y)
  }

  function Numerator(f: Biquad, z: Complex): Complex {
    Quadratic(f.b0, f.b1, f.b2, z)
  }

  function Denominator(f: Biquad, z: Complex): Complex {
    Quadratic(f.a0, f.a1, f.a2, z)
  }

  lemma {:induction false} NormTimes(u: Complex, v: Complex)
    ensures u.Times(v).Norm2() == u.Norm2() * v.Norm2()
  {
    var a, b, c, d := u.x, u.y, v.x, v.y;
    assert (a * c - b * d) * (a * c - b * d) + (a * d + b * c) * (a * d + b * c)
        == (a * a + b * b) * (c * c + d * d);
  }

  lemma {:induction false} NormZero(u: Complex, n: real)
    requires n == u.Norm2()
    ensures n >= 0.0
    ensures n == 0.0 <==> u == ZERO
  {
    SumOfSquares(u.x, u.y, u.x * u.x, u.y * u.y);
  }

  lemma {:induction false} SumOfSquares(x: real, y: real, xx: real, yy: real)
    requires xx == x * x && yy == y * y
    ensures xx >= 0.0 && yy >= 0.0
    ensures xx + yy == 0.0 <==> x == 0.0 && y == 0.0
  {
    SquareSign(x, xx);
    SquareSign(y, yy);
  }

  lemma {:induction false} ZeroProduct(u: Complex, v: Complex)
    ensures u.Times(v) == ZERO <==> u == ZERO || v == ZERO
  {
    NormTimes(u, v);
    ZeroNorms(u, v, u.Times(v), u.Norm2(), v.Norm2(), u.Norm2() * v.Norm2());
  }

  lemma {:induction false} ZeroNorms(u: Complex, v: Complex, uv: Complex, nu: real, nv: real, nuv: real)
    requires nu == u.Norm2() && nv == v.Norm2() && nuv == uv.Norm2() && nuv == nu * nv
    ensures uv == ZERO <==> u == ZERO || v == ZERO
  {
    NormZero(u, nu);
    NormZero(v, nv);
    NormZero(uv, nuv);
    ZeroFactor(nu, nv, nuv);
  }

  lemma {:induction false} ZeroFactor(x: real, y: real, xy: real)
    requires x >= 0.0 && y >= 0.0 && xy == x * y
    ensures xy == 0.0 <==> x == 0.0 || y == 0.0
  {
    if x > 0.0 && y > 0.0 { Positive(x, y, xy); }
  }

  // ----- zeros and poles -----

  /** CalculateZeroPosition and CalculatePolePosition, which differ only in the coefficients. */
  function Positions(a: real, b: real, c: real, sqrt: real -> real): (Complex, Complex)
    requires a > 0.0 && IsSqrt(sqrt)
  {
    var B := b / (2.0 * a);
    if b * b - 4.0 * a * c > 0.0 then
      var R := sqrt(b * b - 4.0 * a * c) / (2.0 * a);
      (Complex(R - B, 0.0), Complex(-R - B, 0.0))
    else
      var I := sqrt(4.0 * a * c - b * b) / (2.0 * a);
      (Complex(-B, I), Complex(-B, -I))
  }

  /** p and q are two reals or a conjugate pair, with the sum and the product of the roots of
      a z^2 + b z + c. */
  predicate RootPair(a: real, b: real, c: real, p: Complex, q: Complex) {
    && b == -a * (p.x + q.x) && c == a * (p.x * q.x - p.y * q.y)
    && q.y == -p.y && (p.y == 0.0 || q.x == p.x)
  }

  lemma {:induction false} PositionsAreRootPair(a: real, b: real, c: real, sqrt: real -> real)
    requires a > 0.0 && IsSqrt(sqrt)
    ensures var (p, q) := Positions(a, b, c, sqrt); RootPair(a, b, c, p, q)
  {
    var D := b * b - 4.0 * a * c;
    if D > 0.0 {
      var r := sqrt(D);
      RealPair(a, b, c, b / (2.0 * a), r / (2.0 * a), r);
    } else {
      var E := 4.0 * a * c - b * b;
      var r := sqrt(E);
      ConjugatePair(a, b, c, b / (2.0 * a), r / (2.0 * a), r);
    }
  }

  lemma {:induction false} RealPair(a: real, b: real, c: real, B: real, R: real, r: real)
    requires a > 0.0 && B == b / (2.0 * a) && R == r / (2.0 * a) && r * r == b * b - 4.0 * a * c
    ensures RootPair(a, b, c, Complex(R - B, 0.0), Complex(-R - B, 0.0))
  {
    Quotient(b, 2.0 * a);
    Quotient(r, 2.0 * a);
    RealProduct(a, b, c, B, R, r);
  }

  lemma {:induction false} RealProduct(a: real, b: real, c: real, B: real, R: real, r: real)
    requires a > 0.0 && b == B * (2.0 * a) && r == R * (2.0 * a) && r * r == b * b - 4.0 * a * c
    ensures c == a * ((R - B) * (-R - B))
  {
    assert 4.0 * a * (c - a * ((R - B) * (-R - B))) == 0.0;
  }

  lemma {:induction false} ConjugatePair(a: real, b: real, c: real, B: real, I: real, r: real)
    requires a > 0.0 && B == b / (2.0 * a) && I == r / (2.0 * a) && r * r == 4.0 * a * c - b * b
    ensures RootPair(a, b, c, Complex(-B, I), Complex(-B, -I))
  {
    Quotient(b, 2.0 * a);
    Quotient(r, 2.0 * a);
    ConjugateProduct(a, b, c, B, I, r);
  }

  lemma {:induction false} ConjugateProduct(a: real, b: real, c: real, B: real, I: real, r: real)
    requires a > 0.0 && b == B * (2.0 * a) && r == I * (2.0 * a) && r * r == 4.0 * a * c - b * b
    ensures c == a * (-B * -B - I * -I)
  {
    assert 4.0 * a * (c - a * (B * B + I * I)) == 0.0;
  }

  /** A quadratic is its leading coefficient times the differences to its two positions, at every
      point of the plane. */
  lemma {:induction false} Factors(a: real, b: real, c: real, z: Complex, p: Complex, q: Complex)
    requires RootPair(a, b, c, p, q)
    ensures Quadratic(a, b, c, z) == z.Minus(p).Times(z.Minus(q)).Scaled(a)
  {
    if p.y == 0.0 {
      RealFactors(a, b, c, z, p.x, q.x);
      assert p == Complex(p.x, 0.0) && q == Complex(q.x, 0.0);
    } else {
      ConjugateFactors(a, b, c, z, p.x, p.y);
      assert q == Complex(p.x, -p.y);
    }
  }

  lemma {:induction false} RealFactors(a: real, b: real, c: real, z: Complex, p: real, q: real)
    requires b == -a * (p + q) && c == a * (p * q)
    ensures Quadratic(a, b, c, z) == z.Minus(Complex(p, 0.0)).Times(z.Minus(Complex(q, 0.0))).Scaled(a)
  {
    var x, y := z.x, z.y;
    assert b * x == -a * (p * x) - a * (q * x);
    assert b * y == -a * (p * y) - a * (q * y);
  }

  lemma {:induction false} ConjugateFactors(a: real, b: real, c: real, z: Complex, p: real, q: real)
    requires b == -a * (p + p) && c == a * (p * p + q * q)
    ensures Quadratic(a, b, c, z) == z.Minus(Complex(p, q)).Times(z.Minus(Complex(p, -q))).Scaled(a)
  {
    var x, y := z.x, z.y;
    assert b * x == -2.0 * a * (p * x);
    assert b * y == -2.0 * a * (p * y);
  }

  /** A point is a root of the quadratic exactly when it is one of the two positions. */
  lemma {:induction false} PositionsExactlyRoots(a: real, b: real, c: real, z: Complex, sqrt: real -> real)
    requires a > 0.0 && IsSqrt(sqrt)
    ensures var (p, q) := Positions(a, b, c, sqrt);
            Quadratic(a, b, c, z) == ZERO <==> z == p || z == q
  {
    PositionsAreRootPair(a, b, c, sqrt);
    var (p, q) := Positions(a, b, c, sqrt);
    Factors(a, b, c, z, p, q);
    ZeroProduct(z.Minus(p), z.Minus(q));
  }

  // ----- the poles are inside the unit circle -----

  /** The condition on the coefficients that puts both roots strictly inside the unit circle. */
  predicate Stable(a: real, b: real, c: real) {
    a > 0.0 && -a < c < a && -(a + c) < b < a + c
  }

  lemma {:induction false} InsideExactlyStable(a: real, b: real, c: real, sqrt: real -> real)
    requires a > 0.0 && IsSqrt(sqrt)
    ensures var (p, q) := Positions(a, b, c, sqrt);
            p.Norm2() < 1.0 && q.Norm2() < 1.0 <==> Stable(a, b, c)
  {
    PositionsAreRootPair(a, b, c, sqrt);
    var (p, q) := Positions(a, b, c, sqrt);
    Inside(a, b, c, p, q);
  }

  lemma {:induction false} Inside(a: real, b: real, c: real, p: Complex, q: Complex)
    requires a > 0.0 && RootPair(a, b, c, p, q)
    ensures p.Norm2() < 1.0 && q.Norm2() < 1.0 <==> Stable(a, b, c)
  {
    if p.y == 0.0 {
      RealInside(a, b, c, p.x, q.x, p.x * p.x, q.x * q.x, p.x * q.x);
    } else {
      ConjugateInside(a, b, c, p.x, p.y, p.x * p.x, p.y * p.y);
    }
  }

  lemma {:induction false} RealInside(a: real, b: real, c: real, p: real, q: real, pp: real, qq: real, pq: real)
    requires a > 0.0 && b == -a * (p + q) && c == a * pq && pp == p * p && qq == q * q && pq == p * q
    ensures pp < 1.0 && qq < 1.0 <==> Stable(a, b, c)
  {
    Scale(a, 1.0 - p - q + pq, a + b + c);
    Scale(a, 1.0 + p + q + pq, a - b + c);
    Scale(a, 1.0 - pq, a - c);
    Scale(a, 1.0 + pq, a + c);
    Square(p, pp);
    Square(q, qq);
    UnitSquare(p, q, pq);
  }

  lemma {:induction false} ConjugateInside(a: real, b: real, c: real, x: real, y: real, xx: real, yy: real)
    requires a > 0.0 && y != 0.0 && b == -a * (x + x) && c == a * (xx + yy) && xx == x * x && yy == y * y
    ensures xx + yy < 1.0 <==> Stable(a, b, c)
  {
    SquareSign(x, xx);
    SquareSign(y, yy);
    SquareSign(1.0 - x, 1.0 - 2.0 * x + xx);
    SquareSign(1.0 + x, 1.0 + 2.0 * x + xx);
    Scale(a, 1.0 - (xx + yy), a - c);
    Scale(a, 1.0 - 2.0 * x + xx + yy, a + b + c);
    Scale(a, 1.0 + 2.0 * x + xx + yy, a - b + c);
    Scale(a, xx + yy, c);
  }

  /** Zeros and poles can be computed, and the poles are strictly inside. */
  predicate Usable(f: Biquad) {
    f.b0 > 0.0 && Stable(f.a0, f.a1, f.a2)
  }
}
