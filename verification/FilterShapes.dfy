/** What each filter type of the equaliser does to the tones of its frequency axis, the points of the
    unit circle (qt_widgets/DNREQPanel.cpp, CalculateEQ). */
module FilterShapes {
  import opened RealArithmetic
  import opened Biquads
  import opened Equaliser

  // The two ends of the axis: frequency 0, and half the sampling rate.
  const LOWEST := Complex(1.0, 0.0)
  const HIGHEST := Complex(-1.0, 0.0)

  /** N over D is the response of f at z, and it is finite. */
  predicate ResponseAt(f: Biquad, z: Complex, N: Complex, D: Complex) {
    N == Numerator(f, z) && D == Denominator(f, z) && D != ZERO
  }

  /** The response at z is the real number x / y. */
  ghost predicate Gain(f: Biquad, z: Complex, x: real, y: real) {
    exists N, D :: ResponseAt(f, z, N, D) && y != 0.0 && N.Scaled(y) == D.Scaled(x)
  }

  /** The magnitude of the response at z, squared, is x / y. */
  ghost predicate Power(f: Biquad, z: Complex, x: real, y: real) {
    exists N, D :: ResponseAt(f, z, N, D) && y != 0.0 && NormsIn(N, D, x, y)
  }

  predicate NormsIn(u: Complex, v: Complex, x: real, y: real) { y * u.Norm2() == x * v.Norm2() }

  predicate OnCircle(z: Complex) { z.Norm2() == 1.0 }

  /** z is at the angle Omega, given K = tan(Omega/2). */
  predicate Centre(K: real, z: Complex) { AtCentre(K * K, z) }

  predicate AtCentre(k2: real, z: Complex) { k2 * (1.0 + z.x) == 1.0 - z.x }

  // ----- the bilinear transform -----

  /** square s^2 + linear s + constant, an analogue polynomial. */
  datatype Analogue = Analogue(square: real, linear: real, constant: real) {
    /** With s = (z - 1) / (z + 1), times (z + 1)^2. */
    function At(z: Complex): Complex {
      var down, up := z.Minus(LOWEST), z.Minus(HIGHEST);
      var a, b, c := down.Times(down).Scaled(square), down.Times(up).Scaled(linear), up.Times(up).Scaled(constant);
      Complex(a.x + b.x + c.x, a.y + b.y + c.y)
    }

    // On the circle At(z) is 2 z times Real(z) + i Imaginary(z).

    function Real(z: Complex): real {
      constant * (1.0 + z.x) - square * (1.0 - z.x)
    }

    function Imaginary(z: Complex): real {
      linear * z.y
    }

    function Reduced(z: Complex): Complex {
      Complex(Real(z), Imaginary(z))
    }
  }

  lemma {:induction false} AtQuadratic(a: Analogue, z: Complex)
    ensures a.At(z) == Quadratic(a.square + a.linear + a.constant, 2.0 * (a.constant - a.square),
                                 a.square - a.linear + a.constant, z)
  {
  }

  lemma {:induction false} AtOnCircle(a: Analogue, z: Complex)
    requires OnCircle(z)
    ensures a.At(z) == z.Times(a.Reduced(z)).Scaled(2.0)
  {
    AtQuadratic(a, z);
    var n, M, l := a.square, a.linear, a.constant;
    QuadraticOnCircle(n, M, l, z, a.Real(z), a.Imaginary(z));
  }

  lemma {:induction false} QuadraticOnCircle(n: real, M: real, l: real, z: Complex, r: real, i: real)
    requires OnCircle(z) && r == l * (1.0 + z.x) - n * (1.0 - z.x) && i == M * z.y
    ensures Quadratic(n + M + l, 2.0 * (l - n), n - M + l, z) == z.Times(Complex(r, i)).Scaled(2.0)
  {
    CircleX(n, M, l, z.x, z.y, z.x * z.x, z.y * z.y, r, i);
    CircleY(n, M, l, z.x, z.y, r, i);
  }

  lemma {:induction false} CircleX(n: real, M: real, l: real, c: real, s: real, cc: real, ss: real, r: real, i: real)
    requires cc == c * c && ss == s * s && cc + ss == 1.0 && r == l * (1.0 + c) - n * (1.0 - c) && i == M * s
    ensures (n + M + l) * (cc - ss) + 2.0 * (l - n) * c + (n - M + l) == 2.0 * (c * r - s * i)
  {
    assert s * i == M * ss;
    assert (n + M + l) * (cc - ss) == 2.0 * ((n + M + l) * cc) - (n + M + l);
    assert c * r == l * c + l * cc - n * c + n * cc;
    assert M * ss == M - M * cc;
  }

  lemma {:induction false} CircleY(n: real, M: real, l: real, c: real, s: real, r: real, i: real)
    requires r == l * (1.0 + c) - n * (1.0 - c) && i == M * s
    ensures 2.0 * (n + M + l) * c * s + 2.0 * (l - n) * s == 2.0 * (c * i + s * r)
  {
  }

  // ----- every formula is a bilinear transform -----

  // Half of (1 + cs) s^2 + 2 M s + (1 - cs), whose real part on the circle is the distance in cosine.
  function Cosine(cs: real, M: real): Analogue {
    Analogue((1.0 + cs) / 2.0, M, (1.0 - cs) / 2.0)
  }

  function Top(f: Form): Analogue
    requires !f.Flat?
  {
    match f
    case LowPass(m, k2) => Analogue(0.0, 0.0, k2)
    case HighPass(m, k2) => Analogue(1.0, 0.0, 0.0)
    case Cookbook(cs, zeros, poles) => Cosine(cs, zeros)
    case BandPass(cs, poles) => Analogue(0.0, poles, 0.0)
    case Boost(n, M, l, m, k2) => Analogue(n, M, l)
    case Cut(n, M, l, m, k2) => Analogue(1.0, m, k2)
    case HighShelfCut(n, M, m, k2, mI, l) => Analogue(1.0, m, k2)
  }

  function Bottom(f: Form): Analogue
    requires !f.Flat?
  {
    match f
    case LowPass(m, k2) => Analogue(1.0, m, k2)
    case HighPass(m, k2) => Analogue(1.0, m, k2)
    case Cookbook(cs, zeros, poles) => Cosine(cs, poles)
    case BandPass(cs, poles) => Cosine(cs, poles)
    case Boost(n, M, l, m, k2) => Analogue(1.0, m, k2)
    case Cut(n, M, l, m, k2) => Analogue(n, M, l)
    case HighShelfCut(n, M, m, k2, mI, l) => Analogue(n, M, k2)
  }

  /** N and D are the transforms of the two polynomials, over a common number. */
  ghost predicate Transformed(f: Biquad, top: Analogue, bottom: Analogue, z: Complex) {
    exists i {:trigger top.At(z).Scaled(i)} ::
      Numerator(f, z) == top.At(z).Scaled(i) && Denominator(f, z) == bottom.At(z).Scaled(i)
  }

  lemma {:induction false} TransformedOver(f: Biquad, top: Analogue, bottom: Analogue, d: real, z: Complex)
    requires d > 0.0
    requires f.b0 == (top.square + top.linear + top.constant) / d && f.b1 == 2.0 * (top.constant - top.square) / d
          && f.b2 == (top.square - top.linear + top.constant) / d
    requires f.a0 == (bottom.square + bottom.linear + bottom.constant) / d
          && f.a1 == 2.0 * (bottom.constant - bottom.square) / d
          && f.a2 == (bottom.square - bottom.linear + bottom.constant) / d
    ensures Transformed(f, top, bottom, z)
  {
    AnalogueQuotient(top, d, z);
    AnalogueQuotient(bottom, d, z);
    var i := 1.0 / d;
    assert Numerator(f, z) == top.At(z).Scaled(i);
  }

  lemma {:induction false} AnalogueQuotient(a: Analogue, d: real, z: Complex)
    requires d > 0.0
    ensures Quadratic((a.square + a.linear + a.constant) / d, 2.0 * (a.constant - a.square) / d,
                      (a.square - a.linear + a.constant) / d, z) == a.At(z).Scaled(1.0 / d)
  {
    AtQuadratic(a, z);
    QuadraticQuotient(a.square + a.linear + a.constant, 2.0 * (a.constant - a.square),
                      a.square - a.linear + a.constant, d, z);
  }

  lemma {:induction false} FormTransformed(f: Form, z: Complex)
    requires f.Valid() && !f.Flat?
    ensures Transformed(f.Coefficients(), Top(f), Bottom(f), z)
  {
    match f
    case LowPass(m, k2) => OverItself(Top(f), Bottom(f), f.Coefficients(), z);
    case HighPass(m, k2) => OverItself(Top(f), Bottom(f), f.Coefficients(), z);
    case Boost(n, M, l, m, k2) => OverItself(Top(f), Bottom(f), f.Coefficients(), z);
    case Cut(n, M, l, m, k2) => OverItself(Top(f), Bottom(f), f.Coefficients(), z);
    case HighShelfCut(n, M, m, k2, mI, l) =>
      HighShelfIsCut(f);
      OverItself(Top(f), Bottom(f), f.Coefficients(), z);
    case Cookbook(cs, zeros, poles) => TransformedOver(f.Coefficients(), Top(f), Bottom(f), 1.0, z);
    case BandPass(cs, poles) => TransformedOver(f.Coefficients(), Top(f), Bottom(f), 1.0, z);
  }

  // The leading coefficient of the denominator is divided down to 1.
  lemma {:induction false} OverItself(top: Analogue, bottom: Analogue, f: Biquad, z: Complex)
    requires var d := bottom.square + bottom.linear + bottom.constant;
             && d > 0.0
             && f == Biquad((top.square + top.linear + top.constant) / d, 2.0 * (top.constant - top.square) / d,
                            (top.square - top.linear + top.constant) / d, 1.0,
                            2.0 * (bottom.constant - bottom.square) / d,
                            (bottom.square - bottom.linear + bottom.constant) / d)
    ensures Transformed(f, top, bottom, z)
  {
    var d := bottom.square + bottom.linear + bottom.constant;
    One(d);
    TransformedOver(f, top, bottom, d, z);
  }

  // ----- from the polynomials to the response -----

  /** Two polynomials, as values on the circle, in the ratio x to y. */
  predicate InRatio(u: Analogue, v: Analogue, z: Complex, x: real, y: real) {
    PartsIn(u.Reduced(z), v.Reduced(z), x, y)
  }

  predicate PartsIn(u: Complex, v: Complex, x: real, y: real) { y * u.x == x * v.x && y * u.y == x * v.y }

  predicate NormsInRatio(u: Analogue, v: Analogue, z: Complex, x: real, y: real) {
    NormsIn(u.Reduced(z), v.Reduced(z), x, y)
  }

  lemma {:induction false} Proportional(f: Biquad, top: Analogue, bottom: Analogue, z: Complex, x: real, y: real)
    requires OnCircle(z) && Transformed(f, top, bottom, z) && InRatio(top, bottom, z, x, y)
    ensures Numerator(f, z).Scaled(y) == Denominator(f, z).Scaled(x)
  {
    AtOnCircle(top, z);
    AtOnCircle(bottom, z);
    var i :| Numerator(f, z) == top.At(z).Scaled(i) && Denominator(f, z) == bottom.At(z).Scaled(i);
    Proportion(Numerator(f, z), Denominator(f, z), top.Reduced(z), bottom.Reduced(z), z, i, x, y);
  }

  lemma {:induction false} Proportion(N: Complex, D: Complex, u: Complex, v: Complex, z: Complex, i: real,
      x: real, y: real)
    requires N == z.Times(u).Scaled(2.0).Scaled(i) && D == z.Times(v).Scaled(2.0).Scaled(i) && PartsIn(u, v, x, y)
    ensures N.Scaled(y) == D.Scaled(x)
  {
    SameScaled(u, v, x, y);
    Factor(u, z, i, y);
    Factor(v, z, i, x);
  }

  lemma {:induction false} SameScaled(u: Complex, v: Complex, x: real, y: real)
    requires PartsIn(u, v, x, y)
    ensures u.Scaled(y) == v.Scaled(x)
  {
  }

  lemma {:induction false} Factor(u: Complex, z: Complex, i: real, y: real)
    ensures z.Times(u).Scaled(2.0).Scaled(i).Scaled(y) == z.Times(u.Scaled(y)).Scaled(2.0 * i)
  {
    TimesScaled(z, u, y);
    ScaledAgain(z.Times(u), i, y);
  }

  lemma {:induction false} TimesScaled(z: Complex, u: Complex, y: real)
    ensures z.Times(u.Scaled(y)) == z.Times(u).Scaled(y)
  {
    var a, b := u.x, u.y;
    assert z.x * (y * a) == y * (z.x * a) && z.y * (y * b) == y * (z.y * b);
    assert z.x * (y * b) == y * (z.x * b) && z.y * (y * a) == y * (z.y * a);
  }

  lemma {:induction false} ScaledAgain(w: Complex, i: real, y: real)
    ensures w.Scaled(2.0).Scaled(i).Scaled(y) == w.Scaled(y).Scaled(2.0 * i)
  {
    assert y * (i * (2.0 * w.x)) == 2.0 * i * (y * w.x);
    assert y * (i * (2.0 * w.y)) == 2.0 * i * (y * w.y);
  }

  lemma {:induction false} Powers(f: Biquad, top: Analogue, bottom: Analogue, z: Complex, x: real, y: real)
    requires OnCircle(z) && Transformed(f, top, bottom, z) && NormsInRatio(top, bottom, z, x, y)
    ensures NormsIn(Numerator(f, z), Denominator(f, z), x, y)
  {
    AtOnCircle(top, z);
    AtOnCircle(bottom, z);
    var i :| Numerator(f, z) == top.At(z).Scaled(i) && Denominator(f, z) == bottom.At(z).Scaled(i);
    PartNorms(Numerator(f, z), Denominator(f, z), top.Reduced(z), bottom.Reduced(z), z, i, x, y);
  }

  lemma {:induction false} PartNorms(N: Complex, D: Complex, u: Complex, v: Complex, z: Complex, i: real,
      x: real, y: real)
    requires OnCircle(z) && N == z.Times(u).Scaled(2.0).Scaled(i) && D == z.Times(v).Scaled(2.0).Scaled(i)
    requires NormsIn(u, v, x, y)
    ensures NormsIn(N, D, x, y)
  {
    PartNorm(z, u, i, u.Norm2());
    PartNorm(z, v, i, v.Norm2());
    SameMultiple(4.0 * (i * i), y, u.Norm2(), x, v.Norm2(), N.Norm2(), D.Norm2());
  }

  lemma {:induction false} PartNorm(z: Complex, u: Complex, i: real, n: real)
    requires OnCircle(z) && n == u.Norm2()
    ensures z.Times(u).Scaled(2.0).Scaled(i).Norm2() == 4.0 * (i * i) * n
  {
    NormTimes(z, u);
    ScaledNorm(z.Times(u), i, n);
  }

  lemma {:induction false} ScaledNorm(u: Complex, i: real, n: real)
    requires n == u.Norm2()
    ensures u.Scaled(2.0).Scaled(i).Norm2() == 4.0 * (i * i) * n
  {
  }

  lemma {:induction false} SameMultiple(k: real, y: real, u: real, x: real, v: real, ku: real, kv: real)
    requires y * u == x * v && ku == k * u && kv == k * v
    ensures y * ku == x * kv
  {
    assert y * ku == k * (y * u) && x * kv == k * (x * v);
  }

  function FormOf(kind: Kind, gain: real, p: Parameters, sqrt: real -> real): Form
    requires p.Valid()
  {
    Branch(kind, true, gain, p, TermsOf(p, sqrt))
  }

  lemma {:induction false} DesignTransformed(kind: Kind, gain: real, p: Parameters, sqrt: real -> real, z: Complex)
    requires p.Valid() && IsSqrt(sqrt) && kind != OFF
    ensures var F := FormOf(kind, gain, p, sqrt);
            !F.Flat? && Transformed(Design(kind, true, gain, p, sqrt), Top(F), Bottom(F), z)
  {
    TermsValid(p, sqrt);
    BranchValid(kind, true, gain, p, TermsOf(p, sqrt));
    FormTransformed(FormOf(kind, gain, p, sqrt), z);
  }

  /** No filter has a pole on the unit circle. */
  lemma {:induction false} NoPole(kind: Kind, gain: real, p: Parameters, sqrt: real -> real, z: Complex)
    requires p.Valid() && IsSqrt(sqrt) && OnCircle(z)
    ensures Denominator(Design(kind, true, gain, p, sqrt), z) != ZERO
  {
    var f := Design(kind, true, gain, p, sqrt);
    PolesInside(kind, true, gain, p, sqrt);
    PositionsExactlyRoots(f.a0, f.a1, f.a2, z, sqrt);
  }

  /** On the whole circle the response of f is that of the two polynomials, and it is finite. */
  ghost predicate Shaped(f: Biquad, top: Analogue, bottom: Analogue) {
    forall z :: OnCircle(z) ==> Transformed(f, top, bottom, z) && Denominator(f, z) != ZERO
  }

  lemma {:induction false} DesignShaped(kind: Kind, gain: real, p: Parameters, sqrt: real -> real,
      top: Analogue, bottom: Analogue)
    requires p.Valid() && IsSqrt(sqrt) && kind != OFF
    requires var F := FormOf(kind, gain, p, sqrt); !F.Flat? && top == Top(F) && bottom == Bottom(F)
    ensures Shaped(Design(kind, true, gain, p, sqrt), top, bottom)
  {
    var f := Design(kind, true, gain, p, sqrt);
    forall z | OnCircle(z) ensures Transformed(f, top, bottom, z) && Denominator(f, z) != ZERO {
      DesignTransformed(kind, gain, p, sqrt, z);
      NoPole(kind, gain, p, sqrt, z);
    }
  }

  lemma {:induction false} GainBy(f: Biquad, top: Analogue, bottom: Analogue, z: Complex, x: real, y: real)
    requires Shaped(f, top, bottom) && OnCircle(z) && y != 0.0 && InRatio(top, bottom, z, x, y)
    ensures Gain(f, z, x, y)
  {
    Proportional(f, top, bottom, z, x, y);
    assert ResponseAt(f, z, Numerator(f, z), Denominator(f, z));
  }

  lemma {:induction false} PowerBy(f: Biquad, top: Analogue, bottom: Analogue, z: Complex, x: real, y: real)
    requires Shaped(f, top, bottom) && OnCircle(z) && y != 0.0 && NormsInRatio(top, bottom, z, x, y)
    ensures Power(f, z, x, y)
  {
    Powers(f, top, bottom, z, x, y);
    assert ResponseAt(f, z, Numerator(f, z), Denominator(f, z));
  }

  /** At the lowest frequency the constants give the ratio, at the highest the leading coefficients. */
  lemma {:induction false} EndGains(f: Biquad, top: Analogue, bottom: Analogue, x: real, y: real, xx: real, yy: real)
    requires Shaped(f, top, bottom) && y != 0.0 && yy != 0.0
    requires y * top.constant == x * bottom.constant && yy * top.square == xx * bottom.square
    ensures Gain(f, LOWEST, x, y) && Gain(f, HIGHEST, xx, yy)
  {
    LowestRatio(top, bottom, x, y);
    HighestRatio(top, bottom, xx, yy);
    GainBy(f, top, bottom, LOWEST, x, y);
    GainBy(f, top, bottom, HIGHEST, xx, yy);
  }

  lemma {:induction false} LowestRatio(u: Analogue, v: Analogue, x: real, y: real)
    requires y * u.constant == x * v.constant
    ensures InRatio(u, v, LOWEST, x, y)
  {
  }

  lemma {:induction false} HighestRatio(u: Analogue, v: Analogue, x: real, y: real)
    requires y * u.square == x * v.square
    ensures InRatio(u, v, HIGHEST, x, y)
  {
  }

  /** The squared magnitudes by the squares of their parts. */
  lemma {:induction false} PartsInRatio(u: Analogue, v: Analogue, z: Complex, x: real, y: real,
      pu: real, qu: real, pv: real, qv: real)
    requires pu == u.Real(z) * u.Real(z) && qu == u.Imaginary(z) * u.Imaginary(z)
    requires pv == v.Real(z) * v.Real(z) && qv == v.Imaginary(z) * v.Imaginary(z)
    requires y * (pu + qu) == x * (pv + qv)
    ensures NormsInRatio(u, v, z, x, y)
  {
  }

  // ----- the passes -----

  lemma {:induction false} RootTwo(K: real, k2: real, rk: real, r: real)
    requires k2 == K * K && rk == r * K && r * r == 2.0
    ensures rk * rk == 2.0 * k2
  {
    assert rk * rk == r * r * (K * K);
  }

  /** Where k2 (1 + c) = 1 - c, with m^2 = 2 S k2. */
  lemma {:induction false} CentreSine(m: real, k2: real, S: real, z: Complex, v: real, mi: real)
    requires OnCircle(z) && k2 * (1.0 + z.x) == v && v == 1.0 - z.x && m * m == 2.0 * S * k2 && mi == m * z.y
    ensures mi * mi == 2.0 * S * (v * v)
  {
    CircleSine(z);
    SquareOfProduct(m, z.y, mi);
    assert 2.0 * S * k2 * (v * (1.0 + z.x)) == 2.0 * S * (v * (k2 * (1.0 + z.x)));
  }

  lemma {:induction false} CircleSine(z: Complex)
    requires OnCircle(z)
    ensures z.y * z.y == (1.0 - z.x) * (1.0 + z.x)
  {
  }

  /** At the corner both passes have half the power. */
  lemma {:induction false} CornerRatio(m: real, k2: real, z: Complex)
    requires OnCircle(z) && AtCentre(k2, z) && m * m == 2.0 * k2
    ensures NormsInRatio(Analogue(0.0, 0.0, k2), Analogue(1.0, m, k2), z, 1.0, 2.0)
    ensures NormsInRatio(Analogue(1.0, 0.0, 0.0), Analogue(1.0, m, k2), z, 1.0, 2.0)
  {
    var v, mi := 1.0 - z.x, m * z.y;
    CentreSine(m, k2, 1.0, z, v, mi);
    var low, high, all := Analogue(0.0, 0.0, k2), Analogue(1.0, 0.0, 0.0), Analogue(1.0, m, k2);
    assert low.Real(z) == v && high.Real(z) == -v && all.Real(z) == 0.0;
    assert low.Imaginary(z) == 0.0 && high.Imaginary(z) == 0.0 && all.Imaginary(z) == mi;
    PartsInRatio(low, all, z, 1.0, 2.0, v * v, 0.0, 0.0, 2.0 * (v * v));
    PartsInRatio(high, all, z, 1.0, 2.0, v * v, 0.0, 0.0, 2.0 * (v * v));
  }

  lemma {:induction false} Corner(f: Biquad, top: Analogue, m: real, k2: real, r: real, K: real, z: Complex)
    requires top == Analogue(0.0, 0.0, k2) || top == Analogue(1.0, 0.0, 0.0)
    requires Shaped(f, top, Analogue(1.0, m, k2)) && OnCircle(z)
    requires k2 == K * K && m == r * K && r * r == 2.0
    ensures Centre(K, z) ==> Power(f, z, 1.0, 2.0)
  {
    if Centre(K, z) {
      RootTwo(K, k2, m, r);
      CornerRatio(m, k2, z);
      PowerBy(f, top, Analogue(1.0, m, k2), z, 1.0, 2.0);
    }
  }

  lemma {:induction false} LowPassEnds(f: Biquad, m: real, k2: real)
    requires Shaped(f, Analogue(0.0, 0.0, k2), Analogue(1.0, m, k2))
    ensures Gain(f, LOWEST, 1.0, 1.0) && Gain(f, HIGHEST, 0.0, 1.0)
  {
    EndGains(f, Analogue(0.0, 0.0, k2), Analogue(1.0, m, k2), 1.0, 1.0, 0.0, 1.0);
  }

  lemma {:induction false} HighPassEnds(f: Biquad, m: real, k2: real)
    requires Shaped(f, Analogue(1.0, 0.0, 0.0), Analogue(1.0, m, k2))
    ensures Gain(f, LOWEST, 0.0, 1.0) && Gain(f, HIGHEST, 1.0, 1.0)
  {
    EndGains(f, Analogue(1.0, 0.0, 0.0), Analogue(1.0, m, k2), 0.0, 1.0, 1.0, 1.0);
  }

  /** The low pass: everything at the lowest frequency, nothing at the highest, half the power at the
      corner. */
  lemma {:induction false} LowPassShape(gain: real, p: Parameters, sqrt: real -> real, z: Complex)
    requires p.Valid() && IsSqrt(sqrt) && OnCircle(z)
    ensures var f := Design(LPF, true, gain, p, sqrt);
            Gain(f, LOWEST, 1.0, 1.0) && Gain(f, HIGHEST, 0.0, 1.0) && (Centre(p.K, z) ==> Power(f, z, 1.0, 2.0))
  {
    var f, t := Design(LPF, true, gain, p, sqrt), TermsOf(p, sqrt);
    DesignShaped(LPF, gain, p, sqrt, Analogue(0.0, 0.0, t.k2), Analogue(1.0, t.rk, t.k2));
    LowPassOf(f, t.rk, t.k2, sqrt(2.0), p.K, z);
  }

  lemma {:induction false} LowPassOf(f: Biquad, m: real, k2: real, r: real, K: real, z: Complex)
    requires Shaped(f, Analogue(0.0, 0.0, k2), Analogue(1.0, m, k2)) && OnCircle(z)
    requires k2 == K * K && m == r * K && r * r == 2.0
    ensures Gain(f, LOWEST, 1.0, 1.0) && Gain(f, HIGHEST, 0.0, 1.0) && (Centre(K, z) ==> Power(f, z, 1.0, 2.0))
  {
    LowPassEnds(f, m, k2);
    Corner(f, Analogue(0.0, 0.0, k2), m, k2, r, K, z);
  }

  /** The high pass: the other way round. */
  lemma {:induction false} HighPassShape(gain: real, p: Parameters, sqrt: real -> real, z: Complex)
    requires p.Valid() && IsSqrt(sqrt) && OnCircle(z)
    ensures var f := Design(HPF, true, gain, p, sqrt);
            Gain(f, LOWEST, 0.0, 1.0) && Gain(f, HIGHEST, 1.0, 1.0) && (Centre(p.K, z) ==> Power(f, z, 1.0, 2.0))
  {
    var f, t := Design(HPF, true, gain, p, sqrt), TermsOf(p, sqrt);
    DesignShaped(HPF, gain, p, sqrt, Analogue(1.0, 0.0, 0.0), Analogue(1.0, t.rk, t.k2));
    HighPassOf(f, t.rk, t.k2, sqrt(2.0), p.K, z);
  }

  lemma {:induction false} HighPassOf(f: Biquad, m: real, k2: real, r: real, K: real, z: Complex)
    requires Shaped(f, Analogue(1.0, 0.0, 0.0), Analogue(1.0, m, k2)) && OnCircle(z)
    requires k2 == K * K && m == r * K && r * r == 2.0
    ensures Gain(f, LOWEST, 0.0, 1.0) && Gain(f, HIGHEST, 1.0, 1.0) && (Centre(K, z) ==> Power(f, z, 1.0, 2.0))
  {
    HighPassEnds(f, m, k2);
    Corner(f, Analogue(1.0, 0.0, 0.0), m, k2, r, K, z);
  }

  predicate BandEdge(cs: real, a: real, z: Complex) { z.x - cs == a * z.y || cs - z.x == a * z.y }

  /** The band pass: nothing at either end, everything at the centre, half the power where the
      distance in cosine is Alpha times the sine. */
  lemma {:induction false} BandPassShape(gain: real, p: Parameters, sqrt: real -> real, z: Complex)
    requires p.Valid() && IsSqrt(sqrt) && OnCircle(z)
    ensures var f := Design(BPF, true, gain, p, sqrt);
            && Gain(f, LOWEST, 0.0, 1.0) && Gain(f, HIGHEST, 0.0, 1.0)
            && (z.x == p.Cs ==> Gain(f, z, 1.0, 1.0))
            && (BandEdge(p.Cs, p.Alpha, z) ==> Power(f, z, 1.0, 2.0))
  {
    var f := Design(BPF, true, gain, p, sqrt);
    DesignShaped(BPF, gain, p, sqrt, Analogue(0.0, p.Alpha, 0.0), Cosine(p.Cs, p.Alpha));
    BandPassOf(f, p.Cs, p.Alpha, z);
  }

  lemma {:induction false} BandPassOf(f: Biquad, cs: real, a: real, z: Complex)
    requires Shaped(f, Analogue(0.0, a, 0.0), Cosine(cs, a)) && OnCircle(z)
    ensures Gain(f, LOWEST, 0.0, 1.0) && Gain(f, HIGHEST, 0.0, 1.0)
    ensures z.x == cs ==> Gain(f, z, 1.0, 1.0)
    ensures BandEdge(cs, a, z) ==> Power(f, z, 1.0, 2.0)
  {
    BandPassEnds(f, cs, a);
    BandPassMiddle(f, cs, a, z);
  }

  lemma {:induction false} BandPassEnds(f: Biquad, cs: real, a: real)
    requires Shaped(f, Analogue(0.0, a, 0.0), Cosine(cs, a))
    ensures Gain(f, LOWEST, 0.0, 1.0) && Gain(f, HIGHEST, 0.0, 1.0)
  {
    EndGains(f, Analogue(0.0, a, 0.0), Cosine(cs, a), 0.0, 1.0, 0.0, 1.0);
  }

  lemma {:induction false} BandPassMiddle(f: Biquad, cs: real, a: real, z: Complex)
    requires Shaped(f, Analogue(0.0, a, 0.0), Cosine(cs, a)) && OnCircle(z)
    ensures z.x == cs ==> Gain(f, z, 1.0, 1.0)
    ensures BandEdge(cs, a, z) ==> Power(f, z, 1.0, 2.0)
  {
    var top, bottom := Analogue(0.0, a, 0.0), Cosine(cs, a);
    BandPassParts(cs, a, z);
    if z.x == cs { GainBy(f, top, bottom, z, 1.0, 1.0); }
    if BandEdge(cs, a, z) { PowerBy(f, top, bottom, z, 1.0, 2.0); }
  }

  /** (1 - cs)(1 + c) / 2 - (1 + cs)(1 - c) / 2 is c - cs. */
  lemma {:induction false} CookbookReal(cs: real, M: real, z: Complex)
    ensures Cosine(cs, M).Real(z) == z.x - cs
  {
  }

  lemma {:induction false} BandPassParts(cs: real, a: real, z: Complex)
    ensures var u, v := Analogue(0.0, a, 0.0), Cosine(cs, a);
            && (z.x == cs ==> InRatio(u, v, z, 1.0, 1.0))
            && (BandEdge(cs, a, z) ==> NormsInRatio(u, v, z, 1.0, 2.0))
  {
    CookbookReal(cs, a, z);
    var u, v := Analogue(0.0, a, 0.0), Cosine(cs, a);
    var i := a * z.y;
    if z.x - cs == i || cs - z.x == i {
      PartsInRatio(u, v, z, 1.0, 2.0, 0.0, i * i, i * i, i * i);
    }
  }

  // ----- peak and notch -----

  /** Where a peak of gain A has half its gain in decibels, the edges of its band. */
  predicate PeakEdge(p: Parameters, z: Complex) {
    SquaresInRatio(p.Q * (p.K * p.K * (1.0 + z.x) - (1.0 - z.x)), p.K * z.y, p.A)
  }

  predicate SquaresInRatio(u: real, w: real, A: real) { u * u == A * (w * w) }

  // Both parts scaled by A.
  lemma {:induction false} PartsScaled(u: Analogue, v: Analogue, z: Complex, A: real, pv: real, qv: real)
    requires A > 0.0 && pv == v.Real(z) * v.Real(z) && qv == v.Imaginary(z) * v.Imaginary(z)
    requires u.Real(z) * u.Real(z) == A * pv && u.Imaginary(z) * u.Imaginary(z) == A * qv
    ensures NormsInRatio(u, v, z, A, 1.0) && NormsInRatio(v, u, z, 1.0, A)
  {
    PartsInRatio(u, v, z, A, 1.0, A * pv, A * qv, pv, qv);
    PartsInRatio(v, u, z, 1.0, A, pv, qv, A * pv, A * qv);
  }

  lemma {:induction false} PeakCentre(A: real, akq: real, kq: real, k2: real, z: Complex)
    requires akq == A * kq && AtCentre(k2, z)
    ensures var u, v := Analogue(1.0, akq, k2), Analogue(1.0, kq, k2);
            InRatio(u, v, z, A, 1.0) && InRatio(v, u, z, 1.0, A)
  {
    Regroup(A, kq, z.y, akq);
  }

  lemma {:induction false} PeakEdgeRatio(A: real, akq: real, kq: real, k2: real, z: Complex, e: real, i: real)
    requires akq == A * kq && e == k2 * (1.0 + z.x) - (1.0 - z.x) && i == kq * z.y && SquaresInRatio(e, i, A)
    ensures var u, v := Analogue(1.0, akq, k2), Analogue(1.0, kq, k2);
            NormsInRatio(u, v, z, A, 1.0) && NormsInRatio(v, u, z, 1.0, A)
  {
    var u, v := Analogue(1.0, akq, k2), Analogue(1.0, kq, k2);
    Regroup(A, kq, z.y, akq);
    var g, h := i * i, A * (i * i);
    var hh := A * h;
    assert u.Real(z) == e && v.Real(z) == e && v.Imaginary(z) == i && u.Imaginary(z) == A * i;
    assert (A * i) * (A * i) == hh;
    PartsInRatio(u, v, z, A, 1.0, h, hh, h, g);
    PartsInRatio(v, u, z, 1.0, A, h, g, h, hh);
  }

  lemma {:induction false} PeakTermsScaled(K: real, Q: real, A: real, kq: real, akq: real)
    requires Q > 0.0 && kq == K / Q && akq == A * K / Q
    ensures kq * Q == K && akq == A * kq
  {
    Quotient(K, Q);
    Quotient(A * K, Q);
    Regroup(A, kq, Q, akq);
  }

  lemma {:induction false} EdgeOverQ(p: Parameters, z: Complex, kq: real, k2: real, e: real, i: real)
    requires p.Q > 0.0 && kq * p.Q == p.K && k2 == p.K * p.K && PeakEdge(p, z)
    requires e == k2 * (1.0 + z.x) - (1.0 - z.x) && i == kq * z.y
    ensures SquaresInRatio(e, i, p.A)
  {
    AtPeakEdge(p, z, k2, e, p.K * z.y);
    WithoutQ(p.Q, kq, p.K, p.A, e, z.y, p.Q * e, p.K * z.y, i);
  }

  lemma {:induction false} AtPeakEdge(p: Parameters, z: Complex, k2: real, e: real, w: real)
    requires PeakEdge(p, z) && k2 == p.K * p.K && e == k2 * (1.0 + z.x) - (1.0 - z.x) && w == p.K * z.y
    ensures SquaresInRatio(p.Q * e, w, p.A)
  {
  }

  lemma {:induction false} WithoutQ(Q: real, kq: real, K: real, A: real, e: real, s: real, Qe: real, Ks: real, i: real)
    requires Q > 0.0 && kq * Q == K && Qe == Q * e && Ks == K * s && i == kq * s && SquaresInRatio(Qe, Ks, A)
    ensures SquaresInRatio(e, i, A)
  {
    Positive(Q, Q, Q * Q);
    var x, y := e * e, A * (i * i);
    SquareOfProduct(Q, e, Qe);
    assert Ks == Q * i;
    SquareOfProduct(Q, i, Ks);
    assert Q * Q * y == A * (Q * Q * (i * i));
    SameFactor(Q * Q, x, y);
  }

  lemma {:induction false} SquareOfProduct(x: real, y: real, xy: real)
    requires xy == x * y
    ensures xy * xy == x * x * (y * y)
  {
  }

  lemma {:induction false} SameFactor(k: real, x: real, y: real)
    requires k > 0.0 && k * x == k * y
    ensures x == y
  {
    if x < y { Positive(k, y - x, k * (y - x)); }
    if y < x { Positive(k, x - y, k * (x - y)); }
  }

  // ----- the designs with a gain -----

  /** x to y when the gain is raised, y to x when it is lowered. */
  ghost predicate RaisedGain(f: Biquad, z: Complex, up: bool, x: real) {
    if up then Gain(f, z, x, 1.0) else Gain(f, z, 1.0, x)
  }

  ghost predicate RaisedPower(f: Biquad, z: Complex, up: bool, x: real, y: real) {
    if up then Power(f, z, x, y) else Power(f, z, y, x)
  }

  /** The peak, as PEAKINGEQ designs it, and a NOTCH that is not negative: nothing changes at the
      ends, the gain is A at the centre (1 / A to cut), and half that in decibels at the edges. */
  lemma {:induction false} PeakShape(kind: Kind, gain: real, p: Parameters, sqrt: real -> real, z: Complex)
    requires p.Valid() && IsSqrt(sqrt) && OnCircle(z) && (kind == PEAKINGEQ || (kind == NOTCH && gain >= 0.0))
    ensures var f, up := Design(kind, true, gain, p, sqrt), kind == NOTCH || gain > 0.0;
            && Gain(f, LOWEST, 1.0, 1.0) && Gain(f, HIGHEST, 1.0, 1.0)
            && (Centre(p.K, z) ==> RaisedGain(f, z, up, p.A))
            && (PeakEdge(p, z) ==> RaisedPower(f, z, up, p.A, 1.0))
  {
    var akq, kq, k2 := PeakTermsOf(kind, gain, p, sqrt);
    PeakOf(Design(kind, true, gain, p, sqrt), kind == NOTCH || gain > 0.0, p, akq, kq, k2, z);
  }

  lemma {:induction false} PeakTermsOf(kind: Kind, gain: real, p: Parameters, sqrt: real -> real)
    returns (akq: real, kq: real, k2: real)
    requires p.Valid() && IsSqrt(sqrt) && (kind == PEAKINGEQ || (kind == NOTCH && gain >= 0.0))
    ensures ShapedUp(Design(kind, true, gain, p, sqrt), kind == NOTCH || gain > 0.0,
                     Analogue(1.0, akq, k2), Analogue(1.0, kq, k2))
    ensures kq * p.Q == p.K && akq == p.A * kq && k2 == p.K * p.K
  {
    var t := TermsOf(p, sqrt);
    akq, kq, k2 := t.akq, t.kq, t.k2;
    PeakShaped(kind, gain, p, sqrt, akq, kq, k2);
    PeakProducts(p, sqrt, akq, kq, k2);
  }

  lemma {:induction false} PeakProducts(p: Parameters, sqrt: real -> real, akq: real, kq: real, k2: real)
    requires p.Valid() && var t := TermsOf(p, sqrt); akq == t.akq && kq == t.kq && k2 == t.k2
    ensures kq * p.Q == p.K && akq == p.A * kq && k2 == p.K * p.K
  {
    PeakTermsScaled(p.K, p.Q, p.A, kq, akq);
  }

  lemma {:induction false} PeakShaped(kind: Kind, gain: real, p: Parameters, sqrt: real -> real,
      akq: real, kq: real, k2: real)
    requires p.Valid() && IsSqrt(sqrt) && (kind == PEAKINGEQ || (kind == NOTCH && gain >= 0.0))
    requires var t := TermsOf(p, sqrt); akq == t.akq && kq == t.kq && k2 == t.k2
    ensures ShapedUp(Design(kind, true, gain, p, sqrt), kind == NOTCH || gain > 0.0,
                     Analogue(1.0, akq, k2), Analogue(1.0, kq, k2))
  {
    var u, v, up := Analogue(1.0, akq, k2), Analogue(1.0, kq, k2), kind == NOTCH || gain > 0.0;
    DesignShaped(kind, gain, p, sqrt, if up then u else v, if up then v else u);
  }

  lemma {:induction false} PeakOf(f: Biquad, up: bool, p: Parameters, akq: real, kq: real, k2: real, z: Complex)
    requires p.Valid() && OnCircle(z) && ShapedUp(f, up, Analogue(1.0, akq, k2), Analogue(1.0, kq, k2))
    requires kq * p.Q == p.K && akq == p.A * kq && k2 == p.K * p.K
    ensures Gain(f, LOWEST, 1.0, 1.0) && Gain(f, HIGHEST, 1.0, 1.0)
    ensures Centre(p.K, z) ==> RaisedGain(f, z, up, p.A)
    ensures PeakEdge(p, z) ==> RaisedPower(f, z, up, p.A, 1.0)
  {
    if up { PeakEnds(f, akq, kq, k2); } else { PeakEnds(f, kq, akq, k2); }
    PeakMiddle(f, up, p, akq, kq, k2, z);
    PeakEdges(f, up, p, akq, kq, k2, z);
  }

  lemma {:induction false} PeakEnds(f: Biquad, M: real, m: real, k2: real)
    requires Shaped(f, Analogue(1.0, M, k2), Analogue(1.0, m, k2))
    ensures Gain(f, LOWEST, 1.0, 1.0) && Gain(f, HIGHEST, 1.0, 1.0)
  {
    EndGains(f, Analogue(1.0, M, k2), Analogue(1.0, m, k2), 1.0, 1.0, 1.0, 1.0);
  }

  /** f has the two polynomials as numerator and denominator, or the other way round. */
  ghost predicate ShapedUp(f: Biquad, up: bool, u: Analogue, v: Analogue) {
    if up then Shaped(f, u, v) else Shaped(f, v, u)
  }

  lemma {:induction false} RaisedGainBy(f: Biquad, up: bool, u: Analogue, v: Analogue, z: Complex, x: real)
    requires ShapedUp(f, up, u, v) && OnCircle(z) && x != 0.0 && InRatio(u, v, z, x, 1.0) && InRatio(v, u, z, 1.0, x)
    ensures RaisedGain(f, z, up, x)
  {
    if up { GainBy(f, u, v, z, x, 1.0); } else { GainBy(f, v, u, z, 1.0, x); }
  }

  lemma {:induction false} RaisedPowerBy(f: Biquad, up: bool, u: Analogue, v: Analogue, z: Complex, x: real, y: real)
    requires ShapedUp(f, up, u, v) && OnCircle(z) && x != 0.0 && y != 0.0
    requires NormsInRatio(u, v, z, x, y) && NormsInRatio(v, u, z, y, x)
    ensures RaisedPower(f, z, up, x, y)
  {
    if up { PowerBy(f, u, v, z, x, y); } else { PowerBy(f, v, u, z, y, x); }
  }

  lemma {:induction false} PeakMiddle(f: Biquad, up: bool, p: Parameters, akq: real, kq: real, k2: real, z: Complex)
    requires p.Valid() && OnCircle(z) && ShapedUp(f, up, Analogue(1.0, akq, k2), Analogue(1.0, kq, k2))
    requires akq == p.A * kq && k2 == p.K * p.K
    ensures Centre(p.K, z) ==> RaisedGain(f, z, up, p.A)
  {
    if Centre(p.K, z) {
      PeakCentre(p.A, akq, kq, k2, z);
      RaisedGainBy(f, up, Analogue(1.0, akq, k2), Analogue(1.0, kq, k2), z, p.A);
    }
  }

  lemma {:induction false} PeakEdges(f: Biquad, up: bool, p: Parameters, akq: real, kq: real, k2: real, z: Complex)
    requires p.Valid() && OnCircle(z) && ShapedUp(f, up, Analogue(1.0, akq, k2), Analogue(1.0, kq, k2))
    requires kq * p.Q == p.K && akq == p.A * kq && k2 == p.K * p.K
    ensures PeakEdge(p, z) ==> RaisedPower(f, z, up, p.A, 1.0)
  {
    if PeakEdge(p, z) {
      var e := k2 * (1.0 + z.x) - (1.0 - z.x);
      EdgeOverQ(p, z, kq, k2, e, kq * z.y);
      PeakEdgeRatio(p.A, akq, kq, k2, z, e, kq * z.y);
      RaisedPowerBy(f, up, Analogue(1.0, akq, k2), Analogue(1.0, kq, k2), z, p.A, 1.0);
    }
  }

  /** A NOTCH below 0 dB: nothing changes at the ends, the gain is 1 / A at the centre, and half that
      in decibels where A times the squared distance in cosine is that of Alpha times the sine. */
  lemma {:induction false} NotchShape(gain: real, p: Parameters, sqrt: real -> real, z: Complex)
    requires p.Valid() && IsSqrt(sqrt) && OnCircle(z) && gain < 0.0
    ensures var f := Design(NOTCH, true, gain, p, sqrt);
            && Gain(f, LOWEST, 1.0, 1.0) && Gain(f, HIGHEST, 1.0, 1.0)
            && (z.x == p.Cs ==> Gain(f, z, 1.0, p.A))
            && (NotchEdge(p, z) ==> Power(f, z, 1.0, p.A))
  {
    var f, t := Design(NOTCH, true, gain, p, sqrt), TermsOf(p, sqrt);
    DesignShaped(NOTCH, gain, p, sqrt, Cosine(p.Cs, t.notch), Cosine(p.Cs, p.Alpha));
    NotchTerm(p.A, p.Alpha, 1.0 / p.A, t.notch);
    NotchOf(f, p, t.notch, z);
  }

  lemma {:induction false} NotchOf(f: Biquad, p: Parameters, notch: real, z: Complex)
    requires p.Valid() && OnCircle(z) && Shaped(f, Cosine(p.Cs, notch), Cosine(p.Cs, p.Alpha)) && p.A * notch == p.Alpha
    ensures Gain(f, LOWEST, 1.0, 1.0) && Gain(f, HIGHEST, 1.0, 1.0)
    ensures z.x == p.Cs ==> Gain(f, z, 1.0, p.A)
    ensures NotchEdge(p, z) ==> Power(f, z, 1.0, p.A)
  {
    NotchEnds(f, p.Cs, notch, p.Alpha);
    NotchMiddle(f, p, notch, z);
    NotchEdges(f, p, notch, z);
  }

  predicate NotchEdge(p: Parameters, z: Complex) {
    SquaresInRatio(p.Alpha * z.y, z.x - p.Cs, p.A)
  }

  lemma {:induction false} NotchTerm(A: real, a: real, i: real, notch: real)
    requires A > 0.0 && i == 1.0 / A && notch == i * a
    ensures A * notch == a
  {
    Quotient(1.0, A);
    Regroup(A, i, a, 1.0);
  }

  lemma {:induction false} NotchEnds(f: Biquad, cs: real, M: real, m: real)
    requires Shaped(f, Cosine(cs, M), Cosine(cs, m))
    ensures Gain(f, LOWEST, 1.0, 1.0) && Gain(f, HIGHEST, 1.0, 1.0)
  {
    EndGains(f, Cosine(cs, M), Cosine(cs, m), 1.0, 1.0, 1.0, 1.0);
  }

  lemma {:induction false} NotchMiddle(f: Biquad, p: Parameters, notch: real, z: Complex)
    requires p.Valid() && OnCircle(z) && Shaped(f, Cosine(p.Cs, notch), Cosine(p.Cs, p.Alpha)) && p.A * notch == p.Alpha
    ensures z.x == p.Cs ==> Gain(f, z, 1.0, p.A)
  {
    if z.x == p.Cs {
      NotchCentre(p.A, p.Cs, notch, p.Alpha, z);
      GainBy(f, Cosine(p.Cs, notch), Cosine(p.Cs, p.Alpha), z, 1.0, p.A);
    }
  }

  lemma {:induction false} NotchCentre(A: real, cs: real, notch: real, a: real, z: Complex)
    requires A * notch == a && z.x == cs
    ensures InRatio(Cosine(cs, notch), Cosine(cs, a), z, 1.0, A)
  {
    CookbookReal(cs, notch, z);
    CookbookReal(cs, a, z);
    Regroup(A, notch, z.y, a);
  }

  lemma {:induction false} NotchEdges(f: Biquad, p: Parameters, notch: real, z: Complex)
    requires p.Valid() && OnCircle(z) && Shaped(f, Cosine(p.Cs, notch), Cosine(p.Cs, p.Alpha)) && p.A * notch == p.Alpha
    ensures NotchEdge(p, z) ==> Power(f, z, 1.0, p.A)
  {
    if NotchEdge(p, z) {
      AtNotchEdge(p, z, p.Alpha * z.y, z.x - p.Cs);
      NotchEdgeRatio(p.A, p.Cs, notch, p.Alpha, z, z.x - p.Cs, notch * z.y, p.Alpha * z.y);
      PowerBy(f, Cosine(p.Cs, notch), Cosine(p.Cs, p.Alpha), z, 1.0, p.A);
    }
  }

  lemma {:induction false} AtNotchEdge(p: Parameters, z: Complex, u: real, w: real)
    requires NotchEdge(p, z) && u == p.Alpha * z.y && w == z.x - p.Cs
    ensures SquaresInRatio(u, w, p.A)
  {
  }

  lemma {:induction false} NotchEdgeRatio(A: real, cs: real, notch: real, a: real, z: Complex, e: real, i: real, u: real)
    requires A > 0.0 && A * notch == a && e == z.x - cs && i == notch * z.y && u == a * z.y && SquaresInRatio(u, e, A)
    ensures NormsInRatio(Cosine(cs, notch), Cosine(cs, a), z, 1.0, A)
  {
    CookbookReal(cs, notch, z);
    CookbookReal(cs, a, z);
    Regroup(A, notch, z.y, a);
    SquareOfProduct(A, i, u);
    SameFactor(A, e * e, A * (i * i));
    var g, h := i * i, A * (i * i);
    PartsInRatio(Cosine(cs, notch), Cosine(cs, a), z, 1.0, A, h, g, h, A * h);
  }

  // ----- the shelves -----

  /** Half way up the slope of a shelf, where it has half its gain in decibels; r is the root of A. */
  predicate Midway(kind: Kind, K: real, r: real, z: Complex) {
    if kind == LOWSHELF then r * (K * K * (1.0 + z.x)) == 1.0 - z.x else K * K * (1.0 + z.x) == r * (1.0 - z.x)
  }

  function CentrePower(A: real, S: real): real {
    (A - 1.0) * (A - 1.0) + 2.0 * A * S
  }

  /** The middle coefficients of a shelf: m^2 is 2 S k2, and mA^2 is A m^2. */
  predicate Slopes(A: real, S: real, mA: real, m: real, k2: real) {
    m * m == 2.0 * S * k2 && mA * mA == A * (m * m)
  }

  /** A shelf: gain A at its end and 1 at the other, half of A in decibels midway, and at the centre a
      power set by the slope; all inverted to cut. */
  lemma {:induction false} ShelfShape(kind: Kind, gain: real, p: Parameters, sqrt: real -> real, z: Complex)
    requires p.Valid() && IsSqrt(sqrt) && OnCircle(z) && (kind == LOWSHELF || kind == HIGHSHELF)
    ensures var f, up := Design(kind, true, gain, p, sqrt), gain > 0.0;
            && RaisedGain(f, if kind == LOWSHELF then LOWEST else HIGHEST, up, p.A)
            && Gain(f, if kind == LOWSHELF then HIGHEST else LOWEST, 1.0, 1.0)
            && (Midway(kind, p.K, sqrt(p.A), z) ==> RaisedPower(f, z, up, p.A, 1.0))
            && (Centre(p.K, z) ==> RaisedPower(f, z, up, CentrePower(p.A, p.Slope), 2.0 * p.Slope))
  {
    var mA, m, k2 := ShelfTermsOf(kind, gain, p, sqrt);
    ShelfOf(kind, Design(kind, true, gain, p, sqrt), gain > 0.0, p, mA, m, k2, sqrt(p.A), z);
  }

  function Raised(kind: Kind, A: real, mA: real, k2: real): Analogue {
    if kind == LOWSHELF then Analogue(1.0, mA, A * k2) else Analogue(A, mA, k2)
  }

  lemma {:induction false} ShelfTermsOf(kind: Kind, gain: real, p: Parameters, sqrt: real -> real)
    returns (mA: real, m: real, k2: real)
    requires p.Valid() && IsSqrt(sqrt) && (kind == LOWSHELF || kind == HIGHSHELF)
    ensures ShapedUp(Design(kind, true, gain, p, sqrt), gain > 0.0, Raised(kind, p.A, mA, k2), Analogue(1.0, m, k2))
    ensures k2 == p.K * p.K && Slopes(p.A, p.Slope, mA, m, k2)
  {
    var t := TermsOf(p, sqrt);
    mA, m, k2 := t.mA, t.m, t.k2;
    ShelfShaped(kind, gain, p, sqrt, mA, m, k2);
    ShelfSquaresOf(p, sqrt, mA, m, k2);
  }

  lemma {:induction false} ShelfShaped(kind: Kind, gain: real, p: Parameters, sqrt: real -> real,
      mA: real, m: real, k2: real)
    requires p.Valid() && IsSqrt(sqrt) && (kind == LOWSHELF || kind == HIGHSHELF)
    requires var t := TermsOf(p, sqrt); mA == t.mA && m == t.m && k2 == t.k2
    ensures ShapedUp(Design(kind, true, gain, p, sqrt), gain > 0.0, Raised(kind, p.A, mA, k2), Analogue(1.0, m, k2))
  {
    var u, v := Raised(kind, p.A, mA, k2), Analogue(1.0, m, k2);
    Factored(p.A, p.K, k2, TermsOf(p, sqrt).ak2);
    DesignShaped(kind, gain, p, sqrt, if gain > 0.0 then u else v, if gain > 0.0 then v else u);
  }

  lemma {:induction false} ShelfSquaresOf(p: Parameters, sqrt: real -> real, mA: real, m: real, k2: real)
    requires p.Valid() && IsSqrt(sqrt) && var t := TermsOf(p, sqrt); mA == t.mA && m == t.m && k2 == t.k2
    ensures k2 == p.K * p.K && Slopes(p.A, p.Slope, mA, m, k2)
  {
    SlopeTerms(p.A, p.Slope);
    ShelfSquares(p.A, p.K, p.Slope, k2, Single(p.Slope), Equaliser.Raised(p.A, p.Slope), m, mA, sqrt);
  }

  lemma {:induction false} ShelfSquares(A: real, K: real, S: real, k2: real, x: real, y: real, m: real, mA: real,
      sqrt: real -> real)
    requires IsSqrt(sqrt) && k2 == K * K && x == 2.0 * S && x > 0.0 && y > 0.0 && y == A * x
    requires m == sqrt(x) * K && mA == sqrt(y) * K
    ensures Slopes(A, S, mA, m, k2)
  {
    SquareOfProduct(sqrt(x), K, m);
    SquareOfProduct(sqrt(y), K, mA);
    Regroup(A, x, k2, y);
  }

  lemma {:induction false} ShelfOf(kind: Kind, f: Biquad, up: bool, p: Parameters, mA: real, m: real, k2: real,
      r: real, z: Complex)
    requires p.Valid() && OnCircle(z) && (kind == LOWSHELF || kind == HIGHSHELF)
    requires ShapedUp(f, up, Raised(kind, p.A, mA, k2), Analogue(1.0, m, k2))
    requires k2 == p.K * p.K && Slopes(p.A, p.Slope, mA, m, k2) && r * r == p.A
    ensures RaisedGain(f, if kind == LOWSHELF then LOWEST else HIGHEST, up, p.A)
    ensures Gain(f, if kind == LOWSHELF then HIGHEST else LOWEST, 1.0, 1.0)
    ensures Midway(kind, p.K, r, z) ==> RaisedPower(f, z, up, p.A, 1.0)
    ensures Centre(p.K, z) ==> RaisedPower(f, z, up, CentrePower(p.A, p.Slope), 2.0 * p.Slope)
  {
    ShelfEnds(kind, f, up, p.A, mA, m, k2);
    ShelfMidway(kind, f, up, p, mA, m, k2, r, z);
    ShelfCentre(kind, f, up, p, mA, m, k2, z);
  }

  lemma {:induction false} ShelfEnds(kind: Kind, f: Biquad, up: bool, A: real, mA: real, m: real, k2: real)
    requires A > 0.0 && (kind == LOWSHELF || kind == HIGHSHELF)
    requires ShapedUp(f, up, Raised(kind, A, mA, k2), Analogue(1.0, m, k2))
    ensures RaisedGain(f, if kind == LOWSHELF then LOWEST else HIGHEST, up, A)
    ensures Gain(f, if kind == LOWSHELF then HIGHEST else LOWEST, 1.0, 1.0)
  {
    var u, v := Raised(kind, A, mA, k2), Analogue(1.0, m, k2);
    if kind == LOWSHELF {
      if up { EndGains(f, u, v, A, 1.0, 1.0, 1.0); } else { EndGains(f, v, u, 1.0, A, 1.0, 1.0); }
    } else {
      if up { EndGains(f, u, v, 1.0, 1.0, A, 1.0); } else { EndGains(f, v, u, 1.0, 1.0, 1.0, A); }
    }
  }

  lemma {:induction false} ShelfMidway(kind: Kind, f: Biquad, up: bool, p: Parameters, mA: real, m: real, k2: real,
      r: real, z: Complex)
    requires p.Valid() && OnCircle(z) && (kind == LOWSHELF || kind == HIGHSHELF)
    requires ShapedUp(f, up, Raised(kind, p.A, mA, k2), Analogue(1.0, m, k2))
    requires k2 == p.K * p.K && Slopes(p.A, p.Slope, mA, m, k2) && r * r == p.A
    ensures Midway(kind, p.K, r, z) ==> RaisedPower(f, z, up, p.A, 1.0)
  {
    if Midway(kind, p.K, r, z) {
      MidwayRatio(kind, p.A, p.Slope, mA, m, p.K, k2, r, z);
      RaisedPowerBy(f, up, Raised(kind, p.A, mA, k2), Analogue(1.0, m, k2), z, p.A, 1.0);
    }
  }

  lemma {:induction false} MidwayRatio(kind: Kind, A: real, S: real, mA: real, m: real, K: real, k2: real, r: real,
      z: Complex)
    requires A > 0.0 && k2 == K * K && Slopes(A, S, mA, m, k2) && r * r == A
    requires (kind == LOWSHELF || kind == HIGHSHELF) && Midway(kind, K, r, z)
    ensures var u, v := Raised(kind, A, mA, k2), Analogue(1.0, m, k2);
            NormsInRatio(u, v, z, A, 1.0) && NormsInRatio(v, u, z, 1.0, A)
  {
    var u, v := Raised(kind, A, mA, k2), Analogue(1.0, m, k2);
    var e, i, ei, ii := v.Real(z), m * z.y, u.Real(z), mA * z.y;
    MidwayReal(kind, A, mA, m, K, k2, r, z, e, ei);
    SquareOfProduct(r, e, -ei);
    ScaledSine(A, m, mA, z.y, i, ii);
    PartsScaled(u, v, z, A, e * e, i * i);
  }

  lemma {:induction false} MidwayReal(kind: Kind, A: real, mA: real, m: real, K: real, k2: real, r: real, z: Complex,
      e: real, ei: real)
    requires k2 == K * K && r * r == A && (kind == LOWSHELF || kind == HIGHSHELF) && Midway(kind, K, r, z)
    requires e == Analogue(1.0, m, k2).Real(z) && ei == Raised(kind, A, mA, k2).Real(z)
    ensures -ei == r * e
  {
    var h, w := k2 * (1.0 + z.x), 1.0 - z.x;
    Regroup(A, k2, 1.0 + z.x, A * k2);
    if kind == LOWSHELF {
      assert r * h == w;
      Regroup(r, r, h, A);
    } else {
      assert h == r * w;
      Regroup(r, r, w, A);
    }
  }

  lemma {:induction false} ShelfCentre(kind: Kind, f: Biquad, up: bool, p: Parameters, mA: real, m: real, k2: real,
      z: Complex)
    requires p.Valid() && OnCircle(z) && (kind == LOWSHELF || kind == HIGHSHELF)
    requires ShapedUp(f, up, Raised(kind, p.A, mA, k2), Analogue(1.0, m, k2))
    requires k2 == p.K * p.K && Slopes(p.A, p.Slope, mA, m, k2)
    ensures Centre(p.K, z) ==> RaisedPower(f, z, up, CentrePower(p.A, p.Slope), 2.0 * p.Slope)
  {
    if Centre(p.K, z) {
      CentrePositive(p.A, p.Slope);
      CentreRatio(kind, p.A, p.Slope, mA, m, k2, z);
      RaisedPowerBy(f, up, Raised(kind, p.A, mA, k2), Analogue(1.0, m, k2), z,
                    CentrePower(p.A, p.Slope), 2.0 * p.Slope);
    }
  }

  lemma {:induction false} CentrePositive(A: real, S: real)
    requires A > 0.0 && S > 0.0
    ensures CentrePower(A, S) > 0.0
  {
    SquareSign(A - 1.0, (A - 1.0) * (A - 1.0));
    Positive(2.0 * A, S, 2.0 * A * S);
  }

  lemma {:induction false} CentreRatio(kind: Kind, A: real, S: real, mA: real, m: real, k2: real, z: Complex)
    requires OnCircle(z) && (kind == LOWSHELF || kind == HIGHSHELF) && AtCentre(k2, z)
    requires Slopes(A, S, mA, m, k2)
    ensures var u, v := Raised(kind, A, mA, k2), Analogue(1.0, m, k2);
            && NormsInRatio(u, v, z, CentrePower(A, S), 2.0 * S)
            && NormsInRatio(v, u, z, 2.0 * S, CentrePower(A, S))
  {
    var u, v := Raised(kind, A, mA, k2), Analogue(1.0, m, k2);
    var pu, qu, qv := CentreParts(kind, A, S, mA, m, k2, z);
    PartsInRatio(u, v, z, CentrePower(A, S), 2.0 * S, pu, qu, 0.0, qv);
    PartsInRatio(v, u, z, 2.0 * S, CentrePower(A, S), 0.0, qv, pu, qu);
  }

  lemma {:induction false} CentreParts(kind: Kind, A: real, S: real, mA: real, m: real, k2: real, z: Complex)
    returns (pu: real, qu: real, qv: real)
    requires OnCircle(z) && (kind == LOWSHELF || kind == HIGHSHELF) && AtCentre(k2, z)
    requires Slopes(A, S, mA, m, k2)
    ensures var u, v := Raised(kind, A, mA, k2), Analogue(1.0, m, k2);
            && pu == u.Real(z) * u.Real(z) && qu == u.Imaginary(z) * u.Imaginary(z)
            && v.Real(z) == 0.0 && qv == v.Imaginary(z) * v.Imaginary(z)
    ensures 2.0 * S * (pu + qu) == CentrePower(A, S) * qv
  {
    var w, B := 1.0 - z.x, (A - 1.0) * (A - 1.0);
    var ei, i, ii := Raised(kind, A, mA, k2).Real(z), m * z.y, mA * z.y;
    pu, qu, qv := ei * ei, ii * ii, i * i;
    CentreSine(m, k2, S, z, w, i);
    CentreReal(kind, A, B, mA, k2, z, w, ei);
    ScaledSine(A, m, mA, z.y, i, ii);
    CentreSum(A, S, B, w * w, pu, qv, qu);
  }

  lemma {:induction false} ScaledSine(A: real, m: real, mA: real, s: real, i: real, ii: real)
    requires mA * mA == A * (m * m) && i == m * s && ii == mA * s
    ensures ii * ii == A * (i * i)
  {
    SquareOfProduct(m, s, i);
    SquareOfProduct(mA, s, ii);
    Regroup(A, m * m, s * s, mA * mA);
  }

  lemma {:induction false} CentreReal(kind: Kind, A: real, B: real, mA: real, k2: real, z: Complex, w: real, ei: real)
    requires (kind == LOWSHELF || kind == HIGHSHELF) && k2 * (1.0 + z.x) == w && w == 1.0 - z.x
    requires B == (A - 1.0) * (A - 1.0) && ei == Raised(kind, A, mA, k2).Real(z)
    ensures ei * ei == B * (w * w)
  {
    Regroup(A, k2, 1.0 + z.x, A * k2);
    SquareOfProduct(A - 1.0, w, (A - 1.0) * w);
  }

  lemma {:induction false} CentreSum(A: real, S: real, B: real, ww: real, pu: real, qv: real, qu: real)
    requires B == (A - 1.0) * (A - 1.0) && pu == B * ww && qv == 2.0 * S * ww && qu == A * qv
    ensures 2.0 * S * (pu + qu) == CentrePower(A, S) * qv
  {
  }

  /** Switched off, or of type OFF, a filter changes nothing. */
  lemma {:induction false} OffShape(kind: Kind, on: bool, gain: real, p: Parameters, sqrt: real -> real)
    requires p.Valid() && IsSqrt(sqrt) && (!on || kind == OFF)
    ensures Identity(Design(kind, on, gain, p, sqrt))
  {
    assert (if on then kind else OFF) == OFF;
  }
}
