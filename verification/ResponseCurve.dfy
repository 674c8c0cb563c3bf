/** The running product of CalculateEQCurve (qt_widgets/DNREQPanel.cpp): distances to the zeros,
    over distances to the poles, times the gain factors. It is the magnitude of the bands' joint
    transfer function. */
module ResponseCurve {
  import opened RealArithmetic
  import opened Biquads

  function Product(xs: seq<real>): real {
    if |xs| == 0 then 1.0 else Product(xs[..|xs| - 1]) * xs[|xs| - 1]
  }

  /** |B(z)|^2 of each band. */
  function Numerators(bands: seq<Biquad>, z: Complex): (norms: seq<real>)
    ensures |norms| == |bands|
  {
    seq(|bands|, i requires 0 <= i < |bands| => Numerator(bands[i], z).Norm2())
  }

  /** |A(z)|^2 of each band. */
  function Denominators(bands: seq<Biquad>, z: Complex): (norms: seq<real>)
    ensures |norms| == |bands|
  {
    seq(|bands|, i requires 0 <= i < |bands| => Denominator(bands[i], z).Norm2())
  }

  function Distance2(z: Complex, c: Complex): real {
    z.Minus(c).Norm2()
  }

  predicate Magnitude(norm: real, a: real, d: real, e: real) {
    norm == (a * a) * (d * e)
  }

  /** A quadratic's squared magnitude is the leading coefficient's times those of the distances to
      the two positions. */
  lemma {:induction false} NormOfQuadratic(a: real, b: real, c: real, z: Complex, sqrt: real -> real,
      norm: real, d: real, e: real)
    requires a > 0.0 && IsSqrt(sqrt) && norm == Quadratic(a, b, c, z).Norm2()
    requires d == Distance2(z, Positions(a, b, c, sqrt).0) && e == Distance2(z, Positions(a, b, c, sqrt).1)
    ensures Magnitude(norm, a, d, e)
  {
    var (p, q) := Positions(a, b, c, sqrt);
    PositionsAreRootPair(a, b, c, sqrt);
    Factors(a, b, c, z, p, q);
    NormOfProduct(a, z.Minus(p), z.Minus(q), d, e);
  }

  lemma {:induction false} NormOfProduct(k: real, u: Complex, v: Complex, d: real, e: real)
    requires d == u.Norm2() && e == v.Norm2()
    ensures u.Times(v).Scaled(k).Norm2() == (k * k) * (d * e)
  {
    NormTimes(u, v);
    NormScaled(k, u.Times(v), d * e);
  }

  lemma {:induction false} NormScaled(k: real, u: Complex, n: real)
    requires n == u.Norm2()
    ensures u.Scaled(k).Norm2() == (k * k) * n
  {
    assert (k * u.x) * (k * u.x) + (k * u.y) * (k * u.y) == (k * k) * (u.x * u.x + u.y * u.y);
  }

  /** A point of the unit circle keeps away from a point inside it. */
  lemma {:induction false} AwayFromPole(z: Complex, p: Complex)
    requires z.Norm2() == 1.0 && p.Norm2() < 1.0
    ensures Distance2(z, p) > 0.0
  {
    assert z != p;
    Apart(z, p, Distance2(z, p));
  }

  lemma {:induction false} Apart(z: Complex, p: Complex, d: real)
    requires z != p && d == Distance2(z, p)
    ensures d > 0.0
  {
    NotSame(z, p);
    NormZero(z.Minus(p), d);
  }

  lemma {:induction false} NotSame(z: Complex, p: Complex)
    requires z != p
    ensures z.Minus(p) != ZERO
  {
    assert z.x == p.x + z.Minus(p).x && z.y == p.y + z.Minus(p).y;
  }

  /** The running product: its square is N / D. */
  predicate Tracks(length: real, N: real, D: real) {
    length >= 0.0 && D > 0.0 && (length * length) * D == N
  }

  lemma {:induction false} TimesDistance(length: real, N: real, D: real, r: real, d: real, next: real, Nd: real)
    requires Tracks(length, N, D) && r >= 0.0 && r * r == d && next == length * r && Nd == N * d
    ensures Tracks(next, Nd, D)
  {
    NonNegative(length, r, next);
    assert ((length * r) * (length * r)) * D == ((length * length) * D) * (r * r);
  }

  lemma {:induction false} OverDistance(length: real, N: real, D: real, r: real, d: real, next: real, Dd: real)
    requires Tracks(length, N, D) && r > 0.0 && r * r == d && next == length / r && Dd == D * d
    ensures Tracks(next, N, Dd)
  {
    Quotient(length, r);
    QuotientBelow(length, 0.0, r, 0.0);
    Positive(r, r, d);
    Positive(D, d, Dd);
    Undone(next, r, length, D);
  }

  lemma {:induction false} Undone(next: real, r: real, length: real, D: real)
    requires next * r == length
    ensures (next * next) * (D * (r * r)) == (length * length) * D
  {
    assert (next * next) * (D * (r * r)) == ((next * r) * (next * r)) * D;
  }

  lemma {:induction false} TimesGain(length: real, N: real, D: real, b: real, a: real, next: real, Nb: real, Da: real)
    requires Tracks(length, N, D) && b > 0.0 && a > 0.0 && next == length * (b / a)
    requires Nb == N * (b * b) && Da == D * (a * a)
    ensures Tracks(next, Nb, Da)
  {
    var g := b / a;
    Quotient(b, a);
    QuotientBelow(b, 0.0, a, 0.0);
    NonNegative(length, g, next);
    var aa := a * a;
    Positive(a, a, aa);
    Positive(D, aa, Da);
    Gained(length, D, g, a, b);
  }

  lemma {:induction false} Gained(length: real, D: real, g: real, a: real, b: real)
    requires g * a == b
    ensures ((length * g) * (length * g)) * (D * (a * a)) == ((length * length) * D) * (b * b)
  {
    assert ((length * g) * (length * g)) * (D * (a * a)) == ((length * length) * D) * ((g * a) * (g * a));
  }

  /** The gain factor completes one band: num and den are its |B(z)|^2 and |A(z)|^2. */
  lemma {:induction false} Completed(length: real, N: real, D: real, ss: real, tt: real, uu: real, vv: real,
      b: real, a: real, num: real, den: real, next: real)
    requires Tracks(length, N * ss * tt, D * uu * vv) && b > 0.0 && a > 0.0 && next == length * (b / a)
    requires Magnitude(num, b, ss, tt) && Magnitude(den, a, uu, vv)
    ensures Tracks(next, N * num, D * den)
  {
    Collect(N, ss, tt, b, num);
    Collect(D, uu, vv, a, den);
    TimesGain(length, N * ss * tt, D * uu * vv, b, a, next, N * num, D * den);
  }

  lemma {:induction false} Collect(N: real, d: real, e: real, a: real, norm: real)
    requires Magnitude(norm, a, d, e)
    ensures N * norm == N * d * e * (a * a)
  {
  }

  /** The distance under each root is not negative, and not zero at a pole. */
  lemma {:induction false} DistanceSign(z: Complex, c: Complex, d: real)
    requires d == Distance2(z, c)
    ensures d >= 0.0
    ensures z.Norm2() == 1.0 && c.Norm2() < 1.0 ==> d > 0.0
  {
    NormZero(z.Minus(c), d);
    if z.Norm2() == 1.0 && c.Norm2() < 1.0 { AwayFromPole(z, c); }
  }

  /** What the panel keeps of a band: its zeros, its poles and its gain factor. */
  datatype Band = Band(z0: Complex, z1: Complex, p0: Complex, p1: Complex, factor: real)

  function Placed(f: Biquad, sqrt: real -> real): Band
    requires IsSqrt(sqrt) && Usable(f)
  {
    var (z0, z1) := Positions(f.b0, f.b1, f.b2, sqrt);
    var (p0, p1) := Positions(f.a0, f.a1, f.a2, sqrt);
    Band(z0, z1, p0, p1, f.b0 / f.a0)
  }

  /** The band's distances from z make up the magnitudes num of B(z) and den of A(z). */
  predicate Measures(band: Band, z: Complex, b: real, a: real, num: real, den: real) {
    && b > 0.0 && a > 0.0 && band.factor == b / a
    && Magnitude(num, b, Distance2(z, band.z0), Distance2(z, band.z1))
    && Magnitude(den, a, Distance2(z, band.p0), Distance2(z, band.p1))
    && band.p0.Norm2() < 1.0 && band.p1.Norm2() < 1.0
  }

  lemma {:induction false} PlacedMeasures(f: Biquad, sqrt: real -> real, z: Complex)
    requires IsSqrt(sqrt) && Usable(f)
    ensures Measures(Placed(f, sqrt), z, f.b0, f.a0, Numerator(f, z).Norm2(), Denominator(f, z).Norm2())
  {
    var p := Placed(f, sqrt);
    InsideExactlyStable(f.a0, f.a1, f.a2, sqrt);
    NormOfQuadratic(f.b0, f.b1, f.b2, z, sqrt, Numerator(f, z).Norm2(), Distance2(z, p.z0), Distance2(z, p.z1));
    NormOfQuadratic(f.a0, f.a1, f.a2, z, sqrt, Denominator(f, z).Norm2(), Distance2(z, p.p0), Distance2(z, p.p1));
  }

  /** One band of the loop body. */
  method TimesBand(sqrt: real -> real, length: real, band: Band, z: Complex, ghost b: real, ghost a: real,
      ghost num: real, ghost den: real, ghost N: real, ghost D: real)
    returns (next: real)
    requires IsSqrt(sqrt) && z.Norm2() == 1.0 && Measures(band, z, b, a, num, den) && Tracks(length, N, D)
    ensures Tracks(next, N * num, D * den)
  {
    var ss, tt := Distance2(z, band.z0), Distance2(z, band.z1);
    var uu, vv := Distance2(z, band.p0), Distance2(z, band.p1);
    DistanceSign(z, band.z0, ss);
    DistanceSign(z, band.z1, tt);
    DistanceSign(z, band.p0, uu);
    DistanceSign(z, band.p1, vv);
    next := Multiply(sqrt, length, ss, tt, uu, vv, band.factor, b, a, num, den, N, D);
  }

  method Multiply(sqrt: real -> real, length: real, ss: real, tt: real, uu: real, vv: real, factor: real,
      ghost b: real, ghost a: real, ghost num: real, ghost den: real, ghost N: real, ghost D: real)
    returns (next: real)
    requires IsSqrt(sqrt) && ss >= 0.0 && tt >= 0.0 && uu > 0.0 && vv > 0.0 && b > 0.0 && a > 0.0 && factor == b / a
    requires Tracks(length, N, D) && Magnitude(num, b, ss, tt) && Magnitude(den, a, uu, vv)
    ensures Tracks(next, N * num, D * den)
  {
    RootNonzero(sqrt(uu), uu);
    RootNonzero(sqrt(vv), vv);
    var first := length * sqrt(ss);
    TimesDistance(length, N, D, sqrt(ss), ss, first, N * ss);
    var second := first * sqrt(tt);
    TimesDistance(first, N * ss, D, sqrt(tt), tt, second, N * ss * tt);
    var third := second / sqrt(uu);
    var fourth := third / sqrt(vv);
    OverTwo(second, N * ss * tt, D, sqrt(uu), sqrt(vv), uu, vv, third, fourth);
    next := fourth * factor;
    Completed(fourth, N, D, ss, tt, uu, vv, b, a, num, den, next);
  }

  lemma {:induction false} OverTwo(length: real, N: real, D: real, u: real, v: real, uu: real, vv: real,
      third: real, fourth: real)
    requires Tracks(length, N, D) && u > 0.0 && v > 0.0 && u * u == uu && v * v == vv
    requires third == length / u && fourth == third / v
    ensures Tracks(fourth, N, D * uu * vv)
  {
    OverDistance(length, N, D, u, uu, third, D * uu);
    OverDistance(third, N, D * uu, v, vv, fourth, D * uu * vv);
  }

  /** The length at the unit-circle point z: over all bands its square is |B(z)|^2 / |A(z)|^2. */
  method CalculateLength(sqrt: real -> real, bands: seq<Biquad>, z: Complex) returns (length: real)
    requires IsSqrt(sqrt) && z.Norm2() == 1.0
    requires forall i :: 0 <= i < |bands| ==> Usable(bands[i])
    ensures Tracks(length, Product(Numerators(bands, z)), Product(Denominators(bands, z)))
  {
    ghost var ns, ds := Numerators(bands, z), Denominators(bands, z);
    length := 1.0;
    for i := 0 to |bands|
      invariant Tracks(length, Product(ns[..i]), Product(ds[..i]))
    {
      ghost var f := bands[i];
      PlacedMeasures(bands[i], sqrt, z);
      length := TimesBand(sqrt, length, Placed(bands[i], sqrt), z, f.b0, f.a0, ns[i], ds[i],
                          Product(ns[..i]), Product(ds[..i]));
      OneMore(ns, i);
      OneMore(ds, i);
    }
    assert ns[..|bands|] == ns && ds[..|bands|] == ds;
  }

  lemma {:induction false} OneMore(xs: seq<real>, i: nat)
    requires i < |xs|
    ensures Product(xs[..i + 1]) == Product(xs[..i]) * xs[i]
  {
    assert xs[..i + 1][..i] == xs[..i];
  }

  /** The length is zero, which the curve draws at the bottom, exactly where some band has a zero. */
  lemma {:induction false} SilentExactlyAtZeros(length: real, bands: seq<Biquad>, z: Complex)
    requires Tracks(length, Product(Numerators(bands, z)), Product(Denominators(bands, z)))
    ensures length == 0.0 <==> exists i :: 0 <= i < |bands| && Numerator(bands[i], z) == ZERO
  {
    var ns := Numerators(bands, z);
    ZeroLength(length, Product(ns), Product(Denominators(bands, z)));
    forall i | 0 <= i < |bands| ensures ns[i] >= 0.0 && (ns[i] == 0.0 <==> Numerator(bands[i], z) == ZERO) {
      NormZero(Numerator(bands[i], z), ns[i]);
    }
    ZeroProductExactly(ns);
  }

  lemma {:induction false} ZeroLength(length: real, N: real, D: real)
    requires Tracks(length, N, D)
    ensures length == 0.0 <==> N == 0.0
  {
    if length > 0.0 {
      var ll := length * length;
      Positive(length, length, ll);
      Positive(ll, D, N);
    }
  }

  lemma {:induction false} ZeroProductExactly(xs: seq<real>)
    requires forall i :: 0 <= i < |xs| ==> xs[i] >= 0.0
    ensures Product(xs) >= 0.0
    ensures Product(xs) == 0.0 <==> exists i :: 0 <= i < |xs| && xs[i] == 0.0
  {
    if |xs| > 0 {
      var n := |xs| - 1;
      var front, all := Product(xs[..n]), Product(xs);
      ZeroProductExactly(xs[..n]);
      NonNegative(front, xs[n], all);
      ZeroFactor(front, xs[n], all);
      if front == 0.0 {
        var i :| 0 <= i < n && xs[..n][i] == 0.0;
        assert xs[i] == 0.0;
      } else if i :| 0 <= i < |xs| && xs[i] == 0.0 {
        assert i < n ==> xs[..n][i] == 0.0;
      }
    }
  }

  /** Two bands whose transfer functions multiply to 1 draw the 0 dB line. */
  lemma {:induction false} InversePairIsFlat(length: real, f: Biquad, g: Biquad, z: Complex)
    requires Tracks(length, Product(Numerators([f, g], z)), Product(Denominators([f, g], z)))
    requires Numerator(f, z).Times(Numerator(g, z)) == Denominator(f, z).Times(Denominator(g, z))
    ensures length == 1.0
  {
    TwoFactors(Numerators([f, g], z));
    TwoFactors(Denominators([f, g], z));
    NormTimes(Numerator(f, z), Numerator(g, z));
    NormTimes(Denominator(f, z), Denominator(g, z));
    UnitLength(length, Product(Numerators([f, g], z)), Product(Denominators([f, g], z)));
  }

  lemma {:induction false} TwoFactors(xs: seq<real>)
    requires |xs| == 2
    ensures Product(xs) == xs[0] * xs[1]
  {
    OneMore(xs, 0);
    OneMore(xs, 1);
    assert xs[..2] == xs;
  }

  lemma {:induction false} UnitLength(length: real, N: real, D: real)
    requires Tracks(length, N, D) && N == D
    ensures length == 1.0
  {
    var ll := length * length;
    Scale(D, ll - 1.0, N - D);
    Scale(D, 1.0 - ll, D - N);
    SquareUnique(length, 1.0);
  }
}
