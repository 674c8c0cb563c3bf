/** The equaliser's mathematics over the reals: filter design, zeros and poles, response curve
    (qt_widgets/DNREQPanel.cpp, CalculateEQ, CalculateZeroPosition, CalculatePolePosition,
    CalculateEQCurve). */
module Equaliser {
  import opened RealArithmetic
  import opened Biquads

  datatype Kind = OFF | LPF | HPF | BPF | NOTCH | PEAKINGEQ | LOWSHELF | HIGHSHELF

  /** What the transcendental functions give: K = tan(Omega/2), Cs = cos(Omega),
      A = 10^(|Gain|/20), and Q, Alpha and Slope as the code computes or is given them. */
  datatype Parameters = Parameters(K: real, Q: real, Cs: real, Alpha: real, Slope: real, A: real) {
    predicate Valid() {
      K > 0.0 && Q > 0.0 && -1.0 < Cs < 1.0 && Alpha > 0.0 && Slope > 0.0 && A > 0.0
    }
  }

  /** The formulas of CalculateEQ, in the quantities each branch puts into them; k2 is K^2. */
  datatype Form =
    | Flat
    | LowPass(m: real, k2: real)
    | HighPass(m: real, k2: real)
    | Cookbook(cs: real, zeros: real, poles: real)
    | BandPass(cs: real, poles: real)
    | Boost(n: real, M: real, l: real, m: real, k2: real)
    | Cut(n: real, M: real, l: real, m: real, k2: real)
    | HighShelfCut(n: real, M: real, m: real, k2: real, mI: real, l: real)
  {
    predicate Valid() {
      match this
      case Flat => true
      case LowPass(m, k2) => m > 0.0 && k2 > 0.0
      case HighPass(m, k2) => m > 0.0 && k2 > 0.0
      case Cookbook(cs, zeros, poles) => -1.0 < cs < 1.0 && zeros > 0.0 && poles > 0.0
      case BandPass(cs, poles) => -1.0 < cs < 1.0 && poles > 0.0
      case Boost(n, M, l, m, k2) => n > 0.0 && M > 0.0 && l > 0.0 && m > 0.0 && k2 > 0.0
      case Cut(n, M, l, m, k2) => n > 0.0 && M > 0.0 && l > 0.0 && m > 0.0 && k2 > 0.0
      case HighShelfCut(n, M, m, k2, mI, l) =>
        n > 0.0 && M > 0.0 && m > 0.0 && k2 > 0.0 && mI > 0.0 && l > 0.0 && M == n * mI && k2 == n * l
    }

    function Coefficients(): Biquad
      requires Valid()
    {
      match this
      case Flat => Biquad(1.0, 0.0, 0.0, 1.0, 0.0, 0.0)
      case LowPass(m, k2) =>
        var d := 1.0 + m + k2;
        Biquad(k2 / d, (2.0 * k2) / d, k2 / d, 1.0, (2.0 * (k2 - 1.0)) / d, (1.0 - m + k2) / d)
      case HighPass(m, k2) =>
        var d := 1.0 + m + k2;
        Biquad(1.0 / d, -2.0 / d, 1.0 / d, 1.0, (2.0 * (k2 - 1.0)) / d, (1.0 - m + k2) / d)
      case Cookbook(cs, zeros, poles) =>
        Biquad(1.0 + zeros, -2.0 * cs, 1.0 - zeros, 1.0 + poles, -2.0 * cs, 1.0 - poles)
      case BandPass(cs, poles) =>
        Biquad(poles, 0.0, -poles, 1.0 + poles, -2.0 * cs, 1.0 - poles)
      case Boost(n, M, l, m, k2) =>
        var d := 1.0 + m + k2;
        Biquad((n + M + l) / d, (2.0 * (l - n)) / d, (n - M + l) / d,
               1.0, (2.0 * (k2 - 1.0)) / d, (1.0 - m + k2) / d)
      case Cut(n, M, l, m, k2) =>
        var d := n + M + l;
        Biquad((1.0 + m + k2) / d, (2.0 * (k2 - 1.0)) / d, (1.0 - m + k2) / d,
               1.0, (2.0 * (l - n)) / d, (n - M + l) / d)
      case HighShelfCut(n, M, m, k2, mI, l) =>
        var d, e := n + M + k2, 1.0 + mI + l;
        Biquad((1.0 + m + k2) / d, (2.0 * (k2 - 1.0)) / d, (1.0 - m + k2) / d,
               1.0, (2.0 * (l - 1.0)) / e, (1.0 - mI + l) / e)
    }
  }

  /** The products, quotients and roots the branches are built from. */
  datatype Terms = Terms(k2: real, rk: real, kq: real, akq: real, ak2: real, m: real, mA: real, mI: real, l: real,
                         notch: real) {
    predicate Valid(A: real) {
      && k2 > 0.0 && rk > 0.0 && kq > 0.0 && akq > 0.0 && ak2 > 0.0 && m > 0.0 && mA > 0.0 && mI > 0.0 && l > 0.0
      && notch > 0.0 && mA == A * mI && k2 == A * l
    }
  }

  // Under the roots of the shelves, with the slope S.

  function Single(S: real): real {
    2.0 * S
  }

  function Raised(A: real, S: real): real {
    2.0 * A * S
  }

  function Lowered(A: real, S: real): real
    requires A > 0.0
  {
    (2.0 * S) / A
  }

  function TermsOf(p: Parameters, sqrt: real -> real): Terms
    requires p.Valid()
  {
    var K, Q, A, S := p.K, p.Q, p.A, p.Slope;
    Terms(K * K, sqrt(2.0) * K, K / Q, A * K / Q, A * K * K, sqrt(Single(S)) * K, sqrt(Raised(A, S)) * K,
          sqrt(Lowered(A, S)) * K, K * K / A, (1.0 / A) * p.Alpha)
  }

  /** The branch CalculateEQ takes. */
  function Branch(kind: Kind, on: bool, gain: real, p: Parameters, t: Terms): Form {
    match if on then kind else OFF
    case OFF => Flat
    case LPF => LowPass(t.rk, t.k2)
    case HPF => HighPass(t.rk, t.k2)
    case BPF => BandPass(p.Cs, p.Alpha)
    case NOTCH =>
      if gain < 0.0 then Cookbook(p.Cs, t.notch, p.Alpha) else Boost(1.0, t.akq, t.k2, t.kq, t.k2)
    case PEAKINGEQ =>
      if gain > 0.0 then Boost(1.0, t.akq, t.k2, t.kq, t.k2) else Cut(1.0, t.akq, t.k2, t.kq, t.k2)
    case LOWSHELF =>
      if gain > 0.0 then Boost(1.0, t.mA, t.ak2, t.m, t.k2) else Cut(1.0, t.mA, t.ak2, t.m, t.k2)
    case HIGHSHELF =>
      if gain > 0.0 then Boost(p.A, t.mA, t.k2, t.m, t.k2) else HighShelfCut(p.A, t.mA, t.m, t.k2, t.mI, t.l)
  }

  /** CalculateEQ, the formulas in use. */
  function Design(kind: Kind, on: bool, gain: real, p: Parameters, sqrt: real -> real): Biquad
    requires p.Valid() && IsSqrt(sqrt)
  {
    TermsValid(p, sqrt);
    var t := TermsOf(p, sqrt);
    BranchValid(kind, on, gain, p, t);
    Branch(kind, on, gain, p, t).Coefficients()
  }

  // ----- the terms are positive -----

  lemma {:induction false} RootPositive(sqrt: real -> real, x: real, K: real, rK: real)
    requires IsSqrt(sqrt) && x > 0.0 && K > 0.0 && rK == sqrt(x) * K
    ensures rK > 0.0
  {
    RootNonzero(sqrt(x), x);
    Positive(sqrt(x), K, rK);
  }

  /** A sqrt(x / A) is sqrt(A x). */
  lemma {:induction false} RootThroughA(A: real, x: real, q: real, Ax: real, sqrt: real -> real)
    requires IsSqrt(sqrt) && A > 0.0 && x > 0.0 && q == x / A && Ax == A * x
    ensures A * sqrt(q) == sqrt(Ax)
  {
    QuotientPositive(x, A, q);
    Quotient(x, A);
    Positive(A, x, Ax);
    SameRoot(A, q, Ax, sqrt(q), sqrt(Ax));
  }

  lemma {:induction false} SameRoot(A: real, q: real, Ax: real, r: real, rA: real)
    requires A > 0.0 && Ax == A * (A * q) && r >= 0.0 && r * r == q && rA >= 0.0 && rA * rA == Ax
    ensures A * r == rA
  {
    var Ar := A * r;
    NonNegative(A, r, Ar);
    assert Ar * Ar == A * (A * (r * r));
    SquareUnique(Ar, rA);
  }

  lemma {:induction false} ThroughA(A: real, m: real, l: real, Am: real, Al: real)
    requires A > 0.0 && 1.0 + m + l > 0.0 && Am == A * m && Al == A * l
    ensures A + Am + Al > 0.0
    ensures (2.0 * (l - 1.0)) / (1.0 + m + l) == (2.0 * (Al - A)) / (A + Am + Al)
    ensures (1.0 - m + l) / (1.0 + m + l) == (A - Am + Al) / (A + Am + Al)
  {
    var d := 1.0 + m + l;
    var Ad := A + Am + Al;
    Positive(A, d, Ad);
    SameQuotient(2.0 * (l - 1.0), d, A, 2.0 * (Al - A), Ad);
    SameQuotient(1.0 - m + l, d, A, A - Am + Al, Ad);
  }

  lemma {:induction false} SameQuotient(x: real, d: real, k: real, kx: real, kd: real)
    requires d > 0.0 && kd > 0.0 && kx == k * x && kd == k * d
    ensures x / d == kx / kd
  {
    Quotient(x, d);
    var q := x / d;
    assert kx == q * kd;
  }

  lemma {:induction false} QuotientPositive(x: real, d: real, q: real)
    requires x > 0.0 && d > 0.0 && q == x / d
    ensures q > 0.0
  {
    QuotientBelow(x, 0.0, d, 0.0);
  }

  lemma {:induction false} PeakTerms(K: real, Q: real, A: real, kq: real, akq: real)
    requires K > 0.0 && Q > 0.0 && A > 0.0 && kq == K / Q && akq == A * K / Q
    ensures kq > 0.0 && akq > 0.0
  {
    var AK := A * K;
    QuotientPositive(K, Q, kq);
    Positive(A, K, AK);
    QuotientPositive(AK, Q, akq);
  }

  lemma {:induction false} SlopeTerms(A: real, S: real)
    requires A > 0.0 && S > 0.0
    ensures Single(S) > 0.0 && Raised(A, S) > 0.0 && Lowered(A, S) > 0.0
    ensures Lowered(A, S) == Single(S) / A && Raised(A, S) == A * Single(S)
  {
    Positive(2.0 * A, S, 2.0 * A * S);
    QuotientPositive(2.0 * S, A, (2.0 * S) / A);
  }

  lemma {:induction false} ShelfTerms(K: real, A: real, ak2: real)
    requires K > 0.0 && A > 0.0 && ak2 == A * K * K
    ensures ak2 > 0.0
  {
    var AK := A * K;
    Positive(A, K, AK);
    Positive(AK, K, ak2);
  }

  lemma {:induction false} HighShelfTerms(sqrt: real -> real, K: real, A: real, x: real, q: real, Ax: real,
      k2: real, l: real)
    requires IsSqrt(sqrt) && K > 0.0 && A > 0.0 && x > 0.0 && q == x / A && Ax == A * x && k2 > 0.0 && l == k2 / A
    ensures sqrt(q) * K > 0.0 && l > 0.0 && sqrt(Ax) * K == A * (sqrt(q) * K) && k2 == A * l
  {
    QuotientPositive(x, A, q);
    RootPositive(sqrt, q, K, sqrt(q) * K);
    QuotientPositive(k2, A, l);
    Quotient(k2, A);
    RootThroughA(A, x, q, Ax, sqrt);
    Regroup(A, sqrt(q), K, sqrt(Ax));
  }

  lemma {:induction false} Regroup(x: real, y: real, z: real, xy: real)
    requires xy == x * y
    ensures xy * z == x * (y * z)
  {
  }

  lemma {:induction false} PassValid(p: Parameters, sqrt: real -> real)
    requires p.Valid() && IsSqrt(sqrt)
    ensures var t := TermsOf(p, sqrt); t.k2 > 0.0 && t.rk > 0.0 && t.notch > 0.0
  {
    var t, i := TermsOf(p, sqrt), 1.0 / p.A;
    Positive(p.K, p.K, t.k2);
    RootPositive(sqrt, 2.0, p.K, t.rk);
    QuotientPositive(1.0, p.A, i);
    Positive(i, p.Alpha, t.notch);
  }

  lemma {:induction false} PeakValid(p: Parameters, sqrt: real -> real)
    requires p.Valid() && IsSqrt(sqrt)
    ensures var t := TermsOf(p, sqrt); t.kq > 0.0 && t.akq > 0.0
  {
    var t := TermsOf(p, sqrt);
    PeakTerms(p.K, p.Q, p.A, t.kq, t.akq);
  }

  lemma {:induction false} ShelfValid(p: Parameters, sqrt: real -> real)
    requires p.Valid() && IsSqrt(sqrt)
    ensures var t := TermsOf(p, sqrt); t.ak2 > 0.0 && t.m > 0.0 && t.mA > 0.0
  {
    var t := TermsOf(p, sqrt);
    SlopeTerms(p.A, p.Slope);
    ShelfTerms(p.K, p.A, t.ak2);
    RootPositive(sqrt, Single(p.Slope), p.K, t.m);
    RootPositive(sqrt, Raised(p.A, p.Slope), p.K, t.mA);
  }

  lemma {:induction false} HighShelfValid(p: Parameters, sqrt: real -> real)
    requires p.Valid() && IsSqrt(sqrt)
    ensures var t := TermsOf(p, sqrt); t.mI > 0.0 && t.l > 0.0 && t.mA == p.A * t.mI && t.k2 == p.A * t.l
  {
    var t, A, S := TermsOf(p, sqrt), p.A, p.Slope;
    Positive(p.K, p.K, t.k2);
    SlopeTerms(A, S);
    HighShelfTerms(sqrt, p.K, A, Single(S), Lowered(A, S), Raised(A, S), t.k2, t.l);
  }

  lemma {:induction false} TermsValid(p: Parameters, sqrt: real -> real)
    requires p.Valid() && IsSqrt(sqrt)
    ensures TermsOf(p, sqrt).Valid(p.A)
  {
    PassValid(p, sqrt);
    PeakValid(p, sqrt);
    ShelfValid(p, sqrt);
    HighShelfValid(p, sqrt);
  }

  lemma {:induction false} BranchValid(kind: Kind, on: bool, gain: real, p: Parameters, t: Terms)
    requires p.Valid() && t.Valid(p.A)
    ensures Branch(kind, on, gain, p, t).Valid()
  {
  }

  // ----- every design can be used -----

  lemma {:induction false} StableDenominator(n: real, m: real, l: real)
    requires n > 0.0 && m > 0.0 && l > 0.0
    ensures Stable(1.0, (2.0 * (l - n)) / (n + m + l), (n - m + l) / (n + m + l))
  {
    var d := n + m + l;
    var a1, a2 := (2.0 * (l - n)) / d, (n - m + l) / d;
    QuotientBelow(n - m + l, 1.0, d, d);
    QuotientBelow(n - m + l, -1.0, d, -d);
    Quotient(n - m + l, d);
    QuotientBelow(2.0 * (l - n), 1.0 + a2, d, 2.0 * n + 2.0 * l);
    QuotientBelow(2.0 * (l - n), -(1.0 + a2), d, -2.0 * n - 2.0 * l);
  }

  /** The high shelf's cut divides its denominator through by A; undone, it is a Cut like the
      others. */
  lemma {:induction false} HighShelfIsCut(f: Form)
    requires f.Valid() && f.HighShelfCut?
    ensures f.Coefficients() == Cut(f.n, f.M, f.k2, f.m, f.k2).Coefficients()
  {
    ThroughA(f.n, f.mI, f.l, f.M, f.k2);
  }

  lemma {:induction false} FormUsable(f: Form)
    requires f.Valid()
    ensures Usable(f.Coefficients())
  {
    match f
    case Flat =>
    case LowPass(m, k2) =>
      StableDenominator(1.0, m, k2);
      QuotientBelow(k2, 0.0, 1.0 + m + k2, 0.0);
    case HighPass(m, k2) =>
      StableDenominator(1.0, m, k2);
      QuotientBelow(1.0, 0.0, 1.0 + m + k2, 0.0);
    case Cookbook(cs, zeros, poles) =>
    case BandPass(cs, poles) =>
    case Boost(n, M, l, m, k2) =>
      StableDenominator(1.0, m, k2);
      QuotientBelow(n + M + l, 0.0, 1.0 + m + k2, 0.0);
    case Cut(n, M, l, m, k2) =>
      StableDenominator(n, M, l);
      QuotientBelow(1.0 + m + k2, 0.0, n + M + l, 0.0);
    case HighShelfCut(n, M, m, k2, mI, l) =>
      StableDenominator(1.0, mI, l);
      QuotientBelow(1.0 + m + k2, 0.0, n + M + k2, 0.0);
  }

  /** Every design has its poles strictly inside the unit circle, where CalculatePolePosition
      puts them, and leading coefficients that can be divided by. */
  lemma {:induction false} PolesInside(kind: Kind, on: bool, gain: real, p: Parameters, sqrt: real -> real)
    requires p.Valid() && IsSqrt(sqrt)
    ensures var f := Design(kind, on, gain, p, sqrt);
            && Usable(f)
            && var (p0, p1) := Positions(f.a0, f.a1, f.a2, sqrt);
            && p0.Norm2() < 1.0 && p1.Norm2() < 1.0
            && Denominator(f, p0) == ZERO && Denominator(f, p1) == ZERO
  {
    TermsValid(p, sqrt);
    var t := TermsOf(p, sqrt);
    BranchValid(kind, on, gain, p, t);
    FormUsable(Branch(kind, on, gain, p, t));
    PolesOf(Design(kind, on, gain, p, sqrt), sqrt);
  }

  lemma {:induction false} PolesOf(f: Biquad, sqrt: real -> real)
    requires Usable(f) && IsSqrt(sqrt)
    ensures var (p0, p1) := Positions(f.a0, f.a1, f.a2, sqrt);
            && p0.Norm2() < 1.0 && p1.Norm2() < 1.0
            && Denominator(f, p0) == ZERO && Denominator(f, p1) == ZERO
  {
    var (p0, p1) := Positions(f.a0, f.a1, f.a2, sqrt);
    InsideExactlyStable(f.a0, f.a1, f.a2, sqrt);
    PositionsExactlyRoots(f.a0, f.a1, f.a2, p0, sqrt);
    PositionsExactlyRoots(f.a0, f.a1, f.a2, p1, sqrt);
  }

  // ----- cut undoes boost -----

  lemma {:induction false} QuadraticQuotient(a: real, b: real, c: real, d: real, z: Complex)
    requires d > 0.0
    ensures Quadratic(a / d, b / d, c / d, z) == Quadratic(a, b, c, z).Scaled(1.0 / d)
  {
    var i := 1.0 / d;
    Inverse(a, d, i);
    Inverse(b, d, i);
    Inverse(c, d, i);
    QuadraticScaled(a, b, c, i, z);
  }

  lemma {:induction false} Inverse(x: real, d: real, i: real)
    requires d > 0.0 && i == 1.0 / d
    ensures x / d == i * x
  {
    Quotient(1.0, d);
    Quotient(x, d);
    Regroup(x / d, d, i, x);
  }

  lemma {:induction false} QuadraticScaled(a: real, b: real, c: real, i: real, z: Complex)
    ensures Quadratic(i * a, i * b, i * c, z) == Quadratic(a, b, c, z).Scaled(i)
  {
  }

  lemma {:induction false} Exchange(u: Complex, v: Complex, s: real, t: real)
    ensures u.Scaled(s).Times(v.Scaled(t)) == v.Scaled(s).Times(u.Scaled(t))
  {
  }

  /** The transfer functions of a boost and of the cut with the same quantities multiply to 1 at
      every point: the product of the numerators is the product of the denominators. */
  lemma {:induction false} CutUndoesBoost(n: real, M: real, l: real, m: real, k2: real, z: Complex)
    requires Boost(n, M, l, m, k2).Valid()
    ensures var f, g := Boost(n, M, l, m, k2).Coefficients(), Cut(n, M, l, m, k2).Coefficients();
            Numerator(f, z).Times(Numerator(g, z)) == Denominator(f, z).Times(Denominator(g, z))
  {
    var d, D := 1.0 + m + k2, n + M + l;
    var u := Quadratic(n + M + l, 2.0 * (l - n), n - M + l, z);
    var v := Quadratic(1.0 + m + k2, 2.0 * (k2 - 1.0), 1.0 - m + k2, z);
    One(d);
    One(D);
    QuadraticQuotient(n + M + l, 2.0 * (l - n), n - M + l, d, z);
    QuadraticQuotient(n + M + l, 2.0 * (l - n), n - M + l, D, z);
    QuadraticQuotient(1.0 + m + k2, 2.0 * (k2 - 1.0), 1.0 - m + k2, d, z);
    QuadraticQuotient(1.0 + m + k2, 2.0 * (k2 - 1.0), 1.0 - m + k2, D, z);
    Exchange(u, v, 1.0 / d, 1.0 / D);
  }

  lemma {:induction false} One(d: real)
    requires d > 0.0
    ensures d / d == 1.0
  {
  }

  /** For the three filters with a gain, the design at the opposite gain is the exact inverse. */
  lemma {:induction false} OppositeGain(kind: Kind, gain: real, p: Parameters, sqrt: real -> real, z: Complex)
    requires p.Valid() && IsSqrt(sqrt) && gain > 0.0 && (kind == PEAKINGEQ || kind == LOWSHELF || kind == HIGHSHELF)
    ensures var f, g := Design(kind, true, gain, p, sqrt), Design(kind, true, -gain, p, sqrt);
            Numerator(f, z).Times(Numerator(g, z)) == Denominator(f, z).Times(Denominator(g, z))
  {
    var t := TermsOf(p, sqrt);
    TermsValid(p, sqrt);
    match kind
    case PEAKINGEQ => CutUndoesBoost(1.0, t.akq, t.k2, t.kq, t.k2, z);
    case LOWSHELF => CutUndoesBoost(1.0, t.mA, t.ak2, t.m, t.k2, z);
    case HIGHSHELF =>
      CutUndoesBoost(p.A, t.mA, t.k2, t.m, t.k2, z);
      HighShelfIsCut(Branch(kind, true, -gain, p, t));
  }

  /** Numerator and denominator are the same polynomial: the filter changes nothing. */
  predicate Identity(f: Biquad) {
    f.b0 == f.a0 && f.b1 == f.a1 && f.b2 == f.a2
  }

  lemma {:induction false} BoostIdentity(n: real, M: real, l: real, m: real, k2: real)
    requires Boost(n, M, l, m, k2).Valid()
    ensures Identity(Boost(n, M, l, m, k2).Coefficients()) <==> n == 1.0 && M == m && l == k2
    ensures Identity(Cut(n, M, l, m, k2).Coefficients()) <==> n == 1.0 && M == m && l == k2
  {
    SameRatio(n + M + l, 1.0 + m + k2);
    SameRatio(1.0 + m + k2, n + M + l);
    SameNumerator(2.0 * (l - n), 2.0 * (k2 - 1.0), 1.0 + m + k2);
    SameNumerator(n - M + l, 1.0 - m + k2, 1.0 + m + k2);
    SameNumerator(2.0 * (l - n), 2.0 * (k2 - 1.0), n + M + l);
    SameNumerator(n - M + l, 1.0 - m + k2, n + M + l);
  }

  lemma {:induction false} SameRatio(x: real, d: real)
    requires d > 0.0
    ensures x / d == 1.0 <==> x == d
  {
    Quotient(x, d);
  }

  lemma {:induction false} SameNumerator(x: real, y: real, d: real)
    requires d > 0.0
    ensures x / d == y / d <==> x == y
  {
    Quotient(x, d);
    Quotient(y, d);
  }

  lemma {:induction false} Cancel(A: real, x: real, Ax: real)
    requires x > 0.0 && Ax == A * x
    ensures Ax == x <==> A == 1.0
  {
    if A > 1.0 { Positive(A - 1.0, x, Ax - x); }
    if A < 1.0 { Positive(1.0 - A, x, x - Ax); }
  }

  lemma {:induction false} PeakUnity(A: real, K: real, Q: real, akq: real, kq: real)
    requires K > 0.0 && Q > 0.0 && akq == A * K / Q && kq == K / Q
    ensures akq == kq <==> A == 1.0
  {
    SameNumerator(A * K, K, Q);
    Cancel(A, K, A * K);
  }

  lemma {:induction false} ShelfUnity(A: real, K: real, k2: real, ak2: real)
    requires k2 > 0.0 && k2 == K * K && ak2 == A * K * K
    ensures ak2 == k2 <==> A == 1.0
  {
    Factored(A, K, k2, ak2);
    Cancel(A, k2, ak2);
  }

  lemma {:induction false} Factored(A: real, K: real, k2: real, ak2: real)
    requires k2 == K * K && ak2 == A * K * K
    ensures ak2 == A * k2
  {
  }

  lemma {:induction false} RaisedByOne(A: real, S: real)
    ensures A == 1.0 ==> Raised(A, S) == Single(S)
  {
  }

  /** The terms that tell 0 dB. */
  lemma {:induction false} UnityTerms(p: Parameters, sqrt: real -> real)
    requires p.Valid() && IsSqrt(sqrt)
    ensures var t := TermsOf(p, sqrt);
            (t.akq == t.kq <==> p.A == 1.0) && (t.ak2 == t.k2 <==> p.A == 1.0) && (p.A == 1.0 ==> t.mA == t.m)
  {
    var t := TermsOf(p, sqrt);
    PassValid(p, sqrt);
    PeakUnity(p.A, p.K, p.Q, t.akq, t.kq);
    ShelfUnity(p.A, p.K, t.k2, t.ak2);
    RaisedByOne(p.A, p.Slope);
  }

  /** The three filters with a gain change nothing exactly when the amplitude A is 1, that is, at
      0 dB. */
  lemma {:induction false} IdentityExactlyAtUnity(kind: Kind, gain: real, p: Parameters, sqrt: real -> real)
    requires p.Valid() && IsSqrt(sqrt) && (kind == PEAKINGEQ || kind == LOWSHELF || kind == HIGHSHELF)
    ensures Identity(Design(kind, true, gain, p, sqrt)) <==> p.A == 1.0
  {
    TermsValid(p, sqrt);
    UnityTerms(p, sqrt);
    BranchUnity(kind, gain, p, TermsOf(p, sqrt));
    IdentityExactlyBalanced(Branch(kind, true, gain, p, TermsOf(p, sqrt)));
  }

  predicate Balanced(f: Form) {
    match f
    case Boost(n, M, l, m, k2) => n == 1.0 && M == m && l == k2
    case Cut(n, M, l, m, k2) => n == 1.0 && M == m && l == k2
    case HighShelfCut(n, M, m, k2, mI, l) => n == 1.0 && M == m
    case _ => false
  }

  lemma {:induction false} IdentityExactlyBalanced(f: Form)
    requires f.Valid() && (f.Boost? || f.Cut? || f.HighShelfCut?)
    ensures Identity(f.Coefficients()) <==> Balanced(f)
  {
    if f.HighShelfCut? {
      HighShelfIsCut(f);
      BoostIdentity(f.n, f.M, f.k2, f.m, f.k2);
    } else {
      BoostIdentity(f.n, f.M, f.l, f.m, f.k2);
    }
  }

  lemma {:induction false} BranchUnity(kind: Kind, gain: real, p: Parameters, t: Terms)
    requires kind == PEAKINGEQ || kind == LOWSHELF || kind == HIGHSHELF
    requires (t.akq == t.kq <==> p.A == 1.0) && (t.ak2 == t.k2 <==> p.A == 1.0) && (p.A == 1.0 ==> t.mA == t.m)
    ensures Balanced(Branch(kind, true, gain, p, t)) <==> p.A == 1.0
  {
  }
}
