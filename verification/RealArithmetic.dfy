/** Order facts about products and quotients of reals. Each takes the product as a variable of its
    own, so that a caller reasons about it linearly. */
module RealArithmetic {
  lemma {:induction false} Positive(x: real, y: real, xy: real)
    requires x > 0.0 && y > 0.0 && xy == x * y
    ensures xy > 0.0
  {
  }

  lemma {:induction false} NonNegative(x: real, y: real, xy: real)
    requires x >= 0.0 && y >= 0.0 && xy == x * y
    ensures xy >= 0.0
  {
  }

  lemma {:induction false} SquareSign(x: real, xx: real)
    requires xx == x * x
    ensures xx >= 0.0
    ensures x != 0.0 ==> xx > 0.0
  {
    if x > 0.0 { Positive(x, x, xx); } else if x < 0.0 { Positive(-x, -x, xx); }
  }

  lemma {:induction false} Scale(a: real, x: real, ax: real)
    requires a > 0.0 && ax == a * x
    ensures ax > 0.0 <==> x > 0.0
  {
    if x > 0.0 { Positive(a, x, ax); } else { NonNegative(a, -x, -ax); }
  }

  lemma {:induction false} RootNonzero(r: real, x: real)
    requires r >= 0.0 && r * r == x && x > 0.0
    ensures r > 0.0
  {
    ZeroSquare(r);
  }

  lemma {:induction false} ZeroSquare(r: real)
    ensures r == 0.0 ==> r * r == 0.0
  {
  }

  lemma {:induction false} SquareUnique(x: real, y: real)
    requires x >= 0.0 && y >= 0.0 && x * x == y * y
    ensures x == y
  {
    if x > y { Positive(x - y, x + y, x * x - y * y); }
    if y > x { Positive(y - x, y + x, y * y - x * x); }
  }

  /** A square is below 1 exactly between -1 and 1. */
  lemma {:induction false} Square(p: real, pp: real)
    requires pp == p * p
    ensures pp < 1.0 <==> -1.0 < p < 1.0
  {
    if p >= 1.0 {
      NonNegative(p - 1.0, p - 1.0, pp - 2.0 * p + 1.0);
    } else if p <= -1.0 {
      NonNegative(-1.0 - p, -1.0 - p, pp + 2.0 * p + 1.0);
    } else {
      Positive(1.0 - p, 1.0 + p, 1.0 - pp);
    }
  }

  /** Two numbers lie strictly between -1 and 1 exactly when (1-p)(1-q) and (1+p)(1+q) are
      positive and the product pq lies between -1 and 1 too. */
  lemma {:induction false} UnitSquare(p: real, q: real, pq: real)
    requires pq == p * q
    ensures -1.0 < p < 1.0 && -1.0 < q < 1.0
       <==> 1.0 - p - q + pq > 0.0 && 1.0 + p + q + pq > 0.0 && -1.0 < pq < 1.0
  {
    if -1.0 < p < 1.0 && -1.0 < q < 1.0 {
      Positive(1.0 - p, 1.0 - q, 1.0 - p - q + pq);
      Positive(1.0 + p, 1.0 + q, 1.0 + p + q + pq);
      Positive(1.0 - p, 1.0 + q, 1.0 - p + q - pq);
      Positive(1.0 + p, 1.0 - q, 1.0 + p - q - pq);
    } else if p >= 1.0 {
      Outside(p, q, pq);
    } else if q >= 1.0 {
      Outside(q, p, pq);
    } else if p <= -1.0 {
      Outside(-p, -q, pq);
    } else {
      Outside(-q, -p, pq);
    }
  }

  lemma {:induction false} Outside(p: real, q: real, pq: real)
    requires p >= 1.0 && pq == p * q
    ensures 1.0 - p - q + pq <= 0.0 || pq >= 1.0
  {
    if q >= 1.0 {
      NonNegative(p - 1.0, q - 1.0, pq - p - q + 1.0);
    } else {
      NonNegative(p - 1.0, 1.0 - q, p - pq - 1.0 + q);
    }
  }

  lemma {:induction false} Quotient(x: real, d: real)
    requires d != 0.0
    ensures (x / d) * d == x
  {
  }

  lemma {:induction false} QuotientBelow(x: real, y: real, d: real, yd: real)
    requires d > 0.0 && yd == y * d
    ensures x / d < y <==> x < yd
    ensures y < x / d <==> yd < x
  {
    Quotient(x, d);
    var q := x / d;
    if q < y { Positive(y - q, d, yd - x); } else { NonNegative(q - y, d, x - yd); }
    if y < q { Positive(q - y, d, x - yd); } else { NonNegative(y - q, d, yd - x); }
  }
}
