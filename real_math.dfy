/**
 * Real-number helpers standing in for JavaScript's Math object and for the
 * arithmetic facts the vector lemmas rest on.
 *
 * `Math.sqrt` is a foreign call, so every member that needs a square root
 * takes it as a parameter `sqrt` and the lemmas assume only `IsSqrt(sqrt)`:
 * on a non-negative argument it returns the non-negative root.
 *
 * Products and quotients that lemmas talk about are written with `Mul`, `Sq`
 * and `Div`, so that every statement about a product names the same term.
 */
module RealMath {

  function Mul(p: real, q: real): real { p * q }

  function Sq(t: real): real { t * t }

  function Div(p: real, q: real): real
    requires q != 0.0
  {
    p / q
  }

  /** `sqrt` behaves like Math.sqrt on the non-negative reals (rounding aside). */
  ghost predicate IsSqrt(sqrt: real -> real) {
    forall r :: 0.0 <= r ==> 0.0 <= sqrt(r) && Sq(sqrt(r)) == r
  }

  /** Math.min on two numbers (NaN aside). */
  function Min(a: real, b: real): (m: real)
    ensures m <= a && m <= b
    ensures m == a || m == b
  {
    if a <= b then a else b
  }

  function Abs(a: real): (r: real)
    ensures 0.0 <= r && (r == a || r == -a)
  {
    if a < 0.0 then -a else a
  }

  // ---------------------------------------------------------------------------
  // Products

  lemma MulCommutes(p: real, q: real)
    ensures Mul(p, q) == Mul(q, p)
  {
  }

  lemma MulAssociates(p: real, q: real, r: real)
    ensures Mul(Mul(p, q), r) == Mul(p, Mul(q, r))
  {
  }

  lemma MulDistributes(p: real, q: real, r: real)
    ensures Mul(p, q + r) == Mul(p, q) + Mul(p, r)
  {
  }

  lemma MulByZero(p: real)
    ensures Mul(p, 0.0) == 0.0
  {
  }

  lemma MulByOne(p: real)
    ensures Mul(p, 1.0) == p
  {
  }

  lemma MulNonNegative(p: real, q: real)
    requires 0.0 <= p && 0.0 <= q
    ensures 0.0 <= Mul(p, q)
  {
  }

  lemma MulPositive(p: real, q: real)
    requires 0.0 < p && 0.0 < q
    ensures 0.0 < Mul(p, q)
  {
  }

  lemma MulMonotone(p: real, q: real, r: real)
    requires 0.0 <= p && q <= r
    ensures Mul(p, q) <= Mul(p, r)
  {
    MulDistributes(p, q, r - q);
    MulNonNegative(p, r - q);
  }

  lemma MulStrictMonotone(p: real, q: real, r: real)
    requires 0.0 < p && q < r
    ensures Mul(p, q) < Mul(p, r)
  {
    MulDistributes(p, q, r - q);
    MulPositive(p, r - q);
  }

  // ---------------------------------------------------------------------------
  // Squares

  lemma SqIsMul(t: real)
    ensures Sq(t) == Mul(t, t)
  {
  }

  lemma SqOfNegation(t: real)
    ensures Sq(-t) == Sq(t)
  {
  }

  lemma SqOfDifference(p: real, q: real)
    ensures Sq(p - q) == Sq(q - p)
  {
  }

  lemma SqNonNegative(t: real)
    ensures 0.0 <= Sq(t)
  {
    SqIsMul(t);
    SqIsMul(-t);
    SqOfNegation(t);
    if t < 0.0 {
      MulNonNegative(-t, -t);
    } else {
      MulNonNegative(t, t);
    }
  }

  /** A square is zero only at zero. */
  lemma SqPositive(t: real)
    requires t != 0.0
    ensures 0.0 < Sq(t)
  {
    SqIsMul(t);
    SqIsMul(-t);
    SqOfNegation(t);
    if t < 0.0 {
      MulPositive(-t, -t);
    } else {
      MulPositive(t, t);
    }
  }

  lemma SqOfProduct(p: real, q: real)
    ensures Sq(Mul(p, q)) == Mul(Sq(p), Sq(q))
  {
  }

  lemma SqMonotone(s: real, t: real)
    requires 0.0 <= s < t
    ensures Sq(s) < Sq(t)
  {
    SqIsMul(s);
    SqIsMul(t);
    MulMonotone(s, s, t);
    MulStrictMonotone(t, s, t);
    MulCommutes(s, t);
  }

  /** Two non-negative numbers with the same square are equal. */
  lemma SqInjective(s: real, t: real)
    requires 0.0 <= s && 0.0 <= t && Sq(s) == Sq(t)
    ensures s == t
  {
    if s < t {
      SqMonotone(s, t);
    } else if t < s {
      SqMonotone(t, s);
    }
  }

  // ---------------------------------------------------------------------------
  // Quotients

  lemma DivIsMulInverse(p: real, q: real)
    requires q != 0.0
    ensures Div(p, q) == Mul(p, Div(1.0, q))
  {
  }

  lemma DivThenMul(p: real, q: real)
    requires q != 0.0
    ensures Mul(Div(p, q), q) == p
  {
  }

  lemma DivPositive(p: real, q: real)
    requires 0.0 < q && 0.0 <= p
    ensures 0.0 <= Div(p, q) && (0.0 < p ==> 0.0 < Div(p, q))
  {
  }

  lemma MulDivSwap(p: real, q: real, r: real)
    requires q != 0.0
    ensures Mul(Div(p, q), r) == Mul(p, Div(r, q))
  {
  }

  // ---------------------------------------------------------------------------
  // Square roots

  /** The non-negative root is the only one: any `s >= 0` with `s * s == r` is `sqrt(r)`. */
  lemma SqrtUnique(sqrt: real -> real, r: real, s: real)
    requires IsSqrt(sqrt)
    requires 0.0 <= s && Sq(s) == r
    ensures sqrt(r) == s
  {
    SqNonNegative(s);
    SqInjective(sqrt(r), s);
  }

  /** A square root is zero exactly when its argument is. */
  lemma SqrtZero(sqrt: real -> real, r: real)
    requires IsSqrt(sqrt) && 0.0 <= r
    ensures sqrt(r) == 0.0 <==> r == 0.0
  {
    if r == 0.0 {
      SqrtUnique(sqrt, r, 0.0);
    }
  }
}
