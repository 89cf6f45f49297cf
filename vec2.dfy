/**
 * The value behind a Vector_2D: a pair of components, and the arithmetic that
 * the class in vector.js performs in place. The class `Vectors.Vector` is
 * specified by these functions; the lemmas here are what those operations
 * promise.
 */
module Vec2Math {
  import opened RealMath

  datatype Vec2 = Vec2(x: real, y: real)

  /** `new Vector_2D()`: both components default to 0. */
  const Zero := Vec2(0.0, 0.0)

  function Plus(a: Vec2, b: Vec2): Vec2 { Vec2(a.x + b.x, a.y + b.y) }

  function Minus(a: Vec2, b: Vec2): Vec2 { Vec2(a.x - b.x, a.y - b.y) }

  function Scaled(a: Vec2, c: real): Vec2 { Vec2(a.x * c, a.y * c) }

  /** Division by zero yields NaN components in the source; here it is excluded. */
  function Divided(a: Vec2, c: real): Vec2
    requires c != 0.0
  {
    Vec2(a.x / c, a.y / c)
  }

  function MagnitudeSquared(a: Vec2): real { a.x * a.x + a.y * a.y }

  /** getMagnitude: the square root of x*x + y*y. */
  function Magnitude(sqrt: real -> real, a: Vec2): real { sqrt(MagnitudeSquared(a)) }

  /** getUnitVector: a copy of the vector divided by its magnitude. */
  function UnitOf(sqrt: real -> real, a: Vec2): Vec2
    requires Magnitude(sqrt, a) != 0.0
  {
    Divided(a, Magnitude(sqrt, a))
  }

  /** setMagnitude: the unit vector multiplied by the new magnitude. */
  function WithMagnitude(sqrt: real -> real, a: Vec2, m: real): Vec2
    requires Magnitude(sqrt, a) != 0.0
  {
    Scaled(UnitOf(sqrt, a), m)
  }

  /** limitVector: the zero vector stays zero; otherwise the unit vector times min(|a|, max). */
  function Limited(sqrt: real -> real, a: Vec2, max: real): Vec2 {
    var m := Magnitude(sqrt, a);
    if m != 0.0 then Scaled(UnitOf(sqrt, a), Min(m, max)) else Zero
  }

  // ---------------------------------------------------------------------------
  // add / sub / multiply

  /** add then sub of the same vector gives back the original components, and so does sub then add. */
  lemma AddThenSubRestores(a: Vec2, b: Vec2)
    ensures Minus(Plus(a, b), b) == a && Plus(Minus(a, b), b) == a
  {
  }

  /** multiply(0) yields the zero vector, whatever the components were. */
  lemma MultiplyByZero(a: Vec2)
    ensures Scaled(a, 0.0) == Zero
  {
    MulByZero(a.x);
    MulByZero(a.y);
  }

  /** Scaling twice is scaling once by the product. */
  lemma ScaledTwice(a: Vec2, c: real, d: real)
    ensures Scaled(Scaled(a, c), d) == Scaled(a, Mul(c, d))
  {
    MulAssociates(a.x, c, d);
    MulAssociates(a.y, c, d);
  }

  /** Dividing by c is scaling by 1/c. */
  lemma DividedIsScaled(a: Vec2, c: real)
    requires c != 0.0
    ensures Divided(a, c) == Scaled(a, Div(1.0, c))
  {
    DivIsMulInverse(a.x, c);
    DivIsMulInverse(a.y, c);
  }

  // ---------------------------------------------------------------------------
  // Magnitude

  lemma MagnitudeSquaredIsSumOfSquares(a: Vec2)
    ensures MagnitudeSquared(a) == Sq(a.x) + Sq(a.y)
  {
  }

  /** x*x + y*y is non-negative and zero only for the zero vector. */
  lemma MagnitudeSquaredFacts(a: Vec2)
    ensures 0.0 <= MagnitudeSquared(a)
    ensures MagnitudeSquared(a) == 0.0 <==> a == Zero
  {
    MagnitudeSquaredIsSumOfSquares(a);
    SqNonNegative(a.x);
    SqNonNegative(a.y);
    if a.x != 0.0 {
      SqPositive(a.x);
    } else if a.y != 0.0 {
      SqPositive(a.y);
    }
  }

  /** The magnitude is non-negative, squares to x*x + y*y and is zero only for the zero vector. */
  lemma MagnitudeFacts(sqrt: real -> real, a: Vec2)
    requires IsSqrt(sqrt)
    ensures 0.0 <= Magnitude(sqrt, a)
    ensures Sq(Magnitude(sqrt, a)) == MagnitudeSquared(a)
    ensures Magnitude(sqrt, a) == 0.0 <==> a == Zero
  {
    MagnitudeSquaredFacts(a);
    SqrtZero(sqrt, MagnitudeSquared(a));
  }

  /** Scaling by c scales x*x + y*y by c*c. */
  lemma MagnitudeSquaredOfScaled(a: Vec2, c: real)
    ensures MagnitudeSquared(Scaled(a, c)) == Mul(Sq(c), MagnitudeSquared(a))
  {
    MagnitudeSquaredIsSumOfSquares(a);
    MagnitudeSquaredIsSumOfSquares(Scaled(a, c));
    SqOfProduct(a.x, c);
    SqOfProduct(a.y, c);
    MulCommutes(Sq(a.x), Sq(c));
    MulCommutes(Sq(a.y), Sq(c));
    MulDistributes(Sq(c), Sq(a.x), Sq(a.y));
  }

  /** Scaling by c scales the magnitude by |c|. */
  lemma MagnitudeOfScaled(sqrt: real -> real, a: Vec2, c: real)
    requires IsSqrt(sqrt)
    ensures Magnitude(sqrt, Scaled(a, c)) == Mul(Abs(c), Magnitude(sqrt, a))
  {
    var m := Magnitude(sqrt, a);
    MagnitudeFacts(sqrt, a);
    MulNonNegative(Abs(c), m);
    SqOfProduct(Abs(c), m);
    assert Sq(Abs(c)) == Sq(c) by {
      SqOfNegation(c);
    }
    MagnitudeSquaredOfScaled(a, c);
    SqrtUnique(sqrt, MagnitudeSquared(Scaled(a, c)), Mul(Abs(c), m));
  }

  // ---------------------------------------------------------------------------
  // getUnitVector / setMagnitude

  /** A nonzero vector's unit vector is a positive multiple of it and has magnitude 1. */
  lemma UnitVectorFacts(sqrt: real -> real, a: Vec2)
    requires IsSqrt(sqrt) && a != Zero
    ensures Magnitude(sqrt, a) != 0.0
    ensures 0.0 < Div(1.0, Magnitude(sqrt, a)) && UnitOf(sqrt, a) == Scaled(a, Div(1.0, Magnitude(sqrt, a)))
    ensures Magnitude(sqrt, UnitOf(sqrt, a)) == 1.0
  {
    var m := Magnitude(sqrt, a);
    MagnitudeFacts(sqrt, a);
    DivPositive(1.0, m);
    DividedIsScaled(a, m);
    MagnitudeOfScaled(sqrt, a, Div(1.0, m));
    DivThenMul(1.0, m);
  }

  /** setMagnitude(m), m >= 0, on a nonzero vector: a non-negative multiple of it whose magnitude is m. */
  lemma WithMagnitudeFacts(sqrt: real -> real, a: Vec2, m: real)
    requires IsSqrt(sqrt) && a != Zero && 0.0 <= m
    ensures Magnitude(sqrt, a) != 0.0
    ensures 0.0 <= Div(m, Magnitude(sqrt, a)) && WithMagnitude(sqrt, a, m) == Scaled(a, Div(m, Magnitude(sqrt, a)))
    ensures Magnitude(sqrt, WithMagnitude(sqrt, a, m)) == m
  {
    var n := Magnitude(sqrt, a);
    UnitVectorFacts(sqrt, a);
    DivPositive(m, n);
    ScaledTwice(a, Div(1.0, n), m);
    MulDivSwap(1.0, n, m);
    MulCommutes(1.0, Div(m, n));
    MulByOne(Div(m, n));
    MagnitudeOfScaled(sqrt, UnitOf(sqrt, a), m);
    MulCommutes(m, 1.0);
    MulByOne(m);
  }

  // ---------------------------------------------------------------------------
  // limitVector

  /** limitVector on the zero vector leaves the zero vector. */
  lemma LimitOfZero(sqrt: real -> real, max: real)
    requires IsSqrt(sqrt)
    ensures Limited(sqrt, Zero, max) == Zero
  {
    MagnitudeFacts(sqrt, Zero);
  }

  /**
   * For max >= 0 the limited vector is a non-negative multiple of the original
   * (a positive one when max > 0 and the vector is nonzero) whose magnitude is
   * min(|a|, max).
   */
  lemma LimitIsShortenedCopy(sqrt: real -> real, a: Vec2, max: real)
    requires IsSqrt(sqrt) && 0.0 <= max
    ensures Magnitude(sqrt, Limited(sqrt, a, max)) == Min(Magnitude(sqrt, a), max)
    ensures a != Zero ==>
      && Magnitude(sqrt, a) != 0.0
      && var c := Div(Min(Magnitude(sqrt, a), max), Magnitude(sqrt, a));
         0.0 <= c && (0.0 < max ==> 0.0 < c) && Limited(sqrt, a, max) == Scaled(a, c)
  {
    MagnitudeFacts(sqrt, a);
    if a == Zero {
      LimitOfZero(sqrt, max);
      MagnitudeFacts(sqrt, Zero);
    } else {
      var m := Magnitude(sqrt, a);
      WithMagnitudeFacts(sqrt, a, Min(m, max));
      DivPositive(Min(m, max), m);
    }
  }

  /** limitVector is the identity on a vector no longer than max. */
  lemma LimitIdentityWhenShort(sqrt: real -> real, a: Vec2, max: real)
    requires IsSqrt(sqrt) && Magnitude(sqrt, a) <= max
    ensures Limited(sqrt, a, max) == a
  {
    var m := Magnitude(sqrt, a);
    MagnitudeFacts(sqrt, a);
    if m != 0.0 {
      assert Min(m, max) == m;
      DivThenMul(a.x, m);
      DivThenMul(a.y, m);
    }
  }

  /** For max >= 0 the limited vector is no longer than max. */
  lemma LimitBounded(sqrt: real -> real, a: Vec2, max: real)
    requires IsSqrt(sqrt) && 0.0 <= max
    ensures Magnitude(sqrt, Limited(sqrt, a, max)) <= max
  {
    LimitIsShortenedCopy(sqrt, a, max);
  }

  /** For max >= 0, limiting twice is limiting once. */
  lemma LimitIdempotent(sqrt: real -> real, a: Vec2, max: real)
    requires IsSqrt(sqrt) && 0.0 <= max
    ensures Limited(sqrt, Limited(sqrt, a, max), max) == Limited(sqrt, a, max)
  {
    LimitBounded(sqrt, a, max);
    LimitIdentityWhenShort(sqrt, Limited(sqrt, a, max), max);
  }
}
