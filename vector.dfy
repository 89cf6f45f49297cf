/**
 * Vector_2D: a mutable pair of components. Every method updates the receiver
 * in place (or, for getUnitVector, returns a new vector) and is specified by
 * the value functions of `Vec2Math`.
 */
module Vectors {
  import opened RealMath
  import opened Vec2Math

  class Vector {
    var x: real
    var y: real

    /** The components as a value. */
    function Value(): Vec2
      reads this
    {
      Vec2(x, y)
    }

    /** `new Vector_2D(x, y)`; `new Vector_2D()` is `new Vector(0.0, 0.0)`. */
    constructor(x0: real, y0: real)
      ensures Value() == Vec2(x0, y0)
    {
      x := x0;
      y := y0;
    }

    /** The non-negative root of x*x + y*y, zero only for the zero vector. */
    function GetMagnitude(sqrt: real -> real): (m: real)
      requires IsSqrt(sqrt)
      reads this
      ensures 0.0 <= m && Sq(m) == Sq(x) + Sq(y)
      ensures m == 0.0 <==> x == 0.0 && y == 0.0
    {
      MagnitudeFacts(sqrt, Value());
      MagnitudeSquaredIsSumOfSquares(Value());
      Magnitude(sqrt, Value())
    }

    /** A new vector: this one divided by its magnitude. The receiver is left as it was. */
    method GetUnitVector(sqrt: real -> real) returns (unit: Vector)
      requires IsSqrt(sqrt) && Magnitude(sqrt, Value()) != 0.0
      ensures fresh(unit)
      ensures unit.Value() == UnitOf(sqrt, Value())
    {
      unit := new Vector(0.0, 0.0);
      unit.SetVector(this);
      var magnitude := GetMagnitude(sqrt);
      unit.Divide(magnitude);
    }

    /** The unit vector times the new magnitude. */
    method SetMagnitude(sqrt: real -> real, magnitude: real)
      requires IsSqrt(sqrt) && Magnitude(sqrt, Value()) != 0.0
      modifies this
      ensures Value() == WithMagnitude(sqrt, old(Value()), magnitude)
    {
      var unitVector := GetUnitVector(sqrt);
      unitVector.Multiply(magnitude);
      SetVector(unitVector);
    }

    /** The zero vector stays zero; any other becomes its unit vector times min(magnitude, max). */
    method LimitVector(sqrt: real -> real, max: real)
      requires IsSqrt(sqrt)
      modifies this
      ensures Value() == Limited(sqrt, old(Value()), max)
    {
      var newVector := new Vector(0.0, 0.0);
      var magnitude := GetMagnitude(sqrt);
      if magnitude != 0.0 {
        var min := Min(magnitude, max);
        newVector := GetUnitVector(sqrt);
        newVector.Multiply(min);
      } else {
        newVector.SetComponents(0.0, 0.0);
      }
      SetVector(newVector);
    }

    /** Adds the other vector's components; the other vector is not changed (unless it is this one). */
    method Add(other: Vector)
      modifies this
      ensures Value() == Plus(old(Value()), old(other.Value()))
      ensures other != this ==> other.Value() == old(other.Value())
    {
      x := x + other.x;
      y := y + other.y;
    }

    /** Subtracts the other vector's components; the other vector is not changed (unless it is this one). */
    method Sub(other: Vector)
      modifies this
      ensures Value() == Minus(old(Value()), old(other.Value()))
      ensures other != this ==> other.Value() == old(other.Value())
    {
      x := x - other.x;
      y := y - other.y;
    }

    /** Divides both components by num (a zero num gives NaN in the source). */
    method Divide(num: real)
      requires num != 0.0
      modifies this
      ensures Value() == Divided(old(Value()), num)
    {
      x := x / num;
      y := y / num;
    }

    method Multiply(num: real)
      modifies this
      ensures Value() == Scaled(old(Value()), num)
    {
      x := x * num;
      y := y * num;
    }

    method SetComponents(x0: real, y0: real)
      modifies this
      ensures Value() == Vec2(x0, y0)
    {
      x := x0;
      y := y0;
    }

    /** Copies the other vector's components; the other vector is not changed. */
    method SetVector(other: Vector)
      modifies this
      ensures Value() == old(other.Value())
      ensures other.Value() == old(other.Value())
    {
      x := other.x;
      y := other.y;
    }
  }
}
