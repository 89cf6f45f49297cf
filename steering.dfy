/**
 * What one boid sees of its flock and the steering vector each of the three
 * rules (alignment, cohesion, separation) derives from it.
 *
 * A boid's worldview is the whole flock, itself included. `Seen` is one entry
 * of it as the boid reads it: whether the entry is the boid itself (the
 * identity test `worldview[i] != this`), and the entry's position and
 * velocity at the moment of reading.
 */
module Steering {
  import opened RealMath
  import opened Vec2Math

  /** vis_rad: boids closer than this (strictly) are neighbours. */
  const VisRad: real := 50.0
  /** maxVelocity: the speed every steering target is set to and the cap on velocity. */
  const MaxVelocity: real := 6.0
  /** maxAcceleration: the cap on each steering vector. */
  const MaxAcceleration: real := 1.0

  datatype Rule = Alignment | Cohesion | Separation

  /** The slot of the properties (slider) array that weights each rule. */
  function Slot(rule: Rule): (k: nat)
    ensures k < 3
  {
    match rule
    case Alignment => 0
    case Cohesion => 1
    case Separation => 2
  }

  datatype Seen = Seen(me: bool, position: Vec2, velocity: Vec2)

  /** getDistance: the length of (other - here). */
  function Distance(sqrt: real -> real, here: Vec2, there: Vec2): real {
    Magnitude(sqrt, Minus(there, here))
  }

  /** The test each rule's loop applies: not the boid itself, and strictly inside vis_rad. */
  predicate InRange(sqrt: real -> real, here: Vec2, s: Seen) {
    !s.me && Distance(sqrt, here, s.position) < VisRad
  }

  /** The indices of the worldview that a rule's loop counts. */
  ghost function Neighbours(sqrt: real -> real, here: Vec2, view: seq<Seen>): set<int> {
    set i | 0 <= i < |view| && InRange(sqrt, here, view[i])
  }

  /** The loop's `total`: how many entries passed the test. */
  function Count(sqrt: real -> real, here: Vec2, view: seq<Seen>): nat {
    if view == [] then 0
    else Count(sqrt, here, view[..|view| - 1]) + (if InRange(sqrt, here, view[|view| - 1]) then 1 else 0)
  }

  /**
   * Separation divides each difference by the distance; a neighbour at the
   * very same position would make that a division by zero (NaN in the source).
   */
  predicate ContributionDefined(sqrt: real -> real, rule: Rule, here: Vec2, s: Seen) {
    rule == Separation ==> Distance(sqrt, here, s.position) != 0.0
  }

  /** What one counted entry adds to the rule's steering vector. */
  function Contribution(sqrt: real -> real, rule: Rule, here: Vec2, s: Seen): Vec2
    requires ContributionDefined(sqrt, rule, here, s)
  {
    match rule
    case Alignment => s.velocity
    case Cohesion => s.position
    case Separation => Divided(Minus(here, s.position), Distance(sqrt, here, s.position))
  }

  predicate ContributionsDefined(sqrt: real -> real, rule: Rule, here: Vec2, view: seq<Seen>) {
    forall i :: 0 <= i < |view| && InRange(sqrt, here, view[i]) ==> ContributionDefined(sqrt, rule, here, view[i])
  }

  /** The loop's `steering` before the `total > 0` block: the sum of the counted contributions. */
  function Sum(sqrt: real -> real, rule: Rule, here: Vec2, view: seq<Seen>): Vec2
    requires ContributionsDefined(sqrt, rule, here, view)
  {
    if view == [] then Zero
    else
      var rest := Sum(sqrt, rule, here, view[..|view| - 1]);
      var last := view[|view| - 1];
      if InRange(sqrt, here, last) then Plus(rest, Contribution(sqrt, rule, here, last)) else rest
  }

  /** The average, turned into a target: cohesion aims from here to the average position. */
  function Target(rule: Rule, here: Vec2, average: Vec2): Vec2 {
    if rule == Cohesion then Minus(average, here) else average
  }

  function Average(sqrt: real -> real, rule: Rule, here: Vec2, view: seq<Seen>): Vec2
    requires ContributionsDefined(sqrt, rule, here, view)
    requires Count(sqrt, here, view) > 0
  {
    Divided(Sum(sqrt, rule, here, view), Count(sqrt, here, view) as real)
  }

  /**
   * The rule can be computed without dividing by zero: every counted
   * separation distance is nonzero, and the target whose magnitude is set
   * to maxVelocity is not the zero vector. Outside this the source produces NaN.
   */
  predicate SteerDefined(sqrt: real -> real, rule: Rule, here: Vec2, view: seq<Seen>) {
    && ContributionsDefined(sqrt, rule, here, view)
    && (Count(sqrt, here, view) > 0 ==>
          Magnitude(sqrt, Target(rule, here, Average(sqrt, rule, here, view))) != 0.0)
  }

  /**
   * The steering vector of one rule, before it is weighted by its slider:
   * zero when nobody is in range; otherwise the target set to maxVelocity,
   * minus the boid's velocity, limited to maxAcceleration.
   */
  function Steer(sqrt: real -> real, rule: Rule, here: Vec2, velocity: Vec2, view: seq<Seen>): Vec2
    requires SteerDefined(sqrt, rule, here, view)
  {
    if Count(sqrt, here, view) == 0 then Zero
    else
      var desired := WithMagnitude(sqrt, Target(rule, here, Average(sqrt, rule, here, view)), MaxVelocity);
      Limited(sqrt, Minus(desired, velocity), MaxAcceleration)
  }

  // ---------------------------------------------------------------------------
  // Lemmas

  /** getDistance is non-negative, symmetric, and zero exactly between equal positions. */
  lemma DistanceFacts(sqrt: real -> real, a: Vec2, b: Vec2)
    requires IsSqrt(sqrt)
    ensures 0.0 <= Distance(sqrt, a, b)
    ensures Distance(sqrt, a, b) == Distance(sqrt, b, a)
    ensures Distance(sqrt, a, b) == 0.0 <==> a == b
  {
    MagnitudeOfSwapped(sqrt, a, b);
    MagnitudeFacts(sqrt, Minus(b, a));
    DifferenceZero(a, b);
  }

  lemma DifferenceZero(a: Vec2, b: Vec2)
    ensures Minus(b, a) == Zero <==> a == b
  {
  }

  lemma MagnitudeOfSwapped(sqrt: real -> real, a: Vec2, b: Vec2)
    ensures Magnitude(sqrt, Minus(a, b)) == Magnitude(sqrt, Minus(b, a))
  {
    DifferenceSquaredSymmetric(a, b);
  }

  lemma DifferenceSquaredSymmetric(a: Vec2, b: Vec2)
    ensures MagnitudeSquared(Minus(a, b)) == MagnitudeSquared(Minus(b, a))
  {
    MagnitudeSquaredIsSumOfSquares(Minus(a, b));
    MagnitudeSquaredIsSumOfSquares(Minus(b, a));
    SqOfDifference(a.x, b.x);
    SqOfDifference(a.y, b.y);
  }

  /** Being a neighbour is mutual: two distinct boids are inside each other's vis_rad or neither is. */
  lemma InRangeSymmetric(sqrt: real -> real, a: Vec2, b: Vec2, va: Vec2, vb: Vec2)
    requires IsSqrt(sqrt)
    ensures InRange(sqrt, a, Seen(false, b, vb)) <==> InRange(sqrt, b, Seen(false, a, va))
  {
    DistanceFacts(sqrt, a, b);
  }

  /**
   * As written, separation divides each difference by its own length, so
   * every counted neighbour adds a unit vector pointing away from it: a
   * near neighbour and one at the edge of vis_rad push equally hard.
   */
  lemma SeparationContributionIsUnit(sqrt: real -> real, here: Vec2, s: Seen)
    requires IsSqrt(sqrt) && Distance(sqrt, here, s.position) != 0.0
    ensures exists c: real :: 0.0 < c && Contribution(sqrt, Separation, here, s) == Scaled(Minus(here, s.position), c)
    ensures Magnitude(sqrt, Contribution(sqrt, Separation, here, s)) == 1.0
  {
    var away := Minus(here, s.position);
    DistanceFacts(sqrt, here, s.position);
    DifferenceSquaredSymmetric(here, s.position);
    assert away != Zero;
    UnitVectorFacts(sqrt, away);
    assert Contribution(sqrt, Separation, here, s) == UnitOf(sqrt, away);
  }

  /**
   * Two boids that see each other get opposite separation contributions,
   * along the line joining them.
   */
  lemma SeparationSymmetric(sqrt: real -> real, a: Vec2, b: Vec2, va: Vec2, vb: Vec2)
    requires IsSqrt(sqrt) && a != b
    ensures Distance(sqrt, a, b) != 0.0
    ensures Contribution(sqrt, Separation, a, Seen(false, b, vb))
         == Scaled(Contribution(sqrt, Separation, b, Seen(false, a, va)), -1.0)
  {
    DistanceFacts(sqrt, a, b);
  }

  /**
   * The weighting the comment beside the separation loop describes: the
   * difference divided by the distance a second time, so that a neighbour
   * pushes with strength 1/distance, away from itself.
   */
  function InverseSeparation(sqrt: real -> real, here: Vec2, s: Seen): Vec2
    requires Distance(sqrt, here, s.position) != 0.0
  {
    Divided(Contribution(sqrt, Separation, here, s), Distance(sqrt, here, s.position))
  }

  /** The inversely weighted contribution points away from the neighbour with magnitude 1/distance. */
  lemma InverseSeparationWeighted(sqrt: real -> real, here: Vec2, s: Seen)
    requires IsSqrt(sqrt) && Distance(sqrt, here, s.position) != 0.0
    ensures 0.0 < Distance(sqrt, here, s.position)
    ensures exists c: real :: 0.0 < c && InverseSeparation(sqrt, here, s) == Scaled(Minus(here, s.position), c)
    ensures Magnitude(sqrt, InverseSeparation(sqrt, here, s)) == Div(1.0, Distance(sqrt, here, s.position))
  {
    var d := Distance(sqrt, here, s.position);
    var unit := Contribution(sqrt, Separation, here, s);
    DistanceFacts(sqrt, here, s.position);
    SeparationContributionIsUnit(sqrt, here, s);
    var c: real :| 0.0 < c && unit == Scaled(Minus(here, s.position), c);
    DividedIsScaled(unit, d);
    DivPositive(1.0, d);
    ScaledTwice(Minus(here, s.position), c, Div(1.0, d));
    MulPositive(c, Div(1.0, d));
    MagnitudeOfScaled(sqrt, unit, Div(1.0, d));
    MulCommutes(Div(1.0, d), 1.0);
    MulByOne(Div(1.0, d));
  }

  lemma NeighboursOfPrefix(sqrt: real -> real, here: Vec2, view: seq<Seen>)
    requires view != []
    ensures var n := |view| - 1;
      Neighbours(sqrt, here, view)
      == Neighbours(sqrt, here, view[..n]) + (if InRange(sqrt, here, view[n]) then {n} else {})
  {
    var n := |view| - 1;
    var prefix := view[..n];
    forall i | i in Neighbours(sqrt, here, view)
      ensures i in Neighbours(sqrt, here, prefix) + (if InRange(sqrt, here, view[n]) then {n} else {})
    {
      if i < n {
        assert prefix[i] == view[i];
      }
    }
    forall i | i in Neighbours(sqrt, here, prefix)
      ensures i in Neighbours(sqrt, here, view)
    {
      assert prefix[i] == view[i];
    }
  }

  /** The loop's `total` is exactly the number of worldview indices that pass the test. */
  lemma {:induction false} CountIsNeighbours(sqrt: real -> real, here: Vec2, view: seq<Seen>)
    ensures Count(sqrt, here, view) == |Neighbours(sqrt, here, view)|
  {
    if view == [] {
      assert Neighbours(sqrt, here, view) == {};
    } else {
      var n := |view| - 1;
      CountIsNeighbours(sqrt, here, view[..n]);
      NeighboursOfPrefix(sqrt, here, view);
      assert n !in Neighbours(sqrt, here, view[..n]);
    }
  }

  /** Nobody else inside vis_rad means a total of zero. */
  lemma {:induction false} CountZero(sqrt: real -> real, here: Vec2, view: seq<Seen>)
    requires forall i :: 0 <= i < |view| ==> !InRange(sqrt, here, view[i])
    ensures Count(sqrt, here, view) == 0
  {
    if view != [] {
      var n := |view| - 1;
      assert forall i :: 0 <= i < n ==> view[..n][i] == view[i];
      CountZero(sqrt, here, view[..n]);
    }
  }

  /** With a total of zero the loop leaves `steering` at the zero vector. */
  lemma {:induction false} SumOfNone(sqrt: real -> real, rule: Rule, here: Vec2, view: seq<Seen>)
    requires ContributionsDefined(sqrt, rule, here, view)
    requires Count(sqrt, here, view) == 0
    ensures Sum(sqrt, rule, here, view) == Zero
  {
    if view != [] {
      var n := |view| - 1;
      assert forall i :: 0 <= i < n ==> view[..n][i] == view[i];
      SumOfNone(sqrt, rule, here, view[..n]);
    }
  }

  /** A boid with no other boid strictly inside vis_rad gets a zero steering vector from every rule. */
  lemma NoNeighboursNoSteer(sqrt: real -> real, rule: Rule, here: Vec2, velocity: Vec2, view: seq<Seen>)
    requires forall i :: 0 <= i < |view| ==> view[i].me || VisRad <= Distance(sqrt, here, view[i].position)
    ensures SteerDefined(sqrt, rule, here, view)
    ensures Steer(sqrt, rule, here, velocity, view) == Zero
  {
    CountZero(sqrt, here, view);
  }

  /** Every steering vector is at most maxAcceleration long. */
  lemma SteerBounded(sqrt: real -> real, rule: Rule, here: Vec2, velocity: Vec2, view: seq<Seen>)
    requires IsSqrt(sqrt) && SteerDefined(sqrt, rule, here, view)
    ensures Magnitude(sqrt, Steer(sqrt, rule, here, velocity, view)) <= MaxAcceleration
  {
    if Count(sqrt, here, view) == 0 {
      MagnitudeFacts(sqrt, Zero);
    } else {
      var desired := WithMagnitude(sqrt, Target(rule, here, Average(sqrt, rule, here, view)), MaxVelocity);
      LimitBounded(sqrt, Minus(desired, velocity), MaxAcceleration);
    }
  }
}
