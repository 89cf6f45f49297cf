/**
 * One boid's movement as values: the three rules adding their weighted
 * steering to the acceleration, then update() with its boundary check.
 * `Boids.Boid` is specified by these functions.
 */
module Motion {
  import opened RealMath
  import opened Vec2Math
  import opened Steering

  /** window.innerWidth and window.innerHeight at the moment of the boundary check. */
  datatype Viewport = Viewport(width: real, height: real)

  /** A boid's vectors and its drawn size (w_h). */
  datatype BoidState = BoidState(position: Vec2, velocity: Vec2, acceleration: Vec2, width: real, height: real)

  /** The boid's right edge is past 97% of the window width, or its left edge is left of 0. */
  predicate OffX(view: Viewport, width: real, p: Vec2) {
    p.x + width > view.width * 0.97 || p.x < 0.0
  }

  /** The boid's bottom edge is past 97% of the window height, or its top edge is above 0. */
  predicate OffY(view: Viewport, height: real, p: Vec2) {
    p.y + height > view.height * 0.97 || p.y < 0.0
  }

  /** checkBoundary's effect on the velocity: each component is negated when its edge is crossed. */
  function Bounced(view: Viewport, width: real, height: real, p: Vec2, v: Vec2): Vec2 {
    Vec2(if OffX(view, width, p) then v.x * -1.0 else v.x,
         if OffY(view, height, p) then v.y * -1.0 else v.y)
  }

  /**
   * update(): move by the old velocity, add the acceleration to the velocity
   * and limit it to maxVelocity, reset the acceleration, and, when the
   * boundary check reflected the velocity, move once more by the new velocity.
   */
  function Integrated(sqrt: real -> real, view: Viewport, b: BoidState): BoidState {
    var moved := Plus(b.position, b.velocity);
    var limited := Limited(sqrt, Plus(b.velocity, b.acceleration), MaxVelocity);
    var change := OffX(view, b.width, moved) || OffY(view, b.height, moved);
    var velocity := Bounced(view, b.width, b.height, moved, limited);
    b.(position := if change then Plus(moved, velocity) else moved,
       velocity := velocity,
       acceleration := Scaled(b.acceleration, 0.0))
  }

  /** One rule's method: the acceleration grows by the rule's steering vector times its slider weight. */
  function Steered(sqrt: real -> real, rule: Rule, weight: real, b: BoidState, view: seq<Seen>): BoidState
    requires SteerDefined(sqrt, rule, b.position, view)
  {
    b.(acceleration := Plus(b.acceleration, Scaled(Steer(sqrt, rule, b.position, b.velocity, view), weight)))
  }

  predicate StepDefined(sqrt: real -> real, b: BoidState, view: seq<Seen>) {
    && SteerDefined(sqrt, Alignment, b.position, view)
    && SteerDefined(sqrt, Cohesion, b.position, view)
    && SteerDefined(sqrt, Separation, b.position, view)
  }

  /** draw(): alignment, cohesion, separation, then update, all against the same worldview. */
  function Step(sqrt: real -> real, view: Viewport, weights: seq<real>, b: BoidState, seen: seq<Seen>): BoidState
    requires |weights| >= 3 && StepDefined(sqrt, b, seen)
  {
    var aligned := Steered(sqrt, Alignment, weights[Slot(Alignment)], b, seen);
    var cohered := Steered(sqrt, Cohesion, weights[Slot(Cohesion)], aligned, seen);
    var separated := Steered(sqrt, Separation, weights[Slot(Separation)], cohered, seen);
    Integrated(sqrt, view, separated)
  }

  // ---------------------------------------------------------------------------
  // Lemmas

  /**
   * checkBoundary flips each velocity component exactly when its edge is
   * crossed, never changes the speed, and flipping back restores the velocity.
   */
  lemma BounceFacts(sqrt: real -> real, view: Viewport, width: real, height: real, p: Vec2, v: Vec2)
    requires IsSqrt(sqrt)
    ensures var r := Bounced(view, width, height, p, v);
      && (r.x == -v.x <==> OffX(view, width, p) || v.x == 0.0)
      && (r.y == -v.y <==> OffY(view, height, p) || v.y == 0.0)
      && Magnitude(sqrt, r) == Magnitude(sqrt, v)
      && Bounced(view, width, height, p, r) == v
  {
    var r := Bounced(view, width, height, p, v);
    MagnitudeSquaredIsSumOfSquares(r);
    MagnitudeSquaredIsSumOfSquares(v);
    SqOfNegation(v.x);
    SqOfNegation(v.y);
  }

  /**
   * After update() the acceleration is zero, the speed is at most
   * maxVelocity and is the speed of velocity + acceleration limited to it,
   * the position has moved by the old velocity and, after a bounce, by the
   * new one too; the size is unchanged.
   */
  lemma UpdateFacts(sqrt: real -> real, view: Viewport, b: BoidState)
    requires IsSqrt(sqrt)
    ensures var r := Integrated(sqrt, view, b);
      var moved := Plus(b.position, b.velocity);
      && r.acceleration == Zero
      && Magnitude(sqrt, r.velocity) == Min(Magnitude(sqrt, Plus(b.velocity, b.acceleration)), MaxVelocity)
      && Magnitude(sqrt, r.velocity) <= MaxVelocity
      && (OffX(view, b.width, moved) || OffY(view, b.height, moved) ==> r.position == Plus(moved, r.velocity))
      && (!OffX(view, b.width, moved) && !OffY(view, b.height, moved) ==> r.position == moved && r.velocity == Limited(sqrt, Plus(b.velocity, b.acceleration), MaxVelocity))
      && r.width == b.width && r.height == b.height
  {
    var moved := Plus(b.position, b.velocity);
    var limited := Limited(sqrt, Plus(b.velocity, b.acceleration), MaxVelocity);
    MultiplyByZero(b.acceleration);
    LimitIsShortenedCopy(sqrt, Plus(b.velocity, b.acceleration), MaxVelocity);
    BounceFacts(sqrt, view, b.width, b.height, moved, limited);
  }

  /** A velocity already within maxVelocity, with zero acceleration and no bounce, is kept as it is. */
  lemma UpdateKeepsSlowVelocity(sqrt: real -> real, view: Viewport, b: BoidState)
    requires IsSqrt(sqrt) && b.acceleration == Zero && Magnitude(sqrt, b.velocity) <= MaxVelocity
    requires !OffX(view, b.width, Plus(b.position, b.velocity)) && !OffY(view, b.height, Plus(b.position, b.velocity))
    ensures Integrated(sqrt, view, b) == b.(position := Plus(b.position, b.velocity))
  {
    assert Plus(b.velocity, b.acceleration) == b.velocity;
    LimitIdentityWhenShort(sqrt, b.velocity, MaxVelocity);
    MultiplyByZero(b.acceleration);
  }

  /**
   * A rule changes only the acceleration, by at most |weight| * maxAcceleration;
   * with nobody in range it changes nothing.
   */
  lemma SteeredFacts(sqrt: real -> real, rule: Rule, weight: real, b: BoidState, view: seq<Seen>)
    requires IsSqrt(sqrt) && SteerDefined(sqrt, rule, b.position, view)
    ensures var r := Steered(sqrt, rule, weight, b, view);
      && r.position == b.position && r.velocity == b.velocity
      && r.width == b.width && r.height == b.height
      && Magnitude(sqrt, Minus(r.acceleration, b.acceleration)) <= Mul(Abs(weight), MaxAcceleration)
      && (Count(sqrt, b.position, view) == 0 ==> r == b)
  {
    var s := Steer(sqrt, rule, b.position, b.velocity, view);
    var r := Steered(sqrt, rule, weight, b, view);
    assert Minus(r.acceleration, b.acceleration) == Scaled(s, weight);
    MagnitudeOfScaled(sqrt, s, weight);
    SteerBounded(sqrt, rule, b.position, b.velocity, view);
    MulMonotone(Abs(weight), Magnitude(sqrt, s), MaxAcceleration);
    if Count(sqrt, b.position, view) == 0 {
      MulCommutes(0.0, weight);
      MulByZero(weight);
      assert Scaled(s, weight) == Zero;
    }
  }

  /**
   * After a whole draw() the acceleration is zero, the speed is at most
   * maxVelocity, and the size is unchanged; the velocity is the old one plus
   * the old acceleration plus the three weighted steering vectors, limited to
   * maxVelocity and possibly reflected.
   */
  lemma StepFacts(sqrt: real -> real, view: Viewport, weights: seq<real>, b: BoidState, seen: seq<Seen>)
    requires IsSqrt(sqrt) && |weights| >= 3 && StepDefined(sqrt, b, seen)
    ensures var r := Step(sqrt, view, weights, b, seen);
      var a := Steer(sqrt, Alignment, b.position, b.velocity, seen);
      var c := Steer(sqrt, Cohesion, b.position, b.velocity, seen);
      var s := Steer(sqrt, Separation, b.position, b.velocity, seen);
      var pushed := Plus(Plus(Plus(b.acceleration, Scaled(a, weights[0])), Scaled(c, weights[1])), Scaled(s, weights[2]));
      var limited := Limited(sqrt, Plus(b.velocity, pushed), MaxVelocity);
      var moved := Plus(b.position, b.velocity);
      && r.acceleration == Zero
      && Magnitude(sqrt, r.velocity) <= MaxVelocity
      && r.velocity == Bounced(view, b.width, b.height, moved, limited)
      && r.width == b.width && r.height == b.height
  {
    var aligned := Steered(sqrt, Alignment, weights[0], b, seen);
    var cohered := Steered(sqrt, Cohesion, weights[1], aligned, seen);
    var separated := Steered(sqrt, Separation, weights[2], cohered, seen);
    SteeredFacts(sqrt, Alignment, weights[0], b, seen);
    SteeredFacts(sqrt, Cohesion, weights[1], aligned, seen);
    SteeredFacts(sqrt, Separation, weights[2], cohered, seen);
    UpdateFacts(sqrt, view, separated);
  }

  /** The part of `StepFacts` the flock relies on: zero acceleration, speed within maxVelocity, same size. */
  lemma StepBounds(sqrt: real -> real, view: Viewport, weights: seq<real>, b: BoidState, seen: seq<Seen>)
    requires IsSqrt(sqrt) && |weights| >= 3 && StepDefined(sqrt, b, seen)
    ensures var r := Step(sqrt, view, weights, b, seen);
      && r.acceleration == Zero
      && Magnitude(sqrt, r.velocity) <= MaxVelocity
      && r.width == b.width && r.height == b.height
  {
    StepFacts(sqrt, view, weights, b, seen);
  }

  /** A rule applied with nobody else strictly inside vis_rad changes nothing, whatever its weight. */
  lemma AloneSteersNowhere(sqrt: real -> real, rule: Rule, weight: real, b: BoidState, seen: seq<Seen>)
    requires IsSqrt(sqrt)
    requires forall i :: 0 <= i < |seen| ==> seen[i].me || VisRad <= Distance(sqrt, b.position, seen[i].position)
    ensures SteerDefined(sqrt, rule, b.position, seen)
    ensures Steered(sqrt, rule, weight, b, seen) == b
  {
    NoNeighboursNoSteer(sqrt, rule, b.position, b.velocity, seen);
    CountZero(sqrt, b.position, seen);
    SteeredFacts(sqrt, rule, weight, b, seen);
  }

  /**
   * A boid with no other boid strictly inside vis_rad, no pending
   * acceleration, a speed within maxVelocity and no edge crossed simply
   * moves by its velocity: whatever the slider weights, the rules add nothing.
   */
  lemma AloneMovesStraight(sqrt: real -> real, view: Viewport, weights: seq<real>, b: BoidState, seen: seq<Seen>)
    requires IsSqrt(sqrt) && |weights| >= 3
    requires forall i :: 0 <= i < |seen| ==> seen[i].me || VisRad <= Distance(sqrt, b.position, seen[i].position)
    requires b.acceleration == Zero && Magnitude(sqrt, b.velocity) <= MaxVelocity
    requires !OffX(view, b.width, Plus(b.position, b.velocity)) && !OffY(view, b.height, Plus(b.position, b.velocity))
    ensures StepDefined(sqrt, b, seen)
    ensures Step(sqrt, view, weights, b, seen) == b.(position := Plus(b.position, b.velocity))
  {
    hide Steered, SteerDefined, Integrated, Distance;
    AloneSteersNowhere(sqrt, Alignment, weights[0], b, seen);
    AloneSteersNowhere(sqrt, Cohesion, weights[1], b, seen);
    AloneSteersNowhere(sqrt, Separation, weights[2], b, seen);
    UpdateKeepsSlowVelocity(sqrt, view, b);
  }

  /**
   * A slow boid with no acceleration that moves horizontally across the
   * left edge: update() reflects its velocity, but the second move only
   * undoes the first, so it ends the frame where it started, still off the
   * edge (x = -1 with velocity.x = -3 ends at x = -1 with velocity.x = 3).
   */
  lemma LeftEdgeBounceReturnsToStart(sqrt: real -> real, view: Viewport, b: BoidState)
    requires IsSqrt(sqrt) && b.acceleration == Zero && Magnitude(sqrt, b.velocity) <= MaxVelocity
    requires b.velocity.y == 0.0 && b.position.x + b.velocity.x < 0.0
    ensures Integrated(sqrt, view, b).velocity == Vec2(-b.velocity.x, 0.0)
    ensures Integrated(sqrt, view, b).position == b.position
  {
    hide Limited, Magnitude, Integrated;
    LimitIdentityWhenShort(sqrt, b.velocity, MaxVelocity);
    assert Plus(b.velocity, b.acceleration) == b.velocity;
    ReflectedUpdate(sqrt, view, b);
  }

  /** update() of a boid whose limited velocity is its own velocity and that crosses an edge. */
  lemma ReflectedUpdate(sqrt: real -> real, view: Viewport, b: BoidState)
    requires Limited(sqrt, Plus(b.velocity, b.acceleration), MaxVelocity) == b.velocity
    requires OffX(view, b.width, Plus(b.position, b.velocity))
    ensures var bounced := Bounced(view, b.width, b.height, Plus(b.position, b.velocity), b.velocity);
      && Integrated(sqrt, view, b).velocity == bounced
      && Integrated(sqrt, view, b).position == Plus(Plus(b.position, b.velocity), bounced)
  {
  }
}
