/**
 * One frame of the flock as values: drawFlock() draws the boids in array
 * order, so boid k steps seeing the boids before it already moved and the
 * boids after it not yet moved. `None` marks a frame in which some boid would
 * divide by zero (a NaN in the source).
 */
module Simulation {
  import opened RealMath
  import opened Vec2Math
  import opened Steering
  import opened Motion

  datatype Option<T> = None | Some(value: T)

  /**
   * Where `new Boid(context)` starts a boid: the source draws the position
   * and velocity at random and takes the size from the sprite image.
   */
  datatype Spawn = Spawn(position: Vec2, velocity: Vec2, width: real, height: real)

  /** A new boid's state: the given vectors and size, and a zero acceleration. */
  function Spawned(s: Spawn): BoidState {
    BoidState(s.position, s.velocity, Zero, s.width, s.height)
  }

  /** Boid j's worldview: every boid of the flock, with entry j marked as itself. */
  function ViewAt(states: seq<BoidState>, j: int): (view: seq<Seen>)
    ensures |view| == |states|
    ensures forall i :: 0 <= i < |states| ==>
      view[i] == Seen(i == j, states[i].position, states[i].velocity)
  {
    seq(|states|, i requires 0 <= i < |states| => Seen(i == j, states[i].position, states[i].velocity))
  }

  /** The flock after the first k boids have been drawn, in array order. */
  function Tick(sqrt: real -> real, view: Viewport, weights: seq<real>, states: seq<BoidState>, k: nat): (r: Option<seq<BoidState>>)
    requires k <= |states| && |weights| >= 3
    ensures r.Some? ==> |r.value| == |states|
  {
    if k == 0 then Some(states)
    else
      match Tick(sqrt, view, weights, states, k - 1)
      case None => None
      case Some(prev) =>
        if StepDefined(sqrt, prev[k - 1], ViewAt(prev, k - 1))
        then Some(prev[k - 1 := Step(sqrt, view, weights, prev[k - 1], ViewAt(prev, k - 1))])
        else None
  }

  // ---------------------------------------------------------------------------
  // Lemmas

  /** A frame that completes the first k boids has completed every shorter prefix. */
  lemma {:induction false} TickDefinedPrefix(sqrt: real -> real, view: Viewport, weights: seq<real>, states: seq<BoidState>, j: nat, k: nat)
    requires j <= k <= |states| && |weights| >= 3
    requires Tick(sqrt, view, weights, states, k).Some?
    ensures Tick(sqrt, view, weights, states, j).Some?
  {
    hide Step, StepDefined;
    if j < k {
      TickDefinedPrefix(sqrt, view, weights, states, j, k - 1);
    }
  }

  /** Boids not yet drawn are untouched. */
  lemma {:induction false} TickLeavesRest(sqrt: real -> real, view: Viewport, weights: seq<real>, states: seq<BoidState>, k: nat)
    requires k <= |states| && |weights| >= 3
    requires Tick(sqrt, view, weights, states, k).Some?
    ensures forall i :: k <= i < |states| ==> Tick(sqrt, view, weights, states, k).value[i] == states[i]
  {
    hide Step, StepDefined;
    if k > 0 {
      TickLeavesRest(sqrt, view, weights, states, k - 1);
    }
  }

  /** A boid, once drawn, is not touched again by the boids drawn after it. */
  lemma {:induction false} TickKeepsDrawn(sqrt: real -> real, view: Viewport, weights: seq<real>, states: seq<BoidState>, i: nat, k: nat)
    requires i < k <= |states| && |weights| >= 3
    requires Tick(sqrt, view, weights, states, k).Some?
    ensures Tick(sqrt, view, weights, states, i + 1).Some?
    ensures Tick(sqrt, view, weights, states, k).value[i] == Tick(sqrt, view, weights, states, i + 1).value[i]
  {
    hide Step, StepDefined;
    TickDefinedPrefix(sqrt, view, weights, states, i + 1, k);
    if i + 1 < k {
      TickKeepsDrawn(sqrt, view, weights, states, i, k - 1);
    }
  }

  /** Drawing boid k takes the frame from `Tick(k)` to `Tick(k + 1)` by one `Step` of boid k. */
  lemma TickStep(sqrt: real -> real, view: Viewport, weights: seq<real>, states: seq<BoidState>, k: nat)
    requires k < |states| && |weights| >= 3
    requires Tick(sqrt, view, weights, states, k + 1).Some?
    ensures var prev := Tick(sqrt, view, weights, states, k);
      && prev.Some?
      && StepDefined(sqrt, prev.value[k], ViewAt(prev.value, k))
      && Tick(sqrt, view, weights, states, k + 1).value
         == prev.value[k := Step(sqrt, view, weights, prev.value[k], ViewAt(prev.value, k))]
  {
    hide Step, StepDefined;
  }

  /**
   * Each boid is drawn exactly once, at its turn: it steps from its starting
   * state, seeing the boids before it in their final state for this frame
   * and the boids after it in their starting state.
   */
  lemma BoidStepsAtItsTurn(sqrt: real -> real, view: Viewport, weights: seq<real>, states: seq<BoidState>, i: nat, n: nat)
    requires i < n <= |states| && |weights| >= 3
    requires Tick(sqrt, view, weights, states, n).Some?
    ensures var before := Tick(sqrt, view, weights, states, i);
      var after := Tick(sqrt, view, weights, states, n);
      && before.Some?
      && (forall j :: 0 <= j < i ==> before.value[j] == after.value[j])
      && (forall j :: i <= j < |states| ==> before.value[j] == states[j])
      && StepDefined(sqrt, states[i], ViewAt(before.value, i))
      && after.value[i] == Step(sqrt, view, weights, states[i], ViewAt(before.value, i))
  {
    hide Step, StepDefined;
    TickDefinedPrefix(sqrt, view, weights, states, i, n);
    TickDefinedPrefix(sqrt, view, weights, states, i + 1, n);
    TickLeavesRest(sqrt, view, weights, states, i);
    TickKeepsDrawn(sqrt, view, weights, states, i, n);
    var before := Tick(sqrt, view, weights, states, i).value;
    forall j | 0 <= j < i
      ensures before[j] == Tick(sqrt, view, weights, states, n).value[j]
    {
      TickKeepsDrawn(sqrt, view, weights, states, j, i);
      TickKeepsDrawn(sqrt, view, weights, states, j, n);
    }
  }

  /**
   * After the first k boids are drawn, boid i (i < k) has a zero acceleration
   * and a speed of at most maxVelocity, and every boid keeps its size.
   */
  lemma {:induction false} TickBounds(sqrt: real -> real, view: Viewport, weights: seq<real>, states: seq<BoidState>, k: nat, i: nat)
    requires IsSqrt(sqrt) && i < |states| && k <= |states| && |weights| >= 3
    requires Tick(sqrt, view, weights, states, k).Some?
    ensures var b := Tick(sqrt, view, weights, states, k).value[i];
      && (i < k ==> b.acceleration == Zero && Magnitude(sqrt, b.velocity) <= MaxVelocity)
      && b.width == states[i].width && b.height == states[i].height
  {
    hide Step, StepDefined;
    if k > 0 {
      TickBounds(sqrt, view, weights, states, k - 1, i);
      var prev := Tick(sqrt, view, weights, states, k - 1).value;
      if i == k - 1 {
        StepBounds(sqrt, view, weights, prev[i], ViewAt(prev, i));
      }
    }
  }
}
