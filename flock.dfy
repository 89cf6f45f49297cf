/**
 * The Flock class of sprite.js, without its drawing: the array of boids, the
 * number of boids createFlock makes, and the slider values every boid shares.
 */
module Flocks {
  import opened RealMath
  import opened Vec2Math
  import opened Steering
  import opened Motion
  import opened Vectors
  import opened Boids
  import opened Simulation

  /** flock_size: how many boids createFlock makes. */
  const FlockSize: nat := 200

  /**
   * The loop of createFlock: one `new Boid` per start, in order. Each boid
   * owns three new vectors, so no two of them share one.
   */
  method NewBoids(starts: seq<Spawn>) returns (boids: seq<Boid>)
    ensures |boids| == |starts|
    ensures forall j :: 0 <= j < |boids| ==> fresh(boids[j])
    ensures forall j :: 0 <= j < |boids| ==> boids[j].State() == Spawned(starts[j])
    ensures forall j :: 0 <= j < |boids| ==> boids[j].OwnVectorsDistinct()
    ensures forall j, l :: 0 <= j < |boids| && 0 <= l < |boids| && j != l ==> boids[j].Apart(boids[l])
  {
    boids := [];
    var i := 0;
    while i < |starts|
      invariant 0 <= i <= |starts|
      invariant |boids| == i
      invariant forall j :: 0 <= j < i ==> fresh(boids[j])
      invariant forall j :: 0 <= j < i ==> boids[j].State() == Spawned(starts[j])
      invariant forall j :: 0 <= j < i ==> boids[j].OwnVectorsDistinct()
      invariant forall j :: 0 <= j < i ==> fresh(boids[j].position) && fresh(boids[j].velocity) && fresh(boids[j].acceleration)
      invariant forall j, l :: 0 <= j < i && 0 <= l < i && j != l ==> boids[j].Apart(boids[l])
    {
      var s := starts[i];
      var b := new Boid(s.position, s.velocity, s.width, s.height);
      boids := boids + [b];
      i := i + 1;
    }
  }

  class Flock {
    var flock: array<Boid>
    const flockSize: nat
    /** The alignment, cohesion and separation slider values, in that order. */
    const inputs: array<real>

    /**
     * Every boid's worldview is the flock array itself and its properties the
     * inputs array, every boid owns three vectors of its own, and no two boids
     * share a vector.
     */
    ghost predicate Valid()
      reads this, flock, set i | 0 <= i < flock.Length :: flock[i]
    {
      && inputs.Length == 3
      && (forall i :: 0 <= i < flock.Length ==>
            && flock[i].worldview == flock
            && flock[i].properties == inputs
            && flock[i].OwnVectorsDistinct())
      && (forall i, j :: 0 <= i < flock.Length && 0 <= j < flock.Length && i != j ==>
            flock[i].Apart(flock[j]))
    }

    /** The vectors of all boids: what drawing the flock changes. */
    ghost function Footprint(): set<Vector>
      reads this, flock
    {
      (set i | 0 <= i < flock.Length :: flock[i].position)
      + (set i | 0 <= i < flock.Length :: flock[i].velocity)
      + (set i | 0 <= i < flock.Length :: flock[i].acceleration)
    }

    /** The boids' states, in array order. */
    ghost function States(): seq<BoidState>
      reads this, flock, Footprint()
    {
      seq(flock.Length, i requires 0 <= i < flock.Length reads this, flock, Footprint() => flock[i].State())
    }

    /** `new Flock(context)`: no boids yet, 200 to come, all sliders at zero. */
    constructor()
      ensures Valid() && flock.Length == 0
      ensures flockSize == FlockSize
      ensures inputs[..] == [0.0, 0.0, 0.0]
    {
      flock := new Boid[0];
      flockSize := FlockSize;
      inputs := new real[3](_ => 0.0);
    }

    /** Boid i sees the flock's states, with entry i marked as itself. */
    lemma ViewIsViewAt(i: int)
      requires Valid() && 0 <= i < flock.Length
      ensures flock[i].View() == ViewAt(States(), i)
    {
      var b := flock[i];
      forall j | 0 <= j < flock.Length
        ensures b.View()[j] == ViewAt(States(), i)[j]
      {
        assert (flock[j] == b) == (j == i) by {
          if j != i {
            assert flock[j].Apart(flock[i]);
          }
        }
      }
    }

    /**
     * One iteration of drawFlock's loop: boid i draws itself, which takes
     * the flock from the frame with i boids drawn to the frame with i + 1.
     */
    method DrawBoid(sqrt: real -> real, view: Viewport, i: int, ghost weights: seq<real>, ghost start: seq<BoidState>)
      requires IsSqrt(sqrt) && Valid() && 0 <= i < flock.Length == |start| && weights == inputs[..]
      requires Tick(sqrt, view, weights, start, i + 1).Some?
      requires Tick(sqrt, view, weights, start, i).Some?
      requires States() == Tick(sqrt, view, weights, start, i).value
      modifies flock[i].position, flock[i].velocity, flock[i].acceleration
      ensures Valid()
      ensures States() == Tick(sqrt, view, weights, start, i + 1).value
    {
      hide Step, StepDefined;
      ghost var before := States();
      TickStep(sqrt, view, weights, start, i);
      ViewIsViewAt(i);
      var b := flock[i];
      assert b.State() == before[i];
      assert b.AccelerationUnseen() by {
        forall j | 0 <= j < flock.Length
          ensures flock[j].position != b.acceleration && flock[j].velocity != b.acceleration
        {
          if j != i {
            assert flock[j].Apart(b);
          }
        }
      }
      b.Draw(sqrt, view);
      forall j | 0 <= j < flock.Length
        ensures States()[j] == before[i := b.State()][j]
      {
        if j != i {
          assert flock[j].Apart(b);
        }
      }
    }

    /**
     * drawFlock(): draws every boid once, in array order; the flock then
     * holds the frame `Tick` describes, and stays valid.
     */
    method DrawFlock(sqrt: real -> real, view: Viewport)
      requires IsSqrt(sqrt) && Valid()
      requires Tick(sqrt, view, inputs[..], States(), flock.Length).Some?
      modifies Footprint()
      ensures Valid()
      ensures States() == Tick(sqrt, view, old(inputs[..]), old(States()), flock.Length).value
    {
      hide Step, StepDefined;
      ghost var start := States();
      ghost var weights := inputs[..];
      var i := 0;
      while i < flock.Length
        invariant 0 <= i <= flock.Length
        invariant Valid() && inputs[..] == weights
        invariant Tick(sqrt, view, weights, start, i).Some?
        invariant States() == Tick(sqrt, view, weights, start, i).value
      {
        TickDefinedPrefix(sqrt, view, weights, start, i + 1, flock.Length);
        DrawBoid(sqrt, view, i, weights, start);
        i := i + 1;
      }
    }

    /**
     * createFlock(): flock_size new boids, started where `starts` says, then
     * fillReferenceArrays().
     */
    method CreateFlock(starts: seq<Spawn>)
      requires Valid() && flock.Length == 0 && |starts| == flockSize
      modifies this
      ensures Valid() && fresh(flock) && flock.Length == |starts|
      ensures forall i :: 0 <= i < |starts| ==> flock[i].State() == Spawned(starts[i])
    {
      var boids := NewBoids(starts);
      flock := new Boid[flockSize](j requires 0 <= j < flockSize reads boids => boids[j]);
      assert flock[..] == boids;
      FillReferenceArrays();
    }

    /** fillReferenceArrays(): each of the first flock_size boids gets the flock as its worldview and the inputs as its properties. */
    method FillReferenceArrays()
      requires flockSize <= flock.Length
      modifies set i | 0 <= i < flockSize :: flock[i]
      ensures forall i :: 0 <= i < flockSize ==> flock[i].worldview == flock && flock[i].properties == inputs
    {
      var i := 0;
      while i < flockSize
        invariant 0 <= i <= flockSize
        invariant forall j :: 0 <= j < i ==> flock[j].worldview == flock && flock[j].properties == inputs
      {
        flock[i].worldview := flock;
        flock[i].properties := inputs;
        i := i + 1;
      }
    }

    /** getAlignment(): the alignment slider's value goes to inputs[0]. */
    method GetAlignment(value: real)
      requires inputs.Length == 3
      modifies inputs
      ensures inputs[..] == old(inputs[..])[0 := value]
    {
      inputs[0] := value;
    }

    /** getCohesion(): the cohesion slider's value goes to inputs[1]. */
    method GetCohesion(value: real)
      requires inputs.Length == 3
      modifies inputs
      ensures inputs[..] == old(inputs[..])[1 := value]
    {
      inputs[1] := value;
    }

    /** getSeparation(): the separation slider's value goes to inputs[2]. */
    method GetSeparation(value: real)
      requires inputs.Length == 3
      modifies inputs
      ensures inputs[..] == old(inputs[..])[2 := value]
    {
      inputs[2] := value;
    }
  }
}
