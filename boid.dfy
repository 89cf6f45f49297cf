/**
 * The Boid class of sprite.js, without its drawing: three vectors it updates
 * in place, its drawn size, and references to the flock array (worldview) and
 * the slider values (properties) it shares with the Flock.
 */
module Boids {
  import opened RealMath
  import opened Vec2Math
  import opened Steering
  import opened Motion
  import opened Vectors

  class Boid {
    const position: Vector
    const velocity: Vector
    const acceleration: Vector
    /** w_h[0] and w_h[1]: the image size times the scale, fixed at construction. */
    const width: real
    const height: real
    var worldview: array<Boid>
    var properties: array<real>

    /** The constructor gives each boid three vectors of its own. */
    predicate OwnVectorsDistinct() {
      position != velocity && position != acceleration && velocity != acceleration
    }

    /** No vector of this boid is a vector of the other one. */
    predicate Apart(other: Boid) {
      && position != other.position && position != other.velocity && position != other.acceleration
      && velocity != other.position && velocity != other.velocity && velocity != other.acceleration
      && acceleration != other.position && acceleration != other.velocity && acceleration != other.acceleration
    }

    function State(): BoidState
      reads position, velocity, acceleration
    {
      BoidState(position.Value(), velocity.Value(), acceleration.Value(), width, height)
    }

    /** The vectors of the worldview that the rules read. */
    ghost function SeenVectors(): set<Vector>
      reads this, worldview
    {
      (set i | 0 <= i < worldview.Length :: worldview[i].position)
      + (set i | 0 <= i < worldview.Length :: worldview[i].velocity)
    }

    /** The worldview as the rules read it. */
    ghost function View(): seq<Seen>
      reads this, worldview, SeenVectors()
    {
      seq(worldview.Length, i requires 0 <= i < worldview.Length reads this, worldview, SeenVectors() =>
        Steering.Seen(worldview[i] == this, worldview[i].position.Value(), worldview[i].velocity.Value()))
    }

    /** The rules change only the acceleration, so it must not be one of the vectors they read. */
    predicate AccelerationUnseen()
      reads this, worldview
    {
      forall i :: 0 <= i < worldview.Length ==>
        worldview[i].position != acceleration && worldview[i].velocity != acceleration
    }

    /**
     * `new Boid(context)` with the random start made explicit: the given
     * position and velocity, a zero acceleration, and empty worldview and
     * properties until the flock fills them.
     */
    constructor(p: Vec2, v: Vec2, w: real, h: real)
      ensures State() == BoidState(p, v, Zero, w, h)
      ensures OwnVectorsDistinct()
      ensures fresh(position) && fresh(velocity) && fresh(acceleration)
      ensures fresh(worldview) && worldview.Length == 0
      ensures fresh(properties) && properties.Length == 0
    {
      position := new Vector(p.x, p.y);
      velocity := new Vector(v.x, v.y);
      acceleration := new Vector(0.0, 0.0);
      width := w;
      height := h;
      worldview := new Boid[0];
      properties := new real[0];
    }

    /** getDistance(idx): non-negative, and zero exactly when the two positions coincide. */
    function GetDistance(sqrt: real -> real, idx: int): (d: real)
      requires IsSqrt(sqrt) && 0 <= idx < worldview.Length
      reads this, worldview, worldview[idx].position, position
      ensures 0.0 <= d
      ensures d == 0.0 <==> worldview[idx].position.Value() == position.Value()
    {
      DistanceFacts(sqrt, position.Value(), worldview[idx].position.Value());
      Distance(sqrt, position.Value(), worldview[idx].position.Value())
    }

    /** A new vector holding vector1 - vector2; neither argument changes. */
    method DiffVectors(vector1: Vector, vector2: Vector) returns (r: Vector)
      ensures fresh(r)
      ensures r.Value() == Minus(vector1.Value(), vector2.Value())
    {
      r := new Vector(0.0, 0.0);
      r.SetVector(vector1);
      r.Sub(vector2);
    }

    /**
     * One pass of the loop shared by alignment, cohesion and separation:
     * when entry i is another boid strictly inside vis_rad, its contribution
     * is added to `steering`, and the result says whether it was counted.
     */
    method Visit(sqrt: real -> real, rule: Rule, i: int, steering: Vector) returns (counted: bool)
      requires IsSqrt(sqrt) && 0 <= i < worldview.Length
      requires ContributionsDefined(sqrt, rule, position.Value(), View())
      requires steering != position && steering !in SeenVectors()
      modifies steering
      ensures View() == old(View())
      ensures counted == InRange(sqrt, old(position.Value()), old(View())[i])
      ensures steering.Value()
        == if counted then Plus(old(steering.Value()), Contribution(sqrt, rule, old(position.Value()), old(View())[i]))
           else old(steering.Value())
    {
      ghost var view := View();
      var distance := GetDistance(sqrt, i);
      assert view[i] == Steering.Seen(worldview[i] == this, worldview[i].position.Value(), worldview[i].velocity.Value());
      assert distance == Distance(sqrt, position.Value(), view[i].position);
      counted := worldview[i] != this && distance < VisRad;
      if counted {
        if rule == Rule.Alignment {
          steering.Add(worldview[i].velocity);
        } else if rule == Rule.Cohesion {
          steering.Add(worldview[i].position);
        } else {
          var difference := DiffVectors(position, worldview[i].position);
          difference.Divide(distance);
          steering.Add(difference);
        }
      }
      assert View() == view;
    }

    /**
     * The loop shared by alignment, cohesion and separation: a new vector
     * holding the sum of the contributions of the entries that pass the
     * test, and their number.
     */
    method Gather(sqrt: real -> real, rule: Rule) returns (steering: Vector, total: nat)
      requires IsSqrt(sqrt) && ContributionsDefined(sqrt, rule, position.Value(), View())
      ensures fresh(steering)
      ensures View() == old(View())
      ensures total == Count(sqrt, old(position.Value()), old(View()))
      ensures steering.Value() == Sum(sqrt, rule, old(position.Value()), old(View()))
    {
      ghost var view := View();
      ghost var here := position.Value();
      steering := new Vector(0.0, 0.0);
      total := 0;
      var i := 0;
      while i < worldview.Length
        invariant 0 <= i <= worldview.Length
        invariant fresh(steering)
        invariant View() == view && position.Value() == here
        invariant total == Count(sqrt, here, view[..i])
        invariant steering.Value() == Sum(sqrt, rule, here, view[..i])
        modifies steering
      {
        assert view[..i + 1][..i] == view[..i];
        var counted := Visit(sqrt, rule, i, steering);
        if counted {
          total := total + 1;
        }
        i := i + 1;
      }
      assert view[..i] == view;
    }

    /**
     * One rule's loop and the `total > 0` block after it: a new vector
     * holding the rule's steering.
     */
    method SteeringFor(sqrt: real -> real, rule: Rule) returns (steering: Vector)
      requires IsSqrt(sqrt) && SteerDefined(sqrt, rule, position.Value(), View())
      ensures fresh(steering)
      ensures steering.Value() == Steer(sqrt, rule, old(position.Value()), old(velocity.Value()), old(View()))
    {
      ghost var view := View();
      var total;
      steering, total := Gather(sqrt, rule);
      if total == 0 {
        SumOfNone(sqrt, rule, position.Value(), view);
      } else {
        steering.Divide(total as real);
        if rule == Rule.Cohesion {
          steering.Sub(position);
        }
        steering.SetMagnitude(sqrt, MaxVelocity);
        steering.Sub(velocity);
        steering.LimitVector(sqrt, MaxAcceleration);
      }
    }

    /** One rule: the acceleration grows by the rule's steering times properties[Slot(rule)]. */
    method ApplyRule(sqrt: real -> real, rule: Rule)
      requires IsSqrt(sqrt) && OwnVectorsDistinct() && Slot(rule) < properties.Length
      requires SteerDefined(sqrt, rule, position.Value(), View())
      modifies acceleration
      ensures State() == Steered(sqrt, rule, properties[Slot(rule)], old(State()), old(View()))
    {
      var steering := SteeringFor(sqrt, rule);
      steering.Multiply(properties[Slot(rule)]);
      acceleration.Add(steering);
    }

    /** alignment(): steer towards the average velocity of the neighbours. */
    method Alignment(sqrt: real -> real)
      requires IsSqrt(sqrt) && OwnVectorsDistinct() && 0 < properties.Length
      requires SteerDefined(sqrt, Rule.Alignment, position.Value(), View())
      modifies acceleration
      ensures State() == Steered(sqrt, Rule.Alignment, properties[0], old(State()), old(View()))
    {
      ApplyRule(sqrt, Rule.Alignment);
    }

    /** cohesion(): steer towards the average position of the neighbours. */
    method Cohesion(sqrt: real -> real)
      requires IsSqrt(sqrt) && OwnVectorsDistinct() && 1 < properties.Length
      requires SteerDefined(sqrt, Rule.Cohesion, position.Value(), View())
      modifies acceleration
      ensures State() == Steered(sqrt, Rule.Cohesion, properties[1], old(State()), old(View()))
    {
      ApplyRule(sqrt, Rule.Cohesion);
    }

    /** separation(): steer away from the neighbours; each counted neighbour adds a unit vector pointing away from it. */
    method Separation(sqrt: real -> real)
      requires IsSqrt(sqrt) && OwnVectorsDistinct() && 2 < properties.Length
      requires SteerDefined(sqrt, Rule.Separation, position.Value(), View())
      modifies acceleration
      ensures State() == Steered(sqrt, Rule.Separation, properties[2], old(State()), old(View()))
    {
      ApplyRule(sqrt, Rule.Separation);
    }

    /**
     * checkBoundary(): each velocity component is negated when its edge is
     * crossed; the result says whether any was.
     */
    method CheckBoundary(view: Viewport) returns (change: bool)
      requires OwnVectorsDistinct()
      modifies velocity
      ensures velocity.Value() == Bounced(view, width, height, position.Value(), old(velocity.Value()))
      ensures change <==> OffX(view, width, position.Value()) || OffY(view, height, position.Value())
    {
      var onXEdge, onYEdge := false, false;
      if position.x + width > view.width * 0.97 {
        onXEdge := true;
      } else if position.x < 0.0 {
        onXEdge := true;
      }
      if position.y + height > view.height * 0.97 {
        onYEdge := true;
      } else if position.y < 0.0 {
        onYEdge := true;
      }
      if onXEdge {
        velocity.x := velocity.x * -1.0;
      }
      if onYEdge {
        velocity.y := velocity.y * -1.0;
      }
      change := onXEdge || onYEdge;
    }

    /** update(): see `Motion.Integrated`. */
    method Update(sqrt: real -> real, view: Viewport)
      requires IsSqrt(sqrt) && OwnVectorsDistinct()
      modifies position, velocity, acceleration
      ensures State() == Integrated(sqrt, view, old(State()))
    {
      position.Add(velocity);
      velocity.Add(acceleration);
      velocity.LimitVector(sqrt, MaxVelocity);
      acceleration.Multiply(0.0);
      var change := CheckBoundary(view);
      if change {
        position.Add(velocity);
      }
    }

    /** draw() without the canvas calls: the three rules, then update. */
    method Draw(sqrt: real -> real, view: Viewport)
      requires IsSqrt(sqrt) && OwnVectorsDistinct() && AccelerationUnseen() && 3 <= properties.Length
      requires StepDefined(sqrt, State(), View())
      modifies position, velocity, acceleration
      ensures State() == Step(sqrt, view, properties[..], old(State()), old(View()))
    {
      ghost var seen := View();
      Alignment(sqrt);
      assert View() == seen;
      Cohesion(sqrt);
      assert View() == seen;
      Separation(sqrt);
      Update(sqrt, view);
    }
  }
}
