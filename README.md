# Boids flocking simulation, modelled in Dafny

This project models the core of a browser flocking ("boids") animation. It covers two source files:

- `vector.js`: a mutable 2-D vector class, `Vector_2D`.
- `sprite.js`: the `Boid` class, whose `draw()` applies three steering rules and then integrates, and the `Flock` class, which owns the boids and the three slider weights.

## Rules of the model

- Each boid scans its `worldview`. That is the whole flock array, shared by reference.
- The neighbours of a boid are the other boids strictly inside its visual radius (50). Each of the three rules computes one steering vector from all of its neighbours together, and adds it, weighted by the rule's slider, to the acceleration:
  - alignment steers towards the neighbours' average velocity;
  - cohesion steers towards the neighbours' average position;
  - separation steers away from the neighbours: each neighbour adds a unit vector pointing away from it, whatever its distance, and the rule steers along their average.
- `update()` then:
  - moves the boid by its velocity;
  - adds the acceleration to the velocity and limits the result to `maxVelocity` (6);
  - resets the acceleration;
  - reflects the velocity at the window edges. After a reflection it moves the boid a second time.
- `drawFlock()` draws the boids one after another in array order. Boid k therefore sees boids 0..k-1 already moved in this frame and the rest not yet moved.

## Modules and files

| module | file | what it holds |
|---|---|---|
| `RealMath` | `real_math.dfy` | Multiplication and division as functions (`Mul`, `Sq`, `Div`), `Min` (`Math.min`), `Abs`, and facts about them. `IsSqrt` describes `Math.sqrt`. |
| `Vec2Math` | `vec2.dfy` | `Vec2` values and the value functions behind every vector method: `Plus`, `Minus`, `Scaled`, `Divided`, `Magnitude`, `UnitOf`, `WithMagnitude`, `Limited`. |
| `Vectors` | `vector.dfy` | `class Vector`, i.e. `Vector_2D`. Each method updates its fields in place and is specified by a `Vec2Math` function. |
| `Steering` | `steering.dfy` | What a boid sees (`Seen`), the neighbour test, and each rule's count, sum and steering vector (`Steer`). |
| `Motion` | `motion.dfy` | One boid as a value (`BoidState`): one rule (`Steered`), `update()` (`Integrated`), `checkBoundary` (`Bounced`), and one `draw()` (`Step`). |
| `Boids` | `boid.dfy` | `class Boid`. Its three vectors are updated in place. It holds `worldview` and `properties` array references. |
| `Simulation` | `simulation.dfy` | One frame of the flock as values: `Tick`, the in-order sweep of `drawFlock()`. |
| `Flocks` | `flock.dfy` | `class Flock`: `createFlock`, `fillReferenceArrays`, `drawFlock` and the three slider setters. |

## How the source is represented

- `Math.sqrt` is a parameter `sqrt: real -> real` of every member that needs it. `IsSqrt(sqrt)` says what is assumed of it: it returns the non-negative root of a non-negative argument.
- Floating point is modelled by `real`.
- In the source, a division by zero silently produces NaN. Each such division becomes a precondition:
  - `Vector.Divide` requires a nonzero divisor;
  - `GetUnitVector` and `SetMagnitude` require a nonzero magnitude;
  - in separation, every counted neighbour must not sit at the boid's own position (`ContributionsDefined`);
  - the averaged target whose magnitude is set to `maxVelocity` must not be zero (`SteerDefined`).
- `Simulation.Tick` returns `None` for a frame in which some boid would divide by zero.

## Model

| member | source | states |
|---|---|---|
| Vectors.Vector.constructor | projects/cs-485/assets/js/vector.js:8-11 | The new vector holds exactly the given components. |
| Vectors.Vector.GetMagnitude | projects/cs-485/assets/js/vector.js:55-57 | The magnitude is non-negative. Its square is x² + y². It is zero exactly for the zero vector. |
| Vectors.Vector.GetUnitVector | projects/cs-485/assets/js/vector.js:37-43 | Returns a fresh vector equal to this one divided by its magnitude (`UnitOf`). The receiver is not changed. |
| Vectors.Vector.SetMagnitude | projects/cs-485/assets/js/vector.js:73-77 | The vector becomes its unit vector times the new magnitude (`WithMagnitude`). |
| Vectors.Vector.LimitVector | projects/cs-485/assets/js/vector.js:16-32 | The vector becomes `Limited(old, max)`: zero stays zero, anything else becomes its unit vector times min(magnitude, max). |
| Vectors.Vector.Add | projects/cs-485/assets/js/vector.js:82-85 | The components become the old sum with the argument's old components. The argument is unchanged unless it is the receiver. |
| Vectors.Vector.Sub | projects/cs-485/assets/js/vector.js:90-93 | The components become the old difference with the argument's old components. The argument is unchanged unless it is the receiver. |
| Vectors.Vector.Divide | projects/cs-485/assets/js/vector.js:98-101 | Both components are divided by a nonzero number. |
| Vectors.Vector.Multiply | projects/cs-485/assets/js/vector.js:106-109 | Both components are multiplied by the number. |
| Vectors.Vector.SetComponents | projects/cs-485/assets/js/vector.js:114-117 | The components become the given numbers. |
| Vectors.Vector.SetVector | projects/cs-485/assets/js/vector.js:122-125 | The receiver becomes a copy of the argument. The argument is unchanged. |
| Vec2Math.AddThenSubRestores | projects/cs-485/assets/js/vector.js:82-93 | `sub` undoes `add` of the same vector, and `add` undoes `sub`. |
| Vec2Math.MultiplyByZero | projects/cs-485/assets/js/vector.js:106-109 | `multiply(0)` gives the zero vector whatever the components were. |
| Vec2Math.ScaledTwice | projects/cs-485/assets/js/vector.js:106-109 | Multiplying by c and then by d is multiplying by c·d. |
| Vec2Math.DividedIsScaled | projects/cs-485/assets/js/vector.js:98-101 | Dividing by c is multiplying by 1/c. |
| Vec2Math.MagnitudeFacts | projects/cs-485/assets/js/vector.js:55-57 | The magnitude is non-negative. Its square is x·x + y·y. It is zero exactly for the zero vector. |
| Vec2Math.MagnitudeOfScaled | projects/cs-485/assets/js/vector.js:106-109 | Multiplying by c multiplies the magnitude by \|c\|. |
| Vec2Math.UnitVectorFacts | projects/cs-485/assets/js/vector.js:37-43 | For a nonzero vector, the unit vector is a positive multiple of it (same direction) and has magnitude 1. |
| Vec2Math.WithMagnitudeFacts | projects/cs-485/assets/js/vector.js:73-77 | For a nonzero vector and m ≥ 0, the result is a non-negative multiple of the vector (direction kept) with magnitude exactly m. |
| Vec2Math.LimitOfZero | projects/cs-485/assets/js/vector.js:21-29 | The zero vector is left at zero. |
| Vec2Math.LimitIsShortenedCopy | projects/cs-485/assets/js/vector.js:16-32 | For max ≥ 0, the magnitude becomes min(\|v\|, max). A nonzero vector becomes a non-negative multiple of itself, and a positive multiple when max > 0. |
| Vec2Math.LimitIdentityWhenShort | projects/cs-485/assets/js/vector.js:16-32 | A vector no longer than max is left exactly as it is. |
| Vec2Math.LimitBounded | projects/cs-485/assets/js/vector.js:16-32 | For max ≥ 0, the result is never longer than max. |
| Vec2Math.LimitIdempotent | projects/cs-485/assets/js/vector.js:16-32 | For max ≥ 0, limiting twice is the same as limiting once. |
| Steering.DistanceFacts | projects/cs-485/assets/js/sprite.js:310-315 | The distance between two positions is non-negative and symmetric, and it is zero exactly when the positions coincide. |
| Steering.InRangeSymmetric | projects/cs-485/assets/js/sprite.js:239-241 | Two distinct boids are each inside the other's vis_rad, or neither is. |
| Steering.SeparationContributionIsUnit | projects/cs-485/assets/js/sprite.js:241-246 | Each counted neighbour adds to separation's sum a positive multiple of (here − there) whose magnitude is exactly 1, whatever the distance. |
| Steering.SeparationSymmetric | projects/cs-485/assets/js/sprite.js:241-246 | For two boids at different positions, each one's separation contribution from the other is the negation of the other's: opposite directions along the line joining them. |
| Steering.InverseSeparationWeighted | projects/cs-485/assets/js/sprite.js:242-244 | The inverse-distance weighting the comment at line 244 describes: a positive multiple of (here − there) with magnitude 1/distance. |
| Steering.CountIsNeighbours | projects/cs-485/assets/js/sprite.js:165-173 | A rule's `total` equals the number of worldview indices i with `worldview[i] != this` and distance < vis_rad. |
| Steering.CountZero | projects/cs-485/assets/js/sprite.js:165-173 | With no other boid strictly inside vis_rad, `total` is 0. |
| Steering.SumOfNone | projects/cs-485/assets/js/sprite.js:161-173 | When `total` is 0, the loop leaves `steering` at the zero vector. |
| Steering.NoNeighboursNoSteer | projects/cs-485/assets/js/sprite.js:160-188 | With no other boid strictly inside vis_rad, each rule is defined and its steering vector is zero. |
| Steering.SteerBounded | projects/cs-485/assets/js/sprite.js:175-183 | Each rule's steering vector is at most maxAcceleration long. |
| Motion.BounceFacts | projects/cs-485/assets/js/sprite.js:270-297 | `checkBoundary` negates velocity.x exactly when x + w > 0.97·width or x < 0, and velocity.y likewise. It never changes the speed. Reflecting twice restores the velocity. |
| Motion.UpdateFacts | projects/cs-485/assets/js/sprite.js:142-153 | After `update()`: the acceleration is zero; the speed is min(\|v + a\|, maxVelocity) ≤ maxVelocity; the position moved by the old velocity, and by the new velocity too after a reflection; the size is kept. |
| Motion.LeftEdgeBounceReturnsToStart | projects/cs-485/assets/js/sprite.js:142-153 | A boid within the speed cap, with no acceleration and a horizontal velocity that carries it past the left edge, ends `update()` with its velocity reflected but back at its starting position: at x = −1 with velocity.x = −3 it ends at x = −1 with velocity.x = 3, still off-screen, rather than pushed back on-screen within the frame. |
| Motion.UpdateKeepsSlowVelocity | projects/cs-485/assets/js/sprite.js:142-153 | A boid within the speed cap, with no acceleration and not crossing an edge, keeps its velocity and moves by it. |
| Motion.SteeredFacts | projects/cs-485/assets/js/sprite.js:185-187 | A rule changes only the acceleration, by at most \|weight\|·maxAcceleration. With nobody in range it changes nothing. |
| Motion.StepFacts | projects/cs-485/assets/js/sprite.js:125-131 | After `draw()`: zero acceleration, speed ≤ maxVelocity, size kept. The velocity is the old velocity plus the old acceleration plus the three weighted steering vectors, limited and possibly reflected. |
| Motion.StepBounds | projects/cs-485/assets/js/sprite.js:125-131 | After `draw()`: zero acceleration, speed ≤ maxVelocity, size kept. |
| Motion.AloneSteersNowhere | projects/cs-485/assets/js/sprite.js:175-187 | A rule applied with no other boid in range leaves the boid as it was, whatever the slider weight. |
| Motion.AloneMovesStraight | projects/cs-485/assets/js/sprite.js:125-131 | A boid alone in its radius, with no acceleration, within the speed cap and not crossing an edge, simply moves by its velocity. |
| Boids.Boid.constructor | projects/cs-485/assets/js/sprite.js:75-97 | The new boid has the given position, velocity and size, a zero acceleration, three fresh distinct vectors, and empty worldview and properties. |
| Boids.Boid.GetDistance | projects/cs-485/assets/js/sprite.js:310-315 | The distance to `worldview[idx]` is non-negative, and zero exactly when the two positions coincide. |
| Boids.Boid.DiffVectors | projects/cs-485/assets/js/sprite.js:329-334 | Returns a fresh vector equal to vector1 − vector2. |
| Boids.Boid.Visit | projects/cs-485/assets/js/sprite.js:238-250 | One loop pass counts entry i exactly when it is another boid strictly inside vis_rad. Only then does it add that entry's contribution (velocity, position, or difference over distance). The worldview is not changed. |
| Boids.Boid.Gather | projects/cs-485/assets/js/sprite.js:200-209 | The loop ends with `total` = `Count` and `steering` = `Sum` over the worldview as it was read. |
| Boids.Boid.SteeringFor | projects/cs-485/assets/js/sprite.js:211-221 | The loop and the `total > 0` block compute the rule's `Steer`. |
| Boids.Boid.ApplyRule | projects/cs-485/assets/js/sprite.js:223-225 | The state becomes `Steered`: the acceleration grows by the steering vector times `properties[k]`, and nothing else changes. |
| Boids.Boid.Alignment | projects/cs-485/assets/js/sprite.js:160-188 | As `ApplyRule` for alignment, weighted by `properties[0]`. |
| Boids.Boid.Cohesion | projects/cs-485/assets/js/sprite.js:195-226 | As `ApplyRule` for cohesion, weighted by `properties[1]`. |
| Boids.Boid.Separation | projects/cs-485/assets/js/sprite.js:232-265 | As `ApplyRule` for separation, weighted by `properties[2]`. |
| Boids.Boid.CheckBoundary | projects/cs-485/assets/js/sprite.js:270-297 | The velocity becomes `Bounced`. The result is true exactly when an edge on either axis was crossed. |
| Boids.Boid.Update | projects/cs-485/assets/js/sprite.js:142-153 | The state becomes `Integrated` of the old state. |
| Boids.Boid.Draw | projects/cs-485/assets/js/sprite.js:119-136 | Alignment, cohesion, separation, then update, all against the same worldview. The state becomes `Step` of the old state. |
| Simulation.TickDefinedPrefix | projects/cs-485/assets/js/sprite.js:358-362 | A frame in which all of the first k boids can be drawn can also draw every shorter prefix. |
| Simulation.TickLeavesRest | projects/cs-485/assets/js/sprite.js:358-362 | Boids not yet drawn are untouched. |
| Simulation.TickKeepsDrawn | projects/cs-485/assets/js/sprite.js:358-362 | A drawn boid is not changed again by the boids drawn after it. |
| Simulation.BoidStepsAtItsTurn | projects/cs-485/assets/js/sprite.js:358-362 | Each boid is drawn exactly once, at its index. It steps from its starting state, seeing the earlier boids in their final state for the frame and the later boids in their starting state. |
| Simulation.TickBounds | projects/cs-485/assets/js/sprite.js:358-362 | After the first k boids are drawn, each of them has zero acceleration and speed ≤ maxVelocity, and every boid keeps its size. |
| Flocks.NewBoids | projects/cs-485/assets/js/sprite.js:369-371 | One fresh boid per start, in order, each in its start state. The boids own distinct vectors, and no two boids share a vector. |
| Flocks.Flock.constructor | projects/cs-485/assets/js/sprite.js:348-353 | An empty flock, flock_size 200, and the inputs [0, 0, 0]. |
| Flocks.Flock.ViewIsViewAt | projects/cs-485/assets/js/sprite.js:380-385 | Because every boid's worldview is the flock array itself, boid i sees exactly the flock's states, with entry i (and only it) marked as itself. |
| Flocks.Flock.DrawBoid | projects/cs-485/assets/js/sprite.js:359-361 | Drawing boid i takes the flock from the frame with i boids drawn to the frame with i + 1. Only boid i changes. |
| Flocks.Flock.DrawFlock | projects/cs-485/assets/js/sprite.js:358-362 | The flock ends in the frame `Tick` describes, with every boid drawn once in ascending order, and the flock stays valid. |
| Flocks.Flock.CreateFlock | projects/cs-485/assets/js/sprite.js:368-374 | Afterwards there are flock_size fresh boids in their start states. The flock is valid: it is every boid's worldview, the inputs are every boid's properties, and no two boids share a vector. |
| Flocks.Flock.FillReferenceArrays | projects/cs-485/assets/js/sprite.js:380-385 | Each of the first flock_size boids gets the flock array as its worldview and the inputs array as its properties. These are references, not copies. |
| Flocks.Flock.GetAlignment | projects/cs-485/assets/js/sprite.js:390-392 | `inputs[0]` becomes the value. The other slots are unchanged. |
| Flocks.Flock.GetCohesion | projects/cs-485/assets/js/sprite.js:397-399 | `inputs[1]` becomes the value. The other slots are unchanged. |
| Flocks.Flock.GetSeparation | projects/cs-485/assets/js/sprite.js:404-406 | `inputs[2]` becomes the value. The other slots are unchanged. |

## Left out

- Drawing is left out: canvases, image data, `drawFrame`, `get_bk_img`/`put_bk_img`, `getBufferImage` and the `Sprite` base class. They affect only pixels, not the simulation state.
- Randomness and the image size are left out:
  - the random start position and velocity in the `Boid` constructor, including `setMagnitude(random)` followed by `setDirection(random)`, become explicit arguments (`Spawn`);
  - `scaleHeightWidth` (image size × 0.05) becomes the `width`/`height` arguments.
- `getDirection` and `setDirection` are left out. They use trigonometry and appear only in the random start.
- `window.innerWidth` and `window.innerHeight` are read when the boundary check runs. They are passed in as a `Viewport`.
- `Math.sqrt` is a parameter that satisfies `IsSqrt`. IEEE rounding, NaN and Infinity are not modelled: each division that would produce NaN is a precondition, or a `None` frame in `Tick`.
- The sliders' `.value` is a string, which JavaScript converts to a number in `multiply`. Here the setters take a `real`.
- The `Flock extends Boid` inheritance is left out. A `Flock` is never drawn as a boid, and its inherited vectors are never used.
- Flocks.Flock.CreateFlock: requires an empty flock, which is the only way the page calls it. A second call would push onto the same array object that the boids already share, and a fixed-length Dafny array cannot grow in place.
- Flocks.Flock.FillReferenceArrays: says nothing about boids at index flock_size and above. The array may hold the same boid twice, so they may or may not have been reached.
- Vec2Math.LimitIdempotent: stated only for max ≥ 0. For a negative max the source multiplies by a negative minimum and reverses the direction on every call. The source only uses 6 and 1.
- Vec2Math.WithMagnitudeFacts: stated only for m ≥ 0. A negative m gives magnitude |m| in the opposite direction. The source never passes a negative m: it uses maxVelocity (6) in the three rules and a random number between 0 and 2 in the `Boid` constructor.
- Simulation.TickBounds: bounds one boid per call rather than the whole flock at once.

## Findings

| source | as written | input that shows it | evidently intended | confidence | as-written member | corrected member |
|---|---|---|---|---|---|---|
| projects/cs-485/assets/js/sprite.js:242-246 | `difference.divide(distance)` divides (here − there) by its own length, so every neighbour in range adds a unit vector | two neighbours at distances 1 and 49 each add a vector of length 1 | the comment at line 244: the difference made inversely proportional to the distance, so closer neighbours push harder (length 1/distance) | medium, not executed | Steering.SeparationContributionIsUnit | Steering.InverseSeparationWeighted |

`Boids.Boid.Separation`, `Motion.Step` and `Simulation.Tick` keep the contribution as written, because they describe the frames the page actually draws. `Steering.InverseSeparation` states the intended weighting and its property, ready to replace `Contribution` for separation if the code is corrected.
