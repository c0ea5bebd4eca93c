# Planets: a Dafny model of the gravity sandbox core

The program is a small N-body toy. Circular bodies attract one another and
merge when they overlap. The user launches new bodies with the mouse. This
project models the exact, sequential logic of `main.py` and proves properties
of it:

- **Colour and visibility helpers.** `hsv_to_rgb` is the six-sector HSV to RGB
  conversion with `int()` truncation (`Colour`). `is_rectangle_on_screen`, the
  rejection test that guards drawing, is in `Screen`.
- **Size bookkeeping of a body** (`Shape`). The mass is
  `density * 4/3 * pi * radius^3`. The constructor picks which of radius,
  density and mass fix the others. The two formulas it may use can raise, and
  the model keeps those error paths as a `Result`.
- **Bodies and the space system** (`Simulation`). These are classes whose
  fields change in place. `Body.ApplyGravityAcceleration` has three outcomes:
  a body of mass 0 does nothing; a body that overlaps nothing only changes its
  own velocity; otherwise it merges with the first overlapping body and
  returns. `SpaceSystem` holds a `set<Body>` with insertion and deletion.
  `Tick` walks a snapshot of that set.
- **Launch controller** (`Controller`). This is a state machine around the
  pending `bodyToLaunch`.

Floating point is modelled by `real`. The value of pi is the float64 `np.pi`,
written as an exact rational. The model cannot compute three things exactly:
the cube root `x ** (1/3)`, the norm `np.linalg.norm` and the gravitational
acceleration. They are fields of an `Ops` value passed to the operations. The
only fact assumed about them is `ExactCubeRoot`: on a non-negative argument
the cube root is non-negative and cubes back to the argument. The colour
chosen by `random`, the mouse position and the ALT modifier are also
arguments.

Bodies satisfy `Body.Valid()`: the radius is at least 0 and the density is
greater than 0. Every body the program creates satisfies it: the defaults,
the wheel floor of 1, the mass setter and merges. The invariant is what keeps
a merge away from division by zero.

Python iterates a set in an order it does not specify. The model picks the
next element with `:|`, so every proof holds for any iteration order.

Some behaviours of `main.py` are easy to miss. The model follows the code:

- Supplying radius, density and mass together does not raise. The mass is
  ignored (`InitialShapeIgnoresMass`).
- `tick` calls gravity and then `move` for each body in turn. It does not run
  a whole gravity pass followed by a move pass. It also moves bodies that an
  earlier merge in the same tick has removed.
- A body of the snapshot that was merged away still applies gravity against
  the live set, so it can merge a second time. `ApplyGravityAcceleration`
  does not require `this` to be in the live set. The second entry under
  "## Findings" follows this through: the second merge counts the body's mass
  twice.
- The merged body starts at rest.
- Its position is `p1 + (p2 - p1) * (1 - mp) / 2`. That is halfway between the
  first body and the centre of mass, not the centre of mass itself.

## Model

| member | source | states |
|---|---|---|
| `Colour.Trunc` | main.py:12 | Python's `int()` truncates toward zero. For x >= 0 the result is the floor of x. For x < 0 it is the ceiling. |
| `Colour.HsvToRgb` | main.py:7-9 | With saturation 0, all three channels equal `int(v*255)`, whatever the hue. |
| `Colour.SplitInRange` | main.py:11-16 | For h in [0,360] and s, v in [0,1], the sector index is 0..6, and p, q and t each lie between 0 and v. |
| `Colour.SectorInRange` | main.py:18-31 | If p, q, t lie in [0,v] with v <= 1, every sector gives channels in 0..255, and the largest channel is `int(v*255)`, because each sector uses v once. |
| `Colour.HsvToRgbInRange` | main.py:7-31 | For h in [0,360] and s, v in [0,1], every channel is in 0..255 and the largest one is `int(v*255)`. |
| `Colour.Hue360TakesFinalSector` | main.py:11-29 | A hue of exactly 360 gives sector index 6, so it falls to the final `else` sector and yields (v, p, v). |
| `Colour.Hue360IsNotHue0` | main.py:18-29 | As written, h=360 with s=v=1 gives (255,0,255), while h=0 gives (255,0,0). |
| `Colour.HsvToRgbCircular` | main.py:7-31 | The conversion with the sector index taken mod 6. No contract of its own; see `Colour.CircularAgreesBelow360`, `Colour.CircularHue360IsHue0` and `Colour.CircularInRange`. |
| `Colour.CircularAgreesBelow360` | main.py:7-31 | Choosing the sector by i mod 6 changes nothing for hues in [0,360). |
| `Colour.CircularHue360IsHue0` | main.py:18-29 | With the sector taken mod 6, hue 360 is the same colour as hue 0. |
| `Colour.CircularInRange` | main.py:7-31 | The corrected conversion keeps the 0..255 range and the largest-channel property on [0,360]. |
| `Screen.IsRectangleOnScreen` | main.py:33-45 | The four rejection tests, in the source's order. No contract of its own; see `Screen.OnScreenIffSharesPoint`. |
| `Screen.OnScreenIffSharesPoint` | main.py:33-45 | For a rectangle given by its lower and upper corner, the test is true exactly when the rectangle shares a point with the closed screen [0,w] x [0,h]. So a rectangle that straddles an edge, or touches 0 or the width/height, is on screen. |
| `Shape.MassOf` | main.py:179-181 | The `mass` getter's formula. No contract of its own; see `Shape.MassOfNonNegative`, `Shape.RadiusForOfMass` and `Shape.DensityForOfMass`. |
| `Shape.RadiusFor` | main.py:116 | The radius formula, also used by the setter at main.py:186, with its two ways to raise. No contract of its own; see `Shape.RadiusForRoundTrip` and `Shape.RadiusForOfMass`. |
| `Shape.DensityFor` | main.py:118 | The density formula with its division by zero. No contract of its own; see `Shape.DensityForRoundTrip` and `Shape.DensityForOfMass`. |
| `Shape.InitialShape` | main.py:115-121 | The constructor's three-way choice. No contract of its own; see `Shape.InitialShapeHonoursMass`, `Shape.InitialShapeIgnoresMass` and `Shape.InitialShapeFails`. |
| `Shape.MassOfNonNegative` | main.py:179-181 | With radius >= 0 and density >= 0 the mass is >= 0. It is 0 exactly when the radius or the density is 0. |
| `Shape.RadiusForRoundTrip` | main.py:116 | `(m*3/(d*4*pi))**(1/3)` fails with division by zero exactly when d = 0, and gives a complex root exactly when m and d have opposite signs. Otherwise the radius is >= 0 and, with density d, gives back mass m. |
| `Shape.DensityForRoundTrip` | main.py:118 | `m/((4/3)*pi*r**3)` fails exactly when r = 0. Otherwise the density, with radius r, gives back mass m. |
| `Shape.InitialShapeHonoursMass` | main.py:115-118 | Given mass with exactly one of radius and density, the constructor keeps the argument supplied and the body has exactly that mass. |
| `Shape.RadiusForOfMass` | main.py:179-186 | The getter/setter round trip starting from the radius: for radius r >= 0 and density d > 0, the setter's radius formula applied to the mass of (r, d) gives back r. So assigning a body its own mass leaves it unchanged. |
| `Shape.DensityForOfMass` | main.py:118 | For a radius r other than 0, the density formula applied to the mass of (r, d) gives back d. |
| `Shape.InitialShapeIgnoresMass` | main.py:114-121 | Without a mass, or when radius and density are both given or both missing, the mass is ignored. This includes all three given, which raises nothing, and the radius-only call of main.py:211. Missing values default to radius 10 and density 1. |
| `Shape.InitialShapeFails` | main.py:113-123 | The constructor raises in exactly two cases: density-and-mass with a zero density or a negative ratio, and radius-and-mass with a zero radius. |
| `Merge.MassProportion` | main.py:144-145 | `self.mass / total_mass` lies in (0,1], and times the total it gives back the first mass. |
| `Merge.Blend` | main.py:163-165 | The weighted average used for the merged density and for each colour channel. No contract of its own; see `Merge.BlendBetween`. |
| `Merge.MergedColor` | main.py:163-164 | The blended colour, each channel truncated by `astype(int)`. No contract of its own; see `Merge.MergedColorBetween`. |
| `Merge.MergedPosition` | main.py:166 | The merged body's position. No contract of its own; see `Merge.MergedPositionHalfwayToCentre`. |
| `Merge.MergedPositionHalfwayToCentre` | main.py:166 | The merged body is placed halfway between the first body and the centre of mass `mp*p1 + (1-mp)*p2`. It is at the centre of mass only when mp = 1 or the two positions coincide. |
| `Merge.BlendBetween` | main.py:163-165 | A weighted average with weight in [0,1] lies between its two operands. Applied to the densities, the merged density lies between the two densities. |
| `Merge.TruncBlendBetween` | main.py:163-164 | Truncating a weighted average of two integers stays between them. |
| `Merge.MergedColorBetween` | main.py:163-164 | Each merged colour channel lies between the two bodies' channels. |
| `Simulation.Body.Mass` | main.py:179-181 | The `mass` property is >= 0 for a valid body and is 0 exactly when the radius is 0. |
| `Simulation.Body.constructor` | main.py:113-125 | The new body takes radius and density from the three-way choice, and colour, velocity and position from the arguments. |
| `Simulation.Body.Move` | main.py:127-128 | The position advances by `velocity * dt * 60` and nothing else changes. |
| `Simulation.Body.SetMass` | main.py:183-186 | Only the radius changes, so the density stays fixed. Afterwards the mass is `max(m, 0)`, and a negative or zero mass gives radius 0. Assigning the current mass leaves the radius as it was. |
| `Simulation.Body.IsDrawn` | main.py:173-176 | `draw` paints the body exactly when its bounding square shares a point with the screen. |
| `Simulation.Body.MergeWith` | main.py:161-170 | The live set becomes S minus {self, other} plus {new}, with a fresh body. The new body's mass is the sum of the two masses; density, colour and position are weighted by self's mass share; velocity is (0,0). |
| `Simulation.Body.AccelerateUntilOverlap` | main.py:134-171 | The velocity grows by the sum of the accelerations of the bodies passed, in the order passed. Those bodies are distinct members of `others` that do not overlap this one. With no hit, every member was passed. A hit is a member that overlaps and was not passed. |
| `Simulation.Body.ApplyGravityAcceleration` | main.py:130-171 | Mass 0 changes nothing. Otherwise the velocity grows by the accelerations of the bodies passed, each distinct, live and not overlapping. Without a merge every other live body was passed and the set is unchanged. With a merge, exactly one overlapping body not yet passed is merged and the call returns. |
| `Simulation.SpaceSystem.constructor` | main.py:189-192 | The set holds exactly the bodies given. |
| `Simulation.SpaceSystem.AddBody` | main.py:200-202 | The set becomes the old set plus every argument. This is idempotent. |
| `Simulation.SpaceSystem.RemoveBody` | main.py:204-206 | The set becomes the old set minus every argument. Removing an absent body changes nothing. |
| `Simulation.SpaceSystem.Advance` | main.py:197-198 | One snapshot body applies gravity and then moves with its new velocity. From its position before the step, the velocity grows by the summed accelerations of the bodies it passed. The live set is unchanged when there is no merge, or loses the body and the one it overlapped and gains the merged body. Bodies this step adds are fresh and at rest. |
| `Simulation.SumMassMerge` | main.py:162-168 | Replacing two bodies by one changes the total mass of the set by the new body's mass less the masses of those of the two that were in the set. |
| `Simulation.SpaceSystem.TickStep` | main.py:196-198 | One step of `tick`. The body moves by its new velocity and keeps its velocity when its mass is 0. Added bodies are fresh and at rest. For a live body the total mass of the live set is unchanged. For a body already merged away it is unchanged or grows by that body's mass. |
| `Simulation.SpaceSystem.Tick` | main.py:194-198 | Only snapshot bodies change. Each one is moved exactly once, with its post-gravity velocity, including bodies merged away earlier in the tick. Radius, density and colour stay. A snapshot body of mass 0 keeps its velocity. Bodies born during the tick are fresh and at rest, so they are neither accelerated nor moved. An empty system stays empty. The total mass of the live set never decreases, but it can grow. |
| `Simulation.SpaceSystem.TickLiveOnly` | main.py:194-198 | `tick` with the step skipped for a body no longer in the live set. The total mass of the live set is the same after the tick as before. Radius, density and colour stay. A snapshot body still live at the end has moved once. Bodies born during the tick are fresh and at rest. The live set holds only snapshot bodies and bodies born during the tick. An empty system stays empty. |
| `TickMerges.AdvanceAgainstOne` | main.py:130-198 | A step of a body of non-zero mass whose only other live body overlaps it merges the two, whether or not the body itself is still live. One body is left, with the summed mass, at the merged position computed from the body's position before the step. |
| `TickMerges.DoubleMergeAsWritten` | main.py:194-198 | The steps of `tick` as written on two bodies of radius 1 and density 1 that overlap, where the second also overlaps the body the first merge creates. One body is left, and the total mass is three units where the two had two. |
| `TickMerges.UnitBodiesTickLiveOnly` | main.py:194-198 | `TickLiveOnly` on the same two bodies, at any positions and in any order, leaves the total mass at two units. |
| `TickMerges.TwoBodyFirstStep` | main.py:130-198 | The first step of a tick on two overlapping bodies of non-zero mass, in either order. One body is left. It is new, its mass is the sum of the two, and it is the merger of the first body with the second. The second body is no longer live. |
| `Controller.LaunchVelocity` | main.py:87 | The launch velocity is `(position - mouse) * 0.1`. Scaled back by 10 from the mouse, it reaches the body. |
| `Controller.WheelStep` | main.py:94-96 | `max(x + y, 1)` is at least 1 and at least x + y, and equals x + y when that exceeds 1. |
| `Controller.Game.constructor` | main.py:57-58 | The game starts with an empty system and no pending body. |
| `Controller.Game.HandleMouseButtonDown` | main.py:81-83 | When nothing is pending, a fresh body appears at the mouse, at rest, with radius 10 and density 1. Otherwise the pending body stays. |
| `Controller.Game.HandleMouseButtonUp` | main.py:85-89 | A pending body gets the launch velocity, joins the system, and the slot clears. Its colour, radius, density and position stay. With nothing pending, nothing changes. |
| `Controller.Game.HandleMousewheel` | main.py:91-96 | With a pending body, ALT sets density to `max(density + y, 1)` and leaves the radius alone. Without ALT it sets radius to `max(radius + y, 1)` and leaves the density alone. The colour stays in both cases. With nothing pending, nothing changes. |

## Findings

| source | as written | input that shows it | evidently intended | confidence | as-written member | corrected member |
|---|---|---|---|---|---|---|
| main.py:11-29 | A hue of 360 gives `i = 6`, which falls to the final `else` sector and yields (v, p, q) with q = v. | h=360, s=1, v=1 gives (255, 0, 255), magenta. h=0 gives (255, 0, 0), red. `random.randint(0, 360)` on main.py:114 draws 360. | Hue is circular, so 360 degrees should be red like 0 degrees. For example, choose the sector by `i % 6`. | high; not executed | `Colour.Hue360IsNotHue0` | `Colour.CircularHue360IsHue0` |
| main.py:194-198 | `tick` runs `apply_gravity_acceleration` for every body of the snapshot, including one that an earlier merge of the same tick removed. That body still merges with an overlapping live body, so its mass is counted twice. | Two bodies of radius 1 and density 1, at rest at (0,0) and (1,0). They are 1 apart, so the first merges with the second into a body of mass 2 units at (0.25,0). The second body is 0.75 from it, so it merges again. The result is one body of mass 3 units. | A merged-away body is skipped, so a tick keeps the total mass and the two overlapping bodies become one body of mass m1 + m2. For example, test `if body in self.bodies` in the loop. | medium; not executed | `TickMerges.DoubleMergeAsWritten` | `Simulation.SpaceSystem.TickLiveOnly` |

## Left out

- Rendering and event plumbing are not modelled. That covers the pygame parts of `Game.__init__`, `run`, `update_screen` and the `pg.draw.circle` call in `draw`, which is display, clock and event I/O. Only the guard of `draw` is modelled (`Body.IsDrawn`).
- The random default colour (main.py:114) is an argument. The conversion itself is modelled as `HsvToRgb`.
- The gravity numerics are outside the model: the norm, direction normalisation, the `0.1*m1*m2/d^2` force and float64 rounding (main.py:137-140). Distance and acceleration are fields of `Ops`. The model works in exact reals, so it does not capture rounding.
- `ExactCubeRoot`: the float cube root is not exact. The mass round trips of `Shape` are exact only under this assumption.
- At zero distance the source divides by zero (main.py:138), producing nan in numpy. The merged position is modelled as `p1 + (p2 - p1) * (1 - mp) / 2`, which is equal to the source's expression whenever the distance is not zero.
- The collision branches 0 and 1 (main.py:147-160) are dead, because the policy is fixed to 2 on main.py:141.
- `__repr__` and the `__main__` bootstrap are not modelled.
- Only the merge policy is live, and bodies are created only by the mouse handlers, by merges and by the two bodies of the `__main__` bootstrap (main.py:209-213).
- `Simulation.Body.SetMass`: it requires a valid body (density > 0). With density 0 the source raises ZeroDivisionError. With density < 0 and a positive mass the source stores a complex radius, which the model does not represent.
- `Simulation.Body.ApplyGravityAcceleration`: it requires every body to be valid. The program only creates valid bodies. Bodies with a negative radius or density could make the total mass 0, so that the source raises ZeroDivisionError; the model excludes that case.
- `Simulation.Body.constructor`: it requires the three-way choice not to fail. The failures are covered on the pure level by `Shape.InitialShapeFails`.
- `Simulation.Body.Mass`: the contract says nothing about invalid bodies, where the mass may be negative.
- `Simulation.Body.IsDrawn`: the contract characterises the guard only for a non-negative radius and screen size.
- `Simulation.SpaceSystem.Tick`: the contract does not say which bodies end up in the set. That depends on the order of iteration and on the opaque distances. For a snapshot body of non-zero mass it does not state the velocity either. That is stated per step by `Advance`, against the live set the body meets at its turn.
- `Simulation.SpaceSystem.TickLiveOnly`: as for `Tick`, the contract does not say which bodies end up in the set or what their velocities are. It does state that the total mass is kept. `TickMerges.TwoBodyFirstStep` states the outcome of the first step for two overlapping bodies.
- `TickMerges.DoubleMergeAsWritten`: it runs the two steps of `tick` one after the other rather than calling `Tick`. The contract of `Tick` leaves the visiting order open, so it cannot fix which body merges first.
- `Simulation.Body.AccelerateUntilOverlap`: the source adds each acceleration to `self.velocity` at once. The model keeps the running sum in a local and stores it when the loop ends. Nothing in the loop reads the velocity, so the end state is the same.
