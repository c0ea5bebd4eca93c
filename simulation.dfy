/** `Game.Body` and `Game.SpaceSystem`: mutable bodies in a mutable set, the
    per-body gravity pass with the merge collision policy, and the tick. */
module Simulation {
  import opened Wrappers
  import opened Geometry
  import opened Shape
  import opened Merge
  import Colour
  import Screen

  /** The displacement `velocity * dt * 60` of one move. */
  function Step(velocity: Vec, dt: real): Vec {
    velocity.Scale(dt).Scale(60.0)
  }

  /** The two bodies of a merge: the one absorbed besides `self`, and the one created. */
  datatype Merger = Merger(other: Body, created: Body)

  class Body {
    var color: Colour.Rgb
    var radius: real
    var density: real
    var velocity: Vec
    var position: Vec

    /** Every body the program creates has a non-negative radius and a
        positive density. */
    ghost predicate Valid()
      reads this`radius, this`density
    {
      0.0 <= radius && 0.0 < density
    }

    /** The `mass` property. */
    function Mass(): (m: real)
      reads this`radius, this`density
      ensures 0.0 <= radius && 0.0 <= density ==> 0.0 <= m
      ensures 0.0 <= radius && 0.0 < density ==> (m == 0.0 <==> radius == 0.0)
    {
      if 0.0 <= radius && 0.0 <= density then
        MassOfNonNegative(radius, density);
        MassOf(radius, density)
      else
        MassOf(radius, density)
    }

    /** `Body(color=..., radius=..., density=..., mass=..., velocity=..., position=...)`,
        the random default colour taken as an argument. */
    constructor (color: Colour.Rgb, radius: Option<real>, density: Option<real>, mass: Option<real>,
                 velocity: Vec, position: Vec, ops: Ops)
      requires InitialShape(radius, density, mass, ops).Ok?
      ensures this.radius == InitialShape(radius, density, mass, ops).value.radius
      ensures this.density == InitialShape(radius, density, mass, ops).value.density
      ensures this.color == color && this.velocity == velocity && this.position == position
    {
      var figure := InitialShape(radius, density, mass, ops).value;
      this.color := color;
      this.radius := figure.radius;
      this.density := figure.density;
      this.velocity := velocity;
      this.position := position;
    }

    method Move(dt: real)
      modifies this`position
      ensures position == old(position).Plus(Step(velocity, dt))
    {
      position := position.Plus(Step(velocity, dt));
    }

    /** The `mass` setter: the mass is clamped at zero and the radius
        recomputed with the density held fixed. */
    method SetMass(m: real, ops: Ops)
      requires Valid() && ExactCubeRoot(ops)
      modifies this`radius
      ensures Valid()
      ensures Mass() == if m < 0.0 then 0.0 else m
      ensures m <= 0.0 ==> radius == 0.0
      ensures m == old(Mass()) ==> radius == old(radius)
    {
      var clamped := if m < 0.0 then 0.0 else m;
      RadiusForRoundTrip(clamped, density, ops);
      RadiusForOfMass(radius, density, ops);
      radius := RadiusFor(clamped, density, ops).value;
      MassOfNonNegative(radius, density);
    }

    /** The guard of `draw`: the bounding square of the disc is on the screen. */
    function IsDrawn(width: real, height: real): (r: bool)
      reads this
      ensures 0.0 <= radius && 0.0 <= width && 0.0 <= height ==>
        (r <==> exists p :: Screen.InBox(p, position.Minus(Vec(radius, radius)), position.Plus(Vec(radius, radius))) &&
                            Screen.InBox(p, Zero, Vec(width, height)))
    {
      var pos1 := position.Minus(Vec(radius, radius));
      var pos2 := position.Plus(Vec(radius, radius));
      var onScreen := Screen.IsRectangleOnScreen(pos1, pos2, width, height);
      if 0.0 <= radius && 0.0 <= width && 0.0 <= height then
        Screen.OnScreenIffSharesPoint(pos1, pos2, width, height);
        onScreen
      else
        onScreen
    }

    /** The sum of the accelerations that `others`, in this order, give a body
        of mass `mass` at `pos`. */
    static ghost function TotalAcceleration(ops: Ops, pos: Vec, mass: real, others: seq<Body>, dt: real): Vec
      reads others
    {
      if others == [] then Zero
      else
        var last := others[|others| - 1];
        TotalAcceleration(ops, pos, mass, others[..|others| - 1], dt)
          .Plus(ops.acceleration(pos, mass, last.position, last.Mass(), dt))
    }

    /** One more body adds its acceleration to the sum. */
    static lemma TotalAccelerationSnoc(ops: Ops, pos: Vec, mass: real, others: seq<Body>, body: Body, dt: real)
      ensures TotalAcceleration(ops, pos, mass, others + [body], dt)
        == TotalAcceleration(ops, pos, mass, others, dt).Plus(ops.acceleration(pos, mass, body.position, body.Mass(), dt))
    {
      assert (others + [body])[..|others|] == others;
    }

    /** `distance < (body.radius + self.radius)`, with this body at `from`. */
    ghost predicate Overlaps(ops: Ops, from: Vec, other: Body)
      reads this`radius, other
    {
      ops.distance(from, other.position) < other.radius + radius
    }

    /** What a merge of this body with `other` creates: the summed mass, and
        the density, colour and position weighted by this body's share of the
        mass, at rest, with this body at `from`. */
    ghost predicate MergedInto(other: Body, created: Body, from: Vec)
      reads this`radius, this`density, this`color, other, created
      requires Valid() && other.Valid() && Mass() != 0.0
    {
      var mp := MassProportion(Mass(), other.Mass());
      created.Valid() &&
      created.Mass() == Mass() + other.Mass() &&
      created.density == Blend(mp, density, other.density) &&
      created.color == MergedColor(mp, color, other.color) &&
      created.position == MergedPosition(mp, from, other.position) &&
      created.velocity == Zero
    }

    /** The outcome of a gravity pass of this body, made at `from` against
        the live set `before` and leaving the live set `after`. The bodies of
        `passed` are distinct other members of `before` that do not overlap.
        Without a merge the live set is unchanged and, for a body of non-zero
        mass, every other body was passed. With a merge, `other` is another
        member of `before` that overlaps and was not passed, and the body it
        creates replaces the two. */
    ghost predicate GravityPass(ops: Ops, from: Vec, before: set<Body>, passed: seq<Body>,
                                merger: Option<Merger>, after: set<Body>)
      reads this`radius, this`density, this`color, before, after
    {
      (forall k :: 0 <= k < |passed| ==> passed[k] in before && passed[k] != this && !Overlaps(ops, from, passed[k])) &&
      (forall k, l :: 0 <= k < l < |passed| ==> passed[k] != passed[l]) &&
      (merger.None? ==> after == before) &&
      (merger.None? && Mass() != 0.0 ==> forall b :: b in before && b != this ==> b in passed) &&
      (merger.Some? ==>
        var other, created := merger.value.other, merger.value.created;
        other in before && other != this && other !in passed && Overlaps(ops, from, other) &&
        after == before - {this, other} + {created} &&
        Valid() && other.Valid() && Mass() != 0.0 && MergedInto(other, created, from))
    }

    /** The merge branch of `apply_gravity_acceleration`: both bodies leave the
        live set and the body that replaces them enters it. */
    method MergeWith(system: SpaceSystem, other: Body, ops: Ops) returns (created: Body)
      requires Valid() && other.Valid() && system.Valid() && ExactCubeRoot(ops) && Mass() != 0.0
      modifies system`bodies
      ensures system.Valid() && fresh(created) && MergedInto(other, created, position)
      ensures system.bodies == old(system.bodies) - {this, other} + {created}
    {
      var total := Mass() + other.Mass();
      var mp := MassProportion(Mass(), other.Mass());
      system.RemoveBody([this, other]);
      assert (set b | b in [this, other]) == {this, other};
      var newColor := MergedColor(mp, color, other.color);
      var newDensity := Blend(mp, density, other.density);
      var newPosition := MergedPosition(mp, position, other.position);
      BlendBetween(mp, density, other.density);
      RadiusForRoundTrip(total, newDensity, ops);
      created := new Body(newColor, None, Some(newDensity), Some(total), Zero, newPosition, ops);
      InitialShapeHonoursMass(None, Some(newDensity), Some(total), ops);
      system.AddBody([created]);
      assert (set b | b in [created]) == {created};
    }

    /** The loop of `apply_gravity_acceleration` up to the first overlap: the
        bodies of `others` are visited in some order, each one that does not
        overlap adds its acceleration to this body's velocity (`passed`), and
        the loop stops at the first one that overlaps (`hit`). Nothing in the
        loop reads the velocity, so the sum is kept in `v` and stored once the
        loop ends, with the same result as the per-iteration `+=`. */
    method AccelerateUntilOverlap(others: set<Body>, dt: real, ops: Ops)
      returns (ghost passed: seq<Body>, hit: Body?)
      requires this !in others
      modifies this`velocity
      ensures velocity == old(velocity).Plus(TotalAcceleration(ops, position, Mass(), passed, dt))
      ensures forall k :: 0 <= k < |passed| ==> passed[k] in others && !Overlaps(ops, position, passed[k])
      ensures forall k, l :: 0 <= k < l < |passed| ==> passed[k] != passed[l]
      ensures hit == null ==> forall b :: b in others ==> b in passed
      ensures hit != null ==> hit in others && hit !in passed && Overlaps(ops, position, hit)
    {
      passed, hit := [], null;
      var pos, mass, v := position, Mass(), velocity;
      var rest := others;
      while rest != {} && hit == null
        modifies {}
        invariant rest <= others
        invariant v == old(velocity).Plus(TotalAcceleration(ops, pos, mass, passed, dt))
        invariant forall b :: b in others && b !in rest ==> b in passed
        invariant forall k :: 0 <= k < |passed| ==> passed[k] in others && passed[k] !in rest && !Overlaps(ops, pos, passed[k])
        invariant forall k, l :: 0 <= k < l < |passed| ==> passed[k] != passed[l]
        invariant hit != null ==> hit in rest && Overlaps(ops, pos, hit)
        decreases rest, if hit == null then 1 else 0
      {
        var body :| body in rest;
        var acceleration := ops.acceleration(pos, mass, body.position, body.Mass(), dt);
        if ops.distance(pos, body.position) < body.radius + radius {
          hit := body;
        } else {
          TotalAccelerationSnoc(ops, pos, mass, passed, body, dt);
          v := v.Plus(acceleration);
          passed := passed + [body];
          rest := rest - {body};
        }
      }
      velocity := v;
    }

    /** `apply_gravity_acceleration` with the merge policy. A body of mass 0
        does nothing. Otherwise the other bodies of the live set are visited
        in some order; each one that does not overlap adds its acceleration to
        this body's velocity (`passed`), and the first one that overlaps is
        merged with this body, after which the call returns. */
    method ApplyGravityAcceleration(system: SpaceSystem, dt: real, ops: Ops)
      returns (ghost passed: seq<Body>, ghost merger: Option<Merger>)
      requires Valid() && system.Valid() && ExactCubeRoot(ops)
      modifies this`velocity, system`bodies
      ensures system.Valid()
      ensures Mass() == 0.0 ==> velocity == old(velocity) && system.bodies == old(system.bodies) && merger.None?
      ensures velocity == old(velocity).Plus(TotalAcceleration(ops, position, Mass(), passed, dt))
      ensures GravityPass(ops, position, old(system.bodies), passed, merger, system.bodies)
      ensures merger.Some? ==> fresh(merger.value.created)
    {
      passed, merger := [], None;
      if Mass() == 0.0 {
        return;
      }
      var hit;
      passed, hit := AccelerateUntilOverlap(system.bodies - {this}, dt, ops);
      if hit != null {
        var created := MergeWith(system, hit, ops);
        merger := Some(Merger(hit, created));
      }
    }
  }

  /** Some member of a non-empty set. */
  ghost function Pick(s: set<Body>): (b: Body)
    requires s != {}
    ensures b in s
  {
    var b :| b in s; b
  }

  /** The total mass of a set of bodies. */
  ghost function SumMass(s: set<Body>): real
    reads s`radius, s`density
    decreases s
  {
    if s == {} then 0.0
    else
      var b := Pick(s);
      b.Mass() + SumMass(s - {b})
  }

  /** Any member can be taken out first: the total is its mass plus the
      total of the rest. */
  lemma {:induction false} SumMassRemove(s: set<Body>, b: Body)
    requires b in s
    ensures SumMass(s) == b.Mass() + SumMass(s - {b})
    decreases s
  {
    var p := Pick(s);
    if p != b {
      SumMassRemove(s - {p}, b);
      SumMassRemove(s - {b}, p);
      assert s - {p} - {b} == s - {b} - {p};
    }
  }

  lemma SumMassSingleton(b: Body)
    ensures SumMass({b}) == b.Mass()
  {
    SumMassRemove({b}, b);
    assert {b} - {b} == {};
  }

  /** A merge of `a` with `b` that replaces them by `c` changes the total by
      the mass of `c` less the masses of the live ones among `a` and `b`. */
  lemma SumMassMerge(s: set<Body>, a: Body, b: Body, c: Body)
    requires b in s && a != b && c !in s && c != a
    ensures SumMass(s - {a, b} + {c}) ==
      SumMass(s) - (if a in s then a.Mass() else 0.0) - b.Mass() + c.Mass()
  {
    var t := s - {a};
    if a in s {
      SumMassRemove(s, a);
    } else {
      assert t == s;
    }
    var u := t - {b};
    SumMassRemove(t, b);
    var w := u + {c};
    SumMassRemove(w, c);
    assert w - {c} == u;
    assert s - {a, b} + {c} == w;
  }

  class SpaceSystem {
    var bodies: set<Body>

    ghost predicate Valid()
      reads this, bodies
    {
      forall b :: b in bodies ==> b.Valid()
    }

    /** `SpaceSystem(bodies)`. */
    constructor (initial: seq<Body>)
      requires forall i :: 0 <= i < |initial| ==> initial[i].Valid()
      ensures Valid() && bodies == set b | b in initial
    {
      bodies := set b | b in initial;
    }

    /** `add_body(*bodies)`: set insertion of each argument. */
    method AddBody(added: seq<Body>)
      requires Valid() && forall i :: 0 <= i < |added| ==> added[i].Valid()
      modifies this`bodies
      ensures Valid()
      ensures bodies == old(bodies) + set b | b in added
    {
      var i := 0;
      while i < |added|
        invariant 0 <= i <= |added|
        invariant bodies == old(bodies) + set b | b in added[..i]
        invariant Valid()
      {
        assert added[..i + 1] == added[..i] + [added[i]];
        bodies := bodies + {added[i]};
        i := i + 1;
      }
      assert added[..i] == added;
    }

    /** `remove_body(*bodies)`: set deletion of each argument; an absent one is ignored. */
    method RemoveBody(removed: seq<Body>)
      requires Valid()
      modifies this`bodies
      ensures Valid()
      ensures bodies == old(bodies) - set b | b in removed
    {
      var i := 0;
      while i < |removed|
        invariant 0 <= i <= |removed|
        invariant bodies == old(bodies) - set b | b in removed[..i]
        invariant Valid()
      {
        assert removed[..i + 1] == removed[..i] + [removed[i]];
        bodies := bodies - {removed[i]};
        i := i + 1;
      }
      assert removed[..i] == removed;
    }

    /** The two calls `tick` makes for one body of its snapshot: gravity
        against the live set, then the move. */
    method Advance(body: Body, dt: real, ops: Ops)
      returns (ghost passed: seq<Body>, ghost merger: Option<Merger>)
      requires Valid() && body.Valid() && ExactCubeRoot(ops)
      modifies this`bodies, body`velocity, body`position
      ensures Valid()
      ensures body.position == old(body.position).Plus(Step(body.velocity, dt))
      ensures body.Mass() == 0.0 ==> body.velocity == old(body.velocity) && bodies == old(bodies) && merger.None?
      ensures body.velocity == old(body.velocity).Plus(
        Body.TotalAcceleration(ops, old(body.position), body.Mass(), passed, dt))
      ensures body.GravityPass(ops, old(body.position), old(bodies), passed, merger, bodies)
      ensures merger.Some? ==> fresh(merger.value.created)
      ensures forall b :: b in bodies && b !in old(bodies) ==> fresh(b) && b.velocity == Zero
    {
      passed, merger := body.ApplyGravityAcceleration(this, dt, ops);
      body.Move(dt);
    }

    /** A step of `tick`, as far as the rest of the tick depends on it: the
        body moves by its new velocity, keeps its velocity when its mass is 0,
        and the bodies it adds to the live set are new and at rest. */
    method TickStep(body: Body, dt: real, ops: Ops)
      requires Valid() && body.Valid() && ExactCubeRoot(ops)
      modifies this`bodies, body`velocity, body`position
      ensures Valid()
      ensures body.position == old(body.position).Plus(Step(body.velocity, dt))
      ensures body.Mass() == 0.0 ==> body.velocity == old(body.velocity)
      ensures forall b :: b in bodies && b !in old(bodies) ==> fresh(b) && b.velocity == Zero
      ensures body in old(bodies) ==> SumMass(bodies) == old(SumMass(bodies))
      ensures body !in old(bodies) ==>
        SumMass(bodies) == old(SumMass(bodies)) || SumMass(bodies) == old(SumMass(bodies)) + body.Mass()
      ensures old(SumMass(bodies)) <= SumMass(bodies)
    {
      ghost var before := bodies;
      ghost var passed, merger := Advance(body, dt, ops);
      if merger.Some? {
        SumMassMerge(before, body, merger.value.other, merger.value.created);
      }
    }

    /** `tick(dt)`: every body of the snapshot taken at the start, in some
        order, first applies gravity against the live set and then moves, even
        when an earlier merge in the same tick has already removed it. */
    method Tick(dt: real, ops: Ops)
      requires Valid() && ExactCubeRoot(ops)
      modifies this`bodies, bodies`velocity, bodies`position
      ensures Valid()
      ensures forall b :: b in old(bodies) ==>
        b.radius == old(b.radius) && b.density == old(b.density) && b.color == old(b.color) &&
        b.position == old(b.position).Plus(Step(b.velocity, dt))
      ensures forall b :: b in old(bodies) && b.Mass() == 0.0 ==> b.velocity == old(b.velocity)
      ensures forall b :: b in bodies && b !in old(bodies) ==> fresh(b) && b.velocity == Zero
      ensures old(bodies) == {} ==> bodies == {}
      ensures old(SumMass(bodies)) <= SumMass(bodies)
    {
      ghost var snapshot, total := bodies, SumMass(bodies);
      var remaining := bodies;
      while remaining != {}
        invariant remaining <= snapshot == old(bodies)
        invariant Valid()
        invariant total <= SumMass(bodies)
        invariant forall b :: b in remaining ==> b.position == old(b.position) && b.velocity == old(b.velocity)
        invariant forall b :: b in snapshot - remaining ==> b.position == old(b.position).Plus(Step(b.velocity, dt))
        invariant forall b :: b in snapshot - remaining && b.Mass() == 0.0 ==> b.velocity == old(b.velocity)
        invariant forall b :: b in bodies && b !in snapshot ==> fresh(b) && b.velocity == Zero
        invariant snapshot == {} ==> bodies == {}
        decreases remaining
      {
        var body :| body in remaining;
        TickStep(body, dt, ops);
        remaining := remaining - {body};
      }
    }

    /** `tick(dt)` with the liveness test added: only bodies still in the live
        set apply gravity and move. */
    method TickLiveOnly(dt: real, ops: Ops)
      requires Valid() && ExactCubeRoot(ops)
      modifies this`bodies, bodies`velocity, bodies`position
      ensures Valid()
      ensures forall b :: b in old(bodies) ==>
        b.radius == old(b.radius) && b.density == old(b.density) && b.color == old(b.color)
      ensures forall b :: b in old(bodies) && b in bodies ==> b.position == old(b.position).Plus(Step(b.velocity, dt))
      ensures forall b :: b in bodies && b !in old(bodies) ==> fresh(b) && b.velocity == Zero
      ensures bodies <= old(bodies) + set b | b in bodies && fresh(b)
      ensures old(bodies) == {} ==> bodies == {}
      ensures SumMass(bodies) == old(SumMass(bodies))
    {
      ghost var snapshot, total := bodies, SumMass(bodies);
      var remaining := bodies;
      while remaining != {}
        invariant remaining <= snapshot == old(bodies)
        invariant Valid()
        invariant SumMass(bodies) == total
        invariant forall b :: b in remaining ==> b.position == old(b.position) && b.velocity == old(b.velocity)
        invariant forall b :: b in snapshot - remaining && b in bodies ==>
          b.position == old(b.position).Plus(Step(b.velocity, dt))
        invariant forall b :: b in bodies && b !in snapshot ==> fresh(b) && b.velocity == Zero
        invariant snapshot == {} ==> bodies == {}
        decreases remaining
      {
        var body :| body in remaining;
        if body in bodies {
          TickStep(body, dt, ops);
        }
        remaining := remaining - {body};
      }
    }
  }
}
