/** What one tick does to two overlapping bodies under the merge policy. `tick`
    processes a snapshot of the live set; with two bodies in it, a tick is
    `Advance` of one body followed by `Advance` of the other, in either order.
    As written the second step counts a merged-away body's mass again; the
    corrected `TickLiveOnly` keeps the total mass. */
module TickMerges {
  import opened Wrappers
  import opened Geometry
  import opened Shape
  import opened Merge
  import opened Simulation
  import Colour

  /** The mass of a body of radius 1 and density 1. */
  const Unit: real := MassOf(1.0, 1.0)

  /** Two bodies of equal mass give each half of the merged mass. */
  lemma EqualShares(m: real)
    requires 0.0 < m
    ensures MassProportion(m, m) == 0.5
  {
  }

  /** A step of `tick` for a body of non-zero mass whose only other live
      body overlaps it: the two merge, whether or not the body itself is
      still live. */
  method AdvanceAgainstOne(system: SpaceSystem, body: Body, other: Body, dt: real, ops: Ops)
    returns (created: Body)
    requires system.Valid() && body.Valid() && ExactCubeRoot(ops)
    requires other in system.bodies && system.bodies <= {body, other} && other != body
    requires 0.0 < body.radius && body.Overlaps(ops, body.position, other)
    modifies system`bodies, body`velocity, body`position
    ensures system.Valid() && system.bodies == {created} && fresh(created)
    ensures created.Mass() == body.Mass() + other.Mass()
    ensures created.position == MergedPosition(MassProportion(body.Mass(), other.Mass()), old(body.position), other.position)
  {
    ghost var passed, merger := system.Advance(body, dt, ops);
    assert merger.Some? && merger.value.other == other;
    created :| created in system.bodies;
  }

  /** Two bodies of radius 1 and density 1 at rest at `p` and `q` form the
      live set. */
  method TwoUnitBodies(color: Colour.Rgb, p: Vec, q: Vec, ops: Ops)
    returns (system: SpaceSystem, first: Body, second: Body)
    ensures fresh(system) && fresh(first) && fresh(second)
    ensures system.Valid() && system.bodies == {first, second} && first != second
    ensures first.radius == second.radius == 1.0 && first.density == second.density == 1.0
    ensures first.position == p && second.position == q
  {
    first := new Body(color, Some(1.0), Some(1.0), None, Zero, p, ops);
    second := new Body(color, Some(1.0), Some(1.0), None, Zero, q, ops);
    system := new SpaceSystem([first, second]);
    assert system.bodies == {first, second};
  }

  /** `tick` as written, on two bodies of radius 1 and density 1 at rest at
      `p` and `q` that overlap, the body at `p` first (swap the arguments for
      the other order). It merges with the other; the body at `q`, though no
      longer in the live set, still applies gravity and, when it also
      overlaps the body the first merge created, merges with that one too.
      One body is left, and it carries the second body's mass twice: three
      units where the two bodies had two. */
  method DoubleMergeAsWritten(color: Colour.Rgb, p: Vec, q: Vec, dt: real, ops: Ops) returns (system: SpaceSystem)
    requires ExactCubeRoot(ops)
    requires ops.distance(p, q) < 2.0 && ops.distance(q, MergedPosition(0.5, p, q)) < 1.0
    ensures |system.bodies| == 1
    ensures forall d :: d in system.bodies ==> d.Mass() == 3.0 * Unit
    ensures SumMass(system.bodies) == 3.0 * Unit
  {
    var first, second;
    system, first, second := TwoUnitBodies(color, p, q, ops);
    assert first.Mass() == second.Mass() == Unit;
    EqualShares(Unit);
    var created := AdvanceAgainstOne(system, first, second, dt, ops);
    assert second.Overlaps(ops, second.position, created);
    var last := AdvanceAgainstOne(system, second, created, dt, ops);
    SumMassSingleton(last);
  }

  /** The corrected tick on the same two bodies, wherever they are: whether or
      not they overlap, in whichever order they are visited, the total mass
      stays at the two units they start with. */
  method UnitBodiesTickLiveOnly(color: Colour.Rgb, p: Vec, q: Vec, dt: real, ops: Ops) returns (system: SpaceSystem)
    requires ExactCubeRoot(ops)
    ensures system.Valid()
    ensures SumMass(system.bodies) == 2.0 * Unit
  {
    var first, second;
    system, first, second := TwoUnitBodies(color, p, q, ops);
    SumMassRemove({first, second}, first);
    assert {first, second} - {first} == {second};
    SumMassSingleton(second);
    system.TickLiveOnly(dt, ops);
  }

  /** The first step of a tick on two overlapping bodies of non-zero mass, in
      either order: the first body merges with the second, so the one body left
      is the merger of the two, with the sum of their masses, and the second
      body is no longer live. `TickLiveOnly` then skips the second body; `Tick`
      runs its step anyway. */
  method TwoBodyFirstStep(system: SpaceSystem, a: Body, b: Body, dt: real, ops: Ops, aFirst: bool)
    requires system.Valid() && ExactCubeRoot(ops)
    requires system.bodies == {a, b} && a != b && 0.0 < a.radius && 0.0 < b.radius
    requires a.Overlaps(ops, a.position, b) && b.Overlaps(ops, b.position, a)
    modifies system`bodies, a`velocity, a`position, b`velocity, b`position
    ensures system.Valid() && |system.bodies| == 1 && a !in system.bodies && b !in system.bodies
    ensures forall d :: d in system.bodies ==> fresh(d) && d.Mass() == a.Mass() + b.Mass()
    ensures forall d :: d in system.bodies ==>
      if aFirst then a.MergedInto(b, d, old(a.position)) else b.MergedInto(a, d, old(b.position))
  {
    var first, second := if aFirst then a else b, if aFirst then b else a;
    ghost var passed, merger := system.Advance(first, dt, ops);
    assert merger.Some? && merger.value.other == second;
    ghost var created := merger.value.created;
    assert system.bodies == {created};
    assert second !in system.bodies;
  }
}
