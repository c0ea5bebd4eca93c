/** The relation between a body's radius, density and mass, and the choice the
    constructor makes among them. */
module Shape {
  import opened Wrappers
  import opened Geometry

  /** `np.pi`: the float64 nearest to pi, as an exact rational. */
  const Pi: real := 884279719003555.0 / 281474976710656.0

  /** `density * (4 / 3) * pi * radius ** 3`. */
  function MassOf(radius: real, density: real): real {
    density * (4.0 / 3.0) * Pi * (radius * radius * radius)
  }

  lemma MassOfNonNegative(radius: real, density: real)
    requires 0.0 <= radius && 0.0 <= density
    ensures 0.0 <= MassOf(radius, density)
    ensures MassOf(radius, density) == 0.0 <==> radius == 0.0 || density == 0.0
  {
    var cube := radius * radius * radius;
    assert 0.0 <= radius * radius;
    assert 0.0 <= cube;
    assert radius != 0.0 ==> 0.0 < cube;
    assert MassOf(radius, density) == (density * cube) * ((4.0 / 3.0) * Pi);
  }

  /** The exceptions the radius or density formulas can raise: a
      ZeroDivisionError, or a negative base raised to 1/3, which Python makes a
      complex number that `float()` then rejects. */
  datatype ShapeError = ZeroDivision | ComplexRoot

  /** `(mass * 3 / (density * 4 * pi)) ** (1/3)`. */
  function RadiusFor(mass: real, density: real, ops: Ops): Result<real, ShapeError> {
    if density == 0.0 then Err(ZeroDivision)
    else
      var x := mass * 3.0 / (density * 4.0 * Pi);
      if x < 0.0 then Err(ComplexRoot) else Ok(ops.cbrt(x))
  }

  /** The radius formula fails exactly on a zero density or on a mass and a
      density of opposite signs; otherwise it yields a radius that, with the
      same density, gives back the mass. */
  lemma RadiusForRoundTrip(mass: real, density: real, ops: Ops)
    requires ExactCubeRoot(ops)
    ensures RadiusFor(mass, density, ops) == Err(ZeroDivision) <==> density == 0.0
    ensures RadiusFor(mass, density, ops) == Err(ComplexRoot) <==> density != 0.0 && mass * density < 0.0
    ensures RadiusFor(mass, density, ops).Ok? ==>
      var r := RadiusFor(mass, density, ops).value;
      0.0 <= r && MassOf(r, density) == mass
  {
    if density != 0.0 {
      var k := density * 4.0 * Pi;
      var x := mass * 3.0 / k;
      assert x * k == mass * 3.0;
      assert (x < 0.0) == (mass * density < 0.0) by {
        var c := 3.0 / (4.0 * Pi);
        assert x == (mass / density) * c;
        assert 0.0 < c;
        assert (mass / density < 0.0) == (mass * density < 0.0) by {
          assert mass == (mass / density) * density;
        }
      }
      if 0.0 <= x {
        var r := ops.cbrt(x);
        assert r * r * r == x;
        calc {
          MassOf(r, density);
          density * (4.0 / 3.0) * Pi * x;
          (x * k) / 3.0;
          mass;
        }
      }
    }
  }

  /** Cubing is strictly increasing on the non-negative reals. */
  lemma CubeIncreasing(a: real, b: real)
    requires 0.0 <= a < b
    ensures a * a * a < b * b * b
  {
    var spread := b * b + a * b + a * a;
    assert 0.0 < b * b;
    assert 0.0 <= a * b;
    assert 0.0 <= a * a;
    assert 0.0 < spread;
    assert b * b * b - a * a * a == (b - a) * spread;
    assert 0.0 < (b - a) * spread;
  }

  /** Starting from a mass that a radius and a positive density give, the
      radius formula gives back that radius. */
  lemma RadiusForOfMass(radius: real, density: real, ops: Ops)
    requires ExactCubeRoot(ops) && 0.0 <= radius && 0.0 < density
    ensures RadiusFor(MassOf(radius, density), density, ops) == Ok(radius)
  {
    var cube := radius * radius * radius;
    var k := density * 4.0 * Pi;
    assert MassOf(radius, density) * 3.0 == cube * k;
    assert MassOf(radius, density) * 3.0 / k == cube;
    assert 0.0 <= cube by {
      assert 0.0 <= radius * radius;
    }
    var r := ops.cbrt(cube);
    assert 0.0 <= r && r * r * r == cube;
    if r < radius {
      CubeIncreasing(r, radius);
    } else if radius < r {
      CubeIncreasing(radius, r);
    }
  }

  /** `mass / ((4 / 3) * pi * radius ** 3)`. */
  function DensityFor(mass: real, radius: real): Result<real, ShapeError> {
    var volume := (4.0 / 3.0) * Pi * (radius * radius * radius);
    if volume == 0.0 then Err(ZeroDivision) else Ok(mass / volume)
  }

  /** The density formula fails exactly on a zero radius; otherwise the
      density it gives, with the same radius, gives back the mass. */
  lemma DensityForRoundTrip(mass: real, radius: real)
    ensures DensityFor(mass, radius).Err? <==> radius == 0.0
    ensures DensityFor(mass, radius).Ok? ==> MassOf(radius, DensityFor(mass, radius).value) == mass
  {
    var cube := radius * radius * radius;
    assert radius != 0.0 ==> cube != 0.0 by {
      if radius != 0.0 {
        assert radius * radius > 0.0;
      }
    }
    var volume := (4.0 / 3.0) * Pi * cube;
    if volume != 0.0 {
      var d := mass / volume;
      assert MassOf(radius, d) == d * volume;
    }
  }

  /** Starting from a mass that a non-zero radius and a density give, the
      density formula gives back that density. */
  lemma DensityForOfMass(radius: real, density: real)
    requires radius != 0.0
    ensures DensityFor(MassOf(radius, density), radius) == Ok(density)
  {
    DensityForRoundTrip(MassOf(radius, density), radius);
    var volume := (4.0 / 3.0) * Pi * (radius * radius * radius);
    assert volume != 0.0;
    assert MassOf(radius, density) == density * volume;
    assert (density * volume) / volume == density;
  }

  datatype Figure = Figure(radius: real, density: real)

  /** The constructor's three-way choice among `radius`, `density` and `mass`.
      Only the density-and-mass and the radius-and-mass combinations use the
      mass; in every other case it is ignored. */
  function InitialShape(radius: Option<real>, density: Option<real>, mass: Option<real>, ops: Ops): Result<Figure, ShapeError> {
    if radius.None? && density.Some? && mass.Some? then
      match RadiusFor(mass.value, density.value, ops)
      case Ok(r) => Ok(Figure(r, density.value))
      case Err(e) => Err(e)
    else if radius.Some? && density.None? && mass.Some? then
      match DensityFor(mass.value, radius.value)
      case Ok(d) => Ok(Figure(radius.value, d))
      case Err(e) => Err(e)
    else
      Ok(Figure(radius.GetOr(10.0), density.GetOr(1.0)))
  }

  /** When the mass is used, the body keeps the argument it was given beside
      the mass and has exactly the requested mass. */
  lemma InitialShapeHonoursMass(radius: Option<real>, density: Option<real>, mass: Option<real>, ops: Ops)
    requires ExactCubeRoot(ops) && mass.Some? && radius.Some? != density.Some?
    requires InitialShape(radius, density, mass, ops).Ok?
    ensures var f := InitialShape(radius, density, mass, ops).value;
      MassOf(f.radius, f.density) == mass.value &&
      (radius.Some? ==> f.radius == radius.value) &&
      (density.Some? ==> f.density == density.value)
  {
    if radius.None? {
      RadiusForRoundTrip(mass.value, density.value, ops);
    } else {
      DensityForRoundTrip(mass.value, radius.value);
    }
  }

  /** Without a mass, or when radius and density are both given or both
      missing, the mass argument plays no part (even if all three are given,
      nothing is raised) and the missing ones default to radius 10 and
      density 1. */
  lemma InitialShapeIgnoresMass(radius: Option<real>, density: Option<real>, mass: Option<real>, ops: Ops)
    requires mass.None? || radius.Some? == density.Some?
    ensures InitialShape(radius, density, mass, ops) == InitialShape(radius, density, None, ops)
    ensures InitialShape(radius, density, mass, ops) == Ok(Figure(radius.GetOr(10.0), density.GetOr(1.0)))
  {
  }

  /** The constructor raises exactly when the density-and-mass formula meets a
      zero density or a negative ratio, or the radius-and-mass formula a zero
      radius. */
  lemma InitialShapeFails(radius: Option<real>, density: Option<real>, mass: Option<real>, ops: Ops)
    requires ExactCubeRoot(ops)
    ensures InitialShape(radius, density, mass, ops).Err? <==>
      (radius.None? && density.Some? && mass.Some? &&
        (density.value == 0.0 || mass.value * density.value < 0.0)) ||
      (radius.Some? && density.None? && mass.Some? && radius.value == 0.0)
  {
    if radius.None? && density.Some? && mass.Some? {
      RadiusForRoundTrip(mass.value, density.value, ops);
    } else if radius.Some? && density.None? && mass.Some? {
      DensityForRoundTrip(mass.value, radius.value);
    }
  }
}
