/** Two-dimensional vectors over the reals, standing in for the float64 numpy
    pairs that hold positions and velocities, and the floating-point operations
    that the model takes as given. */
module Geometry {

  datatype Vec = Vec(x: real, y: real) {
    function Plus(o: Vec): Vec { Vec(x + o.x, y + o.y) }
    function Minus(o: Vec): Vec { Vec(x - o.x, y - o.y) }
    function Scale(k: real): Vec { Vec(x * k, y * k) }
  }

  const Zero := Vec(0.0, 0.0)

  /** Numeric operations whose exact float behaviour is outside the model:
      `cbrt` is `x ** (1/3)`, `distance` is `np.linalg.norm(p - q)`, and
      `acceleration(p, m1, q, m2, dt)` is the velocity increment that a body
      of mass `m1` at `p` receives from a body of mass `m2` at `q` in a step `dt`. */
  datatype Ops = Ops(
    cbrt: real -> real,
    distance: (Vec, Vec) -> real,
    acceleration: (Vec, real, Vec, real, real) -> Vec)

  /** The one fact the model assumes about the numerics: the cube root is exact
      and non-negative on non-negative arguments. */
  ghost predicate ExactCubeRoot(ops: Ops) {
    forall x: real :: 0.0 <= x ==> 0.0 <= ops.cbrt(x) && ops.cbrt(x) * ops.cbrt(x) * ops.cbrt(x) == x
  }
}
