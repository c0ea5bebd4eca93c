/** `Game`'s mouse handlers: a state machine around the pending
    `body_to_launch` (none, or one body being aimed). The mouse position, the
    ALT modifier and the random colour of a new body are arguments. */
module Controller {
  import opened Wrappers
  import opened Geometry
  import Colour
  import Shape
  import Simulation

  /** `(body.position - mouse) * 0.1`: the slingshot launch velocity. */
  function LaunchVelocity(position: Vec, mouse: Vec): (v: Vec)
    ensures mouse.Plus(v.Scale(10.0)) == position
  {
    position.Minus(mouse).Scale(0.1)
  }

  /** `max(x + y, 1)`: a wheel step with a floor of 1. */
  function WheelStep(x: real, y: int): (r: real)
    ensures 1.0 <= r && x + y as real <= r
    ensures 1.0 < r ==> r == x + y as real
  {
    if x + y as real > 1.0 then x + y as real else 1.0
  }

  class Game {
    var system: Simulation.SpaceSystem
    var bodyToLaunch: Simulation.Body?

    /** The system's bodies are valid, and a pending body is valid and not yet
        in the system. */
    ghost predicate Valid()
      reads this, system, system.bodies, bodyToLaunch
    {
      system.Valid() &&
      (bodyToLaunch != null ==> bodyToLaunch.Valid() && bodyToLaunch !in system.bodies)
    }

    /** The state `Game.__init__` sets up: an empty system and nothing pending. */
    constructor ()
      ensures Valid() && fresh(system) && system.bodies == {} && bodyToLaunch == null
    {
      system := new Simulation.SpaceSystem([]);
      bodyToLaunch := null;
    }

    /** `handle_mouse_button_down`: a new body at rest at the mouse, with the
        default radius 10 and density 1, only when none is pending. */
    method HandleMouseButtonDown(mouse: Vec, color: Colour.Rgb, ops: Ops)
      requires Valid()
      modifies this`bodyToLaunch
      ensures Valid()
      ensures old(bodyToLaunch) != null ==> bodyToLaunch == old(bodyToLaunch)
      ensures old(bodyToLaunch) == null ==>
        bodyToLaunch != null && fresh(bodyToLaunch) &&
        bodyToLaunch.position == mouse && bodyToLaunch.velocity == Zero && bodyToLaunch.color == color &&
        bodyToLaunch.radius == 10.0 && bodyToLaunch.density == 1.0
    {
      if bodyToLaunch == null {
        bodyToLaunch := new Simulation.Body(color, None, None, None, Zero, mouse, ops);
      }
    }

    /** `handle_mouse_button_up`: the pending body gets its launch velocity and
        joins the system, and nothing is pending afterwards. */
    method HandleMouseButtonUp(mouse: Vec)
      requires Valid()
      modifies this`bodyToLaunch, system`bodies, bodyToLaunch
      ensures Valid() && bodyToLaunch == null
      ensures old(bodyToLaunch) == null ==> system.bodies == old(system.bodies)
      ensures old(bodyToLaunch) != null ==>
        var b := old(bodyToLaunch);
        system.bodies == old(system.bodies) + {b} &&
        b.velocity == LaunchVelocity(old(b.position), mouse) &&
        b.position == old(b.position) && b.radius == old(b.radius) && b.density == old(b.density) &&
        b.color == old(b.color)
    {
      if bodyToLaunch != null {
        bodyToLaunch.velocity := LaunchVelocity(bodyToLaunch.position, mouse);
        system.AddBody([bodyToLaunch]);
        assert (set b | b in [bodyToLaunch]) == {bodyToLaunch};
        bodyToLaunch := null;
      }
    }

    /** `handle_mousewheel(y)`: with ALT the pending body's density, otherwise
        its radius, moves by `y` with a floor of 1; no effect when nothing is
        pending. */
    method HandleMousewheel(y: int, alt: bool)
      requires Valid()
      modifies bodyToLaunch
      ensures Valid()
      ensures bodyToLaunch != null && alt ==>
        bodyToLaunch.density == WheelStep(old(bodyToLaunch.density), y) &&
        bodyToLaunch.radius == old(bodyToLaunch.radius)
      ensures bodyToLaunch != null && !alt ==>
        bodyToLaunch.radius == WheelStep(old(bodyToLaunch.radius), y) &&
        bodyToLaunch.density == old(bodyToLaunch.density)
      ensures bodyToLaunch != null ==>
        bodyToLaunch.position == old(bodyToLaunch.position) && bodyToLaunch.velocity == old(bodyToLaunch.velocity) &&
        bodyToLaunch.color == old(bodyToLaunch.color)
    {
      if bodyToLaunch != null {
        if alt {
          bodyToLaunch.density := WheelStep(bodyToLaunch.density, y);
          return;
        }
        bodyToLaunch.radius := WheelStep(bodyToLaunch.radius, y);
      }
    }
  }
}
