/** `is_rectangle_on_screen`: the four-edge rejection test that guards drawing. */
module Screen {
  import opened Geometry

  function IsRectangleOnScreen(pos1: Vec, pos2: Vec, width: real, height: real): bool {
    if pos1.x > width && pos2.x > width then false
    else if pos1.x < 0.0 && pos2.x < 0.0 then false
    else if pos1.y > height && pos2.y > height then false
    else if pos1.y < 0.0 && pos2.y < 0.0 then false
    else true
  }

  /** `p` lies in the closed axis-aligned box from `lo` to `hi`. */
  predicate InBox(p: Vec, lo: Vec, hi: Vec) {
    lo.x <= p.x <= hi.x && lo.y <= p.y <= hi.y
  }

  /** For a rectangle given by its lower and upper corner, the test accepts
      exactly the rectangles that share at least one point (edges included)
      with the screen. */
  lemma OnScreenIffSharesPoint(pos1: Vec, pos2: Vec, width: real, height: real)
    requires pos1.x <= pos2.x && pos1.y <= pos2.y && 0.0 <= width && 0.0 <= height
    ensures IsRectangleOnScreen(pos1, pos2, width, height) <==>
      exists p :: InBox(p, pos1, pos2) && InBox(p, Zero, Vec(width, height))
  {
    if IsRectangleOnScreen(pos1, pos2, width, height) {
      var px := if pos1.x < 0.0 then 0.0 else pos1.x;
      var py := if pos1.y < 0.0 then 0.0 else pos1.y;
      assert InBox(Vec(px, py), pos1, pos2) && InBox(Vec(px, py), Zero, Vec(width, height));
    }
  }
}
