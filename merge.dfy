/** The arithmetic of the merge collision policy: two bodies become one whose
    density and colour are weighted by the first body's share of the mass. */
module Merge {
  import opened Geometry
  import Colour

  /** `self.mass / total_mass`. */
  function MassProportion(m1: real, m2: real): (mp: real)
    requires 0.0 < m1 && 0.0 <= m2
    ensures 0.0 < mp <= 1.0
    ensures mp * (m1 + m2) == m1
  {
    m1 / (m1 + m2)
  }

  /** A weighted average of two reals: the merged density
      `mass_proportion * self.density + (1 - mass_proportion) * body.density`,
      and each colour channel before truncation. */
  function Blend(mp: real, a: real, b: real): real {
    mp * a + (1.0 - mp) * b
  }

  lemma BlendBetween(mp: real, a: real, b: real)
    requires 0.0 <= mp <= 1.0
    ensures a <= b ==> a <= Blend(mp, a, b) <= b
    ensures b <= a ==> b <= Blend(mp, a, b) <= a
  {
    var lo, hi := if a <= b then a else b, if a <= b then b else a;
    Colour.ProductNonNegative(mp, hi - lo);
    Colour.ProductNonNegative(1.0 - mp, hi - lo);
    if a <= b {
      assert Blend(mp, a, b) - a == (1.0 - mp) * (b - a);
      assert b - Blend(mp, a, b) == mp * (b - a);
    } else {
      assert Blend(mp, a, b) - b == mp * (a - b);
      assert a - Blend(mp, a, b) == (1.0 - mp) * (a - b);
    }
  }

  /** `mass_proportion * np.array(self.color) + (1 - mass_proportion) * np.array(body.color)`,
      each channel truncated by `astype(int)`. */
  function MergedColor(mp: real, c1: Colour.Rgb, c2: Colour.Rgb): Colour.Rgb {
    Colour.Rgb(
      Colour.Trunc(Blend(mp, c1.r as real, c2.r as real)),
      Colour.Trunc(Blend(mp, c1.g as real, c2.g as real)),
      Colour.Trunc(Blend(mp, c1.b as real, c2.b as real)))
  }

  /** `self.position + direction_vector * distance / 2 * (1 - mass_proportion)`,
      where `direction_vector * distance` is the offset to the other body. */
  function MergedPosition(mp: real, p1: Vec, p2: Vec): Vec {
    p1.Plus(p2.Minus(p1).Scale((1.0 - mp) / 2.0))
  }

  /** The centre of mass of two bodies, the first with share `mp` of the mass. */
  function CentreOfMass(mp: real, p1: Vec, p2: Vec): Vec {
    p1.Scale(mp).Plus(p2.Scale(1.0 - mp))
  }

  /** The merged body is placed halfway between the first body and the centre
      of mass. It sits at the centre of mass only when the first body had all
      the mass or the two were at the same place. */
  lemma MergedPositionHalfwayToCentre(mp: real, p1: Vec, p2: Vec)
    ensures MergedPosition(mp, p1, p2) == p1.Plus(CentreOfMass(mp, p1, p2)).Scale(0.5)
    ensures MergedPosition(mp, p1, p2) == CentreOfMass(mp, p1, p2) <==> mp == 1.0 || p1 == p2
  {
    var k := 1.0 - mp;
    var gap := CentreOfMass(mp, p1, p2).Minus(MergedPosition(mp, p1, p2));
    assert gap == Vec((p2.x - p1.x) * k / 2.0, (p2.y - p1.y) * k / 2.0);
    if k != 0.0 && p1 != p2 {
      assert p2.x - p1.x != 0.0 || p2.y - p1.y != 0.0;
      assert gap != Zero;
    }
  }

  /** Truncating a weighted average of two integers stays between them. */
  lemma TruncBlendBetween(mp: real, a: int, b: int)
    requires 0.0 <= mp <= 1.0
    ensures var n := Colour.Trunc(Blend(mp, a as real, b as real));
      (a <= b ==> a <= n <= b) && (b <= a ==> b <= n <= a)
  {
    BlendBetween(mp, a as real, b as real);
  }

  /** Each merged colour channel lies between the two bodies' channels. */
  lemma MergedColorBetween(mp: real, c1: Colour.Rgb, c2: Colour.Rgb)
    requires 0.0 <= mp <= 1.0
    ensures var c := MergedColor(mp, c1, c2);
      (c1.r <= c2.r ==> c1.r <= c.r <= c2.r) && (c2.r <= c1.r ==> c2.r <= c.r <= c1.r) &&
      (c1.g <= c2.g ==> c1.g <= c.g <= c2.g) && (c2.g <= c1.g ==> c2.g <= c.g <= c1.g) &&
      (c1.b <= c2.b ==> c1.b <= c.b <= c2.b) && (c2.b <= c1.b ==> c2.b <= c.b <= c1.b)
  {
    TruncBlendBetween(mp, c1.r, c2.r);
    TruncBlendBetween(mp, c1.g, c2.g);
    TruncBlendBetween(mp, c1.b, c2.b);
  }
}
