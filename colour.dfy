/** `hsv_to_rgb`: the six-sector HSV to RGB conversion, with Python's `int()`
    truncation of each channel scaled to 0..255. */
module Colour {

  datatype Rgb = Rgb(r: int, g: int, b: int)

  /** Python's `int()` on a float: truncation toward zero. */
  function Trunc(x: real): (n: int)
    ensures 0.0 <= x ==> 0 <= n && n as real <= x < n as real + 1.0
    ensures x < 0.0 ==> n <= 0 && n as real - 1.0 < x <= n as real
  {
    if 0.0 <= x then x.Floor else -((-x).Floor)
  }

  /** One channel in [0, 1] scaled to an integer. */
  function Channel(c: real): int { Trunc(c * 255.0) }

  function Brightest(c: Rgb): int {
    if c.r >= c.g && c.r >= c.b then c.r else if c.g >= c.b then c.g else c.b
  }

  /** The `if i == 0 ... else` chain choosing (r, g, b) among v, p, q, t. */
  function Sector(i: int, v: real, p: real, q: real, t: real): (real, real, real) {
    if i == 0 then (v, t, p)
    else if i == 1 then (q, v, p)
    else if i == 2 then (p, v, t)
    else if i == 3 then (p, q, v)
    else if i == 4 then (t, p, v)
    else (v, p, q)
  }

  /** `v * (1 - k)`: the value darkened by a fraction `k`. */
  function Shade(v: real, k: real): real { v * (1.0 - k) }

  /** The intermediate values of the conversion for a non-zero saturation:
      the sector index `i`, the position `f` inside the sector, and
      `p`, `q`, `t`. */
  datatype Parts = Parts(i: int, f: real, p: real, q: real, t: real)

  function Split(h: real, s: real, v: real): Parts {
    var hh := h / 60.0;
    var i := Trunc(hh);
    var f := hh - i as real;
    Parts(i, f, Shade(v, s), Shade(v, s * f), Shade(v, s * (1.0 - f)))
  }

  /** The conversion; `wrapSector` selects the sector by `i % 6` instead of `i`. */
  function Convert(h: real, s: real, v: real, wrapSector: bool): Rgb {
    if s == 0.0 then Rgb(Channel(v), Channel(v), Channel(v))
    else
      var parts := Split(h, s, v);
      var (r, g, b) := Sector(if wrapSector then parts.i % 6 else parts.i, v, parts.p, parts.q, parts.t);
      Rgb(Channel(r), Channel(g), Channel(b))
  }

  /** `hsv_to_rgb` as written. */
  function HsvToRgb(h: real, s: real, v: real): (c: Rgb)
    ensures s == 0.0 ==> c.r == c.g == c.b == Channel(v)
  {
    Convert(h, s, v, false)
  }

  /** The conversion with the hue sector taken modulo 6, so that a hue of 360
      degrees is the same colour as a hue of 0. */
  function HsvToRgbCircular(h: real, s: real, v: real): Rgb {
    Convert(h, s, v, true)
  }

  lemma ProductNonNegative(x: real, y: real)
    requires 0.0 <= x && 0.0 <= y
    ensures 0.0 <= x * y
  {
  }

  lemma ProductInUnit(a: real, b: real)
    requires 0.0 <= a <= 1.0 && 0.0 <= b <= 1.0
    ensures 0.0 <= a * b <= a
  {
    ProductNonNegative(a, b);
    ProductNonNegative(a, 1.0 - b);
    assert a * (1.0 - b) == a - a * b;
  }

  lemma ShadeInRange(v: real, k: real)
    requires 0.0 <= v && 0.0 <= k <= 1.0
    ensures 0.0 <= Shade(v, k) <= v
  {
    ProductNonNegative(v, k);
    ProductNonNegative(v, 1.0 - k);
    assert Shade(v, k) == v - v * k;
  }

  lemma ChannelMonotone(a: real, b: real)
    requires 0.0 <= a <= b
    ensures 0 <= Channel(a) <= Channel(b)
  {
    assert a * 255.0 <= b * 255.0;
  }

  /** For hue in [0, 360] and saturation and value in [0, 1], the three
      fractions lie between 0 and the value. */
  lemma SplitInRange(h: real, s: real, v: real)
    requires 0.0 <= h <= 360.0 && 0.0 <= s <= 1.0 && 0.0 <= v <= 1.0
    ensures var parts := Split(h, s, v);
      0 <= parts.i <= 6 && 0.0 <= parts.p <= v && 0.0 <= parts.q <= v && 0.0 <= parts.t <= v
  {
    var parts := Split(h, s, v);
    var f := parts.f;
    assert 0.0 <= f < 1.0;
    ProductInUnit(s, f);
    ProductInUnit(s, 1.0 - f);
    ShadeInRange(v, s);
    ShadeInRange(v, s * f);
    ShadeInRange(v, s * (1.0 - f));
  }

  /** Every sector uses the value once and two or three of the fractions. */
  lemma SectorInRange(i: int, v: real, p: real, q: real, t: real)
    requires 0.0 <= p <= v && 0.0 <= q <= v && 0.0 <= t <= v && v <= 1.0
    ensures var (r, g, b) := Sector(i, v, p, q, t);
      var c := Rgb(Channel(r), Channel(g), Channel(b));
      0 <= c.r <= 255 && 0 <= c.g <= 255 && 0 <= c.b <= 255 && Brightest(c) == Channel(v)
  {
    ChannelMonotone(v, 1.0);
    assert Channel(1.0) == 255;
    ChannelMonotone(p, v);
    ChannelMonotone(q, v);
    ChannelMonotone(t, v);
  }

  /** For hue in [0, 360] and saturation and value in [0, 1], every channel is
      in 0..255 and the largest one is `int(v * 255)`. */
  lemma HsvToRgbInRange(h: real, s: real, v: real)
    requires 0.0 <= h <= 360.0 && 0.0 <= s <= 1.0 && 0.0 <= v <= 1.0
    ensures var c := HsvToRgb(h, s, v);
      0 <= c.r <= 255 && 0 <= c.g <= 255 && 0 <= c.b <= 255 && Brightest(c) == Channel(v)
  {
    ChannelMonotone(v, 1.0);
    assert Channel(1.0) == 255;
    if s != 0.0 {
      var parts := Split(h, s, v);
      SplitInRange(h, s, v);
      SectorInRange(parts.i, v, parts.p, parts.q, parts.t);
    }
  }

  /** A hue of exactly 360 degrees lands in sector 6, at its start. */
  lemma SplitAt360(s: real, v: real)
    ensures Split(360.0, s, v) == Parts(6, 0.0, Shade(v, s), v, Shade(v, s))
  {
    assert 360.0 / 60.0 == 6.0;
    assert Trunc(6.0) == 6;
    assert Shade(v, s * 0.0) == v;
    assert s * (1.0 - 0.0) == s;
  }

  /** A hue of 0 lands in sector 0, at its start. */
  lemma SplitAt0(s: real, v: real)
    ensures Split(0.0, s, v) == Parts(0, 0.0, Shade(v, s), v, Shade(v, s))
  {
    assert 0.0 / 60.0 == 0.0;
    assert Trunc(0.0) == 0;
    assert Shade(v, s * 0.0) == v;
    assert s * (1.0 - 0.0) == s;
  }

  /** A hue of exactly 360 degrees reaches the final `else` sector. */
  lemma Hue360TakesFinalSector(s: real, v: real)
    requires s != 0.0
    ensures HsvToRgb(360.0, s, v) == Rgb(Channel(v), Channel(Shade(v, s)), Channel(v))
  {
    SplitAt360(s, v);
  }

  /** As written, hue 360 is magenta where hue 0 is red. */
  lemma Hue360IsNotHue0()
    ensures HsvToRgb(0.0, 1.0, 1.0) == Rgb(255, 0, 0)
    ensures HsvToRgb(360.0, 1.0, 1.0) == Rgb(255, 0, 255)
  {
    Hue360TakesFinalSector(1.0, 1.0);
    SplitAt0(1.0, 1.0);
    assert Shade(1.0, 1.0) == 0.0;
    assert Channel(1.0) == 255 && Channel(0.0) == 0;
  }

  /** The corrected conversion agrees with the one as written below 360. */
  lemma CircularAgreesBelow360(h: real, s: real, v: real)
    requires 0.0 <= h < 360.0
    ensures HsvToRgbCircular(h, s, v) == HsvToRgb(h, s, v)
  {
    if s != 0.0 {
      var i := Split(h, s, v).i;
      assert 0 <= i < 6;
      assert i % 6 == i;
    }
  }

  /** The corrected conversion is the same colour at 360 degrees as at 0. */
  lemma CircularHue360IsHue0(s: real, v: real)
    ensures HsvToRgbCircular(360.0, s, v) == HsvToRgbCircular(0.0, s, v)
  {
    SplitAt360(s, v);
    SplitAt0(s, v);
    assert 6 % 6 == 0;
  }

  /** The corrected conversion keeps the range guarantees of the original. */
  lemma CircularInRange(h: real, s: real, v: real)
    requires 0.0 <= h <= 360.0 && 0.0 <= s <= 1.0 && 0.0 <= v <= 1.0
    ensures var c := HsvToRgbCircular(h, s, v);
      0 <= c.r <= 255 && 0 <= c.g <= 255 && 0 <= c.b <= 255 && Brightest(c) == Channel(v)
  {
    if h < 360.0 {
      CircularAgreesBelow360(h, s, v);
      HsvToRgbInRange(h, s, v);
    } else {
      CircularHue360IsHue0(s, v);
      CircularAgreesBelow360(0.0, s, v);
      HsvToRgbInRange(0.0, s, v);
    }
  }
}
