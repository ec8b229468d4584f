/** RGB and HSL colours over the reals, and the conversions between them (CSS Color Module Level 4, sections 7.1 and 7.2). */
module Color {

  datatype Rgba = Rgba(r: real, g: real, b: real, a: real)
  datatype Hsla = Hsla(h: real, s: real, l: real, a: real)

  function Abs(x: real): real { if x < 0.0 then -x else x }
  function Max(x: real, y: real): real { if x >= y then x else y }
  function Min(x: real, y: real): real { if x <= y then x else y }
  function Clamp01(x: real): real { if x < 0.0 then 0.0 else if x > 1.0 then 1.0 else x }

  /** Remainder of a division rounded towards zero, as the `%` of floating point. */
  function Rem(x: real, y: real): real
    requires y > 0.0
  {
    var q := x / y;
    x - y * (if q >= 0.0 then q.Floor else -((-q).Floor)) as real
  }

  /** Remainder of a division rounded down. */
  function RemEuclid(x: real, y: real): real
    requires y > 0.0
  {
    x - y * (x / y).Floor as real
  }

  function Chroma(s: real, l: real): real {
    (1.0 - Abs(2.0 * l - 1.0)) * s
  }

  /** How far the middle channel rises above the smallest, at hue `t` counted in sixths of a turn. */
  function Rise(c: real, t: real): real {
    c * (1.0 - Abs(Rem(t, 2.0) - 1.0))
  }

  function ToRgb(color: Hsla): Rgba {
    var c := Chroma(color.s, color.l);
    var x := Rise(c, color.h * 6.0);
    var m := color.l - c / 2.0;
    var (r, g, b) := Sector((color.h * 6.0).Floor, c + m, x + m, m);
    Rgba(Clamp01(r), Clamp01(g), Clamp01(b), color.a)
  }

  function Sector(n: int, cm: real, xm: real, m: real): (real, real, real) {
    if n == 0 || n == 6 then (cm, xm, m)
    else if n == 1 then (xm, cm, m)
    else if n == 2 then (m, cm, xm)
    else if n == 3 then (m, xm, cm)
    else if n == 4 then (xm, m, cm)
    else (cm, m, xm)
  }

  function Saturation(delta: real, l: real): real {
    if l == 0.0 || l == 1.0 then 0.0
    else if l < 0.5 then delta / (2.0 * l)
    else delta / (2.0 - 2.0 * l)
  }

  function Hue(r: real, g: real, b: real, max: real, delta: real): real {
    if delta == 0.0 then 0.0
    else if max == r then RemEuclid((g - b) / delta, 6.0) / 6.0
    else if max == g then ((b - r) / delta + 2.0) / 6.0
    else ((r - g) / delta + 4.0) / 6.0
  }

  function FromRgba(color: Rgba): Hsla {
    var max := Max(color.r, Max(color.g, color.b));
    var min := Min(color.r, Min(color.g, color.b));
    var delta := max - min;
    var l := (max + min) / 2.0;
    Hsla(Hue(color.r, color.g, color.b, max, delta), Saturation(delta, l), l, color.a)
  }

  predicate InRange(c: Rgba) {
    0.0 <= c.r <= 1.0 && 0.0 <= c.g <= 1.0 && 0.0 <= c.b <= 1.0
  }

  lemma Quotient(a: real, d: real)
    requires d > 0.0
    ensures d * (a / d) == a
    ensures a >= 0.0 ==> a / d >= 0.0
    ensures a <= d ==> a / d <= 1.0
    ensures a < d ==> a / d < 1.0
    ensures a > 0.0 ==> a / d > 0.0
    ensures a == d ==> a / d == 1.0
    ensures (-a) / d == -(a / d)
  {
  }

  /** The chroma read off lightness and saturation is the spread of the channels. */
  lemma ChromaIsSpread(max: real, min: real)
    requires 0.0 <= min <= max <= 1.0
    ensures var l := (max + min) / 2.0; Chroma(Saturation(max - min, l), l) == max - min
  {
    var l := (max + min) / 2.0;
    if l != 0.0 && l != 1.0 {
      Quotient(max - min, if l < 0.5 then 2.0 * l else 2.0 - 2.0 * l);
    }
  }

  /** The sector of a hue and the second-largest channel in it, counted in sixths of a turn. */
  lemma SecondChannel(t: real)
    requires 0.0 <= t < 6.0
    ensures var up := 1.0 - Abs(Rem(t, 2.0) - 1.0);
            match t.Floor
            case 0 => up == t
            case 1 => up == 2.0 - t
            case 2 => up == t - 2.0
            case 3 => up == 4.0 - t
            case 4 => up == t - 4.0
            case _ => up == 6.0 - t
  {
    var f := (t / 2.0).Floor;
    assert f == if t < 2.0 then 0 else if t < 4.0 then 1 else 2;
  }

  lemma WrappedSixths(q: real)
    requires -1.0 <= q <= 1.0
    ensures RemEuclid(q, 6.0) == if q >= 0.0 then q else q + 6.0
  {
    assert (q / 6.0).Floor == if q >= 0.0 then 0 else -1;
  }

  lemma RedHue(g: real, b: real, delta: real)
    requires delta > 0.0 && g - b <= delta && b - g <= delta
    ensures var t := RemEuclid((g - b) / delta, 6.0);
            if g >= b then delta * t == g - b && 0.0 <= t <= 1.0 else delta * (6.0 - t) == b - g && 5.0 <= t < 6.0
  {
    var q := (g - b) / delta;
    Quotient(g - b, delta);
    Quotient(b - g, delta);
    assert (b - g) / delta == -q by { assert b - g == -(g - b); }
    WrappedSixths(q);
    if g < b {
      assert delta * (-q) == b - g;
    }
  }

  lemma OtherHue(x: real, y: real, delta: real)
    requires delta > 0.0 && x - y <= delta && y - x < delta
    ensures var q := (x - y) / delta; delta * q == x - y && -1.0 < q <= 1.0 && (q < 1.0 <==> x - y < delta)
    ensures var q := (x - y) / delta; (q >= 0.0 <==> x >= y) && delta * (-q) == y - x
  {
    var q := (x - y) / delta;
    Quotient(x - y, delta);
    Quotient(y - x, delta);
    assert (y - x) / delta == -q by { assert y - x == -(x - y); }
  }

  lemma RiseIs(c: real, t: real, q: real, y: real)
    requires 1.0 - Abs(Rem(t, 2.0) - 1.0) == q && c * q == y
    ensures Rise(c, t) == y
  {
  }

  lemma RedSector(g: real, b: real, max: real, min: real, t: real)
    requires min < max && g <= max && b <= max && min == Min(g, b)
    requires t == RemEuclid((g - b) / (max - min), 6.0)
    ensures Sector(t.Floor, max, Rise(max - min, t) + min, min) == (max, g, b)
  {
    RedHue(g, b, max - min);
    SecondChannel(t);
    if g >= b {
      RiseIs(max - min, t, if t.Floor == 0 then t else 2.0 - t, g - b);
    } else {
      RiseIs(max - min, t, 6.0 - t, b - g);
    }
  }

  lemma GreenSector(r: real, b: real, max: real, min: real, q: real)
    requires r < max && b <= max && min == Min(r, b) && q == (b - r) / (max - min)
    ensures Sector((q + 2.0).Floor, max, Rise(max - min, q + 2.0) + min, min) == (r, max, b)
  {
    OtherHue(b, r, max - min);
    SecondChannel(q + 2.0);
    if b >= r {
      RiseIs(max - min, q + 2.0, if q < 1.0 then q else 2.0 - q, b - r);
    } else {
      RiseIs(max - min, q + 2.0, -q, r - b);
    }
  }

  lemma BlueSector(r: real, g: real, max: real, min: real, q: real)
    requires r < max && g < max && min == Min(r, g) && q == (r - g) / (max - min)
    ensures Sector((q + 4.0).Floor, max, Rise(max - min, q + 4.0) + min, min) == (r, g, max)
  {
    OtherHue(r, g, max - min);
    SecondChannel(q + 4.0);
    if r >= g {
      RiseIs(max - min, q + 4.0, q, r - g);
    } else {
      RiseIs(max - min, q + 4.0, -q, g - r);
    }
  }

  /** Where the hue puts the middle channel: the largest and smallest follow from chroma and lightness. */
  lemma SectorOf(r: real, g: real, b: real, max: real, min: real)
    requires max == Max(r, Max(g, b)) && min == Min(r, Min(g, b)) && min < max
    ensures var t := Hue(r, g, b, max, max - min) * 6.0;
            Sector(t.Floor, max, Rise(max - min, t) + min, min) == (r, g, b)
  {
    if max == r {
      RedSector(g, b, max, min, RemEuclid((g - b) / (max - min), 6.0));
    } else if max == g {
      GreenSector(r, b, max, min, (b - r) / (max - min));
    } else {
      BlueSector(r, g, max, min, (r - g) / (max - min));
    }
  }

  /** The corners of the colour cube have the hues, full saturation and lightness the standard gives them. */
  lemma CornersOfTheCube(a: real)
    ensures FromRgba(Rgba(1.0, 0.0, 0.0, a)) == Hsla(0.0, 1.0, 0.5, a)
    ensures FromRgba(Rgba(1.0, 1.0, 0.0, a)) == Hsla(1.0 / 6.0, 1.0, 0.5, a)
    ensures FromRgba(Rgba(0.0, 1.0, 0.0, a)) == Hsla(2.0 / 6.0, 1.0, 0.5, a)
    ensures FromRgba(Rgba(0.0, 1.0, 1.0, a)) == Hsla(3.0 / 6.0, 1.0, 0.5, a)
    ensures FromRgba(Rgba(0.0, 0.0, 1.0, a)) == Hsla(4.0 / 6.0, 1.0, 0.5, a)
    ensures FromRgba(Rgba(1.0, 0.0, 1.0, a)) == Hsla(5.0 / 6.0, 1.0, 0.5, a)
    ensures FromRgba(Rgba(0.0, 0.0, 0.0, a)) == Hsla(0.0, 0.0, 0.0, a) && FromRgba(Rgba(1.0, 1.0, 1.0, a)) == Hsla(0.0, 0.0, 1.0, a)
  {
    WrappedSixths(0.0);
    WrappedSixths(1.0);
    WrappedSixths(-1.0);
  }

  /** The sixth of a turn after a full one is the first again, for every saturation and lightness. */
  lemma SectorSixIsSectorZero(h: real, s: real, l: real, a: real)
    requires 1.0 <= h < 7.0 / 6.0
    ensures ToRgb(Hsla(h, s, l, a)) == ToRgb(Hsla(h - 1.0, s, l, a))
  {
    var c, t := Chroma(s, l), h * 6.0;
    assert (h - 1.0) * 6.0 == t - 6.0 && t.Floor == 6 && (t - 6.0).Floor == 0;
    assert (t / 2.0).Floor == 3 && ((t - 6.0) / 2.0).Floor == 0;
    assert Rise(c, t) == Rise(c, t - 6.0);
  }

  /** Whatever the input, channels end up in range. */
  lemma ToRgbInRange(color: Hsla)
    ensures InRange(ToRgb(color)) && ToRgb(color).a == color.a
  {
  }

  /** Every colour in range survives the trip to HSL and back, grey, ties and sector borders included. */
  lemma RgbRoundTrip(color: Rgba)
    requires InRange(color)
    ensures ToRgb(FromRgba(color)) == color
  {
    var r, g, b := color.r, color.g, color.b;
    var max, min := Max(r, Max(g, b)), Min(r, Min(g, b));
    ChromaIsSpread(max, min);
    if min < max {
      SectorOf(r, g, b, max, min);
    } else {
      RiseIs(0.0, 0.0, 0.0, 0.0);
    }
  }
}
