/**
 * RGB, HSL and HSV over the reals: converting there and back returns every colour of the unit cube,
 * exactly unless the conversion treats it as grey.
 */
module ColorModels {

  const EPSILON: real := 0.000001

  datatype RGB = RGB(r: real, g: real, b: real, w: real) {
    predicate InCube() {
      0.0 <= r <= 1.0 && 0.0 <= g <= 1.0 && 0.0 <= b <= 1.0
    }

    function Max(): (m: real)
      ensures m >= r && m >= g && m >= b && (m == r || m == g || m == b)
    {
      Larger(r, Larger(g, b))
    }

    function Min(): (m: real)
      ensures m <= r && m <= g && m <= b && (m == r || m == g || m == b)
    {
      Smaller(r, Smaller(g, b))
    }

    function Spread(): real { Max() - Min() }

    /** Same opacity, and each channel at most e away. */
    predicate Near(other: RGB, e: real) {
      w == other.w && -e <= r - other.r <= e && -e <= g - other.g <= e && -e <= b - other.b <= e
    }
  }

  datatype HSL = HSL(h: real, s: real, l: real, w: real)

  datatype HSV = HSV(h: real, s: real, v: real, w: real)

  function Larger(x: real, y: real): real { if x < y then y else x }

  function Smaller(x: real, y: real): real { if x < y then x else y }

  function Abs(x: real): real { if x < 0.0 then -x else x }

  // ---- HSL ----

  function Saturation(max: real, min: real): real
    requires 0.0 <= min < max <= 1.0
  {
    if (max + min) / 2.0 < 0.5 then (max - min) / (max + min) else (max - min) / (2.0 - max - min)
  }

  function Hue(c: RGB): real
    requires c.Spread() != 0.0
  {
    var max, del := c.Max(), c.Spread();
    var delR := ((max - c.r) / 6.0 + del / 2.0) / del;
    var delG := ((max - c.g) / 6.0 + del / 2.0) / del;
    var delB := ((max - c.b) / 6.0 + del / 2.0) / del;
    UnwrapHue(if c.r == max then delB - delG
              else if c.g == max then 1.0 / 3.0 + delR - delB
              else 2.0 / 3.0 + delG - delR)
  }

  /** Channels are taken to be scaled to [0, 1]. */
  function RgbToHsl(c: RGB): HSL
    requires c.InCube()
  {
    var l := (c.Max() + c.Min()) / 2.0;
    if Abs(c.Spread()) > EPSILON then HSL(Hue(c), Saturation(c.Max(), c.Min()), l, c.w)
    else HSL(0.0, 0.0, l, c.w)
  }

  function UnwrapHue(h: real): real {
    var up := if h < 0.0 then h + 1.0 else h;
    if up > 1.0 then up - 1.0 else up
  }

  function HueToRgb(v1: real, v2: real, vH: real): real {
    var h := UnwrapHue(vH);
    if 6.0 * h < 1.0 then v1 + (v2 - v1) * 6.0 * h
    else if 2.0 * h < 1.0 then v2
    else if 3.0 * h < 2.0 then v1 + (v2 - v1) * (2.0 / 3.0 - h) * 6.0
    else v1
  }

  function UpperLimit(l: real, s: real): real {
    if l < 0.5 then l * (1.0 + s) else (l + s) - s * l
  }

  function HslToRgb(c: HSL): RGB {
    if c.s < EPSILON then
      RGB(c.l, c.l, c.l, c.w)
    else
      var v2 := UpperLimit(c.l, c.s);
      var v1 := 2.0 * c.l - v2;
      RGB(HueToRgb(v1, v2, c.h + 1.0 / 3.0), HueToRgb(v1, v2, c.h), HueToRgb(v1, v2, c.h - 1.0 / 3.0), c.w)
  }

  lemma DivideBack(x: real, y: real)
    requires y != 0.0
    ensures y * (x / y) == x
  {
  }

  lemma QuotientAtLeast(x: real, y: real)
    requires 0.0 <= x && 0.0 < y <= 1.0
    ensures x / y >= x
  {
    var q := x / y;
    DivideBack(x, y);
    Nonnegative(q, y);
    Product(1.0 - y, q);
    assert (1.0 - y) * q == q - y * q;
  }

  lemma Nonnegative(q: real, y: real)
    requires y > 0.0
    ensures q >= 0.0 <==> y * q >= 0.0
  {
    if q < 0.0 {
      assert y * (-q) > 0.0;
    }
  }

  lemma Product(x: real, y: real)
    requires x >= 0.0 && y >= 0.0
    ensures x * y >= 0.0
  {
  }

  /** Lightness scaled up by the saturation is the largest channel again, below one half ... */
  lemma DarkLimit(sum: real, del: real)
    requires sum > 0.0
    ensures sum / 2.0 * (1.0 + del / sum) == (sum + del) / 2.0
  {
    var s := del / sum;
    DivideBack(del, sum);
    assert sum / 2.0 * s == sum * s / 2.0;
  }

  /** ... and above it. */
  lemma LightLimit(l: real, room: real, del: real)
    requires room > 0.0 && l == 1.0 - room / 2.0
    ensures (l + del / room) - del / room * l == l + del / 2.0
  {
    var s := del / room;
    DivideBack(del, room);
    assert s - s * l == s * (room / 2.0) == room * s / 2.0;
  }

  /** The upper limit of the hue ramp comes out as the largest channel. */
  lemma LimitRecovered(max: real, min: real)
    requires 0.0 <= min < max <= 1.0
    ensures Saturation(max, min) >= max - min
    ensures UpperLimit((max + min) / 2.0, Saturation(max, min)) == max
  {
    var l, del := (max + min) / 2.0, max - min;
    if l < 0.5 {
      QuotientAtLeast(del, max + min);
      DarkLimit(max + min, del);
    } else {
      QuotientAtLeast(del, 2.0 - max - min);
      LightLimit(l, 2.0 - max - min, del);
    }
  }

  /** The rising sixth of the hue ramp. */
  lemma Rising(v1: real, v2: real, a: real, vH: real)
    requires 0.0 <= a < 1.0 && (vH == a / 6.0 || vH == a / 6.0 + 1.0)
    ensures HueToRgb(v1, v2, vH) == v1 + a * (v2 - v1)
  {
    if a == 0.0 && vH == 1.0 {
      assert HueToRgb(v1, v2, vH) == v1;
    } else {
      assert UnwrapHue(vH) == a / 6.0;
      assert (v2 - v1) * 6.0 * (a / 6.0) == (v2 - v1) * a;
    }
  }

  /** The falling sixth. */
  lemma Falling(v1: real, v2: real, a: real, vH: real)
    requires 0.0 <= a <= 1.0 && vH == 2.0 / 3.0 - a / 6.0
    ensures HueToRgb(v1, v2, vH) == v1 + a * (v2 - v1)
  {
    var rest := 2.0 / 3.0 - vH;
    assert UnwrapHue(vH) == vH && rest == a / 6.0;
    assert (v2 - v1) * rest * 6.0 == (v2 - v1) * a;
  }

  /** The flat parts. */
  lemma Flat(v1: real, v2: real, vH: real)
    requires -1.0 <= vH <= 2.0
    ensures 1.0 <= 6.0 * UnwrapHue(vH) < 3.0 ==> HueToRgb(v1, v2, vH) == v2
    ensures 4.0 <= 6.0 * UnwrapHue(vH) ==> HueToRgb(v1, v2, vH) == v1
  {
  }

  /**
   * The three channels read off a hue that lies a sixths (from -1 to 1) from the middle of one channel's sector:
   * that channel, the next one in the order r, g, b, r, and the previous one.
   */
  lemma ThreeReadings(v1: real, v2: real, a: real, middle: real, next: real, previous: real)
    requires -1.0 <= a <= 1.0
    requires middle == 1.0 / 3.0 + a / 6.0 || (a < 0.0 && middle == 4.0 / 3.0 + a / 6.0)
    requires next == a / 6.0 || next == 1.0 + a / 6.0
    requires previous == a / 6.0 - 1.0 / 3.0 || previous == a / 6.0 + 2.0 / 3.0
    ensures HueToRgb(v1, v2, middle) == v2
    ensures HueToRgb(v1, v2, next) == v1 + Larger(a, 0.0) * (v2 - v1)
    ensures HueToRgb(v1, v2, previous) == v1 + Larger(-a, 0.0) * (v2 - v1)
  {
    Flat(v1, v2, middle);
    Flat(v1, v2, next);
    Flat(v1, v2, previous);
    if a == 1.0 {
      Falling(v1, v2, 1.0, middle);
    } else if a >= 0.0 {
      Rising(v1, v2, a, next);
    } else {
      Falling(v1, v2, -a, a / 6.0 + 2.0 / 3.0);
    }
  }

  lemma Difference(max: real, del: real, x: real, y: real)
    requires del != 0.0
    ensures ((max - x) / 6.0 + del / 2.0) / del - ((max - y) / 6.0 + del / 2.0) / del == (y - x) / del / 6.0
  {
    var p, q := (max - x) / 6.0 + del / 2.0, (max - y) / 6.0 + del / 2.0;
    DivideBack(p, del);
    DivideBack(q, del);
    DivideBack(y - x, del);
    assert del * (p / del - q / del - (y - x) / del / 6.0) == 0.0;
  }

  /** A difference of two channels, in units of the spread. */
  lemma Offset(c: RGB, next: real, previous: real) returns (a: real)
    requires c.Spread() > 0.0 && c.Min() <= next <= c.Max() && c.Min() <= previous <= c.Max()
    ensures a == (next - previous) / c.Spread() && -1.0 <= a <= 1.0
    ensures a * c.Spread() == next - previous
    ensures a >= 0.0 <==> next >= previous
  {
    var del := c.Spread();
    a := (next - previous) / del;
    DivideBack(next - previous, del);
    Nonnegative(a, del);
    Nonnegative(1.0 - a, del);
    Nonnegative(a + 1.0, del);
    assert del * (1.0 - a) == del - del * a && del * (a + 1.0) == del * a + del;
  }

  /** The hue, by the largest channel's sector and the offset within it. */
  lemma HueBySector(c: RGB, a: real)
    requires c.Spread() > 0.0 && -1.0 <= a <= 1.0
    ensures c.r == c.Max() && a == (c.g - c.b) / c.Spread() ==> Hue(c) == if a < 0.0 then 1.0 + a / 6.0 else a / 6.0
    ensures c.r != c.Max() && c.g == c.Max() && a == (c.b - c.r) / c.Spread() ==> Hue(c) == 1.0 / 3.0 + a / 6.0
    ensures c.r != c.Max() && c.g != c.Max() && a == (c.r - c.g) / c.Spread() ==> Hue(c) == 2.0 / 3.0 + a / 6.0
  {
    Difference(c.Max(), c.Spread(), c.b, c.g);
    Difference(c.Max(), c.Spread(), c.r, c.b);
    Difference(c.Max(), c.Spread(), c.g, c.r);
  }

  lemma ReadingsAreChannels(min: real, max: real, a: real, next: real, previous: real)
    requires a * (max - min) == next - previous && (a >= 0.0 <==> next >= previous)
    requires min == Smaller(next, previous)
    ensures min + Larger(a, 0.0) * (max - min) == next
    ensures min + Larger(-a, 0.0) * (max - min) == previous
  {
  }

  /** Converting back reads the three channels off a hue ramp between the smallest and the largest channel. */
  lemma BackFromHsl(c: RGB)
    requires c.InCube() && c.Spread() > EPSILON
    ensures HslToRgb(RgbToHsl(c)) ==
            RGB(HueToRgb(c.Min(), c.Max(), Hue(c) + 1.0 / 3.0), HueToRgb(c.Min(), c.Max(), Hue(c)),
                HueToRgb(c.Min(), c.Max(), Hue(c) - 1.0 / 3.0), c.w)
  {
    hide Hue, Saturation, HueToRgb, UpperLimit;
    LimitRecovered(c.Max(), c.Min());
  }

  /** The readings for one sector are the channels. */
  lemma SectorReadings(c: RGB, next: real, previous: real, middle: real, hNext: real, hPrevious: real)
    requires c.Spread() > 0.0 && c.Min() == Smaller(next, previous) && next <= c.Max() && previous <= c.Max()
    requires var a := (next - previous) / c.Spread();
             && (middle == 1.0 / 3.0 + a / 6.0 || (a < 0.0 && middle == 4.0 / 3.0 + a / 6.0))
             && (hNext == a / 6.0 || hNext == 1.0 + a / 6.0)
             && (hPrevious == a / 6.0 - 1.0 / 3.0 || hPrevious == a / 6.0 + 2.0 / 3.0)
    ensures HueToRgb(c.Min(), c.Max(), middle) == c.Max()
    ensures HueToRgb(c.Min(), c.Max(), hNext) == next
    ensures HueToRgb(c.Min(), c.Max(), hPrevious) == previous
  {
    hide HueToRgb;
    var a := Offset(c, next, previous);
    ThreeReadings(c.Min(), c.Max(), a, middle, hNext, hPrevious);
    ReadingsAreChannels(c.Min(), c.Max(), a, next, previous);
  }

  lemma HslChromaticRoundTrip(c: RGB)
    requires c.InCube() && c.Spread() > EPSILON
    ensures HslToRgb(RgbToHsl(c)) == c
  {
    hide Hue, Saturation, HueToRgb, UpperLimit, HslToRgb, RgbToHsl;
    BackFromHsl(c);
    var h := Hue(c);
    if c.r == c.Max() {
      var a := Offset(c, c.g, c.b);
      HueBySector(c, a);
      SectorReadings(c, c.g, c.b, h + 1.0 / 3.0, h, h - 1.0 / 3.0);
    } else if c.g == c.Max() {
      var a := Offset(c, c.b, c.r);
      HueBySector(c, a);
      SectorReadings(c, c.b, c.r, h, h - 1.0 / 3.0, h + 1.0 / 3.0);
    } else {
      var a := Offset(c, c.r, c.g);
      HueBySector(c, a);
      SectorReadings(c, c.r, c.g, h - 1.0 / 3.0, h + 1.0 / 3.0, h);
    }
  }

  /** There and back: exact for a coloured pixel, within half of the threshold for one taken as grey. */
  lemma HslRoundTrip(c: RGB)
    requires c.InCube()
    ensures c.Spread() > 0.000001 ==> HslToRgb(RgbToHsl(c)) == c
    ensures HslToRgb(RgbToHsl(c)).Near(c, 0.0000005)
  {
    if c.Spread() > EPSILON {
      HslChromaticRoundTrip(c);
    }
  }

  // ---- HSV ----

  predicate Chromatic(c: RGB) {
    Abs(c.Max()) > EPSILON && Abs(c.Spread()) > EPSILON
  }

  /** The hue in sixths of the circle, from -1 to 5. */
  function HueSixths(c: RGB): real
    requires c.Spread() != 0.0
  {
    if c.r == c.Max() then (c.g - c.b) / c.Spread()
    else if c.g == c.Max() then 2.0 + (c.b - c.r) / c.Spread()
    else 4.0 + (c.r - c.g) / c.Spread()
  }

  function RgbToHsv(c: RGB): HSV {
    if Chromatic(c) then
      var h := HueSixths(c) / 6.0;
      HSV(if h < 0.0 then h + 1.0 else h, c.Spread() / c.Max(), c.Max(), c.w)
    else
      HSV(0.0, 0.0, c.Max(), c.w)
  }

  function HsvToRgb(c: HSV): RGB {
    if Abs(c.s) < EPSILON then
      RGB(c.v, c.v, c.v, c.w)
    else
      var i := (6.0 * c.h).Floor;
      var f := 6.0 * c.h - i as real;
      Sector(i, c.v, Shade(c.v, c.s, 1.0), Shade(c.v, c.s, f), Shade(c.v, c.s, 1.0 - f), c.w)
  }

  /** The value lowered by a part f of what the saturation takes away. */
  function Shade(v: real, s: real, f: real): real { v * (1.0 - s * f) }

  function Sector(i: int, v: real, p: real, q: real, t: real, w: real): RGB {
    match i
    case 0 => RGB(v, t, p, w)
    case 1 => RGB(q, v, p, w)
    case 2 => RGB(p, v, t, w)
    case 3 => RGB(p, q, v, w)
    case 4 => RGB(t, p, v, w)
    case _ => RGB(v, p, q, w)
  }

  /** The falling and the rising edge of a sector, as channel values. */
  lemma Edges(v: real, del: real, f: real)
    requires v != 0.0
    ensures Shade(v, del / v, f) == v - f * del
  {
    DivideBack(del, v);
    assert v * (1.0 - del / v * f) == v - v * (del / v) * f;
  }

  lemma InSector(x: HSV, i: int, f: real)
    requires x.s >= EPSILON && 0.0 <= f < 1.0 && 6.0 * x.h == i as real + f
    ensures HsvToRgb(x) == Sector(i, x.v, Shade(x.v, x.s, 1.0), Shade(x.v, x.s, f), Shade(x.v, x.s, 1.0 - f), x.w)
  {
    hide Sector, Shade;
    assert (6.0 * x.h).Floor == i;
    assert 6.0 * x.h - i as real == f;
  }

  lemma HsvOfChromatic(c: RGB, sixths: real)
    requires c.InCube() && Chromatic(c)
    requires HueSixths(c) == sixths || (HueSixths(c) < 0.0 && HueSixths(c) + 6.0 == sixths)
    requires sixths >= 0.0
    ensures var x := RgbToHsv(c);
            && 6.0 * x.h == sixths && x.s == c.Spread() / c.Max() && x.s >= EPSILON
            && x.v == c.Max() && x.w == c.w
  {
    hide HueSixths;
    QuotientAtLeast(c.Spread(), c.Max());
  }

  lemma BackFromHsv(c: RGB, i: int, f: real)
    requires c.InCube() && Chromatic(c) && 0.0 <= f < 1.0
    requires HueSixths(c) == i as real + f || (HueSixths(c) < 0.0 && HueSixths(c) + 6.0 == i as real + f)
    requires 0 <= i
    ensures HsvToRgb(RgbToHsv(c)) ==
            Sector(i, c.Max(), c.Min(), c.Max() - f * c.Spread(), c.Min() + f * c.Spread(), c.w)
  {
    hide HueSixths, HsvToRgb, Shade, RgbToHsv;
    var x, v, del := RgbToHsv(c), c.Max(), c.Spread();
    HsvOfChromatic(c, i as real + f);
    InSector(x, i, f);
    Edges(v, del, 1.0);
    Edges(v, del, f);
    Edges(v, del, 1.0 - f);
    assert Shade(v, x.s, 1.0) == c.Min();
    assert Shade(v, x.s, 1.0 - f) == c.Min() + f * del by {
      assert (1.0 - f) * del == del - f * del;
    }
  }

  /** The sector and the place in it that a colour's hue falls in. */
  lemma SectorOf(c: RGB) returns (i: nat, f: real)
    requires c.Spread() > 0.0
    ensures 0.0 <= f < 1.0
    ensures HueSixths(c) == i as real + f || (HueSixths(c) < 0.0 && HueSixths(c) + 6.0 == i as real + f)
    ensures Sector(i, c.Max(), c.Min(), c.Max() - f * c.Spread(), c.Min() + f * c.Spread(), c.w) == c
  {
    var next, previous, base :=
      if c.r == c.Max() then c.g else if c.g == c.Max() then c.b else c.r,
      if c.r == c.Max() then c.b else if c.g == c.Max() then c.r else c.g,
      if c.r == c.Max() then 0 else if c.g == c.Max() then 2 else 4;
    var a := Offset(c, next, previous);
    assert HueSixths(c) == base as real + a;
    if a == 1.0 {
      i, f := base + 1, 0.0;
    } else if a >= 0.0 {
      i, f := base, a;
    } else {
      i, f := if base == 0 then 5 else base - 1, 1.0 + a;
      assert f * c.Spread() == c.Spread() + (next - previous);
    }
  }

  lemma HsvChromaticRoundTrip(c: RGB)
    requires c.InCube() && Chromatic(c)
    ensures HsvToRgb(RgbToHsv(c)) == c
  {
    var i, f := SectorOf(c);
    BackFromHsv(c, i, f);
  }

  /** There and back: exact when both the spread and the largest channel exceed the threshold, else within it. */
  lemma HsvRoundTrip(c: RGB)
    requires c.InCube()
    ensures c.Spread() > 0.000001 && c.Max() > 0.000001 ==> HsvToRgb(RgbToHsv(c)) == c
    ensures HsvToRgb(RgbToHsv(c)).Near(c, 0.000001)
  {
    if Chromatic(c) {
      HsvChromaticRoundTrip(c);
    }
  }
}
