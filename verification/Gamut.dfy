/**
 * Clipping a colour given by luminance, chroma and hue direction to the triangle of non-negative
 * grading primaries, at constant luminance and hue.
 */
module Gamut {

  const D65_R: real := 0.21902143
  const D65_G: real := 0.54371398

  /** Luminance, chroma, and the hue's direction. */
  datatype Ych = Ych(y: real, c: real, cosH: real, sinH: real)

  datatype Yrg = Yrg(y: real, r: real, g: real)

  function YchToYrg(x: Ych): Yrg {
    Yrg(x.y, x.c * x.cosH + D65_R, x.c * x.sinH + D65_G)
  }

  predicate InGamut(x: Ych) {
    var p := YchToYrg(x);
    p.r >= 0.0 && p.g >= 0.0 && p.r + p.g <= 1.0
  }

  /** The triangle, in terms of chroma and hue around the white point. */
  lemma InGamutIff(x: Ych)
    ensures InGamut(x) <==>
            && x.c * x.cosH >= -0.21902143 && x.c * x.sinH >= -0.54371398
            && x.c * x.cosH + x.c * x.sinH <= 1.0 - 0.21902143 - 0.54371398
  {
  }

  function Smaller(a: real, b: real): real { if a < b then a else b }

  /** The chroma at which a hue of this slope reaches a side of the triangle at this height. */
  function Crossing(slope: real, height: real): real
    requires slope != 0.0
  {
    height / slope
  }

  function GamutCheck(x: Ych): Ych {
    var p := YchToYrg(x);
    var c0 := x.c;
    var c1 := if p.r < 0.0 then NotGrey(x.c, x.cosH, -D65_R); Smaller(Crossing(x.cosH, -D65_R), c0) else c0;
    var c2 := if p.g < 0.0 then NotGrey(x.c, x.sinH, -D65_G); Smaller(Crossing(x.sinH, -D65_G), c1) else c1;
    var c3 := if p.r + p.g > 1.0 then
                Sum(x);
                NotGrey(x.c, x.cosH + x.sinH, 1.0 - D65_R - D65_G);
                Smaller(Crossing(x.cosH + x.sinH, 1.0 - D65_R - D65_G), c2)
              else c2;
    x.(c := c3)
  }

  lemma Sum(x: Ych)
    ensures YchToYrg(x).r + YchToYrg(x).g == x.c * (x.cosH + x.sinH) + D65_R + D65_G
  {
  }

  /** A side that is crossed is not parallel to the hue. */
  lemma NotGrey(c: real, slope: real, limit: real)
    requires c * slope < limit < 0.0 || c * slope > limit > 0.0
    ensures slope != 0.0
  {
  }

  /** Crossing a lower side at height `limit`: below it exactly beyond the crossing chroma. */
  lemma LowerSide(c: real, slope: real, limit: real, d: real)
    requires c >= 0.0 && limit < 0.0 && c * slope < limit && 0.0 <= d
    ensures slope < 0.0 && 0.0 < limit / slope < c
    ensures d * slope >= limit <==> d <= limit / slope
  {
    Nonnegative(c, slope);
    var k := limit / slope;
    assert k * slope == limit;
    Scales(d, k, slope);
    Scales(k, d, slope);
    Scales(k, c, slope);
    Scales(c, k, slope);
    Scales(0.0, k, slope);
    Scales(k, 0.0, slope);
  }

  lemma Nonnegative(a: real, b: real)
    requires a >= 0.0
    ensures b >= 0.0 ==> a * b >= 0.0
  {
  }

  lemma Scales(a: real, b: real, slope: real)
    requires slope < 0.0
    ensures a < b ==> a * slope > b * slope
  {
    if a < b {
      assert (b - a) * slope < 0.0;
    }
  }

  /** The upper side, mirrored. */
  lemma UpperSide(c: real, slope: real, limit: real, d: real)
    requires c >= 0.0 && limit > 0.0 && c * slope > limit && 0.0 <= d
    ensures slope > 0.0 && 0.0 < limit / slope < c
    ensures d * slope <= limit <==> d <= limit / slope
  {
    assert c * -slope < -limit;
    LowerSide(c, -slope, -limit, d);
    assert limit / slope == -limit / -slope by {
      var k := -limit / -slope;
      assert k * -slope == -limit;
      assert k * slope == limit;
    }
    assert d * -slope == -(d * slope);
  }

  /** A lower chroma on the same hue never leaves a side that a higher one is inside of. */
  lemma Shrinks(c: real, d: real, slope: real, limit: real)
    requires 0.0 <= d <= c
    ensures limit < 0.0 && c * slope >= limit ==> d * slope >= limit
    ensures limit > 0.0 && c * slope <= limit ==> d * slope <= limit
  {
    if slope >= 0.0 {
      assert d * slope >= 0.0 && (c - d) * slope >= 0.0;
    } else {
      assert d * -slope >= 0.0 && (c - d) * -slope >= 0.0;
    }
  }

  /** The chroma up to which a lower side allows this hue, and likewise an upper side. */
  function LowerReach(c: real, slope: real, limit: real): real
    requires limit < 0.0
  {
    if c * slope < limit then NotGrey(c, slope, limit); Crossing(slope, limit) else c
  }

  function UpperReach(c: real, slope: real, limit: real): real
    requires limit > 0.0
  {
    if c * slope > limit then NotGrey(c, slope, limit); Crossing(slope, limit) else c
  }

  lemma LowerExact(c: real, slope: real, limit: real, d: real)
    requires 0.0 <= d <= c && limit < 0.0
    ensures d * slope >= limit <==> d <= LowerReach(c, slope, limit)
    ensures LowerReach(c, slope, limit) <= c
  {
    if c * slope < limit {
      LowerSide(c, slope, limit, d);
    } else {
      Shrinks(c, d, slope, limit);
    }
  }

  lemma UpperExact(c: real, slope: real, limit: real, d: real)
    requires 0.0 <= d <= c && limit > 0.0
    ensures d * slope <= limit <==> d <= UpperReach(c, slope, limit)
    ensures UpperReach(c, slope, limit) <= c
  {
    if c * slope > limit {
      UpperSide(c, slope, limit, d);
    } else {
      Shrinks(c, d, slope, limit);
    }
  }

  /** One side of the check, as a minimum with the side's reach. */
  lemma LowerStep(c: real, slope: real, height: real, best: real)
    requires height > 0.0 && best <= c
    ensures c * slope + height < 0.0 ==>
              slope != 0.0 && Smaller(Crossing(slope, -height), best) == Smaller(LowerReach(c, slope, -height), best)
    ensures c * slope + height >= 0.0 ==> best == Smaller(LowerReach(c, slope, -height), best)
  {
    if c * slope + height < 0.0 {
      NotGrey(c, slope, -height);
    }
  }

  lemma UpperStep(c: real, slope: real, room: real, best: real)
    requires room > 0.0 && best <= c
    ensures c * slope > room ==>
              slope != 0.0 && Smaller(Crossing(slope, room), best) == Smaller(UpperReach(c, slope, room), best)
    ensures c * slope <= room ==> best == Smaller(UpperReach(c, slope, room), best)
  {
    if c * slope > room {
      NotGrey(c, slope, room);
    }
  }

  lemma ClipByReach(x: Ych)
    requires LowerReach(x.c, x.cosH, -D65_R) <= x.c && LowerReach(x.c, x.sinH, -D65_G) <= x.c
    requires UpperReach(x.c, x.cosH + x.sinH, 1.0 - D65_R - D65_G) <= x.c
    ensures GamutCheck(x).c ==
            Smaller(UpperReach(x.c, x.cosH + x.sinH, 1.0 - D65_R - D65_G),
                    Smaller(LowerReach(x.c, x.sinH, -D65_G), LowerReach(x.c, x.cosH, -D65_R)))
  {
    hide LowerReach, UpperReach, Crossing;
    Sum(x);
    LowerStep(x.c, x.cosH, D65_R, x.c);
    var c1 := LowerReach(x.c, x.cosH, -D65_R);
    LowerStep(x.c, x.sinH, D65_G, c1);
    var c2 := Smaller(LowerReach(x.c, x.sinH, -D65_G), c1);
    UpperStep(x.c, x.cosH + x.sinH, 1.0 - D65_R - D65_G, c2);
  }

  /** For every lower chroma of the same hue: in gamut exactly when not above the clipped one. */
  lemma ClipIsExact(x: Ych, d: real)
    requires 0.0 <= d <= x.c
    ensures InGamut(x.(c := d)) <==> d <= GamutCheck(x).c
    ensures GamutCheck(x).c <= x.c
  {
    hide GamutCheck, LowerReach, UpperReach;
    LowerExact(x.c, x.cosH, -D65_R, d);
    LowerExact(x.c, x.sinH, -D65_G, d);
    UpperExact(x.c, x.cosH + x.sinH, 1.0 - D65_R - D65_G, d);
    ClipByReach(x);
    Sum(x.(c := d));
  }

  /**
   * The clip keeps luminance and hue, and yields the largest chroma in gamut that is not above the given one.
   */
  lemma ClipIsMaximal(x: Ych)
    requires x.c >= 0.0
    ensures var r := GamutCheck(x);
            && InGamut(r) && r.y == x.y && r.cosH == x.cosH && r.sinH == x.sinH
            && 0.0 <= r.c <= x.c
            && (forall d :: 0.0 <= d <= x.c && InGamut(x.(c := d)) ==> d <= r.c)
  {
    var r := GamutCheck(x);
    ClipIsExact(x, 0.0);
    assert YchToYrg(x.(c := 0.0)) == Yrg(x.y, D65_R, D65_G);
    ClipIsExact(x, r.c);
    forall d | 0.0 <= d <= x.c && InGamut(x.(c := d))
      ensures d <= r.c
    {
      ClipIsExact(x, d);
    }
  }

  /** Colours in gamut are left alone, and only those. */
  lemma ClipFixesGamut(x: Ych)
    requires x.c >= 0.0
    ensures GamutCheck(x) == x <==> InGamut(x)
  {
    ClipIsMaximal(x);
    ClipIsExact(x, x.c);
  }

  lemma ClipIsIdempotent(x: Ych)
    requires x.c >= 0.0
    ensures GamutCheck(GamutCheck(x)) == GamutCheck(x)
  {
    ClipIsMaximal(x);
    ClipFixesGamut(GamutCheck(x));
  }
}
