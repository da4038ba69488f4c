/** Intensity of a group relative to the largest group, and the blue-cyan-green-yellow-red
    colour ramp that renders it. Doubles are modelled as reals; the C# `(int)` conversion is
    modelled exactly as truncation toward zero. */
module HeatColor {

  /** The integer triple handed to `Color.FromRgb`. */
  datatype Rgb = Rgb(red: int, green: int, blue: int)

  /** Segment boundaries of the colour ramp, and the width of each of its four segments. */
  const CyanAt: real := 0.25
  const GreenAt: real := 0.5
  const YellowAt: real := 0.75
  const SegmentWidth: real := 0.25

  /** `Math.Min((double)count / maxCount, 1.0)`. The source has no guard against a zero
      maximum; its only caller passes the largest count of a non-empty group list. */
  function CalculateIntensity(count: int, maxCount: int): (r: real)
    requires maxCount != 0
    ensures r <= 1.0
    ensures 0 <= count && 0 < maxCount ==> 0.0 <= r
    ensures 1 <= count && 0 < maxCount ==> 0.0 < r
    ensures 0 < maxCount ==> (r == 1.0 <==> count >= maxCount)
    ensures 0 < maxCount && count <= maxCount ==> r * maxCount as real == count as real
  {
    var ratio := count as real / maxCount as real;
    if ratio < 1.0 then ratio else 1.0
  }

  /** The C# conversion `(int)x` of a finite double: truncation toward zero. */
  function Truncate(x: real): (n: int)
    ensures 0.0 <= x ==> n as real <= x < n as real + 1.0
    ensures x < 0.0 ==> n as real - 1.0 < x <= n as real
  {
    if x >= 0.0 then x.Floor else -((-x).Floor)
  }

  predicate InByteRange(c: Rgb)
  {
    0 <= c.red <= 255 && 0 <= c.green <= 255 && 0 <= c.blue <= 255
  }

  /** A fully saturated hue: some component is 255 and some component is 0. */
  predicate Saturated(c: Rgb)
  {
    (c.red == 255 || c.green == 255 || c.blue == 255) && (c.red == 0 || c.green == 0 || c.blue == 0)
  }

  /** The four-segment ramp with half-open thresholds; the last segment takes everything
      from 0.75 up. Each varying component is truncated, not rounded. */
  function GetHeatColor(intensity: real): (c: Rgb)
    ensures 0.0 <= intensity <= 1.0 ==> InByteRange(c)
    ensures Saturated(c)
  {
    if intensity < CyanAt then
      var ratio := intensity / SegmentWidth;
      Rgb(0, Truncate(255.0 * ratio), 255)
    else if intensity < GreenAt then
      var ratio := (intensity - CyanAt) / SegmentWidth;
      Rgb(0, 255, Truncate(255.0 * (1.0 - ratio)))
    else if intensity < YellowAt then
      var ratio := (intensity - GreenAt) / SegmentWidth;
      Rgb(Truncate(255.0 * ratio), 255, 0)
    else
      var ratio := (intensity - YellowAt) / SegmentWidth;
      Rgb(255, Truncate(255.0 * (1.0 - ratio)), 0)
  }

  /** A larger count never gives a smaller intensity. */
  lemma {:induction false} IntensityMonotone(count1: int, count2: int, maxCount: int)
    requires 0 < maxCount && count1 <= count2
    ensures CalculateIntensity(count1, maxCount) <= CalculateIntensity(count2, maxCount)
  {
    assert count1 as real / maxCount as real <= count2 as real / maxCount as real;
  }

  lemma {:induction false} TruncateMonotone(x: real, y: real)
    requires x <= y
    ensures Truncate(x) <= Truncate(y)
  {
  }

  /** The ramp is continuous at its joints: blue, cyan, green, yellow and red at the five
      segment endpoints. */
  lemma {:induction false} HeatColorEndpoints()
    ensures GetHeatColor(0.0) == Rgb(0, 0, 255)
    ensures GetHeatColor(0.25) == Rgb(0, 255, 255)
    ensures GetHeatColor(0.5) == Rgb(0, 255, 0)
    ensures GetHeatColor(0.75) == Rgb(255, 255, 0)
    ensures GetHeatColor(1.0) == Rgb(255, 0, 0)
  {
  }

  /** Components are truncated: 255 * 0.014 = 3.57 gives 3, where rounding would give 4. */
  lemma {:induction false} HeatColorTruncates()
    ensures GetHeatColor(0.0035) == Rgb(0, 3, 255)
  {
  }

  /** Pure red is not reserved for the largest group: 2000 points against a maximum of 2001
      give an intensity just below 1, whose green component (about 0.51) truncates to 0. */
  lemma {:induction false} NearMaximumAlsoRed()
    ensures CalculateIntensity(2000, 2001) < 1.0
    ensures GetHeatColor(CalculateIntensity(2000, 2001)) == Rgb(255, 0, 0)
  {
  }

  /** Over [0, 1] red never decreases and blue never increases with intensity; green rises
      up to 0.75 and falls from 0.25 on. */
  lemma {:induction false} HeatColorMonotone(i: real, j: real)
    requires 0.0 <= i <= j <= 1.0
    ensures GetHeatColor(i).red <= GetHeatColor(j).red
    ensures GetHeatColor(i).blue >= GetHeatColor(j).blue
    ensures j < YellowAt ==> GetHeatColor(i).green <= GetHeatColor(j).green
    ensures CyanAt <= i ==> GetHeatColor(i).green >= GetHeatColor(j).green
  {
    if i < CyanAt && j < CyanAt {
      TruncateMonotone(255.0 * (i / SegmentWidth), 255.0 * (j / SegmentWidth));
    } else if CyanAt <= i < GreenAt && CyanAt <= j < GreenAt {
      TruncateMonotone(255.0 * (1.0 - (j - CyanAt) / SegmentWidth), 255.0 * (1.0 - (i - CyanAt) / SegmentWidth));
    } else if GreenAt <= i < YellowAt && GreenAt <= j < YellowAt {
      TruncateMonotone(255.0 * ((i - GreenAt) / SegmentWidth), 255.0 * ((j - GreenAt) / SegmentWidth));
    } else if YellowAt <= i && YellowAt <= j {
      TruncateMonotone(255.0 * (1.0 - (j - YellowAt) / SegmentWidth), 255.0 * (1.0 - (i - YellowAt) / SegmentWidth));
    }
  }
}
