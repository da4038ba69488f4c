/** The region the map is moved to: the midpoint of the bounding box of the points, with a
    span taken from the larger side of the box at a flat 111000 metres per degree, never
    below 500 metres, and widened by half again for the radius handed to the map. */
module Viewport {
  import opened Models

  /** The arguments of `MapSpan.FromCenterAndRadius`: a centre and a radius in metres. */
  datatype Region = Region(centerLatitude: real, centerLongitude: real, radiusMeters: real)

  const MetersPerDegree: real := 111000.0
  const MinimumDistance: real := 500.0
  const RadiusFactor: real := 1.5

  /** `Math.Max` on reals. */
  function Max(a: real, b: real): real
  {
    if a >= b then a else b
  }

  function Latitudes(points: seq<LocationPoint>): seq<real>
  {
    seq(|points|, i requires 0 <= i < |points| => points[i].latitude)
  }

  function Longitudes(points: seq<LocationPoint>): seq<real>
  {
    seq(|points|, i requires 0 <= i < |points| => points[i].longitude)
  }

  /** The LINQ `Min` of a non-empty sequence. */
  function MinOf(xs: seq<real>): (m: real)
    requires |xs| > 0
    ensures m in xs
    ensures forall i :: 0 <= i < |xs| ==> m <= xs[i]
  {
    if |xs| == 1 then xs[0]
    else
      var rest := MinOf(xs[1..]);
      if xs[0] <= rest then xs[0] else rest
  }

  /** The LINQ `Max` of a non-empty sequence. */
  function MaxOf(xs: seq<real>): (m: real)
    requires |xs| > 0
    ensures m in xs
    ensures forall i :: 0 <= i < |xs| ==> xs[i] <= m
  {
    if |xs| == 1 then xs[0]
    else
      var rest := MaxOf(xs[1..]);
      if xs[0] >= rest then xs[0] else rest
  }

  /** The zoom distance in metres: the larger side of the bounding box in flat metres,
      clamped below at 500. */
  function ViewDistance(points: seq<LocationPoint>): (d: real)
    requires |points| > 0
    ensures d >= MinimumDistance
    ensures (MaxOf(Latitudes(points)) - MinOf(Latitudes(points))) * MetersPerDegree <= d
    ensures (MaxOf(Longitudes(points)) - MinOf(Longitudes(points))) * MetersPerDegree <= d
    ensures d == MinimumDistance
      || d == (MaxOf(Latitudes(points)) - MinOf(Latitudes(points))) * MetersPerDegree
      || d == (MaxOf(Longitudes(points)) - MinOf(Longitudes(points))) * MetersPerDegree
  {
    var latDelta := Abs(MaxOf(Latitudes(points)) - MinOf(Latitudes(points)));
    var lonDelta := Abs(MaxOf(Longitudes(points)) - MinOf(Longitudes(points)));
    var distance := Max(latDelta, lonDelta) * MetersPerDegree;
    Max(distance, MinimumDistance)
  }

  /** The region `CenterMapOnLocations` moves a non-empty point list's map to. */
  function CenterOn(points: seq<LocationPoint>): (r: Region)
    requires |points| > 0
    ensures MinOf(Latitudes(points)) <= r.centerLatitude <= MaxOf(Latitudes(points))
    ensures MinOf(Longitudes(points)) <= r.centerLongitude <= MaxOf(Longitudes(points))
    ensures r.centerLatitude - MinOf(Latitudes(points)) == MaxOf(Latitudes(points)) - r.centerLatitude
    ensures r.centerLongitude - MinOf(Longitudes(points)) == MaxOf(Longitudes(points)) - r.centerLongitude
    ensures r.radiusMeters == RadiusFactor * ViewDistance(points)
    ensures r.radiusMeters >= RadiusFactor * MinimumDistance
  {
    var minLat := MinOf(Latitudes(points));
    var maxLat := MaxOf(Latitudes(points));
    var minLon := MinOf(Longitudes(points));
    var maxLon := MaxOf(Longitudes(points));
    Region((minLat + maxLat) / 2.0, (minLon + maxLon) / 2.0, ViewDistance(points) * RadiusFactor)
  }

  /** Every point lies within half the zoom distance of the centre on each axis, measured in
      flat metres, so the region covers all points. */
  lemma {:induction false} CenterOnCoversPoints(points: seq<LocationPoint>, i: nat)
    requires i < |points|
    ensures var r := CenterOn(points);
      && 2.0 * Abs(points[i].latitude - r.centerLatitude) * MetersPerDegree <= ViewDistance(points)
      && 2.0 * Abs(points[i].longitude - r.centerLongitude) * MetersPerDegree <= ViewDistance(points)
  {
    assert Latitudes(points)[i] == points[i].latitude;
    assert Longitudes(points)[i] == points[i].longitude;
  }

  /** A single point, or points that all share one position, gives that position as the
      centre and the minimum radius 1.5 * 500 = 750 metres. */
  lemma {:induction false} CenterOnIdenticalPoints(points: seq<LocationPoint>)
    requires |points| > 0
    requires forall i :: 0 <= i < |points| ==>
      points[i].latitude == points[0].latitude && points[i].longitude == points[0].longitude
    ensures CenterOn(points) == Region(points[0].latitude, points[0].longitude, 750.0)
  {
    var lats, lons := Latitudes(points), Longitudes(points);
    assert forall i :: 0 <= i < |lats| ==> lats[i] == points[0].latitude;
    assert forall i :: 0 <= i < |lons| ==> lons[i] == points[0].longitude;
    assert MinOf(lats) == points[0].latitude == MaxOf(lats);
    assert MinOf(lons) == points[0].longitude == MaxOf(lons);
  }
}
