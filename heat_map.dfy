/** The heat-map pipeline: clear the map, group the points with a fixed 0.001 degree box,
    draw one circle per group coloured by its intensity against the largest group, and
    centre the map on the points. The MAUI map is represented by the elements it shows and
    the region it was last moved to. */
module HeatMap {
  import opened Models
  import opened Grouping
  import opened HeatColor
  import opened Viewport

  /** One circle overlay: centre, radius in metres and the colour used for the stroke (the
      fill is the same colour at alpha 0.3). */
  datatype Circle = Circle(centerLatitude: real, centerLongitude: real, radiusMeters: real, color: Rgb)

  /** The grouping box used by the pipeline, in degrees (about 100 metres). */
  const GroupingThreshold: real := 0.001
  /** The default circle radius in metres; the view passes 100 instead. */
  const DefaultRadius: real := 50.0

  /** The map control: the overlays it shows and the region it was last moved to (None
      before any move, standing for the platform's initial region). */
  class MapView {
    var elements: seq<Circle>
    var region: Option<Region>

    constructor ()
      ensures elements == [] && region == None
    {
      elements := [];
      region := None;
    }

    /** `MapElements.Clear()`. */
    method Clear()
      modifies this
      ensures elements == [] && region == old(region)
    {
      elements := [];
    }

    /** `MapElements.Add(circle)`. */
    method Add(circle: Circle)
      modifies this
      ensures elements == old(elements) + [circle] && region == old(region)
    {
      elements := elements + [circle];
    }

    /** `MoveToRegion(span)`. */
    method MoveToRegion(r: Region)
      modifies this
      ensures region == Some(r) && elements == old(elements)
    {
      region := Some(r);
    }
  }

  /** The LINQ `Max(g => g.Count)` of a non-empty group list. */
  function MaxCount(groups: seq<LocationGroup>): (m: int)
    requires |groups| > 0
    ensures exists k :: 0 <= k < |groups| && groups[k].count == m
    ensures forall k :: 0 <= k < |groups| ==> groups[k].count <= m
  {
    if |groups| == 1 then groups[0].count
    else
      var rest := MaxCount(groups[1..]);
      assert forall k :: 1 <= k < |groups| ==> groups[k] == groups[1..][k - 1];
      if groups[0].count >= rest then groups[0].count else rest
  }

  /** The circle drawn for one group. */
  function HeatCircle(group: LocationGroup, maxCount: int, radius: real): Circle
    requires maxCount != 0
  {
    Circle(group.latitude, group.longitude, radius, GetHeatColor(CalculateIntensity(group.count, maxCount)))
  }

  /** The circles drawn for a group list, in group order. */
  function HeatCircles(groups: seq<LocationGroup>, maxCount: int, radius: real): seq<Circle>
    requires maxCount != 0
  {
    seq(|groups|, k requires 0 <= k < |groups| => HeatCircle(groups[k], maxCount, radius))
  }

  /** Everything `CreateHeatMap` leaves on the map for `locations`: nothing for an empty
      list, otherwise one circle per group of the 0.001 degree grouping. */
  function HeatMapCircles(locations: seq<LocationPoint>, radius: real): seq<Circle>
  {
    if |locations| == 0 then []
    else
      var groups := Grouped(locations, GroupingThreshold);
      GroupedCounts(locations, GroupingThreshold);
      HeatCircles(groups, MaxCount(groups), radius)
  }

  /** Moves the map to the region framing `locations`; an empty list leaves it where it is. */
  method CenterMapOnLocations(heatMap: MapView, locations: seq<LocationPoint>)
    modifies heatMap
    ensures heatMap.elements == old(heatMap.elements)
    ensures heatMap.region == if |locations| == 0 then old(heatMap.region) else Some(CenterOn(locations))
  {
    if |locations| == 0 {
      return;
    }
    heatMap.MoveToRegion(CenterOn(locations));
  }

  /** Replaces the map's overlays by the heat map of `locations` and frames them. */
  method CreateHeatMap(heatMap: MapView, locations: seq<LocationPoint>, radius: real := DefaultRadius)
    modifies heatMap
    ensures heatMap.elements == HeatMapCircles(locations, radius)
    ensures heatMap.region == if |locations| == 0 then old(heatMap.region) else Some(CenterOn(locations))
  {
    heatMap.Clear();
    if |locations| == 0 {
      return;
    }
    var groupedLocations := GroupNearbyLocations(locations, GroupingThreshold);
    assert groupedLocations != [] && groupedLocations[0].count >= 1;
    ghost var maxCount := MaxCount(groupedLocations);
    assert maxCount >= 1;
    ghost var circles := HeatCircles(groupedLocations, maxCount, radius);
    assert HeatMapCircles(locations, radius) == circles;
    for i := 0 to |groupedLocations|
      invariant heatMap.elements == circles[..i]
      invariant heatMap.region == old(heatMap.region)
    {
      var group := groupedLocations[i];
      var intensity := CalculateIntensity(group.count, MaxCount(groupedLocations));
      var color := GetHeatColor(intensity);
      assert circles[i] == Circle(group.latitude, group.longitude, radius, color);
      PrefixGrows(circles, i);
      heatMap.Add(Circle(group.latitude, group.longitude, radius, color));
    }
    assert circles[..|groupedLocations|] == circles;
    CenterMapOnLocations(heatMap, locations);
  }

  lemma {:induction false} PrefixGrows<T>(s: seq<T>, i: nat)
    requires i < |s|
    ensures s[..i + 1] == s[..i] + [s[i]]
  {
  }

  // ---------------------------------------------------------------- properties of the output

  /** One circle per group, in group-creation order, each at its group's anchor, each with the
      caller's radius and a colour whose components are bytes; the intensity behind each
      colour lies in (0, 1]. Empty input draws nothing. */
  lemma {:induction false} HeatMapShape(locations: seq<LocationPoint>, radius: real)
    ensures var circles := HeatMapCircles(locations, radius);
      var groups := Grouped(locations, GroupingThreshold);
      && |circles| == |groups| <= |locations|
      && (|locations| == 0 ==> circles == [])
      && forall k :: 0 <= k < |circles| ==>
           && circles[k].centerLatitude == groups[k].latitude
           && circles[k].centerLongitude == groups[k].longitude
           && circles[k].radiusMeters == radius
           && InByteRange(circles[k].color)
           && 1 <= groups[k].count <= MaxCount(groups)
           && 0.0 < CalculateIntensity(groups[k].count, MaxCount(groups)) <= 1.0
  {
    GroupedCounts(locations, GroupingThreshold);
    if |locations| > 0 {
      var groups := Grouped(locations, GroupingThreshold);
      var m := MaxCount(groups);
      var circles := HeatCircles(groups, m, radius);
      assert circles == HeatMapCircles(locations, radius);
      forall k | 0 <= k < |circles|
        ensures && circles[k].centerLatitude == groups[k].latitude
                && circles[k].centerLongitude == groups[k].longitude
                && circles[k].radiusMeters == radius
                && InByteRange(circles[k].color)
                && 1 <= groups[k].count <= m
                && 0.0 < CalculateIntensity(groups[k].count, m) <= 1.0
      {
        assert circles[k] == HeatCircle(groups[k], m, radius);
        assert 1 <= groups[k].count <= m;
      }
    }
  }

  /** A group whose count is the batch maximum is drawn pure red. */
  lemma {:induction false} LargestGroupIsRed(locations: seq<LocationPoint>, radius: real, k: nat)
    requires k < |Grouped(locations, GroupingThreshold)|
    requires Grouped(locations, GroupingThreshold)[k].count == MaxCount(Grouped(locations, GroupingThreshold))
    ensures MaxCount(Grouped(locations, GroupingThreshold)) >= 1
    ensures CalculateIntensity(Grouped(locations, GroupingThreshold)[k].count, MaxCount(Grouped(locations, GroupingThreshold))) == 1.0
    ensures HeatMapCircles(locations, radius)[k].color == Rgb(255, 0, 0)
  {
    GroupedCounts(locations, GroupingThreshold);
    HeatColorEndpoints();
  }

  /** Redness follows group size: a group with at least as many points is drawn at least as
      red and at most as blue. */
  lemma {:induction false} RednessFollowsCount(locations: seq<LocationPoint>, radius: real, a: nat, b: nat)
    requires a < |Grouped(locations, GroupingThreshold)| && b < |Grouped(locations, GroupingThreshold)|
    requires Grouped(locations, GroupingThreshold)[a].count <= Grouped(locations, GroupingThreshold)[b].count
    ensures HeatMapCircles(locations, radius)[a].color.red <= HeatMapCircles(locations, radius)[b].color.red
    ensures HeatMapCircles(locations, radius)[a].color.blue >= HeatMapCircles(locations, radius)[b].color.blue
  {
    var groups := Grouped(locations, GroupingThreshold);
    GroupedCounts(locations, GroupingThreshold);
    var m := MaxCount(groups);
    assert groups[a].count >= 1;
    IntensityMonotone(groups[a].count, groups[b].count, m);
    HeatColorMonotone(CalculateIntensity(groups[a].count, m), CalculateIntensity(groups[b].count, m));
  }

  /** Three points, the first two 0.0005 degrees apart: two groups, the first holding two
      points and drawn red, the second holding one and drawn green (intensity 0.5). */
  lemma {:induction false} ThreePointExample()
    ensures var locations := [
        LocationPoint(1, 10.0, 20.0, 0, None),
        LocationPoint(2, 10.0005, 20.0005, 0, None),
        LocationPoint(3, 11.0, 21.0, 0, None)];
      && Grouped(locations, GroupingThreshold) == [LocationGroup(10.0, 20.0, 2), LocationGroup(11.0, 21.0, 1)]
      && HeatMapCircles(locations, 100.0) == [
           Circle(10.0, 20.0, 100.0, Rgb(255, 0, 0)),
           Circle(11.0, 21.0, 100.0, Rgb(0, 255, 0))]
  {
    var p1 := LocationPoint(1, 10.0, 20.0, 0, None);
    var p2 := LocationPoint(2, 10.0005, 20.0005, 0, None);
    var p3 := LocationPoint(3, 11.0, 21.0, 0, None);
    var locations := [p1, p2, p3];
    assert locations[..2] == [p1, p2] && [p1, p2][..1] == [p1] && [p1][..0] == [];
    var g1 := [LocationGroup(10.0, 20.0, 1)];
    assert Grouped([p1], GroupingThreshold) == g1;
    assert FirstFit(g1, p2, GroupingThreshold) == Some(0);
    var g2 := [LocationGroup(10.0, 20.0, 2)];
    assert Grouped([p1, p2], GroupingThreshold) == g2;
    assert FirstFit(g2, p3, GroupingThreshold) == None;
    var g3 := [LocationGroup(10.0, 20.0, 2), LocationGroup(11.0, 21.0, 1)];
    assert Grouped(locations, GroupingThreshold) == g3;
    assert MaxCount(g3) == 2;
    HeatColorEndpoints();
    assert CalculateIntensity(1, 2) == 0.5;
  }
}
