/** Greedy first-fit grouping of location points into density groups. Each group is
    anchored at the exact coordinates of the point that opened it; a later point joins
    the first group, in creation order, whose anchor lies strictly within the threshold
    on both axes (an axis-aligned box, not a circle), and otherwise opens a new group. */
module Grouping {
  import opened Models

  /** A density group: its anchor and the number of points assigned to it. */
  datatype LocationGroup = LocationGroup(latitude: real, longitude: real, count: int)

  /** The box test between a group's anchor and a point. */
  predicate Near(g: LocationGroup, p: LocationPoint, threshold: real)
  {
    Abs(g.latitude - p.latitude) < threshold && Abs(g.longitude - p.longitude) < threshold
  }

  /** The same box test between the anchors of two groups. */
  predicate AnchorsOverlap(g: LocationGroup, h: LocationGroup, threshold: real)
  {
    Abs(g.latitude - h.latitude) < threshold && Abs(g.longitude - h.longitude) < threshold
  }

  predicate SameAnchor(g: LocationGroup, h: LocationGroup)
  {
    g.latitude == h.latitude && g.longitude == h.longitude
  }

  /** `b` keeps the anchors of `a`, in the same positions, and possibly more groups after them. */
  predicate AnchorsExtend(a: seq<LocationGroup>, b: seq<LocationGroup>)
  {
    |a| <= |b| && forall j :: 0 <= j < |a| ==> SameAnchor(a[j], b[j])
  }

  /** No two anchors lie within each other's box. */
  predicate Separated(groups: seq<LocationGroup>, threshold: real)
  {
    forall j, k :: 0 <= j < k < |groups| ==> !AnchorsOverlap(groups[j], groups[k], threshold)
  }

  /** The `FirstOrDefault` search: the position of the first group whose box holds `p`. */
  function FirstFit(groups: seq<LocationGroup>, p: LocationPoint, threshold: real): (r: Option<nat>)
    ensures r.Some? ==> r.value < |groups| && Near(groups[r.value], p, threshold)
    ensures forall j :: 0 <= j < |groups| && (r.None? || j < r.value) ==> !Near(groups[j], p, threshold)
  {
    if |groups| == 0 then None
    else if Near(groups[0], p, threshold) then Some(0)
    else match FirstFit(groups[1..], p, threshold)
      case None => None
      case Some(k) => Some(k + 1)
  }

  /** One step of the grouping loop: count `p` in its first fitting group, or open a new one. */
  function AddPoint(groups: seq<LocationGroup>, p: LocationPoint, threshold: real): seq<LocationGroup>
  {
    match FirstFit(groups, p, threshold)
    case Some(k) => groups[k := groups[k].(count := groups[k].count + 1)]
    case None => groups + [LocationGroup(p.latitude, p.longitude, 1)]
  }

  /** The groups built from `points`, visited in input order. */
  function Grouped(points: seq<LocationPoint>, threshold: real): seq<LocationGroup>
  {
    if |points| == 0 then []
    else AddPoint(Grouped(points[..|points| - 1], threshold), points[|points| - 1], threshold)
  }

  /** The sum of the counts of all groups. */
  function TotalCount(groups: seq<LocationGroup>): int
  {
    if |groups| == 0 then 0 else TotalCount(groups[..|groups| - 1]) + groups[|groups| - 1].count
  }

  /** The number of points among `points` whose first fitting group in `groups` is the `j`-th. */
  function CountFitting(points: seq<LocationPoint>, groups: seq<LocationGroup>, j: nat, threshold: real): nat
  {
    if |points| == 0 then 0
    else
      var n := |points| - 1;
      var here := if FirstFit(groups, points[n], threshold) == Some(j) then 1 else 0;
      CountFitting(points[..n], groups, j, threshold) + here
  }

  /** The input positions of the points that opened a group, in the order the groups were opened. */
  function Openers(points: seq<LocationPoint>, threshold: real): seq<nat>
  {
    if |points| == 0 then []
    else
      var n := |points| - 1;
      var earlier := Openers(points[..n], threshold);
      if FirstFit(Grouped(points[..n], threshold), points[n], threshold).None? then earlier + [n] else earlier
  }

  /** The grouping pass of the source: one visit per point, updating the group list in place. */
  method GroupNearbyLocations(locations: seq<LocationPoint>, threshold: real) returns (groups: seq<LocationGroup>)
    ensures groups == Grouped(locations, threshold)
    ensures TotalCount(groups) == |locations| && |groups| <= |locations|
    ensures forall j :: 0 <= j < |groups| ==> groups[j].count >= 1
  {
    groups := [];
    for i := 0 to |locations|
      invariant groups == Grouped(locations[..i], threshold)
    {
      var location := locations[i];
      var existingGroup := FirstFit(groups, location, threshold);
      if existingGroup.Some? {
        var k := existingGroup.value;
        groups := groups[k := groups[k].(count := groups[k].count + 1)];
      } else {
        groups := groups + [LocationGroup(location.latitude, location.longitude, 1)];
      }
      assert locations[..i + 1][..i] == locations[..i];
    }
    assert locations[..|locations|] == locations;
    GroupedCounts(locations, threshold);
  }

  // ---------------------------------------------------------------- first-fit search

  /** The first fitting group is determined by the box tests alone. */
  lemma {:induction false} FirstFitIsFirstNear(groups: seq<LocationGroup>, p: LocationPoint, threshold: real, k: nat)
    requires k < |groups| && Near(groups[k], p, threshold)
    requires forall j :: 0 <= j < k ==> !Near(groups[j], p, threshold)
    ensures FirstFit(groups, p, threshold) == Some(k)
  {
  }

  /** Appending groups, or changing counts, does not change where an already fitting point fits. */
  lemma {:induction false} FirstFitKeptByExtension(a: seq<LocationGroup>, b: seq<LocationGroup>, p: LocationPoint, threshold: real)
    requires AnchorsExtend(a, b) && FirstFit(a, p, threshold).Some?
    ensures FirstFit(b, p, threshold) == FirstFit(a, p, threshold)
  {
    var k := FirstFit(a, p, threshold).value;
    assert Near(b[k], p, threshold) by { assert SameAnchor(a[k], b[k]); }
    forall j | 0 <= j < k ensures !Near(b[j], p, threshold) {
      assert SameAnchor(a[j], b[j]);
      assert !Near(a[j], p, threshold);
    }
    FirstFitIsFirstNear(b, p, threshold, k);
  }

  // ---------------------------------------------------------------- counts

  lemma {:induction false} TotalCountUpdate(groups: seq<LocationGroup>, k: nat, g: LocationGroup)
    requires k < |groups|
    ensures TotalCount(groups[k := g]) == TotalCount(groups) - groups[k].count + g.count
  {
    var n := |groups| - 1;
    if k == n {
      assert groups[k := g][..n] == groups[..n];
    } else {
      TotalCountUpdate(groups[..n], k, g);
      assert groups[k := g][..n] == groups[..n][k := g];
    }
  }

  lemma {:induction false} TotalCountAppend(groups: seq<LocationGroup>, g: LocationGroup)
    ensures TotalCount(groups + [g]) == TotalCount(groups) + g.count
  {
    assert (groups + [g])[..|groups|] == groups;
  }

  /** One step adds exactly one to the total and keeps every count positive. */
  lemma {:induction false} AddPointCounts(groups: seq<LocationGroup>, p: LocationPoint, threshold: real)
    ensures TotalCount(AddPoint(groups, p, threshold)) == TotalCount(groups) + 1
    ensures (forall j :: 0 <= j < |groups| ==> groups[j].count >= 1) ==>
      forall j :: 0 <= j < |AddPoint(groups, p, threshold)| ==> AddPoint(groups, p, threshold)[j].count >= 1
  {
    match FirstFit(groups, p, threshold)
    case Some(k) =>
      TotalCountUpdate(groups, k, groups[k].(count := groups[k].count + 1));
    case None =>
      TotalCountAppend(groups, LocationGroup(p.latitude, p.longitude, 1));
  }

  /** One step keeps every anchor in place, never lowers a count, and adds a group exactly
      when no box holds the point. */
  lemma {:induction false} AddPointKeepsAnchors(groups: seq<LocationGroup>, p: LocationPoint, threshold: real)
    ensures AnchorsExtend(groups, AddPoint(groups, p, threshold))
    ensures forall j :: 0 <= j < |groups| ==> AddPoint(groups, p, threshold)[j].count >= groups[j].count
    ensures |AddPoint(groups, p, threshold)| == if FirstFit(groups, p, threshold).None? then |groups| + 1 else |groups|
  {
  }

  /** One step keeps the anchors pairwise separated. */
  lemma {:induction false} AddPointSeparated(groups: seq<LocationGroup>, p: LocationPoint, threshold: real)
    requires Separated(groups, threshold)
    ensures Separated(AddPoint(groups, p, threshold), threshold)
  {
    var after := AddPoint(groups, p, threshold);
    AddPointKeepsAnchors(groups, p, threshold);
    forall j, k | 0 <= j < k < |after| ensures !AnchorsOverlap(after[j], after[k], threshold) {
      assert SameAnchor(groups[j], after[j]);
      if k < |groups| {
        assert SameAnchor(groups[k], after[k]);
        assert !AnchorsOverlap(groups[j], groups[k], threshold);
      } else {
        assert !Near(groups[j], p, threshold);
      }
    }
  }

  /** Every point is counted once, every group holds at least one point, and there are never
      more groups than points. */
  lemma {:induction false} GroupedCounts(points: seq<LocationPoint>, threshold: real)
    ensures var groups := Grouped(points, threshold);
      && TotalCount(groups) == |points|
      && |groups| <= |points|
      && forall j :: 0 <= j < |groups| ==> groups[j].count >= 1
  {
    if |points| > 0 {
      var n := |points| - 1;
      GroupedCounts(points[..n], threshold);
      AddPointCounts(Grouped(points[..n], threshold), points[n], threshold);
      AddPointKeepsAnchors(Grouped(points[..n], threshold), points[n], threshold);
    }
  }

  // ---------------------------------------------------------------- anchors

  lemma {:induction false} AnchorsExtendTransitive(a: seq<LocationGroup>, b: seq<LocationGroup>, c: seq<LocationGroup>)
    requires AnchorsExtend(a, b) && AnchorsExtend(b, c)
    ensures AnchorsExtend(a, c)
  {
    forall j | 0 <= j < |a| ensures SameAnchor(a[j], c[j]) {
      assert SameAnchor(a[j], b[j]) && SameAnchor(b[j], c[j]);
    }
  }

  /** Anchors never move: the groups built from a prefix of the input keep their anchors, in
      their positions, in the groups built from the whole input, and their counts only grow. */
  lemma {:induction false} AnchorsNeverMove(points: seq<LocationPoint>, threshold: real, n: nat)
    requires n <= |points|
    ensures var early := Grouped(points[..n], threshold);
      var late := Grouped(points, threshold);
      && AnchorsExtend(early, late)
      && forall j :: 0 <= j < |early| ==> early[j].count <= late[j].count
    decreases |points| - n
  {
    if n == |points| {
      assert points[..n] == points;
    } else {
      var m := |points| - 1;
      var prefix := points[..m];
      assert prefix[..n] == points[..n];
      AnchorsNeverMove(prefix, threshold, n);
      AddPointKeepsAnchors(Grouped(prefix, threshold), points[m], threshold);
      AnchorsExtendTransitive(Grouped(points[..n], threshold), Grouped(prefix, threshold), Grouped(points, threshold));
    }
  }

  /** A new group is opened only when no existing box holds the point, so no two anchors lie
      within each other's box. */
  lemma {:induction false} GroupedSeparated(points: seq<LocationPoint>, threshold: real)
    ensures Separated(Grouped(points, threshold), threshold)
  {
    if |points| > 0 {
      var n := |points| - 1;
      GroupedSeparated(points[..n], threshold);
      AddPointSeparated(Grouped(points[..n], threshold), points[n], threshold);
    }
  }

  /** Each anchor is the exact position of the input point that opened the group, and the
      openers appear in input order. */
  lemma {:induction false} AnchorsComeFromOpeners(points: seq<LocationPoint>, threshold: real)
    ensures var groups := Grouped(points, threshold);
      var openers := Openers(points, threshold);
      && |openers| == |groups|
      && (forall j :: 0 <= j < |openers| ==> openers[j] < |points|)
      && (forall j, k :: 0 <= j < k < |openers| ==> openers[j] < openers[k])
      && (forall j :: 0 <= j < |groups| ==>
            groups[j].latitude == points[openers[j]].latitude
            && groups[j].longitude == points[openers[j]].longitude)
  {
    OpenersBelow(points, threshold);
    OpenersIncreasing(points, threshold);
    OpenersAreAnchors(points, threshold);
  }

  lemma {:induction false} OpenersIncreasing(points: seq<LocationPoint>, threshold: real)
    ensures forall j, k :: 0 <= j < k < |Openers(points, threshold)| ==>
      Openers(points, threshold)[j] < Openers(points, threshold)[k]
  {
    if |points| > 0 {
      OpenersIncreasing(points[..|points| - 1], threshold);
      OpenersBelow(points[..|points| - 1], threshold);
    }
  }

  lemma {:induction false} OpenersAreAnchors(points: seq<LocationPoint>, threshold: real)
    ensures var groups := Grouped(points, threshold);
      var openers := Openers(points, threshold);
      && |openers| == |groups|
      && (forall j :: 0 <= j < |openers| ==> openers[j] < |points|)
      && (forall j :: 0 <= j < |groups| ==>
            groups[j].latitude == points[openers[j]].latitude
            && groups[j].longitude == points[openers[j]].longitude)
  {
    OpenersBelow(points, threshold);
    if |points| > 0 {
      var n := |points| - 1;
      var prefix := points[..n];
      var before := Grouped(prefix, threshold);
      var earlier := Openers(prefix, threshold);
      OpenersAreAnchors(prefix, threshold);
      AddPointKeepsAnchors(before, points[n], threshold);
      var groups := Grouped(points, threshold);
      var openers := Openers(points, threshold);
      forall j | 0 <= j < |groups|
        ensures groups[j].latitude == points[openers[j]].latitude
        ensures groups[j].longitude == points[openers[j]].longitude
      {
        if j < |before| {
          assert SameAnchor(before[j], groups[j]);
          assert openers[j] == earlier[j];
          assert prefix[earlier[j]] == points[earlier[j]];
        }
      }
    }
  }

  /** A point opens a group exactly when no group built from the points before it has a box
      holding it. */
  lemma {:induction false} OpenerIffUnfit(points: seq<LocationPoint>, threshold: real, i: nat)
    requires i < |points|
    ensures i in Openers(points, threshold) <==> FirstFit(Grouped(points[..i], threshold), points[i], threshold).None?
  {
    var n := |points| - 1;
    var prefix := points[..n];
    var fits := FirstFit(Grouped(prefix, threshold), points[n], threshold);
    assert Openers(points, threshold) == if fits.None? then Openers(prefix, threshold) + [n] else Openers(prefix, threshold);
    if i == n {
      OpenersBelow(prefix, threshold);
      assert n !in Openers(prefix, threshold);
    } else {
      OpenerIffUnfit(prefix, threshold, i);
      assert prefix[..i] == points[..i];
      assert i in Openers(points, threshold) <==> i in Openers(prefix, threshold);
    }
  }

  lemma {:induction false} OpenersBelow(points: seq<LocationPoint>, threshold: real)
    ensures forall j :: 0 <= j < |Openers(points, threshold)| ==> Openers(points, threshold)[j] < |points|
  {
    if |points| > 0 {
      OpenersBelow(points[..|points| - 1], threshold);
    }
  }

  // ---------------------------------------------------------------- membership

  /** With a positive threshold every point fits some final group (at the latest the one it opened). */
  lemma {:induction false} EveryPointFits(points: seq<LocationPoint>, threshold: real)
    requires threshold > 0.0
    ensures forall i :: 0 <= i < |points| ==> FirstFit(Grouped(points, threshold), points[i], threshold).Some?
  {
    if |points| > 0 {
      var n := |points| - 1;
      var prefix := points[..n];
      var before := Grouped(prefix, threshold);
      var after := Grouped(points, threshold);
      EveryPointFits(prefix, threshold);
      AddPointKeepsAnchors(before, points[n], threshold);
      forall i | 0 <= i < |points| ensures FirstFit(after, points[i], threshold).Some? {
        if i < n {
          assert prefix[i] == points[i];
          FirstFitKeptByExtension(before, after, points[i], threshold);
        } else if FirstFit(before, points[n], threshold).Some? {
          FirstFitKeptByExtension(before, after, points[n], threshold);
        } else {
          assert Near(after[|before|], points[n], threshold);
        }
      }
    }
  }

  lemma {:induction false} CountFittingKeptByExtension(points: seq<LocationPoint>, a: seq<LocationGroup>, b: seq<LocationGroup>, j: nat, threshold: real)
    requires AnchorsExtend(a, b)
    requires forall i :: 0 <= i < |points| ==> FirstFit(a, points[i], threshold).Some?
    ensures CountFitting(points, b, j, threshold) == CountFitting(points, a, j, threshold)
  {
    if |points| > 0 {
      var n := |points| - 1;
      CountFittingKeptByExtension(points[..n], a, b, j, threshold);
      FirstFitKeptByExtension(a, b, points[n], threshold);
    }
  }

  lemma {:induction false} CountFittingBeyond(points: seq<LocationPoint>, groups: seq<LocationGroup>, j: nat, threshold: real)
    requires j >= |groups|
    ensures CountFitting(points, groups, j, threshold) == 0
  {
    if |points| > 0 {
      CountFittingBeyond(points[..|points| - 1], groups, j, threshold);
    }
  }

  /** One step of the partition proof: if the counts of `before` are the membership counts of
      `prefix`, then the counts after adding `p` are the membership counts of `prefix + [p]`. */
  lemma {:induction false} MembershipStep(prefix: seq<LocationPoint>, p: LocationPoint, before: seq<LocationGroup>, j: nat, threshold: real)
    requires threshold > 0.0
    requires forall i :: 0 <= i < |prefix| ==> FirstFit(before, prefix[i], threshold).Some?
    requires forall k: nat :: k < |before| ==> before[k].count == CountFitting(prefix, before, k, threshold)
    requires j < |AddPoint(before, p, threshold)|
    ensures AddPoint(before, p, threshold)[j].count == CountFitting(prefix + [p], AddPoint(before, p, threshold), j, threshold)
  {
    var after := AddPoint(before, p, threshold);
    AddPointKeepsAnchors(before, p, threshold);
    assert (prefix + [p])[..|prefix|] == prefix;
    CountFittingKeptByExtension(prefix, before, after, j, threshold);
    match FirstFit(before, p, threshold)
    case Some(k) =>
      FirstFitKeptByExtension(before, after, p, threshold);
    case None =>
      FirstFitIsFirstNear(after, p, threshold, |before|);
      if j == |before| {
        CountFittingBeyond(prefix, before, j, threshold);
      }
  }

  /** Partition: with a positive threshold, the count of every group is the number of input
      points whose first fitting group, among the final anchors, is that group. Together with
      FirstFit's contract this says every point is counted in exactly one group, the first
      one in creation order whose box holds it. */
  lemma {:induction false} CountIsMembership(points: seq<LocationPoint>, threshold: real)
    requires threshold > 0.0
    ensures forall j: nat :: j < |Grouped(points, threshold)| ==>
      Grouped(points, threshold)[j].count == CountFitting(points, Grouped(points, threshold), j, threshold)
  {
    if |points| > 0 {
      var n := |points| - 1;
      var prefix := points[..n];
      assert points == prefix + [points[n]];
      var before := Grouped(prefix, threshold);
      CountIsMembership(prefix, threshold);
      EveryPointFits(prefix, threshold);
      forall j: nat | j < |Grouped(points, threshold)|
        ensures Grouped(points, threshold)[j].count == CountFitting(points, Grouped(points, threshold), j, threshold)
      {
        MembershipStep(prefix, points[n], before, j, threshold);
      }
    }
  }
}
