# Location heat map: a verified model of the heat-map helper

LocationHeatMapApp records a device's positions and draws them as a heat map. The
heat-map helper turns a list of stored location points into circle overlays and a
map viewport. It works in four steps:

1. **Grouping.** A greedy first-fit pass walks the points in input order. Each point
   joins the first existing group whose anchor lies strictly within 0.001 degrees of it
   on both latitude and longitude (an axis-aligned box). If no group's box holds the
   point, it opens a new group anchored at its own coordinates. Anchors never move,
   and only a group's count changes.
2. **Intensity.** Each group's intensity is `min(count / maxCount, 1)`, where
   `maxCount` is the largest group's count.
3. **Colour.** The intensity goes through a four-segment blue-cyan-green-yellow-red
   ramp. The thresholds are half-open, at 0.25, 0.5 and 0.75, and each varying
   component is truncated to an integer.
4. **Viewport.** The map centres on the midpoint of the points' bounding box. The zoom
   distance is the larger side of the box at a flat 111000 metres per degree, never less
   than 500 metres. The map is given a radius of 1.5 times that distance.

The helper clears the map first. It returns early on an empty list and draws one
circle per group, every circle with the same caller-supplied radius.

Files:

- `models.dfy` (module `Models`): the `LocationPoint` record and a stock `Option`.
- `grouping.dfy` (module `Grouping`): `LocationGroup`; the first-fit search
  `FirstFit`; the specification function `Grouped`; the in-place grouping loop
  `GroupNearbyLocations`, proved equal to `Grouped`; and the lemmas about the groups.
- `heat_color.dfy` (module `HeatColor`): `CalculateIntensity`; C#'s `(int)` conversion
  as `Truncate`; `GetHeatColor`; and their properties.
- `viewport.dfy` (module `Viewport`): LINQ `Min`/`Max`, the zoom distance and the
  region `CenterOn`.
- `heat_map.dfy` (module `HeatMap`): the map control as a class `MapView` (its overlays
  and its current region); the imperative `CreateHeatMap` and `CenterMapOnLocations`;
  the specification function `HeatMapCircles`; and the lemmas about the output.

C# `double` coordinates and intensities are modelled as Dafny `real`, so rounding, NaN
and infinities are abstracted away. The core uses only `+`, `-`, `*`, `/`, comparisons,
`Math.Abs`, `Math.Min`, `Math.Max` and the `(int)` cast, with no transcendental
functions, so every step has an exact counterpart over the reals; `Math.Abs` is the
single function `Models.Abs`.
The `(int)` cast is modelled as truncation toward zero, not as `Floor`. A null list
and an empty list take the same early return (`LocationHeatMapApp/Helpers/HeatMapHelper.cs:24`).
The model has only the empty sequence, which stands for both.

Where the code leaves a case to its caller, the model follows the code:

- A zero maximum could have been read as intensity 0. The code has no guard, so
  `CalculateIntensity` requires a non-zero maximum.
- A non-positive threshold or a negative radius could have been rejected. The code
  checks neither, and neither does the model. Only the partition lemmas
  (`EveryPointFits`, `CountIsMembership`) assume a positive threshold, because with a
  threshold of 0 or less a point's own new group does not contain it.
- The viewport could have been a returned value. The code moves the map, so
  the model has `CenterMapOnLocations` change `MapView.region`, with the region given
  by the function `CenterOn`.

## Model

| member | source | states |
|---|---|---|
| `Grouping.FirstFit` | LocationHeatMapApp/Helpers/HeatMapHelper.cs:61-63 | the result is the position of a group whose box holds the point, and no earlier group's box holds it; `None` only when no group's box holds it |
| `Grouping.FirstFitIsFirstNear` | LocationHeatMapApp/Helpers/HeatMapHelper.cs:61-63 | the `FirstOrDefault` result is determined by the box tests alone: the first group that passes is the one found |
| `Grouping.GroupNearbyLocations` | LocationHeatMapApp/Helpers/HeatMapHelper.cs:55-81 | the loop that updates the group list in place produces exactly the first-fit grouping `Grouped`; the counts sum to the number of points; every count is at least 1; there are no more groups than points |
| `Grouping.AddPointCounts` | LocationHeatMapApp/Helpers/HeatMapHelper.cs:65-76 | handling one point raises the total count by exactly one and keeps every count positive |
| `Grouping.AddPointKeepsAnchors` | LocationHeatMapApp/Helpers/HeatMapHelper.cs:65-76 | handling one point leaves every existing anchor in place and never lowers a count; it adds a group exactly when no existing box holds the point |
| `Grouping.AddPointSeparated` | LocationHeatMapApp/Helpers/HeatMapHelper.cs:61-76 | handling one point keeps the anchors pairwise outside each other's boxes |
| `Grouping.GroupedCounts` | LocationHeatMapApp/Helpers/HeatMapHelper.cs:57-80 | the counts sum to the number of input points, every group has count at least 1, and there are at most as many groups as points (none for empty input) |
| `Grouping.AnchorsNeverMove` | LocationHeatMapApp/Helpers/HeatMapHelper.cs:65-76 | the groups built from any prefix of the input keep their anchors, in the same positions, in the groups built from the whole input, and their counts only grow |
| `Grouping.GroupedSeparated` | LocationHeatMapApp/Helpers/HeatMapHelper.cs:61-76 | any two anchors differ by at least the threshold in latitude or in longitude |
| `Grouping.AnchorsComeFromOpeners` | LocationHeatMapApp/Helpers/HeatMapHelper.cs:69-76 | each anchor is exactly the coordinates of the input point that opened the group, and groups are ordered by the input position of their openers |
| `Grouping.OpenerIffUnfit` | LocationHeatMapApp/Helpers/HeatMapHelper.cs:61-76 | a point opens a new group if and only if no group built from the points before it has a box holding it |
| `Grouping.EveryPointFits` | LocationHeatMapApp/Helpers/HeatMapHelper.cs:59-78 | with a positive threshold, every input point lies within the box of some final group |
| `Grouping.CountIsMembership` | LocationHeatMapApp/Helpers/HeatMapHelper.cs:59-78 | partition: with a positive threshold, each group's count is the number of input points whose first holding box among the final anchors is that group's, so every point is counted in exactly one group |
| `HeatColor.CalculateIntensity` | LocationHeatMapApp/Helpers/HeatMapHelper.cs:86-89 | the intensity is at most 1; it is non-negative for a non-negative count, positive for a count of at least 1, equal to 1 exactly when the count reaches the maximum, and otherwise the ratio count / maxCount |
| `HeatColor.IntensityMonotone` | LocationHeatMapApp/Helpers/HeatMapHelper.cs:86-89 | a larger count never gives a smaller intensity |
| `HeatColor.Truncate` | LocationHeatMapApp/Helpers/HeatMapHelper.cs:100 | the C# `(int)` conversion truncates toward zero: below a non-negative value by less than 1, above a negative one by less than 1 |
| `HeatColor.GetHeatColor` | LocationHeatMapApp/Helpers/HeatMapHelper.cs:94-120 | for an intensity in [0, 1] every component is an integer in [0, 255]; every colour has one component at 255 and one at 0 |
| `HeatColor.HeatColorEndpoints` | LocationHeatMapApp/Helpers/HeatMapHelper.cs:94-120 | the segment endpoints 0, 0.25, 0.5, 0.75 and 1 map to blue, cyan, green, yellow and red |
| `HeatColor.HeatColorTruncates` | LocationHeatMapApp/Helpers/HeatMapHelper.cs:96-100 | components are truncated, not rounded: intensity 0.0035 gives green 3, where rounding 3.57 would give 4 |
| `HeatColor.NearMaximumAlsoRed` | LocationHeatMapApp/Helpers/HeatMapHelper.cs:114-118 | 2000 points against a maximum of 2001 give an intensity below 1 that is still drawn pure red, so red does not single out the largest group |
| `HeatColor.HeatColorMonotone` | LocationHeatMapApp/Helpers/HeatMapHelper.cs:94-120 | over [0, 1], red never decreases and blue never increases with intensity; green rises up to 0.75 and falls from 0.25 on |
| `Viewport.MinOf` | LocationHeatMapApp/Helpers/HeatMapHelper.cs:130-133 | the LINQ `Min` is an element of the sequence and no element lies below it |
| `Viewport.MaxOf` | LocationHeatMapApp/Helpers/HeatMapHelper.cs:130-133 | the LINQ `Max` is an element of the sequence and no element lies above it |
| `Viewport.ViewDistance` | LocationHeatMapApp/Helpers/HeatMapHelper.cs:138-143 | the distance is at least 500, at least each side of the bounding box in metres, and equal to 500 or to one of the two sides |
| `Viewport.CenterOn` | LocationHeatMapApp/Helpers/HeatMapHelper.cs:130-147 | the centre lies in the bounding box and is its midpoint on each axis; the radius is 1.5 times the distance, so at least 750 metres |
| `Viewport.CenterOnCoversPoints` | LocationHeatMapApp/Helpers/HeatMapHelper.cs:130-143 | every point lies within half the zoom distance of the centre on each axis, in flat metres |
| `Viewport.CenterOnIdenticalPoints` | LocationHeatMapApp/Helpers/HeatMapHelper.cs:130-147 | a single point, or points all at one position, gives that position as centre and radius 750 |
| `HeatMap.MaxCount` | LocationHeatMapApp/Helpers/HeatMapHelper.cs:32 | the LINQ `Max(g => g.Count)` is the count of some group and no group's count exceeds it |
| `HeatMap.MapView.Clear` | LocationHeatMapApp/Helpers/HeatMapHelper.cs:22 | clearing removes every overlay and leaves the region alone |
| `HeatMap.MapView.Add` | LocationHeatMapApp/Helpers/HeatMapHelper.cs:45 | adding appends one overlay and leaves the region alone |
| `HeatMap.MapView.MoveToRegion` | LocationHeatMapApp/Helpers/HeatMapHelper.cs:145-147 | moving sets the region and leaves the overlays alone |
| `HeatMap.CenterMapOnLocations` | LocationHeatMapApp/Helpers/HeatMapHelper.cs:125-148 | an empty list leaves the map unchanged; otherwise the map moves to `CenterOn(locations)` and its overlays are kept |
| `HeatMap.CreateHeatMap` | LocationHeatMapApp/Helpers/HeatMapHelper.cs:19-50 | afterwards the map shows exactly `HeatMapCircles(locations, radius)`; an empty list leaves the region unchanged, otherwise the map is centred by `CenterOn`; the radius defaults to 50 metres |
| `HeatMap.HeatMapShape` | LocationHeatMapApp/Helpers/HeatMapHelper.cs:22-46 | no circles for empty input; otherwise one circle per group, in group-creation order, at the group's anchor, with the caller's radius, a byte-range colour and an intensity in (0, 1] |
| `HeatMap.LargestGroupIsRed` | LocationHeatMapApp/Helpers/HeatMapHelper.cs:30-34 | a group whose count is the batch maximum gets intensity 1 and is drawn pure red |
| `HeatMap.RednessFollowsCount` | LocationHeatMapApp/Helpers/HeatMapHelper.cs:30-34 | a group with at least as many points is drawn at least as red and at most as blue |
| `HeatMap.ThreePointExample` | LocationHeatMapApp/Helpers/HeatMapHelper.cs:19-46 | points (10, 20), (10.0005, 20.0005), (11, 21) at radius 100 give two groups, counts 2 and 1, drawn red and green |

## Left out

- IEEE-754 doubles: coordinates, intensities and distances are reals, so rounding,
  NaN and infinities are not modelled.
- A null point list is not distinguished from an empty one: both take the same early
  return in the source.
- The MAUI map widget is represented by `MapView`: a sequence of circle records and the
  last region. The stroke width 2, the 0.3 fill alpha (`Color.WithAlpha`), the `Color`,
  `Distance` and `MapSpan` objects and any clamping inside `Color.FromRgb` are library
  internals that are not visible; the model stops at the integer triple passed to
  `Color.FromRgb`.
- `CalculateIntensity`: requires a non-zero maximum, because the source divides
  without a guard. IEEE division by zero would give an infinity or NaN, which reals
  cannot express. The only caller passes a maximum of at least 1.
- `Truncate`: does not model C#'s out-of-range `(int)` conversion, which only matters
  for intensities beyond about two million in magnitude.
- `GroupNearbyLocations`: does not model the 32-bit wrap-around of `Count++`, which
  would take more than two billion points.
- `GroupNearbyLocations`: the groups are mutable `LocationGroup` objects in the source.
  The model keeps them as values in a sequence that the loop reassigns. Nothing outside
  the method holds a reference to them, so no aliasing is lost.
- `GroupNearbyLocations`: the pairwise separation of anchors is stated by
  `GroupedSeparated` about `Grouped`, not in the method's own contract.
- `LargestGroupIsRed`: states one direction only. Pure red does not imply the maximum
  count, as `NearMaximumAlsoRed` shows.
- Running the grouping twice on the same input trivially gives the same groups: every
  model function is deterministic.
- `LocationHeatMapApp/Services/LocationService.cs` is not part of this model: it is a
  timed polling loop with cancellation plus OS permission and geolocation calls.
- `LocationHeatMapApp/Data/DatabaseService.cs` is not part of this model: it wraps
  SQLite, and its date-range filter is an ORM query.
- `LocationHeatMapApp/ViewModels/MainViewModel.cs` and
  `LocationHeatMapApp/Views/MainView.xaml.cs` are not part of this model: they hold UI
  binding, async commands, main-thread dispatch and dialogs. The view's radius of 100 is
  used in `ThreePointExample`.
- `LocationHeatMapApp/MauiProgram.cs` and `LocationHeatMapApp/App.xaml.cs` are not part
  of this model: they hold dependency injection and app start-up.
- `LocationHeatMapApp/Models/LocationPoint.cs` is a plain record, modelled as the
  `LocationPoint` datatype. Its `DateTime` timestamp is a tick count, and the core never
  reads the timestamp or the accuracy.
