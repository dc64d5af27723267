# Zero-emission routing: a Dafny model

This project is a Dafny model of the restricted-zone routing policy of the zero-emission map application and of the state it works on. Users place three kinds of things on the map:

- cars, which are either allowed or not allowed to enter restricted zones;
- restricted zones, which are circles or polygons;
- parking lots.

Users can also edit zones by dragging, inserting and removing vertices. They ask for directions by clicking a destination.

When a car that is not allowed in the zones picks a destination, the application checks two things: whether the destination lies in a zone, and whether the straight route crosses one. If either holds, the route is marked restricted. The application then proposes a parking lot as an alternate destination. It picks the lot that avoids every zone on both legs and has the smallest total leg length.

The model has five modules:

- `Types` (`types.dfy`): positions, zones, cars, parking lots and the interaction mode.
- `Geometry` (`geometry.dfy`): the point-in-zone tests, the segment tests and the two parking-lot searches.
  - The ray-casting test and the crossing test of a segment against a polygon are loop methods. Each is proved against a specification function: the parity of the crossing edges, and "some edge is hit or an end point is inside".
  - The segment-against-segment test is proved to mean, when the segments are not parallel, that the two segments share a point (Cramer's rule).
  - The best-lot search is a filter followed by a reduce; the nearest-lot search is a bare reduce. A single lemma about filtering and then reducing covers both, because filtering with a predicate that keeps everything changes nothing. Both searches are proved to return the first lot of minimal key.
- `Routing` (`routing.dfy`): the routing decision taken on a map click in directions mode. It also holds the map view's own state: the route and the three edit-tool flags.
- `ZoneEdits` (`zone_edits.dfy`): what each gesture on a zone asks the application to do. Vertex drag and midpoint insertion copy the ring into an array and change the copy in place.
- `AppModel` (`app.dfy`): the application state as a class whose handlers replace its fields. Its invariant is that a polygon being drawn has fewer than three points and every polygon zone has at least three.

Coordinates are exact reals. The haversine distance and the clamped projection used by the circle test are left uninterpreted: they are the fields of a `Metric` value, so every result holds for any distance function and any projection.

## Model

| member | source | states |
|---|---|---|
| Geometry.IsPointInCircle | src/utils/geometry.ts:3-6 | the circle contains exactly the points whose distance from the centre is at most the radius, boundary included |
| Geometry.Prev | src/utils/geometry.ts:12 | the loop pairs vertex `i` with the one before it, and vertex 0 with the last |
| Geometry.EdgeCrosses | src/utils/geometry.ts:18-19 | an edge whose end points have the same latitude (horizontal or of length zero) never counts as a crossing; its division is never reached |
| Geometry.Crossings | src/utils/geometry.ts:12-21 | the number of crossing edges among the first `k` visited is at most `k` |
| Geometry.CrossingsExtremes | src/utils/geometry.ts:12-21 | the count is zero exactly when none of the first `k` edges crosses the ray, and `k` exactly when all of them do |
| Geometry.ParityStep | src/utils/geometry.ts:18-20 | visiting edge `i` flips the parity of the count exactly when that edge crosses the ray |
| Geometry.IsPointInPolygon | src/utils/geometry.ts:8-24 | the flag that the loop toggles is true exactly when an odd number of the edges `(points[i], points[i-1])`, wrapping at 0, cross the ray |
| Geometry.IsPointInZone | src/utils/geometry.ts:3-32 | a circle contains exactly the points with `distance <= radius`, boundary included; a polygon uses the even-odd rule |
| Geometry.NoCrossingsBeyondLatitudes | src/utils/geometry.ts:12-21 | no edge crosses the ray of a point on or north of every vertex, or strictly south of every vertex |
| Geometry.EdgeWestOfPoint | src/utils/geometry.ts:18-19 | an edge with both end points on or west of the point never crosses its ray |
| Geometry.NoCrossingsEastOfRing | src/utils/geometry.ts:12-21 | no edge crosses the ray of a point on or east of every vertex |
| Geometry.OutsideBoundingBox | src/utils/geometry.ts:8-24 | a point beyond the ring's latitude band, or east of the whole ring, is outside the polygon |
| Geometry.UnitSquareExample | src/utils/geometry.ts:8-24 | the unit square contains (0.5, 0.5) and does not contain (2, 2) |
| Geometry.CramerSolution | src/utils/geometry.ts:115-119 | when the denominator is non-zero, `ua` and `ub` are the parameters of the lines' common point, and it is the only common point |
| Geometry.LineSegmentsIntersect | src/utils/geometry.ts:109-122 | false whenever the denominator is 0, so parallel and collinear segments are never reported; otherwise true exactly when the segments meet at parameters in [0, 1] |
| Geometry.SegmentExamples | src/utils/geometry.ts:115-121 | the diagonals of the unit square are reported; two overlapping pieces of one line share a point but are not reported |
| Geometry.LineIntersectsPolygon | src/utils/geometry.ts:88-107 | true exactly when some edge `(points[i], points[(i+1) % n])` meets the route, or either end of the route is inside the polygon |
| Geometry.LineIntersectsCircle | src/utils/geometry.ts:63-86 | the route touches the circle exactly when the route's point closest to the centre lies in the circle |
| Geometry.RouteIntersectsZone | src/utils/geometry.ts:124-130 | a circle is crossed when the distance from the closest route point to the centre is at most the radius; a polygon is crossed as the polygon test says |
| Geometry.RouteIntersectsAnyZone | src/utils/geometry.ts:132-134 | true exactly when the route crosses some zone of the list, so false for no zones |
| Geometry.Filter | src/utils/geometry.ts:140-143 | keeps exactly the elements that satisfy the predicate, and is no longer than its input |
| Geometry.FilterConcat | src/utils/geometry.ts:140-143 | filtering a concatenation filters each part and keeps the parts in order |
| Geometry.FilterSingleton | src/utils/geometry.ts:140-143 | a single element is kept exactly when it satisfies the predicate; with the concatenation lemma this fixes the order and the repetitions of the result |
| Geometry.ReduceMin | src/utils/geometry.ts:148-157 | the result is the seed or an element, and its key is at most the seed's key and every element's key |
| Geometry.FilterReduceFirstMinimum | src/utils/geometry.ts:148-157 | reducing a non-empty filtered list from its first element with a strict `<` yields the earliest kept element of minimal key |
| Geometry.FirstKept | src/utils/geometry.ts:140-157 | when only the last element of a list is kept, it is the first minimum and the reduce returns it |
| Geometry.LaterElement | src/utils/geometry.ts:148-157 | appending one element keeps the reduce's result at the first minimum: a strictly smaller kept element takes over, anything else leaves the result in place |
| Geometry.FirstMinimumExtend | src/utils/geometry.ts:148-157 | a first minimum stays one when an element that is dropped, or has no smaller key, is appended |
| Geometry.FilterKeepAll | src/utils/geometry.ts:53-61 | filtering with a predicate that keeps everything returns the list unchanged, so the bare reduce of the nearest-lot search is covered by the filter-then-reduce lemma |
| Geometry.NearestLotFirstMinimum | src/utils/geometry.ts:56-60 | the first minimum of the distance over all lots is no farther than any lot and strictly nearer than every lot before it |
| Geometry.FindNearestParkingLot | src/utils/geometry.ts:53-61 | no lot exactly when the list is empty; otherwise a lot of the list |
| Geometry.NearestParkingLotIsFirstMinimum | src/utils/geometry.ts:53-61 | the lot returned is the earliest lot of minimal distance from the point: no lot is nearer and every earlier lot is strictly farther |
| Geometry.LegsClear | src/utils/geometry.ts:140-143 | a lot is feasible exactly when no zone is crossed by the leg from the start to the lot or by the leg from the lot to the end |
| Geometry.DetourLength | src/utils/geometry.ts:149-154 | the key of a lot is the distance from the start to it plus the distance from it to the end |
| Geometry.ClearLotFirstMinimum | src/utils/geometry.ts:148-157 | the first minimum of the leg total among the feasible lots has clear legs, is no longer than any feasible lot and is strictly shorter than every feasible lot before it |
| Geometry.FindBestParkingLot | src/utils/geometry.ts:136-158 | no lot exactly when no lot has both legs clear of every zone; otherwise a lot of the list whose two legs are clear |
| Geometry.BestParkingLotIsFirstMinimum | src/utils/geometry.ts:136-158 | the lot returned is the earliest lot with both legs clear and minimal total leg length among such lots |
| Routing.PointInAnyZone | src/components/Map.tsx:105 | true exactly when some zone contains the point |
| Routing.DecideRoute | src/components/Map.tsx:103-127 | the destination is always the clicked point; the route is restricted exactly for a not-allowed car whose destination is in a zone or whose route crosses one; an allowed car gets no restriction and no alternate; an alternate exists exactly when the route is restricted and some lot has both legs clear, and it is the position of such a lot |
| Routing.DetourIsShortestClearLot | src/components/Map.tsx:109-121 | the alternate destination is the position of the earliest clear lot with minimal total leg length |
| Routing.MapView.constructor | src/components/Map.tsx:72-75 | no tool is active and there is no route |
| Routing.MapView.HandleAddVertex | src/components/Map.tsx:84-88 | only the add-vertex tool is active afterwards |
| Routing.MapView.HandleRemoveVertex | src/components/Map.tsx:90-94 | only the remove-vertex tool is active afterwards |
| Routing.MapView.HandleRotate | src/components/Map.tsx:96-100 | only the rotate tool is active afterwards |
| Routing.MapView.ClearRouteEffect | src/components/Map.tsx:77-82 | the route becomes empty whenever the mode is not directions or no car is selected, and is kept otherwise |
| Routing.MapView.HandleMapClick | src/components/Map.tsx:102-131 | outside directions mode, or with no selected car, the click is forwarded and the route is unchanged; otherwise the route becomes the routing decision for the selected car, with the clicked point as destination |
| ZoneEdits.CircleClick | src/components/map/ZoneMarkers.tsx:50-55 | a circle is selected exactly in edit mode, and nothing is asked otherwise |
| ZoneEdits.CenterDragEnd | src/components/map/ZoneMarkers.tsx:65-68 | dropping the centre handle sends an update holding only the new centre, for that zone's id |
| ZoneEdits.PolygonClick | src/components/map/ZoneMarkers.tsx:106-116 | in edit mode a click adds the clicked point as a vertex while the add-vertex tool is on, and selects the polygon otherwise; outside edit mode it asks nothing |
| ZoneEdits.VertexClick | src/components/map/ZoneMarkers.tsx:129-134 | removal of vertex `index` is asked exactly when the remove-vertex tool is on and the ring has more than three points |
| ZoneEdits.VertexDragEnd | src/components/map/ZoneMarkers.tsx:135-141 | the new ring has the same length, holds the new position at `index` and equals the old ring everywhere else |
| ZoneEdits.Halfway | src/components/map/ZoneMarkers.tsx:148-151 | the result is equally far from both points in each coordinate |
| ZoneEdits.Midpoint | src/components/map/ZoneMarkers.tsx:147-151 | the handle of edge `index` lies half-way to the next vertex, and the last edge wraps to vertex 0 |
| ZoneEdits.MidpointClick | src/components/map/ZoneMarkers.tsx:158-163 | the new ring is one longer, agrees with the old one up to `index`, holds the midpoint at `index + 1`, and holds the rest of the old ring shifted by one |
| AppModel.Decimal | src/App.tsx:153 | the numeral is a non-empty string of digits with no leading zero, one digit for numbers below ten |
| AppModel.DecimalRoundTrip | src/App.tsx:153 | reading back the numeral of `n` gives `n` |
| AppModel.ParkingName | src/App.tsx:153 | the name of a new lot is "Parking " followed by a string of digits, with no leading zero, whose value is the old lot count plus one |
| AppModel.ParkingNamesDistinct | src/App.tsx:149-156 | lots added at different list lengths get different names |
| AppModel.MoveCars | src/App.tsx:97-100 | the list keeps its length, ids and types; the car with the id gets the new position, and every other car keeps its own |
| AppModel.MoveLots | src/App.tsx:101-104 | the list keeps its length, ids and names; the lot with the id gets the new position, and every other lot keeps its own |
| AppModel.EditOne | src/App.tsx:164-173 | the zone keeps its id and shape and a circle keeps its radius; it takes the update only when its id matches and the update carries the field of its own shape, and is otherwise unchanged |
| AppModel.EditZones | src/App.tsx:163-174 | the zone count is kept and every zone is edited on its own |
| AppModel.ResizeOne | src/App.tsx:186-191 | only a circle with the id changes, and only its radius; polygons are untouched |
| AppModel.ResizeZones | src/App.tsx:185-192 | the zone count is kept and every zone is resized on its own |
| AppModel.AppendVertexOne | src/App.tsx:195-203 | a polygon with the id gets the point appended at the end of its ring, which grows by one; every other zone is unchanged |
| AppModel.AppendVertexZones | src/App.tsx:194-204 | the zone count is kept and the append applies to every zone on its own |
| AppModel.RemoveAt | src/App.tsx:209-210 | the element at `index` is removed when there is one, the elements before it stay and the ones after it shift down; an index past the end changes nothing |
| AppModel.RemoveVertexOne | src/App.tsx:207-217 | a polygon with the id loses the vertex at `index`, with no guard of its own; every other zone is unchanged |
| AppModel.RemoveVertexZones | src/App.tsx:206-218 | the zone count is kept and the removal applies to every zone on its own |
| AppModel.CenterDragKeepsRadius | src/components/map/ZoneMarkers.tsx:65-68 | dropping a circle's centre handle, through the edit handler, moves that circle, keeps its radius and leaves every other zone unchanged |
| AppModel.GuardedRemovalKeepsRings | src/components/map/ZoneMarkers.tsx:129-133 | a removal the vertex click asks for, applied by the remove handler, leaves every polygon with at least three points |
| AppModel.UnguardedRemovalBreaksTriangle | src/App.tsx:206-218 | without the vertex click's guard, the remove handler can leave a former triangle with two points |
| AppModel.EditKeepsRings | src/App.tsx:163-173 | an edit whose new ring has at least three points keeps every polygon at three points or more |
| AppModel.ResizeKeepsRings | src/App.tsx:184-191 | a resize keeps every polygon at three points or more |
| AppModel.AppendKeepsRings | src/App.tsx:193-203 | appending a vertex keeps every polygon at three points or more |
| AppModel.App.constructor | src/App.tsx:8-21 | no mode, an allowed car type, the circle shape, closed popovers, empty collections and nothing selected or edited |
| AppModel.App.HandleCarButtonClick | src/App.tsx:23-28 | the car popover opens, the zone popover closes, and the mode and the edited component are cleared |
| AppModel.App.HandleZoneButtonClick | src/App.tsx:30-35 | the zone popover opens, the car popover closes, and the mode and the edited component are cleared |
| AppModel.App.HandleParkingButtonClick | src/App.tsx:37-42 | the mode becomes add-parking, both popovers close and the edited component is cleared |
| AppModel.App.HandleEditButtonClick | src/App.tsx:44-53 | the mode toggles between edit and none, and leaving edit mode clears the edited component; both popovers close either way |
| AppModel.App.HandleCarTypeSelect | src/App.tsx:55-59 | the car type is set, the mode becomes add-car and the car popover closes |
| AppModel.App.HandleZoneTypeSelect | src/App.tsx:61-66 | the zone shape is set, the mode becomes add-zone, the zone popover closes and the drawing restarts empty |
| AppModel.App.HandlePopoverClose | src/App.tsx:68-71 | both popovers close |
| AppModel.App.HandleCarSelect | src/App.tsx:73-80 | in edit mode the car becomes the edited component; otherwise it becomes the selected car and the mode is cleared |
| AppModel.App.HandleZoneSelect | src/App.tsx:82-86 | in edit mode the zone becomes the edited component, and nothing changes otherwise |
| AppModel.App.HandleParkingSelect | src/App.tsx:88-92 | in edit mode the lot becomes the edited component, and nothing changes otherwise |
| AppModel.App.HandleComponentMove | src/App.tsx:94-106 | nothing changes when no component is edited or a zone is; otherwise only the car or the lot with the id moves, by the kind being edited, and the other collection is unchanged |
| AppModel.App.HandleGetDirections | src/App.tsx:108-113 | with a selected car the mode becomes directions and the edited component is cleared; otherwise nothing changes |
| AppModel.App.HandleMapClick | src/App.tsx:115-161 | add-car appends one car at the click with the current type; add-zone with a circle appends a 500 m circle at the click; add-zone with a polygon collects the point and, at three points, appends the polygon and resets the drawing; add-parking appends a lot named from the old count; directions mode only clears the mode; in every case the other collections are unchanged, and the drawing invariant is kept |
| AppModel.App.HandleZoneEdit | src/App.tsx:163-174 | the zones become the edited list, and every polygon keeps at least three points when the new ring has three |
| AppModel.App.HandleZoneResize | src/App.tsx:185-192 | the zones become the resized list, and the invariant is kept |
| AppModel.App.HandleZoneAddVertex | src/App.tsx:194-204 | the zones become the list with the vertex appended, and the invariant is kept |
| AppModel.App.HandleZoneRemoveVertex | src/App.tsx:206-218 | the zones become the list with the vertex removed, and the invariant is kept when every polygon with the id had more than three points |

## Left out

- The haversine `getDistance` (src/utils/geometry.ts:34-51) is left uninterpreted: it uses trigonometry over floating point. Nothing is assumed about it, not even symmetry or zero at equal points.
- The clamped projection in `lineIntersectsCircle` (src/utils/geometry.ts:64-82) is left uninterpreted. It uses a square root and normalisation. Only its final comparison against the radius is modelled.
- IEEE floating point is not modelled; all arithmetic is exact over the reals. In particular, `lineIntersectsCircle` divides by zero for a route of length zero, and the NaN that follows is not modelled.
- The resize-handle position and the radius computed from a dragged handle (src/components/map/ZoneMarkers.tsx:73-87) are not modelled. They use floating-point square roots and a metres-per-degree constant. The resize handler itself is modelled with the radius as a parameter.
- Route drawing (src/components/map/RouteLayer.tsx) is not part of this model. It is a network request with a fallback.
- Rendering is not part of this model: the markers, the legend, the edit controls, and the JSX and popovers of App.tsx and Map.tsx.
- The click hook (src/components/map/MapEvents.tsx) is not part of this model. It forwards a click only when a mode is set and it is not edit mode. Its effect shows in `AppModel.App.HandleMapClick`, where a click with no mode or in edit mode changes nothing.
- Fresh ids come from a uuid generator; here they are parameters. In the same way the two popover anchors are reduced to whether each popover is open.
- `handleZoneRotate` (src/App.tsx:176-183) is not modelled. It writes an angle field that nothing reads.
- The log line written in directions mode (src/App.tsx:158) is not modelled.
- The partial zone update accepted by the zone-edit handler is narrowed to the two forms the zone layer sends: a new centre or a new ring.
- A selected car is a copy taken when it is clicked. Moving the car later does not refresh it, and the model keeps that behaviour.
- `AppModel.App.HandleZoneRemoveVertex` takes a non-negative index. The zone layer only sends ring indices, so the behaviour of `splice` with a negative index is not modelled.
- The ray-casting loop visits the edges in ring order, starting with the closing edge from the last vertex to the first, and takes each edge from a vertex back to the one before it (src/utils/geometry.ts:12). The model follows the code.
- The code never checks that a zone's radius is positive, and the model does not either.
- The remove handler never rejects a removal that leaves a polygon with fewer than three points; only the vertex click guards against it. The model follows the code, and `AppModel.UnguardedRemovalBreaksTriangle` shows the handler alone allows it.
- Midpoint handles are drawn only while no edit tool is active (src/components/map/ZoneMarkers.tsx:146). That rendering condition is not modelled; `ZoneEdits.MidpointClick` models the click on a handle that is drawn.
