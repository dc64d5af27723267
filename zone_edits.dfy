/** The editing gestures of the zone layer (src/components/map/ZoneMarkers.tsx):
    what each click or drag on a zone, a vertex handle or a mid-point handle asks
    the application to do. The vertex drag and the mid-point insertion copy the
    ring and then change the copy in place. */
module ZoneEdits {
  import opened Types

  /** The two partial zone updates the zone layer sends: a new centre for a
      circle, or a new ring for a polygon. */
  datatype ZoneUpdate = CenterUpdate(center: LatLng) | PointsUpdate(points: seq<LatLng>)

  /** The callback, if any, that a gesture invokes. */
  datatype ZoneEvent =
    | NoEvent
    | SelectZone(zone: Zone)
    | EditZone(id: string, update: ZoneUpdate)
    | AddVertex(id: string, point: LatLng)
    | RemoveVertex(id: string, index: nat)

  /** Clicking a circle selects it, in edit mode only. */
  function CircleClick(zone: Zone, mode: Option<Mode>): (e: ZoneEvent)
    requires zone.Circle?
    ensures e == NoEvent || e == SelectZone(zone)
    ensures e.SelectZone? <==> mode == Some(Edit)
  {
    if mode == Some(Edit) then SelectZone(zone) else NoEvent
  }

  /** Dropping a circle's centre handle sends an update holding only the new
      centre. */
  function CenterDragEnd(zone: Zone, position: LatLng): (e: ZoneEvent)
    requires zone.Circle?
    ensures e.EditZone? && e.id == zone.id && e.update.CenterUpdate? && e.update.center == position
  {
    EditZone(zone.id, CenterUpdate(position))
  }

  /** Clicking a polygon in edit mode adds the clicked point as a vertex while the
      add-vertex tool is active, and selects the polygon otherwise. */
  function PolygonClick(zone: Zone, mode: Option<Mode>, addingVertex: bool, point: LatLng): (e: ZoneEvent)
    requires zone.Polygon?
    ensures mode != Some(Edit) ==> e == NoEvent
    ensures mode == Some(Edit) && addingVertex ==> e == AddVertex(zone.id, point)
    ensures mode == Some(Edit) && !addingVertex ==> e == SelectZone(zone)
  {
    if mode == Some(Edit) then
      if addingVertex then AddVertex(zone.id, point) else SelectZone(zone)
    else NoEvent
  }

  /** Clicking vertex `index` asks for its removal only while the remove-vertex
      tool is active and the ring has more than three points. */
  function VertexClick(zone: Zone, index: nat, removingVertex: bool): (e: ZoneEvent)
    requires zone.Polygon?
    ensures e == NoEvent || e == RemoveVertex(zone.id, index)
    ensures e.RemoveVertex? <==> removingVertex && |zone.points| > 3
  {
    if removingVertex && |zone.points| > 3 then RemoveVertex(zone.id, index) else NoEvent
  }

  /** Dropping vertex handle `index` at `position`: the ring is copied and the
      copy's element `index` is overwritten. */
  method VertexDragEnd(zone: Zone, index: nat, position: LatLng) returns (e: ZoneEvent)
    requires zone.Polygon? && index < |zone.points|
    ensures e.EditZone? && e.id == zone.id && e.update.PointsUpdate?
    ensures |e.update.points| == |zone.points|
    ensures e.update.points[index] == position
    ensures forall k :: 0 <= k < |zone.points| && k != index ==> e.update.points[k] == zone.points[k]
  {
    var newPoints := new LatLng[|zone.points|](k requires 0 <= k < |zone.points| => zone.points[k]);
    newPoints[index] := position;
    e := EditZone(zone.id, PointsUpdate(newPoints[..]));
  }

  /** The point half-way between `a` and `b`. */
  function Halfway(a: LatLng, b: LatLng): (mid: LatLng)
    ensures mid.lat - a.lat == b.lat - mid.lat && mid.lng - a.lng == b.lng - mid.lng
  {
    LatLng((a.lat + b.lat) / 2.0, (a.lng + b.lng) / 2.0)
  }

  /** The mid-point handle of edge `index`, which runs from vertex `index` to the
      next vertex of the closed ring: the last edge ends at the first vertex. */
  function Midpoint(points: seq<LatLng>, index: nat): (mid: LatLng)
    requires index < |points|
    ensures index + 1 < |points| ==> mid == Halfway(points[index], points[index + 1])
    ensures index + 1 == |points| ==> mid == Halfway(points[index], points[0])
  {
    var nextPoint := points[(index + 1) % |points|];
    Halfway(points[index], nextPoint)
  }

  /** Clicking the mid-point handle of edge `index`: the ring is copied and the
      mid-point spliced in at `index + 1`. The new ring is one longer; it agrees
      with the old one up to `index`, holds the mid-point at `index + 1`, and
      holds the rest of the old ring shifted by one. */
  method MidpointClick(zone: Zone, index: nat) returns (e: ZoneEvent)
    requires zone.Polygon? && index < |zone.points|
    ensures e.EditZone? && e.id == zone.id && e.update.PointsUpdate?
    ensures |e.update.points| == |zone.points| + 1
    ensures e.update.points[index + 1] == Midpoint(zone.points, index)
    ensures forall k :: 0 <= k <= index ==> e.update.points[k] == zone.points[k]
    ensures forall k :: index + 1 < k < |e.update.points| ==> e.update.points[k] == zone.points[k - 1]
  {
    var points := zone.points;
    var n := |points|;
    var midPoint := Midpoint(points, index);
    // splice(index + 1, 0, midPoint) on a copy: grow by one, shift the tail right
    var newPoints := new LatLng[n + 1];
    var k := 0;
    while k < n
      invariant 0 <= k <= n
      invariant forall i :: 0 <= i < k ==> newPoints[i] == points[i]
    {
      newPoints[k] := points[k];
      k := k + 1;
    }
    k := n;
    while k > index + 1
      invariant index + 1 <= k <= n
      invariant forall i :: 0 <= i < k ==> newPoints[i] == points[i]
      invariant forall i :: k < i <= n ==> newPoints[i] == points[i - 1]
    {
      newPoints[k] := newPoints[k - 1];
      k := k - 1;
    }
    newPoints[index + 1] := midPoint;
    e := EditZone(zone.id, PointsUpdate(newPoints[..]));
  }
}
