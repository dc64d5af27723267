/** The application state of src/App.tsx and the handlers that replace its
    fields: adding cars, zones and parking lots by clicking, moving a car or a lot,
    and the zone edits the zone layer asks for. Ids, which the application draws
    from a uuid generator, are parameters; the two popover anchors are reduced to
    whether each popover is open. */
module AppModel {
  import opened Types
  import opened ZoneEdits

  datatype Shape = CircleShape | PolygonShape

  datatype ComponentKind = CarComponent | ZoneComponent | ParkingComponent

  /** The component being edited: its kind and its id. */
  datatype EditingComponent = EditingComponent(kind: ComponentKind, id: string)

  /** The radius, in metres, of a circle zone added by a click. */
  const InitialRadius: real := 500.0

  /** The number of clicked points that completes a polygon zone. */
  const PolygonPoints: nat := 3

  // ---------------------------------------------------------------------------
  // Names of new parking lots

  function Digit(d: nat): char
    requires d < 10
  {
    "0123456789"[d]
  }

  lemma DigitValue(d: nat)
    requires d < 10
    ensures (Digit(d) as int) - ('0' as int) == d
  {
  }

  /** The decimal numeral of `n`, as a template literal prints it: no leading
      zero except in the numeral of zero itself. */
  function Decimal(n: nat): (s: string)
    ensures |s| >= 1
    ensures forall c :: c in s ==> '0' <= c <= '9'
    ensures n < 10 ==> s == [Digit(n)]
    ensures s[0] == '0' ==> n == 0
  {
    if n < 10 then [Digit(n)] else Decimal(n / 10) + [Digit(n % 10)]
  }

  /** The value of a string of decimal digits; the inverse of `Decimal`. */
  function DecimalValue(s: string): nat
    requires forall c :: c in s ==> '0' <= c <= '9'
  {
    if s == [] then 0
    else
      var init, last := s[..|s| - 1], s[|s| - 1];
      assert last in s && forall c :: c in init ==> c in s;
      DecimalValue(init) * 10 + ((last as int) - ('0' as int))
  }

  lemma {:induction false} DecimalRoundTrip(n: nat)
    ensures DecimalValue(Decimal(n)) == n
    decreases n
  {
    if n >= 10 {
      var s := Decimal(n);
      assert s[..|s| - 1] == Decimal(n / 10);
      assert s[|s| - 1] == Digit(n % 10);
      DigitValue(n % 10);
      DecimalRoundTrip(n / 10);
      assert n == n / 10 * 10 + n % 10;
    } else {
      DigitValue(n);
      assert Decimal(n)[..0] == [];
    }
  }

  /** The name of the parking lot added when `count` lots exist: "Parking "
      followed by the decimal numeral of `count + 1`. */
  function ParkingName(count: nat): (name: string)
    ensures |name| > 8 && name[..8] == "Parking "
    ensures forall c :: c in name[8..] ==> '0' <= c <= '9'
    ensures DecimalValue(name[8..]) == count + 1
    ensures name[8] != '0'
  {
    var digits := Decimal(count + 1);
    DecimalRoundTrip(count + 1);
    var name := "Parking " + digits;
    assert name[8..] == digits;
    name
  }

  /** Different lot counts give different names, so the lots added by clicks,
      which only ever grow the list, are named apart. */
  lemma ParkingNamesDistinct(a: nat, b: nat)
    requires a != b
    ensures ParkingName(a) != ParkingName(b)
  {
    assert DecimalValue(ParkingName(a)[8..]) != DecimalValue(ParkingName(b)[8..]);
  }

  // ---------------------------------------------------------------------------
  // The `.map` callbacks of the handlers, one element at a time

  /** handleComponentMove's callback for cars: the car with the id gets the new
      position, and nothing else about any car changes. */
  function MoveCars(cars: seq<Car>, id: string, position: LatLng): (r: seq<Car>)
    ensures |r| == |cars|
    ensures forall i :: 0 <= i < |r| ==> r[i].id == cars[i].id && r[i].kind == cars[i].kind
    ensures forall i :: 0 <= i < |r| ==> r[i].position == if cars[i].id == id then position else cars[i].position
  {
    seq(|cars|, i requires 0 <= i < |cars| =>
      if cars[i].id == id then cars[i].(position := position) else cars[i])
  }

  /** handleComponentMove's callback for parking lots. */
  function MoveLots(lots: seq<ParkingLot>, id: string, position: LatLng): (r: seq<ParkingLot>)
    ensures |r| == |lots|
    ensures forall i :: 0 <= i < |r| ==> r[i].id == lots[i].id && r[i].name == lots[i].name
    ensures forall i :: 0 <= i < |r| ==> r[i].position == if lots[i].id == id then position else lots[i].position
  {
    seq(|lots|, i requires 0 <= i < |lots| =>
      if lots[i].id == id then lots[i].(position := position) else lots[i])
  }

  /** handleZoneEdit on one zone: the update is merged into the zone with the id
      only when it carries the field of that zone's own shape; the merge keeps the
      id, the shape and a circle's radius. */
  function EditOne(zone: Zone, id: string, update: ZoneUpdate): (r: Zone)
    ensures r.id == zone.id && r.Circle? == zone.Circle?
    ensures r.Circle? ==> r.radius == zone.radius
    ensures zone.id == id && zone.Circle? && update.CenterUpdate? ==> r.center == update.center
    ensures zone.id == id && zone.Polygon? && update.PointsUpdate? ==> r.points == update.points
    ensures zone.id != id || zone.Circle? != update.CenterUpdate? ==> r == zone
  {
    if zone.id == id then
      match (zone, update)
      case (Circle(_, _, radius), CenterUpdate(center)) => Circle(zone.id, center, radius)
      case (Polygon(_, _), PointsUpdate(points)) => Polygon(zone.id, points)
      case _ => zone
    else zone
  }

  function EditZones(zones: seq<Zone>, id: string, update: ZoneUpdate): (r: seq<Zone>)
    ensures |r| == |zones|
    ensures forall i :: 0 <= i < |r| ==> r[i] == EditOne(zones[i], id, update)
  {
    seq(|zones|, i requires 0 <= i < |zones| => EditOne(zones[i], id, update))
  }

  /** handleZoneResize on one zone: only a circle with the id changes, and only
      its radius. */
  function ResizeOne(zone: Zone, id: string, radius: real): (r: Zone)
    ensures r.id == zone.id && r.Circle? == zone.Circle?
    ensures r.Circle? ==> r.center == zone.center
    ensures r.Circle? ==> r.radius == if zone.id == id then radius else zone.radius
    ensures zone.Polygon? ==> r == zone
  {
    if zone.id == id && zone.Circle? then zone.(radius := radius) else zone
  }

  function ResizeZones(zones: seq<Zone>, id: string, radius: real): (r: seq<Zone>)
    ensures |r| == |zones|
    ensures forall i :: 0 <= i < |r| ==> r[i] == ResizeOne(zones[i], id, radius)
  {
    seq(|zones|, i requires 0 <= i < |zones| => ResizeOne(zones[i], id, radius))
  }

  /** handleZoneAddVertex on one zone: a polygon with the id gets the point
      appended at the end of its ring. */
  function AppendVertexOne(zone: Zone, id: string, point: LatLng): (r: Zone)
    ensures r.id == zone.id && r.Circle? == zone.Circle?
    ensures zone.Circle? || zone.id != id ==> r == zone
    ensures zone.Polygon? && zone.id == id ==>
              |r.points| == |zone.points| + 1 && r.points[..|zone.points|] == zone.points
              && r.points[|zone.points|] == point
  {
    if zone.id == id && zone.Polygon? then zone.(points := zone.points + [point]) else zone
  }

  function AppendVertexZones(zones: seq<Zone>, id: string, point: LatLng): (r: seq<Zone>)
    ensures |r| == |zones|
    ensures forall i :: 0 <= i < |r| ==> r[i] == AppendVertexOne(zones[i], id, point)
  {
    seq(|zones|, i requires 0 <= i < |zones| => AppendVertexOne(zones[i], id, point))
  }

  /** `points.splice(index, 1)` on a copy, for a non-negative index: the element
      at `index` is removed when there is one, and nothing happens otherwise. */
  function RemoveAt(points: seq<LatLng>, index: nat): (r: seq<LatLng>)
    ensures index < |points| ==> |r| == |points| - 1
    ensures index >= |points| ==> r == points
    ensures forall k :: 0 <= k < index && k < |r| ==> r[k] == points[k]
    ensures forall k :: index <= k < |r| ==> r[k] == points[k + 1]
  {
    if index < |points| then points[..index] + points[index + 1..] else points
  }

  /** handleZoneRemoveVertex on one zone; it has no guard of its own. */
  function RemoveVertexOne(zone: Zone, id: string, index: nat): (r: Zone)
    ensures r.id == zone.id && r.Circle? == zone.Circle?
    ensures zone.Circle? || zone.id != id ==> r == zone
    ensures zone.Polygon? && zone.id == id ==> r.points == RemoveAt(zone.points, index)
  {
    if zone.id == id && zone.Polygon? then zone.(points := RemoveAt(zone.points, index)) else zone
  }

  function RemoveVertexZones(zones: seq<Zone>, id: string, index: nat): (r: seq<Zone>)
    ensures |r| == |zones|
    ensures forall i :: 0 <= i < |r| ==> r[i] == RemoveVertexOne(zones[i], id, index)
  {
    seq(|zones|, i requires 0 <= i < |zones| => RemoveVertexOne(zones[i], id, index))
  }

  /** Dropping a circle's centre handle moves that circle and keeps its radius:
      the update holds only the centre, and the merge keeps the other fields. */
  lemma CenterDragKeepsRadius(zones: seq<Zone>, k: nat, position: LatLng)
    requires k < |zones| && zones[k].Circle? && UniqueIds(zones)
    ensures var e := CenterDragEnd(zones[k], position);
            var r := EditZones(zones, e.id, e.update);
            && r[k] == Circle(zones[k].id, position, zones[k].radius)
            && forall i :: 0 <= i < |zones| && i != k ==> r[i] == zones[i]
  {
  }

  // ---------------------------------------------------------------------------
  // Well-formed rings

  /** Every polygon zone has at least three points. */
  ghost predicate RingsClosed(zones: seq<Zone>)
  {
    forall z :: z in zones && z.Polygon? ==> |z.points| >= 3
  }

  ghost predicate UniqueIds(zones: seq<Zone>)
  {
    forall i, j :: 0 <= i < j < |zones| ==> zones[i].id != zones[j].id
  }

  /** A vertex removal the zone layer issues for one of the zones keeps every
      ring at three points or more, since the layer asks only when the ring has
      more than three and the zone's id is unique. */
  lemma GuardedRemovalKeepsRings(zones: seq<Zone>, k: nat, index: nat, removingVertex: bool)
    requires RingsClosed(zones) && UniqueIds(zones)
    requires k < |zones| && zones[k].Polygon?
    requires VertexClick(zones[k], index, removingVertex) == RemoveVertex(zones[k].id, index)
    ensures RingsClosed(RemoveVertexZones(zones, zones[k].id, index))
  {
  }

  /** Without that guard the handler alone can shrink a triangle: removing a
      vertex of a three-point ring leaves two points. */
  lemma UnguardedRemovalBreaksTriangle(id: string, a: LatLng, b: LatLng, c: LatLng)
    ensures RingsClosed([Polygon(id, [a, b, c])])
    ensures !RingsClosed(RemoveVertexZones([Polygon(id, [a, b, c])], id, 0))
  {
    var r := RemoveVertexZones([Polygon(id, [a, b, c])], id, 0);
    assert r[0] == Polygon(id, [b, c]);
    assert r[0] in r;
  }

  /** An edit whose new ring has at least three points keeps every ring at three
      points or more. */
  lemma EditKeepsRings(zones: seq<Zone>, id: string, update: ZoneUpdate)
    requires RingsClosed(zones)
    requires update.PointsUpdate? ==> |update.points| >= 3
    ensures RingsClosed(EditZones(zones, id, update))
  {
  }

  /** A resize touches no ring. */
  lemma ResizeKeepsRings(zones: seq<Zone>, id: string, radius: real)
    requires RingsClosed(zones)
    ensures RingsClosed(ResizeZones(zones, id, radius))
  {
  }

  /** Appending a vertex only lengthens a ring. */
  lemma AppendKeepsRings(zones: seq<Zone>, id: string, point: LatLng)
    requires RingsClosed(zones)
    ensures RingsClosed(AppendVertexZones(zones, id, point))
  {
  }

  // ---------------------------------------------------------------------------
  // The application state

  class App {
    var mode: Option<Mode>
    var carType: CarType
    var zoneType: Shape
    var carPopoverOpen: bool
    var zonePopoverOpen: bool
    var cars: seq<Car>
    var zones: seq<Zone>
    var parkingLots: seq<ParkingLot>
    var drawingPoints: seq<LatLng>
    var selectedCar: Option<Car>
    var editingComponent: Option<EditingComponent>

    /** A polygon being drawn has fewer points than complete one, and every
        polygon zone has at least three points. */
    ghost predicate Valid()
      reads this
    {
      |drawingPoints| < PolygonPoints && RingsClosed(zones)
    }

    constructor ()
      ensures Valid()
      ensures mode == None && carType == Allowed && zoneType == CircleShape
      ensures !carPopoverOpen && !zonePopoverOpen
      ensures cars == [] && zones == [] && parkingLots == [] && drawingPoints == []
      ensures selectedCar == None && editingComponent == None
    {
      mode, carType, zoneType := None, Allowed, CircleShape;
      carPopoverOpen, zonePopoverOpen := false, false;
      cars, zones, parkingLots, drawingPoints := [], [], [], [];
      selectedCar, editingComponent := None, None;
    }

    method HandleCarButtonClick()
      modifies this`carPopoverOpen, this`zonePopoverOpen, this`mode, this`editingComponent
      ensures carPopoverOpen && !zonePopoverOpen && mode == None && editingComponent == None
    {
      carPopoverOpen, zonePopoverOpen := true, false;
      mode, editingComponent := None, None;
    }

    method HandleZoneButtonClick()
      modifies this`carPopoverOpen, this`zonePopoverOpen, this`mode, this`editingComponent
      ensures !carPopoverOpen && zonePopoverOpen && mode == None && editingComponent == None
    {
      carPopoverOpen, zonePopoverOpen := false, true;
      mode, editingComponent := None, None;
    }

    method HandleParkingButtonClick()
      modifies this`carPopoverOpen, this`zonePopoverOpen, this`mode, this`editingComponent
      ensures mode == Some(AddParking) && !carPopoverOpen && !zonePopoverOpen && editingComponent == None
    {
      mode := Some(AddParking);
      carPopoverOpen, zonePopoverOpen := false, false;
      editingComponent := None;
    }

    /** The edit button toggles edit mode; leaving it also forgets the component
        being edited. Both popovers close either way. */
    method HandleEditButtonClick()
      modifies this`mode, this`editingComponent, this`carPopoverOpen, this`zonePopoverOpen
      ensures old(mode) == Some(Edit) ==> mode == None && editingComponent == None
      ensures old(mode) != Some(Edit) ==> mode == Some(Edit) && editingComponent == old(editingComponent)
      ensures !carPopoverOpen && !zonePopoverOpen
    {
      if mode == Some(Edit) {
        mode := None;
        editingComponent := None;
      } else {
        mode := Some(Edit);
      }
      carPopoverOpen, zonePopoverOpen := false, false;
    }

    method HandleCarTypeSelect(newType: CarType)
      modifies this`carType, this`mode, this`carPopoverOpen
      ensures carType == newType && mode == Some(AddCar) && !carPopoverOpen
    {
      carType := newType;
      mode := Some(AddCar);
      carPopoverOpen := false;
    }

    /** Choosing a zone shape starts a fresh drawing. */
    method HandleZoneTypeSelect(shape: Shape)
      modifies this`zoneType, this`mode, this`zonePopoverOpen, this`drawingPoints
      ensures zoneType == shape && mode == Some(AddZone) && !zonePopoverOpen && drawingPoints == []
      ensures old(Valid()) ==> Valid()
    {
      zoneType := shape;
      mode := Some(AddZone);
      zonePopoverOpen := false;
      drawingPoints := [];
    }

    method HandlePopoverClose()
      modifies this`carPopoverOpen, this`zonePopoverOpen
      ensures !carPopoverOpen && !zonePopoverOpen
    {
      carPopoverOpen, zonePopoverOpen := false, false;
    }

    /** In edit mode a car click picks the car for editing; otherwise it selects
        the car (a copy: later moves do not refresh it) and leaves the mode. */
    method HandleCarSelect(car: Car)
      modifies this`editingComponent, this`selectedCar, this`mode
      ensures old(mode) == Some(Edit) ==>
                editingComponent == Some(EditingComponent(CarComponent, car.id))
                && selectedCar == old(selectedCar) && mode == old(mode)
      ensures old(mode) != Some(Edit) ==>
                selectedCar == Some(car) && mode == None && editingComponent == old(editingComponent)
    {
      if mode == Some(Edit) {
        editingComponent := Some(EditingComponent(CarComponent, car.id));
      } else {
        selectedCar := Some(car);
        mode := None;
      }
    }

    method HandleZoneSelect(zone: Zone)
      modifies this`editingComponent
      ensures editingComponent == if mode == Some(Edit) then Some(EditingComponent(ZoneComponent, zone.id))
                                  else old(editingComponent)
    {
      if mode == Some(Edit) {
        editingComponent := Some(EditingComponent(ZoneComponent, zone.id));
      }
    }

    method HandleParkingSelect(lot: ParkingLot)
      modifies this`editingComponent
      ensures editingComponent == if mode == Some(Edit) then Some(EditingComponent(ParkingComponent, lot.id))
                                  else old(editingComponent)
    {
      if mode == Some(Edit) {
        editingComponent := Some(EditingComponent(ParkingComponent, lot.id));
      }
    }

    /** handleComponentMove: nothing happens unless a component is being edited;
        then the car or the parking lot with the id moves, according to the kind
        being edited. Zones never move this way. */
    method HandleComponentMove(id: string, newPosition: LatLng)
      modifies this`cars, this`parkingLots
      ensures editingComponent.None? || editingComponent.value.kind == ZoneComponent ==>
                cars == old(cars) && parkingLots == old(parkingLots)
      ensures editingComponent.Some? && editingComponent.value.kind == CarComponent ==>
                cars == MoveCars(old(cars), id, newPosition) && parkingLots == old(parkingLots)
      ensures editingComponent.Some? && editingComponent.value.kind == ParkingComponent ==>
                parkingLots == MoveLots(old(parkingLots), id, newPosition) && cars == old(cars)
    {
      if editingComponent.None? {
        return;
      }
      if editingComponent.value.kind == CarComponent {
        cars := MoveCars(cars, id, newPosition);
      } else if editingComponent.value.kind == ParkingComponent {
        parkingLots := MoveLots(parkingLots, id, newPosition);
      }
    }

    method HandleGetDirections()
      modifies this`mode, this`editingComponent
      ensures selectedCar.Some? ==> mode == Some(Directions) && editingComponent == None
      ensures selectedCar.None? ==> mode == old(mode) && editingComponent == old(editingComponent)
    {
      if selectedCar.Some? {
        mode := Some(Directions);
        editingComponent := None;
      }
    }

    /** handleMapClick for a click at (lat, lng); `newId` is the fresh id of
        whatever the click creates. */
    method HandleMapClick(lat: real, lng: real, newId: string)
      modifies this`cars, this`zones, this`parkingLots, this`drawingPoints, this`mode
      ensures old(mode) == Some(AddCar) ==>
                && cars == old(cars) + [Car(newId, LatLng(lat, lng), carType)]
                && zones == old(zones) && parkingLots == old(parkingLots)
                && drawingPoints == old(drawingPoints) && mode == None
      ensures old(mode) == Some(AddZone) && zoneType == CircleShape ==>
                && zones == old(zones) + [Circle(newId, LatLng(lat, lng), InitialRadius)]
                && cars == old(cars) && parkingLots == old(parkingLots)
                && drawingPoints == old(drawingPoints) && mode == None
      ensures old(mode) == Some(AddZone) && zoneType == PolygonShape ==>
                var newPoints := old(drawingPoints) + [LatLng(lat, lng)];
                && cars == old(cars) && parkingLots == old(parkingLots)
                && (|newPoints| >= PolygonPoints ==>
                      zones == old(zones) + [Polygon(newId, newPoints)] && drawingPoints == [] && mode == None)
                && (|newPoints| < PolygonPoints ==>
                      zones == old(zones) && drawingPoints == newPoints && mode == old(mode))
      ensures old(mode) == Some(AddParking) ==>
                && parkingLots == old(parkingLots) + [ParkingLot(newId, LatLng(lat, lng), ParkingName(|old(parkingLots)|))]
                && cars == old(cars) && zones == old(zones)
                && drawingPoints == old(drawingPoints) && mode == None
      ensures old(mode) == Some(Directions) ==>
                && mode == None
                && cars == old(cars) && zones == old(zones) && parkingLots == old(parkingLots)
                && drawingPoints == old(drawingPoints)
      ensures old(mode) == None || old(mode) == Some(Edit) ==>
                && mode == old(mode)
                && cars == old(cars) && zones == old(zones) && parkingLots == old(parkingLots)
                && drawingPoints == old(drawingPoints)
      ensures old(Valid()) ==> Valid()
    {
      var clicked := LatLng(lat, lng);
      if mode == Some(AddCar) {
        cars := cars + [Car(newId, clicked, carType)];
        mode := None;
      } else if mode == Some(AddZone) {
        if zoneType == CircleShape {
          zones := zones + [Circle(newId, clicked, InitialRadius)];
          mode := None;
        } else {
          var newPoints := drawingPoints + [clicked];
          drawingPoints := newPoints;
          if |newPoints| >= PolygonPoints {
            zones := zones + [Polygon(newId, newPoints)];
            drawingPoints := [];
            mode := None;
          }
        }
      } else if mode == Some(AddParking) {
        parkingLots := parkingLots + [ParkingLot(newId, clicked, ParkingName(|parkingLots|))];
        mode := None;
      } else if mode == Some(Directions) {
        mode := None;
      }
    }

    method HandleZoneEdit(id: string, update: ZoneUpdate)
      modifies this`zones
      ensures zones == EditZones(old(zones), id, update)
      ensures old(Valid()) && (update.PointsUpdate? ==> |update.points| >= 3) ==> Valid()
    {
      zones := EditZones(zones, id, update);
      if old(Valid()) && (update.PointsUpdate? ==> |update.points| >= 3) {
        EditKeepsRings(old(zones), id, update);
      }
    }

    method HandleZoneResize(id: string, radius: real)
      modifies this`zones
      ensures zones == ResizeZones(old(zones), id, radius)
      ensures old(Valid()) ==> Valid()
    {
      zones := ResizeZones(zones, id, radius);
      if old(Valid()) {
        ResizeKeepsRings(old(zones), id, radius);
      }
    }

    method HandleZoneAddVertex(id: string, point: LatLng)
      modifies this`zones
      ensures zones == AppendVertexZones(old(zones), id, point)
      ensures old(Valid()) ==> Valid()
    {
      zones := AppendVertexZones(zones, id, point);
      if old(Valid()) {
        AppendKeepsRings(old(zones), id, point);
      }
    }

    method HandleZoneRemoveVertex(id: string, index: nat)
      modifies this`zones
      ensures zones == RemoveVertexZones(old(zones), id, index)
      ensures old(Valid()) && (forall z :: z in old(zones) && z.Polygon? && z.id == id ==> |z.points| > 3)
              ==> Valid()
    {
      zones := RemoveVertexZones(zones, id, index);
      if old(Valid()) && (forall z :: z in old(zones) && z.Polygon? && z.id == id ==> |z.points| > 3) {
        forall z | z in zones && z.Polygon? ensures |z.points| >= 3 {
          var i :| 0 <= i < |zones| && zones[i] == z;
          assert old(zones)[i] in old(zones);
        }
      }
    }
  }
}
