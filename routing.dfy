/** The routing decision of the map component (src/components/Map.tsx) and the
    small amount of state the component keeps: the computed route and the three
    edit-tool flags. */
module Routing {
  import opened Types
  import opened Geometry

  /** RouteState: where to go, the parking lot to go to instead when there is
      one, and whether the destination or the direct path is restricted. */
  datatype RouteState = RouteState(destination: LatLng, alternateDestination: Option<LatLng>,
                                   isRestrictedZone: bool)

  /** `zones.some(zone => isPointInZone(point, zone))` */
  function PointInAnyZone(m: Metric, point: LatLng, zones: seq<Zone>): (r: bool)
    ensures r <==> exists z :: z in zones && IsPointInZone(m, point, z)
  {
    if zones == [] then false
    else IsPointInZone(m, point, zones[0]) || PointInAnyZone(m, point, zones[1..])
  }

  /** The decision handleMapClick makes for a click at `clicked` while `car` is
      selected in directions mode. The destination is always the clicked point.
      A car that is not allowed in zones, whose destination lies in a zone or
      whose straight path crosses one, gets a restricted route; it gets an
      alternate destination exactly when some parking lot can be reached and left
      without crossing a zone, and then both legs through it are clear. Every
      other route is unrestricted and direct. */
  function DecideRoute(m: Metric, car: Car, clicked: LatLng,
                       zones: seq<Zone>, lots: seq<ParkingLot>): (r: RouteState)
    ensures r.destination == clicked
    ensures r.isRestrictedZone <==>
              car.kind == NotAllowed
              && ((exists z :: z in zones && IsPointInZone(m, clicked, z))
                  || (exists z :: z in zones && RouteIntersectsZone(m, car.position, clicked, z)))
    ensures car.kind == Allowed ==> !r.isRestrictedZone && r.alternateDestination.None?
    ensures r.alternateDestination.Some? <==>
              r.isRestrictedZone && exists lot :: lot in lots && LegsClear(m, car.position, clicked, zones, lot)
    ensures r.alternateDestination.Some? ==>
              && (exists lot :: lot in lots && lot.position == r.alternateDestination.value)
              && !RouteIntersectsAnyZone(m, car.position, r.alternateDestination.value, zones)
              && !RouteIntersectsAnyZone(m, r.alternateDestination.value, clicked, zones)
  {
    var isRestricted := PointInAnyZone(m, clicked, zones);
    var routeIntersectsZones := RouteIntersectsAnyZone(m, car.position, clicked, zones);
    if car.kind == NotAllowed && (isRestricted || routeIntersectsZones) then
      match FindBestParkingLot(m, car.position, clicked, lots, zones)
      case Some(bestParking) => RouteState(clicked, Some(bestParking.position), true)
      case None => RouteState(clicked, None, true)
    else
      RouteState(clicked, None, false)
  }

  /** When a restricted route has an alternate destination, it is the position of
      the earliest lot, among those whose two legs are clear, with the shortest
      total detour. */
  lemma DetourIsShortestClearLot(m: Metric, car: Car, clicked: LatLng,
                                 zones: seq<Zone>, lots: seq<ParkingLot>)
    ensures var r := DecideRoute(m, car, clicked, zones, lots);
      r.alternateDestination.Some? ==>
        exists i :: ShortestClearAt(m, car.position, clicked, lots, zones, i)
                    && lots[i].position == r.alternateDestination.value
  {
    BestParkingLotIsFirstMinimum(m, car.position, clicked, lots, zones);
  }

  /** The component state of the map that its handlers overwrite. */
  class MapView {
    var addingVertex: bool
    var removingVertex: bool
    var rotating: bool
    var route: Option<RouteState>

    constructor ()
      ensures !addingVertex && !removingVertex && !rotating && route == None
    {
      addingVertex, removingVertex, rotating := false, false, false;
      route := None;
    }

    method HandleAddVertex()
      modifies this`addingVertex, this`removingVertex, this`rotating
      ensures addingVertex && !removingVertex && !rotating
    {
      addingVertex, removingVertex, rotating := true, false, false;
    }

    method HandleRemoveVertex()
      modifies this`addingVertex, this`removingVertex, this`rotating
      ensures !addingVertex && removingVertex && !rotating
    {
      addingVertex, removingVertex, rotating := false, true, false;
    }

    method HandleRotate()
      modifies this`addingVertex, this`removingVertex, this`rotating
      ensures !addingVertex && !removingVertex && rotating
    {
      addingVertex, removingVertex, rotating := false, false, true;
    }

    /** The effect that runs whenever the mode or the selected car changes: the
        route is dropped unless directions are being asked for a selected car. */
    method ClearRouteEffect(mode: Option<Mode>, selectedCar: Option<Car>)
      modifies this`route
      ensures mode != Some(Directions) || selectedCar.None? ==> route == None
      ensures mode == Some(Directions) && selectedCar.Some? ==> route == old(route)
    {
      if mode != Some(Directions) || selectedCar.None? {
        route := None;
      }
    }

    /** handleMapClick: in directions mode with a selected car the click sets the
        route; otherwise it is forwarded to the application's click handler
        (`forwarded`) and the route is left alone. */
    method HandleMapClick(m: Metric, mode: Option<Mode>, selectedCar: Option<Car>,
                          lat: real, lng: real, zones: seq<Zone>, lots: seq<ParkingLot>)
      returns (forwarded: bool)
      modifies this`route
      ensures forwarded <==> !(mode == Some(Directions) && selectedCar.Some?)
      ensures forwarded ==> route == old(route)
      ensures !forwarded ==> route == Some(DecideRoute(m, selectedCar.value, LatLng(lat, lng), zones, lots))
      ensures !forwarded ==> route.value.destination == LatLng(lat, lng)
    {
      if mode == Some(Directions) && selectedCar.Some? {
        route := Some(DecideRoute(m, selectedCar.value, LatLng(lat, lng), zones, lots));
        forwarded := false;
      } else {
        forwarded := true;
      }
    }
  }
}
