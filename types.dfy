/** The value types shared by the map, the geometry helpers and the application
    state (src/types/index.ts). Coordinates are exact reals; ids are strings that
    the caller supplies (the application draws them from a uuid generator). */
module Types {

  datatype Option<+T> = None | Some(value: T)

  /** A map position in degrees; `lat` plays the role of y and `lng` of x. */
  datatype LatLng = LatLng(lat: real, lng: real)

  /** A restricted zone: a circle (radius in metres) or a polygon whose ring is
      implicitly closed (the last point connects back to the first). */
  datatype Zone =
    | Circle(id: string, center: LatLng, radius: real)
    | Polygon(id: string, points: seq<LatLng>)

  /** Whether a car may drive through restricted zones. */
  datatype CarType = Allowed | NotAllowed

  datatype Car = Car(id: string, position: LatLng, kind: CarType)

  datatype ParkingLot = ParkingLot(id: string, position: LatLng, name: string)

  /** The interaction modes that App.tsx keeps and passes down to the map;
      `None` of an `Option<Mode>` stands for `null`. */
  datatype Mode = AddCar | AddZone | AddParking | Directions | Edit
}
