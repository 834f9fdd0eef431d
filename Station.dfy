/** The station record shared by every part of the application, and map
    coordinates. */
module StationTypes {

  /** A station as the payload delivers it. `id` is a JSON number, so it is
      kept as a `real`; `lat` and `lng` are degrees. */
  datatype Station = Station(id: real, name: string, city: string, lat: real, lng: real)

  /** A `[lat, lng]` pair as handed to the map widget. */
  datatype LatLng = LatLng(lat: real, lng: real)

  function Position(s: Station): LatLng
  {
    LatLng(s.lat, s.lng)
  }
}
