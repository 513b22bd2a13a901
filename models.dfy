/** The records the app decodes from its JSON files and the ones it builds from them.
    Coordinates are `real` values that the model carries around but never computes with. */
module Models {
  import opened LinkedMaps

  /** One route of `stm_complet.json`: French field names as in the file. */
  datatype RouteMetadata = RouteMetadata(nom: string, couleur: string, directions: LinkedMap<string, DirectionMetadata>)

  /** One direction of a route; `trajet` is present in the file but unused. */
  datatype DirectionMetadata = DirectionMetadata(destination: string, trajet: seq<string>)

  /** One route of `stm_parcours.json`: paths of points (each point a list of numbers) and stop ids. */
  datatype RouteParcoursData = RouteParcoursData(shapes: seq<seq<seq<real>>>, stops: seq<string>)

  /** One stop of `stm_stops.json`. */
  datatype Stop = Stop(name: string, lat: real, lon: real)

  /** One row of `stop_times/<stop>.json`, keys `r`, `t`, `h`, `s` in the file. */
  datatype StopScheduleItem = StopScheduleItem(routeId: string, time: string, headsign: string, serviceId: string)

  /** One entry of `trip_times.json`: first departure and last arrival of a trip, as GTFS times. */
  datatype TripTimes = TripTimes(start: string, end: string)

  /** A route as the app uses it: metadata merged with geometry. */
  datatype BusRoute = BusRoute(
    id: string,
    name: string,
    color: string,
    directions: LinkedMap<string, string>,
    geometry: seq<seq<(real, real)>>,
    stopIds: seq<string>)

  /** A stop as the app uses it, carrying its own id. */
  datatype BusStop = BusStop(id: string, name: string, lat: real, lon: real)
}
