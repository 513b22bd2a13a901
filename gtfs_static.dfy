/** The rows of the GTFS Schedule files `trips.txt` and `stop_times.txt` that the offline
    generators read, one field per CSV column they use. */
module GtfsStatic {

  datatype TripRow = TripRow(tripId: string, routeId: string, tripHeadsign: string, serviceId: string)

  datatype StopTimeRow = StopTimeRow(tripId: string, arrivalTime: string, departureTime: string, stopId: string)
}
