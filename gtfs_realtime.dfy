/** The parts of a GTFS Realtime `FeedMessage` (vehicle positions) that the app reads.
    Optional sub-messages are `Option`s (the `has…()` tests); optional scalars the app reads
    without a test are plain fields holding the protocol buffer default when unset. */
module GtfsRealtime {
  import opened Wrappers

  datatype FeedHeader = FeedHeader(gtfsRealtimeVersion: string, timestamp: int)

  datatype FeedMessage = FeedMessage(header: FeedHeader, entity: seq<FeedEntity>)

  datatype FeedEntity = FeedEntity(id: string, vehicle: Option<VehiclePosition>)

  datatype VehiclePosition = VehiclePosition(
    trip: Option<TripDescriptor>,
    vehicle: VehicleDescriptor,
    position: Position)

  /** `start_date` is "YYYYMMDD" text; `hasStartDate()` and `hasDirectionId()` are the `Option`s. */
  datatype TripDescriptor = TripDescriptor(
    tripId: string,
    routeId: string,
    startDate: Option<string>,
    directionId: Option<int>)

  datatype VehicleDescriptor = VehicleDescriptor(id: string)

  datatype Position = Position(latitude: real, longitude: real, bearing: real)

  /** What `vehicle.trip` reads when the trip is unset: the default message, all fields empty. */
  const DefaultTrip: TripDescriptor := TripDescriptor("", "", None, None)

  /** `vehicle.trip`, the default message standing in for an unset trip. */
  function TripOf(v: VehiclePosition): (t: TripDescriptor)
    ensures v.trip.Some? ==> t == v.trip.value
    ensures v.trip.None? ==> t.tripId == "" && t.routeId == ""
  {
    v.trip.GetOr(DefaultTrip)
  }
}
