/** `MapManager`: which buses and stops the map shows, the colour each route is drawn in,
    and the names of the route layers. The GeoJSON sources are modelled by the feature lists
    they are last given; map styles, layers and rendering are outside the model. */
module MapLayers {
  import opened Wrappers
  import opened Strings
  import opened Seqs
  import opened LinkedMaps
  import opened Models
  import opened GtfsRealtime

  // ---------------------------------------------------------------- route colours

  /** `"^[0-9a-fA-F]{6}$"`: exactly six hexadecimal digits. */
  predicate IsSixHex(s: string) {
    |s| == 6 && forall i | 0 <= i < 6 :: IsHexDigit(s[i])
  }

  /** A colour as the map layers take it: '#' and six hexadecimal digits. */
  predicate IsHexColor(s: string) {
    |s| == 7 && s[0] == '#' && IsSixHex(s[1..])
  }

  /** `removePrefix("#")` as written with `startsWith` and `substring(1)`. */
  function StripHash(s: string): (r: string)
    ensures StartsWith(s, "#") ==> r == s[1..]
    ensures !StartsWith(s, "#") ==> r == s
  {
    if StartsWith(s, "#") then s[1..] else s
  }

  /** `parseColor` as a validation: the colour it accepts ("#" and six hex digits after trimming
      and dropping one leading '#'), or `None` where it falls back to gray. */
  function ParseColor(hex: string): (r: Option<string>)
    ensures r.Some? <==> IsSixHex(StripHash(Trim(hex)))
    ensures r.Some? ==> IsHexColor(r.value) && r.value[1..] == StripHash(Trim(hex))
  {
    var cleanHex := StripHash(Trim(hex));
    if IsSixHex(cleanHex) then Some("#" + cleanHex) else None
  }

  /** A route's own colour: trimmed, without one leading '#', kept when it is six hex digits,
      red otherwise. */
  function OwnColor(color: string): (r: string)
    ensures IsHexColor(r)
    ensures IsSixHex(StripHash(Trim(color))) ==> r[1..] == StripHash(Trim(color))
    ensures !IsSixHex(StripHash(Trim(color))) ==> r == "#FF0000"
  {
    var rawColor := StripHash(Trim(color));
    if IsSixHex(rawColor) then "#" + rawColor else "#FF0000"
  }

  /** The route numbers drawn purple among the 400s. */
  const PurpleRoutes: set<int> := {406, 439, 470}

  /** `getColorForRouteHex`: green for an id that (trimmed) is not a known route; for a known route
      a colour by its number band (10–249 blue, 250–299 gold, 300–399 black, 400–499 purple for
      406, 439 and 470 and green for the rest), and for any other known route its own colour. */
  function ColorForRouteHex(routeData: LinkedMap<string, BusRoute>, routeId: string): (r: string)
    ensures IsHexColor(r)
  {
    ColorForCleanId(routeData, Trim(routeId))
  }

  /** The colour rules applied to an id that is already trimmed. */
  function ColorForCleanId(routeData: LinkedMap<string, BusRoute>, cleanId: string): (r: string)
    ensures IsHexColor(r)
  {
    var route := Get(routeData, cleanId);
    if route.None? then "#00FF00"
    else
      var routeNum := ParseInt(cleanId);
      if routeNum.Some? && 10 <= routeNum.value <= 249 then "#0000FF"
      else if routeNum.Some? && 250 <= routeNum.value <= 299 then "#FFD700"
      else if routeNum.Some? && 300 <= routeNum.value <= 399 then "#000000"
      else if routeNum.Some? && 400 <= routeNum.value <= 499 then
        (if routeNum.value in PurpleRoutes then "#800080" else "#00FF00")
      else OwnColor(route.value.color)
  }

  /** Every colour in the '#'-and-six-hex form passes `parseColor` unchanged. */
  lemma {:induction false} ParseHexColor(s: string)
    requires IsHexColor(s)
    ensures ParseColor(s) == Some(s)
  {
    assert IsHexDigit(s[6]);
    TrimUnchanged(s);
    assert s == "#" + s[1..];
  }

  /** No route is ever drawn in the gray fallback: `parseColor` accepts every assigned colour. */
  lemma {:induction false} AssignedColorParses(routeData: LinkedMap<string, BusRoute>, routeId: string)
    ensures ParseColor(ColorForRouteHex(routeData, routeId)) == Some(ColorForRouteHex(routeData, routeId))
  {
    ParseHexColor(ColorForRouteHex(routeData, routeId));
  }

  /** Surrounding whitespace in the id does not change the colour. */
  lemma {:induction false} TrimmedIdSameColor(routeData: LinkedMap<string, BusRoute>, routeId: string)
    ensures ColorForRouteHex(routeData, Trim(routeId)) == ColorForRouteHex(routeData, routeId)
  {
    TrimIdempotent(routeId);
  }

  /** A known route numbered 10 to 499 takes its band colour whatever its own colour field says. */
  lemma {:induction false} BandIgnoresOwnColor(routeData: LinkedMap<string, BusRoute>, routeId: string, other: BusRoute)
    requires Get(routeData, Trim(routeId)).Some?
    requires ParseInt(Trim(routeId)).Some? && 10 <= ParseInt(Trim(routeId)).value <= 499
    ensures ColorForRouteHex(Put(routeData, Trim(routeId), other), routeId) == ColorForRouteHex(routeData, routeId)
  {
  }

  /** Among known routes numbered 400 to 499 exactly 406, 439 and 470 are purple. */
  lemma {:induction false} PurpleExactly(routeData: LinkedMap<string, BusRoute>, routeId: string)
    requires Get(routeData, Trim(routeId)).Some?
    requires ParseInt(Trim(routeId)).Some? && 400 <= ParseInt(Trim(routeId)).value <= 499
    ensures ColorForRouteHex(routeData, routeId) == "#800080" <==> ParseInt(Trim(routeId)).value in PurpleRoutes
  {
  }

  /** A known route outside the numbered bands (or not numbered) is drawn in its own colour. */
  lemma {:induction false} OtherRoutesOwnColor(routeData: LinkedMap<string, BusRoute>, routeId: string)
    requires Get(routeData, Trim(routeId)).Some?
    requires ParseInt(Trim(routeId)).None? || !(10 <= ParseInt(Trim(routeId)).value <= 499)
    ensures ColorForRouteHex(routeData, routeId) == OwnColor(Get(routeData, Trim(routeId)).value.color)
  {
  }

  /** A six-digit colour is kept with or without its '#'. */
  lemma {:induction false} OwnColorKept(raw: string)
    requires IsSixHex(raw)
    ensures OwnColor(raw) == "#" + raw && OwnColor("#" + raw) == "#" + raw
  {
    var hashed := "#" + raw;
    assert IsHexDigit(raw[0]) && IsHexDigit(raw[5]);
    assert hashed[0] == '#' && hashed[6] == raw[5];
    TrimUnchanged(raw);
    TrimUnchanged(hashed);
    assert StripHash(raw) == raw by { assert raw[..1] != "#"; }
    assert StripHash(hashed) == raw by { assert hashed[..1] == "#"; assert hashed[1..] == raw; }
  }

  /** An id that is not (once trimmed) a known route is drawn green. */
  lemma {:induction false} UnknownRouteGreen(routeData: LinkedMap<string, BusRoute>, routeId: string)
    requires Get(routeData, Trim(routeId)).None?
    ensures ColorForRouteHex(routeData, routeId) == "#00FF00"
  {
  }

  /** The number bands of known routes: 10–249 blue, 250–299 gold, 300–399 black, and the
      400s other than 406, 439 and 470 green. */
  lemma {:induction false} BandColors(routeData: LinkedMap<string, BusRoute>, routeId: string, n: int)
    requires Get(routeData, Trim(routeId)).Some?
    requires ParseInt(Trim(routeId)) == Some(n)
    ensures 10 <= n <= 249 ==> ColorForRouteHex(routeData, routeId) == "#0000FF"
    ensures 250 <= n <= 299 ==> ColorForRouteHex(routeData, routeId) == "#FFD700"
    ensures 300 <= n <= 399 ==> ColorForRouteHex(routeData, routeId) == "#000000"
    ensures 400 <= n <= 499 && n !in PurpleRoutes ==> ColorForRouteHex(routeData, routeId) == "#00FF00"
  {
  }

  /** A known route outside the bands whose own colour is not six hex digits is drawn red. */
  lemma {:induction false} BadOwnColorRed(routeData: LinkedMap<string, BusRoute>, routeId: string)
    requires Get(routeData, Trim(routeId)).Some?
    requires ParseInt(Trim(routeId)).None? || !(10 <= ParseInt(Trim(routeId)).value <= 499)
    requires !IsSixHex(StripHash(Trim(Get(routeData, Trim(routeId)).value.color)))
    ensures ColorForRouteHex(routeData, routeId) == "#FF0000"
  {
    OtherRoutesOwnColor(routeData, routeId);
  }

  // ---------------------------------------------------------------- stops

  /** A stop as the stop source shows it: its point, its key as `stopId` and its name. */
  datatype StopFeature = StopFeature(lon: real, lat: real, stopId: string, stopName: string)

  /** The stops `updateStops` shows: all of them without a filter, otherwise those whose id
      is in the filter, in map order. */
  function SelectedStops(stops: LinkedMap<string, BusStop>, filterStopIds: Option<set<string>>)
    : (r: LinkedMap<string, BusStop>)
    ensures filterStopIds.None? ==> r == stops
    ensures IsSubsequence(r.keys, stops.keys)
    ensures forall id :: id in r.keys <==> id in stops.keys && (filterStopIds.None? || id in filterStopIds.value)
    ensures forall id | id in r.items :: r.items[id] == stops.items[id]
  {
    if filterStopIds.None? then
      FilterAll(stops.keys, (id: string) => true);
      FilterIsSubsequence(stops.keys, (id: string) => true);
      stops
    else
      FilterIsSubsequence(stops.keys, (id: string) => id in filterStopIds.value);
      FilterKeys(stops, (id: string) => id in filterStopIds.value)
  }

  /** One feature per stop, in map order, carrying the map key and the stop's name. */
  function StopFeatures(stops: LinkedMap<string, BusStop>): (r: seq<StopFeature>)
    ensures |r| == |stops.keys|
    ensures forall i | 0 <= i < |r| ::
      r[i].stopId == stops.keys[i] && r[i].stopName == stops.items[stops.keys[i]].name
  {
    seq(|stops.keys|, i requires 0 <= i < |stops.keys| =>
      var stop := stops.items[stops.keys[i]];
      StopFeature(stop.lon, stop.lat, stops.keys[i], stop.name))
  }

  // ---------------------------------------------------------------- buses

  /** A bus as the bus sources show it. `directionId` only when the trip has one. */
  datatype BusFeature = BusFeature(
    lon: real, lat: real,
    vehicleId: string, tripId: string, routeId: string, headsign: string,
    directionId: Option<int>, color: string, bearing: real)

  /** The selection of `updateBuses`: an entity with a vehicle, whose route is in the filter
      when the filter is not empty. */
  predicate ShowsBus(entity: FeedEntity, filterRouteIds: set<string>) {
    entity.vehicle.Some? && (filterRouteIds == {} || TripOf(entity.vehicle.value).routeId in filterRouteIds)
  }

  /** The feature built for one vehicle. */
  function BusFeatureOf(vehicle: VehiclePosition, tripHeadsigns: map<string, string>,
                        routeData: LinkedMap<string, BusRoute>): BusFeature
  {
    var trip := TripOf(vehicle);
    BusFeature(vehicle.position.longitude, vehicle.position.latitude,
      vehicle.vehicle.id, trip.tripId, trip.routeId,
      if trip.tripId in tripHeadsigns then tripHeadsigns[trip.tripId] else "",
      trip.directionId, ColorForRouteHex(routeData, trip.routeId), vehicle.position.bearing)
  }

  /** The vehicles of the shown entities, in feed order. */
  function ShownVehicles(entities: seq<FeedEntity>, filterRouteIds: set<string>): seq<VehiclePosition> {
    if entities == [] then []
    else
      var last := entities[|entities| - 1];
      ShownVehicles(entities[..|entities| - 1], filterRouteIds)
        + (if ShowsBus(last, filterRouteIds) then [last.vehicle.value] else [])
  }

  /** The features `updateBuses` gives the bus sources. */
  function BusFeatures(entities: seq<FeedEntity>, filterRouteIds: set<string>,
                       tripHeadsigns: map<string, string>, routeData: LinkedMap<string, BusRoute>)
    : seq<BusFeature>
  {
    Map(ShownVehicles(entities, filterRouteIds),
        (v: VehiclePosition) => BusFeatureOf(v, tripHeadsigns, routeData))
  }

  /** The features after one more entity. */
  lemma BusFeaturesSnoc(entities: seq<FeedEntity>, i: nat, filterRouteIds: set<string>,
                        tripHeadsigns: map<string, string>, routeData: LinkedMap<string, BusRoute>)
    requires i < |entities|
    ensures BusFeatures(entities[..i + 1], filterRouteIds, tripHeadsigns, routeData)
         == BusFeatures(entities[..i], filterRouteIds, tripHeadsigns, routeData)
            + (if ShowsBus(entities[i], filterRouteIds)
               then [BusFeatureOf(entities[i].vehicle.value, tripHeadsigns, routeData)] else [])
  {
    var f := (v: VehiclePosition) => BusFeatureOf(v, tripHeadsigns, routeData);
    var e := entities[i];
    var tail := if ShowsBus(e, filterRouteIds) then [e.vehicle.value] else [];
    calc {
      BusFeatures(entities[..i + 1], filterRouteIds, tripHeadsigns, routeData);
      Map(ShownVehicles(entities[..i + 1], filterRouteIds), f);
      { assert entities[..i + 1][..i] == entities[..i]; }
      Map(ShownVehicles(entities[..i], filterRouteIds) + tail, f);
      { MapAppend(ShownVehicles(entities[..i], filterRouteIds), tail, f); }
      Map(ShownVehicles(entities[..i], filterRouteIds), f) + Map(tail, f);
    }
  }

  /** The shown vehicles are those of the entities the selection keeps, one each, in feed order. */
  lemma {:induction false} ShownVehiclesAreSelected(entities: seq<FeedEntity>, filterRouteIds: set<string>)
    ensures var selected := Filter(entities, (e: FeedEntity) => ShowsBus(e, filterRouteIds));
      |ShownVehicles(entities, filterRouteIds)| == |selected|
      && forall i | 0 <= i < |selected| :: selected[i].vehicle == Some(ShownVehicles(entities, filterRouteIds)[i])
  {
    if entities != [] {
      var init, last := entities[..|entities| - 1], entities[|entities| - 1];
      assert entities == init + [last];
      ShownVehiclesAreSelected(init, filterRouteIds);
      FilterSnoc(init, last, (e: FeedEntity) => ShowsBus(e, filterRouteIds));
    }
  }

  /** Each feature is of a vehicle on a filtered route (when there is a filter), and a trip
      without a known headsign shows "". */
  lemma {:induction false} BusFeaturesFiltered(entities: seq<FeedEntity>, filterRouteIds: set<string>,
                            tripHeadsigns: map<string, string>, routeData: LinkedMap<string, BusRoute>)
    ensures forall f | f in BusFeatures(entities, filterRouteIds, tripHeadsigns, routeData) ::
      (filterRouteIds != {} ==> f.routeId in filterRouteIds)
      && (f.tripId !in tripHeadsigns ==> f.headsign == "")
      && IsHexColor(f.color)
  {
    var selected := Filter(entities, (e: FeedEntity) => ShowsBus(e, filterRouteIds));
    var shown := ShownVehicles(entities, filterRouteIds);
    ShownVehiclesAreSelected(entities, filterRouteIds);
    var features := BusFeatures(entities, filterRouteIds, tripHeadsigns, routeData);
    forall f | f in features
      ensures (filterRouteIds != {} ==> f.routeId in filterRouteIds)
        && (f.tripId !in tripHeadsigns ==> f.headsign == "")
        && IsHexColor(f.color)
    {
      var i :| 0 <= i < |features| && features[i] == f;
      assert f == BusFeatureOf(shown[i], tripHeadsigns, routeData);
      assert selected[i] in selected && ShowsBus(selected[i], filterRouteIds);
    }
  }

  /** Without a filter every entity with a vehicle is shown. */
  lemma {:induction false} NoFilterShowsAllVehicles(entities: seq<FeedEntity>, tripHeadsigns: map<string, string>,
                                 routeData: LinkedMap<string, BusRoute>)
    ensures |BusFeatures(entities, {}, tripHeadsigns, routeData)|
         == |Filter(entities, (e: FeedEntity) => e.vehicle.Some?)|
  {
    ShownVehiclesAreSelected(entities, {});
    FilterEquivalent(entities, (e: FeedEntity) => ShowsBus(e, {}), (e: FeedEntity) => e.vehicle.Some?);
  }

  // ---------------------------------------------------------------- layer ids

  /** The line layer of a route: "route-<id>-layer". */
  function LayerId(routeId: string): string {
    "route-" + routeId + "-layer"
  }

  /** Different routes have different layers. */
  lemma {:induction false} LayerIdInjective(a: string, b: string)
    requires LayerId(a) == LayerId(b)
    ensures a == b
  {
    assert a == LayerId(a)[6..|LayerId(a)| - 6];
    assert b == LayerId(b)[6..|LayerId(b)| - 6];
  }

  // ---------------------------------------------------------------- the manager

  class MapManager {
    var routeData: LinkedMap<string, BusRoute>
    var busFeatures: seq<BusFeature>
    var stopFeatures: seq<StopFeature>

    constructor ()
      ensures routeData == Empty() && busFeatures == [] && stopFeatures == []
    {
      routeData := Empty();
      busFeatures := [];
      stopFeatures := [];
    }

    /** `updateRoutes`: the routes become the ones colours and layer ids are taken from. */
    method UpdateRoutes(routes: LinkedMap<string, BusRoute>)
      modifies this`routeData
      ensures routeData == routes
    {
      routeData := routes;
    }

    /** `updateStops`: the stop source shows the selected stops. */
    method UpdateStops(stops: LinkedMap<string, BusStop>, filterStopIds: Option<set<string>>)
      modifies this`stopFeatures
      ensures stopFeatures == StopFeatures(SelectedStops(stops, filterStopIds))
    {
      var filteredStops := SelectedStops(stops, filterStopIds);
      stopFeatures := StopFeatures(filteredStops);
    }

    /** `updateBuses`: nothing on a missing feed; otherwise one feature per shown vehicle, built
        entity by entity. */
    method UpdateBuses(feed: Option<FeedMessage>, filterRouteIds: set<string>, tripHeadsigns: map<string, string>)
      modifies this`busFeatures
      ensures feed.None? ==> busFeatures == old(busFeatures)
      ensures feed.Some? ==> busFeatures == BusFeatures(feed.value.entity, filterRouteIds, tripHeadsigns, routeData)
    {
      if feed.None? {
        return;
      }
      var entities := feed.value.entity;
      var features: seq<BusFeature> := [];
      for i := 0 to |entities|
        invariant features == BusFeatures(entities[..i], filterRouteIds, tripHeadsigns, routeData)
      {
        var entity := entities[i];
        BusFeaturesSnoc(entities, i, filterRouteIds, tripHeadsigns, routeData);
        if entity.vehicle.Some? {
          var vehicle := entity.vehicle.value;
          var routeId := TripOf(vehicle).routeId;
          if filterRouteIds != {} && routeId !in filterRouteIds {
            continue;
          }
          features := features + [BusFeatureOf(vehicle, tripHeadsigns, routeData)];
        }
      }
      assert entities[..|entities|] == entities;
      busFeatures := features;
    }

    /** `getAllRouteLayerIds`: one layer id per route, in route order, none repeated. */
    function GetAllRouteLayerIds(): (r: seq<string>)
      reads this`routeData
      ensures |r| == |routeData.keys|
      ensures forall i | 0 <= i < |r| :: r[i] == LayerId(routeData.keys[i])
      ensures Distinct(r)
    {
      var r := Map(routeData.keys, LayerId);
      assert Distinct(r) by {
        forall i, j | 0 <= i < j < |r| ensures r[i] != r[j] {
          if r[i] == r[j] {
            LayerIdInjective(routeData.keys[i], routeData.keys[j]);
          }
        }
      }
      r
    }
  }
}
