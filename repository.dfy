/** `StmRepository`: the write-once caches of decoded static data, the merge of route
    metadata with route paths, the stop mapping and the related-stop resolver.
    Fetching and JSON decoding are outside the model: each getter receives the value
    that fetching and decoding would produce (`None` when either throws). */
module Repository {
  import opened Wrappers
  import opened Strings
  import opened Seqs
  import opened LinkedMaps
  import opened Models

  // ---------------------------------------------------------------- route merge

  /** A decoded point: its first two numbers, or the origin when it has fewer than two. */
  function ToPoint(point: seq<real>): (p: (real, real))
    ensures |point| >= 2 ==> p == (point[0], point[1])
    ensures |point| < 2 ==> p == (0.0, 0.0)
  {
    if |point| >= 2 then (point[0], point[1]) else (0.0, 0.0)
  }

  /** The `BusRoute` built for route `id` from its metadata and its path entry, if any. */
  function MergeRoute(id: string, metadata: RouteMetadata, parcours: Option<RouteParcoursData>): (r: BusRoute)
    ensures r.id == id && r.name == metadata.nom && r.color == metadata.couleur
    ensures r.directions.keys == metadata.directions.keys
    ensures forall k | k in metadata.directions.items ::
      r.directions.items[k] == metadata.directions.items[k].destination
    ensures parcours.None? ==> r.geometry == [] && r.stopIds == []
    ensures parcours.Some? ==> r.stopIds == parcours.value.stops
    ensures |r.geometry| == if parcours.Some? then |parcours.value.shapes| else 0
    ensures forall i | 0 <= i < |r.geometry| ::
      |r.geometry[i]| == |parcours.value.shapes[i]|
      && forall j | 0 <= j < |r.geometry[i]| :: r.geometry[i][j] == ToPoint(parcours.value.shapes[i][j])
  {
    var shapes := if parcours.Some? then parcours.value.shapes else [];
    var stopIds := if parcours.Some? then parcours.value.stops else [];
    var geometry := Map(shapes, (path: seq<seq<real>>) => Map(path, ToPoint));
    var directions := MapValues(metadata.directions, (_: string, d: DirectionMetadata) => d.destination);
    BusRoute(id, metadata.nom, metadata.couleur, directions, geometry, stopIds)
  }

  /** `routes` holds one merged route per metadata entry, in metadata order, and nothing else. */
  ghost predicate IsMergeOf(routes: LinkedMap<string, BusRoute>,
                            metadata: LinkedMap<string, RouteMetadata>,
                            parcours: LinkedMap<string, RouteParcoursData>)
  {
    && routes.keys == metadata.keys
    && forall id | id in metadata.items ::
         id in routes.items && routes.items[id] == MergeRoute(id, metadata.items[id], Get(parcours, id))
  }

  /** The `forEach` over the metadata that fills a fresh mutable map. */
  method MergeRoutes(metadata: LinkedMap<string, RouteMetadata>, parcours: LinkedMap<string, RouteParcoursData>)
    returns (result: LinkedMap<string, BusRoute>)
    ensures IsMergeOf(result, metadata, parcours)
  {
    result := Empty();
    var i := 0;
    while i < |metadata.keys|
      invariant i <= |metadata.keys|
      invariant result.keys == metadata.keys[..i]
      invariant forall id | id in result.items ::
        id in metadata.items && result.items[id] == MergeRoute(id, metadata.items[id], Get(parcours, id))
    {
      var id := metadata.keys[i];
      assert id !in metadata.keys[..i];
      result := Put(result, id, MergeRoute(id, metadata.items[id], Get(parcours, id)));
      assert metadata.keys[..i + 1] == metadata.keys[..i] + [id];
      i := i + 1;
    }
    assert metadata.keys[..i] == metadata.keys;
  }

  // ---------------------------------------------------------------- stops

  /** `rawStops.mapValues { (id, stop) -> BusStop(id, stop.name, stop.lat, stop.lon) }`. */
  function ToBusStops(rawStops: LinkedMap<string, Stop>): (r: LinkedMap<string, BusStop>)
    ensures r.keys == rawStops.keys
    ensures forall id | id in rawStops.items ::
      id in r.items && r.items[id].id == id && r.items[id].name == rawStops.items[id].name
  {
    MapValues(rawStops, (id: string, stop: Stop) => BusStop(id, stop.name, stop.lat, stop.lon))
  }

  // ---------------------------------------------------------------- related stops

  /** "p1 / p0" when the (lower-cased) target splits on " / " into exactly two parts "p0" and "p1". */
  function SwappedTarget(target: string): Option<string> {
    var parts := Split(target, " / ");
    if |parts| == 2 then Some(parts[1] + " / " + parts[0]) else None
  }

  /** A stop name matches the query when, lower-cased, it equals the lower-cased query
      or the query with its two " / " parts swapped. */
  predicate NameMatches(name: string, stopName: string) {
    var target := LowerCase(stopName);
    var swapped := SwappedTarget(target);
    LowerCase(name) == target || (swapped.Some? && LowerCase(name) == swapped.value)
  }

  /** The stops, in their order, whose name matches `stopName`; no other stop. */
  function RelatedStops(stops: seq<BusStop>, stopName: string): (r: seq<BusStop>)
    ensures IsSubsequence(r, stops)
    ensures forall s | s in r :: s in stops && NameMatches(s.name, stopName)
    ensures forall s | s in stops && NameMatches(s.name, stopName) :: s in r
  {
    FilterIsSubsequence(stops, (s: BusStop) => NameMatches(s.name, stopName));
    Filter(stops, (s: BusStop) => NameMatches(s.name, stopName))
  }

  /** Every copy of a matching stop is kept, and no copy of any other. */
  lemma {:induction false} RelatedStopsCounts(stops: seq<BusStop>, stopName: string)
    ensures forall s :: multiset(RelatedStops(stops, stopName))[s]
               == if NameMatches(s.name, stopName) then multiset(stops)[s] else 0
  {
    FilterCounts(stops, (s: BusStop) => NameMatches(s.name, stopName));
  }

  /** Asking for a stop's own name finds that stop. */
  lemma {:induction false} OwnNameFound(stops: seq<BusStop>, s: BusStop)
    requires s in stops
    ensures s in RelatedStops(stops, s.name)
  {
  }

  /** A stop named "x / y" is found when asking for "y / x", whatever the case of the letters. */
  lemma {:induction false} SwappedNameFound(x: string, y: string, stop: BusStop)
    requires '/' !in x && '/' !in y
    requires stop.name == x + " / " + y
    ensures NameMatches(stop.name, y + " / " + x)
  {
    var lx, ly := LowerCase(x), LowerCase(y);
    LowerCaseAppend(y + " / ", x);
    LowerCaseAppend(y, " / ");
    LowerCaseAppend(x + " / ", y);
    LowerCaseAppend(x, " / ");
    assert LowerCase(" / ") == " / ";
    LowerCaseSlashFree(x);
    LowerCaseSlashFree(y);
    SplitSpacedSlash(ly, lx);
    assert SwappedTarget(LowerCase(y + " / " + x)) == Some(lx + " / " + ly);
  }

  /** Without a '/' in the query only names equal to it, ignoring case, match. */
  lemma {:induction false} NoSeparatorExactOnly(name: string, stopName: string)
    requires '/' !in stopName
    ensures NameMatches(name, stopName) <==> LowerCase(name) == LowerCase(stopName)
  {
    LowerCaseSlashFree(stopName);
    SplitMissingChar(LowerCase(stopName), " / ", '/');
  }

  // ---------------------------------------------------------------- the repository

  class StmRepository {
    var cachedRoutes: Option<LinkedMap<string, BusRoute>>
    var cachedStops: Option<LinkedMap<string, BusStop>>
    var cachedTripTimes: Option<map<string, TripTimes>>
    var cachedTripHeadsigns: Option<map<string, string>>

    constructor ()
      ensures cachedRoutes == None && cachedStops == None
      ensures cachedTripTimes == None && cachedTripHeadsigns == None
    {
      cachedRoutes := None;
      cachedStops := None;
      cachedTripTimes := None;
      cachedTripHeadsigns := None;
    }

    /** `getTripHeadsigns`, with `decoded` the decoded `stm_trips.json` (`None` on failure). */
    method GetTripHeadsigns(decoded: Option<map<string, string>>) returns (r: map<string, string>)
      modifies this`cachedTripHeadsigns
      ensures old(cachedTripHeadsigns).Some? ==> cachedTripHeadsigns == old(cachedTripHeadsigns)
      ensures old(cachedTripHeadsigns).None? ==> cachedTripHeadsigns == decoded
      ensures r == if cachedTripHeadsigns.Some? then cachedTripHeadsigns.value else map[]
    {
      if cachedTripHeadsigns.Some? {
        return cachedTripHeadsigns.value;
      }
      if decoded.None? {
        return map[];
      }
      cachedTripHeadsigns := decoded;
      r := decoded.value;
    }

    /** `getRoutes`, with the decoded `stm_complet.json` and `stm_parcours.json`. */
    method GetRoutes(metadata: Option<LinkedMap<string, RouteMetadata>>,
                     parcours: Option<LinkedMap<string, RouteParcoursData>>)
      returns (r: LinkedMap<string, BusRoute>)
      modifies this`cachedRoutes
      ensures old(cachedRoutes).Some? ==> cachedRoutes == old(cachedRoutes)
      ensures old(cachedRoutes).None? && (metadata.None? || parcours.None?) ==> cachedRoutes == None
      ensures old(cachedRoutes).None? && metadata.Some? && parcours.Some? ==>
        cachedRoutes.Some? && IsMergeOf(cachedRoutes.value, metadata.value, parcours.value)
      ensures r == if cachedRoutes.Some? then cachedRoutes.value else Empty()
    {
      if cachedRoutes.Some? {
        return cachedRoutes.value;
      }
      if metadata.None? || parcours.None? {
        return Empty();
      }
      var result := MergeRoutes(metadata.value, parcours.value);
      cachedRoutes := Some(result);
      r := result;
    }

    /** `getStops`, with the decoded `stm_stops.json`. */
    method GetStops(decoded: Option<LinkedMap<string, Stop>>) returns (r: LinkedMap<string, BusStop>)
      modifies this`cachedStops
      ensures old(cachedStops).Some? ==> cachedStops == old(cachedStops)
      ensures old(cachedStops).None? ==>
        cachedStops == if decoded.Some? then Some(ToBusStops(decoded.value)) else None
      ensures r == if cachedStops.Some? then cachedStops.value else Empty()
    {
      if cachedStops.Some? {
        return cachedStops.value;
      }
      if decoded.None? {
        return Empty();
      }
      var result := ToBusStops(decoded.value);
      cachedStops := Some(result);
      r := result;
    }

    /** `getTripTimes`, with the decoded `trip_times.json`. */
    method GetTripTimes(decoded: Option<map<string, TripTimes>>) returns (r: map<string, TripTimes>)
      modifies this`cachedTripTimes
      ensures old(cachedTripTimes).Some? ==> cachedTripTimes == old(cachedTripTimes)
      ensures old(cachedTripTimes).None? ==> cachedTripTimes == decoded
      ensures r == if cachedTripTimes.Some? then cachedTripTimes.value else map[]
    {
      if cachedTripTimes.Some? {
        return cachedTripTimes.value;
      }
      if decoded.None? {
        return map[];
      }
      cachedTripTimes := decoded;
      r := decoded.value;
    }

    /** `getRelatedStops`: loads the stops first when they are not cached yet. */
    method GetRelatedStops(stopName: string, stopsDecoded: Option<LinkedMap<string, Stop>>)
      returns (r: seq<BusStop>)
      modifies this`cachedStops
      ensures old(cachedStops).Some? ==> cachedStops == old(cachedStops)
      ensures old(cachedStops).None? ==>
        cachedStops == if stopsDecoded.Some? then Some(ToBusStops(stopsDecoded.value)) else None
      ensures r == if cachedStops.Some? then RelatedStops(Values(cachedStops.value), stopName) else []
    {
      if cachedStops.None? {
        var _ := GetStops(stopsDecoded);
      }
      r := if cachedStops.Some? then RelatedStops(Values(cachedStops.value), stopName) else [];
    }
  }
}
