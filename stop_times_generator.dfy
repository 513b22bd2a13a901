/** `generate_stop_times.py`: joins `stop_times.txt` with `trips.txt` and writes, per stop,
    its passages sorted by time. Reading the CSV files and writing the per-stop JSON files are
    outside the model: the rows are the input and the per-stop lists are the output. */
module StopTimesGenerator {
  import opened Wrappers
  import opened Strings
  import opened Seqs
  import opened LinkedMaps
  import opened Models
  import opened GtfsStatic

  // ---------------------------------------------------------------- trips_info

  /** What `trips_info` keeps of a trip. */
  datatype TripInfo = TripInfo(routeId: string, headsign: string, serviceId: string)

  function InfoOf(row: TripRow): TripInfo {
    TripInfo(row.routeId, row.tripHeadsign, row.serviceId)
  }

  /** `trips_info` after the rows of `trips.txt`, in order: each row (re)writes its trip's entry. */
  function TripsInfoOf(rows: seq<TripRow>): map<string, TripInfo> {
    if rows == [] then map[]
    else TripsInfoOf(rows[..|rows| - 1])[rows[|rows| - 1].tripId := InfoOf(rows[|rows| - 1])]
  }

  /** The first reader loop of `generate_schedules`. */
  method LoadTripsInfo(rows: seq<TripRow>) returns (tripsInfo: map<string, TripInfo>)
    ensures tripsInfo == TripsInfoOf(rows)
  {
    tripsInfo := map[];
    for i := 0 to |rows|
      invariant tripsInfo == TripsInfoOf(rows[..i])
    {
      var row := rows[i];
      tripsInfo := tripsInfo[row.tripId := InfoOf(row)];
      assert rows[..i + 1][..i] == rows[..i];
    }
    assert rows[..|rows|] == rows;
  }

  /** Every trip with a row has an entry, and no other trip. */
  lemma {:induction false} TripsInfoKeys(rows: seq<TripRow>, tripId: string)
    ensures tripId in TripsInfoOf(rows) <==> exists row :: row in rows && row.tripId == tripId
  {
    if rows != [] {
      var init, last := rows[..|rows| - 1], rows[|rows| - 1];
      assert rows == init + [last];
      TripsInfoKeys(init, tripId);
      if tripId in TripsInfoOf(init) {
        var row :| row in init && row.tripId == tripId;
        assert row in rows;
      }
      assert last in rows;
    }
  }

  /** A trip's entry comes from its last row: later duplicates overwrite earlier ones. */
  lemma {:induction false} LastTripRowWins(rows: seq<TripRow>, i: nat)
    requires i < |rows|
    requires forall j | i < j < |rows| :: rows[j].tripId != rows[i].tripId
    ensures rows[i].tripId in TripsInfoOf(rows)
    ensures TripsInfoOf(rows)[rows[i].tripId] == InfoOf(rows[i])
  {
    if i < |rows| - 1 {
      var init := rows[..|rows| - 1];
      assert init[i] == rows[i];
      LastTripRowWins(init, i);
    }
  }

  // ---------------------------------------------------------------- stops_data

  /** The record `{r, t, h, s}` a row of a known trip contributes. */
  function Record(info: TripInfo, row: StopTimeRow): StopScheduleItem {
    StopScheduleItem(info.routeId, row.arrivalTime, info.headsign, info.serviceId)
  }

  /** The records of the rows, in order; a row of an unknown trip contributes nothing. */
  function RecordsOf(rows: seq<StopTimeRow>, tripsInfo: map<string, TripInfo>): seq<StopScheduleItem> {
    if rows == [] then []
    else
      var last := rows[|rows| - 1];
      RecordsOf(rows[..|rows| - 1], tripsInfo)
        + (if last.tripId in tripsInfo then [Record(tripsInfo[last.tripId], last)] else [])
  }

  /** `stops_data` after one more row. */
  function AddStopTime(stopsData: LinkedMap<string, seq<StopScheduleItem>>, row: StopTimeRow,
                       tripsInfo: map<string, TripInfo>): LinkedMap<string, seq<StopScheduleItem>> {
    if row.tripId in tripsInfo then
      Put(stopsData, row.stopId, Get(stopsData, row.stopId).GetOr([]) + [Record(tripsInfo[row.tripId], row)])
    else stopsData
  }

  /** `stops_data` after the rows of `stop_times.txt`, in order. */
  function StopsDataOf(rows: seq<StopTimeRow>, tripsInfo: map<string, TripInfo>)
    : LinkedMap<string, seq<StopScheduleItem>>
  {
    if rows == [] then Empty()
    else AddStopTime(StopsDataOf(rows[..|rows| - 1], tripsInfo), rows[|rows| - 1], tripsInfo)
  }

  /** The second reader loop of `generate_schedules`. */
  method CollectStopTimes(rows: seq<StopTimeRow>, tripsInfo: map<string, TripInfo>)
    returns (stopsData: LinkedMap<string, seq<StopScheduleItem>>)
    ensures stopsData == StopsDataOf(rows, tripsInfo)
  {
    stopsData := Empty();
    for i := 0 to |rows|
      invariant stopsData == StopsDataOf(rows[..i], tripsInfo)
    {
      var row := rows[i];
      if row.tripId in tripsInfo {
        var trip := tripsInfo[row.tripId];
        var schedules := Get(stopsData, row.stopId).GetOr([]);
        stopsData := Put(stopsData, row.stopId, schedules + [Record(trip, row)]);
      }
      assert rows[..i + 1][..i] == rows[..i];
    }
    assert rows[..|rows| - 0] == rows;
  }

  /** The rows at one stop. */
  function AtStop(stopId: string): StopTimeRow -> bool {
    (row: StopTimeRow) => row.stopId == stopId
  }

  /** The rows of known trips. */
  function KnownTrip(tripsInfo: map<string, TripInfo>): StopTimeRow -> bool {
    (row: StopTimeRow) => row.tripId in tripsInfo
  }

  /** One record per row of a known trip. */
  lemma {:induction false} RecordsCount(rows: seq<StopTimeRow>, tripsInfo: map<string, TripInfo>)
    ensures |RecordsOf(rows, tripsInfo)| == |Filter(rows, KnownTrip(tripsInfo))|
  {
    if rows != [] {
      var init, last := rows[..|rows| - 1], rows[|rows| - 1];
      assert rows == init + [last];
      RecordsCount(init, tripsInfo);
      FilterSnoc(init, last, KnownTrip(tripsInfo));
    }
  }

  /** The list of one stop after one more row. */
  lemma {:induction false} AddStopTimeAt(stopsData: LinkedMap<string, seq<StopScheduleItem>>, row: StopTimeRow,
                      tripsInfo: map<string, TripInfo>, stopId: string)
    ensures Get(AddStopTime(stopsData, row, tripsInfo), stopId)
         == if row.stopId == stopId && row.tripId in tripsInfo
            then Some(Get(stopsData, stopId).GetOr([]) + [Record(tripsInfo[row.tripId], row)])
            else Get(stopsData, stopId)
  {
  }

  /** The records after one more row. */
  lemma RecordsOfSnoc(rows: seq<StopTimeRow>, row: StopTimeRow, tripsInfo: map<string, TripInfo>)
    ensures RecordsOf(rows + [row], tripsInfo)
         == RecordsOf(rows, tripsInfo) + (if row.tripId in tripsInfo then [Record(tripsInfo[row.tripId], row)] else [])
  {
    assert (rows + [row])[..|rows|] == rows;
  }

  /** A stop's list, and whether it has one, follow its rows: the list holds the records of its
      rows of known trips, in row order, and exists exactly when there is at least one. */
  lemma {:induction false} StopsDataLists(rows: seq<StopTimeRow>, tripsInfo: map<string, TripInfo>, stopId: string)
    ensures var stopsData := StopsDataOf(rows, tripsInfo);
      && Get(stopsData, stopId).GetOr([]) == RecordsOf(Filter(rows, AtStop(stopId)), tripsInfo)
      && (Get(stopsData, stopId).Some? <==> RecordsOf(Filter(rows, AtStop(stopId)), tripsInfo) != [])
  {
    if rows != [] {
      var init, last := rows[..|rows| - 1], rows[|rows| - 1];
      assert rows == init + [last];
      StopsDataLists(init, tripsInfo, stopId);
      StopsDataListsStep(init, last, tripsInfo, stopId);
    }
  }

  /** The inductive step of `StopsDataLists`, for one more row. */
  lemma StopsDataListsStep(init: seq<StopTimeRow>, last: StopTimeRow, tripsInfo: map<string, TripInfo>, stopId: string)
    requires var before := StopsDataOf(init, tripsInfo);
      && Get(before, stopId).GetOr([]) == RecordsOf(Filter(init, AtStop(stopId)), tripsInfo)
      && (Get(before, stopId).Some? <==> RecordsOf(Filter(init, AtStop(stopId)), tripsInfo) != [])
    ensures var after := StopsDataOf(init + [last], tripsInfo);
      && Get(after, stopId).GetOr([]) == RecordsOf(Filter(init + [last], AtStop(stopId)), tripsInfo)
      && (Get(after, stopId).Some? <==> RecordsOf(Filter(init + [last], AtStop(stopId)), tripsInfo) != [])
  {
    var rows := init + [last];
    var before := StopsDataOf(init, tripsInfo);
    assert rows[..|rows| - 1] == init && rows[|rows| - 1] == last;
    assert StopsDataOf(rows, tripsInfo) == AddStopTime(before, last, tripsInfo);
    AddStopTimeAt(before, last, tripsInfo, stopId);
    FilterSnoc(init, last, AtStop(stopId));
    var atStop := Filter(init, AtStop(stopId));
    if last.stopId == stopId {
      assert Filter(rows, AtStop(stopId)) == atStop + [last];
      RecordsOfSnoc(atStop, last, tripsInfo);
    } else {
      assert Filter(rows, AtStop(stopId)) == atStop;
    }
  }

  /** There is a record exactly when some row is of a known trip. */
  lemma {:induction false} RecordsNonEmpty(rows: seq<StopTimeRow>, tripsInfo: map<string, TripInfo>)
    ensures RecordsOf(rows, tripsInfo) != [] <==> exists row :: row in rows && row.tripId in tripsInfo
  {
    if rows != [] {
      var init, last := rows[..|rows| - 1], rows[|rows| - 1];
      assert rows == init + [last];
      RecordsNonEmpty(init, tripsInfo);
      if row :| row in init && row.tripId in tripsInfo {
        assert row in rows;
      }
      assert last in rows;
    }
  }

  /** A stop has a list exactly when one of its rows is of a known trip. */
  lemma {:induction false} StopHasList(rows: seq<StopTimeRow>, tripsInfo: map<string, TripInfo>, stopId: string)
    ensures stopId in StopsDataOf(rows, tripsInfo).items
        <==> exists row :: row in rows && row.stopId == stopId && row.tripId in tripsInfo
  {
    var atStop := Filter(rows, AtStop(stopId));
    StopsDataLists(rows, tripsInfo, stopId);
    RecordsNonEmpty(atStop, tripsInfo);
    if row :| row in rows && row.stopId == stopId && row.tripId in tripsInfo {
      assert row in atStop;
    }
  }

  // ---------------------------------------------------------------- total count

  /** The number of records over the listed keys. */
  function SumLengths(keys: seq<string>, items: map<string, seq<StopScheduleItem>>): nat
    requires forall k | k in keys :: k in items
  {
    if keys == [] then 0
    else SumLengths(keys[..|keys| - 1], items) + |items[keys[|keys| - 1]]|
  }

  /** Changing the list of a key that is not listed leaves the sum alone. */
  lemma {:induction false} SumLengthsOther(keys: seq<string>, items: map<string, seq<StopScheduleItem>>,
                                           k: string, v: seq<StopScheduleItem>)
    requires forall key | key in keys :: key in items
    requires k !in keys
    ensures SumLengths(keys, items[k := v]) == SumLengths(keys, items)
  {
    if keys != [] {
      SumLengthsOther(keys[..|keys| - 1], items, k, v);
    }
  }

  /** Changing the list of a listed key changes the sum by the difference of the lengths. */
  lemma {:induction false} SumLengthsPut(keys: seq<string>, items: map<string, seq<StopScheduleItem>>,
                                         k: string, v: seq<StopScheduleItem>)
    requires forall key | key in keys :: key in items
    requires Distinct(keys) && k in keys
    ensures SumLengths(keys, items[k := v]) + |items[k]| == SumLengths(keys, items) + |v|
  {
    var init, last := keys[..|keys| - 1], keys[|keys| - 1];
    assert Distinct(init);
    if last == k {
      assert k !in init by {
        forall j | 0 <= j < |init| ensures init[j] != k { assert keys[j] != keys[|keys| - 1]; }
      }
      SumLengthsOther(init, items, k, v);
    } else {
      assert k in init by {
        var j :| 0 <= j < |keys| && keys[j] == k;
        assert j < |keys| - 1;
        assert init[j] == k;
      }
      SumLengthsPut(init, items, k, v);
    }
  }

  /** The number of records over all the stops of a `stops_data`. */
  function TotalRecords(stopsData: LinkedMap<string, seq<StopScheduleItem>>): nat {
    SumLengths(stopsData.keys, stopsData.items)
  }

  /** Adding a row of a known trip adds one record; any other row adds none. */
  lemma {:induction false} AddStopTimeCount(stopsData: LinkedMap<string, seq<StopScheduleItem>>, row: StopTimeRow,
                         tripsInfo: map<string, TripInfo>)
    ensures TotalRecords(AddStopTime(stopsData, row, tripsInfo))
         == TotalRecords(stopsData) + (if row.tripId in tripsInfo then 1 else 0)
  {
    if row.tripId in tripsInfo {
      var v := Get(stopsData, row.stopId).GetOr([]) + [Record(tripsInfo[row.tripId], row)];
      if row.stopId in stopsData.keys {
        SumLengthsPut(stopsData.keys, stopsData.items, row.stopId, v);
      } else {
        var keys := stopsData.keys + [row.stopId];
        assert keys[..|keys| - 1] == stopsData.keys;
        SumLengthsOther(stopsData.keys, stopsData.items, row.stopId, v);
      }
    }
  }

  /** The lists hold as many records as there are rows of known trips. */
  lemma {:induction false} TotalIsKnownRows(rows: seq<StopTimeRow>, tripsInfo: map<string, TripInfo>)
    ensures TotalRecords(StopsDataOf(rows, tripsInfo)) == |Filter(rows, KnownTrip(tripsInfo))|
  {
    if rows != [] {
      var init, last := rows[..|rows| - 1], rows[|rows| - 1];
      assert rows == init + [last];
      TotalIsKnownRows(init, tripsInfo);
      AddStopTimeCount(StopsDataOf(init, tripsInfo), last, tripsInfo);
      FilterSnoc(init, last, KnownTrip(tripsInfo));
    }
  }

  // ---------------------------------------------------------------- per-stop sort

  /** `key=lambda x: x['t']` compared with Python's `<` on strings. */
  predicate TimeLess(a: StopScheduleItem, b: StopScheduleItem) {
    LexLess(a.time, b.time)
  }

  /** `schedules.sort(key=...)`: Python's stable sort. */
  function SortByTime(schedules: seq<StopScheduleItem>): (r: seq<StopScheduleItem>)
    ensures multiset(r) == multiset(schedules)
  {
    SortWith(schedules, TimeLess)
  }

  lemma {:induction false} TimeLessStrictOrder(schedules: seq<StopScheduleItem>)
    ensures StrictOrderOn(TimeLess, schedules)
  {
    forall a ensures !TimeLess(a, a) {
      LexLessIrreflexive(a.time);
    }
    forall a, b, c | TimeLess(a, b) && TimeLess(b, c) ensures TimeLess(a, c) {
      LexLessTransitive(a.time, b.time, c.time);
    }
  }

  /** A sorted list is in non-decreasing time order, and the records of any one time keep
      their order. */
  lemma {:induction false} SortByTimeSortedStable(schedules: seq<StopScheduleItem>, time: string)
    ensures forall i, j | 0 <= i < j < |SortByTime(schedules)| ::
      !LexLess(SortByTime(schedules)[j].time, SortByTime(schedules)[i].time)
    ensures Filter(SortByTime(schedules), (x: StopScheduleItem) => x.time == time)
         == Filter(schedules, (x: StopScheduleItem) => x.time == time)
  {
    TimeLessStrictOrder(schedules);
    SortWithSorted(schedules, TimeLess);
    assert UniformClass(TimeLess, (x: StopScheduleItem) => x.time == time, schedules) by {
      LexLessIrreflexive(time);
    }
    SortWithStable(schedules, TimeLess, (x: StopScheduleItem) => x.time == time);
  }

  /** The output: every stop's list sorted by time. */
  function SortedSchedules(stopsData: LinkedMap<string, seq<StopScheduleItem>>)
    : (r: LinkedMap<string, seq<StopScheduleItem>>)
    ensures r.keys == stopsData.keys
    ensures forall k | k in stopsData.items :: r.items[k] == SortByTime(stopsData.items[k])
  {
    MapValues(stopsData, (k: string, v: seq<StopScheduleItem>) => SortByTime(v))
  }

  /** A map with the same keys whose every list is the sorted list is the output. */
  lemma {:induction false} AllSorted(sorted: LinkedMap<string, seq<StopScheduleItem>>, stopsData: LinkedMap<string, seq<StopScheduleItem>>)
    requires sorted.keys == stopsData.keys
    requires forall j | 0 <= j < |stopsData.keys| ::
      sorted.items[stopsData.keys[j]] == SortByTime(stopsData.items[stopsData.keys[j]])
    ensures sorted == SortedSchedules(stopsData)
  {
    var expected := SortedSchedules(stopsData);
    forall k | k in sorted.items ensures sorted.items[k] == expected.items[k] {
      var j :| 0 <= j < |stopsData.keys| && stopsData.keys[j] == k;
    }
  }

  /** The writing loop of `generate_schedules`: each stop's list is sorted in turn. */
  method SortSchedules(stopsData: LinkedMap<string, seq<StopScheduleItem>>)
    returns (sorted: LinkedMap<string, seq<StopScheduleItem>>)
    ensures sorted == SortedSchedules(stopsData)
  {
    sorted := stopsData;
    var keys := stopsData.keys;
    for i := 0 to |keys|
      invariant sorted.keys == keys
      invariant forall j | 0 <= j < i :: sorted.items[keys[j]] == SortByTime(stopsData.items[keys[j]])
      invariant forall j | i <= j < |keys| :: sorted.items[keys[j]] == stopsData.items[keys[j]]
    {
      var stopId := keys[i];
      ghost var before := sorted;
      sorted := Put(sorted, stopId, SortByTime(sorted.items[stopId]));
      assert sorted.items == before.items[stopId := SortByTime(stopsData.items[stopId])];
      assert forall j | 0 <= j < |keys| && j != i :: keys[j] != stopId;
    }
    AllSorted(sorted, stopsData);
  }

  /** `generate_schedules`: the join, the grouping by stop and the per-stop sort. */
  method GenerateSchedules(tripRows: seq<TripRow>, stopTimeRows: seq<StopTimeRow>)
    returns (schedules: LinkedMap<string, seq<StopScheduleItem>>)
    ensures schedules == SortedSchedules(StopsDataOf(stopTimeRows, TripsInfoOf(tripRows)))
  {
    var tripsInfo := LoadTripsInfo(tripRows);
    var stopsData := CollectStopTimes(stopTimeRows, tripsInfo);
    schedules := SortSchedules(stopsData);
  }

  /** What a stop's output list is: present exactly when a row at the stop is of a known trip,
      and then the records of its rows, reordered by time only. */
  lemma {:induction false} StopSchedule(tripRows: seq<TripRow>, stopTimeRows: seq<StopTimeRow>, stopId: string)
    ensures var tripsInfo := TripsInfoOf(tripRows);
      var schedules := SortedSchedules(StopsDataOf(stopTimeRows, tripsInfo));
      && (stopId in schedules.items
          <==> exists row :: row in stopTimeRows && row.stopId == stopId && row.tripId in tripsInfo)
      && (stopId in schedules.items ==>
          schedules.items[stopId] == SortByTime(RecordsOf(Filter(stopTimeRows, AtStop(stopId)), tripsInfo)))
  {
    var tripsInfo := TripsInfoOf(tripRows);
    StopHasList(stopTimeRows, tripsInfo, stopId);
    StopsDataLists(stopTimeRows, tripsInfo, stopId);
  }
}
