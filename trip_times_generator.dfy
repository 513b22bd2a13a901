/** `generate_trip_times.py`: one pass over `stop_times.txt` that keeps, per trip, the earliest
    departure and the latest arrival, comparing the time texts as strings. Reading the CSV
    file and writing `trip_times.json` are outside the model: the rows are the input and the
    dictionary is the output. */
module TripTimesGenerator {
  import opened Wrappers
  import opened Strings
  import opened LinkedMaps
  import opened Models
  import opened GtfsStatic

  /** The values a trip starts from on first sight, meant to lose every comparison. */
  const StartSentinel: string := "99:99:99"
  const EndSentinel: string := "00:00:00"

  /** Python's `a <= b` on strings. */
  predicate LexLessEq(a: string, b: string) {
    a == b || LexLess(a, b)
  }

  /** The dictionary after one more row: the row's trip (created with the sentinels on first
      sight) takes the row's departure when it is smaller and the row's arrival when it is larger. */
  function AddRow(tripTimes: LinkedMap<string, TripTimes>, row: StopTimeRow): LinkedMap<string, TripTimes> {
    var entry := Get(tripTimes, row.tripId).GetOr(TripTimes(StartSentinel, EndSentinel));
    var start := if LexLess(row.departureTime, entry.start) then row.departureTime else entry.start;
    var end := if LexLess(entry.end, row.arrivalTime) then row.arrivalTime else entry.end;
    Put(tripTimes, row.tripId, TripTimes(start, end))
  }

  /** The dictionary after the rows, in order. */
  function TripTimesOf(rows: seq<StopTimeRow>): LinkedMap<string, TripTimes> {
    if rows == [] then Empty() else AddRow(TripTimesOf(rows[..|rows| - 1]), rows[|rows| - 1])
  }

  /** The reader loop of `generate_trip_times`. */
  method GenerateTripTimes(rows: seq<StopTimeRow>) returns (tripTimes: LinkedMap<string, TripTimes>)
    ensures tripTimes == TripTimesOf(rows)
  {
    tripTimes := Empty();
    for i := 0 to |rows|
      invariant tripTimes == TripTimesOf(rows[..i])
    {
      var row := rows[i];
      var entry := Get(tripTimes, row.tripId).GetOr(TripTimes(StartSentinel, EndSentinel));
      if LexLess(row.departureTime, entry.start) {
        entry := entry.(start := row.departureTime);
      }
      if LexLess(entry.end, row.arrivalTime) {
        entry := entry.(end := row.arrivalTime);
      }
      tripTimes := Put(tripTimes, row.tripId, entry);
      assert rows[..i + 1][..i] == rows[..i];
    }
    assert rows[..|rows|] == rows;
  }

  // ---------------------------------------------------------------- what the output means

  /** The departure and arrival texts of a trip's rows. */
  ghost function Departures(rows: seq<StopTimeRow>, tripId: string): set<string> {
    set row | row in rows && row.tripId == tripId :: row.departureTime
  }

  ghost function Arrivals(rows: seq<StopTimeRow>, tripId: string): set<string> {
    set row | row in rows && row.tripId == tripId :: row.arrivalTime
  }

  /** `x` is the smallest string of `s`, and `y` the largest of `t`. */
  ghost predicate IsLeast(x: string, s: set<string>) {
    x in s && forall y | y in s :: LexLessEq(x, y)
  }

  ghost predicate IsGreatest(x: string, s: set<string>) {
    x in s && forall y | y in s :: LexLessEq(y, x)
  }

  /** The smaller of the least element and a new string is the least once it is added. */
  lemma {:induction false} LeastAdd(x: string, s: set<string>, d: string)
    requires IsLeast(x, s)
    ensures IsLeast(if LexLess(d, x) then d else x, s + {d})
  {
    if LexLess(d, x) {
      forall y | y in s ensures LexLessEq(d, y) {
        if LexLess(x, y) { LexLessTransitive(d, x, y); }
      }
    } else {
      LexLessTotal(x, d);
    }
  }

  lemma {:induction false} GreatestAdd(x: string, s: set<string>, d: string)
    requires IsGreatest(x, s)
    ensures IsGreatest(if LexLess(x, d) then d else x, s + {d})
  {
    if LexLess(x, d) {
      forall y | y in s ensures LexLessEq(y, d) {
        if LexLess(y, x) { LexLessTransitive(y, x, d); }
      }
    } else {
      LexLessTotal(x, d);
    }
  }

  /** A set has one least element and one greatest element. */
  lemma {:induction false} LeastUnique(x: string, y: string, s: set<string>)
    requires IsLeast(x, s) && IsLeast(y, s)
    ensures x == y
  {
    if x != y {
      LexLessAsymmetric(x, y);
    }
  }

  lemma {:induction false} GreatestUnique(x: string, y: string, s: set<string>)
    requires IsGreatest(x, s) && IsGreatest(y, s)
    ensures x == y
  {
    if x != y {
      LexLessAsymmetric(x, y);
    }
  }

  /** The rows of a prefix and the row after it. */
  lemma {:induction false} RowSets(rows: seq<StopTimeRow>, tripId: string)
    requires rows != []
    ensures var init, last := rows[..|rows| - 1], rows[|rows| - 1];
      && Departures(rows, tripId)
         == Departures(init, tripId) + (if last.tripId == tripId then {last.departureTime} else {})
      && Arrivals(rows, tripId)
         == Arrivals(init, tripId) + (if last.tripId == tripId then {last.arrivalTime} else {})
  {
    var init, last := rows[..|rows| - 1], rows[|rows| - 1];
    assert rows == init + [last];
    assert forall row :: row in rows <==> row in init || row == last;
  }

  /** Every trip with a row gets one entry, and no other trip does. */
  lemma {:induction false} TripTimesKeys(rows: seq<StopTimeRow>, tripId: string)
    ensures tripId in TripTimesOf(rows).items <==> exists row :: row in rows && row.tripId == tripId
  {
    if rows != [] {
      var init, last := rows[..|rows| - 1], rows[|rows| - 1];
      assert rows == init + [last];
      TripTimesKeys(init, tripId);
      if tripId in TripTimesOf(init).items {
        var row :| row in init && row.tripId == tripId;
        assert row in rows;
      }
      assert last in rows;
    }
  }

  /** The start of a trip is the least of the sentinel and its departures, and its end the
      greatest of the sentinel and its arrivals, as strings. */
  lemma {:induction false} TripTimesBounds(rows: seq<StopTimeRow>, tripId: string)
    requires tripId in TripTimesOf(rows).items
    ensures IsLeast(TripTimesOf(rows).items[tripId].start, {StartSentinel} + Departures(rows, tripId))
    ensures IsGreatest(TripTimesOf(rows).items[tripId].end, {EndSentinel} + Arrivals(rows, tripId))
  {
    var init, last := rows[..|rows| - 1], rows[|rows| - 1];
    var before := TripTimesOf(init);
    assert TripTimesOf(rows) == AddRow(before, last);
    RowSets(rows, tripId);
    if last.tripId != tripId {
      TripTimesBounds(init, tripId);
    } else {
      if tripId in before.items {
        TripTimesBounds(init, tripId);
      } else {
        TripTimesKeys(init, tripId);
        assert Departures(init, tripId) == {} && Arrivals(init, tripId) == {};
      }
      BoundsStep(before, Departures(init, tripId), Arrivals(init, tripId), last);
    }
  }

  /** One more row of a trip keeps its start the least of the sentinel and the departures seen,
      and its end the greatest of the sentinel and the arrivals seen. */
  lemma BoundsStep(before: LinkedMap<string, TripTimes>, departures: set<string>, arrivals: set<string>,
                   last: StopTimeRow)
    requires last.tripId in before.items ==>
      && IsLeast(before.items[last.tripId].start, {StartSentinel} + departures)
      && IsGreatest(before.items[last.tripId].end, {EndSentinel} + arrivals)
    requires last.tripId !in before.items ==> departures == {} && arrivals == {}
    ensures var entry := AddRow(before, last).items[last.tripId];
      && IsLeast(entry.start, {StartSentinel} + departures + {last.departureTime})
      && IsGreatest(entry.end, {EndSentinel} + arrivals + {last.arrivalTime})
  {
    var entry := Get(before, last.tripId).GetOr(TripTimes(StartSentinel, EndSentinel));
    if last.tripId !in before.items {
      LexLessIrreflexive(StartSentinel);
      LexLessIrreflexive(EndSentinel);
      assert {StartSentinel} + departures == {StartSentinel};
      assert {EndSentinel} + arrivals == {EndSentinel};
    }
    LeastAdd(entry.start, {StartSentinel} + departures, last.departureTime);
    GreatestAdd(entry.end, {EndSentinel} + arrivals, last.arrivalTime);
  }

  /** Two row lists holding the same rows give a trip the same entry. */
  lemma {:induction false} SameRowsSameEntry(rows: seq<StopTimeRow>, rows': seq<StopTimeRow>, tripId: string)
    requires forall row :: row in rows <==> row in rows'
    requires tripId in TripTimesOf(rows).items
    ensures tripId in TripTimesOf(rows').items
    ensures TripTimesOf(rows).items[tripId] == TripTimesOf(rows').items[tripId]
  {
    TripTimesKeys(rows, tripId);
    TripTimesKeys(rows', tripId);
    var a, b := TripTimesOf(rows).items[tripId], TripTimesOf(rows').items[tripId];
    TripTimesBounds(rows, tripId);
    TripTimesBounds(rows', tripId);
    assert Departures(rows, tripId) == Departures(rows', tripId);
    assert Arrivals(rows, tripId) == Arrivals(rows', tripId);
    LeastUnique(a.start, b.start, {StartSentinel} + Departures(rows, tripId));
    GreatestUnique(a.end, b.end, {EndSentinel} + Arrivals(rows, tripId));
  }

  /** The dictionary's contents do not depend on the order of the rows (only its key order does). */
  lemma {:induction false} TripTimesOrderIndependent(rows: seq<StopTimeRow>, rows': seq<StopTimeRow>)
    requires multiset(rows) == multiset(rows')
    ensures TripTimesOf(rows).items == TripTimesOf(rows').items
  {
    var a, b := TripTimesOf(rows).items, TripTimesOf(rows').items;
    forall row ensures row in rows <==> row in rows' {
      assert row in rows <==> row in multiset(rows);
      assert row in rows' <==> row in multiset(rows');
    }
    forall tripId | tripId in a ensures tripId in b && a[tripId] == b[tripId] {
      SameRowsSameEntry(rows, rows', tripId);
    }
    forall tripId | tripId in b ensures tripId in a {
      SameRowsSameEntry(rows', rows, tripId);
    }
  }
}
