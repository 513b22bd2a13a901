/** `MainViewModel`: the live-feed activity filter run on every poll, and the stop-schedule
    engine (deduplication, upcoming-time filter, directions, direction selection, the
    first 20 rows). The clock, today's date and the parsing of "YYYYMMDD" start dates
    are inputs: `now` is a time of day, a date is a day number, and `parseDate` stands for
    `LocalDate.parse` with the `yyyyMMdd` pattern (`None` where it throws). */
module ViewModel {
  import opened Wrappers
  import opened Ints
  import opened Strings
  import opened Seqs
  import opened LinkedMaps
  import opened Models
  import opened GtfsRealtime
  import opened Repository

  // ---------------------------------------------------------------- clock

  datatype TimeOfDay = TimeOfDay(hour: int, minute: int, second: int)

  /** `LocalTime`, to the second. */
  type LocalTime = t: TimeOfDay | 0 <= t.hour < 24 && 0 <= t.minute < 60 && 0 <= t.second < 60
    witness TimeOfDay(0, 0, 0)

  /** `LocalTime.toSecondOfDay()`. */
  function SecondOfDay(t: LocalTime): (r: nat)
    ensures r < 86400 && r / 3600 == t.hour
    ensures r % 60 == t.second && r / 60 % 60 == t.minute
  {
    t.hour * 3600 + t.minute * 60 + t.second
  }

  const ServiceDayCutoffHour: int := 4
  const TripStartBufferSeconds: int := 10 * 60

  // ---------------------------------------------------------------- GTFS times

  /** `gtfsTimeToSeconds`: "h:m:s" with `Int` fields (hours may exceed 23) to `h*3600 + m*60 + s`
      in `Int` arithmetic, or -1 when there are fewer than three parts or a part is not an `Int`.
      Parts after the third are ignored. */
  function GtfsTimeToSeconds(time: string): (r: int)
    ensures InIntRange(r)
    ensures ':' !in time ==> r == -1
    ensures |Split(time, ":")| < 3 ==> r == -1
    ensures var parts := Split(time, ":");
      |parts| >= 3 && (ParseInt(parts[0]).None? || ParseInt(parts[1]).None? || ParseInt(parts[2]).None?) ==> r == -1
  {
    var parts := Split(time, ":");
    if ':' !in time then
      SplitMissingChar(time, ":", ':');
      -1
    else if |parts| < 3 then -1
    else match (ParseInt(parts[0]), ParseInt(parts[1]), ParseInt(parts[2]))
      case (Some(h), Some(m), Some(s)) => WrapInt32(h * 3600 + m * 60 + s)
      case _ => -1
  }

  /** A GTFS time written with digit fields ("8:05:00", "25:30:00") converts to its
      number of seconds, hours of 24 and more included. */
  lemma {:induction false} GtfsTimeToSecondsOfDigits(hh: string, mm: string, ss: string)
    requires |hh| >= 1 && |mm| >= 1 && |ss| >= 1
    requires AllDigits(hh) && AllDigits(mm) && AllDigits(ss)
    requires DigitsValue(hh) * 3600 + DigitsValue(mm) * 60 + DigitsValue(ss) <= IntMax
    ensures GtfsTimeToSeconds(hh + ":" + mm + ":" + ss)
         == DigitsValue(hh) * 3600 + DigitsValue(mm) * 60 + DigitsValue(ss)
  {
    var time := hh + ":" + mm + ":" + ss;
    DigitsHaveNo(hh, ':');
    DigitsHaveNo(mm, ':');
    DigitsHaveNo(ss, ':');
    assert time == hh + [':'] + mm + [':'] + ss;
    SplitThreeFields(hh, ':', mm, ss);
    assert time[|hh|] == ':';
    ParseDigitString(hh);
    ParseDigitString(mm);
    ParseDigitString(ss);
  }

  /** A time written "HH:MM:SS" converts to its number of seconds, "25:30:00" to 91800. */
  lemma {:induction false} GtfsTimeOfClockString(h: nat, m: nat, s: nat)
    requires h < 100 && m < 100 && s < 100
    ensures GtfsTimeToSeconds(ClockString(h, m, s)) == h * 3600 + m * 60 + s
  {
    var hh, mm, ss := TwoDigits(h), TwoDigits(m), TwoDigits(s);
    DigitsHaveNo(hh, ':');
    DigitsHaveNo(mm, ':');
    DigitsHaveNo(ss, ':');
    SplitThreeFields(hh, ':', mm, ss);
    assert ClockString(h, m, s) == hh + [':'] + mm + [':'] + ss;
    ParseTwoDigits(h);
    ParseTwoDigits(m);
    ParseTwoDigits(s);
  }

  // ---------------------------------------------------------------- service day

  /** The service date: the day before `today` before the 04:00 cutoff, otherwise `today`. */
  function ServiceDate(today: int, now: LocalTime): (d: int)
    ensures d == today - 1 || d == today
    ensures d == today - 1 <==> now.hour < ServiceDayCutoffHour
  {
    if now.hour < ServiceDayCutoffHour then today - 1 else today
  }

  /** `nowInSeconds`: the second of day, counted from the start of the service day, so that
      before the cutoff it lies after 24:00:00 as the GTFS times of late trips do. */
  function NowInServiceSeconds(now: LocalTime): (r: nat)
    ensures r % 86400 == SecondOfDay(now)
    ensures r >= 86400 <==> now.hour < ServiceDayCutoffHour
    ensures r < 86400 + ServiceDayCutoffHour * 3600
  {
    var seconds := SecondOfDay(now);
    if now.hour < ServiceDayCutoffHour then seconds + 24 * 3600 else seconds
  }

  // ---------------------------------------------------------------- activity filter

  /** The filter of one poll: whether a feed entity is shown. */
  predicate IsActive(e: FeedEntity, serviceDate: int, parseDate: string -> Option<int>,
                     tripTimes: map<string, TripTimes>, now: LocalTime)
  {
    if e.vehicle.None? || e.vehicle.value.trip.None? then false
    else
      var trip := e.vehicle.value.trip.value;
      if trip.startDate.Some? && parseDate(trip.startDate.value).Some?
         && parseDate(trip.startDate.value).value != serviceDate then false
      else if trip.tripId !in tripTimes then true
      else
        var startSeconds := GtfsTimeToSeconds(tripTimes[trip.tripId].start);
        var endSeconds := GtfsTimeToSeconds(tripTimes[trip.tripId].end);
        if startSeconds < 0 || endSeconds < 0 then true
        else
          var nowSeconds := NowInServiceSeconds(now);
          nowSeconds >= startSeconds - TripStartBufferSeconds && nowSeconds < endSeconds
  }

  /** The trip of an entity that has a vehicle with a trip. */
  function TripDescriptorOf(e: FeedEntity): TripDescriptor
    requires e.vehicle.Some? && e.vehicle.value.trip.Some?
  {
    e.vehicle.value.trip.value
  }

  /** `e` with its trip's start date removed. */
  function WithoutStartDate(e: FeedEntity): (r: FeedEntity)
    requires e.vehicle.Some? && e.vehicle.value.trip.Some?
    ensures r.vehicle.Some? && r.vehicle.value.trip.Some?
    ensures TripDescriptorOf(r).startDate.None?
    ensures TripDescriptorOf(r) == TripDescriptorOf(e).(startDate := None)
    ensures r.id == e.id
    ensures r.vehicle.value.vehicle == e.vehicle.value.vehicle && r.vehicle.value.position == e.vehicle.value.position
  {
    var v := e.vehicle.value;
    e.(vehicle := Some(v.(trip := Some(v.trip.value.(startDate := None)))))
  }

  /** Only vehicles on a trip are ever shown. */
  lemma {:induction false} ActiveHasTrip(e: FeedEntity, serviceDate: int, parseDate: string -> Option<int>,
                      tripTimes: map<string, TripTimes>, now: LocalTime)
    requires IsActive(e, serviceDate, parseDate, tripTimes, now)
    ensures e.vehicle.Some? && e.vehicle.value.trip.Some?
  {
  }

  /** A start date that parses to another day hides the vehicle, whatever its times. */
  lemma {:induction false} OtherServiceDateHidden(e: FeedEntity, serviceDate: int, parseDate: string -> Option<int>,
                               tripTimes: map<string, TripTimes>, now: LocalTime)
    requires e.vehicle.Some? && e.vehicle.value.trip.Some?
    requires TripDescriptorOf(e).startDate.Some?
    requires parseDate(TripDescriptorOf(e).startDate.value).Some?
    requires parseDate(TripDescriptorOf(e).startDate.value).value != serviceDate
    ensures !IsActive(e, serviceDate, parseDate, tripTimes, now)
  {
  }

  /** Fail-open on the date: a start date that does not parse counts as no start date. */
  lemma {:induction false} UnparseableStartDateIgnored(e: FeedEntity, serviceDate: int, parseDate: string -> Option<int>,
                                    tripTimes: map<string, TripTimes>, now: LocalTime)
    requires e.vehicle.Some? && e.vehicle.value.trip.Some?
    requires TripDescriptorOf(e).startDate.Some? ==> parseDate(TripDescriptorOf(e).startDate.value).None?
    ensures IsActive(e, serviceDate, parseDate, tripTimes, now)
        == IsActive(WithoutStartDate(e), serviceDate, parseDate, tripTimes, now)
  {
  }

  /** Fail-open on the times: a vehicle on the service day whose trip has no schedule,
      or a schedule that does not parse, is shown. */
  lemma {:induction false} MissingScheduleShown(e: FeedEntity, serviceDate: int, parseDate: string -> Option<int>,
                             tripTimes: map<string, TripTimes>, now: LocalTime)
    requires e.vehicle.Some? && e.vehicle.value.trip.Some?
    requires TripDescriptorOf(e).startDate.None?
    requires var id := TripDescriptorOf(e).tripId;
      id !in tripTimes || GtfsTimeToSeconds(tripTimes[id].start) < 0 || GtfsTimeToSeconds(tripTimes[id].end) < 0
    ensures IsActive(e, serviceDate, parseDate, tripTimes, now)
  {
  }

  /** A vehicle on the service day whose schedule converts to `start` and `end` seconds is shown
      exactly from ten minutes before `start` up to, not including, `end`. */
  lemma {:induction false} ActiveWindowSeconds(e: FeedEntity, serviceDate: int, parseDate: string -> Option<int>,
                            tripTimes: map<string, TripTimes>, now: LocalTime, start: nat, end: nat)
    requires e.vehicle.Some? && e.vehicle.value.trip.Some?
    requires var d := TripDescriptorOf(e).startDate; d.Some? ==> parseDate(d.value) == Some(serviceDate)
    requires TripDescriptorOf(e).tripId in tripTimes
    requires GtfsTimeToSeconds(tripTimes[TripDescriptorOf(e).tripId].start) == start
    requires GtfsTimeToSeconds(tripTimes[TripDescriptorOf(e).tripId].end) == end
    ensures IsActive(e, serviceDate, parseDate, tripTimes, now) <==> start - 600 <= NowInServiceSeconds(now) < end
  {
  }

  /** The window of a 08:00:00–09:00:00 trip holds 07:51:00 and not 09:00:01. */
  lemma {:induction false} ActiveWindowExample(e: FeedEntity, serviceDate: int, parseDate: string -> Option<int>,
                            tripTimes: map<string, TripTimes>, early: LocalTime, late: LocalTime)
    requires e.vehicle.Some? && e.vehicle.value.trip.Some?
    requires TripDescriptorOf(e).startDate.None?
    requires TripDescriptorOf(e).tripId in tripTimes
    requires tripTimes[TripDescriptorOf(e).tripId] == TripTimes(ClockString(8, 0, 0), ClockString(9, 0, 0))
    requires early == TimeOfDay(7, 51, 0) && late == TimeOfDay(9, 0, 1)
    ensures IsActive(e, serviceDate, parseDate, tripTimes, early)
    ensures !IsActive(e, serviceDate, parseDate, tripTimes, late)
  {
    GtfsTimeOfClockString(8, 0, 0);
    GtfsTimeOfClockString(9, 0, 0);
    ActiveWindowSeconds(e, serviceDate, parseDate, tripTimes, early, 28800, 32400);
    ActiveWindowSeconds(e, serviceDate, parseDate, tripTimes, late, 28800, 32400);
  }

  /** The entities one poll keeps: an order-preserving selection of exactly the active ones. */
  function ActiveEntities(entities: seq<FeedEntity>, today: int, now: LocalTime,
                          parseDate: string -> Option<int>, tripTimes: map<string, TripTimes>)
    : (r: seq<FeedEntity>)
    ensures IsSubsequence(r, entities)
    ensures forall e | e in r :: e in entities && IsActive(e, ServiceDate(today, now), parseDate, tripTimes, now)
    ensures forall e | e in entities && IsActive(e, ServiceDate(today, now), parseDate, tripTimes, now) :: e in r
  {
    var serviceDate := ServiceDate(today, now);
    FilterIsSubsequence(entities, (e: FeedEntity) => IsActive(e, serviceDate, parseDate, tripTimes, now));
    Filter(entities, (e: FeedEntity) => IsActive(e, serviceDate, parseDate, tripTimes, now))
  }

  /** A poll keeps every copy of an active entity and no copy of any other. */
  lemma {:induction false} ActiveEntitiesCounts(entities: seq<FeedEntity>, today: int, now: LocalTime,
                                                parseDate: string -> Option<int>, tripTimes: map<string, TripTimes>)
    ensures forall e :: multiset(ActiveEntities(entities, today, now, parseDate, tripTimes))[e]
               == if IsActive(e, ServiceDate(today, now), parseDate, tripTimes, now) then multiset(entities)[e] else 0
  {
    var serviceDate := ServiceDate(today, now);
    FilterCounts(entities, (e: FeedEntity) => IsActive(e, serviceDate, parseDate, tripTimes, now));
  }

  // ---------------------------------------------------------------- stop schedule

  /** The `distinctBy` key "routeId-time-headsign": a string, so rows whose fields hold '-'
      can share a key without sharing the three fields. */
  function DedupKey(item: StopScheduleItem): string {
    item.routeId + "-" + item.time + "-" + item.headsign
  }

  /** Without '-' in route ids and times, equal keys mean equal route, time and headsign. */
  lemma {:induction false} DedupKeyInjective(a: StopScheduleItem, b: StopScheduleItem)
    requires '-' !in a.routeId && '-' !in a.time && '-' !in b.routeId && '-' !in b.time
    requires DedupKey(a) == DedupKey(b)
    ensures a.routeId == b.routeId && a.time == b.time && a.headsign == b.headsign
  {
    assert DedupKey(a) == a.routeId + ['-'] + (a.time + ['-'] + a.headsign);
    assert DedupKey(b) == b.routeId + ['-'] + (b.time + ['-'] + b.headsign);
    SplitAtFirst(a.routeId, '-', a.time + ['-'] + a.headsign, b.routeId, b.time + ['-'] + b.headsign);
    SplitAtFirst(a.time, '-', a.headsign, b.time, b.headsign);
  }

  /** Two rows that differ in route and time but share the key: the second one is dropped. */
  lemma {:induction false} DedupKeyCollision()
    ensures var a := StopScheduleItem("1-2", "3", "Nord", "S");
            var b := StopScheduleItem("1", "2-3", "Nord", "S");
            a != b && DistinctBy([a, b], DedupKey) == [a]
  {
    var a := StopScheduleItem("1-2", "3", "Nord", "S");
    var b := StopScheduleItem("1", "2-3", "Nord", "S");
    assert DedupKey(a) == DedupKey(b);
    assert [a, b][1..] == [b];
    assert [b][1..] == [];
  }

  /** `now` formatted with the pattern "HH:mm:ss". */
  function NowString(now: LocalTime): string {
    ClockString(now.hour, now.minute, now.second)
  }

  /** A time written with two-digit fields "HH:MM:SS". */
  function ClockString(h: nat, m: nat, s: nat): (r: string)
    requires h < 100 && m < 100 && s < 100
    ensures |r| == 8
  {
    TwoDigits(h) + ":" + TwoDigits(m) + ":" + TwoDigits(s)
  }

  /** A schedule time of the first four hours after midnight, written "00:" to "03:". */
  predicate IsEarlySchedule(time: string) {
    StartsWith(time, "00:") || StartsWith(time, "01:") || StartsWith(time, "02:") || StartsWith(time, "03:")
  }

  /** The time filter of `loadStopSchedule`. */
  predicate IsUpcoming(item: StopScheduleItem, now: LocalTime) {
    (now.hour >= 20 && IsEarlySchedule(item.time)) || !LexLess(item.time, NowString(now))
  }

  /** `fullScheduleCache`: the first row of each key, then the upcoming ones, in fetched order. */
  function UpcomingSchedule(schedule: seq<StopScheduleItem>, now: LocalTime): (r: seq<StopScheduleItem>)
    ensures IsSubsequence(r, schedule)
    ensures forall x | x in r :: x in schedule && IsUpcoming(x, now)
    ensures forall i, j | 0 <= i < j < |r| :: DedupKey(r[i]) != DedupKey(r[j])
  {
    var unique := DistinctBy(schedule, DedupKey);
    DistinctByFromIsSubsequence(schedule, DedupKey, {});
    DistinctByFromDistinctKeys(schedule, DedupKey, {});
    FilterIsSubsequence(unique, (x: StopScheduleItem) => IsUpcoming(x, now));
    SubsequenceTransitive(Filter(unique, (x: StopScheduleItem) => IsUpcoming(x, now)), unique, schedule);
    FilterKeepsDistinctKeys(unique, (x: StopScheduleItem) => IsUpcoming(x, now), DedupKey);
    Filter(unique, (x: StopScheduleItem) => IsUpcoming(x, now))
  }

  /** Two-digit clock strings compare as the times they denote. */
  lemma {:induction false} ClockStringOrder(h: nat, m: nat, s: nat, h': nat, m': nat, s': nat)
    requires h < 100 && m < 60 && s < 60 && h' < 100 && m' < 60 && s' < 60
    ensures LexLess(ClockString(h, m, s), ClockString(h', m', s'))
        <==> h * 3600 + m * 60 + s < h' * 3600 + m' * 60 + s'
  {
    var hh, mm, ss := TwoDigits(h), TwoDigits(m), TwoDigits(s);
    var hh', mm', ss' := TwoDigits(h'), TwoDigits(m'), TwoDigits(s');
    assert ClockString(h, m, s) == hh + (":" + mm + ":" + ss);
    assert ClockString(h', m', s') == hh' + (":" + mm' + ":" + ss');
    LexLessConcat(hh, ":" + mm + ":" + ss, hh', ":" + mm' + ":" + ss');
    assert ":" + mm + ":" + ss == ":" + (mm + (":" + ss));
    assert ":" + mm' + ":" + ss' == ":" + (mm' + (":" + ss'));
    LexLessConcat(":", mm + (":" + ss), ":", mm' + (":" + ss'));
    LexLessConcat(mm, ":" + ss, mm', ":" + ss');
    LexLessConcat(":", ss, ":", ss');
    LexLessTwoDigits(h, h');
    LexLessTwoDigits(m, m');
    LexLessTwoDigits(s, s');
    ParseTwoDigits(h);
    ParseTwoDigits(h');
    ParseTwoDigits(m);
    ParseTwoDigits(m');
  }

  /** A two-digit clock string starts with "0k:" exactly when its hour is k. */
  lemma {:induction false} ClockStringEarly(h: nat, m: nat, s: nat)
    requires h < 100 && m < 100 && s < 100
    ensures IsEarlySchedule(ClockString(h, m, s)) <==> h < 4
  {
    var t := ClockString(h, m, s);
    assert t[..3] == TwoDigits(h) + ":";
    ParseTwoDigits(h);
    assert TwoDigits(0) == "00" && TwoDigits(1) == "01" && TwoDigits(2) == "02" && TwoDigits(3) == "03";
    assert "00:" == TwoDigits(0) + ":" && "01:" == TwoDigits(1) + ":";
    assert "02:" == TwoDigits(2) + ":" && "03:" == TwoDigits(3) + ":";
    forall k: nat | k < 4 && StartsWith(t, TwoDigits(k) + ":") ensures h == k {
      assert TwoDigits(h) == (TwoDigits(h) + ":")[..2] == (TwoDigits(k) + ":")[..2] == TwoDigits(k);
      ParseTwoDigits(k);
    }
  }

  /** For schedule times written "HH:MM:SS", the time filter keeps a row exactly when it is
      not before `now`, or when it is in the first four hours of the next day and it is 20:00 or later. */
  lemma {:induction false} UpcomingClockTime(item: StopScheduleItem, now: LocalTime, h: nat, m: nat, s: nat)
    requires h < 100 && m < 60 && s < 60
    requires item.time == ClockString(h, m, s)
    ensures IsUpcoming(item, now)
        <==> (now.hour >= 20 && h < 4) || h * 3600 + m * 60 + s >= SecondOfDay(now)
  {
    ClockStringEarly(h, m, s);
    ClockStringOrder(h, m, s, now.hour, now.minute, now.second);
  }

  /** At 14:00:00 a row at 00:15:00 is not shown; at 21:00:00 it is. */
  lemma {:induction false} UpcomingExample(item: StopScheduleItem)
    requires item.time == "00:15:00"
    ensures !IsUpcoming(item, TimeOfDay(14, 0, 0))
    ensures IsUpcoming(item, TimeOfDay(21, 0, 0))
  {
    assert item.time == ClockString(0, 15, 0);
    UpcomingClockTime(item, TimeOfDay(14, 0, 0), 0, 15, 0);
    UpcomingClockTime(item, TimeOfDay(21, 0, 0), 0, 15, 0);
  }

  /** With no '-' in route ids and times, every upcoming fetched row is represented in the cache
      by a row with the same route, time and headsign. */
  lemma {:induction false} UpcomingScheduleComplete(schedule: seq<StopScheduleItem>, now: LocalTime, x: StopScheduleItem)
    requires forall y | y in schedule :: '-' !in y.routeId && '-' !in y.time
    requires x in schedule && IsUpcoming(x, now)
    ensures exists y :: (y in UpcomingSchedule(schedule, now)
      && y.routeId == x.routeId && y.time == x.time && y.headsign == x.headsign)
  {
    var unique := DistinctBy(schedule, DedupKey);
    DistinctByFromKeys(schedule, DedupKey, {});
    assert DedupKey(x) in KeysOf(schedule, DedupKey);
    assert DedupKey(x) in KeysOf(unique, DedupKey);
    var y :| y in unique && DedupKey(y) == DedupKey(x);
    DedupKeyInjective(x, y);
    assert IsUpcoming(y, now);
    assert y in UpcomingSchedule(schedule, now);
  }

  /** The cache keeps, of each key, the FIRST fetched row, and then only when it is upcoming:
      a later row with the same key (another service id, say) never replaces it. */
  lemma {:induction false} UpcomingKeepsFirst(schedule: seq<StopScheduleItem>, now: LocalTime, x: StopScheduleItem)
    ensures x in UpcomingSchedule(schedule, now)
        <==> IsUpcoming(x, now) && exists i :: 0 <= i < |schedule| && schedule[i] == x && FirstOfKey(schedule, i, DedupKey)
  {
    DistinctByFromFirst(schedule, DedupKey, {}, x);
    assert x in UpcomingSchedule(schedule, now) <==> x in DistinctBy(schedule, DedupKey) && IsUpcoming(x, now);
  }

  /** `map { it.headsign }`. */
  function Headsigns(schedule: seq<StopScheduleItem>): (r: seq<string>)
    ensures |r| == |schedule|
    ensures forall i | 0 <= i < |r| :: r[i] == schedule[i].headsign
  {
    Map(schedule, (x: StopScheduleItem) => x.headsign)
  }

  /** `availableDirections`: `map { it.headsign }.distinct().sorted()`. */
  function Directions(schedule: seq<StopScheduleItem>): seq<string> {
    SortWith(DistinctBy(Headsigns(schedule), (h: string) => h), LexLess)
  }

  /** The directions are the headsigns of the schedule, each once, in increasing order. */
  lemma {:induction false} DirectionsSortedDistinct(schedule: seq<StopScheduleItem>)
    ensures forall i, j | 0 <= i < j < |Directions(schedule)| :: LexLess(Directions(schedule)[i], Directions(schedule)[j])
    ensures forall d :: d in Directions(schedule) <==> exists x :: x in schedule && x.headsign == d
  {
    var hs := Headsigns(schedule);
    var id := (h: string) => h;
    var unique := DistinctBy(hs, id);
    var r := Directions(schedule);
    DistinctByFromKeys(hs, id, {});
    DistinctByFromDistinctKeys(hs, id, {});
    assert forall d :: d in unique <==> d in hs by {
      assert KeysOf(unique, id) == KeysOf(hs, id);
      forall d ensures d in unique <==> d in hs {
        assert d in unique <==> id(d) in KeysOf(unique, id);
        assert d in hs <==> id(d) in KeysOf(hs, id);
      }
    }
    assert Distinct(unique);
    assert multiset(r) == multiset(unique);
    DistinctPermutation(r, unique);
    forall d ensures d in r <==> d in unique {
      assert d in r <==> d in multiset(r);
    }
    forall d ensures d in hs <==> exists x :: x in schedule && x.headsign == d {
      if d in hs {
        var k :| 0 <= k < |hs| && hs[k] == d;
        assert schedule[k] in schedule;
      }
      if x :| x in schedule && x.headsign == d {
        var k :| 0 <= k < |schedule| && schedule[k] == x;
        assert hs[k] == d;
      }
    }
    assert StrictOrderOn(LexLess, unique) by {
      forall a ensures !LexLess(a, a) { LexLessIrreflexive(a); }
      forall a, b, c | LexLess(a, b) && LexLess(b, c) ensures LexLess(a, c) { LexLessTransitive(a, b, c); }
    }
    SortWithSorted(unique, LexLess);
    forall i, j | 0 <= i < j < |r| ensures LexLess(r[i], r[j]) {
      LexLessTotal(r[i], r[j]);
    }
  }

  /** The rows of the selected direction, or all rows when none is selected. */
  function RowsOfDirection(schedule: seq<StopScheduleItem>, direction: Option<string>): (r: seq<StopScheduleItem>)
    ensures IsSubsequence(r, schedule)
    ensures forall x | x in r :: x in schedule && (direction.Some? ==> x.headsign == direction.value)
    ensures forall x | x in schedule && (direction.Some? ==> x.headsign == direction.value) :: x in r
  {
    if direction.None? then
      assert IsSubsequence(schedule, schedule) by { FilterAll(schedule, (x: StopScheduleItem) => true); FilterIsSubsequence(schedule, (x: StopScheduleItem) => true); }
      schedule
    else
      FilterIsSubsequence(schedule, (x: StopScheduleItem) => x.headsign == direction.value);
      Filter(schedule, (x: StopScheduleItem) => x.headsign == direction.value)
  }
  /** The rows of a direction keep every copy of a row of that direction and none of the others. */
  lemma {:induction false} RowsOfDirectionCounts(schedule: seq<StopScheduleItem>, direction: Option<string>)
    ensures forall x :: multiset(RowsOfDirection(schedule, direction))[x]
               == if direction.None? || x.headsign == direction.value then multiset(schedule)[x] else 0
  {
    if direction.Some? {
      FilterCounts(schedule, (x: StopScheduleItem) => x.headsign == direction.value);
    }
  }


  const MaxPublishedRows: nat := 20

  /** `_stopSchedule`: at most 20 rows, the first ones of the selected direction in cache order. */
  function PublishedSchedule(cache: seq<StopScheduleItem>, direction: Option<string>): (r: seq<StopScheduleItem>)
    ensures |r| <= MaxPublishedRows && |r| <= |RowsOfDirection(cache, direction)|
    ensures r == RowsOfDirection(cache, direction)[..|r|]
    ensures |r| < MaxPublishedRows ==> r == RowsOfDirection(cache, direction)
  {
    Take(RowsOfDirection(cache, direction), MaxPublishedRows)
  }

  /** Every published row is of the selected direction, and that direction is one of the
      available directions. */
  lemma {:induction false} PublishedRowsOfDirection(cache: seq<StopScheduleItem>, direction: Option<string>, x: StopScheduleItem)
    requires x in PublishedSchedule(cache, direction)
    ensures x in cache
    ensures direction.Some? ==> x.headsign == direction.value && direction.value in Directions(cache)
  {
    var rows := RowsOfDirection(cache, direction);
    var r := PublishedSchedule(cache, direction);
    assert x in rows by {
      var k :| 0 <= k < |r| && r[k] == x;
      assert rows[k] == x;
    }
    DirectionsSortedDistinct(cache);
  }

  // ---------------------------------------------------------------- the view model

  class MainViewModel {
    const repository: StmRepository
    var routes: LinkedMap<string, BusRoute>
    var stops: LinkedMap<string, BusStop>
    var busPositions: Option<FeedMessage>
    var filterRouteIds: set<string>
    var stopSchedule: seq<StopScheduleItem>
    var availableDirections: seq<string>
    var relatedStops: seq<BusStop>
    var tripHeadsigns: map<string, string>
    var fullScheduleCache: seq<StopScheduleItem>
    var selectedDirection: Option<string>
    var tripTimes: map<string, TripTimes>
    var isPolling: bool

    /** The published schedule and directions agree with the cache and the selection. */
    ghost predicate Valid()
      reads this`stopSchedule, this`fullScheduleCache, this`selectedDirection, this`availableDirections
    {
      && stopSchedule == PublishedSchedule(fullScheduleCache, selectedDirection)
      && availableDirections == Directions(fullScheduleCache)
    }

    /** `init`: everything empty, then polling starts; the static data arrives through
        `LoadStaticData`. */
    constructor (repository: StmRepository)
      ensures Valid() && this.repository == repository
      ensures routes.keys == [] && stops.keys == [] && busPositions == None && filterRouteIds == {}
      ensures stopSchedule == [] && availableDirections == [] && relatedStops == [] && tripHeadsigns == map[]
      ensures fullScheduleCache == [] && selectedDirection == None && tripTimes == map[]
      ensures isPolling
    {
      this.repository := repository;
      routes := Empty();
      stops := Empty();
      busPositions := None;
      filterRouteIds := {};
      stopSchedule := [];
      availableDirections := [];
      relatedStops := [];
      tripHeadsigns := map[];
      fullScheduleCache := [];
      selectedDirection := None;
      tripTimes := map[];
      isPolling := false;
      new;
      var _ := StartBusPolling();
    }

    /** `loadStaticData`, its four loads run one after the other, each given the decoded file.
        It leaves the schedule state, and so `Valid()`, untouched. */
    method LoadStaticData(metadata: Option<LinkedMap<string, RouteMetadata>>,
                          parcours: Option<LinkedMap<string, RouteParcoursData>>,
                          rawStops: Option<LinkedMap<string, Stop>>,
                          rawTripTimes: Option<map<string, TripTimes>>,
                          rawHeadsigns: Option<map<string, string>>)
      modifies this`routes, this`stops, this`tripTimes, this`tripHeadsigns
      modifies repository`cachedRoutes, repository`cachedStops, repository`cachedTripTimes
      modifies repository`cachedTripHeadsigns
      ensures routes == if repository.cachedRoutes.Some? then repository.cachedRoutes.value else Empty()
      ensures stops == if repository.cachedStops.Some? then repository.cachedStops.value else Empty()
      ensures tripTimes == if repository.cachedTripTimes.Some? then repository.cachedTripTimes.value else map[]
      ensures tripHeadsigns == if repository.cachedTripHeadsigns.Some? then repository.cachedTripHeadsigns.value else map[]
      ensures old(repository.cachedRoutes).Some? ==> repository.cachedRoutes == old(repository.cachedRoutes)
      ensures old(repository.cachedRoutes).None? && (metadata.None? || parcours.None?) ==> repository.cachedRoutes == None
      ensures old(repository.cachedRoutes).None? && metadata.Some? && parcours.Some? ==>
        repository.cachedRoutes.Some? && IsMergeOf(repository.cachedRoutes.value, metadata.value, parcours.value)
      ensures old(repository.cachedStops).Some? ==> repository.cachedStops == old(repository.cachedStops)
      ensures old(repository.cachedStops).None? ==>
        repository.cachedStops == if rawStops.Some? then Some(ToBusStops(rawStops.value)) else None
      ensures old(repository.cachedTripTimes).Some? ==> repository.cachedTripTimes == old(repository.cachedTripTimes)
      ensures old(repository.cachedTripTimes).None? ==> repository.cachedTripTimes == rawTripTimes
      ensures old(repository.cachedTripHeadsigns).Some? ==>
        repository.cachedTripHeadsigns == old(repository.cachedTripHeadsigns)
      ensures old(repository.cachedTripHeadsigns).None? ==> repository.cachedTripHeadsigns == rawHeadsigns
    {
      routes := repository.GetRoutes(metadata, parcours);
      ghost var routesCache := repository.cachedRoutes;
      stops := repository.GetStops(rawStops);
      ghost var stopsCache := repository.cachedStops;
      tripTimes := repository.GetTripTimes(rawTripTimes);
      ghost var tripTimesCache := repository.cachedTripTimes;
      tripHeadsigns := repository.GetTripHeadsigns(rawHeadsigns);
      assert repository.cachedRoutes == routesCache;
      assert repository.cachedStops == stopsCache;
      assert repository.cachedTripTimes == tripTimesCache;
    }

    /** `startBusPolling`: does nothing when polling already runs. */
    method StartBusPolling() returns (started: bool)
      modifies this`isPolling
      ensures isPolling
      ensures started == !old(isPolling)
    {
      if isPolling {
        return false;
      }
      isPolling := true;
      started := true;
    }

    /** One poll: a fetched feed is published with its active entities only; a failed fetch
        leaves the published feed as it was. */
    method PollCycle(feed: Option<FeedMessage>, today: int, now: LocalTime, parseDate: string -> Option<int>)
      modifies this`busPositions
      ensures feed.None? ==> busPositions == old(busPositions)
      ensures feed.Some? ==> busPositions == Some(FeedMessage(feed.value.header,
        ActiveEntities(feed.value.entity, today, now, parseDate, tripTimes)))
    {
      if feed.Some? {
        var filtered := ActiveEntities(feed.value.entity, today, now, parseDate, tripTimes);
        busPositions := Some(feed.value.(entity := filtered));
      }
    }

    method UpdateFilter(routeIds: set<string>)
      modifies this`filterRouteIds
      ensures filterRouteIds == routeIds
    {
      filterRouteIds := routeIds;
    }

    /** `loadStopSchedule`: resets the selection and the published lists, resolves the sibling
        stops (sorted by id) and recomputes the cache, the directions and the published rows.
        `schedule` is what `getStopSchedule` returned (empty on failure). */
    method LoadStopSchedule(stopId: string, stopsDecoded: Option<LinkedMap<string, Stop>>,
                            schedule: seq<StopScheduleItem>, now: LocalTime)
      modifies this`stopSchedule, this`availableDirections, this`relatedStops, this`selectedDirection
      modifies this`fullScheduleCache, repository`cachedStops
      ensures Valid()
      ensures selectedDirection == None
      ensures fullScheduleCache == UpcomingSchedule(schedule, now)
      ensures availableDirections == Directions(fullScheduleCache)
      ensures stopSchedule == Take(fullScheduleCache, MaxPublishedRows)
      ensures Get(stops, stopId).None? ==> relatedStops == []
      ensures Get(stops, stopId).Some? ==> relatedStops == SiblingsOf(Get(stops, stopId).value.name)
      ensures old(repository.cachedStops).Some? ==> repository.cachedStops == old(repository.cachedStops)
      ensures Get(stops, stopId).None? ==> repository.cachedStops == old(repository.cachedStops)
      ensures old(repository.cachedStops).None? && Get(stops, stopId).Some? ==>
        repository.cachedStops == if stopsDecoded.Some? then Some(ToBusStops(stopsDecoded.value)) else None
    {
      stopSchedule := [];
      availableDirections := [];
      relatedStops := [];
      selectedDirection := None;
      LoadRelatedStops(stopId, stopsDecoded);
      fullScheduleCache := UpcomingSchedule(schedule, now);
      availableDirections := Directions(fullScheduleCache);
      ApplyScheduleFilter();
    }

    /** The stops sharing `name` (or its swapped form) in the repository's stop cache, by id. */
    ghost function SiblingsOf(name: string): (r: seq<BusStop>)
      reads repository`cachedStops
      ensures repository.cachedStops.None? ==> r == []
      ensures repository.cachedStops.Some? ==>
        multiset(r) == multiset(RelatedStops(Values(repository.cachedStops.value), name))
    {
      if repository.cachedStops.Some?
      then SortWith(RelatedStops(Values(repository.cachedStops.value), name), IdLess)
      else []
    }

    /** The sibling-stop step of `loadStopSchedule`: only when `stopId` is a known stop. */
    method LoadRelatedStops(stopId: string, stopsDecoded: Option<LinkedMap<string, Stop>>)
      modifies this`relatedStops, repository`cachedStops
      ensures Get(stops, stopId).None? ==> relatedStops == old(relatedStops)
      ensures Get(stops, stopId).Some? ==> relatedStops == SiblingsOf(Get(stops, stopId).value.name)
      ensures old(repository.cachedStops).Some? ==> repository.cachedStops == old(repository.cachedStops)
      ensures Get(stops, stopId).None? ==> repository.cachedStops == old(repository.cachedStops)
      ensures old(repository.cachedStops).None? && Get(stops, stopId).Some? ==>
        repository.cachedStops == if stopsDecoded.Some? then Some(ToBusStops(stopsDecoded.value)) else None
    {
      var currentStop := Get(stops, stopId);
      if currentStop.Some? {
        var siblings := repository.GetRelatedStops(currentStop.value.name, stopsDecoded);
        relatedStops := SortWith(siblings, IdLess);
      }
    }

    /** `filterScheduleByDirection`: a new selection (or none) and the rows it publishes. */
    method FilterScheduleByDirection(direction: Option<string>)
      requires Valid()
      modifies this`selectedDirection, this`stopSchedule
      ensures Valid()
      ensures selectedDirection == direction
      ensures stopSchedule == PublishedSchedule(fullScheduleCache, direction)
    {
      selectedDirection := direction;
      ApplyScheduleFilter();
    }

    /** `applyScheduleFilter`: republishes the rows of the selection. */
    method ApplyScheduleFilter()
      requires availableDirections == Directions(fullScheduleCache)
      modifies this`stopSchedule
      ensures Valid()
      ensures stopSchedule == PublishedSchedule(fullScheduleCache, selectedDirection)
    {
      var rows := RowsOfDirection(fullScheduleCache, selectedDirection);
      stopSchedule := Take(rows, MaxPublishedRows);
    }
  }

  /** `sortedBy { it.id }` as a comparison. */
  predicate IdLess(a: BusStop, b: BusStop) {
    LexLess(a.id, b.id)
  }

  /** Sorting stops by id leaves them in non-decreasing id order, and stops of equal id
      in their former order. */
  lemma {:induction false} SortedById(stops: seq<BusStop>, id: string)
    ensures forall i, j | 0 <= i < j < |SortWith(stops, IdLess)| ::
      !LexLess(SortWith(stops, IdLess)[j].id, SortWith(stops, IdLess)[i].id)
    ensures Filter(SortWith(stops, IdLess), (s: BusStop) => s.id == id)
         == Filter(stops, (s: BusStop) => s.id == id)
  {
    assert StrictOrderOn(IdLess, stops) by {
      forall a ensures !IdLess(a, a) { LexLessIrreflexive(a.id); }
      forall a, b, c | IdLess(a, b) && IdLess(b, c) ensures IdLess(a, c) {
        LexLessTransitive(a.id, b.id, c.id);
      }
    }
    SortWithSorted(stops, IdLess);
    assert UniformClass(IdLess, (s: BusStop) => s.id == id, stops) by {
      LexLessIrreflexive(id);
    }
    SortWithStable(stops, IdLess, (s: BusStop) => s.id == id);
  }
}
