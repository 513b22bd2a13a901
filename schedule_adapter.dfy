/** `ScheduleAdapter`: how a schedule row's time is displayed, and the identity rules the
    list differ uses to match old and new rows. */
module ScheduleAdapter {
  import opened Wrappers
  import opened Strings
  import opened Models

  /** `formatGtfsTime`: "H:mm:ss" or "HH:mm:ss" shown as "HH:mm". The hour field is read as an
      `Int` (0 when it is not one), lowered by 24 once when it is 24 or more and padded with a
      '0' below 10; the minutes are copied as they are and anything after them is dropped.
      A time without a ':' is shown unchanged. */
  function FormatGtfsTime(gtfsTime: string): (r: string)
    ensures |Split(gtfsTime, ":")| < 2 ==> r == gtfsTime
  {
    var parts := Split(gtfsTime, ":");
    if |parts| >= 2 then
      var parsed := ParseInt(parts[0]).GetOr(0);
      var hours := if parsed >= 24 then parsed - 24 else parsed;
      var hoursText := if hours < 10 then "0" + IntToString(hours) else IntToString(hours);
      hoursText + ":" + parts[1]
    else gtfsTime
  }

  /** A time with no ':' at all is shown as it is. */
  lemma {:induction false} FormatWithoutColon(gtfsTime: string)
    requires ':' !in gtfsTime
    ensures FormatGtfsTime(gtfsTime) == gtfsTime
  {
    SplitMissingChar(gtfsTime, ":", ':');
  }

  /** The first two fields of "hh:mm", "hh:mm:…" when neither holds a ':'. */
  lemma {:induction false} FirstTwoFields(hh: string, mm: string, rest: string)
    requires ':' !in hh && ':' !in mm
    requires rest == [] || rest[0] == ':'
    ensures |Split(hh + ":" + mm + rest, ":")| >= 2
    ensures Split(hh + ":" + mm + rest, ":")[0] == hh && Split(hh + ":" + mm + rest, ":")[1] == mm
  {
    assert hh + ":" + mm + rest == hh + [':'] + (mm + rest);
    SplitCharConcat(hh, ':', mm + rest);
    if rest == [] {
      assert mm + rest == mm;
      SplitMissingChar(mm, ":", ':');
    } else {
      assert mm + rest == mm + [':'] + rest[1..];
      SplitCharConcat(mm, ':', rest[1..]);
    }
  }

  /** A digit hour field of value `v` below 124 shows as the two digits of `v`, or of `v - 24`
      when `v` is 24 or more: "8:05:00" shows "08:05", "25:30:00" shows "01:30" and
      "49:00:00" shows "25:00" (24 is taken off only once). */
  lemma {:induction false} FormatDigitHour(hh: string, mm: string, rest: string)
    requires |hh| >= 1 && AllDigits(hh) && DigitsValue(hh) < 124
    requires ':' !in mm
    requires rest == [] || rest[0] == ':'
    ensures var v := DigitsValue(hh);
      FormatGtfsTime(hh + ":" + mm + rest) == TwoDigits(if v >= 24 then v - 24 else v) + ":" + mm
  {
    DigitsHaveNo(hh, ':');
    FirstTwoFields(hh, mm, rest);
    ParseDigitString(hh);
    var v := DigitsValue(hh);
    TwoDigitsPadded(if v >= 24 then v - 24 else v);
  }

  /** An hour field that is not an `Int` counts as hour 0. */
  lemma {:induction false} FormatNonNumericHour(hh: string, mm: string, rest: string)
    requires ParseInt(hh).None?
    requires ':' !in hh && ':' !in mm
    requires rest == [] || rest[0] == ':'
    ensures FormatGtfsTime(hh + ":" + mm + rest) == "00:" + mm
  {
    FirstTwoFields(hh, mm, rest);
    TwoDigitsPadded(0);
    assert TwoDigits(0) + ":" + mm == "00:" + mm;
  }

  // ---------------------------------------------------------------- list diff identity

  /** `areItemsTheSame`: the same departure, by route and time. */
  predicate AreItemsTheSame(oldItem: StopScheduleItem, newItem: StopScheduleItem) {
    oldItem.routeId == newItem.routeId && oldItem.time == newItem.time
  }

  /** `areContentsTheSame`: the data class equality, every field. */
  predicate AreContentsTheSame(oldItem: StopScheduleItem, newItem: StopScheduleItem) {
    oldItem == newItem
  }

  /** Rows with the same contents are the same item, as the differ requires. */
  lemma {:induction false} ContentsSameIsItemsSame(oldItem: StopScheduleItem, newItem: StopScheduleItem)
    requires AreContentsTheSame(oldItem, newItem)
    ensures AreItemsTheSame(oldItem, newItem)
  {
  }

  /** Changing the headsign or the service id keeps the item but changes its contents. */
  lemma {:induction false} HeadsignAndServiceIgnored(item: StopScheduleItem, headsign: string, serviceId: string)
    requires headsign != item.headsign || serviceId != item.serviceId
    ensures AreItemsTheSame(item, item.(headsign := headsign, serviceId := serviceId))
    ensures !AreContentsTheSame(item, item.(headsign := headsign, serviceId := serviceId))
  {
  }

  /** Item identity is an equivalence: reflexive, symmetric and transitive. */
  lemma {:induction false} ItemsTheSameEquivalence(a: StopScheduleItem, b: StopScheduleItem, c: StopScheduleItem)
    ensures AreItemsTheSame(a, a)
    ensures AreItemsTheSame(a, b) ==> AreItemsTheSame(b, a)
    ensures AreItemsTheSame(a, b) && AreItemsTheSame(b, c) ==> AreItemsTheSame(a, c)
  {
  }
}
