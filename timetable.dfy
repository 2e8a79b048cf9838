/**
 * The timetable records shared by the reader, the station registry and the graph
 * builder, and the calendar that decides on which dates a journey runs.
 *
 * Dates (`NaiveDateTime`) are whole seconds on a single time line; times of day
 * (`NaiveTime`) are seconds since midnight. Bit sets of day offsets are sets of
 * naturals.
 */
module Timetable {
  import opened Options

  const SecondsPerDay: int := 86400

  /** `StopPlaceType`: the kind of a NeTEx stop place. */
  datatype StopPlaceType = RailStation | Other | Unknown

  /** `StopPlaceType::from_str`: the NeTEx attribute value to the kind. */
  function StopPlaceTypeFromStr(s: string): (t: StopPlaceType)
    ensures t == RailStation <==> s == "railStation"
    ensures t == Other <==> s == "other"
    ensures t == Unknown <==> s != "railStation" && s != "other"
  {
    if s == "railStation" then RailStation
    else if s == "other" then Other
    else Unknown
  }

  /** `Display for StopPlaceType`: the name written for each kind. */
  function StopPlaceTypeToString(t: StopPlaceType): (s: string)
    ensures t == RailStation ==> s == "RailStation"
    ensures t == Other ==> s == "Other"
    ensures t == Unknown ==> s == "Unknown"
  {
    match t
    case RailStation => "RailStation"
    case Other => "Other"
    case Unknown => "Unknown"
  }

  /** Displayed names tell the kinds apart, but they are not the attribute values
      `from_str` accepts: reading a displayed kind back always gives `Unknown`. */
  lemma DisplayedKindsReadBackAsUnknown(t: StopPlaceType)
    ensures forall u :: StopPlaceTypeToString(t) == StopPlaceTypeToString(u) ==> t == u
    ensures StopPlaceTypeFromStr(StopPlaceTypeToString(t)) == Unknown
  {
    assert "RailStation"[0] != "railStation"[0];
    assert "Other"[0] != "other"[0];
  }

  /** `UicOperatingPeriod`: a date range and the set of day offsets on which it runs. */
  datatype OperatingPeriod = OperatingPeriod(fromDate: int, toDate: int, dayBits: set<nat>)

  /** One stop of a journey: a stop index and optional arrival and departure times. */
  datatype Passing = Passing(stopPoint: nat, arrival: Option<int>, departure: Option<int>)

  /** A journey: its passings, its validity window and the indices of its day types. */
  datatype Journey = Journey(passings: seq<Passing>, validFrom: int, validTo: int, days: seq<nat>)

  /** What one timetable file holds once its references are resolved to indices. */
  datatype Connection = Connection(
    operatingPeriods: seq<OperatingPeriod>,
    dayTypes: seq<Option<nat>>,
    stops: seq<string>,
    journeys: seq<Journey>)

  /** A file's calendar and journeys once its stops are renumbered in the merged registry. */
  datatype SubConnection = SubConnection(
    operatingPeriods: seq<OperatingPeriod>,
    dayTypes: seq<Option<nat>>,
    journeys: seq<Journey>)

  /** Every timetable file merged over one shared list of stop names. */
  datatype MultiConnection = MultiConnection(stops: seq<string>, connections: seq<SubConnection>)

  // ---------------------------------------------------------------------------
  // Operating periods

  /** `date` lies in the `k`-th whole day that starts at `from`. */
  predicate OnDay(from: int, k: nat, date: int)
  {
    from + k * SecondsPerDay <= date < from + (k + 1) * SecondsPerDay
  }

  /** Whole days from `from` to `date`, as `num_days` of a non-negative duration. */
  function DaysSince(from: int, date: int): (k: nat)
    requires from <= date
    ensures OnDay(from, k, date)
  {
    (date - from) / SecondsPerDay
  }

  lemma OnDayUnique(from: int, k: nat, date: int)
    requires OnDay(from, k, date)
    ensures from <= date && k == DaysSince(from, date)
  {
    var q := DaysSince(from, date);
    assert OnDay(from, q, date);
  }

  /** `OperatingPeriod::is_valid`: the date is inside the period and the bit of
      the day it falls on is set. */
  function PeriodIsValid(p: OperatingPeriod, date: int): (r: bool)
    ensures r <==> p.fromDate <= date <= p.toDate
                   && exists k: nat :: k in p.dayBits && OnDay(p.fromDate, k, date)
  {
    if p.fromDate > date || date > p.toDate then false
    else
      var k := DaysSince(p.fromDate, date);
      assert forall j: nat :: OnDay(p.fromDate, j, date) ==> j == k by {
        forall j: nat | OnDay(p.fromDate, j, date) ensures j == k {
          OnDayUnique(p.fromDate, j, date);
        }
      }
      k in p.dayBits
  }

  /** Bits past the last day of the range are never consulted. */
  lemma {:induction false} BitsBeyondRangeIgnored(p: OperatingPeriod, date: int)
    requires p.fromDate <= p.toDate
    ensures PeriodIsValid(p, date)
            == PeriodIsValid(p.(dayBits := set k | k in p.dayBits && k <= DaysSince(p.fromDate, p.toDate)), date)
  {
    if p.fromDate <= date <= p.toDate {
      var k := DaysSince(p.fromDate, date);
      var l := DaysSince(p.fromDate, p.toDate);
      assert k <= l by {
        assert p.fromDate + k * SecondsPerDay <= date <= p.toDate < p.fromDate + (l + 1) * SecondsPerDay;
      }
    }
  }

  // ---------------------------------------------------------------------------
  // Journeys

  /** Every day index of every journey names a day type, and every day type's
      period index names a period: `is_valid` then never indexes out of range. */
  predicate CalendarIndexed(periods: seq<OperatingPeriod>, dayTypes: seq<Option<nat>>, journeys: seq<Journey>)
  {
    && (forall d :: 0 <= d < |dayTypes| && dayTypes[d].Some? ==> dayTypes[d].value < |periods|)
    && (forall j, i :: 0 <= j < |journeys| && 0 <= i < |journeys[j].days| ==> journeys[j].days[i] < |dayTypes|)
  }

  predicate DaysIndexed(periods: seq<OperatingPeriod>, dayTypes: seq<Option<nat>>, days: seq<nat>)
  {
    && (forall d :: 0 <= d < |dayTypes| && dayTypes[d].Some? ==> dayTypes[d].value < |periods|)
    && (forall i :: 0 <= i < |days| ==> days[i] < |dayTypes|)
  }

  /** A day type runs on `date`: it has a period and that period is valid. */
  predicate DayTypeRuns(periods: seq<OperatingPeriod>, dayTypes: seq<Option<nat>>, d: nat, date: int)
    requires d < |dayTypes|
    requires dayTypes[d].Some? ==> dayTypes[d].value < |periods|
  {
    dayTypes[d].Some? && PeriodIsValid(periods[dayTypes[d].value], date)
  }

  /** Some listed day type runs on `date`. */
  predicate SomeDayRuns(periods: seq<OperatingPeriod>, dayTypes: seq<Option<nat>>, days: seq<nat>, date: int)
    requires DaysIndexed(periods, dayTypes, days)
  {
    exists i :: 0 <= i < |days| && DayTypeRuns(periods, dayTypes, days[i], date)
  }

  /** The journey runs on `date`: the date is inside its validity window and one
      of its day types runs on it. */
  predicate RunsOn(periods: seq<OperatingPeriod>, dayTypes: seq<Option<nat>>, j: Journey, date: int)
    requires DaysIndexed(periods, dayTypes, j.days)
  {
    j.validFrom <= date <= j.validTo && SomeDayRuns(periods, dayTypes, j.days, date)
  }

  /** `Journey::is_valid`: the window test, then the day types in order with an
      early return on the first one that runs. */
  method JourneyIsValid(periods: seq<OperatingPeriod>, dayTypes: seq<Option<nat>>, j: Journey, date: int)
    returns (valid: bool)
    requires DaysIndexed(periods, dayTypes, j.days)
    ensures valid == RunsOn(periods, dayTypes, j, date)
  {
    if j.validFrom > date || date > j.validTo {
      return false;
    }
    var i := 0;
    while i < |j.days|
      invariant 0 <= i <= |j.days|
      invariant forall k :: 0 <= k < i ==> !DayTypeRuns(periods, dayTypes, j.days[k], date)
    {
      var d := j.days[i];
      match dayTypes[d] {
        case Some(periodIndex) =>
          if PeriodIsValid(periods[periodIndex], date) {
            return true;
          }
        case None =>
      }
      i := i + 1;
    }
    return false;
  }

  /** The day types combine by OR: the days of a journey split anywhere run
      exactly when one of the two parts does. */
  lemma {:induction false} SomeDayRunsSplit(
    periods: seq<OperatingPeriod>, dayTypes: seq<Option<nat>>, a: seq<nat>, b: seq<nat>, date: int)
    requires DaysIndexed(periods, dayTypes, a) && DaysIndexed(periods, dayTypes, b)
    ensures DaysIndexed(periods, dayTypes, a + b)
    ensures SomeDayRuns(periods, dayTypes, a + b, date)
            <==> SomeDayRuns(periods, dayTypes, a, date) || SomeDayRuns(periods, dayTypes, b, date)
  {
    var ab := a + b;
    if SomeDayRuns(periods, dayTypes, ab, date) {
      var i :| 0 <= i < |ab| && DayTypeRuns(periods, dayTypes, ab[i], date);
      if i < |a| {
        assert ab[i] == a[i];
      } else {
        assert ab[i] == b[i - |a|];
      }
    }
    if SomeDayRuns(periods, dayTypes, a, date) {
      var i :| 0 <= i < |a| && DayTypeRuns(periods, dayTypes, a[i], date);
      assert ab[i] == a[i];
    }
    if SomeDayRuns(periods, dayTypes, b, date) {
      var i :| 0 <= i < |b| && DayTypeRuns(periods, dayTypes, b[i], date);
      assert ab[|a| + i] == b[i];
    }
  }

  /** A journey whose day types have no period, or that has no day types at all,
      never runs. */
  lemma NoPeriodNeverRuns(periods: seq<OperatingPeriod>, dayTypes: seq<Option<nat>>, j: Journey, date: int)
    requires DaysIndexed(periods, dayTypes, j.days)
    requires forall i :: 0 <= i < |j.days| ==> dayTypes[j.days[i]] == None
    ensures !RunsOn(periods, dayTypes, j, date)
  {
  }

  /** The example of a period from 2024-01-01 to 2024-01-03 with bits 0 and 2:
      it runs on the first and the third day, not on the second, and not on the
      day after the range. */
  lemma PeriodExample()
    ensures var jan1 := 1704067200;
            var p := OperatingPeriod(jan1, jan1 + 2 * SecondsPerDay, {0, 2});
            && PeriodIsValid(p, jan1)
            && !PeriodIsValid(p, jan1 + SecondsPerDay)
            && PeriodIsValid(p, jan1 + 2 * SecondsPerDay)
            && !PeriodIsValid(p, jan1 + 3 * SecondsPerDay)
  {
    var jan1 := 1704067200;
    assert DaysSince(jan1, jan1 + 2 * SecondsPerDay) == 2;
  }
}
