/** Release calendars and expected observations: `app/application/quality/expectations.py`. */
module ReleaseCalendar {
  import opened Common

  datatype BusinessCalendar = BusinessCalendar(
    code: string, weekendDays: set<int>, holidays: set<int>, effectiveFrom: int, effectiveTo: Option<int>)
  {
    predicate Covers(d: int) {
      effectiveFrom <= d && (effectiveTo.None? || d <= effectiveTo.value)
    }

    predicate IsBusinessDay(d: int) {
      Covers(d) && Weekday(d) !in weekendDays && d !in holidays
    }
  }

  datatype Cadence = DailyBusiness | Weekly

  // Times of day and durations are in microseconds.
  datatype Policy = Policy(
    instrumentType: string, frequency: string, calendarId: string, publicationTime: nat, cadence: Cadence,
    releaseWeekdays: set<int>, gracePeriod: nat, staleAfter: nat, effectiveFrom: int, effectiveTo: Option<int>)
  {
    predicate AppliesOn(d: int) {
      effectiveFrom <= d && (effectiveTo.None? || d <= effectiveTo.value)
    }
  }

  // Monday is 0; day 0, 1970-01-01, was a Thursday.
  function Weekday(d: int): int {
    (d + 3) % 7
  }

  datatype CalendarError = StartAfterEnd | UnsupportedFrequency | WrongCalendar | NoReleaseWeekday | NoReleaseDate

  // A time zone: wall-clock microseconds to UTC instants, and UTC instants to local dates.
  datatype Zone = Zone(toUtc: int -> int, localDate: int -> int)

  // Wall times a whole day apart keep their order, and a wall date is reached only once it is the
  // local date or past.
  ghost predicate Regular(zone: Zone) {
    && (forall v, w :: v + MICROS_PER_DAY <= w ==> zone.toUtc(v) < zone.toUtc(w))
    && (forall w, t :: zone.toUtc(w) <= t ==> w / MICROS_PER_DAY <= zone.localDate(t))
  }

  // --------------------------------------------------------------------------------------------
  // Release dates
  // --------------------------------------------------------------------------------------------

  const SEARCH_DAYS: nat := 14

  predicate IsReleaseDay(d: int, policy: Policy, calendar: BusinessCalendar) {
    Weekday(d) in policy.releaseWeekdays && calendar.IsBusinessDay(d)
  }

  // The first release day among `days` days from `from`.
  function FirstRelease(from: int, days: nat, policy: Policy, calendar: BusinessCalendar): Option<int>
    decreases days
  {
    if days == 0 then None
    else if IsReleaseDay(from, policy, calendar) then Some(from)
    else FirstRelease(from + 1, days - 1, policy, calendar)
  }

  function ReleaseDate(d: int, policy: Policy, calendar: BusinessCalendar): Result<int, CalendarError> {
    if policy.cadence.DailyBusiness? then Ok(d)
    else if policy.releaseWeekdays == {} then Err(NoReleaseWeekday)
    else
      match FirstRelease(d, SEARCH_DAYS, policy, calendar)
      case Some(r) => Ok(r)
      case None => Err(NoReleaseDate)
  }

  method FindReleaseDate(d: int, policy: Policy, calendar: BusinessCalendar) returns (r: Result<int, CalendarError>)
    ensures r == ReleaseDate(d, policy, calendar)
  {
    if policy.cadence.DailyBusiness? {
      return Ok(d);
    }
    if policy.releaseWeekdays == {} {
      return Err(NoReleaseWeekday);
    }
    var candidate := d;
    for tried := 0 to SEARCH_DAYS
      invariant candidate == d + tried
      invariant FirstRelease(d, SEARCH_DAYS, policy, calendar) ==
                FirstRelease(candidate, SEARCH_DAYS - tried, policy, calendar)
    {
      if Weekday(candidate) in policy.releaseWeekdays && calendar.IsBusinessDay(candidate) {
        return Ok(candidate);
      }
      candidate := candidate + 1;
    }
    r := Err(NoReleaseDate);
  }

  lemma {:induction false} FirstReleaseIsLeast(from: int, days: nat, policy: Policy, calendar: BusinessCalendar)
    ensures match FirstRelease(from, days, policy, calendar)
            case Some(r) =>
              && from <= r < from + days
              && IsReleaseDay(r, policy, calendar)
              && forall e :: from <= e < r ==> !IsReleaseDay(e, policy, calendar)
            case None => forall e :: from <= e < from + days ==> !IsReleaseDay(e, policy, calendar)
    decreases days
  {
    if days > 0 && !IsReleaseDay(from, policy, calendar) {
      FirstReleaseIsLeast(from + 1, days - 1, policy, calendar);
    }
  }

  // A weekly release date is the least business release day within two weeks, and is missing
  // exactly when there is none.
  lemma WeeklyReleaseIsLeast(d: int, policy: Policy, calendar: BusinessCalendar)
    requires policy.cadence.Weekly?
    ensures match ReleaseDate(d, policy, calendar)
            case Ok(r) =>
              && d <= r <= d + 13
              && IsReleaseDay(r, policy, calendar)
              && forall e :: d <= e < r ==> !IsReleaseDay(e, policy, calendar)
            case Err(_) => forall e :: d <= e <= d + 13 ==> !IsReleaseDay(e, policy, calendar)
  {
    FirstReleaseIsLeast(d, SEARCH_DAYS, policy, calendar);
  }

  // Later observation dates are never released earlier, and a release day releases itself.
  lemma ReleaseIsMonotone(d: int, e: int, policy: Policy, calendar: BusinessCalendar)
    requires d <= e && ReleaseDate(d, policy, calendar).Ok? && ReleaseDate(e, policy, calendar).Ok?
    ensures ReleaseDate(d, policy, calendar).value <= ReleaseDate(e, policy, calendar).value
    ensures IsReleaseDay(e, policy, calendar) ==> ReleaseDate(e, policy, calendar).value == e
  {
    if policy.cadence.Weekly? {
      WeeklyReleaseIsLeast(d, policy, calendar);
      WeeklyReleaseIsLeast(e, policy, calendar);
    }
  }

  lemma ReleaseNotBefore(d: int, policy: Policy, calendar: BusinessCalendar)
    requires ReleaseDate(d, policy, calendar).Ok?
    ensures d <= ReleaseDate(d, policy, calendar).value
  {
    if policy.cadence.Weekly? {
      WeeklyReleaseIsLeast(d, policy, calendar);
    }
  }

  // --------------------------------------------------------------------------------------------
  // Expected observations
  // --------------------------------------------------------------------------------------------

  datatype Expected = Expected(date: int, dueAt: int)

  // Publication and grace are added on the wall clock, then the sum is read as an instant.
  function DueAt(release: int, policy: Policy, zone: Zone): int {
    zone.toUtc(release * MICROS_PER_DAY + policy.publicationTime + policy.gracePeriod)
  }

  predicate Applicable(d: int, policy: Policy, calendar: BusinessCalendar) {
    policy.AppliesOn(d) && calendar.IsBusinessDay(d)
  }

  // The expectations from `from` to `end`; the first applicable date without a release fails the call.
  function ExpectedFrom(from: int, end: int, policy: Policy, calendar: BusinessCalendar, zone: Zone)
    : Result<seq<Expected>, CalendarError>
    decreases end - from + 1
  {
    if from > end then Ok([])
    else if !Applicable(from, policy, calendar) then ExpectedFrom(from + 1, end, policy, calendar, zone)
    else
      var release := ReleaseDate(from, policy, calendar);
      if release.Err? then Err(release.error)
      else
        var rest := ExpectedFrom(from + 1, end, policy, calendar, zone);
        if rest.Err? then rest else Ok([Expected(from, DueAt(release.value, policy, zone))] + rest.value)
  }

  function Expectations(policy: Policy, calendar: BusinessCalendar, zone: Zone, start: int, end: int)
    : Result<seq<Expected>, CalendarError>
  {
    if start > end then Err(StartAfterEnd)
    else if policy.frequency != "daily" then Err(UnsupportedFrequency)
    else if policy.calendarId != calendar.code then Err(WrongCalendar)
    else ExpectedFrom(start, end, policy, calendar, zone)
  }

  // `prefix` already collected, then whatever the rest yields.
  function Prepended(prefix: seq<Expected>, rest: Result<seq<Expected>, CalendarError>)
    : Result<seq<Expected>, CalendarError>
  {
    if rest.Err? then rest else Ok(prefix + rest.value)
  }

  method GenerateExpectations(policy: Policy, calendar: BusinessCalendar, zone: Zone, start: int, end: int)
    returns (r: Result<seq<Expected>, CalendarError>)
    ensures r == Expectations(policy, calendar, zone, start, end)
  {
    if start > end {
      return Err(StartAfterEnd);
    }
    if policy.frequency != "daily" {
      return Err(UnsupportedFrequency);
    }
    if policy.calendarId != calendar.code {
      return Err(WrongCalendar);
    }
    var result: seq<Expected> := [];
    var current := start;
    ghost var all := ExpectedFrom(start, end, policy, calendar, zone);
    assert all.Ok? ==> [] + all.value == all.value;
    while current <= end
      invariant start <= current <= end + 1
      invariant all ==
                Prepended(result, ExpectedFrom(current, end, policy, calendar, zone))
    {
      if policy.AppliesOn(current) && calendar.IsBusinessDay(current) {
        var release := FindReleaseDate(current, policy, calendar);
        if release.Err? {
          return Err(release.error);
        }
        ghost var rest := ExpectedFrom(current + 1, end, policy, calendar, zone);
        var item := Expected(current, DueAt(release.value, policy, zone));
        assert rest.Ok? ==> result + ([item] + rest.value) == (result + [item]) + rest.value;
        result := result + [item];
      }
      current := current + 1;
    }
    assert result + [] == result;
    r := Ok(result);
  }

  // What a successful call lists: exactly the applicable dates of the range, in order, each due
  // when its release has been published and the grace period has passed.
  ghost predicate IsSchedule(items: seq<Expected>, policy: Policy, calendar: BusinessCalendar, zone: Zone,
                             start: int, end: int)
  {
    && (forall i, j :: 0 <= i < j < |items| ==> items[i].date < items[j].date)
    && (forall i :: 0 <= i < |items| ==>
          var d := items[i].date;
          && start <= d <= end && Applicable(d, policy, calendar)
          && ReleaseDate(d, policy, calendar).Ok?
          && items[i].dueAt == DueAt(ReleaseDate(d, policy, calendar).value, policy, zone))
    && (forall d :: start <= d <= end && Applicable(d, policy, calendar) ==>
          exists i :: 0 <= i < |items| && items[i].date == d)
  }

  lemma LongerSchedule(rest: seq<Expected>, policy: Policy, calendar: BusinessCalendar, zone: Zone, from: int, end: int)
    requires IsSchedule(rest, policy, calendar, zone, from + 1, end) && from <= end
    requires Applicable(from, policy, calendar) && ReleaseDate(from, policy, calendar).Ok?
    ensures IsSchedule([Expected(from, DueAt(ReleaseDate(from, policy, calendar).value, policy, zone))] + rest,
                       policy, calendar, zone, from, end)
  {
    var first := Expected(from, DueAt(ReleaseDate(from, policy, calendar).value, policy, zone));
    forall d | from <= d <= end && Applicable(d, policy, calendar)
      ensures exists i :: 0 <= i < |[first] + rest| && ([first] + rest)[i].date == d
    {
      ListedInLonger(rest, first, policy, calendar, zone, end, d);
    }
  }

  lemma ListedInLonger(rest: seq<Expected>, first: Expected, policy: Policy, calendar: BusinessCalendar, zone: Zone,
                       end: int, d: int)
    requires IsSchedule(rest, policy, calendar, zone, first.date + 1, end)
    requires first.date <= d <= end && Applicable(d, policy, calendar)
    ensures exists i :: 0 <= i < |[first] + rest| && ([first] + rest)[i].date == d
  {
    var items := [first] + rest;
    if d == first.date {
      assert items[0].date == d;
    } else {
      var j :| 0 <= j < |rest| && rest[j].date == d;
      assert items[j + 1].date == d;
    }
  }

  lemma {:induction false} ExpectedFromLists(from: int, end: int, policy: Policy, calendar: BusinessCalendar, zone: Zone)
    ensures match ExpectedFrom(from, end, policy, calendar, zone)
            case Ok(items) => IsSchedule(items, policy, calendar, zone, from, end)
            case Err(_) => exists d :: from <= d <= end && Applicable(d, policy, calendar) &&
                                       ReleaseDate(d, policy, calendar).Err?
    decreases end - from + 1
  {
    if from <= end {
      ExpectedFromLists(from + 1, end, policy, calendar, zone);
      var rest := ExpectedFrom(from + 1, end, policy, calendar, zone);
      if Applicable(from, policy, calendar) && ReleaseDate(from, policy, calendar).Ok? && rest.Ok? {
        LongerSchedule(rest.value, policy, calendar, zone, from, end);
      } else if rest.Ok? && !Applicable(from, policy, calendar) {
        assert IsSchedule(rest.value, policy, calendar, zone, from, end);
      }
    }
  }

  // A call succeeds exactly when its arguments fit and every applicable date has a release.
  lemma ExpectationsAreSchedule(policy: Policy, calendar: BusinessCalendar, zone: Zone, start: int, end: int)
    ensures var r := Expectations(policy, calendar, zone, start, end);
            && (r.Ok? ==> IsSchedule(r.value, policy, calendar, zone, start, end))
            && (r.Ok? <==>
                  && start <= end && policy.frequency == "daily" && policy.calendarId == calendar.code
                  && forall d :: start <= d <= end && Applicable(d, policy, calendar) ==>
                       ReleaseDate(d, policy, calendar).Ok?)
  {
    ExpectedFromLists(start, end, policy, calendar, zone);
    var r := ExpectedFrom(start, end, policy, calendar, zone);
    if r.Ok? {
      forall d | start <= d <= end && Applicable(d, policy, calendar) ensures ReleaseDate(d, policy, calendar).Ok? {
        var i :| 0 <= i < |r.value| && r.value[i].date == d;
      }
    }
  }

  // Due instants follow release dates strictly.
  lemma DueIsMonotone(r: int, s: int, policy: Policy, zone: Zone)
    requires Regular(zone) && r < s
    ensures DueAt(r, policy, zone) < DueAt(s, policy, zone)
  {
    assert (s - r) * MICROS_PER_DAY >= MICROS_PER_DAY;
  }

  // Nothing is due before its release date has begun locally.
  lemma DueNotBeforeRelease(r: int, policy: Policy, zone: Zone, now: int)
    requires Regular(zone) && DueAt(r, policy, zone) <= now
    ensures r <= zone.localDate(now)
  {
    var w := r * MICROS_PER_DAY + policy.publicationTime + policy.gracePeriod;
    assert zone.toUtc(w) <= now;
  }

  // The items already due at an instant, and the latest instant any of them became due.
  function DueBy(items: seq<Expected>, now: int): (due: seq<Expected>)
    ensures forall x :: x in due <==> x in items && x.dueAt <= now
  {
    if items == [] then []
    else (if items[0].dueAt <= now then [items[0]] else []) + DueBy(items[1..], now)
  }

  function LatestDueAt(items: seq<Expected>): (at: int)
    requires items != []
    ensures (exists x :: x in items && x.dueAt == at) && forall x :: x in items ==> x.dueAt <= at
  {
    if |items| == 1 then items[0].dueAt else Max(items[0].dueAt, LatestDueAt(items[1..]))
  }
}
