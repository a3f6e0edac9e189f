/** Completeness and freshness: `app/application/quality/service.py` and `app/repositories/quality.py`. */
module Quality {
  import opened Common
  import opened Observations
  import opened Paging
  import opened ReleaseCalendar

  datatype State = Complete | Incomplete | Stale | NotDue | Unknown

  datatype Severity = Info | Warning | Error

  datatype Reason =
    | NoReason | CalendarMissing | NothingDue | FetchEvidenceMissing | EvaluationFailed(error: CalendarError)

  // The counted part of an assessment; `evaluatedAt` and the affected range travel unchanged.
  datatype Assessment = Assessment(
    state: State, severity: Severity, reason: Reason, evaluatedAt: int, start: int, end: int,
    expectedCount: nat, missingDates: seq<int>, newestExpected: Option<int>, newestAvailable: Option<int>)

  // --------------------------------------------------------------------------------------------
  // Evidence
  // --------------------------------------------------------------------------------------------

  // `valid_fx_dates` and `valid_policy_rate_dates`: the same joined rows a history query sees.
  ghost function ValidDates(store: Store, series: nat, start: int, end: int, asOf: int): set<int> {
    set row | row in Snapshot(store, Query({series}, start, end, asOf)) :: row.date
  }

  // --------------------------------------------------------------------------------------------
  // The decision
  // --------------------------------------------------------------------------------------------

  function Dates(items: seq<Expected>): (dates: seq<int>)
    ensures |dates| == |items| && forall i :: 0 <= i < |items| ==> dates[i] == items[i].date
  {
    seq(|items|, i requires 0 <= i < |items| => items[i].date)
  }

  // The items whose date is among `available`, or those whose date is not.
  function Pick(items: seq<Expected>, available: set<int>, present: bool): seq<Expected> {
    if items == [] then []
    else (if (items[0].date in available) == present then [items[0]] else []) + Pick(items[1..], available, present)
  }

  function MaxOf(dates: seq<int>): (m: Option<int>)
    ensures match m
            case None => dates == []
            case Some(d) => d in dates && forall e :: e in dates ==> e <= d
  {
    if dates == [] then None
    else
      var rest := MaxOf(dates[1..]);
      assert forall e :: e in dates <==> e == dates[0] || e in dates[1..];
      if rest.None? then Some(dates[0]) else Some(Max(dates[0], rest.value))
  }

  function Assess(state: State, severity: Severity, reason: Reason, start: int, end: int, t: int,
                  missing: seq<Expected>, expected: seq<Expected>, available: set<int>): Assessment
  {
    Assessment(state, severity, reason, t, start, end, |expected|, Dates(missing),
               MaxOf(Dates(expected)), MaxOf(Dates(Pick(expected, available, true))))
  }

  function Evaluate(policy: Policy, calendar: Option<BusinessCalendar>, zone: Zone, start: int, end: int, t: int,
                    available: set<int>, fetchEvidence: bool): Result<Assessment, CalendarError>
  {
    if calendar.None? || !calendar.value.Covers(start) || !calendar.value.Covers(end) then
      Ok(Assess(Unknown, Warning, CalendarMissing, start, end, t, [], [], {}))
    else
      var expected := Expectations(policy, calendar.value, zone, start, end);
      if expected.Err? then Err(expected.error)
      else Ok(Judge(expected.value, start, end, t, available, fetchEvidence, policy.staleAfter))
  }

  // The decision once the expectations are known.
  function Judge(expected: seq<Expected>, start: int, end: int, t: int, available: set<int>, fetchEvidence: bool,
                 staleAfter: nat): Assessment
  {
    var due := DueBy(expected, t);
    if due == [] then Assess(NotDue, Info, NothingDue, start, end, t, [], expected, available)
    else
      var missing := Pick(due, available, false);
      if missing != [] && !fetchEvidence then
        Assess(Unknown, Warning, FetchEvidenceMissing, start, end, t, missing, due, available)
      else if missing == [] then Assess(Complete, Info, NoReason, start, end, t, missing, due, available)
      else if t > LatestDueAt(due) + staleAfter then
        Assess(Stale, Error, NoReason, start, end, t, missing, due, available)
      else Assess(Incomplete, Warning, NoReason, start, end, t, missing, due, available)
  }

  // `evaluate_safely`: a failing evaluation becomes an "unknown" assessment.
  function EvaluateSafely(policy: Policy, calendar: Option<BusinessCalendar>, zone: Zone, start: int, end: int, t: int,
                          available: set<int>, fetchEvidence: bool): Assessment
  {
    match Evaluate(policy, calendar, zone, start, end, t, available, fetchEvidence)
    case Ok(a) => a
    case Err(e) => Assess(Unknown, Warning, EvaluationFailed(e), start, end, t, [], [], {})
  }

  // --------------------------------------------------------------------------------------------
  // Conservation and classification
  // --------------------------------------------------------------------------------------------

  // The dates of the range whose observation is due at t.
  ghost function DueDates(policy: Policy, calendar: BusinessCalendar, zone: Zone, start: int, end: int, t: int): set<int> {
    set d | start <= d <= end && Applicable(d, policy, calendar) && ReleaseDate(d, policy, calendar).Ok? &&
            DueAt(ReleaseDate(d, policy, calendar).value, policy, zone) <= t
  }

  ghost predicate Ordered(items: seq<Expected>) {
    forall i, j :: 0 <= i < j < |items| ==> items[i].date < items[j].date
  }

  ghost predicate Names(items: seq<Expected>, dates: set<int>) {
    forall d :: d in dates <==> exists x :: x in items && x.date == d
  }

  lemma OrderedCons(head: Expected, tail: seq<Expected>, items: seq<Expected>)
    requires Ordered([head] + items) && Ordered(tail) && forall x :: x in tail ==> x in items
    ensures Ordered([head] + tail) && Ordered(items)
  {
    var all := [head] + items;
    assert forall i :: 0 <= i < |items| ==> all[i + 1] == items[i];
    forall x | x in tail ensures head.date < x.date {
      var i :| 0 <= i < |items| && items[i] == x;
      assert all[0].date < all[i + 1].date;
    }
  }

  lemma {:induction false} DueKeepsOrder(items: seq<Expected>, t: int)
    requires Ordered(items)
    ensures Ordered(DueBy(items, t))
  {
    if items != [] {
      assert items == [items[0]] + items[1..];
      assert Ordered(items[1..]);
      DueKeepsOrder(items[1..], t);
      OrderedCons(items[0], DueBy(items[1..], t), items[1..]);
    }
  }

  lemma {:induction false} PickMembers(items: seq<Expected>, available: set<int>, present: bool)
    ensures forall x :: x in Pick(items, available, present) <==> x in items && (x.date in available) == present
  {
    if items != [] {
      PickMembers(items[1..], available, present);
      assert items == [items[0]] + items[1..];
    }
  }

  lemma {:induction false} PickKeepsOrder(items: seq<Expected>, available: set<int>, present: bool)
    requires Ordered(items)
    ensures Ordered(Pick(items, available, present))
  {
    if items != [] {
      assert items == [items[0]] + items[1..];
      assert Ordered(items[1..]);
      PickKeepsOrder(items[1..], available, present);
      PickMembers(items[1..], available, present);
      OrderedCons(items[0], Pick(items[1..], available, present), items[1..]);
    }
  }

  lemma {:induction false} OrderedCount(items: seq<Expected>, dates: set<int>)
    requires Ordered(items) && Names(items, dates)
    ensures |items| == |dates|
  {
    if items == [] {
      assert forall d :: d in dates ==> exists x :: x in items && x.date == d;
      assert dates == {};
    } else {
      var first := items[0];
      assert first in items && first.date in dates;
      RestNames(items, dates);
      OrderedCount(items[1..], dates - {first.date});
    }
  }

  lemma RestNames(items: seq<Expected>, dates: set<int>)
    requires items != [] && Ordered(items) && Names(items, dates)
    ensures Ordered(items[1..]) && Names(items[1..], dates - {items[0].date})
  {
    var rest := items[1..];
    forall d ensures d in dates - {items[0].date} <==> exists x :: x in rest && x.date == d {
      if d in dates - {items[0].date} {
        var x :| x in items && x.date == d;
        assert x in rest;
      }
      if x :| x in rest && x.date == d {
        var i :| 0 <= i < |rest| && rest[i] == x;
        assert items[i + 1] == x;
      }
    }
  }

  lemma NamedDates(items: seq<Expected>, dates: set<int>)
    requires Names(items, dates)
    ensures forall d :: d in Dates(items) <==> d in dates
    ensures items == [] <==> dates == {}
  {
    forall d ensures d in Dates(items) <==> d in dates {
      if d in Dates(items) {
        var i :| 0 <= i < |items| && Dates(items)[i] == d;
        assert items[i] in items;
      }
      if d in dates {
        var x :| x in items && x.date == d;
        var i :| 0 <= i < |items| && items[i] == x;
        assert Dates(items)[i] == d;
      }
    }
    if items != [] {
      assert items[0] in items;
      assert items[0].date in dates;
    }
  }

  // The missing items among ordered items name exactly the dates that are not available.
  lemma MissingNames(items: seq<Expected>, dates: set<int>, available: set<int>)
    requires Ordered(items) && Names(items, dates)
    ensures var missing := Pick(items, available, false);
            && Names(missing, dates - available)
            && |items| == |dates| == |missing| + |dates * available|
  {
    var missing := Pick(items, available, false);
    PickMembers(items, available, false);
    PickKeepsOrder(items, available, false);
    forall d | d in dates - available ensures exists x :: x in missing && x.date == d {
      var x :| x in items && x.date == d;
      assert x in missing;
    }
    OrderedCount(items, dates);
    OrderedCount(missing, dates - available);
    assert dates == (dates - available) + (dates * available);
  }

  // What is expected is the due dates, split into the missing and the available; the newest expected date is
  // the greatest due one, the newest available date the greatest of those available, if any.
  ghost predicate Conserves(a: Assessment, due: set<int>, available: set<int>) {
    && a.expectedCount == |due| == |a.missingDates| + |due * available|
    && (forall d :: d in a.missingDates <==> d in due - available)
    && a.newestExpected.Some? && a.newestExpected.value in due
    && (forall d :: d in due ==> d <= a.newestExpected.value)
    && NewestAvailable(a, due * available)
  }

  ghost predicate NewestAvailable(a: Assessment, present: set<int>) {
    match a.newestAvailable
    case None => present == {}
    case Some(newest) => newest in present && forall d :: d in present ==> d <= newest
  }

  lemma PresentNames(items: seq<Expected>, dates: set<int>, available: set<int>)
    requires Names(items, dates)
    ensures Names(Pick(items, available, true), dates * available)
  {
    var present := Pick(items, available, true);
    PickMembers(items, available, true);
    forall d | d in dates * available ensures exists x :: x in present && x.date == d {
      var x :| x in items && x.date == d;
      assert x in present;
    }
  }

  // The greatest date that ordered items name, if they name any.
  lemma GreatestNamed(items: seq<Expected>, dates: set<int>)
    requires Names(items, dates)
    ensures match MaxOf(Dates(items))
            case None => dates == {}
            case Some(d) => d in dates && forall e :: e in dates ==> e <= d
  {
    NamedDates(items, dates);
  }

  lemma JudgedFields(expected: seq<Expected>, start: int, end: int, t: int, available: set<int>, fetchEvidence: bool,
                     staleAfter: nat)
    requires DueBy(expected, t) != []
    ensures var a, due := Judge(expected, start, end, t, available, fetchEvidence, staleAfter), DueBy(expected, t);
            && a.expectedCount == |due| && a.missingDates == Dates(Pick(due, available, false))
            && a.newestExpected == MaxOf(Dates(due)) && a.newestAvailable == MaxOf(Dates(Pick(due, available, true)))
  {
  }

  lemma JudgeConserves(expected: seq<Expected>, start: int, end: int, t: int, available: set<int>, fetchEvidence: bool,
                       staleAfter: nat, dates: set<int>)
    requires Ordered(DueBy(expected, t)) && Names(DueBy(expected, t), dates) && dates != {}
    ensures Conserves(Judge(expected, start, end, t, available, fetchEvidence, staleAfter), dates, available)
  {
    var due := DueBy(expected, t);
    NamedDates(due, dates);
    JudgedFields(expected, start, end, t, available, fetchEvidence, staleAfter);
    MissingNames(due, dates, available);
    NamedDates(Pick(due, available, false), dates - available);
    GreatestNamed(due, dates);
    PresentNames(due, dates, available);
    GreatestNamed(Pick(due, available, true), dates * available);
  }

  lemma NothingMissing(due: seq<Expected>, dates: set<int>, available: set<int>)
    requires Ordered(due) && Names(due, dates)
    ensures due == [] <==> dates == {}
    ensures Pick(due, available, false) == [] <==> dates <= available
  {
    MissingNames(due, dates, available);
    NamedDates(Pick(due, available, false), dates - available);
    NamedDates(due, dates);
    assert dates == (dates - available) + (dates * available);
  }

  lemma JudgeClassifies(expected: seq<Expected>, start: int, end: int, t: int, available: set<int>, fetchEvidence: bool,
                        staleAfter: nat)
    ensures var a := Judge(expected, start, end, t, available, fetchEvidence, staleAfter);
            var due := DueBy(expected, t);
            var allPresent := Pick(due, available, false) == [];
            && (a.state.NotDue? <==> due == [])
            && (a.state.Complete? <==> due != [] && allPresent)
            && (a.state.Unknown? <==> !allPresent && !fetchEvidence)
            && (a.state.Stale? <==> !allPresent && fetchEvidence && LatestDueAt(due) + staleAfter < t)
  {
  }

  // The due items name the due dates once each.
  lemma DueItemsAreDueDates(policy: Policy, calendar: BusinessCalendar, zone: Zone, start: int, end: int, t: int)
    requires Expectations(policy, calendar, zone, start, end).Ok?
    ensures var due := DueBy(Expectations(policy, calendar, zone, start, end).value, t);
            && Ordered(due)
            && Names(due, DueDates(policy, calendar, zone, start, end, t))
            && (forall x :: x in due ==> DueOn(x.date, policy, calendar, zone) == Some(x.dueAt))
  {
    var items := Expectations(policy, calendar, zone, start, end).value;
    ExpectationsAreSchedule(policy, calendar, zone, start, end);
    DueKeepsOrder(items, t);
    forall d | d in DueDates(policy, calendar, zone, start, end, t) ensures exists x :: x in DueBy(items, t) && x.date == d {
      var i :| 0 <= i < |items| && items[i].date == d;
      assert items[i] in items;
    }
  }

  // When the observation of a date falls due.
  function DueOn(d: int, policy: Policy, calendar: BusinessCalendar, zone: Zone): Option<int> {
    match ReleaseDate(d, policy, calendar)
    case Ok(r) => Some(DueAt(r, policy, zone))
    case Err(_) => None
  }

  // The last due instant plus the allowance has passed exactly when every due date's has.
  lemma StaleIsAllOverdue(policy: Policy, calendar: BusinessCalendar, zone: Zone, t: int,
                          due: seq<Expected>, dates: set<int>)
    requires due != [] && Names(due, dates)
    requires forall x :: x in due ==> DueOn(x.date, policy, calendar, zone) == Some(x.dueAt)
    ensures LatestDueAt(due) + policy.staleAfter < t <==> AllOverdue(dates, policy, calendar, zone, t)
  {
    var at := LatestDueAt(due);
    var last :| last in due && last.dueAt == at;
    assert last.date in dates;
  }

  ghost predicate AllOverdue(dates: set<int>, policy: Policy, calendar: BusinessCalendar, zone: Zone, t: int) {
    forall d :: d in dates ==>
      match DueOn(d, policy, calendar, zone)
      case Some(at) => at + policy.staleAfter < t
      case None => false
  }

  lemma DueItemsTellDueDates(policy: Policy, calendar: BusinessCalendar, zone: Zone, start: int, end: int, t: int,
                             available: set<int>)
    requires Expectations(policy, calendar, zone, start, end).Ok?
    ensures var due := DueBy(Expectations(policy, calendar, zone, start, end).value, t);
            var dates := DueDates(policy, calendar, zone, start, end, t);
            && (due == [] <==> dates == {})
            && (Pick(due, available, false) == [] <==> dates <= available)
            && (due != [] ==>
                  (LatestDueAt(due) + policy.staleAfter < t <==> AllOverdue(dates, policy, calendar, zone, t)))
  {
    var due := DueBy(Expectations(policy, calendar, zone, start, end).value, t);
    var dates := DueDates(policy, calendar, zone, start, end, t);
    DueItemsAreDueDates(policy, calendar, zone, start, end, t);
    NothingMissing(due, dates, available);
    if due != [] {
      StaleIsAllOverdue(policy, calendar, zone, t, due, dates);
    }
  }

  // Once something is due, what is expected splits into what is missing and what is available.
  lemma EvaluationConserves(policy: Policy, calendar: BusinessCalendar, zone: Zone, start: int, end: int, t: int,
                            available: set<int>, fetchEvidence: bool)
    requires calendar.Covers(start) && calendar.Covers(end)
    requires Expectations(policy, calendar, zone, start, end).Ok?
    ensures var a := EvaluateSafely(policy, Some(calendar), zone, start, end, t, available, fetchEvidence);
            var due := DueDates(policy, calendar, zone, start, end, t);
            due != {} ==> Conserves(a, due, available)
  {
    var items := Expectations(policy, calendar, zone, start, end).value;
    var due := DueDates(policy, calendar, zone, start, end, t);
    assert Ordered(DueBy(items, t)) && Names(DueBy(items, t), due) by {
      DueItemsAreDueDates(policy, calendar, zone, start, end, t);
    }
    EvaluationJudges(policy, calendar, zone, start, end, t, available, fetchEvidence);
    if due != {} {
      JudgeConserves(items, start, end, t, available, fetchEvidence, policy.staleAfter, due);
    }
  }

  lemma EvaluationJudges(policy: Policy, calendar: BusinessCalendar, zone: Zone, start: int, end: int, t: int,
                         available: set<int>, fetchEvidence: bool)
    requires calendar.Covers(start) && calendar.Covers(end)
    requires Expectations(policy, calendar, zone, start, end).Ok?
    ensures EvaluateSafely(policy, Some(calendar), zone, start, end, t, available, fetchEvidence) ==
            Judge(Expectations(policy, calendar, zone, start, end).value, start, end, t, available, fetchEvidence,
                  policy.staleAfter)
  {
  }

  // The state says which: not due when nothing is, complete exactly when nothing due is missing,
  // unknown exactly when something is missing without fetch evidence, and stale exactly when every
  // due instant is past its allowance.
  lemma EvaluationClassifies(policy: Policy, calendar: BusinessCalendar, zone: Zone, start: int, end: int, t: int,
                             available: set<int>, fetchEvidence: bool)
    requires calendar.Covers(start) && calendar.Covers(end)
    requires Expectations(policy, calendar, zone, start, end).Ok?
    ensures var a := EvaluateSafely(policy, Some(calendar), zone, start, end, t, available, fetchEvidence);
            var due := DueDates(policy, calendar, zone, start, end, t);
            && (a.state.NotDue? <==> due == {})
            && (a.state.Complete? <==> due != {} && due <= available)
            && (a.state.Unknown? <==> !(due <= available) && !fetchEvidence)
            && (a.state.Stale? <==>
                  (!(due <= available) && fetchEvidence && AllOverdue(due, policy, calendar, zone, t)))
  {
    DueItemsTellDueDates(policy, calendar, zone, start, end, t, available);
    JudgeClassifies(Expectations(policy, calendar, zone, start, end).value, start, end, t, available, fetchEvidence,
                    policy.staleAfter);
  }

  // --------------------------------------------------------------------------------------------
  // Replay
  // --------------------------------------------------------------------------------------------

  // Judged at t on what was known at t, an instrument gets the same assessment however many
  // persists retrieved after t the store has received since.
  lemma EvaluationReplays(store: Store, calls: seq<PersistCall>, policy: Policy, calendar: Option<BusinessCalendar>,
                          zone: Zone, series: nat, start: int, end: int, t: int, fetchEvidence: bool)
    requires Sound(store) && FreshIds(store, calls) && LaterThan(calls, t)
    ensures EvaluateSafely(policy, calendar, zone, start, end, t,
                           ValidDates(Run(store, calls), series, start, end, t), fetchEvidence) ==
            EvaluateSafely(policy, calendar, zone, start, end, t,
                           ValidDates(store, series, start, end, t), fetchEvidence)
  {
    RunKeepsSnapshot(store, calls, Query({series}, start, end, t));
  }
}
