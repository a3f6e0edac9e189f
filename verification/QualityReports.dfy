/** Every field of a quality assessment, in terms of dates and instants. */
module QualityReports {
  import opened Common
  import opened ReleaseCalendar
  import opened ReleaseRules
  import opened Quality

  // The observed dates of the range, and those that have fallen due by t.
  ghost function ObservedDates(policy: Policy, calendar: BusinessCalendar, start: int, end: int): set<int> {
    set d | start <= d <= end && Observed(policy, calendar, d)
  }

  ghost function FallenDue(policy: Policy, calendar: BusinessCalendar, zone: Zone, start: int, end: int, t: int): set<int> {
    set d | start <= d <= end && HasFallenDue(policy, calendar, zone, d, t)
  }

  predicate InForce(calendar: Option<BusinessCalendar>, d: int) {
    calendar.Some? && calendar.value.effectiveFrom <= d && (calendar.value.effectiveTo.Some? ==> d <= calendar.value.effectiveTo.value)
  }

  // The allowance of every date has passed.
  ghost predicate AllStale(policy: Policy, calendar: BusinessCalendar, zone: Zone, due: set<int>, t: int) {
    forall d, at :: d in due && DueFrom(policy, calendar, zone, d, at) ==> at + policy.staleAfter < t
  }

  // How many dates there are and which of them are missing, in order; the newest of them and of those available.
  ghost predicate Counts(a: Assessment, dates: set<int>, missing: set<int>, present: set<int>) {
    && a.expectedCount == |dates|
    && (forall d :: d in a.missingDates <==> d in missing)
    && (forall i, j :: 0 <= i < j < |a.missingDates| ==> a.missingDates[i] < a.missingDates[j])
    && IsNewest(a.newestExpected, dates) && IsNewest(a.newestAvailable, present)
  }

  ghost predicate IsNewest(newest: Option<int>, dates: set<int>) {
    match newest
    case None => dates == {}
    case Some(d) => d in dates && forall e :: e in dates ==> e <= d
  }

  predicate Reports(a: Assessment, state: State, severity: Severity, reason: Reason, start: int, end: int, t: int) {
    (a.state, a.severity, a.reason, a.start, a.end, a.evaluatedAt) == (state, severity, reason, start, end, t)
  }

  // Without a calendar in force on both ends of the range, or when the expectations fail, nothing is known or
  // counted.
  lemma NothingKnownIsReported(policy: Policy, calendar: Option<BusinessCalendar>, zone: Zone, start: int, end: int, t: int,
                               available: set<int>, fetchEvidence: bool)
    ensures var a := EvaluateSafely(policy, calendar, zone, start, end, t, available, fetchEvidence);
            if !(InForce(calendar, start) && InForce(calendar, end)) then
              Reports(a, Unknown, Warning, CalendarMissing, start, end, t) && Counts(a, {}, {}, {})
            else
              match Expectations(policy, calendar.value, zone, start, end)
              case Err(e) => Reports(a, Unknown, Warning, EvaluationFailed(e), start, end, t) && Counts(a, {}, {}, {})
              case Ok(_) => true
  {
  }

  // Ordered items report their dates, the missing ones and the newest.
  lemma AssessCounts(state: State, severity: Severity, reason: Reason, start: int, end: int, t: int,
                     missing: seq<Expected>, items: seq<Expected>, available: set<int>, dates: set<int>, without: set<int>)
    requires Ordered(items) && Names(items, dates) && Ordered(missing) && Names(missing, without)
    ensures Counts(Assess(state, severity, reason, start, end, t, missing, items, available), dates, without, dates * available)
  {
    OrderedCount(items, dates);
    NamedDates(missing, without);
    GreatestNamed(items, dates);
    PresentNames(items, dates, available);
    GreatestNamed(Pick(items, available, true), dates * available);
  }

  lemma FallenDueIsDue(policy: Policy, calendar: BusinessCalendar, zone: Zone, start: int, end: int, t: int)
    requires policy.publicationTime < 86_400_000_000
    ensures FallenDue(policy, calendar, zone, start, end, t) == DueDates(policy, calendar, zone, start, end, t)
  {
    forall d ensures d in FallenDue(policy, calendar, zone, start, end, t) <==> d in DueDates(policy, calendar, zone, start, end, t) {
      DueMeans(policy, calendar, zone, d, t);
    }
  }

  lemma ExpectedNames(policy: Policy, calendar: BusinessCalendar, zone: Zone, start: int, end: int)
    requires policy.publicationTime < 86_400_000_000 && Expectations(policy, calendar, zone, start, end).Ok?
    ensures var items := Expectations(policy, calendar, zone, start, end).value;
            Ordered(items) && Names(items, ObservedDates(policy, calendar, start, end))
  {
    var items := Expectations(policy, calendar, zone, start, end).value;
    ExpectationsMean(policy, calendar, zone, start, end);
    forall d ensures d in ObservedDates(policy, calendar, start, end) <==> exists x :: x in items && x.date == d {
      if d in ObservedDates(policy, calendar, start, end) {
        var i :| 0 <= i < |items| && items[i].date == d;
        assert items[i] in items;
      }
    }
  }

  // While nothing has fallen due, the assessment counts all observed dates and misses none.
  lemma NothingDueIsReported(policy: Policy, calendar: BusinessCalendar, zone: Zone, start: int, end: int, t: int,
                             available: set<int>, fetchEvidence: bool)
    requires policy.publicationTime < 86_400_000_000 && InForce(Some(calendar), start) && InForce(Some(calendar), end)
    requires Expectations(policy, calendar, zone, start, end).Ok? && FallenDue(policy, calendar, zone, start, end, t) == {}
    ensures var a := EvaluateSafely(policy, Some(calendar), zone, start, end, t, available, fetchEvidence);
            var observed := ObservedDates(policy, calendar, start, end);
            Reports(a, NotDue, Info, NothingDue, start, end, t) && Counts(a, observed, {}, observed * available)
  {
    var items := Expectations(policy, calendar, zone, start, end).value;
    FallenDueIsDue(policy, calendar, zone, start, end, t);
    DueItemsAreDueDates(policy, calendar, zone, start, end, t);
    NamedDates(DueBy(items, t), {});
    ExpectedNames(policy, calendar, zone, start, end);
    EvaluationJudges(policy, calendar, zone, start, end, t, available, fetchEvidence);
    AssessCounts(NotDue, Info, NothingDue, start, end, t, [], items, available, ObservedDates(policy, calendar, start, end), {});
  }

  lemma StaleMeans(policy: Policy, calendar: BusinessCalendar, zone: Zone, start: int, end: int, t: int)
    requires policy.publicationTime < 86_400_000_000
    ensures var due := FallenDue(policy, calendar, zone, start, end, t);
            AllStale(policy, calendar, zone, due, t) <==> AllOverdue(due, policy, calendar, zone, t)
  {
    var due := FallenDue(policy, calendar, zone, start, end, t);
    FallenDueIsDue(policy, calendar, zone, start, end, t);
    forall d, at | d in due ensures DueFrom(policy, calendar, zone, d, at) <==> DueOn(d, policy, calendar, zone) == Some(at) {
      DueFromMeans(policy, calendar, zone, d, at);
    }
    if AllStale(policy, calendar, zone, due, t) {
      forall d | d in due ensures DueOn(d, policy, calendar, zone).Some? && DueOn(d, policy, calendar, zone).value + policy.staleAfter < t {
        assert DueFrom(policy, calendar, zone, d, DueOn(d, policy, calendar, zone).value);
      }
    }
  }

  // What the state, severity and reason say once something has fallen due.
  ghost predicate Judged(a: Assessment, policy: Policy, calendar: BusinessCalendar, zone: Zone, due: set<int>, start: int,
                         end: int, t: int, available: set<int>, fetchEvidence: bool)
  {
    if due <= available then Reports(a, Complete, Info, NoReason, start, end, t)
    else if !fetchEvidence then Reports(a, Unknown, Warning, FetchEvidenceMissing, start, end, t)
    else if AllStale(policy, calendar, zone, due, t) then Reports(a, Stale, Error, NoReason, start, end, t)
    else Reports(a, Incomplete, Warning, NoReason, start, end, t)
  }

  lemma DueIsJudged(policy: Policy, calendar: BusinessCalendar, zone: Zone, start: int, end: int, t: int,
                    available: set<int>, fetchEvidence: bool)
    requires policy.publicationTime < 86_400_000_000
    requires Expectations(policy, calendar, zone, start, end).Ok? && FallenDue(policy, calendar, zone, start, end, t) != {}
    ensures var items := Expectations(policy, calendar, zone, start, end).value;
            var a := Judge(items, start, end, t, available, fetchEvidence, policy.staleAfter);
            var due := FallenDue(policy, calendar, zone, start, end, t);
            DueBy(items, t) != [] && Judged(a, policy, calendar, zone, due, start, end, t, available, fetchEvidence)
  {
    FallenDueIsDue(policy, calendar, zone, start, end, t);
    DueItemsTellDueDates(policy, calendar, zone, start, end, t, available);
    StaleMeans(policy, calendar, zone, start, end, t);
  }

  // Once something has fallen due, the assessment counts the dates fallen due and names the missing ones.
  lemma DueIsReported(policy: Policy, calendar: BusinessCalendar, zone: Zone, start: int, end: int, t: int,
                      available: set<int>, fetchEvidence: bool)
    requires policy.publicationTime < 86_400_000_000 && InForce(Some(calendar), start) && InForce(Some(calendar), end)
    requires Expectations(policy, calendar, zone, start, end).Ok? && FallenDue(policy, calendar, zone, start, end, t) != {}
    ensures var a := EvaluateSafely(policy, Some(calendar), zone, start, end, t, available, fetchEvidence);
            var due := FallenDue(policy, calendar, zone, start, end, t);
            && Judged(a, policy, calendar, zone, due, start, end, t, available, fetchEvidence)
            && Counts(a, due, due - available, due * available)
  {
    var items := Expectations(policy, calendar, zone, start, end).value;
    var dates := FallenDue(policy, calendar, zone, start, end, t);
    EvaluationJudges(policy, calendar, zone, start, end, t, available, fetchEvidence);
    DueIsJudged(policy, calendar, zone, start, end, t, available, fetchEvidence);
    assert Ordered(DueBy(items, t)) && Names(DueBy(items, t), dates) by {
      FallenDueIsDue(policy, calendar, zone, start, end, t);
      DueItemsAreDueDates(policy, calendar, zone, start, end, t);
    }
    JudgedCounts(items, start, end, t, available, fetchEvidence, policy.staleAfter, dates);
  }

  lemma JudgedCounts(items: seq<Expected>, start: int, end: int, t: int, available: set<int>, fetchEvidence: bool,
                     staleAfter: nat, dates: set<int>)
    requires DueBy(items, t) != [] && Ordered(DueBy(items, t)) && Names(DueBy(items, t), dates)
    ensures Counts(Judge(items, start, end, t, available, fetchEvidence, staleAfter), dates, dates - available, dates * available)
  {
    var due := DueBy(items, t);
    var missing := Pick(due, available, false);
    MissingNames(due, dates, available);
    PickKeepsOrder(due, available, false);
    JudgedFields(items, start, end, t, available, fetchEvidence, staleAfter);
    AssessCounts(Complete, Info, NoReason, start, end, t, missing, due, available, dates, dates - available);
  }
}
