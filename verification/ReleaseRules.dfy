/** What expectations and due dates mean on the calendar and on the clock. */
module ReleaseRules {
  import opened Common
  import opened ReleaseCalendar
  import opened Scheduling

  // Within the calendar, on no weekend day and no holiday; day 0 was a Thursday and Monday is 0.
  predicate WorkingDay(calendar: BusinessCalendar, d: int) {
    && calendar.effectiveFrom <= d && (calendar.effectiveTo.Some? ==> d <= calendar.effectiveTo.value)
    && (d + 3) % 7 !in calendar.weekendDays && d !in calendar.holidays
  }

  // The policy expects an observation of this date.
  predicate Observed(policy: Policy, calendar: BusinessCalendar, d: int) {
    && policy.effectiveFrom <= d && (policy.effectiveTo.Some? ==> d <= policy.effectiveTo.value)
    && WorkingDay(calendar, d)
  }

  predicate WeeklyRelease(policy: Policy, calendar: BusinessCalendar, d: int) {
    (d + 3) % 7 in policy.releaseWeekdays && WorkingDay(calendar, d)
  }

  // The observation of date d is published on date r: the same day, or the first release day of two weeks.
  ghost predicate PublishedOn(policy: Policy, calendar: BusinessCalendar, d: int, r: int) {
    match policy.cadence
    case DailyBusiness => r == d
    case Weekly =>
      d <= r < d + 14 && WeeklyRelease(policy, calendar, r) && forall e :: d <= e < r ==> !WeeklyRelease(policy, calendar, e)
  }

  // `at` is the instant of the wall time that lies the grace period after the publication time of date r.
  ghost predicate FallsDueAt(policy: Policy, zone: Zone, r: int, at: int) {
    exists w: int :: at == zone.toUtc(w)
      && (w - policy.gracePeriod) / 86_400_000_000 == r && (w - policy.gracePeriod) % 86_400_000_000 == policy.publicationTime
  }

  ghost predicate DueFrom(policy: Policy, calendar: BusinessCalendar, zone: Zone, d: int, at: int) {
    exists r :: PublishedOn(policy, calendar, d, r) && FallsDueAt(policy, zone, r, at)
  }

  lemma ReleaseMeans(policy: Policy, calendar: BusinessCalendar, d: int, r: int)
    ensures PublishedOn(policy, calendar, d, r) <==> ReleaseDate(d, policy, calendar) == Ok(r)
  {
    if policy.cadence.Weekly? {
      assert forall e :: WeeklyRelease(policy, calendar, e) <==> IsReleaseDay(e, policy, calendar);
      WeeklyReleaseIsLeast(d, policy, calendar);
      if PublishedOn(policy, calendar, d, r) && ReleaseDate(d, policy, calendar).Ok? {
        var s := ReleaseDate(d, policy, calendar).value;
        assert WeeklyRelease(policy, calendar, s);
        assert !(r < s) && !(s < r);
      }
    }
  }

  lemma DueAtMeans(policy: Policy, zone: Zone, r: int, at: int)
    requires policy.publicationTime < 86_400_000_000
    ensures FallsDueAt(policy, zone, r, at) <==> at == DueAt(r, policy, zone)
  {
    var w := r * 86_400_000_000 + policy.publicationTime + policy.gracePeriod;
    assert w - policy.gracePeriod == r * 86_400_000_000 + policy.publicationTime;
    assert zone.toUtc(w) == DueAt(r, policy, zone);
  }

  lemma DueFromMeans(policy: Policy, calendar: BusinessCalendar, zone: Zone, d: int, at: int)
    requires policy.publicationTime < 86_400_000_000
    ensures DueFrom(policy, calendar, zone, d, at) <==>
            ReleaseDate(d, policy, calendar).Ok? && at == DueAt(ReleaseDate(d, policy, calendar).value, policy, zone)
  {
    if ReleaseDate(d, policy, calendar).Ok? {
      var r := ReleaseDate(d, policy, calendar).value;
      ReleaseMeans(policy, calendar, d, r);
      DueAtMeans(policy, zone, r, at);
    }
    if DueFrom(policy, calendar, zone, d, at) {
      var r :| PublishedOn(policy, calendar, d, r) && FallsDueAt(policy, zone, r, at);
      ReleaseMeans(policy, calendar, d, r);
      DueAtMeans(policy, zone, r, at);
    }
  }

  // Exactly the observed dates of the range, in order, each due the grace period after its publication.
  ghost predicate ListsExpected(items: seq<Expected>, policy: Policy, calendar: BusinessCalendar, zone: Zone, start: int, end: int) {
    && (forall i, j :: 0 <= i < j < |items| ==> items[i].date < items[j].date)
    && (forall i :: 0 <= i < |items| ==>
          && start <= items[i].date <= end && Observed(policy, calendar, items[i].date)
          && DueFrom(policy, calendar, zone, items[i].date, items[i].dueAt))
    && (forall d :: start <= d <= end && Observed(policy, calendar, d) ==> exists i :: 0 <= i < |items| && items[i].date == d)
  }

  ghost predicate IsPublished(policy: Policy, calendar: BusinessCalendar, d: int) {
    exists r :: PublishedOn(policy, calendar, d, r)
  }

  // A call succeeds exactly when its arguments fit and every observed date is published, and then lists them.
  lemma ExpectationsMean(policy: Policy, calendar: BusinessCalendar, zone: Zone, start: int, end: int)
    requires policy.publicationTime < 86_400_000_000
    ensures var r := Expectations(policy, calendar, zone, start, end);
            && (r.Ok? <==>
                  && start <= end && policy.frequency == "daily" && policy.calendarId == calendar.code
                  && forall d :: start <= d <= end && Observed(policy, calendar, d) ==> IsPublished(policy, calendar, d))
            && (r.Ok? ==> ListsExpected(r.value, policy, calendar, zone, start, end))
  {
    ExpectationsAreSchedule(policy, calendar, zone, start, end);
    forall d ensures Observed(policy, calendar, d) <==> Applicable(d, policy, calendar) {
    }
    forall d ensures IsPublished(policy, calendar, d) <==> ReleaseDate(d, policy, calendar).Ok? {
      PublishedMeans(policy, calendar, d);
    }
    var r := Expectations(policy, calendar, zone, start, end);
    if r.Ok? {
      forall i | 0 <= i < |r.value| ensures DueFrom(policy, calendar, zone, r.value[i].date, r.value[i].dueAt) {
        DueFromMeans(policy, calendar, zone, r.value[i].date, r.value[i].dueAt);
      }
    }
  }

  lemma PublishedMeans(policy: Policy, calendar: BusinessCalendar, d: int)
    ensures IsPublished(policy, calendar, d) <==> ReleaseDate(d, policy, calendar).Ok?
  {
    if ReleaseDate(d, policy, calendar).Ok? {
      ReleaseMeans(policy, calendar, d, ReleaseDate(d, policy, calendar).value);
    }
    if IsPublished(policy, calendar, d) {
      var r :| PublishedOn(policy, calendar, d, r);
      ReleaseMeans(policy, calendar, d, r);
    }
  }

  // An observation has fallen due by now.
  ghost predicate HasFallenDue(policy: Policy, calendar: BusinessCalendar, zone: Zone, d: int, now: int) {
    Observed(policy, calendar, d) && exists at :: DueFrom(policy, calendar, zone, d, at) && at <= now
  }

  lemma DueMeans(policy: Policy, calendar: BusinessCalendar, zone: Zone, d: int, now: int)
    requires policy.publicationTime < 86_400_000_000
    ensures IsDue(d, policy, calendar, zone, now) <==> HasFallenDue(policy, calendar, zone, d, now)
  {
    if ReleaseDate(d, policy, calendar).Ok? {
      DueFromMeans(policy, calendar, zone, d, DueAt(ReleaseDate(d, policy, calendar).value, policy, zone));
    }
    if HasFallenDue(policy, calendar, zone, d, now) {
      var at :| DueFrom(policy, calendar, zone, d, at) && at <= now;
      DueFromMeans(policy, calendar, zone, d, at);
    }
  }

  // A planned command asks its provider for the greatest date that has fallen due, alone or with the six days
  // before it under a weekly cadence; none is planned only when nothing of the last two weeks has fallen due.
  lemma CommandMeans(plan: Plan, now: int)
    requires plan.source.Some? && Regular(plan.source.value.2) && plan.source.value.0.publicationTime < 86_400_000_000
    requires CommandFor(plan, now).Ok?
    ensures var (policy, calendar, zone) := plan.source.value;
            match CommandFor(plan, now).value
            case Some(c) =>
              && c.provider == plan.provider && c.evaluatedAt == now
              && HasFallenDue(policy, calendar, zone, c.end, now) && DueFrom(policy, calendar, zone, c.end, c.dueAt)
              && (forall d :: HasFallenDue(policy, calendar, zone, d, now) ==> d <= c.end)
              && c.start == (if policy.cadence == Weekly then c.end - 6 else c.end)
            case None =>
              forall d :: HasFallenDue(policy, calendar, zone, d, now) ==> d < zone.localDate(now) - 14
  {
    var (policy, calendar, zone) := plan.source.value;
    LatestDueIsGreatest(policy, calendar, zone, now);
    forall d ensures IsDue(d, policy, calendar, zone, now) <==> HasFallenDue(policy, calendar, zone, d, now) {
      DueMeans(policy, calendar, zone, d, now);
    }
    if CommandFor(plan, now).value.Some? {
      var c := CommandFor(plan, now).value.value;
      DueFromMeans(policy, calendar, zone, c.end, c.dueAt);
    }
  }
}
