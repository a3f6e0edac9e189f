/** The release planner: `SchedulerPlanner` of `app/application/scheduling.py`. */
module Scheduling {
  import opened Common
  import opened ReleaseCalendar

  const WINDOW_DAYS := 14

  // --------------------------------------------------------------------------------------------
  // The comprehensions of `_latest_due`
  // --------------------------------------------------------------------------------------------

  // The greatest observation date among the items due at one instant.
  function LatestReleased(items: seq<Expected>, at: int): (d: Option<int>)
    ensures match d
            case Some(m) => Expected(m, at) in items && forall x :: x in items && x.dueAt == at ==> x.date <= m
            case None => forall x :: x in items ==> x.dueAt != at
  {
    if items == [] then None
    else
      var rest := LatestReleased(items[1..], at);
      if items[0].dueAt != at then rest
      else if rest.None? then Some(items[0].date)
      else Some(Max(items[0].date, rest.value))
  }

  function SearchStart(policy: Policy, zone: Zone, now: int): int {
    Max(policy.effectiveFrom, zone.localDate(now) - WINDOW_DAYS)
  }

  function LatestDue(policy: Policy, calendar: BusinessCalendar, zone: Zone, now: int)
    : Result<Option<Expected>, CalendarError>
  {
    var candidates := Expectations(policy, calendar, zone, SearchStart(policy, zone, now), zone.localDate(now));
    if candidates.Err? then Err(candidates.error)
    else
      var due := DueBy(candidates.value, now);
      if due == [] then Ok(None)
      else
        var at := LatestDueAt(due);
        var released := LatestReleased(due, at);
        if released.None? then Ok(None) else Ok(Some(Expected(released.value, at)))
  }

  // --------------------------------------------------------------------------------------------
  // What is due, without any window
  // --------------------------------------------------------------------------------------------

  predicate IsDue(d: int, policy: Policy, calendar: BusinessCalendar, zone: Zone, now: int) {
    && Applicable(d, policy, calendar)
    && ReleaseDate(d, policy, calendar).Ok?
    && DueAt(ReleaseDate(d, policy, calendar).value, policy, zone) <= now
  }

  lemma DueWithinLocalDate(d: int, policy: Policy, calendar: BusinessCalendar, zone: Zone, now: int)
    requires Regular(zone) && IsDue(d, policy, calendar, zone, now)
    ensures d <= ReleaseDate(d, policy, calendar).value <= zone.localDate(now)
  {
    ReleaseNotBefore(d, policy, calendar);
    DueNotBeforeRelease(ReleaseDate(d, policy, calendar).value, policy, zone, now);
  }

  lemma DueByIsDue(d: int, policy: Policy, calendar: BusinessCalendar, zone: Zone, now: int, items: seq<Expected>)
    requires Regular(zone)
    requires IsSchedule(items, policy, calendar, zone, SearchStart(policy, zone, now), zone.localDate(now))
    ensures SearchStart(policy, zone, now) <= d && IsDue(d, policy, calendar, zone, now) <==>
            exists x :: x in DueBy(items, now) && x.date == d
  {
    if SearchStart(policy, zone, now) <= d && IsDue(d, policy, calendar, zone, now) {
      DueWithinLocalDate(d, policy, calendar, zone, now);
      var i :| 0 <= i < |items| && items[i].date == d;
      assert items[i] in items;
    }
  }

  // Later observation dates are never due earlier.
  lemma DueAtFollowsDate(d: int, e: int, policy: Policy, calendar: BusinessCalendar, zone: Zone)
    requires Regular(zone) && d <= e && ReleaseDate(d, policy, calendar).Ok? && ReleaseDate(e, policy, calendar).Ok?
    ensures DueAt(ReleaseDate(d, policy, calendar).value, policy, zone) <=
            DueAt(ReleaseDate(e, policy, calendar).value, policy, zone)
  {
    ReleaseIsMonotone(d, e, policy, calendar);
    var r, s := ReleaseDate(d, policy, calendar).value, ReleaseDate(e, policy, calendar).value;
    if r < s {
      DueIsMonotone(r, s, policy, zone);
    }
  }

  // --------------------------------------------------------------------------------------------
  // Main results
  // --------------------------------------------------------------------------------------------

  // The two-stage maximum is the greatest due observation date of all, however far back, and the
  // window only ever turns an answer into "nothing due".
  lemma LatestDueIsGreatest(policy: Policy, calendar: BusinessCalendar, zone: Zone, now: int)
    requires Regular(zone) && LatestDue(policy, calendar, zone, now).Ok?
    ensures match LatestDue(policy, calendar, zone, now).value
            case Some(x) =>
              && IsDue(x.date, policy, calendar, zone, now)
              && x.dueAt == DueAt(ReleaseDate(x.date, policy, calendar).value, policy, zone)
              && (forall d :: IsDue(d, policy, calendar, zone, now) ==> d <= x.date)
            case None => forall d :: IsDue(d, policy, calendar, zone, now) ==> d < zone.localDate(now) - WINDOW_DAYS
  {
    var start, today := SearchStart(policy, zone, now), zone.localDate(now);
    ExpectationsAreSchedule(policy, calendar, zone, start, today);
    var items := Expectations(policy, calendar, zone, start, today).value;
    var due := DueBy(items, now);
    if due != [] {
      var x := LatestDue(policy, calendar, zone, now).value.value;
      assert x in due && x in items;
      DueByIsDue(x.date, policy, calendar, zone, now, items);
      forall d | IsDue(d, policy, calendar, zone, now) ensures d <= x.date {
        DueByIsDue(d, policy, calendar, zone, now, items);
        if x.date < d {
          DueAtFollowsDate(x.date, d, policy, calendar, zone);
        }
      }
    } else {
      forall d | start <= d ensures !IsDue(d, policy, calendar, zone, now) {
        DueByIsDue(d, policy, calendar, zone, now, items);
      }
    }
  }

  // Under a weekly cadence the planned date is the release day itself, whenever the policy still
  // applies on that day.
  lemma WeeklyPlanIsReleaseDay(policy: Policy, calendar: BusinessCalendar, zone: Zone, now: int)
    requires Regular(zone) && policy.cadence.Weekly?
    requires LatestDue(policy, calendar, zone, now).Ok? && LatestDue(policy, calendar, zone, now).value.Some?
    ensures var d := LatestDue(policy, calendar, zone, now).value.value.date;
            && ReleaseDate(d, policy, calendar).Ok?
            && (policy.AppliesOn(ReleaseDate(d, policy, calendar).value) ==> IsReleaseDay(d, policy, calendar))
  {
    LatestDueIsGreatest(policy, calendar, zone, now);
    var d := LatestDue(policy, calendar, zone, now).value.value.date;
    var r := ReleaseDate(d, policy, calendar).value;
    WeeklyReleaseIsLeast(d, policy, calendar);
    if policy.AppliesOn(r) {
      WeeklyReleaseIsLeast(r, policy, calendar);
      assert ReleaseDate(r, policy, calendar) == Ok(r);
      assert IsDue(r, policy, calendar, zone, now);
    }
  }

  // The planner raises exactly when the policy starts after today locally, does not fit the
  // calendar, or the window holds an applicable date that is never released.
  lemma LatestDueFailsExactly(policy: Policy, calendar: BusinessCalendar, zone: Zone, now: int)
    ensures LatestDue(policy, calendar, zone, now).Err? <==>
            || zone.localDate(now) < policy.effectiveFrom
            || policy.frequency != "daily"
            || policy.calendarId != calendar.code
            || exists d :: SearchStart(policy, zone, now) <= d <= zone.localDate(now) &&
                           Applicable(d, policy, calendar) && ReleaseDate(d, policy, calendar).Err?
  {
    ExpectationsAreSchedule(policy, calendar, zone, SearchStart(policy, zone, now), zone.localDate(now));
  }

  // --------------------------------------------------------------------------------------------
  // Commands
  // --------------------------------------------------------------------------------------------

  datatype Command = Command(provider: string, start: int, end: int, dueAt: int, evaluatedAt: int)

  // What the planner looks up for one provider: None when the dataset is not ingestible or has no
  // policy, else the first policy of its instrument type with its calendar and zone.
  datatype Plan = Plan(provider: string, source: Option<(Policy, BusinessCalendar, Zone)>)

  function CommandFor(plan: Plan, now: int): Result<Option<Command>, CalendarError> {
    if plan.source.None? then Ok(None)
    else
      var (policy, calendar, zone) := plan.source.value;
      var due := LatestDue(policy, calendar, zone, now);
      if due.Err? then Err(due.error)
      else if due.value.None? then Ok(None)
      else
        var x := due.value.value;
        var start := if policy.cadence.Weekly? then x.date - 6 else x.date;
        Ok(Some(Command(plan.provider, start, x.date, x.dueAt, now)))
  }

  function CommandsFor(plans: seq<Plan>, now: int): Result<seq<Command>, CalendarError> {
    if plans == [] then Ok([])
    else
      var earlier := CommandsFor(plans[..|plans| - 1], now);
      if earlier.Err? then earlier
      else
        var last := CommandFor(plans[|plans| - 1], now);
        if last.Err? then Err(last.error)
        else Ok(earlier.value + if last.value.Some? then [last.value.value] else [])
  }

  lemma OneMoreCommand(plans: seq<Plan>, i: nat, now: int)
    requires i < |plans| && CommandsFor(plans[..i], now).Ok?
    ensures var earlier, one := CommandsFor(plans[..i], now).value, CommandFor(plans[i], now);
            CommandsFor(plans[..i + 1], now) ==
            if one.Err? then Err(one.error)
            else if one.value.None? then Ok(earlier)
            else Ok(earlier + [one.value.value])
  {
    assert plans[..i + 1][..i] == plans[..i] && plans[..i + 1][i] == plans[i];
    var earlier := CommandsFor(plans[..i], now).value;
    assert earlier + [] == earlier;
  }

  method DueCommands(plans: seq<Plan>, now: int) returns (r: Result<seq<Command>, CalendarError>)
    ensures r == CommandsFor(plans, now)
  {
    var commands: seq<Command> := [];
    for i := 0 to |plans|
      invariant CommandsFor(plans[..i], now) == Ok(commands)
    {
      OneMoreCommand(plans, i, now);
      var plan := plans[i];
      if plan.source.Some? {
        var (policy, calendar, zone) := plan.source.value;
        var due := LatestDue(policy, calendar, zone, now);
        if due.Err? {
          PrefixFails(plans, i + 1, now);
          return Err(due.error);
        }
        if due.value.Some? {
          var x := due.value.value;
          var start := x.date;
          if policy.cadence.Weekly? {
            start := x.date - 6;
          }
          commands := commands + [Command(plan.provider, start, x.date, x.dueAt, now)];
        }
      }
    }
    assert plans[..|plans|] == plans;
    r := Ok(commands);
  }

  lemma {:induction false} PrefixFails(plans: seq<Plan>, n: nat, now: int)
    requires n <= |plans| && CommandsFor(plans[..n], now).Err?
    ensures CommandsFor(plans, now) == CommandsFor(plans[..n], now)
    decreases |plans| - n
  {
    if n < |plans| {
      assert plans[..n + 1][..n] == plans[..n];
      PrefixFails(plans, n + 1, now);
    } else {
      assert plans[..n] == plans;
    }
  }

  // Each command ends at the greatest due observation date of its policy and spans one day, or the
  // seven days up to it under a weekly cadence.
  lemma CommandCoversLatestDue(plan: Plan, now: int)
    requires plan.source.Some? && Regular(plan.source.value.2)
    requires CommandFor(plan, now).Ok? && CommandFor(plan, now).value.Some?
    ensures var (policy, calendar, zone) := plan.source.value;
            var c := CommandFor(plan, now).value.value;
            && c.start <= c.end
            && IsDue(c.end, policy, calendar, zone, now)
            && (forall d :: IsDue(d, policy, calendar, zone, now) && c.start <= d ==> d <= c.end)
            && c.dueAt <= now
            && c.end - c.start + 1 == if policy.cadence.Weekly? then 7 else 1
  {
    var (policy, calendar, zone) := plan.source.value;
    LatestDueIsGreatest(policy, calendar, zone, now);
  }
}
