/** What the transactions on the ingestion tables mean, in terms of days, instants and row columns: claims of
    scopes, creation of runs, recovery of leases, and the end of a run. */
module IngestionRules {
  import opened Common
  import opened IngestionTables

  // --------------------------------------------------------------------------------------------
  // Days
  // --------------------------------------------------------------------------------------------

  predicate Wants(scope: Scope, day: int) {
    scope.start <= day <= scope.end
  }

  ghost predicate ProperRanges(scopes: seq<Scope>) {
    forall i :: 0 <= i < |scopes| ==> scopes[i].start <= scopes[i].end
  }

  // A waiting or running scope of another run wants one of these days of the series.
  ghost predicate DayTaken(scopes: seq<Scope>, runId: nat, kind: ScopeKind, series: nat, start: int, end: int) {
    exists i, day :: 0 <= i < |scopes| && Wants(scopes[i], day) && start <= day <= end
      && (scopes[i].status == ScopePending || scopes[i].status == ScopeRunning)
      && scopes[i].runId != runId && scopes[i].kind == kind && scopes[i].series == series
  }

  // The overlap check finds exactly the days that are taken.
  lemma OverlapGoesByDays(scopes: seq<Scope>, probe: Scope)
    requires ProperRanges(scopes) && probe.start <= probe.end
    ensures Overlaps(scopes, probe) <==>
            DayTaken(scopes, probe.runId, probe.kind, probe.series, probe.start, probe.end)
  {
    if Overlaps(scopes, probe) {
      var i :| 0 <= i < |scopes| && ActiveScope(scopes[i].status) && Conflicts(scopes[i], probe);
      assert Wants(scopes[i], Max(scopes[i].start, probe.start));
    }
    if DayTaken(scopes, probe.runId, probe.kind, probe.series, probe.start, probe.end) {
      var i, day :| 0 <= i < |scopes| && Wants(scopes[i], day) && probe.start <= day <= probe.end
        && (scopes[i].status == ScopePending || scopes[i].status == ScopeRunning)
        && scopes[i].runId != probe.runId && scopes[i].kind == probe.kind && scopes[i].series == probe.series;
      assert Conflicts(scopes[i], probe);
    }
  }

  // The claim of a waiting scope starts it exactly when none of its days is taken; otherwise a manual run
  // raises, and any other skips the scope whole.
  lemma ClaimGoesByDays(db: Tables, s: nat, now: int)
    requires s < |db.scopes| && db.scopes[s].runId < |db.runs| && db.scopes[s].status == ScopePending
    requires ProperRanges(db.scopes)
    ensures var scope := db.scopes[s];
            var manual := db.runs[scope.runId].trigger == Manual;
            BeginScope(db, s, now) ==
            if !DayTaken(db.scopes, scope.runId, scope.kind, scope.series, scope.start, scope.end) then
              Ok(db.(scopes := db.scopes[s := scope.(status := ScopeRunning, startedAt := Some(now))]))
            else if manual then Err(ScopeConflict)
            else Ok(db.(scopes := db.scopes[s := scope.(status := ScopeSkipped, finishedAt := Some(now),
                                                        counters := Counters(0, 0, 0, 0, 0, 0), error := Some(OverlapSkipped))]))
  {
    OverlapGoesByDays(db.scopes, db.scopes[s]);
  }

  // A scope is completed exactly when it is active, the status is final and no counter is negative; its row
  // alone changes.
  lemma CompletionMeans(db: Tables, s: nat, status: ScopeStatus, now: int, c: Counters, error: Option<ErrorCode>)
    ensures Complete(db, s, status, now, c, error).Ok? <==>
            && s < |db.scopes| && db.scopes[s].status in {ScopePending, ScopeRunning}
            && status in {ScopeSucceeded, ScopeFailed, ScopeSkipped}
            && c.fetchedCount >= 0 && c.insertedCount >= 0 && c.unchangedCount >= 0 && c.revisedCount >= 0
            && c.quarantinedCount >= 0 && c.failedCount >= 0
    ensures Complete(db, s, status, now, c, error).Ok? ==>
              Complete(db, s, status, now, c, error).value ==
              db.(scopes := db.scopes[s := db.scopes[s].(status := status, finishedAt := Some(now), counters := c, error := error)])
  {
  }

  // --------------------------------------------------------------------------------------------
  // Creation
  // --------------------------------------------------------------------------------------------

  // One of the requested days of one of the planned series is taken.
  ghost predicate PlanTaken(db: Tables, q: Request) {
    exists i :: 0 <= i < |q.planned| &&
      DayTaken(db.scopes, |db.runs|, q.planned[i].0, q.planned[i].1, q.start, q.end)
  }

  predicate ParentIsOver(db: Tables, q: Request) {
    q.parent.Some? ==>
      && q.parent.value < |db.runs| && db.runs[q.parent.value].dataset == q.dataset
      && db.runs[q.parent.value].status in {RunSucceeded, RunPartial, RunFailed}
  }

  // One run more, waiting, and behind all scopes one waiting scope for each planned series and all its days.
  ghost predicate AddsRun(db: Tables, q: Request, next: Tables) {
    && next.runs == db.runs + [Run(q.trigger, q.dataset, q.start, q.end, RunPending, q.requestedAt, None, None, None,
                                   Counters(0, 0, 0, 0, 0, 0), None)]
    && |next.scopes| == |db.scopes| + |q.planned|
    && (forall s :: 0 <= s < |db.scopes| ==> next.scopes[s] == db.scopes[s])
    && (forall i :: 0 <= i < |q.planned| ==>
          next.scopes[|db.scopes| + i] ==
          Scope(|db.runs|, q.planned[i].0, q.planned[i].1, q.start, q.end, ScopePending, None, None,
                Counters(0, 0, 0, 0, 0, 0), None))
  }

  lemma PlanGoesByDays(db: Tables, q: Request)
    requires ProperRanges(db.scopes) && q.start <= q.end
    ensures PlanConflicts(db, q) <==> PlanTaken(db, q)
  {
    forall i | 0 <= i < |q.planned|
      ensures Overlaps(db.scopes, PlannedScope(q, |db.runs|, i)) <==>
              DayTaken(db.scopes, |db.runs|, q.planned[i].0, q.planned[i].1, q.start, q.end)
    {
      OverlapGoesByDays(db.scopes, PlannedScope(q, |db.runs|, i));
    }
  }

  // A run is created exactly when the request is in order and, if it is manual, none of its days is taken.
  lemma CreationGoesByDays(db: Tables, q: Request)
    requires ProperRanges(db.scopes) && q.start <= q.end
    ensures var inOrder := q.valid && q.usable && ParentIsOver(db, q) && q.planned != [];
            && (Create(db, q).Ok? <==> inOrder && !(q.trigger == Manual && PlanTaken(db, q)))
            && (Create(db, q) == Err(ScopeConflict) <==> inOrder && q.trigger == Manual && PlanTaken(db, q))
            && (Create(db, q).Ok? ==> AddsRun(db, q, Create(db, q).value))
  {
    PlanGoesByDays(db, q);
  }

  // --------------------------------------------------------------------------------------------
  // Sums and statuses
  // --------------------------------------------------------------------------------------------

  // One counter summed over the scopes of a run.
  function SumOf(scopes: seq<Scope>, r: nat, counter: Counters -> int): int {
    if scopes == [] then 0
    else
      var last := scopes[|scopes| - 1];
      SumOf(scopes[..|scopes| - 1], r, counter) + if last.runId == r then counter(last.counters) else 0
  }

  // Each of the six counters is its own sum.
  ghost predicate AreSums(counters: Counters, scopes: seq<Scope>, r: nat) {
    && counters.fetchedCount == SumOf(scopes, r, (c: Counters) => c.fetchedCount)
    && counters.insertedCount == SumOf(scopes, r, (c: Counters) => c.insertedCount)
    && counters.unchangedCount == SumOf(scopes, r, (c: Counters) => c.unchangedCount)
    && counters.revisedCount == SumOf(scopes, r, (c: Counters) => c.revisedCount)
    && counters.quarantinedCount == SumOf(scopes, r, (c: Counters) => c.quarantinedCount)
    && counters.failedCount == SumOf(scopes, r, (c: Counters) => c.failedCount)
  }

  lemma {:induction false} TotalsAreSums(scopes: seq<Scope>, r: nat)
    ensures AreSums(ScopeTotals(scopes, r), scopes, r)
  {
    if scopes != [] {
      TotalsAreSums(scopes[..|scopes| - 1], r);
    }
  }

  predicate SomeOwn(scopes: seq<Scope>, r: nat, succeeded: bool) {
    exists i :: 0 <= i < |scopes| && scopes[i].runId == r && (scopes[i].status == ScopeSucceeded) == succeeded
  }

  predicate SomeOwnActive(scopes: seq<Scope>, r: nat) {
    exists i :: 0 <= i < |scopes| && scopes[i].runId == r && scopes[i].status in {ScopePending, ScopeRunning}
  }

  // Succeeded unless some scope did not; then partial or failed, as some other did or none.
  function StatusOf(scopes: seq<Scope>, r: nat): RunStatus {
    if !SomeOwn(scopes, r, false) then RunSucceeded else if SomeOwn(scopes, r, true) then RunPartial else RunFailed
  }

  lemma DerivedIsStatusOf(scopes: seq<Scope>, r: nat)
    ensures DeriveStatus(scopes, r) == if SomeOwnActive(scopes, r) then Err(ActiveScopes) else Ok(StatusOf(scopes, r))
  {
    if SomeOwn(scopes, r, false) && !SomeOwnActive(scopes, r) {
      var i :| 0 <= i < |scopes| && scopes[i].runId == r && scopes[i].status != ScopeSucceeded;
      assert scopes[i].status == ScopeFailed || scopes[i].status == ScopeSkipped;
    }
  }

  // The row of a run that ends now.
  ghost predicate EndsAs(before: Run, after: Run, scopes: seq<Scope>, r: nat, now: int, error: Option<ErrorCode>) {
    && after == before.(status := StatusOf(scopes, r), finishedAt := Some(now), heartbeatAt := Some(now),
                        counters := after.counters, error := error)
    && AreSums(after.counters, scopes, r)
  }

  // A run is finished exactly when it runs and none of its scopes is active; its row alone changes, to the
  // status its scopes make and their sums.
  lemma FinishMeans(db: Tables, r: nat, now: int)
    ensures FinishRun(db, r, now).Ok? <==>
            r < |db.runs| && db.runs[r].status == RunRunning && !SomeOwnActive(db.scopes, r)
    ensures FinishRun(db, r, now).Ok? ==>
              var next := FinishRun(db, r, now).value;
              && next.scopes == db.scopes && |next.runs| == |db.runs|
              && (forall q :: 0 <= q < |db.runs| && q != r ==> next.runs[q] == db.runs[q])
              && EndsAs(db.runs[r], next.runs[r], db.scopes, r, now, None)
  {
    DerivedIsStatusOf(db.scopes, r);
    TotalsAreSums(db.scopes, r);
  }

  // --------------------------------------------------------------------------------------------
  // Recovery
  // --------------------------------------------------------------------------------------------

  // Running, and not heard of since the cutoff.
  predicate Silent(run: Run, cutoff: int) {
    run.status == RunRunning && run.heartbeatAt.Some? && run.heartbeatAt.value < cutoff
  }

  // The run and its scopes are the same rows.
  ghost predicate Untouched(db: Tables, after: Tables, r: nat)
    requires r < |db.runs| == |after.runs| && |after.scopes| == |db.scopes|
  {
    && after.runs[r] == db.runs[r]
    && (forall s :: 0 <= s < |db.scopes| && db.scopes[s].runId == r ==> after.scopes[s] == db.scopes[s])
  }

  function ScopeExpired(scope: Scope, now: int): Scope {
    if scope.status == ScopePending || scope.status == ScopeRunning then
      scope.(status := ScopeFailed, finishedAt := Some(now), error := Some(LeaseExpired),
             counters := scope.counters.(failedCount := scope.counters.failedCount + 1))
    else scope
  }

  // The run ended for its expired lease: active scopes failed with one failure more, the others as they were.
  ghost predicate Expires(db: Tables, after: Tables, r: nat, now: int)
    requires r < |db.runs| == |after.runs| && |after.scopes| == |db.scopes|
  {
    && EndsAs(db.runs[r], after.runs[r], after.scopes, r, now, Some(LeaseExpired))
    && (forall s :: 0 <= s < |db.scopes| && db.scopes[s].runId == r ==> after.scopes[s] == ScopeExpired(db.scopes[s], now))
  }

  // The same runs own the same scopes.
  ghost predicate SameOwners(db: Tables, after: Tables) {
    && |after.runs| == |db.runs| && |after.scopes| == |db.scopes|
    && (forall s :: 0 <= s < |db.scopes| ==> after.scopes[s].runId == db.scopes[s].runId)
  }

  lemma OneRunExpires(db: Tables, r: nat, now: int)
    requires r < |db.runs| && db.runs[r].status == RunRunning
    ensures var after := RecoverRun(db, r, now);
            && SameOwners(db, after) && Expires(db, after, r, now)
            && (forall q :: 0 <= q < |db.runs| && q != r ==> Untouched(db, after, q))
  {
    var failed := FailLeased(db.scopes, r, |db.scopes|, now);
    LeaseFailureMeans(db.scopes, r, now);
    assert DeriveStatus(failed, r) == Ok(StatusOf(failed, r)) by {
      DerivedIsStatusOf(failed, r);
    }
    TotalsAreSums(failed, r);
    FinalRow(db, failed, r, now);
  }

  lemma LeaseFailureMeans(scopes: seq<Scope>, r: nat, now: int)
    ensures var failed := FailLeased(scopes, r, |scopes|, now);
            && !SomeOwnActive(failed, r)
            && forall s :: 0 <= s < |scopes| ==>
                 failed[s] == if scopes[s].runId == r then ScopeExpired(scopes[s], now) else scopes[s]
  {
  }

  // The recovered tables: the failed scopes, and the run's row rewritten.
  lemma FinalRow(db: Tables, failed: seq<Scope>, r: nat, now: int)
    requires r < |db.runs| && db.runs[r].status == RunRunning
    requires failed == FailLeased(db.scopes, r, |db.scopes|, now) && DeriveStatus(failed, r) == Ok(StatusOf(failed, r))
    ensures RecoverRun(db, r, now) ==
            Tables(db.runs[r := db.runs[r].(status := StatusOf(failed, r), finishedAt := Some(now), heartbeatAt := Some(now),
                                            counters := ScopeTotals(failed, r), error := Some(LeaseExpired))], failed)
  {
  }

  lemma {:induction false} SumsAreOwn(a: seq<Scope>, b: seq<Scope>, r: nat, counter: Counters -> int)
    requires |a| == |b|
    requires forall s :: 0 <= s < |a| ==> (a[s].runId == r <==> b[s].runId == r) && (a[s].runId == r ==> a[s] == b[s])
    ensures SumOf(a, r, counter) == SumOf(b, r, counter)
  {
    if a != [] {
      SumsAreOwn(a[..|a| - 1], b[..|b| - 1], r, counter);
    }
  }

  // Whatever befalls other runs, an expired run stays as it ended.
  lemma StaysExpired(db: Tables, earlier: Tables, later: Tables, r: nat, now: int)
    requires SameOwners(db, earlier) && SameOwners(earlier, later) && r < |db.runs|
    requires Expires(db, earlier, r, now) && Untouched(earlier, later, r)
    ensures Expires(db, later, r, now)
  {
    SameSums(earlier.scopes, later.scopes, r, earlier.runs[r].counters);
    SameStatus(earlier.scopes, later.scopes, r);
  }

  lemma SameSums(a: seq<Scope>, b: seq<Scope>, r: nat, counters: Counters)
    requires |a| == |b| && AreSums(counters, a, r)
    requires forall s :: 0 <= s < |a| ==> (a[s].runId == r <==> b[s].runId == r) && (a[s].runId == r ==> a[s] == b[s])
    ensures AreSums(counters, b, r)
  {
    SumsAreOwn(a, b, r, (c: Counters) => c.fetchedCount);
    SumsAreOwn(a, b, r, (c: Counters) => c.insertedCount);
    SumsAreOwn(a, b, r, (c: Counters) => c.unchangedCount);
    SumsAreOwn(a, b, r, (c: Counters) => c.revisedCount);
    SumsAreOwn(a, b, r, (c: Counters) => c.quarantinedCount);
    SumsAreOwn(a, b, r, (c: Counters) => c.failedCount);
  }

  lemma SameStatus(a: seq<Scope>, b: seq<Scope>, r: nat)
    requires |a| == |b|
    requires forall s :: 0 <= s < |a| ==> (a[s].runId == r <==> b[s].runId == r) && (a[s].runId == r ==> a[s] == b[s])
    ensures StatusOf(a, r) == StatusOf(b, r)
  {
    forall succeeded ensures SomeOwn(a, r, succeeded) == SomeOwn(b, r, succeeded) {
      if i :| 0 <= i < |a| && a[i].runId == r && (a[i].status == ScopeSucceeded) == succeeded {
        assert b[i].runId == r && (b[i].status == ScopeSucceeded) == succeeded;
      }
      if i :| 0 <= i < |b| && b[i].runId == r && (b[i].status == ScopeSucceeded) == succeeded {
        assert a[i].runId == r && (a[i].status == ScopeSucceeded) == succeeded;
      }
    }
  }

  // Of the first n runs, the silent and unlocked ones have expired; all others are untouched.
  ghost predicate ExpiredAmong(db: Tables, after: Tables, n: nat, cutoff: int, locked: set<nat>, now: int) {
    && SameOwners(db, after)
    && (forall r :: 0 <= r < |db.runs| ==>
          if r < n && Silent(db.runs[r], cutoff) && r !in locked then Expires(db, after, r, now)
          else Untouched(db, after, r))
  }

  lemma OneMoreRun(db: Tables, earlier: Tables, n: nat, cutoff: int, locked: set<nat>, now: int)
    requires n < |db.runs| && ExpiredAmong(db, earlier, n, cutoff, locked, now)
    ensures ExpiredAmong(db, RecoverIfExpired(earlier, db.runs[n], n, cutoff, locked, now), n + 1, cutoff, locked, now)
  {
    var after := RecoverIfExpired(earlier, db.runs[n], n, cutoff, locked, now);
    assert Untouched(db, earlier, n);
    if Silent(db.runs[n], cutoff) && n !in locked {
      OneRunExpires(earlier, n, now);
      forall r | 0 <= r < |db.runs| && r != n && r < n && Silent(db.runs[r], cutoff) && r !in locked
        ensures Expires(db, after, r, now)
      {
        StaysExpired(db, earlier, after, r, now);
      }
    }
  }

  // Recovery ends exactly the running, unlocked runs whose last heartbeat lies before the cutoff, failing
  // their active scopes; every other run keeps its row and its scope rows.
  lemma RecoveryMeans(db: Tables, cutoff: int, locked: set<nat>, now: int)
    ensures var after := RecoverExpired(db, cutoff, locked, now);
            && SameOwners(db, after)
            && (forall r :: 0 <= r < |db.runs| ==>
                  if Silent(db.runs[r], cutoff) && r !in locked then Expires(db, after, r, now)
                  else Untouched(db, after, r))
  {
    FirstRunsExpire(db, |db.runs|, cutoff, locked, now);
  }

  lemma FirstRunsExpire(db: Tables, n: nat, cutoff: int, locked: set<nat>, now: int)
    requires n <= |db.runs|
    ensures ExpiredAmong(db, RecoverFirst(db, db.runs, n, cutoff, locked, now), n, cutoff, locked, now)
  {
    var step := RecoverStep(db.runs, cutoff, locked, now);
    var holds := (after: Tables, i: nat) => ExpiredAmong(db, after, i, cutoff, locked, now);
    forall earlier, i: nat | i < n && holds(earlier, i) ensures holds(step(earlier, i), i + 1) {
      OneMoreRun(db, earlier, i, cutoff, locked, now);
    }
    IterateKeeps(step, db, n, holds);
  }

  // A run that beat at or after the cutoff survives recovery with all its scopes, as does one claimed then.
  lemma LiveRunsSurvive(db: Tables, r: nat, beat: int, cutoff: int, locked: set<nat>, now: int)
    requires r < |db.runs| && cutoff <= beat
    ensures Heartbeat(db, r, beat).Ok? <==> db.runs[r].status == RunRunning
    ensures Heartbeat(db, r, beat).Ok? ==>
              var live := Heartbeat(db, r, beat).value;
              var after := RecoverExpired(live, cutoff, locked, now);
              && live == db.(runs := db.runs[r := db.runs[r].(heartbeatAt := Some(beat))])
              && SameOwners(live, after) && Untouched(live, after, r)
    ensures ClaimNext(db, locked, beat).1 == Some(r) ==>
              var live := ClaimNext(db, locked, beat).0;
              var after := RecoverExpired(live, cutoff, {}, now);
              && live == db.(runs := db.runs[r := db.runs[r].(status := RunRunning, startedAt := Some(beat), heartbeatAt := Some(beat))])
              && SameOwners(live, after) && Untouched(live, after, r)
  {
    if Heartbeat(db, r, beat).Ok? {
      RecoveryMeans(Heartbeat(db, r, beat).value, cutoff, locked, now);
    }
    if ClaimNext(db, locked, beat).1 == Some(r) {
      RecoveryMeans(ClaimNext(db, locked, beat).0, cutoff, {}, now);
    }
  }
}
