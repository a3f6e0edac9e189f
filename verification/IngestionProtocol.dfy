/** Every interleaving of workers, creators and lease recovery over the ingestion tables:
    `app/application/ingestion/orchestrator.py` and `app/application/ingestion/run_manager.py`.

    One action is one transaction; any action may happen at any time, so a worker whose lease was
    recovered is simply one that keeps acting. */
module IngestionProtocol {
  import opened Common
  import opened IngestionTables

  // `rejected` are the scopes whose claim raised a conflict and whose handler has yet to run.
  datatype System = System(db: Tables, rejected: set<nat>)

  const EMPTY_SYSTEM := System(Tables([], []), {})

  datatype Action =
    | ClaimRunAction(locked: set<nat>, now: int)
    | BeatAction(run: nat, now: int)
    | BeginAction(scope: nat, now: int)
    | SucceedAction(scope: nat, counters: Counters, now: int)
    | FailAction(scope: nat, now: int)
    | FailRejectedAction(scope: nat, now: int)
    | FinishAction(run: nat, now: int)
    | RecoverAction(cutoff: int, locked: set<nat>, now: int)
    | SubmitAction(request: Request)

  // A worker touches only scopes of runs that some worker has claimed.
  predicate Claimed(db: Tables, s: nat) {
    && s < |db.scopes| && db.scopes[s].runId < |db.runs|
    && !db.runs[db.scopes[s].runId].status.RunPending?
  }

  predicate IsManual(db: Tables, s: nat) {
    s < |db.scopes| && db.scopes[s].runId < |db.runs| && db.runs[db.scopes[s].runId].trigger.Manual?
  }

  // Scope s is active and wants dates scope g of another run wants too.
  predicate Contends(db: Tables, s: int, g: int) {
    && 0 <= s < |db.scopes| && 0 <= g < |db.scopes|
    && ActiveScope(db.scopes[s].status) && Conflicts(db.scopes[s], db.scopes[g])
  }

  function Kept(before: Tables, r: Result<Tables, Failure>): Tables {
    if r.Ok? then r.value else before
  }

  // A transaction that raises leaves the tables alone.
  function Do(sys: System, a: Action): System {
    var db := sys.db;
    match a
    case ClaimRunAction(locked, now) => sys.(db := ClaimNext(db, locked, now).0)
    case BeatAction(r, now) => sys.(db := Kept(db, Heartbeat(db, r, now)))
    case BeginAction(s, now) =>
      if !Claimed(db, s) then sys
      else
        var r := BeginScope(db, s, now);
        if r == Err(ScopeConflict) then sys.(rejected := sys.rejected + {s}) else sys.(db := Kept(db, r))
    case SucceedAction(s, counters, now) =>
      if !Claimed(db, s) then sys
      else sys.(db := Kept(db, Complete(db, s, ScopeSucceeded, now, counters, None)))
    case FailAction(s, now) =>
      if !Claimed(db, s) then sys else sys.(db := FailScope(db, s, now, OtherError))
    case FailRejectedAction(s, now) =>
      if !Claimed(db, s) || s !in sys.rejected then sys
      else System(FailScope(db, s, now, OverlapRejected), sys.rejected - {s})
    case FinishAction(r, now) => sys.(db := Kept(db, FinishRun(db, r, now)))
    case RecoverAction(cutoff, locked, now) => sys.(db := RecoverExpired(db, cutoff, locked, now))
    case SubmitAction(q) => if ProperRequest(q) then sys.(db := Kept(db, Create(db, q))) else sys
  }

  function DoAll(sys: System, actions: seq<Action>): System
    decreases |actions|
  {
    if actions == [] then sys else DoAll(Do(sys, actions[0]), actions[1..])
  }

  // --------------------------------------------------------------------------------------------
  // Invariant
  // --------------------------------------------------------------------------------------------

  // The declared life cycle of a run, and its counters once it is over.
  ghost predicate RunOk(db: Tables, r: int)
    requires 0 <= r < |db.runs|
  {
    var run := db.runs[r];
    && (run.status.RunPending? ==> run.startedAt.None? && run.finishedAt.None?)
    && (run.status.RunRunning? ==> run.startedAt.Some? && run.finishedAt.None? && run.heartbeatAt.Some?)
    && (TerminalRun(run.status) ==>
          run.startedAt.Some? && run.finishedAt.Some? && run.counters == ScopeTotals(db.scopes, r))
  }

  // A scope belongs to a run; it waits while the run does and is over once the run is.
  ghost predicate ScopeOk(db: Tables, s: int)
    requires 0 <= s < |db.scopes|
  {
    var scope := db.scopes[s];
    && scope.runId < |db.runs|
    && scope.start <= scope.end
    && scope.counters.NonNegative()
    && (db.runs[scope.runId].status.RunPending? ==> scope.status.ScopePending?)
    && (TerminalRun(db.runs[scope.runId].status) ==> !ActiveScope(scope.status))
  }

  predicate BothRunning(a: Scope, b: Scope) {
    a.status.ScopeRunning? && b.status.ScopeRunning?
  }

  // No two running scopes of different runs want the same dates of the same series.
  ghost predicate Exclusive(scopes: seq<Scope>) {
    forall i, j :: 0 <= i < |scopes| && 0 <= j < |scopes| && BothRunning(scopes[i], scopes[j]) ==>
      !Conflicts(scopes[i], scopes[j])
  }

  ghost predicate Inv(db: Tables) {
    && (forall r :: 0 <= r < |db.runs| ==> RunOk(db, r))
    && (forall s :: 0 <= s < |db.scopes| ==> ScopeOk(db, s))
    && Exclusive(db.scopes)
  }

  // What a step leaves as it was: finished rows entirely, and what every run and scope asked for.
  ghost predicate Absorbs(db: Tables, next: Tables) {
    && |db.runs| <= |next.runs| && |db.scopes| <= |next.scopes|
    && (forall r :: 0 <= r < |db.runs| && TerminalRun(db.runs[r].status) ==> next.runs[r] == db.runs[r])
    && (forall s :: 0 <= s < |db.scopes| && !ActiveScope(db.scopes[s].status) ==> next.scopes[s] == db.scopes[s])
    && (forall s :: 0 <= s < |db.scopes| ==> SameScope(db.scopes[s], next.scopes[s]))
    && (forall r :: 0 <= r < |db.runs| ==> SameRun(db.runs[r], next.runs[r]))
    && (forall s :: |db.scopes| <= s < |next.scopes| ==> next.scopes[s].runId >= |db.runs|)
  }

  predicate SameScope(a: Scope, b: Scope) {
    (a.runId, a.kind, a.series, a.start, a.end) == (b.runId, b.kind, b.series, b.start, b.end)
  }

  predicate SameRun(a: Run, b: Run) {
    (a.trigger, a.dataset, a.start, a.end, a.requestedAt) == (b.trigger, b.dataset, b.start, b.end, b.requestedAt)
  }

  lemma {:induction false} TotalsDependOnOwnScopes(a: seq<Scope>, b: seq<Scope>, r: nat)
    requires |a| == |b|
    requires forall i :: 0 <= i < |a| ==> a[i] == b[i] || (a[i].runId != r && b[i].runId != r)
    ensures ScopeTotals(a, r) == ScopeTotals(b, r)
  {
    if a != [] {
      TotalsDependOnOwnScopes(a[..|a| - 1], b[..|b| - 1], r);
    }
  }

  lemma {:induction false} TotalsIgnoreOthers(a: seq<Scope>, more: seq<Scope>, r: nat)
    requires forall i :: 0 <= i < |more| ==> more[i].runId != r
    ensures ScopeTotals(a + more, r) == ScopeTotals(a, r)
    decreases |more|
  {
    if more == [] {
      assert a + more == a;
    } else {
      assert (a + more)[..|a + more| - 1] == a + more[..|more| - 1];
      TotalsIgnoreOthers(a, more[..|more| - 1], r);
    }
  }

  // --------------------------------------------------------------------------------------------
  // Transactions keep the invariant and absorb
  // --------------------------------------------------------------------------------------------

  lemma ClaimNextKeeps(db: Tables, locked: set<nat>, now: int)
    requires Inv(db)
    ensures var next := ClaimNext(db, locked, now).0; Inv(next) && Absorbs(db, next)
  {
    var claimed := NextRunAmong(db.runs, locked, |db.runs|);
    assert db.runs[..|db.runs|] == db.runs;
    if claimed.Some? {
      assert RunOk(db, claimed.value);
      RunChangeKeeps(db, claimed.value, ClaimRun(db.runs[claimed.value], now));
    }
  }

  // Rewriting an unfinished run as a running one.
  lemma RunChangeKeeps(db: Tables, r: nat, run: Run)
    requires Inv(db) && r < |db.runs| && !TerminalRun(db.runs[r].status)
    requires SameRun(db.runs[r], run)
    requires run.status.RunRunning? && run.startedAt.Some? && run.finishedAt.None? && run.heartbeatAt.Some?
    ensures Inv(WithRun(db, r, run)) && Absorbs(db, WithRun(db, r, run))
  {
    var next := WithRun(db, r, run);
    forall q | 0 <= q < |next.runs| ensures RunOk(next, q) {
      assert RunOk(db, q);
    }
    forall s | 0 <= s < |next.scopes| ensures ScopeOk(next, s) {
      assert ScopeOk(db, s);
    }
  }

  lemma HeartbeatKeeps(db: Tables, r: nat, now: int)
    requires Inv(db)
    ensures var next := Kept(db, Heartbeat(db, r, now)); Inv(next) && Absorbs(db, next)
  {
    if Heartbeat(db, r, now).Ok? {
      assert RunOk(db, r);
      RunChangeKeeps(db, r, db.runs[r].(heartbeatAt := Some(now)));
    }
  }

  // Rewriting an active scope of a claimed run; a new running scope must conflict with no other.
  lemma ScopeChangeKeeps(db: Tables, s: nat, scope: Scope)
    requires Inv(db) && Claimed(db, s) && ActiveScope(db.scopes[s].status)
    requires SameScope(db.scopes[s], scope) && scope.counters.NonNegative() && !scope.status.ScopePending?
    requires scope.status.ScopeRunning? ==> !Overlaps(db.scopes, db.scopes[s])
    ensures Inv(WithScope(db, s, scope)) && Absorbs(db, WithScope(db, s, scope))
  {
    var next := WithScope(db, s, scope);
    assert ScopeOk(db, s);
    forall q | 0 <= q < |next.runs| ensures RunOk(next, q) {
      assert RunOk(db, q);
      if q != scope.runId {
        TotalsDependOnOwnScopes(db.scopes, next.scopes, q);
      }
    }
    forall i | 0 <= i < |next.scopes| ensures ScopeOk(next, i) {
      assert ScopeOk(db, i);
    }
  }

  lemma CompleteKeeps(db: Tables, s: nat, status: ScopeStatus, now: int, counters: Counters, error: Option<ErrorCode>)
    requires Inv(db) && Claimed(db, s)
    ensures var next := Kept(db, Complete(db, s, status, now, counters, error)); Inv(next) && Absorbs(db, next)
  {
    if Complete(db, s, status, now, counters, error).Ok? {
      ScopeChangeKeeps(db, s, Completed(db.scopes[s], status, now, counters, error));
    }
  }

  lemma BeginKeeps(db: Tables, s: nat, now: int)
    requires Inv(db) && Claimed(db, s)
    ensures var next := Kept(db, BeginScope(db, s, now)); Inv(next) && Absorbs(db, next)
  {
    match ClaimScope(db, s)
    case Acquired =>
      if Start(db, s, now).Ok? {
        assert ScopeOk(db, s);
        ScopeChangeKeeps(db, s, db.scopes[s].(status := ScopeRunning, startedAt := Some(now)));
      }
    case Skip => CompleteKeeps(db, s, ScopeSkipped, now, NO_COUNTS, Some(OverlapSkipped));
    case Reject =>
  }

  lemma FailScopeKeeps(db: Tables, s: nat, now: int, error: ErrorCode)
    requires Inv(db) && Claimed(db, s)
    ensures Inv(FailScope(db, s, now, error)) && Absorbs(db, FailScope(db, s, now, error))
  {
    CompleteKeeps(db, s, ScopeFailed, now, ONE_FAILURE, Some(error));
  }

  // Finalizing a running run whose scopes are all over.
  lemma FinalizeKeeps(db: Tables, r: nat, status: RunStatus, now: int, error: Option<ErrorCode>)
    requires Inv(db)
    requires forall s :: 0 <= s < |db.scopes| && db.scopes[s].runId == r ==> !ActiveScope(db.scopes[s].status)
    ensures var next := Kept(db, Finalize(db, r, status, now, error)); Inv(next) && Absorbs(db, next)
  {
    var next := Kept(db, Finalize(db, r, status, now, error));
    forall q | 0 <= q < |next.runs| ensures RunOk(next, q) {
      assert RunOk(db, q);
    }
    forall s | 0 <= s < |next.scopes| ensures ScopeOk(next, s) {
      assert ScopeOk(db, s);
    }
  }

  lemma DerivedOnlyWhenOver(scopes: seq<Scope>, r: nat)
    requires DeriveStatus(scopes, r).Ok?
    ensures forall s :: 0 <= s < |scopes| && scopes[s].runId == r ==> !ActiveScope(scopes[s].status)
  {
  }

  lemma FinishKeeps(db: Tables, r: nat, now: int)
    requires Inv(db)
    ensures var next := Kept(db, FinishRun(db, r, now)); Inv(next) && Absorbs(db, next)
  {
    if DeriveStatus(db.scopes, r).Ok? {
      DerivedOnlyWhenOver(db.scopes, r);
      FinalizeKeeps(db, r, DeriveStatus(db.scopes, r).value, now, None);
    }
  }

  lemma FailLeasedKeeps(db: Tables, r: nat, now: int)
    requires Inv(db) && r < |db.runs| && db.runs[r].status.RunRunning?
    ensures var next := db.(scopes := FailLeased(db.scopes, r, |db.scopes|, now)); Inv(next) && Absorbs(db, next)
  {
    var next := db.(scopes := FailLeased(db.scopes, r, |db.scopes|, now));
    forall q | 0 <= q < |next.runs| ensures RunOk(next, q) {
      assert RunOk(db, q);
      if q != r {
        TotalsDependOnOwnScopes(db.scopes, next.scopes, q);
      }
    }
    forall i | 0 <= i < |next.scopes| ensures ScopeOk(next, i) {
      assert ScopeOk(db, i);
    }
  }

  lemma AbsorbsTransitively(a: Tables, b: Tables, c: Tables)
    requires Absorbs(a, b) && Absorbs(b, c)
    ensures Absorbs(a, c)
  {
    forall s | 0 <= s < |a.scopes| ensures SameScope(a.scopes[s], c.scopes[s]) {
      assert SameScope(a.scopes[s], b.scopes[s]) && SameScope(b.scopes[s], c.scopes[s]);
    }
    forall r | 0 <= r < |a.runs| ensures SameRun(a.runs[r], c.runs[r]) {
      assert SameRun(a.runs[r], b.runs[r]) && SameRun(b.runs[r], c.runs[r]);
    }
    forall s | |a.scopes| <= s < |c.scopes| ensures c.scopes[s].runId >= |a.runs| {
      assert s < |b.scopes| ==> SameScope(b.scopes[s], c.scopes[s]);
    }
  }

  // What recovering one run does: it ends a running run and touches no other.
  ghost predicate RunRecovered(db: Tables, r: nat, next: Tables) {
    && Inv(next) && Absorbs(db, next)
    && |next.runs| == |db.runs|
    && (forall q :: 0 <= q < |db.runs| && q != r ==> next.runs[q] == db.runs[q])
    && (r < |db.runs| && db.runs[r].status.RunRunning? ==> LeaseEnded(next.runs[r]))
  }

  predicate LeaseEnded(run: Run) {
    TerminalRun(run.status) && run.error == Some(LeaseExpired)
  }

  lemma RecoverRunKeeps(db: Tables, r: nat, now: int)
    requires Inv(db)
    ensures RunRecovered(db, r, RecoverRun(db, r, now))
  {
    if r < |db.runs| && db.runs[r].status.RunRunning? {
      var failed := db.(scopes := FailLeased(db.scopes, r, |db.scopes|, now));
      FailLeasedKeeps(db, r, now);
      NoneActive(db.scopes, r, now);
      var status := DeriveStatus(failed.scopes, r).value;
      DerivedOnlyWhenOver(failed.scopes, r);
      FinalizeKeeps(failed, r, status, now, Some(LeaseExpired));
      AbsorbsTransitively(db, failed, RecoverRun(db, r, now));
    }
  }

  // The first n runs recovered: the rest untouched, and every selected one over.
  ghost predicate FirstRecovered(db: Tables, n: nat, cutoff: int, locked: set<nat>, next: Tables) {
    && Inv(next) && Absorbs(db, next)
    && |next.runs| == |db.runs|
    && (forall q :: n <= q < |db.runs| ==> next.runs[q] == db.runs[q])
    && (forall q :: 0 <= q < |db.runs| && q < n && Expired(db.runs[q], cutoff) && q !in locked ==>
          LeaseEnded(next.runs[q]))
  }

  lemma OneMoreRecovered(db: Tables, n: nat, cutoff: int, locked: set<nat>, earlier: Tables, now: int)
    requires FirstRecovered(db, n, cutoff, locked, earlier) && n < |db.runs|
    ensures FirstRecovered(db, n + 1, cutoff, locked, RecoverIfExpired(earlier, db.runs[n], n, cutoff, locked, now))
  {
    if Expired(db.runs[n], cutoff) && n !in locked {
      RecoverRunKeeps(earlier, n, now);
      AbsorbsTransitively(db, earlier, RecoverRun(earlier, n, now));
    }
  }

  lemma NoneRecovered(db: Tables, cutoff: int, locked: set<nat>)
    requires Inv(db)
    ensures FirstRecovered(db, 0, cutoff, locked, db)
  {
  }

  lemma RecoverFirstKeeps(db: Tables, n: nat, cutoff: int, locked: set<nat>, now: int)
    requires Inv(db) && n <= |db.runs|
    ensures FirstRecovered(db, n, cutoff, locked, RecoverFirst(db, db.runs, n, cutoff, locked, now))
  {
    var step := RecoverStep(db.runs, cutoff, locked, now);
    var holds := (next: Tables, i: nat) => FirstRecovered(db, i, cutoff, locked, next);
    NoneRecovered(db, cutoff, locked);
    forall next, i: nat | i < n && holds(next, i) ensures holds(step(next, i), i + 1) {
      OneMoreRecovered(db, i, cutoff, locked, next, now);
    }
    IterateKeeps(step, db, n, holds);
  }

  lemma CreateKeeps(db: Tables, q: Request)
    requires Inv(db) && ProperRequest(q)
    ensures var next := Kept(db, Create(db, q)); Inv(next) && Absorbs(db, next)
  {
    if Create(db, q).Ok? {
      var next := Create(db, q).value;
      var added := NewScopes(q, |db.runs|, |q.planned|);
      forall r | 0 <= r < |next.runs| ensures RunOk(next, r) {
        if r < |db.runs| {
          assert RunOk(db, r);
          TotalsIgnoreOthers(db.scopes, added, r);
        }
      }
      forall s | 0 <= s < |next.scopes| ensures ScopeOk(next, s) {
        if s < |db.scopes| {
          assert ScopeOk(db, s);
        } else {
          assert next.scopes[s] == added[s - |db.scopes|];
        }
      }
    }
  }

  predicate ActsOn(a: Action, s: nat) {
    match a
    case BeginAction(t, _) => t == s
    case SucceedAction(t, _, _) => t == s
    case FailAction(t, _) => t == s
    case FailRejectedAction(t, _) => t == s
    case _ => false
  }

  // The transactions of the worker that executes scope s.
  lemma ScopeActionKeeps(sys: System, a: Action, s: nat)
    requires Inv(sys.db) && ActsOn(a, s)
    ensures Inv(Do(sys, a).db) && Absorbs(sys.db, Do(sys, a).db)
  {
    var db := sys.db;
    if Claimed(db, s) {
      match a
      case BeginAction(_, now) => BeginKeeps(db, s, now);
      case SucceedAction(_, counters, now) => CompleteKeeps(db, s, ScopeSucceeded, now, counters, None);
      case FailAction(_, now) => FailScopeKeeps(db, s, now, OtherError);
      case FailRejectedAction(_, now) => FailScopeKeeps(db, s, now, OverlapRejected);
    }
  }

  lemma DoKeeps(sys: System, a: Action)
    requires Inv(sys.db)
    ensures Inv(Do(sys, a).db) && Absorbs(sys.db, Do(sys, a).db)
  {
    var db := sys.db;
    match a
    case ClaimRunAction(locked, now) => ClaimNextKeeps(db, locked, now);
    case BeatAction(r, now) => HeartbeatKeeps(db, r, now);
    case BeginAction(s, now) => ScopeActionKeeps(sys, a, s);
    case SucceedAction(s, counters, now) => ScopeActionKeeps(sys, a, s);
    case FailAction(s, now) => ScopeActionKeeps(sys, a, s);
    case FailRejectedAction(s, now) => ScopeActionKeeps(sys, a, s);
    case FinishAction(r, now) => FinishKeeps(db, r, now);
    case RecoverAction(cutoff, locked, now) => RecoverFirstKeeps(db, |db.runs|, cutoff, locked, now);
    case SubmitAction(q) => if ProperRequest(q) { CreateKeeps(db, q); }
  }

  lemma {:induction false} DoAllKeeps(sys: System, actions: seq<Action>)
    requires Inv(sys.db)
    ensures Inv(DoAll(sys, actions).db) && Absorbs(sys.db, DoAll(sys, actions).db)
    decreases |actions|
  {
    if actions != [] {
      var next := Do(sys, actions[0]);
      DoKeeps(sys, actions[0]);
      DoAllKeeps(next, actions[1..]);
      AbsorbsTransitively(sys.db, next.db, DoAll(next, actions[1..]).db);
    }
  }

  // --------------------------------------------------------------------------------------------
  // Main results
  // --------------------------------------------------------------------------------------------

  // In every reachable state, running scopes of different runs never want the same dates.
  lemma ScopesMutuallyExclude(actions: seq<Action>, i: nat, j: nat)
    requires var scopes := DoAll(EMPTY_SYSTEM, actions).db.scopes;
             && i < |scopes| && j < |scopes|
             && scopes[i].status.ScopeRunning? && scopes[j].status.ScopeRunning?
    ensures var scopes := DoAll(EMPTY_SYSTEM, actions).db.scopes;
            !Conflicts(scopes[i], scopes[j])
  {
    DoAllKeeps(EMPTY_SYSTEM, actions);
  }

  // A terminal run, all its scopes and their number are fixed for good, whatever happens later, and
  // its six counters are the sums over those scopes.
  lemma TerminalRunsAbsorb(sys: System, actions: seq<Action>, r: nat)
    requires Inv(sys.db) && r < |sys.db.runs| && TerminalRun(sys.db.runs[r].status)
    ensures var later := DoAll(sys, actions).db;
            && RowsKept(sys.db, later, r)
            && later.runs[r].counters == ScopeTotals(later.scopes, r)
            && forall s :: 0 <= s < |later.scopes| && later.scopes[s].runId == r ==> !ActiveScope(later.scopes[s].status)
  {
    DoAllKeeps(sys, actions);
    var later := DoAll(sys, actions).db;
    assert RunOk(later, r);
    forall s | 0 <= s < |later.scopes| && later.scopes[s].runId == r ensures !ActiveScope(later.scopes[s].status) {
      assert ScopeOk(later, s);
    }
    forall s | 0 <= s < |sys.db.scopes| && sys.db.scopes[s].runId == r ensures later.scopes[s] == sys.db.scopes[s] {
      assert ScopeOk(sys.db, s);
    }
  }

  // A run's row and scope rows are the same ones in both tables.
  ghost predicate RowsKept(db: Tables, later: Tables, r: nat) {
    && r < |db.runs| <= |later.runs| && |db.scopes| <= |later.scopes|
    && later.runs[r] == db.runs[r]
    && (forall s :: 0 <= s < |db.scopes| && db.scopes[s].runId == r ==> later.scopes[s] == db.scopes[s])
    && (forall s :: |db.scopes| <= s < |later.scopes| ==> later.scopes[s].runId != r)
  }

  // Recovery ends every expired run it is not locked out of, and after that nothing its old worker
  // does, nor anyone else, changes any of the run's rows.
  lemma RecoveredWorkerIsHarmless(sys: System, cutoff: int, locked: set<nat>, now: int, r: nat, actions: seq<Action>)
    requires Inv(sys.db) && r < |sys.db.runs| && Expired(sys.db.runs[r], cutoff) && r !in locked
    ensures var recovered := Do(sys, RecoverAction(cutoff, locked, now));
            var later := DoAll(recovered, actions).db;
            && r < |recovered.db.runs| && LeaseEnded(recovered.db.runs[r])
            && RowsKept(recovered.db, later, r)
  {
    RecoverFirstKeeps(sys.db, |sys.db.runs|, cutoff, locked, now);
    var recovered := Do(sys, RecoverAction(cutoff, locked, now));
    TerminalRunsAbsorb(recovered, actions, r);
  }

  // The status a finished run gets: succeeded when every scope did, failed when some scope did not
  // and none did, partial when both kinds occur; none while a scope is still active.
  lemma DerivedStatusMeans(scopes: seq<Scope>, r: nat)
    ensures var own := set i | 0 <= i < |scopes| && scopes[i].runId == r;
            var good := set i | i in own && scopes[i].status.ScopeSucceeded?;
            match DeriveStatus(scopes, r)
            case Err(_) => exists i :: i in own && ActiveScope(scopes[i].status)
            case Ok(status) =>
              && (forall i :: i in own ==> !ActiveScope(scopes[i].status))
              && (status.RunSucceeded? <==> good == own)
              && (status.RunFailed? <==> good == {} && own != {})
              && (status.RunPartial? <==> {} < good < own)
  {
    var own := set i | 0 <= i < |scopes| && scopes[i].runId == r;
    var good := set i | i in own && scopes[i].status.ScopeSucceeded?;
    assert HasStatus(scopes, r, ScopeSucceeded) <==> good != {} by {
      if HasStatus(scopes, r, ScopeSucceeded) {
        var i :| 0 <= i < |scopes| && scopes[i].runId == r && scopes[i].status.ScopeSucceeded?;
        assert i in good;
      }
    }
    var other := HasStatus(scopes, r, ScopeFailed) || HasStatus(scopes, r, ScopeSkipped) ||
                 HasStatus(scopes, r, ScopePending) || HasStatus(scopes, r, ScopeRunning);
    assert other <==> good < own by {
      if good < own {
        var i :| i in own && i !in good;
        assert !scopes[i].status.ScopeSucceeded?;
      }
      assert forall i :: i in own && !scopes[i].status.ScopeSucceeded? ==> i !in good;
    }
  }
}
