/** Run and scope rows and the transactions that change them: `app/repositories/ingestion_runs.py`,
    `app/application/ingestion/run_manager.py` and `app/application/ingestion/scope_coordinator.py`.

    A row's identifier is its position in its table.  Every transition is a function on the tables;
    the class at the end performs each of them in place. */
module IngestionTables {
  import opened Common

  datatype Trigger = Scheduled | Manual | Backfill | Retry

  datatype RunStatus = RunPending | RunRunning | RunSucceeded | RunPartial | RunFailed

  datatype ScopeStatus = ScopePending | ScopeRunning | ScopeSucceeded | ScopeFailed | ScopeSkipped

  datatype ScopeKind = Fx | PolicyRate

  // Why a row ended: an overlap seen at claim time, an expired lease, or anything else.
  datatype ErrorCode = OverlapSkipped | OverlapRejected | LeaseExpired | OtherError

  datatype Counters = Counters(
    fetchedCount: int, insertedCount: int, unchangedCount: int, revisedCount: int, quarantinedCount: int,
    failedCount: int)
  {
    predicate NonNegative() {
      && fetchedCount >= 0 && insertedCount >= 0 && unchangedCount >= 0
      && revisedCount >= 0 && quarantinedCount >= 0 && failedCount >= 0
    }

    function Plus(c: Counters): Counters {
      Counters(fetchedCount + c.fetchedCount, insertedCount + c.insertedCount, unchangedCount + c.unchangedCount,
               revisedCount + c.revisedCount, quarantinedCount + c.quarantinedCount, failedCount + c.failedCount)
    }
  }

  const NO_COUNTS := Counters(0, 0, 0, 0, 0, 0)
  const ONE_FAILURE := Counters(0, 0, 0, 0, 0, 1)

  datatype Run = Run(
    trigger: Trigger, dataset: nat, start: int, end: int, status: RunStatus, requestedAt: int,
    startedAt: Option<int>, finishedAt: Option<int>, heartbeatAt: Option<int>, counters: Counters,
    error: Option<ErrorCode>)

  datatype Scope = Scope(
    runId: nat, kind: ScopeKind, series: nat, start: int, end: int, status: ScopeStatus,
    startedAt: Option<int>, finishedAt: Option<int>, counters: Counters, error: Option<ErrorCode>)

  datatype Tables = Tables(runs: seq<Run>, scopes: seq<Scope>)

  datatype Failure =
    | RunNotRunning | InvalidTerminalStatus | ScopeNotPending | ScopeNotActive | NegativeCounter
    | ActiveScopes | ScopeConflict
    | CommandInvalid | DatasetNotUsable | BadParent | NothingPlanned

  predicate ActiveScope(status: ScopeStatus) {
    status.ScopePending? || status.ScopeRunning?
  }

  predicate TerminalRun(status: RunStatus) {
    status.RunSucceeded? || status.RunPartial? || status.RunFailed?
  }

  // Two scopes of different runs that want the same dates of the same series.
  predicate Conflicts(a: Scope, b: Scope) {
    && a.runId != b.runId
    && a.kind == b.kind && a.series == b.series
    && a.start <= b.end && b.start <= a.end
  }

  // --------------------------------------------------------------------------------------------
  // Transitions of one row
  // --------------------------------------------------------------------------------------------

  function WithRun(db: Tables, r: nat, run: Run): Tables
    requires r < |db.runs|
  {
    db.(runs := db.runs[r := run])
  }

  function WithScope(db: Tables, s: nat, scope: Scope): Tables
    requires s < |db.scopes|
  {
    db.(scopes := db.scopes[s := scope])
  }

  function ClaimRun(run: Run, now: int): Run {
    run.(status := RunRunning, startedAt := Some(now), heartbeatAt := Some(now))
  }

  // The pending run first in (requestedAt, id) order among those no other transaction has locked.
  predicate IsNextRun(runs: seq<Run>, locked: set<nat>, r: nat) {
    && r < |runs| && runs[r].status.RunPending? && r !in locked
    && forall q :: 0 <= q < |runs| && runs[q].status.RunPending? && q !in locked ==>
         runs[r].requestedAt < runs[q].requestedAt || (runs[r].requestedAt == runs[q].requestedAt && r <= q)
  }

  function NextRunAmong(runs: seq<Run>, locked: set<nat>, n: nat): (r: Option<nat>)
    requires n <= |runs|
    ensures r.Some? ==> r.value < n && IsNextRun(runs[..n], locked, r.value)
    ensures r.None? ==> forall q :: 0 <= q < n ==> !runs[q].status.RunPending? || q in locked
  {
    if n == 0 then None
    else
      var best := NextRunAmong(runs, locked, n - 1);
      if !runs[n - 1].status.RunPending? || n - 1 in locked then best
      else if best.None? || runs[n - 1].requestedAt < runs[best.value].requestedAt then Some(n - 1)
      else best
  }

  function ClaimNext(db: Tables, locked: set<nat>, now: int): (Tables, Option<nat>) {
    var next := NextRunAmong(db.runs, locked, |db.runs|);
    match next
    case None => (db, None)
    case Some(r) => (WithRun(db, r, ClaimRun(db.runs[r], now)), Some(r))
  }

  function Heartbeat(db: Tables, r: nat, now: int): Result<Tables, Failure> {
    if r >= |db.runs| || !db.runs[r].status.RunRunning? then Err(RunNotRunning)
    else Ok(WithRun(db, r, db.runs[r].(heartbeatAt := Some(now))))
  }

  function ScopeTotals(scopes: seq<Scope>, r: nat): Counters {
    if scopes == [] then NO_COUNTS
    else
      var last := scopes[|scopes| - 1];
      var before := ScopeTotals(scopes[..|scopes| - 1], r);
      if last.runId == r then before.Plus(last.counters) else before
  }

  function Finalize(db: Tables, r: nat, status: RunStatus, now: int, error: Option<ErrorCode>): Result<Tables, Failure> {
    if !TerminalRun(status) then Err(InvalidTerminalStatus)
    else if r >= |db.runs| || !db.runs[r].status.RunRunning? then Err(RunNotRunning)
    else
      Ok(WithRun(db, r, db.runs[r].(status := status, finishedAt := Some(now), heartbeatAt := Some(now),
                                    counters := ScopeTotals(db.scopes, r), error := error)))
  }

  function Start(db: Tables, s: nat, now: int): Result<Tables, Failure> {
    if s >= |db.scopes| || !db.scopes[s].status.ScopePending? then Err(ScopeNotPending)
    else Ok(WithScope(db, s, db.scopes[s].(status := ScopeRunning, startedAt := Some(now))))
  }

  function Completed(scope: Scope, status: ScopeStatus, now: int, counters: Counters, error: Option<ErrorCode>): Scope {
    scope.(status := status, finishedAt := Some(now), counters := counters, error := error)
  }

  function Complete(db: Tables, s: nat, status: ScopeStatus, now: int, counters: Counters, error: Option<ErrorCode>)
    : Result<Tables, Failure>
  {
    if ActiveScope(status) then Err(InvalidTerminalStatus)
    else if s >= |db.scopes| || !ActiveScope(db.scopes[s].status) then Err(ScopeNotActive)
    else if !counters.NonNegative() then Err(NegativeCounter)
    else Ok(WithScope(db, s, Completed(db.scopes[s], status, now, counters, error)))
  }

  // --------------------------------------------------------------------------------------------
  // Claiming a scope
  // --------------------------------------------------------------------------------------------

  // `overlaps`: an active scope of another run intersects the wanted range.  A probe stands for the
  // scope that wants it; creation probes with a run that owns no scope.
  predicate Overlaps(scopes: seq<Scope>, probe: Scope) {
    exists i :: 0 <= i < |scopes| && ActiveScope(scopes[i].status) && Conflicts(scopes[i], probe)
  }

  datatype Claim = Acquired | Skip | Reject

  // Manual runs reject a conflict, all others skip it.
  function ClaimScope(db: Tables, s: nat): Claim
    requires s < |db.scopes| && db.scopes[s].runId < |db.runs|
  {
    if !Overlaps(db.scopes, db.scopes[s]) then Acquired
    else if db.runs[db.scopes[s].runId].trigger.Manual? then Reject
    else Skip
  }

  // The first transaction of `_execute_scope`.
  function BeginScope(db: Tables, s: nat, now: int): Result<Tables, Failure>
    requires s < |db.scopes| && db.scopes[s].runId < |db.runs|
  {
    match ClaimScope(db, s)
    case Acquired => Start(db, s, now)
    case Skip => Complete(db, s, ScopeSkipped, now, NO_COUNTS, Some(OverlapSkipped))
    case Reject => Err(ScopeConflict)
  }

  // The transaction of the exception handler: an active scope fails with one failure counted.
  function FailScope(db: Tables, s: nat, now: int, error: ErrorCode): Tables {
    match Complete(db, s, ScopeFailed, now, ONE_FAILURE, Some(error))
    case Ok(next) => next
    case Err(_) => db
  }

  // --------------------------------------------------------------------------------------------
  // Deriving and finishing a run
  // --------------------------------------------------------------------------------------------

  predicate HasStatus(scopes: seq<Scope>, r: nat, status: ScopeStatus) {
    exists i :: 0 <= i < |scopes| && scopes[i].runId == r && scopes[i].status == status
  }

  function DeriveStatus(scopes: seq<Scope>, r: nat): Result<RunStatus, Failure> {
    var successful := HasStatus(scopes, r, ScopeSucceeded);
    var failed := HasStatus(scopes, r, ScopeFailed);
    var skipped := HasStatus(scopes, r, ScopeSkipped);
    if HasStatus(scopes, r, ScopePending) || HasStatus(scopes, r, ScopeRunning) then Err(ActiveScopes)
    else if successful && (failed || skipped) then Ok(RunPartial)
    else if failed || (skipped && !successful) then Ok(RunFailed)
    else Ok(RunSucceeded)
  }

  // The last transaction of `run_next`.
  function FinishRun(db: Tables, r: nat, now: int): Result<Tables, Failure> {
    match DeriveStatus(db.scopes, r)
    case Err(e) => Err(e)
    case Ok(status) => Finalize(db, r, status, now, None)
  }

  // --------------------------------------------------------------------------------------------
  // Recovery of expired leases
  // --------------------------------------------------------------------------------------------

  predicate Expired(run: Run, before: int) {
    run.status.RunRunning? && run.heartbeatAt.Some? && run.heartbeatAt.value < before
  }

  function LeaseFailed(scope: Scope, now: int): Scope {
    Completed(scope, ScopeFailed, now, scope.counters.Plus(ONE_FAILURE), Some(LeaseExpired))
  }

  // The first n scope rows with the active ones of run r failed.
  function FailLeased(scopes: seq<Scope>, r: nat, n: nat, now: int): (failed: seq<Scope>)
    requires n <= |scopes|
    ensures |failed| == |scopes|
    ensures forall i :: 0 <= i < |scopes| ==>
              failed[i] == if i < n && scopes[i].runId == r && ActiveScope(scopes[i].status)
                           then LeaseFailed(scopes[i], now) else scopes[i]
  {
    seq(|scopes|, i requires 0 <= i < |scopes| =>
      if i < n && scopes[i].runId == r && ActiveScope(scopes[i].status) then LeaseFailed(scopes[i], now) else scopes[i])
  }

  function RecoverRun(db: Tables, r: nat, now: int): Tables {
    var failed := db.(scopes := FailLeased(db.scopes, r, |db.scopes|, now));
    match DeriveStatus(failed.scopes, r)
    case Err(_) => db
    case Ok(status) =>
      match Finalize(failed, r, status, now, Some(LeaseExpired))
      case Err(_) => db
      case Ok(next) => next
  }

  // `run` is run r as it was selected.
  function RecoverIfExpired(db: Tables, run: Run, r: nat, cutoff: int, locked: set<nat>, now: int): Tables {
    if Expired(run, cutoff) && r !in locked then RecoverRun(db, r, now) else db
  }

  // `before` holds the rows selected at the start.
  function RecoverStep(before: seq<Run>, cutoff: int, locked: set<nat>, now: int): (Tables, nat) -> Tables {
    (db: Tables, r: nat) => if r < |before| then RecoverIfExpired(db, before[r], r, cutoff, locked, now) else db
  }

  // The first n run rows recovered, one after the other.
  function RecoverFirst(db: Tables, before: seq<Run>, n: nat, cutoff: int, locked: set<nat>, now: int): Tables
    requires n <= |before|
  {
    Iterate(RecoverStep(before, cutoff, locked, now), db, n)
  }

  lemma RecoverOneMore(db: Tables, before: seq<Run>, n: nat, cutoff: int, locked: set<nat>, now: int)
    requires n < |before|
    ensures RecoverFirst(db, before, n + 1, cutoff, locked, now) ==
            RecoverIfExpired(RecoverFirst(db, before, n, cutoff, locked, now), before[n], n, cutoff, locked, now)
  {
  }

  function RecoverExpired(db: Tables, cutoff: int, locked: set<nat>, now: int): Tables {
    RecoverFirst(db, db.runs, |db.runs|, cutoff, locked, now)
  }

  // --------------------------------------------------------------------------------------------
  // Creation
  // --------------------------------------------------------------------------------------------

  // `valid` and `usable` stand for the configuration and dataset checks; `planned` for the enabled,
  // synchronized series of the dataset that were asked for.
  datatype Request = Request(
    valid: bool, usable: bool, parent: Option<nat>, trigger: Trigger, dataset: nat, start: int, end: int,
    requestedAt: int, planned: seq<(ScopeKind, nat)>)

  predicate ProperRequest(q: Request) {
    q.start <= q.end
  }

  function PlannedScope(q: Request, runId: nat, i: nat): Scope
    requires i < |q.planned|
  {
    Scope(runId, q.planned[i].0, q.planned[i].1, q.start, q.end, ScopePending, None, None, NO_COUNTS, None)
  }

  predicate ParentFits(db: Tables, q: Request) {
    q.parent.None? ||
    (q.parent.value < |db.runs| && TerminalRun(db.runs[q.parent.value].status)
     && db.runs[q.parent.value].dataset == q.dataset)
  }

  // A new run's identifier owns no scope yet, so probing with it excludes none.
  predicate PlanConflicts(db: Tables, q: Request) {
    exists i :: 0 <= i < |q.planned| && Overlaps(db.scopes, PlannedScope(q, |db.runs|, i))
  }

  function NewRun(q: Request): Run {
    Run(q.trigger, q.dataset, q.start, q.end, RunPending, q.requestedAt, None, None, None, NO_COUNTS, None)
  }

  function NewScopes(q: Request, runId: nat, n: nat): (scopes: seq<Scope>)
    requires n <= |q.planned|
    ensures |scopes| == n && forall i :: 0 <= i < n ==> scopes[i] == PlannedScope(q, runId, i)
  {
    seq(n, i requires 0 <= i < n => PlannedScope(q, runId, i))
  }

  function Create(db: Tables, q: Request): Result<Tables, Failure> {
    if !q.valid then Err(CommandInvalid)
    else if !q.usable then Err(DatasetNotUsable)
    else if !ParentFits(db, q) then Err(BadParent)
    else if q.planned == [] then Err(NothingPlanned)
    else if q.trigger.Manual? && PlanConflicts(db, q) then Err(ScopeConflict)
    else Ok(Tables(db.runs + [NewRun(q)], db.scopes + NewScopes(q, |db.runs|, |q.planned|)))
  }

  // --------------------------------------------------------------------------------------------
  // The tables themselves
  // --------------------------------------------------------------------------------------------

  class IngestionStore {
    var runs: seq<Run>
    var scopes: seq<Scope>

    ghost function Contents(): Tables
      reads this
    {
      Tables(runs, scopes)
    }

    constructor ()
      ensures Contents() == Tables([], [])
    {
      runs, scopes := [], [];
    }

    method ClaimNextRun(locked: set<nat>, now: int) returns (claimed: Option<nat>)
      modifies this`runs
      ensures (Contents(), claimed) == ClaimNext(old(Contents()), locked, now)
    {
      claimed := None;
      for r := 0 to |runs|
        invariant claimed == NextRunAmong(runs, locked, r)
      {
        if runs[r].status.RunPending? && r !in locked {
          if claimed.None? || runs[r].requestedAt < runs[claimed.value].requestedAt {
            claimed := Some(r);
          }
        }
      }
      if claimed.Some? {
        var run := runs[claimed.value];
        run := run.(status := RunRunning);
        run := run.(startedAt := Some(now));
        run := run.(heartbeatAt := Some(now));
        runs := runs[claimed.value := run];
      }
    }

    method Beat(r: nat, now: int) returns (ok: bool)
      modifies this`runs
      ensures match Heartbeat(old(Contents()), r, now)
              case Ok(next) => ok && Contents() == next
              case Err(_) => !ok && Contents() == old(Contents())
    {
      ok := r < |runs| && runs[r].status.RunRunning?;
      if ok {
        runs := runs[r := runs[r].(heartbeatAt := Some(now))];
      }
    }

    method Totals(r: nat) returns (totals: Counters)
      ensures totals == ScopeTotals(scopes, r)
    {
      totals := NO_COUNTS;
      for i := 0 to |scopes|
        invariant totals == ScopeTotals(scopes[..i], r)
      {
        assert scopes[..i + 1][..i] == scopes[..i];
        if scopes[i].runId == r {
          totals := totals.Plus(scopes[i].counters);
        }
      }
      assert scopes[..|scopes|] == scopes;
    }

    method FinalizeRun(r: nat, status: RunStatus, now: int, error: Option<ErrorCode>) returns (failure: Option<Failure>)
      modifies this`runs
      ensures match Finalize(old(Contents()), r, status, now, error)
              case Ok(next) => failure == None && Contents() == next
              case Err(e) => failure == Some(e) && Contents() == old(Contents())
    {
      if !TerminalRun(status) {
        return Some(InvalidTerminalStatus);
      }
      if r >= |runs| || !runs[r].status.RunRunning? {
        return Some(RunNotRunning);
      }
      var totals := Totals(r);
      var run := runs[r].(counters := totals);
      run := run.(status := status);
      run := run.(finishedAt := Some(now), heartbeatAt := Some(now), error := error);
      runs := runs[r := run];
      failure := None;
    }

    method StartScope(s: nat, now: int) returns (failure: Option<Failure>)
      modifies this`scopes
      ensures match Start(old(Contents()), s, now)
              case Ok(next) => failure == None && Contents() == next
              case Err(e) => failure == Some(e) && Contents() == old(Contents())
    {
      if s >= |scopes| || !scopes[s].status.ScopePending? {
        return Some(ScopeNotPending);
      }
      scopes := scopes[s := scopes[s].(status := ScopeRunning, startedAt := Some(now))];
      failure := None;
    }

    method CompleteScope(s: nat, status: ScopeStatus, now: int, counters: Counters, error: Option<ErrorCode>)
      returns (failure: Option<Failure>)
      modifies this`scopes
      ensures match Complete(old(Contents()), s, status, now, counters, error)
              case Ok(next) => failure == None && Contents() == next
              case Err(e) => failure == Some(e) && Contents() == old(Contents())
    {
      if ActiveScope(status) {
        return Some(InvalidTerminalStatus);
      }
      if s >= |scopes| || !ActiveScope(scopes[s].status) {
        return Some(ScopeNotActive);
      }
      if !counters.NonNegative() {
        return Some(NegativeCounter);
      }
      var scope := scopes[s].(counters := counters);
      scope := scope.(status := status, finishedAt := Some(now));
      scope := scope.(error := error);
      scopes := scopes[s := scope];
      failure := None;
    }

    method FindOverlap(probe: Scope) returns (found: bool)
      ensures found <==> Overlaps(scopes, probe)
    {
      for i := 0 to |scopes|
        invariant !Overlaps(scopes[..i], probe)
      {
        if ActiveScope(scopes[i].status) && Conflicts(scopes[i], probe) {
          return true;
        }
      }
      assert scopes[..|scopes|] == scopes;
      found := false;
    }

    // Claim, then start or skip; a rejected claim raises and leaves the tables alone.
    method Begin(s: nat, now: int) returns (failure: Option<Failure>)
      requires s < |scopes| && scopes[s].runId < |runs|
      modifies this`scopes
      ensures match BeginScope(old(Contents()), s, now)
              case Ok(next) => failure == None && Contents() == next
              case Err(e) => failure == Some(e) && Contents() == old(Contents())
    {
      var overlap := FindOverlap(scopes[s]);
      if !overlap {
        failure := StartScope(s, now);
      } else if runs[scopes[s].runId].trigger.Manual? {
        failure := Some(ScopeConflict);
      } else {
        failure := CompleteScope(s, ScopeSkipped, now, NO_COUNTS, Some(OverlapSkipped));
      }
    }

    method Derive(r: nat) returns (status: Result<RunStatus, Failure>)
      ensures status == DeriveStatus(scopes, r)
    {
      var successful, failed, skipped, active := 0, 0, 0, 0;
      for i := 0 to |scopes|
        invariant successful >= 0 && failed >= 0 && skipped >= 0 && active >= 0
        invariant successful > 0 <==> HasStatus(scopes[..i], r, ScopeSucceeded)
        invariant failed > 0 <==> HasStatus(scopes[..i], r, ScopeFailed)
        invariant skipped > 0 <==> HasStatus(scopes[..i], r, ScopeSkipped)
        invariant active > 0 <==> HasStatus(scopes[..i], r, ScopePending) || HasStatus(scopes[..i], r, ScopeRunning)
      {
        HasStatusStep(scopes, r, i);
        if scopes[i].runId == r {
          match scopes[i].status
          case ScopeSucceeded => successful := successful + 1;
          case ScopeFailed => failed := failed + 1;
          case ScopeSkipped => skipped := skipped + 1;
          case ScopePending => active := active + 1;
          case ScopeRunning => active := active + 1;
        }
      }
      assert scopes[..|scopes|] == scopes;
      if active > 0 {
        return Err(ActiveScopes);
      }
      if successful > 0 && (failed > 0 || skipped > 0) {
        return Ok(RunPartial);
      }
      if failed > 0 || (skipped > 0 && successful == 0) {
        return Ok(RunFailed);
      }
      status := Ok(RunSucceeded);
    }

    // One abandoned run: its active scopes fail, then the run is finalized.
    method RecoverOne(r: nat, now: int)
      requires r < |runs| && runs[r].status.RunRunning?
      requires forall i :: 0 <= i < |scopes| ==> scopes[i].counters.NonNegative()
      modifies this
      ensures Contents() == RecoverRun(old(Contents()), r, now)
      ensures |runs| == |old(runs)| && forall q :: 0 <= q < |runs| && q != r ==> runs[q] == old(runs)[q]
      ensures forall i :: 0 <= i < |scopes| ==> scopes[i].counters.NonNegative()
    {
      ghost var before := scopes;
      ghost var rows := runs;
      for i := 0 to |scopes|
        invariant runs == rows && |scopes| == |before|
        invariant scopes == FailLeased(before, r, i, now)
        invariant forall j :: 0 <= j < |scopes| ==> scopes[j].counters.NonNegative()
      {
        if scopes[i].runId == r && ActiveScope(scopes[i].status) {
          var failure := CompleteScope(i, ScopeFailed, now, scopes[i].counters.Plus(ONE_FAILURE), Some(LeaseExpired));
        }
      }
      NoneActive(before, r, now);
      var status := Derive(r);
      var failure := FinalizeRun(r, status.value, now, Some(LeaseExpired));
    }

    method Recover(cutoff: int, locked: set<nat>, now: int)
      requires forall i :: 0 <= i < |scopes| ==> scopes[i].counters.NonNegative()
      modifies this
      ensures Contents() == RecoverExpired(old(Contents()), cutoff, locked, now)
    {
      ghost var db := Contents();
      var selected := runs;
      for r := 0 to |selected|
        invariant Contents() == RecoverFirst(db, selected, r, cutoff, locked, now)
        invariant |runs| == |selected| && forall q :: r <= q < |runs| ==> runs[q] == selected[q]
        invariant forall i :: 0 <= i < |scopes| ==> scopes[i].counters.NonNegative()
      {
        RecoverOneMore(db, selected, r, cutoff, locked, now);
        if Expired(selected[r], cutoff) && r !in locked {
          RecoverOne(r, now);
        }
      }
    }

    method CreateRun(q: Request) returns (failure: Option<Failure>)
      modifies this
      ensures match Create(old(Contents()), q)
              case Ok(next) => failure == None && Contents() == next
              case Err(e) => failure == Some(e) && Contents() == old(Contents())
    {
      if !q.valid {
        return Some(CommandInvalid);
      }
      if !q.usable {
        return Some(DatasetNotUsable);
      }
      if q.parent.Some? {
        var parent := q.parent.value;
        if parent >= |runs| || !TerminalRun(runs[parent].status) || runs[parent].dataset != q.dataset {
          return Some(BadParent);
        }
      }
      if q.planned == [] {
        return Some(NothingPlanned);
      }
      if q.trigger.Manual? {
        for i := 0 to |q.planned|
          invariant runs == old(runs) && scopes == old(scopes)
          invariant forall j :: 0 <= j < i ==> !Overlaps(scopes, PlannedScope(q, |runs|, j))
        {
          var overlap := FindOverlap(PlannedScope(q, |runs|, i));
          if overlap {
            return Some(ScopeConflict);
          }
        }
      }
      ghost var before := scopes;
      var id := |runs|;
      runs := runs + [NewRun(q)];
      for i := 0 to |q.planned|
        invariant runs == old(runs) + [NewRun(q)]
        invariant scopes == before + NewScopes(q, id, i)
      {
        scopes := scopes + [PlannedScope(q, id, i)];
      }
      failure := None;
    }
  }

  lemma HasStatusStep(scopes: seq<Scope>, r: nat, i: nat)
    requires i < |scopes|
    ensures forall status :: HasStatus(scopes[..i + 1], r, status) <==>
              HasStatus(scopes[..i], r, status) || (scopes[i].runId == r && scopes[i].status == status)
  {
    forall status
      ensures HasStatus(scopes[..i + 1], r, status) <==>
              HasStatus(scopes[..i], r, status) || (scopes[i].runId == r && scopes[i].status == status)
    {
      var longer, shorter := scopes[..i + 1], scopes[..i];
      if HasStatus(shorter, r, status) {
        var j :| 0 <= j < |shorter| && shorter[j].runId == r && shorter[j].status == status;
        assert longer[j] == shorter[j];
      }
      if HasStatus(longer, r, status) {
        var j :| 0 <= j < |longer| && longer[j].runId == r && longer[j].status == status;
        assert j < i ==> shorter[j] == longer[j];
      }
      assert longer[i] == scopes[i];
    }
  }

  lemma NoneActive(scopes: seq<Scope>, r: nat, now: int)
    ensures DeriveStatus(FailLeased(scopes, r, |scopes|, now), r).Ok?
    ensures TerminalRun(DeriveStatus(FailLeased(scopes, r, |scopes|, now), r).value)
  {
  }
}
