/** The claim of a scope taken apart: advisory lock, overlap check, row write and commit of
    `ScopeCoordinator.claim` and the first transaction of `_execute_scope`, interleaved step by step with
    other claims, with creation (which locks another key text) and with every way a scope can end. */
module ClaimLocking {
  import opened Common
  import opened IngestionTables
  import opened IngestionProtocol
  import opened ConflictOutcomes

  // A claim transaction: begun, past the lock, past the check either way, row written either way.
  datatype Phase = Entered | Holding | Clear | Blocked | Started | Skipped

  datatype Txn = Txn(scope: nat, phase: Phase)

  // `db` is what is committed; `locks` says which transaction holds an advisory key.
  datatype Micro = Micro(db: Tables, txns: map<nat, Txn>, locks: map<int, nat>)

  // Only PostgreSQL takes the lock; `hash` is any function, so keys may collide.
  datatype Engine = Engine(postgres: bool, hash: (nat, ScopeKind, nat) -> int)

  datatype MicroStep =
    | Enter(t: nat, s: nat)
    | TakeLock(t: nat)
    | Check(t: nat)
    | Write(t: nat)
    | Commit(t: nat, now: int)
    | Abort(t: nat)
    | End(s: nat, status: ScopeStatus, now: int, counters: Counters, error: Option<ErrorCode>)
    | Submit(request: Request)

  predicate KnownScope(db: Tables, s: nat) {
    s < |db.scopes| && db.scopes[s].runId < |db.runs|
  }

  function AdvisoryKey(e: Engine, db: Tables, s: nat): int
    requires KnownScope(db, s)
  {
    (e.hash)(db.runs[db.scopes[s].runId].dataset, db.scopes[s].kind, db.scopes[s].series)
  }

  predicate HasWritten(x: Txn) {
    x.phase.Started? || x.phase.Skipped?
  }

  // No other transaction holds the row of scope s.
  predicate RowFree(m: Micro, s: nat, t: nat) {
    forall u :: u in m.txns && u != t && m.txns[u].scope == s ==> !HasWritten(m.txns[u])
  }

  function Moved(m: Micro, t: nat, phase: Phase): Micro
    requires t in m.txns
  {
    m.(txns := m.txns[t := m.txns[t].(phase := phase)])
  }

  // End of a transaction: its locks go with it.
  function Released(m: Micro, t: nat): Micro {
    Micro(m.db, map u | u in m.txns && u != t :: m.txns[u], map k | k in m.locks && m.locks[k] != t :: m.locks[k])
  }

  // The row write after the check; waiting for a row lock leaves everything as it is.
  function Written(m: Micro, t: nat): Micro
    requires t in m.txns && KnownScope(m.db, m.txns[t].scope)
  {
    var s := m.txns[t].scope;
    if m.txns[t].phase.Clear? then
      if !RowFree(m, s, t) then m
      else if m.db.scopes[s].status.ScopePending? then Moved(m, t, Started)
      else Released(m, t)
    else if m.txns[t].phase.Blocked? then
      if m.db.runs[m.db.scopes[s].runId].trigger.Manual? then Released(m, t)
      else if !RowFree(m, s, t) then m
      else if ActiveScope(m.db.scopes[s].status) then Moved(m, t, Skipped)
      else Released(m, t)
    else m
  }

  function Committed(m: Micro, t: nat, now: int): Micro
    requires t in m.txns
  {
    var s := m.txns[t].scope;
    match m.txns[t].phase
    case Started => Released(m.(db := Kept(m.db, Start(m.db, s, now))), t)
    case Skipped =>
      Released(m.(db := Kept(m.db, Complete(m.db, s, ScopeSkipped, now, NO_COUNTS, Some(OverlapSkipped)))), t)
    case _ => m
  }

  function Next(e: Engine, m: Micro, a: MicroStep): Micro {
    match a
    case Enter(t, s) => if t in m.txns || !KnownScope(m.db, s) then m else m.(txns := m.txns[t := Txn(s, Entered)])
    case TakeLock(t) =>
      if t !in m.txns || !m.txns[t].phase.Entered? || !KnownScope(m.db, m.txns[t].scope) then m
      else if !e.postgres then Moved(m, t, Holding)
      else
        var key := AdvisoryKey(e, m.db, m.txns[t].scope);
        if key in m.locks then m else Moved(m, t, Holding).(locks := m.locks[key := t])
    case Check(t) =>
      if t !in m.txns || !m.txns[t].phase.Holding? || !KnownScope(m.db, m.txns[t].scope) then m
      else Moved(m, t, if Overlaps(m.db.scopes, m.db.scopes[m.txns[t].scope]) then Blocked else Clear)
    case Write(t) => if t !in m.txns || !KnownScope(m.db, m.txns[t].scope) then m else Written(m, t)
    case Commit(t, now) => if t !in m.txns then m else Committed(m, t, now)
    case Abort(t) => Released(m, t)
    case End(s, status, now, counters, error) =>
      if exists u :: u in m.txns && m.txns[u].scope == s && HasWritten(m.txns[u]) then m
      else m.(db := Kept(m.db, Complete(m.db, s, status, now, counters, error)))
    case Submit(q) => m.(db := Kept(m.db, Create(m.db, q)))
  }

  function NextAll(e: Engine, m: Micro, steps: seq<MicroStep>): Micro
    decreases |steps|
  {
    if steps == [] then m else NextAll(e, Next(e, m, steps[0]), steps[1..])
  }

  const EMPTY_MICRO := Micro(Tables([], []), map[], map[])

  // --------------------------------------------------------------------------------------------
  // Exclusion, with or without the lock
  // --------------------------------------------------------------------------------------------

  // Past the check and on its way to running.
  predicate Ahead(x: Txn) {
    x.phase.Clear? || x.phase.Started?
  }

  predicate BothActive(a: Scope, b: Scope) {
    ActiveScope(a.status) && ActiveScope(b.status) && Conflicts(a, b)
  }

  type Txns = map<nat, Txn>

  ghost predicate Sound(scopes: seq<Scope>, txns: Txns) {
    && (forall t :: t in txns ==> txns[t].scope < |scopes|)
    && (forall t :: t in txns && txns[t].phase.Started? ==> scopes[txns[t].scope].status.ScopePending?)
    && (forall t, u :: t in txns && u in txns && t != u && txns[t].scope == txns[u].scope ==>
          !(HasWritten(txns[t]) && HasWritten(txns[u])))
  }

  // Runs, or has passed its check and is about to.
  ghost predicate Advancing(scopes: seq<Scope>, txns: Txns, i: int)
    requires 0 <= i < |scopes|
  {
    scopes[i].status.ScopeRunning? || exists t :: t in txns && txns[t].scope == i && Ahead(txns[t])
  }

  // Nothing that advances contends with anything else that advances.
  ghost predicate Apart(scopes: seq<Scope>, txns: Txns) {
    forall i, j :: 0 <= i < |scopes| && 0 <= j < |scopes| && BothActive(scopes[i], scopes[j]) ==>
      !(Advancing(scopes, txns, i) && Advancing(scopes, txns, j))
  }

  ghost predicate MicroInv(m: Micro) {
    && (forall s :: 0 <= s < |m.db.scopes| ==> m.db.scopes[s].runId < |m.db.runs|)
    && Sound(m.db.scopes, m.txns)
    && Apart(m.db.scopes, m.txns)
  }

  // A step in which only scope `s` begins to advance, with nothing in its way, keeps everything apart.
  lemma StaysApart(scopes: seq<Scope>, txns: Txns, after: seq<Scope>, txnsAfter: Txns, s: Option<nat>)
    requires Apart(scopes, txns) && |scopes| <= |after|
    requires forall i :: 0 <= i < |scopes| ==>
               SameScope(scopes[i], after[i]) && (ActiveScope(after[i].status) ==> ActiveScope(scopes[i].status))
    requires forall i :: 0 <= i < |after| && Advancing(after, txnsAfter, i) ==>
               i < |scopes| && (Advancing(scopes, txns, i) || s == Some(i))
    requires s.Some? && s.value < |scopes| ==> !Overlaps(scopes, scopes[s.value])
    ensures Apart(after, txnsAfter)
  {
    forall i, j | 0 <= i < |after| && 0 <= j < |after| && BothActive(after[i], after[j])
      ensures !(Advancing(after, txnsAfter, i) && Advancing(after, txnsAfter, j))
    {
      assert i < |scopes| && j < |scopes| ==> BothActive(scopes[i], scopes[j]) && BothActive(scopes[j], scopes[i]);
    }
  }

  lemma ReleasedKeeps(m: Micro, t: nat)
    requires MicroInv(m)
    ensures MicroInv(Released(m, t))
  {
    StaysApart(m.db.scopes, m.txns, m.db.scopes, Released(m, t).txns, None);
  }

  lemma MovedKeeps(m: Micro, t: nat, phase: Phase)
    requires MicroInv(m) && t in m.txns
    requires phase.Started? ==> m.db.scopes[m.txns[t].scope].status.ScopePending?
    requires phase.Started? || phase.Skipped? ==> RowFree(m, m.txns[t].scope, t)
    requires phase.Started? ==> Ahead(m.txns[t])
    requires phase.Clear? ==> !Overlaps(m.db.scopes, m.db.scopes[m.txns[t].scope])
    ensures MicroInv(Moved(m, t, phase))
  {
    var s := m.txns[t].scope;
    StaysApart(m.db.scopes, m.txns, m.db.scopes, Moved(m, t, phase).txns, if phase.Clear? then Some(s) else None);
  }

  lemma EnterKeeps(m: Micro, t: nat, s: nat)
    requires MicroInv(m) && t !in m.txns && s < |m.db.scopes|
    ensures MicroInv(m.(txns := m.txns[t := Txn(s, Entered)]))
  {
    StaysApart(m.db.scopes, m.txns, m.db.scopes, m.txns[t := Txn(s, Entered)], None);
  }

  // Ending a scope whose row no started transaction holds.
  lemma EndKeeps(m: Micro, s: nat, scope: Scope)
    requires MicroInv(m) && s < |m.db.scopes| && SameScope(m.db.scopes[s], scope) && !ActiveScope(scope.status)
    requires forall t :: t in m.txns && m.txns[t].scope == s ==> !m.txns[t].phase.Started?
    ensures MicroInv(m.(db := WithScope(m.db, s, scope)))
  {
    StaysApart(m.db.scopes, m.txns, WithScope(m.db, s, scope).scopes, m.txns, None);
  }

  lemma StartCommitKeeps(m: Micro, t: nat, now: int)
    requires MicroInv(m) && t in m.txns && m.txns[t].phase.Started?
    ensures MicroInv(Committed(m, t, now))
  {
    var s := m.txns[t].scope;
    var after := WithScope(m.db, s, m.db.scopes[s].(status := ScopeRunning, startedAt := Some(now)));
    StaysApart(m.db.scopes, m.txns, after.scopes, Released(m, t).txns, None);
  }

  lemma SkipCommitKeeps(m: Micro, t: nat, now: int)
    requires MicroInv(m) && t in m.txns && m.txns[t].phase.Skipped?
    ensures MicroInv(Committed(m, t, now))
  {
    var s := m.txns[t].scope;
    ReleasedKeeps(m, t);
    if ActiveScope(m.db.scopes[s].status) {
      EndKeeps(Released(m, t), s, Completed(m.db.scopes[s], ScopeSkipped, now, NO_COUNTS, Some(OverlapSkipped)));
    }
  }

  lemma CommitKeeps(m: Micro, t: nat, now: int)
    requires MicroInv(m) && t in m.txns
    ensures MicroInv(Committed(m, t, now))
  {
    if m.txns[t].phase.Started? {
      StartCommitKeeps(m, t, now);
    } else if m.txns[t].phase.Skipped? {
      SkipCommitKeeps(m, t, now);
    }
  }

  lemma SubmitKeeps(m: Micro, q: Request)
    requires MicroInv(m)
    ensures MicroInv(m.(db := Kept(m.db, Create(m.db, q))))
  {
    var after := Kept(m.db, Create(m.db, q));
    assert forall i :: |m.db.scopes| <= i < |after.scopes| ==> after.scopes[i].status.ScopePending?;
    StaysApart(m.db.scopes, m.txns, after.scopes, m.txns, None);
  }

  lemma EndStepKeeps(
    e: Engine, m: Micro, s: nat, status: ScopeStatus, now: int, counters: Counters, error: Option<ErrorCode>)
    requires MicroInv(m)
    ensures MicroInv(Next(e, m, End(s, status, now, counters, error)))
  {
    if Complete(m.db, s, status, now, counters, error).Ok? &&
       forall u :: u in m.txns && m.txns[u].scope == s ==> !HasWritten(m.txns[u]) {
      EndKeeps(m, s, Completed(m.db.scopes[s], status, now, counters, error));
    }
  }

  // The steps up to the check.
  lemma ClaimingKeeps(e: Engine, m: Micro, a: MicroStep)
    requires MicroInv(m) && (a.Enter? || a.TakeLock? || a.Check?)
    ensures MicroInv(Next(e, m, a))
  {
    match a
    case Enter(t, s) => if t !in m.txns && s < |m.db.scopes| { EnterKeeps(m, t, s); }
    case TakeLock(t) => if t in m.txns { MovedKeeps(m, t, Holding); }
    case Check(t) =>
      if t in m.txns {
        MovedKeeps(m, t, if Overlaps(m.db.scopes, m.db.scopes[m.txns[t].scope]) then Blocked else Clear);
      }
  }

  lemma NextKeepsExclusion(e: Engine, m: Micro, a: MicroStep)
    requires MicroInv(m)
    ensures MicroInv(Next(e, m, a))
  {
    match a
    case Write(t) => if t in m.txns { WrittenKeeps(m, t); }
    case Commit(t, now) => if t in m.txns { CommitKeeps(m, t, now); }
    case Abort(t) => ReleasedKeeps(m, t);
    case End(s, status, now, counters, error) => EndStepKeeps(e, m, s, status, now, counters, error);
    case Submit(q) => SubmitKeeps(m, q);
    case _ => ClaimingKeeps(e, m, a);
  }

  lemma WrittenKeeps(m: Micro, t: nat)
    requires MicroInv(m) && t in m.txns
    ensures MicroInv(Written(m, t))
  {
    var s := m.txns[t].scope;
    ReleasedKeeps(m, t);
    if RowFree(m, s, t) {
      if m.txns[t].phase.Clear? && m.db.scopes[s].status.ScopePending? {
        MovedKeeps(m, t, Started);
      }
      if m.txns[t].phase.Blocked? {
        MovedKeeps(m, t, Skipped);
      }
    }
  }

  lemma {:induction false} NextAllKeepsExclusion(e: Engine, m: Micro, steps: seq<MicroStep>)
    requires MicroInv(m)
    ensures MicroInv(NextAll(e, m, steps))
    decreases |steps|
  {
    if steps != [] {
      NextKeepsExclusion(e, m, steps[0]);
      NextAllKeepsExclusion(e, Next(e, m, steps[0]), steps[1..]);
    }
  }

  // Whatever the interleaving, and whether or not the engine locks, running scopes never conflict:
  // a waiting scope already counts as active, so of two claims the later check sees the other scope.
  lemma RunningScopesNeverConflict(e: Engine, steps: seq<MicroStep>, i: nat, j: nat)
    requires var scopes := NextAll(e, EMPTY_MICRO, steps).db.scopes;
             && i < |scopes| && j < |scopes| && scopes[i].status.ScopeRunning? && scopes[j].status.ScopeRunning?
    ensures var scopes := NextAll(e, EMPTY_MICRO, steps).db.scopes; !Conflicts(scopes[i], scopes[j])
  {
    NextAllKeepsExclusion(e, EMPTY_MICRO, steps);
  }

  // --------------------------------------------------------------------------------------------
  // What the lock is for
  // --------------------------------------------------------------------------------------------

  // Past the lock means holding it.
  ghost predicate LocksHeld(e: Engine, m: Micro) {
    e.postgres ==>
      forall t :: t in m.txns && !m.txns[t].phase.Entered? && KnownScope(m.db, m.txns[t].scope) ==>
        HoldsKey(m, t, AdvisoryKey(e, m.db, m.txns[t].scope))
  }

  predicate HoldsKey(m: Micro, t: nat, key: int) {
    key in m.locks && m.locks[key] == t
  }

  // Which dataset a series belongs to; all scopes of a series belong to runs of it, so they name one key.
  type Home = (ScopeKind, nat) -> nat

  ghost predicate Homed(home: Home, db: Tables) {
    forall s: nat :: KnownScope(db, s) ==> db.runs[db.scopes[s].runId].dataset == home(db.scopes[s].kind, db.scopes[s].series)
  }

  // An active scope rewritten, asking for what it asked.
  lemma RewriteAbsorbs(db: Tables, s: nat, scope: Scope)
    requires s < |db.scopes| && ActiveScope(db.scopes[s].status) && SameScope(db.scopes[s], scope)
    ensures Absorbs(db, WithScope(db, s, scope))
  {
  }

  lemma StartAbsorbs(db: Tables, s: nat, now: int)
    ensures var next := Kept(db, Start(db, s, now));
            Absorbs(db, next) && next.runs == db.runs && |next.scopes| == |db.scopes|
  {
    if Start(db, s, now).Ok? {
      RewriteAbsorbs(db, s, db.scopes[s].(status := ScopeRunning, startedAt := Some(now)));
    }
  }

  lemma CommitAbsorbs(m: Micro, t: nat, now: int)
    requires t in m.txns
    ensures Absorbs(m.db, Committed(m, t, now).db)
    ensures Committed(m, t, now).db.runs == m.db.runs && |Committed(m, t, now).db.scopes| == |m.db.scopes|
  {
    var s := m.txns[t].scope;
    StartAbsorbs(m.db, s, now);
    CompleteAbsorbs(m.db, s, ScopeSkipped, now, NO_COUNTS, Some(OverlapSkipped));
  }

  lemma CompleteAbsorbs(db: Tables, s: nat, status: ScopeStatus, now: int, counters: Counters, error: Option<ErrorCode>)
    ensures var next := Kept(db, Complete(db, s, status, now, counters, error));
            Absorbs(db, next) && next.runs == db.runs && |next.scopes| == |db.scopes|
  {
    if Complete(db, s, status, now, counters, error).Ok? {
      RewriteAbsorbs(db, s, Completed(db.scopes[s], status, now, counters, error));
    }
  }

  lemma CreateAbsorbs(db: Tables, q: Request)
    ensures Absorbs(db, Kept(db, Create(db, q)))
  {
  }

  lemma NextAbsorbs(e: Engine, m: Micro, a: MicroStep)
    ensures Absorbs(m.db, Next(e, m, a).db)
    ensures !a.Submit? ==> Next(e, m, a).db.runs == m.db.runs && |Next(e, m, a).db.scopes| == |m.db.scopes|
  {
    match a
    case Commit(t, now) => if t in m.txns { CommitAbsorbs(m, t, now); }
    case End(s, status, now, counters, error) => CompleteAbsorbs(m.db, s, status, now, counters, error);
    case Submit(q) => CreateAbsorbs(m.db, q);
    case _ => assert Next(e, m, a).db == m.db;
  }

  lemma KeysStay(e: Engine, db: Tables, next: Tables, s: nat)
    requires Absorbs(db, next) && KnownScope(db, s)
    ensures KnownScope(next, s) && AdvisoryKey(e, next, s) == AdvisoryKey(e, db, s)
  {
    assert SameScope(db.scopes[s], next.scopes[s]);
    assert SameRun(db.runs[db.scopes[s].runId], next.runs[db.scopes[s].runId]);
  }

  // Locks come from taking them and go with their transaction.
  lemma KeepsOwnLocks(e: Engine, m: Micro, a: MicroStep, t: nat)
    requires t in Next(e, m, a).txns && !Next(e, m, a).txns[t].phase.Entered?
    ensures t in m.txns && m.txns[t].scope == Next(e, m, a).txns[t].scope
    ensures forall k :: HoldsKey(m, t, k) ==> HoldsKey(Next(e, m, a), t, k)
    ensures m.txns[t].phase.Entered? ==> a == TakeLock(t) && KnownScope(m.db, m.txns[t].scope)
    ensures a == TakeLock(t) && m.txns[t].phase.Entered? && e.postgres && KnownScope(m.db, m.txns[t].scope) ==>
              HoldsKey(Next(e, m, a), t, AdvisoryKey(e, m.db, m.txns[t].scope))
  {
  }

  lemma NextKeepsLocks(e: Engine, m: Micro, a: MicroStep)
    requires MicroInv(m) && LocksHeld(e, m)
    ensures LocksHeld(e, Next(e, m, a))
  {
    var next := Next(e, m, a);
    NextAbsorbs(e, m, a);
    if e.postgres {
      forall t | t in next.txns && !next.txns[t].phase.Entered? && KnownScope(next.db, next.txns[t].scope)
        ensures HoldsKey(next, t, AdvisoryKey(e, next.db, next.txns[t].scope))
      {
        KeepsOwnLocks(e, m, a, t);
        KeysStay(e, m.db, next.db, m.txns[t].scope);
      }
    }
  }

  // Submissions respect the home of each series, and no scope ends as skipped other than through a claim.
  predicate OrdinaryStep(home: Home, a: MicroStep) {
    && (a.Submit? ==> forall i :: 0 <= i < |a.request.planned| ==>
          home(a.request.planned[i].0, a.request.planned[i].1) == a.request.dataset)
    && (a.End? ==> a.error != Some(OverlapSkipped))
  }

  predicate Ordinary(home: Home, steps: seq<MicroStep>) {
    forall a :: a in steps ==> OrdinaryStep(home, a)
  }

  lemma NextKeepsHomes(e: Engine, home: Home, m: Micro, a: MicroStep)
    requires MicroInv(m) && Homed(home, m.db) && OrdinaryStep(home, a)
    ensures Homed(home, Next(e, m, a).db)
  {
    var next := Next(e, m, a).db;
    NextAbsorbs(e, m, a);
    forall s: nat | KnownScope(next, s)
      ensures next.runs[next.scopes[s].runId].dataset == home(next.scopes[s].kind, next.scopes[s].series)
    {
      if s < |m.db.scopes| {
        assert SameScope(m.db.scopes[s], next.scopes[s]) && KnownScope(m.db, s);
        assert SameRun(m.db.runs[m.db.scopes[s].runId], next.runs[m.db.scopes[s].runId]);
      } else {
        assert a.Submit?;
        assert next.scopes[s] == PlannedScope(a.request, |m.db.runs|, s - |m.db.scopes|);
      }
    }
  }

  predicate LostToSkip(scope: Scope) {
    !ActiveScope(scope.status) && scope.error == Some(OverlapSkipped)
  }

  predicate OnItsWayOut(x: Txn) {
    x.phase.Blocked? || x.phase.Skipped?
  }

  // Skipped already, or about to be.
  ghost predicate Losing(m: Micro, g: nat)
    requires g < |m.db.scopes|
  {
    LostToSkip(m.db.scopes[g]) || exists t :: t in m.txns && m.txns[t].scope == g && OnItsWayOut(m.txns[t])
  }

  // What a step can make of a scope that is not losing.
  lemma LosingNeedsBlockedCheck(e: Engine, m: Micro, a: MicroStep, g: nat)
    requires MicroInv(m) && g < |m.db.scopes|
    requires a.End? ==> a.error != Some(OverlapSkipped)
    requires g < |Next(e, m, a).db.scopes| && !Losing(m, g) && Losing(Next(e, m, a), g)
    ensures a.Check? && a.t in m.txns && m.txns[a.t].scope == g && m.txns[a.t].phase.Holding?
    ensures Overlaps(m.db.scopes, m.db.scopes[g])
  {
    var next := Next(e, m, a);
    SkippedOnlyAtCommit(e, m, a, g);
    if !LostToSkip(next.db.scopes[g]) {
      var t :| t in next.txns && next.txns[t].scope == g && OnItsWayOut(next.txns[t]);
      BlockedOnlyByCheck(e, m, a, t);
      assert !OnItsWayOut(m.txns[t]);
    }
  }

  lemma SkippedOnlyAtCommit(e: Engine, m: Micro, a: MicroStep, g: nat)
    requires g < |m.db.scopes| && g < |Next(e, m, a).db.scopes|
    requires a.End? ==> a.error != Some(OverlapSkipped)
    ensures LostToSkip(Next(e, m, a).db.scopes[g]) && !LostToSkip(m.db.scopes[g]) ==>
              a.Commit? && a.t in m.txns && m.txns[a.t] == Txn(g, Skipped)
  {
  }

  lemma BlockedOnlyByCheck(e: Engine, m: Micro, a: MicroStep, t: nat)
    requires t in Next(e, m, a).txns && OnItsWayOut(Next(e, m, a).txns[t])
    ensures t in m.txns && m.txns[t].scope == Next(e, m, a).txns[t].scope
    ensures !OnItsWayOut(m.txns[t]) ==>
              a == Check(t) && m.txns[t].phase.Holding? && Overlaps(m.db.scopes, m.db.scopes[m.txns[t].scope])
  {
    match a
    case Write(u) =>
      assert t in m.txns && (t != u ==> Next(e, m, a).txns[t] == m.txns[t]);
    case _ =>
  }

  // Two claims for one series are never both past the lock.
  lemma ContendersWait(e: Engine, home: Home, m: Micro, t: nat, u: nat)
    requires e.postgres && LocksHeld(e, m) && Homed(home, m.db) && t in m.txns && u in m.txns
    requires KnownScope(m.db, m.txns[t].scope) && KnownScope(m.db, m.txns[u].scope)
    requires SameSeries(m.db.scopes[m.txns[t].scope], m.db.scopes[m.txns[u].scope])
    requires !m.txns[t].phase.Entered? && !m.txns[u].phase.Entered?
    ensures t == u
  {
    assert HoldsKey(m, t, AdvisoryKey(e, m.db, m.txns[t].scope));
    assert HoldsKey(m, u, AdvisoryKey(e, m.db, m.txns[u].scope));
  }

  predicate SameSeries(a: Scope, b: Scope) {
    a.kind == b.kind && a.series == b.series
  }

  ghost predicate SomeoneStays(m: Micro, group: set<nat>) {
    exists g :: g in group && g < |m.db.scopes| && !Losing(m, g)
  }

  ghost predicate NoClusterLosing(start: Tables, m: Micro) {
    forall h :: Cluster(start, m.db, h) ==> SomeoneStays(m, h)
  }

  // A state of a locking engine reached from `start`.
  ghost predicate Locked(e: Engine, home: Home, start: Tables, m: Micro) {
    e.postgres && MicroInv(m) && LocksHeld(e, m) && Homed(home, m.db) && Absorbs(start, m.db)
  }

  // The check that blocks one member of a cluster has seen another that is not losing.
  lemma BlockerStays(e: Engine, home: Home, start: Tables, m: Micro, t: nat, h: set<nat>) returns (w: nat)
    requires Locked(e, home, start, m) && Cluster(start, m.db, h) && t in m.txns && m.txns[t].scope in h
    requires m.txns[t].phase.Holding? && Overlaps(m.db.scopes, m.db.scopes[m.txns[t].scope])
    ensures w in h && w < |m.db.scopes| && w != m.txns[t].scope && !Losing(m, w)
  {
    var g := m.txns[t].scope;
    w :| 0 <= w < |m.db.scopes| && ActiveScope(m.db.scopes[w].status) && Conflicts(m.db.scopes[w], m.db.scopes[g]);
    assert InTheWay(start, m.db, w, g);
    HolderExcludes(e, home, m, t, w);
  }

  // While a claim is past the lock, no other claim of its series is on its way out.
  lemma HolderExcludes(e: Engine, home: Home, m: Micro, t: nat, w: nat)
    requires e.postgres && LocksHeld(e, m) && Homed(home, m.db) && t in m.txns && m.txns[t].phase.Holding?
    requires KnownScope(m.db, m.txns[t].scope) && KnownScope(m.db, w)
    requires SameSeries(m.db.scopes[m.txns[t].scope], m.db.scopes[w])
    ensures forall u :: u in m.txns && m.txns[u].scope == w ==> !OnItsWayOut(m.txns[u])
  {
    forall u | u in m.txns && m.txns[u].scope == w ensures !OnItsWayOut(m.txns[u]) {
      if OnItsWayOut(m.txns[u]) {
        ContendersWait(e, home, m, t, u);
      }
    }
  }

  lemma MemberStays(e: Engine, home: Home, start: Tables, m: Micro, a: MicroStep, h: set<nat>)
    requires Locked(e, home, start, m) && OrdinaryStep(home, a) && Cluster(start, m.db, h) && SomeoneStays(m, h)
    ensures SomeoneStays(Next(e, m, a), h)
  {
    NextAbsorbs(e, m, a);
    var g :| g in h && g < |m.db.scopes| && !Losing(m, g);
    if Losing(Next(e, m, a), g) {
      LosingNeedsBlockedCheck(e, m, a, g);
      var w := BlockerStays(e, home, start, m, a.t, h);
      if Losing(Next(e, m, a), w) {
        LosingNeedsBlockedCheck(e, m, a, w);
      }
    }
  }

  lemma ArrivalIsNotLosing(e: Engine, m: Micro, a: MicroStep, g: nat)
    requires MicroInv(m) && |m.db.scopes| <= g < |Next(e, m, a).db.scopes|
    ensures !Losing(Next(e, m, a), g)
  {
    var next := Next(e, m, a);
    NextAbsorbs(e, m, a);
    assert a.Submit? && next.db.scopes[g] == PlannedScope(a.request, |m.db.runs|, g - |m.db.scopes|);
    assert forall t :: t in next.txns ==> next.txns[t].scope < |m.db.scopes|;
  }

  lemma NextKeepsClusters(e: Engine, home: Home, start: Tables, m: Micro, a: MicroStep)
    requires Locked(e, home, start, m) && OrdinaryStep(home, a) && NoClusterLosing(start, m)
    ensures NoClusterLosing(start, Next(e, m, a))
  {
    var next := Next(e, m, a);
    NextAbsorbs(e, m, a);
    forall h | Cluster(start, next.db, h) ensures SomeoneStays(next, h) {
      if g :| g in h && g >= |m.db.scopes| {
        ArrivalIsNotLosing(e, m, a, g);
      } else {
        ClusterBefore(start, m.db, next.db, h);
        MemberStays(e, home, start, m, a, h);
      }
    }
  }

  lemma NextStaysLocked(e: Engine, home: Home, start: Tables, m: Micro, a: MicroStep)
    requires Locked(e, home, start, m) && OrdinaryStep(home, a)
    ensures Locked(e, home, start, Next(e, m, a))
  {
    NextKeepsExclusion(e, m, a);
    NextKeepsLocks(e, m, a);
    NextKeepsHomes(e, home, m, a);
    NextAbsorbs(e, m, a);
    AbsorbsTransitively(start, m.db, Next(e, m, a).db);
  }

  lemma {:induction false} NextAllKeepsClusters(e: Engine, home: Home, start: Tables, m: Micro, steps: seq<MicroStep>)
    requires Locked(e, home, start, m) && Ordinary(home, steps) && NoClusterLosing(start, m)
    ensures NoClusterLosing(start, NextAll(e, m, steps))
    decreases |steps|
  {
    if steps != [] {
      assert OrdinaryStep(home, steps[0]);
      NextStaysLocked(e, home, start, m, steps[0]);
      NextKeepsClusters(e, home, start, m, steps[0]);
      NextAllKeepsClusters(e, home, start, Next(e, m, steps[0]), steps[1..]);
    }
  }

  // With the lock, and with submissions at any moment: scopes of automatic runs, together with all that
  // conflict with them and were active since a start at which no claim was about to skip, never all end
  // skipped, step by step.
  lemma LockedClaimsNeverAllSkip(e: Engine, home: Home, m: Micro, steps: seq<MicroStep>, h: set<nat>)
    requires e.postgres && MicroInv(m) && LocksHeld(e, m) && Homed(home, m.db) && Ordinary(home, steps)
    requires forall t :: t in m.txns ==> !OnItsWayOut(m.txns[t])
    requires Cluster(m.db, NextAll(e, m, steps).db, h)
    ensures SomeoneStays(NextAll(e, m, steps), h)
  {
    forall k | Cluster(m.db, m.db, k) ensures SomeoneStays(m, k) {
      var g :| g in k;
      assert ActiveScope(m.db.scopes[g].status) && !Losing(m, g);
    }
    NextAllKeepsClusters(e, home, m.db, m, steps);
  }
}
