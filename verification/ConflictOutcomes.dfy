/** Who gets a contested series: what the overlap check of `ScopeCoordinator.claim` and the two conflict
    policies of `_execute_scope` lead to when several runs want the same dates. */
module ConflictOutcomes {
  import opened Common
  import opened IngestionTables
  import opened IngestionProtocol

  // A scope that ended without ever fetching, because an overlap was seen.
  predicate LostToConflict(scope: Scope) {
    !ActiveScope(scope.status) && (scope.error == Some(OverlapSkipped) || scope.error == Some(OverlapRejected))
  }

  predicate NoArrivals(actions: seq<Action>) {
    forall a :: a in actions ==> !a.SubmitAction?
  }

  // Only manual runs reject.
  ghost predicate RejectedAreManual(sys: System) {
    forall s :: s in sys.rejected ==> IsManual(sys.db, s)
  }

  // --------------------------------------------------------------------------------------------
  // What a claim sees
  // --------------------------------------------------------------------------------------------

  // A pending scope is started exactly when every conflicting scope of another run is over.
  lemma AcquiredExactlyWhenAlone(db: Tables, s: nat, now: int)
    requires s < |db.scopes| && db.scopes[s].runId < |db.runs| && db.scopes[s].status.ScopePending?
    ensures (BeginScope(db, s, now).Ok? && BeginScope(db, s, now).value.scopes[s].status.ScopeRunning?) <==>
            forall i :: 0 <= i < |db.scopes| && Conflicts(db.scopes[i], db.scopes[s]) ==>
              !ActiveScope(db.scopes[i].status)
  {
    if Overlaps(db.scopes, db.scopes[s]) {
      var i :| 0 <= i < |db.scopes| && ActiveScope(db.scopes[i].status) && Conflicts(db.scopes[i], db.scopes[s]);
    }
  }

  // No running scope conflicts with one that is still active.
  ghost predicate Quiet(scopes: seq<Scope>) {
    forall i, j :: 0 <= i < |scopes| && 0 <= j < |scopes| && scopes[i].status.ScopeRunning? ==>
      !(ActiveScope(scopes[j].status) && Conflicts(scopes[i], scopes[j]))
  }

  // Every scope either keeps its status, or ends, or is the one just started with nobody in its way.
  ghost predicate Settles(db: Tables, next: Tables) {
    && |next.scopes| == |db.scopes|
    && (forall s :: 0 <= s < |db.scopes| ==>
          || next.scopes[s].status == db.scopes[s].status
          || !ActiveScope(next.scopes[s].status)
          || (next.scopes[s].status.ScopeRunning? && !Overlaps(db.scopes, db.scopes[s])))
  }

  lemma RecoverySettles(db: Tables, n: nat, cutoff: int, locked: set<nat>, now: int)
    requires n <= |db.runs|
    ensures var next := RecoverFirst(db, db.runs, n, cutoff, locked, now);
            && |next.scopes| == |db.scopes|
            && forall s :: 0 <= s < |db.scopes| ==>
                 next.scopes[s] == db.scopes[s] ||
                 (!ActiveScope(next.scopes[s].status) && next.scopes[s].error == Some(LeaseExpired))
  {
    if n > 0 {
      RecoverySettles(db, n - 1, cutoff, locked, now);
    }
  }

  lemma DoSettles(sys: System, a: Action)
    requires !a.SubmitAction?
    ensures Settles(sys.db, Do(sys, a).db)
  {
    match a
    case RecoverAction(cutoff, locked, now) => RecoverySettles(sys.db, |sys.db.runs|, cutoff, locked, now);
    case BeginAction(s, now) =>
    case _ =>
  }

  lemma DoKeepsQuiet(sys: System, a: Action)
    requires Inv(sys.db) && Quiet(sys.db.scopes) && !a.SubmitAction?
    ensures Quiet(Do(sys, a).db.scopes)
  {
    DoSettles(sys, a);
    DoKeeps(sys, a);
    var scopes, next := sys.db.scopes, Do(sys, a).db.scopes;
    forall i, j | 0 <= i < |next| && 0 <= j < |next| && next[i].status.ScopeRunning? && ActiveScope(next[j].status)
      ensures !Conflicts(next[i], next[j])
    {
      assert SameScope(scopes[i], next[i]) && SameScope(scopes[j], next[j]);
      assert ActiveScope(scopes[j].status);
      if Conflicts(scopes[i], scopes[j]) {
        assert Conflicts(scopes[j], scopes[i]);
        assert !scopes[i].status.ScopeRunning?;
        assert Overlaps(scopes, scopes[i]);
      }
    }
  }

  lemma {:induction false} DoAllKeepsQuiet(sys: System, actions: seq<Action>)
    requires Inv(sys.db) && Quiet(sys.db.scopes) && NoArrivals(actions)
    ensures Quiet(DoAll(sys, actions).db.scopes)
    decreases |actions|
  {
    if actions != [] {
      DoKeepsQuiet(sys, actions[0]);
      DoKeeps(sys, actions[0]);
      DoAllKeepsQuiet(Do(sys, actions[0]), actions[1..]);
    }
  }

  // Without new arrivals, whoever is claimed last among conflicting scopes gets to run: once no
  // conflicting scope is pending any more, none is running either.
  lemma LastClaimedIsAcquired(sys: System, actions: seq<Action>, z: nat, now: int)
    requires Inv(sys.db) && Quiet(sys.db.scopes) && NoArrivals(actions)
    requires var db := DoAll(sys, actions).db;
             && Claimed(db, z) && db.scopes[z].status.ScopePending?
             && forall i :: 0 <= i < |db.scopes| && Conflicts(db.scopes[i], db.scopes[z]) ==>
                  !db.scopes[i].status.ScopePending?
    ensures Do(DoAll(sys, actions), BeginAction(z, now)).db.scopes[z].status.ScopeRunning?
  {
    var db := DoAll(sys, actions).db;
    DoAllKeepsQuiet(sys, actions);
    AcquiredExactlyWhenAlone(db, z, now);
  }

  // --------------------------------------------------------------------------------------------
  // Losing
  // --------------------------------------------------------------------------------------------

  // Losing is possible only by a skip while another contender is active, or by a pending rejection.
  lemma LosingNeedsContender(sys: System, a: Action, g: nat)
    requires g < |sys.db.scopes| && g < |Do(sys, a).db.scopes|
    requires !LostToConflict(sys.db.scopes[g]) && LostToConflict(Do(sys, a).db.scopes[g])
    ensures a.FailRejectedAction? ==> a.scope == g && g in sys.rejected
    ensures !a.FailRejectedAction? ==>
              && a.BeginAction? && a.scope == g && Overlaps(sys.db.scopes, sys.db.scopes[g])
              && forall s :: 0 <= s < |sys.db.scopes| && s != g && s < |Do(sys, a).db.scopes| ==>
                   Do(sys, a).db.scopes[s] == sys.db.scopes[s]
  {
    match a
    case RecoverAction(cutoff, locked, now) => RecoverySettles(sys.db, |sys.db.runs|, cutoff, locked, now);
    case _ =>
  }

  lemma ManualStays(db: Tables, next: Tables, s: nat)
    requires Absorbs(db, next) && s < |db.scopes| && db.scopes[s].runId < |db.runs|
    ensures IsManual(next, s) <==> IsManual(db, s)
  {
    assert SameScope(db.scopes[s], next.scopes[s]);
    assert SameRun(db.runs[db.scopes[s].runId], next.runs[db.scopes[s].runId]);
  }

  lemma RejectingIsManual(sys: System, a: Action)
    ensures forall s :: s in Do(sys, a).rejected && s !in sys.rejected ==> IsManual(sys.db, s)
  {
  }

  lemma DoKeepsRejected(sys: System, a: Action)
    requires Inv(sys.db) && RejectedAreManual(sys)
    ensures RejectedAreManual(Do(sys, a))
  {
    DoKeeps(sys, a);
    RejectingIsManual(sys, a);
    forall s | s in Do(sys, a).rejected ensures IsManual(Do(sys, a).db, s) {
      ManualStays(sys.db, Do(sys, a).db, s);
    }
  }

  // --------------------------------------------------------------------------------------------
  // Scopes of automatic runs never all lose, arrivals included
  // --------------------------------------------------------------------------------------------

  // Scope s was active at the start, or was submitted since.
  predicate ActiveSince(start: Tables, s: nat) {
    s >= |start.scopes| || ActiveScope(start.scopes[s].status)
  }

  // Scopes of automatic runs, together with every scope active since the start that conflicts with one.
  ghost predicate Cluster(start: Tables, db: Tables, h: set<nat>) {
    && h != {}
    && (forall g :: g in h ==> g < |db.scopes| && ActiveSince(start, g) && !IsManual(db, g))
    && (forall g, s: nat :: g in h && InTheWay(start, db, s, g) ==> s in h)
  }

  predicate InTheWay(start: Tables, db: Tables, s: nat, g: nat) {
    s < |db.scopes| && g < |db.scopes| && ActiveSince(start, s) && Conflicts(db.scopes[s], db.scopes[g])
  }

  ghost predicate SomeoneEscapes(db: Tables, group: set<nat>) {
    exists g :: g in group && g < |db.scopes| && !LostToConflict(db.scopes[g])
  }

  ghost predicate NoClusterLost(start: Tables, db: Tables) {
    forall h :: Cluster(start, db, h) ==> SomeoneEscapes(db, h)
  }

  lemma ArrivalsWait(sys: System, a: Action, s: nat)
    requires |sys.db.scopes| <= s < |Do(sys, a).db.scopes|
    ensures Do(sys, a).db.scopes[s].status.ScopePending?
  {
    match a
    case RecoverAction(cutoff, locked, now) => RecoverySettles(sys.db, |sys.db.runs|, cutoff, locked, now);
    case _ =>
  }

  // Without its arrivals, a cluster was one before the step.
  lemma ClusterBefore(start: Tables, db: Tables, next: Tables, h: set<nat>)
    requires forall s :: 0 <= s < |db.scopes| ==> db.scopes[s].runId < |db.runs|
    requires Absorbs(db, next) && Cluster(start, next, h)
    requires forall g :: g in h ==> g < |db.scopes|
    ensures Cluster(start, db, h)
  {
    forall g | g in h ensures g < |db.scopes| && ActiveSince(start, g) && !IsManual(db, g) {
      ManualStays(db, next, g);
    }
    forall g, s: nat | g in h && InTheWay(start, db, s, g) ensures s in h {
      assert SameScope(db.scopes[g], next.scopes[g]) && SameScope(db.scopes[s], next.scopes[s]);
      assert InTheWay(start, next, s, g);
    }
  }

  lemma RunsKnown(db: Tables)
    requires Inv(db)
    ensures forall s :: 0 <= s < |db.scopes| ==> db.scopes[s].runId < |db.runs|
  {
    forall s | 0 <= s < |db.scopes| ensures db.scopes[s].runId < |db.runs| {
      assert ScopeOk(db, s);
    }
  }

  // The step in which a cluster member loses leaves the contender it saw.
  lemma ContenderStays(start: Tables, sys: System, a: Action, h: set<nat>, g: nat)
    requires Inv(sys.db) && RejectedAreManual(sys) && Absorbs(start, sys.db)
    requires Cluster(start, sys.db, h) && g in h
    requires g < |Do(sys, a).db.scopes| && |sys.db.scopes| <= |Do(sys, a).db.scopes|
    requires !LostToConflict(sys.db.scopes[g]) && LostToConflict(Do(sys, a).db.scopes[g])
    ensures SomeoneEscapes(Do(sys, a).db, h)
  {
    LosingNeedsContender(sys, a, g);
    assert !IsManual(sys.db, g);
    var w :| 0 <= w < |sys.db.scopes| && ActiveScope(sys.db.scopes[w].status) && Conflicts(sys.db.scopes[w], sys.db.scopes[g]);
    assert InTheWay(start, sys.db, w, g);
    assert w in h && Do(sys, a).db.scopes[w] == sys.db.scopes[w];
  }

  lemma DoKeepsClusters(start: Tables, sys: System, a: Action)
    requires Inv(sys.db) && RejectedAreManual(sys) && Absorbs(start, sys.db) && NoClusterLost(start, sys.db)
    ensures NoClusterLost(start, Do(sys, a).db)
  {
    var next := Do(sys, a).db;
    DoKeeps(sys, a);
    forall h | Cluster(start, next, h) ensures SomeoneEscapes(next, h) {
      if g :| g in h && g >= |sys.db.scopes| {
        ArrivalsWait(sys, a, g);
        assert !LostToConflict(next.scopes[g]);
      } else {
        RunsKnown(sys.db);
        ClusterBefore(start, sys.db, next, h);
        var g :| g in h && g < |sys.db.scopes| && !LostToConflict(sys.db.scopes[g]);
        if LostToConflict(next.scopes[g]) {
          ContenderStays(start, sys, a, h, g);
        }
      }
    }
  }

  lemma {:induction false} DoAllKeepsClusters(start: Tables, sys: System, actions: seq<Action>)
    requires Inv(sys.db) && RejectedAreManual(sys) && Absorbs(start, sys.db) && NoClusterLost(start, sys.db)
    ensures NoClusterLost(start, DoAll(sys, actions).db)
    decreases |actions|
  {
    if actions != [] {
      var next := Do(sys, actions[0]);
      DoKeeps(sys, actions[0]);
      DoKeepsRejected(sys, actions[0]);
      DoKeepsClusters(start, sys, actions[0]);
      AbsorbsTransitively(start, sys.db, next.db);
      DoAllKeepsClusters(start, next, actions[1..]);
    }
  }

  // However claims, completions, failures, recoveries and submissions interleave: scopes of automatic
  // runs, taken together with all that conflict with them and were active since the start, later
  // submissions included, never all end skipped.
  lemma AutomaticClustersNeverAllLose(sys: System, actions: seq<Action>, h: set<nat>)
    requires Inv(sys.db) && RejectedAreManual(sys)
    requires Cluster(sys.db, DoAll(sys, actions).db, h)
    ensures SomeoneEscapes(DoAll(sys, actions).db, h)
  {
    forall k | Cluster(sys.db, sys.db, k) ensures SomeoneEscapes(sys.db, k) {
      var g :| g in k;
      assert ActiveScope(sys.db.scopes[g].status);
    }
    DoAllKeepsClusters(sys.db, sys, actions);
  }

  // --------------------------------------------------------------------------------------------
  // Nobody in the way means nobody loses
  // --------------------------------------------------------------------------------------------

  predicate Contested(db: Tables, g: nat) {
    exists s :: 0 <= s < |db.scopes| && Contends(db, s, g)
  }

  // An active scope nobody contends with and nobody has rejected.
  ghost predicate Unopposed(sys: System, g: nat) {
    && g < |sys.db.scopes| && sys.db.scopes[g].runId < |sys.db.runs|
    && g !in sys.rejected && !LostToConflict(sys.db.scopes[g]) && !Contested(sys.db, g)
  }

  lemma OverlapIsContest(db: Tables, g: nat)
    requires g < |db.scopes|
    ensures Overlaps(db.scopes, db.scopes[g]) <==> Contested(db, g)
  {
    if Overlaps(db.scopes, db.scopes[g]) {
      var i :| 0 <= i < |db.scopes| && ActiveScope(db.scopes[i].status) && Conflicts(db.scopes[i], db.scopes[g]);
      assert Contends(db, i, g);
    }
  }

  // Without arrivals nobody becomes contested.
  lemma ContestsOnlyFade(sys: System, a: Action, g: nat)
    requires Inv(sys.db) && !a.SubmitAction? && g < |sys.db.scopes| && !Contested(sys.db, g)
    ensures !Contested(Do(sys, a).db, g)
  {
    var next := Do(sys, a).db;
    DoKeeps(sys, a);
    DoSettles(sys, a);
    if Contested(next, g) {
      var s :| 0 <= s < |next.scopes| && Contends(next, s, g);
      assert SameScope(sys.db.scopes[s], next.scopes[s]) && SameScope(sys.db.scopes[g], next.scopes[g]);
      assert Contends(sys.db, s, g);
    }
  }

  lemma DoKeepsUnopposed(sys: System, a: Action, g: nat)
    requires Inv(sys.db) && Unopposed(sys, g) && !a.SubmitAction?
    ensures Unopposed(Do(sys, a), g)
  {
    DoKeeps(sys, a);
    DoSettles(sys, a);
    ContestsOnlyFade(sys, a, g);
    OverlapIsContest(sys.db, g);
    assert SameScope(sys.db.scopes[g], Do(sys, a).db.scopes[g]);
    if LostToConflict(Do(sys, a).db.scopes[g]) {
      LosingNeedsContender(sys, a, g);
    }
  }

  lemma {:induction false} UnopposedNeverLoses(sys: System, actions: seq<Action>, g: nat)
    requires Inv(sys.db) && Unopposed(sys, g) && NoArrivals(actions)
    ensures Unopposed(DoAll(sys, actions), g)
    decreases |actions|
  {
    if actions != [] {
      DoKeepsUnopposed(sys, actions[0], g);
      DoKeeps(sys, actions[0]);
      UnopposedNeverLoses(Do(sys, actions[0]), actions[1..], g);
    }
  }

  lemma {:induction false} DoAllAppends(sys: System, first: seq<Action>, second: seq<Action>)
    ensures DoAll(sys, first + second) == DoAll(DoAll(sys, first), second)
    decreases |first|
  {
    if first == [] {
      assert first + second == second;
    } else {
      assert (first + second)[1..] == first[1..] + second;
      DoAllAppends(Do(sys, first[0]), first[1..], second);
    }
  }
}
