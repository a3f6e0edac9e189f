/** What becomes of the days that contending scopes want, when one of them is skipped. */
module ContestedDays {
  import opened Common
  import opened IngestionTables
  import opened IngestionRules
  import opened IngestionProtocol
  import opened ConflictOutcomes
  import opened WorkerOrder
  import opened ContestedGroups

  // Every day a scope of the set wants is wanted by one that has not lost.
  ghost predicate DaysKept(db: Tables, group: set<nat>) {
    forall day, g :: g in group && g < |db.scopes| && Wants(db.scopes[g], day) ==>
      exists k :: k in group && k < |db.scopes| && !LostToConflict(db.scopes[k]) && Wants(db.scopes[k], day)
  }

  // Automatic scopes of one range never leave a day to nobody, later submissions of that range included.
  lemma EqualRangesKeepDays(sys: System, actions: seq<Action>, h: set<nat>, start: int, end: int)
    requires Inv(sys.db) && RejectedAreManual(sys)
    requires var db := DoAll(sys, actions).db;
             && Cluster(sys.db, db, h)
             && forall g :: g in h ==> (db.scopes[g].start, db.scopes[g].end) == (start, end)
    ensures DaysKept(DoAll(sys, actions).db, h)
  {
    AutomaticClustersNeverAllLose(sys, actions, h);
    var db := DoAll(sys, actions).db;
    var k :| k in h && k < |db.scopes| && !LostToConflict(db.scopes[k]);
    assert forall day :: start <= day <= end ==> Wants(db.scopes[k], day);
  }

  // The scope with a day of its own is claimed first, and that day is left to nobody.
  lemma LonelyDayIsDropped(ids: Ids, sys: System, z: nat, w: nat, day: int) returns (actions: seq<Action>)
    requires Duel(sys, z, w) && !IsManual(sys.db, z)
    requires Wants(sys.db.scopes[z], day) && !Wants(sys.db.scopes[w], day)
    ensures Possible(ids, sys, actions) && !DaysKept(DoAll(sys, actions).db, {z, w})
  {
    assert Conflicts(sys.db.scopes[w], sys.db.scopes[z]);
    var way := ComeTo(ids, sys, sys, {z, w}, {}, {}, z);
    var there := DoAll(sys, way);
    assert SeesContender(sys.db, z, {z}, w) && {z} - {z} == {};
    OneMoreClaimed(ids, sys, there, {z, w}, {z}, {z}, z, w);
    PossibleStep(ids, there, BeginAction(z, 0));
    PossibleAppends(ids, sys, way, [BeginAction(z, 0)]);
    actions := way + [BeginAction(z, 0)];
    var last := DoAll(sys, actions).db;
    assert SameScope(sys.db.scopes[z], last.scopes[z]) && last.scopes[w] == sys.db.scopes[w];
    assert Wants(last.scopes[z], day);
  }

  predicate SameRange(a: Scope, b: Scope) {
    a.start == b.start && a.end == b.end
  }

  ghost predicate AlwaysKeepsDays(ids: Ids, sys: System, group: set<nat>) {
    forall actions :: Possible(ids, sys, actions) ==> DaysKept(DoAll(sys, actions).db, group)
  }

  // Two contending automatic scopes always keep every day they want exactly when they want the same days.
  lemma DaysKeptExactlyWhenSameRange(ids: Ids, sys: System, z: nat, w: nat)
    requires Duel(sys, z, w) && !IsManual(sys.db, z) && !IsManual(sys.db, w)
    ensures AlwaysKeepsDays(ids, sys, {z, w}) <==> SameRange(sys.db.scopes[z], sys.db.scopes[w])
  {
    var a, b := sys.db.scopes[z], sys.db.scopes[w];
    if SameRange(a, b) {
      forall actions | Possible(ids, sys, actions) ensures DaysKept(DoAll(sys, actions).db, {z, w}) {
        DuelIsCluster(sys, actions, z, w);
        EqualRangesKeepDays(sys, actions, {z, w}, a.start, a.end);
      }
    } else {
      assert ScopeOk(sys.db, z) && ScopeOk(sys.db, w);
      var day := if a.start < b.start then a.start else if b.start < a.start then b.start
                 else if a.end > b.end then a.end else b.end;
      if Wants(a, day) && !Wants(b, day) {
        var dropped := LonelyDayIsDropped(ids, sys, z, w, day);
      } else {
        assert {w, z} == {z, w};
        var dropped := LonelyDayIsDropped(ids, sys, w, z, day);
      }
    }
  }

  lemma DuelIsCluster(sys: System, actions: seq<Action>, z: nat, w: nat)
    requires Duel(sys, z, w) && !IsManual(sys.db, z) && !IsManual(sys.db, w) && NoArrivals(actions)
    ensures Cluster(sys.db, DoAll(sys, actions).db, {z, w})
    ensures var db := DoAll(sys, actions).db;
            SameScope(sys.db.scopes[z], db.scopes[z]) && SameScope(sys.db.scopes[w], db.scopes[w])
  {
    var db := DoAll(sys, actions).db;
    DoAllKeeps(sys, actions);
    NobodyArrives(sys, actions);
    GroupIsCluster(sys, db, {z, w});
  }

  lemma GroupIsCluster(sys: System, later: Tables, group: set<nat>)
    requires Waiting(sys, group) && group != {} && forall g :: g in group ==> !IsManual(sys.db, g)
    requires Absorbs(sys.db, later) && |later.scopes| == |sys.db.scopes|
    ensures Cluster(sys.db, later, group)
  {
    forall g | g in group ensures g < |later.scopes| && ActiveSince(sys.db, g) && !IsManual(later, g) {
      assert ScopeOk(sys.db, g);
      ManualStays(sys.db, later, g);
    }
    forall g, s: nat | g in group && InTheWay(sys.db, later, s, g) ensures s in group {
      assert SameScope(sys.db.scopes[g], later.scopes[g]) && SameScope(sys.db.scopes[s], later.scopes[s]);
      assert Contends(sys.db, s, g);
    }
  }

  lemma {:induction false} NobodyArrives(sys: System, actions: seq<Action>)
    requires NoArrivals(actions)
    ensures |DoAll(sys, actions).db.scopes| == |sys.db.scopes|
    decreases |actions|
  {
    if actions != [] {
      DoSettles(sys, actions[0]);
      NobodyArrives(Do(sys, actions[0]), actions[1..]);
    }
  }
}
