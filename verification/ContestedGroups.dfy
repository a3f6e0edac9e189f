/** Which sets of waiting scopes can come to nothing: the exact condition under which overlapping scopes all
    end skipped or rejected, and what that means for the days they want. */
module ContestedGroups {
  import opened Common
  import opened IngestionTables
  import opened IngestionProtocol
  import opened ConflictOutcomes
  import opened WorkerOrder

  // A finite set of waiting scopes of claimed runs, with every active scope that contends with one of them.
  ghost predicate Waiting(sys: System, group: set<nat>) {
    && Inv(sys.db) && RejectedAreManual(sys)
    && (forall g :: g in group ==> Claimed(sys.db, g) && sys.db.scopes[g].status.ScopePending? && g !in sys.rejected)
    && (forall g, s: nat :: g in group && Contends(sys.db, s, g) ==> s in group)
  }

  predicate AllLost(db: Tables, group: set<nat>) {
    forall g :: g in group ==> g < |db.scopes| && LostToConflict(db.scopes[g])
  }

  // With each worker going through its run in order, and without new submissions, some interleaving ends
  // with every one of them lost.
  ghost predicate CanAllLose(ids: Ids, sys: System, group: set<nat>) {
    exists actions :: Possible(ids, sys, actions) && AllLost(DoAll(sys, actions).db, group)
  }

  // The scopes that lose their claim in one transaction and end in another, that of the handler.
  function Manuals(db: Tables, group: set<nat>): set<nat> {
    set g | g in group && IsManual(db, g)
  }

  // --------------------------------------------------------------------------------------------
  // Losing them all
  // --------------------------------------------------------------------------------------------

  lemma ClaimIsSkipped(sys: System, s: nat, w: nat)
    requires Claimed(sys.db, s) && ActiveScope(sys.db.scopes[s].status) && !IsManual(sys.db, s) && Contends(sys.db, w, s)
    ensures var next := Do(sys, BeginAction(s, 0));
            OnlyRow(sys.db, next.db, s) && next.rejected == sys.rejected && LostToConflict(next.db.scopes[s])
  {
    assert Overlaps(sys.db.scopes, sys.db.scopes[s]);
  }

  lemma ClaimIsRejected(sys: System, s: nat, w: nat)
    requires Claimed(sys.db, s) && IsManual(sys.db, s) && Contends(sys.db, w, s)
    ensures Do(sys, BeginAction(s, 0)) == sys.(rejected := sys.rejected + {s})
  {
    assert Overlaps(sys.db.scopes, sys.db.scopes[s]);
  }

  lemma HandlerFails(sys: System, s: nat)
    requires Claimed(sys.db, s) && ActiveScope(sys.db.scopes[s].status) && s in sys.rejected
    ensures var next := Do(sys, FailRejectedAction(s, 0));
            OnlyRow(sys.db, next.db, s) && next.rejected == sys.rejected - {s} && LostToConflict(next.db.scopes[s])
  {
  }

  lemma WorkFails(sys: System, s: nat)
    requires Claimed(sys.db, s) && ActiveScope(sys.db.scopes[s].status)
    ensures var next := Do(sys, FailAction(s, 0));
            OnlyRow(sys.db, next.db, s) && next.rejected == sys.rejected && !ActiveScope(next.db.scopes[s].status)
  {
  }

  // These claims and endings have happened, and no others of the group.
  ghost predicate Standing(start: System, sys: System, group: set<nat>, claims: set<nat>, ends: set<nat>) {
    && SameAsking(start.db, sys.db)
    && (forall g :: g in group && g < |start.db.scopes| ==>
          if g in ends then LostToConflict(sys.db.scopes[g]) else sys.db.scopes[g] == start.db.scopes[g])
    && (forall g :: g in group ==> (g in sys.rejected <==> g in claims - ends))
  }

  // A scope outside the group that is in turn, out of the way.
  lemma OneOutOfTheWay(ids: Ids, start: System, sys: System, group: set<nat>, claims: set<nat>, ends: set<nat>, p: nat)
    returns (a: Action)
    requires Standing(start, sys, group, claims, ends) && p !in group && InTurn(ids, sys.db, p)
    requires Claimed(sys.db, p) && ActiveScope(sys.db.scopes[p].status)
    ensures Orderly(ids, sys, a) && !a.SubmitAction? && Standing(start, Do(sys, a), group, claims, ends)
    ensures OnlyRow(sys.db, Do(sys, a).db, p) && !ActiveScope(Do(sys, a).db.scopes[p].status)
  {
    if p in sys.rejected {
      a := FailRejectedAction(p, 0);
      HandlerFails(sys, p);
    } else {
      a := FailAction(p, 0);
      WorkFails(sys, p);
    }
  }

  // The worker comes to scope s: what is left before it in its run, outside the group, fails.
  lemma {:induction false} ComeTo(ids: Ids, start: System, sys: System, group: set<nat>, claims: set<nat>, ends: set<nat>,
                                  s: nat) returns (actions: seq<Action>)
    requires Standing(start, sys, group, claims, ends) && Claimed(start.db, s)
    requires forall p :: p in group && Earlier(ids, start.db, p, s) ==> p in ends
    ensures Possible(ids, sys, actions) && Standing(start, DoAll(sys, actions), group, claims, ends)
    ensures InTurn(ids, DoAll(sys, actions).db, s)
    decreases ActiveEarlier(ids, sys.db, s)
  {
    AskingDecides(ids, start.db, sys.db);
    if ActiveEarlier(ids, sys.db, s) == {} {
      actions := [];
      NoneEarlierMeansInTurn(ids, sys.db, s);
    } else {
      var p := FirstActive(ids, sys.db, s);
      assert p !in group;
      var a := OneOutOfTheWay(ids, start, sys, group, claims, ends, p);
      OneLessActive(ids, sys.db, Do(sys, a).db, s, p);
      var rest := ComeTo(ids, start, Do(sys, a), group, claims, ends, s);
      PossibleStep(ids, sys, a);
      PossibleAppends(ids, sys, [a], rest);
      actions := [a] + rest;
    }
  }

  // The ending of a rejected scope.
  lemma OneMoreHandled(ids: Ids, start: System, sys: System, group: set<nat>, claims: set<nat>, ends: set<nat>, s: nat)
    requires Waiting(start, group) && claims <= group && s in claims && s in ends
    requires Standing(start, sys, group, claims, ends - {s})
    ensures Orderly(ids, sys, FailRejectedAction(s, 0))
    ensures Standing(start, Do(sys, FailRejectedAction(s, 0)), group, claims, ends)
  {
    assert s in claims - (ends - {s});
    HandlerFails(sys, s);
  }

  // The claim of scope s, which is also its ending unless its run is manual.
  lemma OneMoreClaimed(ids: Ids, start: System, sys: System, group: set<nat>, claims: set<nat>, ends: set<nat>, s: nat, w: nat)
    requires Waiting(start, group) && claims <= group && s in claims && (s in ends <==> !IsManual(start.db, s))
    requires SeesContender(start.db, s, ends, w) && InTurn(ids, sys.db, s)
    requires Standing(start, sys, group, claims - {s}, ends - {s})
    ensures Orderly(ids, sys, BeginAction(s, 0))
    ensures Standing(start, Do(sys, BeginAction(s, 0)), group, claims, ends)
  {
    AskingDecides(ids, start.db, sys.db);
    assert w in group && sys.db.scopes[w] == start.db.scopes[w] && sys.db.scopes[s] == start.db.scopes[s];
    assert s !in sys.rejected && Contends(sys.db, w, s);
    if IsManual(start.db, s) {
      ClaimIsRejected(sys, s, w);
      assert ends - {s} == ends;
    } else {
      ClaimIsSkipped(sys, s, w);
    }
  }

  // The last of these claims and endings, after the others.
  lemma LastStep(ids: Ids, start: System, sys: System, group: set<nat>, claims: set<nat>, ends: set<nat>, s: nat)
    returns (actions: seq<Action>)
    requires Waiting(start, group) && Beginning(ids, start.db, group, Manuals(start.db, group), claims, ends) && s in claims
    requires s in ends || IsManual(start.db, s)
    requires !(s in ends && IsManual(start.db, s)) ==> exists w: nat :: SeesContender(start.db, s, ends, w)
    requires Standing(start, sys, group, if s in ends && IsManual(start.db, s) then claims else claims - {s}, ends - {s})
    ensures Possible(ids, sys, actions) && Standing(start, DoAll(sys, actions), group, claims, ends)
  {
    if s in ends && IsManual(start.db, s) {
      OneMoreHandled(ids, start, sys, group, claims, ends, s);
      PossibleStep(ids, sys, FailRejectedAction(s, 0));
      actions := [FailRejectedAction(s, 0)];
    } else {
      var w: nat :| SeesContender(start.db, s, ends, w);
      forall p | p in group && Earlier(ids, start.db, p, s) ensures p in ends - {s} {
        assert p in ends && p != s;
      }
      var way := ComeTo(ids, start, sys, group, claims - {s}, ends - {s}, s);
      var there := DoAll(sys, way);
      OneMoreClaimed(ids, start, there, group, claims, ends, s, w);
      PossibleStep(ids, there, BeginAction(s, 0));
      PossibleAppends(ids, sys, way, [BeginAction(s, 0)]);
      actions := way + [BeginAction(s, 0)];
    }
  }

  // Any beginning of the claims and endings can happen.
  lemma {:induction false} Reach(ids: Ids, start: System, group: set<nat>, claims: set<nat>, ends: set<nat>)
    returns (actions: seq<Action>)
    requires Waiting(start, group) && SetsHaveLast(ids, start.db, group, Manuals(start.db, group))
    requires Beginning(ids, start.db, group, Manuals(start.db, group), claims, ends)
    ensures Possible(ids, start, actions) && Standing(start, DoAll(start, actions), group, claims, ends)
    decreases claims, ends
  {
    if claims == {} {
      actions := [];
    } else {
      var s, ending := PickLast(ids, start.db, group, Manuals(start.db, group), claims, ends);
      var before := if ending && s in Manuals(start.db, group) then claims else claims - {s};
      var earlier := Reach(ids, start, group, before, ends - {s});
      var last := LastStep(ids, start, DoAll(start, earlier), group, claims, ends, s);
      PossibleAppends(ids, start, earlier, last);
      actions := earlier + last;
    }
  }

  lemma OrderedCanAllLose(ids: Ids, sys: System, group: set<nat>)
    requires Waiting(sys, group) && SetsHaveLast(ids, sys.db, group, Manuals(sys.db, group))
    ensures CanAllLose(ids, sys, group)
  {
    var actions := Reach(ids, sys, group, group, group);
    assert AllLost(DoAll(sys, actions).db, group);
  }

  // --------------------------------------------------------------------------------------------
  // And only then
  // --------------------------------------------------------------------------------------------

  predicate Lost(db: Tables, s: nat) {
    s < |db.scopes| && LostToConflict(db.scopes[s])
  }

  // Lost, or rejected and about to be.
  predicate LostClaim(sys: System, s: nat) {
    Lost(sys.db, s) || s in sys.rejected
  }

  // One of the endings, or of the claims, has yet to come.
  ghost predicate SomeLeft(sys: System, claims: set<nat>, ends: set<nat>) {
    (exists x :: x in ends && !Lost(sys.db, x)) || (exists y :: y in claims && !LostClaim(sys, y))
  }

  // A scope that lost its claim was in turn.
  ghost predicate TurnsKept(ids: Ids, sys: System, claims: set<nat>) {
    forall y :: y in claims && LostClaim(sys, y) ==> InTurn(ids, sys.db, y)
  }

  lemma ClaimLostByBeginning(sys: System, a: Action, s: nat)
    requires s < |sys.db.scopes| && !a.SubmitAction? && LostClaim(Do(sys, a), s) && !LostClaim(sys, s)
    ensures a.BeginAction? && a.scope == s && Overlaps(sys.db.scopes, sys.db.scopes[s])
    ensures if IsManual(sys.db, s) then Do(sys, a).db == sys.db else Lost(Do(sys, a).db, s)
  {
    DoSettles(sys, a);
    if Lost(Do(sys, a).db, s) {
      LosingNeedsContender(sys, a, s);
    }
  }

  lemma DoKeepsTurns(ids: Ids, sys: System, a: Action, claims: set<nat>)
    requires Inv(sys.db) && Orderly(ids, sys, a) && !a.SubmitAction? && TurnsKept(ids, sys, claims)
    requires forall y :: y in claims ==> y < |sys.db.scopes|
    ensures TurnsKept(ids, Do(sys, a), claims)
  {
    DoKeeps(sys, a);
    DoSettles(sys, a);
    forall y | y in claims && LostClaim(Do(sys, a), y) ensures InTurn(ids, Do(sys, a).db, y) {
      if !LostClaim(sys, y) {
        ClaimLostByBeginning(sys, a, y);
      }
      InTurnStays(ids, sys.db, Do(sys, a).db, y);
    }
  }

  // A state reached from `start` by orderly workers, and a set of claims and endings with no last.
  ghost predicate Endless(ids: Ids, start: System, sys: System, group: set<nat>, claims: set<nat>, ends: set<nat>) {
    && Inv(sys.db) && RejectedAreManual(sys) && Absorbs(start.db, sys.db) && |sys.db.scopes| == |start.db.scopes|
    && Waiting(start, group) && claims <= group && ends <= group
    && NoneLast(ids, start.db, Manuals(start.db, group), claims, ends)
    && TurnsKept(ids, sys, claims)
  }

  // When a scope ends whose worker's next claim is in the set, that claim has yet to come.
  lemma NextClaimLeft(ids: Ids, start: System, sys: System, a: Action, group: set<nat>, claims: set<nat>, ends: set<nat>, x: nat)
    requires Endless(ids, start, sys, group, claims, ends) && Orderly(ids, sys, a) && !a.SubmitAction?
    requires x in ends && !Lost(sys.db, x) && Lost(Do(sys, a).db, x) && NextClaimIn(ids, start.db, x, claims)
    ensures SomeLeft(Do(sys, a), claims, ends)
  {
    var n :| n in claims && Earlier(ids, start.db, x, n);
    DoKeeps(sys, a);
    assert SameScope(start.db.scopes[x], sys.db.scopes[x]) && SameScope(start.db.scopes[n], sys.db.scopes[n]);
    assert Earlier(ids, sys.db, x, n) && ActiveScope(sys.db.scopes[x].status);
    assert !LostClaim(sys, n);
    if LostClaim(Do(sys, a), n) {
      ClaimLostByBeginning(sys, a, n);
      assert false;
    }
  }

  lemma EndingLeavesSome(ids: Ids, start: System, sys: System, a: Action, group: set<nat>, claims: set<nat>, ends: set<nat>, x: nat)
    requires Endless(ids, start, sys, group, claims, ends) && Orderly(ids, sys, a) && !a.SubmitAction?
    requires x in ends && !Lost(sys.db, x)
    ensures SomeLeft(Do(sys, a), claims, ends)
  {
    DoSettles(sys, a);
    if Lost(Do(sys, a).db, x) {
      if NextClaimIn(ids, start.db, x, claims) {
        NextClaimLeft(ids, start, sys, a, group, claims, ends, x);
      } else {
        ManualStays(start.db, sys.db, x);
        LosingNeedsContender(sys, a, x);
        var w := OverlapFromStart(start.db, sys.db, x);
        assert w in ends && Do(sys, a).db.scopes[w] == sys.db.scopes[w];
      }
    }
  }

  lemma ClaimLeavesSome(ids: Ids, start: System, sys: System, a: Action, group: set<nat>, claims: set<nat>, ends: set<nat>, y: nat)
    requires Endless(ids, start, sys, group, claims, ends) && Orderly(ids, sys, a) && !a.SubmitAction?
    requires y in claims && y !in ends && !LostClaim(sys, y)
    ensures SomeLeft(Do(sys, a), claims, ends)
  {
    if LostClaim(Do(sys, a), y) {
      ClaimLostByBeginning(sys, a, y);
      ManualStays(start.db, sys.db, y);
      var w := OverlapFromStart(start.db, sys.db, y);
      assert w in ends && !Lost(Do(sys, a).db, w);
    }
  }

  lemma DoLeavesSome(ids: Ids, start: System, sys: System, a: Action, group: set<nat>, claims: set<nat>, ends: set<nat>)
    requires Endless(ids, start, sys, group, claims, ends) && SomeLeft(sys, claims, ends)
    requires Orderly(ids, sys, a) && !a.SubmitAction?
    ensures Endless(ids, start, Do(sys, a), group, claims, ends) && SomeLeft(Do(sys, a), claims, ends)
  {
    if x :| x in ends && !Lost(sys.db, x) {
      EndingLeavesSome(ids, start, sys, a, group, claims, ends, x);
    } else {
      var y :| y in claims && !LostClaim(sys, y);
      ClaimLeavesSome(ids, start, sys, a, group, claims, ends, y);
    }
    DoKeepsEndless(ids, start, sys, a, group, claims, ends);
  }

  lemma DoKeepsEndless(ids: Ids, start: System, sys: System, a: Action, group: set<nat>, claims: set<nat>, ends: set<nat>)
    requires Endless(ids, start, sys, group, claims, ends) && Orderly(ids, sys, a) && !a.SubmitAction?
    ensures Endless(ids, start, Do(sys, a), group, claims, ends)
  {
    DoKeeps(sys, a);
    DoKeepsRejected(sys, a);
    DoSettles(sys, a);
    AbsorbsTransitively(start.db, sys.db, Do(sys, a).db);
    DoKeepsTurns(ids, sys, a, claims);
  }

  lemma {:induction false} AllLeaveSome(ids: Ids, start: System, sys: System, actions: seq<Action>, group: set<nat>,
                                        claims: set<nat>, ends: set<nat>)
    requires Endless(ids, start, sys, group, claims, ends) && SomeLeft(sys, claims, ends) && Possible(ids, sys, actions)
    ensures SomeLeft(DoAll(sys, actions), claims, ends)
    decreases |actions|
  {
    if actions != [] {
      DoLeavesSome(ids, start, sys, actions[0], group, claims, ends);
      AllLeaveSome(ids, start, Do(sys, actions[0]), actions[1..], group, claims, ends);
    }
  }

  lemma EndlessNeverAllLose(ids: Ids, sys: System, actions: seq<Action>, group: set<nat>, claims: set<nat>, ends: set<nat>)
    requires Waiting(sys, group) && Possible(ids, sys, actions) && AllLost(DoAll(sys, actions).db, group)
    requires claims <= group && ends <= group && NoneLast(ids, sys.db, Manuals(sys.db, group), claims, ends)
    ensures claims == {} && ends == {}
  {
    if claims != {} || ends != {} {
      EndlessAtFirst(ids, sys, group, claims, ends);
      AllLeaveSome(ids, sys, sys, actions, group, claims, ends);
      assert false;
    }
  }

  lemma EndlessAtFirst(ids: Ids, sys: System, group: set<nat>, claims: set<nat>, ends: set<nat>)
    requires Waiting(sys, group) && (claims != {} || ends != {})
    requires claims <= group && ends <= group && NoneLast(ids, sys.db, Manuals(sys.db, group), claims, ends)
    ensures Endless(ids, sys, sys, group, claims, ends) && SomeLeft(sys, claims, ends)
  {
    forall g | g in group ensures !Lost(sys.db, g) && !LostClaim(sys, g) {
    }
    if ends != {} {
      var x :| x in ends;
      assert !Lost(sys.db, x);
    } else {
      var y :| y in claims;
      assert !LostClaim(sys, y);
    }
  }

  // Main result.  Take any finite set of waiting scopes, closed under contention, and let each worker go
  // through its run in order.  Without new submissions all of them can end skipped or rejected exactly when
  // every set of their claims and endings has one that can be the last.
  lemma AllLoseExactlyWhenOrdered(ids: Ids, sys: System, group: set<nat>)
    requires Waiting(sys, group)
    ensures CanAllLose(ids, sys, group) <==> SetsHaveLast(ids, sys.db, group, Manuals(sys.db, group))
  {
    if CanAllLose(ids, sys, group) {
      var actions :| Possible(ids, sys, actions) && AllLost(DoAll(sys, actions).db, group);
      forall claims: set<nat>, ends: set<nat> |
        claims <= group && ends <= group && NoneLast(ids, sys.db, Manuals(sys.db, group), claims, ends)
        ensures claims == {} && ends == {}
      {
        EndlessNeverAllLose(ids, sys, actions, group, claims, ends);
      }
    }
    if SetsHaveLast(ids, sys.db, group, Manuals(sys.db, group)) {
      OrderedCanAllLose(ids, sys, group);
    }
  }

  // --------------------------------------------------------------------------------------------
  // Scopes of different runs
  // --------------------------------------------------------------------------------------------

  // A path of conflicting scopes of the group that ends at a scope of a manual run.
  predicate Chain(db: Tables, group: set<nat>, path: seq<nat>) {
    && path != []
    && (forall i :: 0 <= i < |path| ==> path[i] in group && path[i] < |db.scopes|)
    && (forall i :: 1 <= i < |path| ==> Conflicts(db.scopes[path[i - 1]], db.scopes[path[i]]))
    && IsManual(db, path[|path| - 1])
  }

  ghost predicate LinkedToManual(db: Tables, group: set<nat>, g: nat) {
    exists path :: Chain(db, group, path) && path[0] == g
  }

  // Contested, and linked to a manual scope by a chain of conflicts.
  ghost predicate Exposed(db: Tables, group: set<nat>, g: nat) {
    Contested(db, g) && LinkedToManual(db, group, g)
  }

  // What contends with a scope that is not linked to a manual one is not linked either.
  lemma UnlinkedSpreads(db: Tables, group: set<nat>, g: nat, s: nat)
    requires g in group && s in group && g < |db.scopes| && s < |db.scopes| && Conflicts(db.scopes[s], db.scopes[g])
    requires LinkedToManual(db, group, s)
    ensures LinkedToManual(db, group, g)
  {
    var path :| Chain(db, group, path) && path[0] == s;
    var longer := [g] + path;
    forall i | 1 <= i < |longer| ensures Conflicts(db.scopes[longer[i - 1]], db.scopes[longer[i]]) {
      assert i > 1 ==> longer[i - 1] == path[i - 2] && longer[i] == path[i - 1];
      assert i > 1 ==> Conflicts(db.scopes[path[i - 1 - 1]], db.scopes[path[i - 1]]);
    }
    assert Chain(db, group, longer) && longer[0] == g;
  }

  lemma ManualIsLinked(db: Tables, group: set<nat>, g: nat)
    requires g in group && IsManual(db, g)
    ensures LinkedToManual(db, group, g)
  {
    assert Chain(db, group, [g]) && [g][0] == g;
  }

  // Whatever the order, the scopes must be exposed.
  lemma LastsNeedExposure(ids: Ids, sys: System, group: set<nat>)
    requires Waiting(sys, group) && SetsHaveLast(ids, sys.db, group, Manuals(sys.db, group))
    ensures forall g :: g in group ==> Exposed(sys.db, group, g)
  {
    var h := set g | g in group && !LinkedToManual(sys.db, group, g);
    UnlinkedHaveNoLast(ids, sys, group, h);
    assert h == {};
    forall g | g in group ensures Exposed(sys.db, group, g) {
      LastsNeedContests(ids, sys.db, group, Manuals(sys.db, group), g);
      assert g !in h;
    }
  }

  lemma UnlinkedHaveNoLast(ids: Ids, sys: System, group: set<nat>, h: set<nat>)
    requires Waiting(sys, group) && forall g :: g in h <==> g in group && !LinkedToManual(sys.db, group, g)
    ensures NoneLast(ids, sys.db, Manuals(sys.db, group), {}, h)
  {
    forall x | x in h ensures x !in Manuals(sys.db, group) && ContendersIn(sys.db, x, h) {
      if IsManual(sys.db, x) {
        ManualIsLinked(sys.db, group, x);
      }
      forall w: nat | Contends(sys.db, w, x) ensures w in h {
        if LinkedToManual(sys.db, group, w) {
          UnlinkedSpreads(sys.db, group, x, w);
        }
      }
    }
  }

  // Endings that all wait for one another follow a chain up to its manual end.
  lemma {:induction false} EndsFollowChain(db: Tables, group: set<nat>, apart: set<nat>, ends: set<nat>, path: seq<nat>, i: nat)
    requires Chain(db, group, path) && i < |path| && path[0] in ends
    requires forall g :: g in group && g < |db.scopes| ==> ActiveScope(db.scopes[g].status)
    requires forall x :: x in ends ==> x !in apart && ContendersIn(db, x, ends)
    ensures path[i] in ends
  {
    if i > 0 {
      EndsFollowChain(db, group, apart, ends, path, i - 1);
      assert Conflicts(db.scopes[path[i - 1]], db.scopes[path[i]]);
      assert Contends(db, path[i], path[i - 1]);
    }
  }

  lemma ExposedEndsHaveLast(ids: Ids, sys: System, group: set<nat>, claims: set<nat>, ends: set<nat>)
    requires Waiting(sys, group) && DifferentRuns(sys.db, group) && claims <= group && ends <= group
    requires NoneLast(ids, sys.db, Manuals(sys.db, group), claims, ends)
    requires forall g :: g in group ==> LinkedToManual(sys.db, group, g)
    ensures ends == {}
  {
    var apart := Manuals(sys.db, group);
    forall x | x in ends ensures x !in apart && ContendersIn(sys.db, x, ends) {
      NoNextInRun(ids, sys.db, group, claims, x);
    }
    if x :| x in ends {
      var path :| Chain(sys.db, group, path) && path[0] == x;
      EndsFollowChain(sys.db, group, apart, ends, path, |path| - 1);
    }
  }

  // In different runs, exposure suffices.
  lemma ExposureGivesLasts(ids: Ids, sys: System, group: set<nat>)
    requires Waiting(sys, group) && DifferentRuns(sys.db, group)
    requires forall g :: g in group ==> Contested(sys.db, g) && LinkedToManual(sys.db, group, g)
    ensures SetsHaveLast(ids, sys.db, group, Manuals(sys.db, group))
  {
    forall claims: set<nat>, ends: set<nat> |
      claims <= group && ends <= group && NoneLast(ids, sys.db, Manuals(sys.db, group), claims, ends)
      ensures claims == {} && ends == {}
    {
      ExposedEndsHaveLast(ids, sys, group, claims, ends);
      ContestedClaimsHaveLast(ids, sys.db, Manuals(sys.db, group), claims);
    }
  }

  // Scopes of different runs can all lose exactly when each of them is contested and linked to a manual one.
  lemma AllLoseExactlyWhenExposed(ids: Ids, sys: System, group: set<nat>)
    requires Waiting(sys, group) && DifferentRuns(sys.db, group)
    ensures CanAllLose(ids, sys, group) <==> forall g :: g in group ==> Exposed(sys.db, group, g)
  {
    AllLoseExactlyWhenOrdered(ids, sys, group);
    if SetsHaveLast(ids, sys.db, group, Manuals(sys.db, group)) {
      LastsNeedExposure(ids, sys, group);
    }
    if forall g :: g in group ==> Exposed(sys.db, group, g) {
      assert forall g :: g in group ==> Exposed(sys.db, group, g);
      ExposureGivesLasts(ids, sys, group);
    }
  }

  // --------------------------------------------------------------------------------------------
  // Scopes that all want a common day of one series
  // --------------------------------------------------------------------------------------------

  // At least two waiting scopes, each in conflict with every other.
  ghost predicate Melee(sys: System, group: set<nat>) {
    && Waiting(sys, group) && |group| >= 2
    && (forall g, s :: g in group && s in group && g != s ==> Conflicts(sys.db.scopes[g], sys.db.scopes[s]))
  }

  lemma Another(group: set<nat>, g: nat) returns (s: nat)
    requires |group| >= 2 && g in group
    ensures s in group && s != g
  {
    assert group != {g};
    s :| s in group && s != g;
  }

  lemma MeleeRunsDiffer(sys: System, group: set<nat>)
    requires Melee(sys, group)
    ensures DifferentRuns(sys.db, group)
  {
  }

  lemma MeleeExposes(sys: System, group: set<nat>, z: nat)
    requires Melee(sys, group) && z in group && IsManual(sys.db, z)
    ensures forall g :: g in group ==> Exposed(sys.db, group, g)
  {
    ManualIsLinked(sys.db, group, z);
    forall g | g in group ensures Exposed(sys.db, group, g) {
      var s := Another(group, g);
      assert Contends(sys.db, s, g);
      if g != z {
        UnlinkedSpreads(sys.db, group, g, z);
      }
    }
  }

  lemma LinkedMeansManual(db: Tables, group: set<nat>, g: nat)
    requires LinkedToManual(db, group, g)
    ensures exists z :: z in group && IsManual(db, z)
  {
    var path :| Chain(db, group, path) && path[0] == g;
    assert path[|path| - 1] in group;
  }

  // A melee can come to nothing exactly when one of its scopes belongs to a manual run.
  lemma MeleeLosesExactlyWhenManual(ids: Ids, sys: System, group: set<nat>)
    requires Melee(sys, group)
    ensures CanAllLose(ids, sys, group) <==> exists z :: z in group && IsManual(sys.db, z)
  {
    MeleeRunsDiffer(sys, group);
    AllLoseExactlyWhenExposed(ids, sys, group);
    if z :| z in group && IsManual(sys.db, z) {
      MeleeExposes(sys, group, z);
    }
    if CanAllLose(ids, sys, group) {
      SomeoneIsManual(sys.db, group);
    }
  }

  lemma SomeoneIsManual(db: Tables, group: set<nat>)
    requires |group| >= 2 && forall g :: g in group ==> Exposed(db, group, g)
    ensures exists z :: z in group && IsManual(db, z)
  {
    assert group != {};
    var g :| g in group;
    assert Exposed(db, group, g);
    LinkedMeansManual(db, group, g);
  }

  // Two waiting scopes contend for the same dates and nobody else is in the way.
  ghost predicate Duel(sys: System, z: nat, w: nat) {
    z != w && Melee(sys, {z, w})
  }

  lemma BothLoseExactlyWhenManual(ids: Ids, sys: System, z: nat, w: nat)
    requires Duel(sys, z, w)
    ensures CanAllLose(ids, sys, {z, w}) <==> IsManual(sys.db, z) || IsManual(sys.db, w)
  {
    MeleeLosesExactlyWhenManual(ids, sys, {z, w});
  }
}
