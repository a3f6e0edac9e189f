/** The order in which a worker goes through the scopes of its run (`run_next` of
    `app/application/ingestion/orchestrator.py`): by identifier, each over before the next is claimed. */
module WorkerOrder {
  import opened Common
  import opened IngestionTables
  import opened IngestionProtocol
  import opened ConflictOutcomes

  // Scope identifiers; should two be equal, which primary keys exclude, the row decides.
  type Ids = nat -> int

  // Scope p comes before scope s in the list of their run.
  predicate Earlier(ids: Ids, db: Tables, p: nat, s: nat) {
    && p < |db.scopes| && s < |db.scopes| && db.scopes[p].runId == db.scopes[s].runId
    && (ids(p) < ids(s) || (ids(p) == ids(s) && p < s))
  }

  ghost predicate InTurn(ids: Ids, db: Tables, s: nat) {
    forall p: nat :: Earlier(ids, db, p, s) ==> !ActiveScope(db.scopes[p].status)
  }

  // The worker has come to scope s, and no rejection of it waits for its handler.
  ghost predicate AtHand(ids: Ids, sys: System, s: nat) {
    InTurn(ids, sys.db, s) && s !in sys.rejected
  }

  // What the workers may do next: each scope in its turn, and claimed before it runs.
  ghost predicate Orderly(ids: Ids, sys: System, a: Action) {
    match a
    case BeginAction(s, _) => AtHand(ids, sys, s) && (s < |sys.db.scopes| ==> !sys.db.scopes[s].status.ScopeRunning?)
    case SucceedAction(s, _, _) => AtHand(ids, sys, s)
    case FailAction(s, _) => AtHand(ids, sys, s)
    case _ => true
  }

  ghost predicate OrderlyAll(ids: Ids, sys: System, actions: seq<Action>)
    decreases |actions|
  {
    actions != [] ==> Orderly(ids, sys, actions[0]) && OrderlyAll(ids, Do(sys, actions[0]), actions[1..])
  }

  // What can happen while nobody submits a run.
  ghost predicate Possible(ids: Ids, sys: System, actions: seq<Action>) {
    NoArrivals(actions) && OrderlyAll(ids, sys, actions)
  }

  lemma {:induction false} OrderlyAppends(ids: Ids, sys: System, first: seq<Action>, second: seq<Action>)
    requires OrderlyAll(ids, sys, first) && OrderlyAll(ids, DoAll(sys, first), second)
    ensures OrderlyAll(ids, sys, first + second)
    decreases |first|
  {
    if first == [] {
      assert first + second == second;
    } else {
      assert (first + second)[1..] == first[1..] + second;
      OrderlyAppends(ids, Do(sys, first[0]), first[1..], second);
    }
  }

  lemma PossibleAppends(ids: Ids, sys: System, first: seq<Action>, second: seq<Action>)
    requires Possible(ids, sys, first) && Possible(ids, DoAll(sys, first), second)
    ensures Possible(ids, sys, first + second) && DoAll(sys, first + second) == DoAll(DoAll(sys, first), second)
  {
    OrderlyAppends(ids, sys, first, second);
    DoAllAppends(sys, first, second);
  }

  lemma PossibleStep(ids: Ids, sys: System, a: Action)
    requires Orderly(ids, sys, a) && !a.SubmitAction?
    ensures Possible(ids, sys, [a]) && DoAll(sys, [a]) == Do(sys, a)
  {
    assert [a][1..] == [];
    assert DoAll(sys, [a]) == DoAll(Do(sys, a), []);
    assert OrderlyAll(ids, Do(sys, a), []);
  }

  // --------------------------------------------------------------------------------------------
  // What has to come before what
  // --------------------------------------------------------------------------------------------

  // For a scope to lose, its claim must see a contender that has yet to end, and its worker's next scope
  // is claimed only when it has ended.  The scopes of `apart` end in a transaction after the one that loses
  // the claim; for all others the two are one.
  ghost predicate ContendersIn(db: Tables, g: nat, ends: set<nat>) {
    forall w: nat :: Contends(db, w, g) ==> w in ends
  }

  ghost predicate NextClaimIn(ids: Ids, db: Tables, x: nat, claims: set<nat>) {
    exists n :: n in claims && Earlier(ids, db, x, n)
  }

  // Claims and endings of which none can be the last: another of them always has to follow.
  ghost predicate NoneLast(ids: Ids, db: Tables, apart: set<nat>, claims: set<nat>, ends: set<nat>) {
    && (forall x :: x in ends ==> NextClaimIn(ids, db, x, claims) || (x !in apart && ContendersIn(db, x, ends)))
    && (forall y :: y in claims && y !in ends ==> y in apart && ContendersIn(db, y, ends))
  }

  // Any claims and endings of the group, unless there are none, include one that can be the last.
  ghost predicate SetsHaveLast(ids: Ids, db: Tables, group: set<nat>, apart: set<nat>) {
    forall claims: set<nat>, ends: set<nat> ::
      claims <= group && ends <= group && NoneLast(ids, db, apart, claims, ends) ==> claims == {} && ends == {}
  }

  // Claims and endings that can make up the first part of a course of events.
  ghost predicate Beginning(ids: Ids, db: Tables, group: set<nat>, apart: set<nat>, claims: set<nat>, ends: set<nat>) {
    && ends <= claims <= group
    && (forall x :: x in claims && x !in apart ==> x in ends)
    && (forall p, q :: p in group && q in claims && Earlier(ids, db, p, q) ==> p in ends)
  }

  ghost predicate SeesContender(db: Tables, s: nat, ends: set<nat>, w: nat) {
    Contends(db, w, s) && w !in ends
  }

  // The last of them: a claim, or an ending, which takes its claim with it when the two are one.
  lemma PickLast(ids: Ids, db: Tables, group: set<nat>, apart: set<nat>, claims: set<nat>, ends: set<nat>)
    returns (s: nat, ending: bool)
    requires SetsHaveLast(ids, db, group, apart) && Beginning(ids, db, group, apart, claims, ends) && claims != {}
    ensures s in claims && (ending <==> s in ends)
    ensures !ending ==> s in apart
    ensures !(ending && s in apart) ==> exists w: nat :: SeesContender(db, s, ends, w)
    ensures Beginning(ids, db, group, apart, if ending && s in apart then claims else claims - {s}, ends - {s})
  {
    assert !NoneLast(ids, db, apart, claims, ends);
    if y :| y in claims && y !in ends && !(y in apart && ContendersIn(db, y, ends)) {
      s, ending := y, false;
      var w: nat :| Contends(db, w, y) && w !in ends;
      assert SeesContender(db, s, ends, w);
    } else {
      s :| s in ends && !NextClaimIn(ids, db, s, claims) && !(s !in apart && ContendersIn(db, s, ends));
      ending := true;
      if s !in apart {
        var w: nat :| Contends(db, w, s) && w !in ends;
        assert SeesContender(db, s, ends, w);
      }
      forall p, q | p in group && q in claims && Earlier(ids, db, p, q) ensures p in ends - {s} {
        assert p != s;
      }
    }
  }

  // An uncontested scope can never lose its claim.
  lemma LastsNeedContests(ids: Ids, db: Tables, group: set<nat>, apart: set<nat>, g: nat)
    requires SetsHaveLast(ids, db, group, apart) && g in group
    ensures Contested(db, g)
  {
    if !Contested(db, g) {
      var claims, ends := if g in apart then {g} else {}, if g in apart then {} else {g};
      assert NoneLast(ids, db, apart, claims, ends);
    }
  }

  lemma ContestedClaimsHaveLast(ids: Ids, db: Tables, apart: set<nat>, claims: set<nat>)
    requires NoneLast(ids, db, apart, claims, {}) && forall y :: y in claims ==> Contested(db, y)
    ensures claims == {}
  {
  }

  ghost predicate DifferentRuns(db: Tables, group: set<nat>) {
    forall g, s :: g in group && s in group && g != s && g < |db.scopes| && s < |db.scopes| ==>
      db.scopes[g].runId != db.scopes[s].runId
  }

  lemma NoNextInRun(ids: Ids, db: Tables, group: set<nat>, claims: set<nat>, x: nat)
    requires DifferentRuns(db, group) && x in group && claims <= group
    ensures !NextClaimIn(ids, db, x, claims)
  {
    forall n | n in claims ensures !Earlier(ids, db, x, n) {
      assert n in group;
    }
  }

  // --------------------------------------------------------------------------------------------
  // Reaching a scope
  // --------------------------------------------------------------------------------------------

  function ActiveEarlier(ids: Ids, db: Tables, s: nat): set<nat> {
    set p: nat | p < |db.scopes| && Earlier(ids, db, p, s) && ActiveScope(db.scopes[p].status)
  }

  lemma NoneEarlierMeansInTurn(ids: Ids, db: Tables, s: nat)
    requires ActiveEarlier(ids, db, s) == {}
    ensures InTurn(ids, db, s)
  {
    forall p: nat | Earlier(ids, db, p, s) ensures !ActiveScope(db.scopes[p].status) {
      assert p !in ActiveEarlier(ids, db, s);
    }
  }

  // While scope s is not in turn, an earlier one is.
  lemma {:induction false} FirstActive(ids: Ids, db: Tables, s: nat) returns (p: nat)
    requires ActiveEarlier(ids, db, s) != {}
    ensures p in ActiveEarlier(ids, db, s) && InTurn(ids, db, p)
    decreases ActiveEarlier(ids, db, s)
  {
    p :| p in ActiveEarlier(ids, db, s);
    if ActiveEarlier(ids, db, p) == {} {
      NoneEarlierMeansInTurn(ids, db, p);
    } else {
      assert ActiveEarlier(ids, db, p) <= ActiveEarlier(ids, db, s);
      assert p !in ActiveEarlier(ids, db, p);
      p := FirstActive(ids, db, p);
    }
  }

  // A step that rewrites the row of scope s only, asking for what it asked.
  ghost predicate OnlyRow(db: Tables, next: Tables, s: nat) {
    && next.runs == db.runs && |next.scopes| == |db.scopes|
    && (s < |db.scopes| ==> SameScope(db.scopes[s], next.scopes[s]))
    && (forall t :: 0 <= t < |db.scopes| && t != s ==> next.scopes[t] == db.scopes[t])
  }

  lemma OneLessActive(ids: Ids, db: Tables, next: Tables, s: nat, p: nat)
    requires OnlyRow(db, next, p) && p in ActiveEarlier(ids, db, s) && !ActiveScope(next.scopes[p].status)
    ensures ActiveEarlier(ids, next, s) < ActiveEarlier(ids, db, s)
  {
    forall q | q in ActiveEarlier(ids, next, s) ensures q in ActiveEarlier(ids, db, s) && q != p {
      assert q != p ==> next.scopes[q] == db.scopes[q];
      assert s != p ==> next.scopes[s] == db.scopes[s];
    }
  }

  // The same runs, and the same scopes asking for the same.
  ghost predicate SameAsking(start: Tables, db: Tables) {
    && db.runs == start.runs && |db.scopes| == |start.scopes|
    && (forall s :: 0 <= s < |start.scopes| ==> SameScope(start.scopes[s], db.scopes[s]))
  }

  lemma AskingDecides(ids: Ids, start: Tables, db: Tables)
    requires SameAsking(start, db)
    ensures forall p: nat, s: nat :: Earlier(ids, db, p, s) <==> Earlier(ids, start, p, s)
    ensures forall s: nat :: Claimed(db, s) <==> Claimed(start, s)
    ensures forall s: nat :: IsManual(db, s) <==> IsManual(start, s)
    ensures forall s: nat :: s < |start.scopes| ==> db.scopes[s].runId == start.scopes[s].runId
  {
    assert forall s :: 0 <= s < |start.scopes| ==> db.scopes[s].runId == start.scopes[s].runId;
  }

  lemma RowKeepsAsking(start: Tables, db: Tables, next: Tables, s: nat)
    requires SameAsking(start, db) && OnlyRow(db, next, s)
    ensures SameAsking(start, next)
  {
    forall t | 0 <= t < |start.scopes| ensures SameScope(start.scopes[t], next.scopes[t]) {
      assert SameScope(start.scopes[t], db.scopes[t]);
    }
  }

  // An overlap seen now is a contender from the start.
  lemma OverlapFromStart(start: Tables, db: Tables, s: nat) returns (w: nat)
    requires Absorbs(start, db) && |db.scopes| == |start.scopes| && s < |db.scopes| && Overlaps(db.scopes, db.scopes[s])
    ensures Contends(start, w, s) && w != s && w < |db.scopes| && ActiveScope(db.scopes[w].status)
  {
    w :| 0 <= w < |db.scopes| && ActiveScope(db.scopes[w].status) && Conflicts(db.scopes[w], db.scopes[s]);
    assert SameScope(start.scopes[w], db.scopes[w]) && SameScope(start.scopes[s], db.scopes[s]);
  }

  // A scope stays in turn: nobody joins its run, and what is over stays over.
  lemma InTurnStays(ids: Ids, db: Tables, next: Tables, s: nat)
    requires Absorbs(db, next) && |next.scopes| == |db.scopes| && InTurn(ids, db, s)
    ensures InTurn(ids, next, s)
  {
    forall p: nat | Earlier(ids, next, p, s) ensures !ActiveScope(next.scopes[p].status) {
      assert SameScope(db.scopes[p], next.scopes[p]) && SameScope(db.scopes[s], next.scopes[s]);
      assert Earlier(ids, db, p, s);
    }
  }
}
