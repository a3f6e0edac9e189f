/** What the advisory lock decides: which sets of racing claims can all end skipped. */
module ClaimRaces {
  import opened Common
  import opened IngestionTables
  import opened IngestionProtocol
  import opened ConflictOutcomes
  import opened WorkerOrder
  import opened ClaimLocking

  // Waiting scopes of automatic runs, with every active scope that contends with one of them, and no claim
  // under way.
  ghost predicate Race(home: Home, m: Micro, group: set<nat>) {
    && MicroInv(m) && m.txns == map[] && m.locks == map[] && Homed(home, m.db) && group != {}
    && (forall g :: g in group ==> KnownScope(m.db, g) && m.db.scopes[g].status.ScopePending? && !IsManual(m.db, g))
    && (forall g, s: nat :: g in group && Contends(m.db, s, g) ==> s in group)
  }

  predicate NoSubmissions(steps: seq<MicroStep>) {
    forall a :: a in steps ==> !a.Submit?
  }

  predicate AllSkipped(db: Tables, group: set<nat>) {
    forall g :: g in group ==> g < |db.scopes| && LostToSkip(db.scopes[g])
  }

  // One worker claims one scope of its run at a time, in order.
  ghost predicate NoClaimOpen(m: Micro, s: nat) {
    forall u :: u in m.txns && m.txns[u].scope < |m.db.scopes| && s < |m.db.scopes| ==>
      m.db.scopes[m.txns[u].scope].runId != m.db.scopes[s].runId
  }

  ghost predicate InOrder(ids: Ids, m: Micro, a: MicroStep) {
    match a
    case Enter(_, s) =>
      InTurn(ids, m.db, s) && NoClaimOpen(m, s) && (s < |m.db.scopes| ==> !m.db.scopes[s].status.ScopeRunning?)
    case End(s, _, _, _, _) => InTurn(ids, m.db, s)
    case _ => true
  }

  ghost predicate AllInOrder(ids: Ids, e: Engine, m: Micro, steps: seq<MicroStep>)
    decreases |steps|
  {
    steps != [] ==> InOrder(ids, m, steps[0]) && AllInOrder(ids, e, Next(e, m, steps[0]), steps[1..])
  }

  // Steps that can follow one another without new submissions.
  ghost predicate Course(ids: Ids, e: Engine, home: Home, m: Micro, steps: seq<MicroStep>) {
    Ordinary(home, steps) && NoSubmissions(steps) && AllInOrder(ids, e, m, steps)
  }

  // Some such course ends with every one of them skipped.
  ghost predicate CanAllSkip(ids: Ids, e: Engine, home: Home, m: Micro, group: set<nat>) {
    exists steps :: Course(ids, e, home, m, steps) && AllSkipped(NextAll(e, m, steps).db, group)
  }

  lemma {:induction false} NextAllAppends(e: Engine, m: Micro, first: seq<MicroStep>, second: seq<MicroStep>)
    ensures NextAll(e, m, first + second) == NextAll(e, NextAll(e, m, first), second)
    decreases |first|
  {
    if first == [] {
      assert first + second == second;
    } else {
      assert (first + second)[1..] == first[1..] + second;
      NextAllAppends(e, Next(e, m, first[0]), first[1..], second);
    }
  }

  lemma {:induction false} OrderAppends(ids: Ids, e: Engine, m: Micro, first: seq<MicroStep>, second: seq<MicroStep>)
    requires AllInOrder(ids, e, m, first) && AllInOrder(ids, e, NextAll(e, m, first), second)
    ensures AllInOrder(ids, e, m, first + second)
    decreases |first|
  {
    if first == [] {
      assert first + second == second;
    } else {
      assert (first + second)[1..] == first[1..] + second;
      OrderAppends(ids, e, Next(e, m, first[0]), first[1..], second);
    }
  }

  lemma CourseAppends(ids: Ids, e: Engine, home: Home, m: Micro, first: seq<MicroStep>, second: seq<MicroStep>)
    requires Course(ids, e, home, m, first) && Course(ids, e, home, NextAll(e, m, first), second)
    ensures Course(ids, e, home, m, first + second)
    ensures NextAll(e, m, first + second) == NextAll(e, NextAll(e, m, first), second)
  {
    OrderAppends(ids, e, m, first, second);
    NextAllAppends(e, m, first, second);
  }

  lemma CourseStep(ids: Ids, e: Engine, home: Home, m: Micro, a: MicroStep)
    requires InOrder(ids, m, a) && OrdinaryStep(home, a) && !a.Submit?
    ensures Course(ids, e, home, m, [a]) && NextAll(e, m, [a]) == Next(e, m, a)
  {
    assert [a][1..] == [];
    assert NextAll(e, m, [a]) == NextAll(e, Next(e, m, a), []);
    assert AllInOrder(ids, e, Next(e, m, a), []);
  }

  lemma CourseMore(ids: Ids, e: Engine, home: Home, m: Micro, steps: seq<MicroStep>, a: MicroStep)
    requires Course(ids, e, home, m, steps) && InOrder(ids, NextAll(e, m, steps), a) && OrdinaryStep(home, a) && !a.Submit?
    ensures Course(ids, e, home, m, steps + [a]) && NextAll(e, m, steps + [a]) == Next(e, NextAll(e, m, steps), a)
  {
    CourseStep(ids, e, home, NextAll(e, m, steps), a);
    CourseAppends(ids, e, home, m, steps, [a]);
  }

  // --------------------------------------------------------------------------------------------
  // Without the lock
  // --------------------------------------------------------------------------------------------

  // Scope s is claimed as far as its check, which meets an overlap; its claim is transaction s.
  lemma ClaimIsBlocked(ids: Ids, e: Engine, home: Home, m: Micro, s: nat, w: nat) returns (steps: seq<MicroStep>)
    requires !e.postgres && s !in m.txns && KnownScope(m.db, s) && Contends(m.db, w, s) && InOrder(ids, m, Enter(s, s))
    ensures Course(ids, e, home, m, steps) && NextAll(e, m, steps) == m.(txns := m.txns[s := Txn(s, Blocked)])
  {
    assert Overlaps(m.db.scopes, m.db.scopes[s]);
    CourseStep(ids, e, home, m, Enter(s, s));
    CourseMore(ids, e, home, m, [Enter(s, s)], TakeLock(s));
    CourseMore(ids, e, home, m, [Enter(s, s)] + [TakeLock(s)], Check(s));
    steps := [Enter(s, s)] + [TakeLock(s)] + [Check(s)];
    assert m.txns[s := Txn(s, Entered)][s := Txn(s, Holding)][s := Txn(s, Blocked)] == m.txns[s := Txn(s, Blocked)];
  }

  // A blocked claim is written and committed.
  lemma SkipIsCommitted(ids: Ids, e: Engine, home: Home, m: Micro, s: nat) returns (steps: seq<MicroStep>)
    requires s in m.txns && m.txns[s] == Txn(s, Blocked) && KnownScope(m.db, s) && !IsManual(m.db, s)
    requires ActiveScope(m.db.scopes[s].status) && RowFree(m, s, s) && m.locks == map[]
    ensures Course(ids, e, home, m, steps)
    ensures var next := NextAll(e, m, steps);
            && OnlyRow(m.db, next.db, s) && LostToSkip(next.db.scopes[s])
            && next.locks == map[] && next.txns == map u | u in m.txns && u != s :: m.txns[u]
  {
    CourseStep(ids, e, home, m, Write(s));
    assert Next(e, m, Write(s)) == Moved(m, s, Skipped);
    CourseMore(ids, e, home, m, [Write(s)], Commit(s, 0));
    steps := [Write(s)] + [Commit(s, 0)];
  }

  // These checks and commits have happened, and no others of the group.
  ghost predicate Standing(start: Micro, m: Micro, group: set<nat>, claims: set<nat>, ends: set<nat>) {
    && SameAsking(start.db, m.db)
    && (forall g :: g in group && g < |start.db.scopes| ==>
          if g in ends then LostToSkip(m.db.scopes[g]) else m.db.scopes[g] == start.db.scopes[g])
    && m.txns == (map g | g in claims - ends :: Txn(g, Blocked)) && m.locks == map[]
  }

  function Failing(p: nat): MicroStep {
    End(p, ScopeFailed, 0, ONE_FAILURE, Some(OtherError))
  }

  // A scope outside the group fails and is out of the way.
  lemma OneOutOfTheWay(e: Engine, start: Micro, m: Micro, group: set<nat>, claims: set<nat>, ends: set<nat>, p: nat)
    requires Standing(start, m, group, claims, ends) && p !in group
    requires p < |m.db.scopes| && ActiveScope(m.db.scopes[p].status)
    ensures Standing(start, Next(e, m, Failing(p)), group, claims, ends)
    ensures OnlyRow(m.db, Next(e, m, Failing(p)).db, p) && !ActiveScope(Next(e, m, Failing(p)).db.scopes[p].status)
  {
    assert forall u :: u in m.txns ==> !HasWritten(m.txns[u]);
  }

  // The worker comes to scope s.
  lemma {:induction false} ComeTo(ids: Ids, e: Engine, home: Home, start: Micro, m: Micro, group: set<nat>,
                                  claims: set<nat>, ends: set<nat>, s: nat) returns (steps: seq<MicroStep>)
    requires Standing(start, m, group, claims, ends)
    requires forall p :: p in group && Earlier(ids, start.db, p, s) ==> p in ends
    ensures Course(ids, e, home, m, steps) && Standing(start, NextAll(e, m, steps), group, claims, ends)
    ensures InTurn(ids, NextAll(e, m, steps).db, s)
    decreases ActiveEarlier(ids, m.db, s)
  {
    AskingDecides(ids, start.db, m.db);
    if ActiveEarlier(ids, m.db, s) == {} {
      steps := [];
      NoneEarlierMeansInTurn(ids, m.db, s);
    } else {
      var p := FirstActive(ids, m.db, s);
      assert p !in group;
      OneOutOfTheWay(e, start, m, group, claims, ends, p);
      OneLessActive(ids, m.db, Next(e, m, Failing(p)).db, s, p);
      var rest := ComeTo(ids, e, home, start, Next(e, m, Failing(p)), group, claims, ends, s);
      CourseStep(ids, e, home, m, Failing(p));
      CourseAppends(ids, e, home, m, [Failing(p)], rest);
      steps := [Failing(p)] + rest;
    }
  }

  lemma OneMoreCommitted(ids: Ids, e: Engine, home: Home, start: Micro, m: Micro, group: set<nat>, claims: set<nat>,
                         ends: set<nat>, s: nat) returns (steps: seq<MicroStep>)
    requires Race(home, start, group) && claims <= group && s in claims && s in ends
    requires Standing(start, m, group, claims, ends - {s})
    ensures Course(ids, e, home, m, steps) && Standing(start, NextAll(e, m, steps), group, claims, ends)
  {
    WaitsForCommit(ids, home, start, m, group, claims, ends, s);
    steps := SkipIsCommitted(ids, e, home, m, s);
    CommitStands(start, m, NextAll(e, m, steps), group, claims, ends, s);
  }

  lemma WaitsForCommit(ids: Ids, home: Home, start: Micro, m: Micro, group: set<nat>, claims: set<nat>, ends: set<nat>, s: nat)
    requires Race(home, start, group) && claims <= group && s in claims && s in ends
    requires Standing(start, m, group, claims, ends - {s})
    ensures s in m.txns && m.txns[s] == Txn(s, Blocked) && KnownScope(m.db, s) && !IsManual(m.db, s)
    ensures ActiveScope(m.db.scopes[s].status) && RowFree(m, s, s)
  {
    AskingDecides(ids, start.db, m.db);
    assert m.db.scopes[s] == start.db.scopes[s];
  }

  lemma CommitStands(start: Micro, m: Micro, next: Micro, group: set<nat>, claims: set<nat>, ends: set<nat>, s: nat)
    requires Standing(start, m, group, claims, ends - {s}) && s in ends && s < |m.db.scopes|
    requires OnlyRow(m.db, next.db, s) && LostToSkip(next.db.scopes[s])
    requires next.locks == map[] && next.txns == map u | u in m.txns && u != s :: m.txns[u]
    ensures Standing(start, next, group, claims, ends)
  {
    RowKeepsAsking(start.db, m.db, next.db, s);
    assert next.txns == map g | g in claims - ends :: Txn(g, Blocked);
  }

  // No other scope of the run of scope s is being claimed.
  lemma OnlyClaimOfRun(ids: Ids, start: Micro, m: Micro, group: set<nat>, claims: set<nat>, ends: set<nat>, s: nat)
    requires Beginning(ids, start.db, group, group, claims, ends) && s in claims && s !in ends
    requires Standing(start, m, group, claims - {s}, ends)
    ensures NoClaimOpen(m, s)
  {
    forall u | u in m.txns && m.txns[u].scope < |m.db.scopes| && s < |m.db.scopes|
      ensures m.db.scopes[u].runId != m.db.scopes[s].runId
    {
      assert u in claims && u !in ends && u != s;
      assert !Earlier(ids, start.db, u, s) && !Earlier(ids, start.db, s, u);
    }
  }

  lemma OneMoreBlocked(ids: Ids, e: Engine, home: Home, start: Micro, m: Micro, group: set<nat>, claims: set<nat>,
                       ends: set<nat>, s: nat, w: nat) returns (steps: seq<MicroStep>)
    requires !e.postgres && Race(home, start, group) && Beginning(ids, start.db, group, group, claims, ends)
    requires s in claims && s !in ends && SeesContender(start.db, s, ends, w) && InTurn(ids, m.db, s)
    requires Standing(start, m, group, claims - {s}, ends)
    ensures Course(ids, e, home, m, steps) && Standing(start, NextAll(e, m, steps), group, claims, ends)
  {
    OnlyClaimOfRun(ids, start, m, group, claims, ends, s);
    SeesItStill(ids, home, start, m, group, claims, ends, s, w);
    steps := ClaimIsBlocked(ids, e, home, m, s, w);
    BlockStands(start, m, group, claims, ends, s);
  }

  lemma SeesItStill(ids: Ids, home: Home, start: Micro, m: Micro, group: set<nat>, claims: set<nat>, ends: set<nat>, s: nat, w: nat)
    requires Race(home, start, group) && s in group && s !in ends && SeesContender(start.db, s, ends, w)
    requires Standing(start, m, group, claims - {s}, ends)
    ensures s !in m.txns && KnownScope(m.db, s) && m.db.scopes[s].status.ScopePending? && Contends(m.db, w, s)
  {
    AskingDecides(ids, start.db, m.db);
    assert w in group && m.db.scopes[w] == start.db.scopes[w] && m.db.scopes[s] == start.db.scopes[s];
  }

  lemma BlockStands(start: Micro, m: Micro, group: set<nat>, claims: set<nat>, ends: set<nat>, s: nat)
    requires s in claims && s !in ends && Standing(start, m, group, claims - {s}, ends)
    ensures Standing(start, m.(txns := m.txns[s := Txn(s, Blocked)]), group, claims, ends)
  {
    assert m.txns[s := Txn(s, Blocked)] == map g | g in claims - ends :: Txn(g, Blocked);
  }

  lemma LastStep(ids: Ids, e: Engine, home: Home, start: Micro, m: Micro, group: set<nat>, claims: set<nat>,
                 ends: set<nat>, s: nat) returns (steps: seq<MicroStep>)
    requires !e.postgres && Race(home, start, group) && Beginning(ids, start.db, group, group, claims, ends) && s in claims
    requires s !in ends ==> exists w: nat :: SeesContender(start.db, s, ends, w)
    requires Standing(start, m, group, if s in ends then claims else claims - {s}, ends - {s})
    ensures Course(ids, e, home, m, steps) && Standing(start, NextAll(e, m, steps), group, claims, ends)
  {
    if s in ends {
      steps := OneMoreCommitted(ids, e, home, start, m, group, claims, ends, s);
    } else {
      assert ends - {s} == ends;
      var w: nat :| SeesContender(start.db, s, ends, w);
      var way := ComeTo(ids, e, home, start, m, group, claims - {s}, ends, s);
      var claim := OneMoreBlocked(ids, e, home, start, NextAll(e, m, way), group, claims, ends, s, w);
      CourseAppends(ids, e, home, m, way, claim);
      steps := way + claim;
    }
  }

  // Any beginning of the claims and endings can happen.
  lemma {:induction false} Reach(ids: Ids, e: Engine, home: Home, start: Micro, group: set<nat>, claims: set<nat>, ends: set<nat>)
    returns (steps: seq<MicroStep>)
    requires !e.postgres && Race(home, start, group) && SetsHaveLast(ids, start.db, group, group)
    requires Beginning(ids, start.db, group, group, claims, ends)
    ensures Course(ids, e, home, start, steps) && Standing(start, NextAll(e, start, steps), group, claims, ends)
    decreases claims, ends
  {
    if claims == {} {
      steps := [];
    } else {
      var s, ending := PickLast(ids, start.db, group, group, claims, ends);
      var earlier := Reach(ids, e, home, start, group, if ending then claims else claims - {s}, ends - {s});
      var last := LastStep(ids, e, home, start, NextAll(e, start, earlier), group, claims, ends, s);
      CourseAppends(ids, e, home, start, earlier, last);
      steps := earlier + last;
    }
  }

  lemma UnlockedClaimsAllSkip(ids: Ids, e: Engine, home: Home, m: Micro, group: set<nat>)
    requires !e.postgres && Race(home, m, group) && SetsHaveLast(ids, m.db, group, group)
    ensures CanAllSkip(ids, e, home, m, group)
  {
    var steps := Reach(ids, e, home, m, group, group, group);
    assert AllSkipped(NextAll(e, m, steps).db, group);
  }

  // --------------------------------------------------------------------------------------------
  // Only without the lock, and only when a last can always be found
  // --------------------------------------------------------------------------------------------

  // One of the commits, or of the checks, has yet to come.
  ghost predicate SomeLeft(m: Micro, claims: set<nat>, ends: set<nat>) {
    || (exists x :: x in ends && x < |m.db.scopes| && !LostToSkip(m.db.scopes[x]))
    || (exists y :: y in claims && y < |m.db.scopes| && !Losing(m, y))
  }

  // Every claim under way, and every one of the group that ended as a skip, was in turn.
  ghost predicate TurnsKept(ids: Ids, m: Micro, group: set<nat>) {
    && (forall t :: t in m.txns ==> InTurn(ids, m.db, m.txns[t].scope))
    && (forall g :: g in group && g < |m.db.scopes| && LostToSkip(m.db.scopes[g]) ==> InTurn(ids, m.db, g))
  }

  lemma ClaimsComeByEntering(e: Engine, m: Micro, a: MicroStep, t: nat)
    requires t in Next(e, m, a).txns
    ensures (t in m.txns && m.txns[t].scope == Next(e, m, a).txns[t].scope) || a == Enter(t, Next(e, m, a).txns[t].scope)
  {
  }

  lemma NextKeepsTurns(ids: Ids, e: Engine, home: Home, m: Micro, a: MicroStep, group: set<nat>)
    requires TurnsKept(ids, m, group) && InOrder(ids, m, a) && OrdinaryStep(home, a) && !a.Submit?
    requires forall g :: g in group ==> g < |m.db.scopes|
    ensures TurnsKept(ids, Next(e, m, a), group)
  {
    var next := Next(e, m, a);
    NextAbsorbs(e, m, a);
    forall t | t in next.txns ensures InTurn(ids, next.db, next.txns[t].scope) {
      ClaimsComeByEntering(e, m, a, t);
      InTurnStays(ids, m.db, next.db, next.txns[t].scope);
    }
    forall g | g in group && LostToSkip(next.db.scopes[g]) ensures InTurn(ids, next.db, g) {
      SkippedOnlyAtCommit(e, m, a, g);
      InTurnStays(ids, m.db, next.db, g);
    }
  }

  // A state reached in order, and a set of checks and commits with no last.
  ghost predicate Endless(ids: Ids, home: Home, start: Micro, m: Micro, group: set<nat>, claims: set<nat>, ends: set<nat>) {
    && MicroInv(m) && Absorbs(start.db, m.db) && |m.db.scopes| == |start.db.scopes|
    && Race(home, start, group) && claims <= group && ends <= group
    && NoneLast(ids, start.db, group, claims, ends)
    && TurnsKept(ids, m, group)
  }

  // A commit leaves the check of the worker's next scope to come.
  lemma NextCheckLeft(ids: Ids, e: Engine, home: Home, start: Micro, m: Micro, t: nat, now: int, group: set<nat>,
                      claims: set<nat>, ends: set<nat>, x: nat)
    requires Endless(ids, home, start, m, group, claims, ends)
    requires x in ends && ActiveScope(m.db.scopes[x].status)
    ensures SomeLeft(Next(e, m, Commit(t, now)), claims, ends)
  {
    NextAbsorbs(e, m, Commit(t, now));
    assert NextClaimIn(ids, start.db, x, claims);
    var n :| n in claims && Earlier(ids, start.db, x, n);
    NotYetLosing(ids, start.db, m, group, x, n);
    if Losing(Next(e, m, Commit(t, now)), n) {
      LosingNeedsBlockedCheck(e, m, Commit(t, now), n);
    }
  }

  lemma NotYetLosing(ids: Ids, start: Tables, m: Micro, group: set<nat>, x: nat, n: nat)
    requires Absorbs(start, m.db) && |m.db.scopes| == |start.scopes| && TurnsKept(ids, m, group)
    requires Earlier(ids, start, x, n) && n in group && ActiveScope(m.db.scopes[x].status)
    ensures !Losing(m, n)
  {
    assert SameScope(start.scopes[x], m.db.scopes[x]) && SameScope(start.scopes[n], m.db.scopes[n]);
    assert Earlier(ids, m.db, x, n);
  }

  lemma CommitLeavesSome(ids: Ids, e: Engine, home: Home, start: Micro, m: Micro, a: MicroStep, group: set<nat>,
                         claims: set<nat>, ends: set<nat>, x: nat)
    requires Endless(ids, home, start, m, group, claims, ends) && OrdinaryStep(home, a) && !a.Submit?
    requires x in ends && !LostToSkip(m.db.scopes[x])
    ensures SomeLeft(Next(e, m, a), claims, ends)
  {
    NextAbsorbs(e, m, a);
    if LostToSkip(Next(e, m, a).db.scopes[x]) {
      SkippedOnlyAtCommit(e, m, a, x);
      assert ActiveScope(m.db.scopes[x].status);
      NextCheckLeft(ids, e, home, start, m, a.t, a.now, group, claims, ends, x);
    }
  }

  lemma CheckLeavesSome(ids: Ids, e: Engine, home: Home, start: Micro, m: Micro, a: MicroStep, group: set<nat>,
                        claims: set<nat>, ends: set<nat>, y: nat)
    requires Endless(ids, home, start, m, group, claims, ends) && OrdinaryStep(home, a) && !a.Submit?
    requires y in claims && y !in ends && !Losing(m, y)
    ensures SomeLeft(Next(e, m, a), claims, ends)
  {
    NextAbsorbs(e, m, a);
    if Losing(Next(e, m, a), y) {
      LosingNeedsBlockedCheck(e, m, a, y);
      var w := OverlapFromStart(start.db, m.db, y);
      assert ContendersIn(start.db, y, ends) && w in ends;
      CheckKeepsTables(e, m, a);
    }
  }

  lemma CheckKeepsTables(e: Engine, m: Micro, a: MicroStep)
    requires a.Check?
    ensures Next(e, m, a).db == m.db
  {
  }

  lemma NextKeepsEndless(ids: Ids, e: Engine, home: Home, start: Micro, m: Micro, a: MicroStep, group: set<nat>,
                         claims: set<nat>, ends: set<nat>)
    requires Endless(ids, home, start, m, group, claims, ends)
    requires InOrder(ids, m, a) && OrdinaryStep(home, a) && !a.Submit?
    ensures Endless(ids, home, start, Next(e, m, a), group, claims, ends)
  {
    NextAbsorbs(e, m, a);
    NextKeepsExclusion(e, m, a);
    AbsorbsTransitively(start.db, m.db, Next(e, m, a).db);
    NextKeepsTurns(ids, e, home, m, a, group);
  }

  lemma NextLeavesSome(ids: Ids, e: Engine, home: Home, start: Micro, m: Micro, a: MicroStep, group: set<nat>,
                       claims: set<nat>, ends: set<nat>)
    requires Endless(ids, home, start, m, group, claims, ends) && SomeLeft(m, claims, ends)
    requires InOrder(ids, m, a) && OrdinaryStep(home, a) && !a.Submit?
    ensures SomeLeft(Next(e, m, a), claims, ends)
  {
    if x :| x in ends && x < |m.db.scopes| && !LostToSkip(m.db.scopes[x]) {
      CommitLeavesSome(ids, e, home, start, m, a, group, claims, ends, x);
    } else {
      var y :| y in claims && y < |m.db.scopes| && !Losing(m, y);
      CheckLeavesSome(ids, e, home, start, m, a, group, claims, ends, y);
    }
  }

  lemma {:induction false} AllLeaveSome(ids: Ids, e: Engine, home: Home, start: Micro, m: Micro, steps: seq<MicroStep>,
                                        group: set<nat>, claims: set<nat>, ends: set<nat>)
    requires Endless(ids, home, start, m, group, claims, ends) && SomeLeft(m, claims, ends)
    requires Course(ids, e, home, m, steps)
    ensures SomeLeft(NextAll(e, m, steps), claims, ends)
    decreases |steps|
  {
    if steps != [] {
      assert OrdinaryStep(home, steps[0]) && !steps[0].Submit?;
      NextLeavesSome(ids, e, home, start, m, steps[0], group, claims, ends);
      NextKeepsEndless(ids, e, home, start, m, steps[0], group, claims, ends);
      AllLeaveSome(ids, e, home, start, Next(e, m, steps[0]), steps[1..], group, claims, ends);
    }
  }

  lemma EndlessAtFirst(ids: Ids, home: Home, m: Micro, group: set<nat>, claims: set<nat>, ends: set<nat>)
    requires Race(home, m, group) && (claims != {} || ends != {})
    requires claims <= group && ends <= group && NoneLast(ids, m.db, group, claims, ends)
    ensures Endless(ids, home, m, m, group, claims, ends) && SomeLeft(m, claims, ends)
  {
    if ends != {} {
      var x :| x in ends;
      assert !LostToSkip(m.db.scopes[x]);
    } else {
      var y :| y in claims;
      assert !Losing(m, y);
    }
  }

  lemma NoneLeftAtTheEnd(m: Micro, group: set<nat>, claims: set<nat>, ends: set<nat>)
    requires claims <= group && ends <= group && AllSkipped(m.db, group)
    ensures !SomeLeft(m, claims, ends)
  {
  }

  lemma EndlessNeverAllSkip(ids: Ids, e: Engine, home: Home, m: Micro, steps: seq<MicroStep>, group: set<nat>,
                            claims: set<nat>, ends: set<nat>)
    requires Race(home, m, group) && Course(ids, e, home, m, steps) && AllSkipped(NextAll(e, m, steps).db, group)
    requires claims <= group && ends <= group && NoneLast(ids, m.db, group, claims, ends)
    ensures claims == {} && ends == {}
  {
    if claims != {} || ends != {} {
      EndlessAtFirst(ids, home, m, group, claims, ends);
      AllLeaveSome(ids, e, home, m, m, steps, group, claims, ends);
      NoneLeftAtTheEnd(NextAll(e, m, steps), group, claims, ends);
      assert false;
    }
  }

  lemma SkippedHadLasts(ids: Ids, e: Engine, home: Home, m: Micro, group: set<nat>, steps: seq<MicroStep>)
    requires Race(home, m, group) && Course(ids, e, home, m, steps) && AllSkipped(NextAll(e, m, steps).db, group)
    ensures SetsHaveLast(ids, m.db, group, group)
  {
    forall claims: set<nat>, ends: set<nat> | claims <= group && ends <= group && NoneLast(ids, m.db, group, claims, ends)
      ensures claims == {} && ends == {}
    {
      EndlessNeverAllSkip(ids, e, home, m, steps, group, claims, ends);
    }
  }

  lemma {:induction false} NobodySubmits(e: Engine, m: Micro, steps: seq<MicroStep>)
    requires MicroInv(m) && NoSubmissions(steps)
    ensures Absorbs(m.db, NextAll(e, m, steps).db) && |NextAll(e, m, steps).db.scopes| == |m.db.scopes|
    decreases |steps|
  {
    if steps != [] {
      var next := Next(e, m, steps[0]);
      NextAbsorbs(e, m, steps[0]);
      NextKeepsExclusion(e, m, steps[0]);
      NobodySubmits(e, next, steps[1..]);
      AbsorbsTransitively(m.db, next.db, NextAll(e, next, steps[1..]).db);
    }
  }

  lemma RaceIsCluster(home: Home, m: Micro, later: Tables, group: set<nat>)
    requires Race(home, m, group) && Absorbs(m.db, later) && |later.scopes| == |m.db.scopes|
    ensures Cluster(m.db, later, group)
  {
    forall g | g in group ensures g < |later.scopes| && ActiveSince(m.db, g) && !IsManual(later, g) {
      ManualStays(m.db, later, g);
    }
    forall g, s: nat | g in group && InTheWay(m.db, later, s, g) ensures s in group {
      assert SameScope(m.db.scopes[g], later.scopes[g]) && SameScope(m.db.scopes[s], later.scopes[s]);
      assert Contends(m.db, s, g);
    }
  }

  lemma LockedRaceNeverAllSkips(e: Engine, home: Home, m: Micro, group: set<nat>, steps: seq<MicroStep>)
    requires e.postgres && Race(home, m, group) && Ordinary(home, steps) && NoSubmissions(steps)
    ensures !AllSkipped(NextAll(e, m, steps).db, group)
  {
    NobodySubmits(e, m, steps);
    RaceIsCluster(home, m, NextAll(e, m, steps).db, group);
    LockedClaimsNeverAllSkip(e, home, m, steps, group);
  }

  // Main result.  Take any number of waiting automatic scopes, closed under contention, and let each worker go
  // through its run in order.  Without new submissions their claims can all end skipped exactly on an engine
  // that takes no lock and when every set of their checks and commits has one that can be the last.
  lemma AllSkipExactlyWithoutLock(ids: Ids, e: Engine, home: Home, m: Micro, group: set<nat>)
    requires Race(home, m, group)
    ensures CanAllSkip(ids, e, home, m, group) <==> !e.postgres && SetsHaveLast(ids, m.db, group, group)
  {
    if CanAllSkip(ids, e, home, m, group) {
      var steps :| Course(ids, e, home, m, steps) && AllSkipped(NextAll(e, m, steps).db, group);
      if e.postgres {
        LockedRaceNeverAllSkips(e, home, m, group, steps);
      }
      SkippedHadLasts(ids, e, home, m, group, steps);
    }
    if !e.postgres && SetsHaveLast(ids, m.db, group, group) {
      UnlockedClaimsAllSkip(ids, e, home, m, group);
    }
  }

  // In different runs there is always a last exactly when every scope is contested.
  lemma ContestsGiveLasts(ids: Ids, db: Tables, group: set<nat>)
    requires DifferentRuns(db, group) && forall g :: g in group ==> g < |db.scopes|
    ensures SetsHaveLast(ids, db, group, group) <==> forall g :: g in group ==> Contested(db, g)
  {
    if SetsHaveLast(ids, db, group, group) {
      forall g | g in group ensures Contested(db, g) {
        LastsNeedContests(ids, db, group, group, g);
      }
    }
    if forall g :: g in group ==> Contested(db, g) {
      forall claims: set<nat>, ends: set<nat> | claims <= group && ends <= group && NoneLast(ids, db, group, claims, ends)
        ensures claims == {} && ends == {}
      {
        forall x | x in group ensures x !in ends {
          NoNextInRun(ids, db, group, claims, x);
        }
        assert ends == {};
        ContestedClaimsHaveLast(ids, db, group, claims);
      }
    }
  }

  // Claims of different runs can all end skipped exactly without the lock and when each scope is contested.
  lemma AllSkipExactlyWhenContested(ids: Ids, e: Engine, home: Home, m: Micro, group: set<nat>)
    requires Race(home, m, group) && DifferentRuns(m.db, group)
    ensures CanAllSkip(ids, e, home, m, group) <==> !e.postgres && forall g :: g in group ==> Contested(m.db, g)
  {
    AllSkipExactlyWithoutLock(ids, e, home, m, group);
    ContestsGiveLasts(ids, m.db, group);
  }
}
