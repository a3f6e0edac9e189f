/** Contests between two runs that start from the empty database, and what the order of their scopes decides. */
module ContestedRuns {
  import opened Common
  import opened IngestionTables
  import opened IngestionProtocol
  import opened ConflictOutcomes
  import opened WorkerOrder
  import opened ContestedGroups

  type Plan = seq<(ScopeKind, nat)>

  // A manual and a scheduled request for the same day of the same series, submitted in this order.
  function ManualRequest(planned: Plan): Request {
    Request(true, true, None, Manual, 0, 7, 7, 1, planned)
  }

  function ScheduledRequest(planned: Plan): Request {
    Request(true, true, None, Scheduled, 0, 7, 7, 2, planned)
  }

  function Setup(planned: Plan): seq<Action> {
    [SubmitAction(ManualRequest(planned)), SubmitAction(ScheduledRequest(planned)),
     ClaimRunAction({}, 3), ClaimRunAction({}, 4)]
  }

  function Planned(q: Request, runId: nat): seq<Scope> {
    NewScopes(q, runId, |q.planned|)
  }

  // Both runs claimed by their workers, every scope waiting.
  function Ready(planned: Plan): System {
    var m, s := ManualRequest(planned), ScheduledRequest(planned);
    System(Tables([ClaimRun(NewRun(m), 3), ClaimRun(NewRun(s), 4)], Planned(m, 0) + Planned(s, 1)), {})
  }

  lemma BothClaimed(runs: seq<Run>, scopes: seq<Scope>)
    requires |runs| == 2 && runs[0].status.RunPending? && runs[1].status.RunPending?
    requires runs[0].requestedAt < runs[1].requestedAt
    ensures Do(Do(System(Tables(runs, scopes), {}), ClaimRunAction({}, 3)), ClaimRunAction({}, 4)) ==
            System(Tables([ClaimRun(runs[0], 3), ClaimRun(runs[1], 4)], scopes), {})
  {
    assert NextRunAmong(runs, {}, 1) == Some(0) && NextRunAmong(runs, {}, 2) == Some(0);
    var once := [ClaimRun(runs[0], 3), runs[1]];
    assert runs[0 := ClaimRun(runs[0], 3)] == once;
    assert NextRunAmong(once, {}, 1) == None && NextRunAmong(once, {}, 2) == Some(1);
    assert once[1 := ClaimRun(runs[1], 4)] == [ClaimRun(runs[0], 3), ClaimRun(runs[1], 4)];
  }

  lemma FourSteps(sys: System, a: Action, b: Action, c: Action, d: Action)
    ensures DoAll(sys, [a, b, c, d]) == Do(Do(Do(Do(sys, a), b), c), d)
  {
    assert [a, b, c, d][1..] == [b, c, d] && [b, c, d][1..] == [c, d] && [c, d][1..] == [d] && [d][1..] == [];
    var s1 := Do(sys, a);
    var s2 := Do(s1, b);
    var s3 := Do(s2, c);
    assert DoAll(s3, [d]) == DoAll(Do(s3, d), []);
    assert DoAll(s2, [c, d]) == DoAll(s3, [d]);
    assert DoAll(s1, [b, c, d]) == DoAll(s2, [c, d]);
  }

  lemma BothSubmitted(planned: Plan)
    requires planned != []
    ensures var m, s := ManualRequest(planned), ScheduledRequest(planned);
            Do(Do(EMPTY_SYSTEM, SubmitAction(m)), SubmitAction(s)) ==
            System(Tables([NewRun(m), NewRun(s)], Planned(m, 0) + Planned(s, 1)), {})
  {
    var m, s := ManualRequest(planned), ScheduledRequest(planned);
    var one := Tables([NewRun(m)], Planned(m, 0));
    assert [] + [NewRun(m)] == one.runs && [] + Planned(m, 0) == one.scopes;
    assert Create(Tables([], []), m) == Ok(one);
    assert one.runs + [NewRun(s)] == [NewRun(m), NewRun(s)];
  }

  lemma SetupReaches(planned: Plan)
    requires planned != []
    ensures DoAll(EMPTY_SYSTEM, Setup(planned)) == Ready(planned)
  {
    var m, s := ManualRequest(planned), ScheduledRequest(planned);
    BothSubmitted(planned);
    BothClaimed([NewRun(m), NewRun(s)], Planned(m, 0) + Planned(s, 1));
    var steps := Setup(planned);
    FourSteps(EMPTY_SYSTEM, steps[0], steps[1], steps[2], steps[3]);
  }

  lemma ReadyIsSound(planned: Plan)
    requires planned != []
    ensures Inv(Ready(planned).db)
  {
    SetupReaches(planned);
    DoAllKeeps(EMPTY_SYSTEM, Setup(planned));
  }

  lemma {:induction false} FreelyOrdered(ids: Ids, sys: System, actions: seq<Action>)
    requires forall a :: a in actions ==> a.SubmitAction? || a.ClaimRunAction?
    ensures OrderlyAll(ids, sys, actions)
    decreases |actions|
  {
    if actions != [] {
      FreelyOrdered(ids, Do(sys, actions[0]), actions[1..]);
    }
  }

  // --------------------------------------------------------------------------------------------
  // One scope each
  // --------------------------------------------------------------------------------------------

  const ONE: Plan := [(Fx, 5)]

  lemma ReadyIsDuel()
    requires Inv(Ready(ONE).db)
    ensures Duel(Ready(ONE), 0, 1) && IsManual(Ready(ONE).db, 0)
  {
  }

  // Whatever the identifiers, a manual run and a scheduled run for the same day, claimed by two workers, can
  // both come to nothing.
  lemma ManualAndScheduledBothLose(ids: Ids)
    ensures exists actions :: OrderlyAll(ids, EMPTY_SYSTEM, actions) && AllLost(DoAll(EMPTY_SYSTEM, actions).db, {0, 1})
  {
    var duel := ReadyCanBothLose(ids);
    SetupReaches(ONE);
    FreelyOrdered(ids, EMPTY_SYSTEM, Setup(ONE));
    OrderlyAppends(ids, EMPTY_SYSTEM, Setup(ONE), duel);
    DoAllAppends(EMPTY_SYSTEM, Setup(ONE), duel);
    assert AllLost(DoAll(EMPTY_SYSTEM, Setup(ONE) + duel).db, {0, 1});
  }

  lemma ReadyCanBothLose(ids: Ids) returns (duel: seq<Action>)
    ensures OrderlyAll(ids, Ready(ONE), duel) && AllLost(DoAll(Ready(ONE), duel).db, {0, 1})
  {
    ReadyIsSound(ONE);
    ReadyIsDuel();
    BothLoseExactlyWhenManual(ids, Ready(ONE), 0, 1);
    duel :| Possible(ids, Ready(ONE), duel) && AllLost(DoAll(Ready(ONE), duel).db, {0, 1});
  }

  // --------------------------------------------------------------------------------------------
  // Two scopes each
  // --------------------------------------------------------------------------------------------

  // The manual run owns scopes 0 and 1, the scheduled run scopes 2 and 3; 0 meets 2 and 1 meets 3.
  const TWO: Plan := [(Fx, 5), (Fx, 6)]
  const ALL_FOUR: set<nat> := {0, 1, 2, 3}

  // Both workers come to series 5 first, or the second one comes to series 6 first.
  const STRAIGHT: Ids := (s: nat) => s
  const CROSSED: Ids := (s: nat) => if s == 2 then 3 else if s == 3 then 2 else s

  predicate Meets(a: nat, b: nat) {
    (a, b) in {(0, 2), (2, 0), (1, 3), (3, 1)}
  }

  lemma FourScopes()
    ensures var db := Ready(TWO).db;
            && |db.scopes| == 4
            && (forall s :: 0 <= s < 4 ==> db.scopes[s].status.ScopePending? && db.scopes[s].runId == s / 2)
            && (forall a: nat, b: nat :: Contends(db, a, b) <==> Meets(a, b))
            && Manuals(db, ALL_FOUR) == {0, 1}
  {
    var db := Ready(TWO).db;
    assert db.scopes == Planned(ManualRequest(TWO), 0) + Planned(ScheduledRequest(TWO), 1);
  }

  lemma FourWait()
    ensures Waiting(Ready(TWO), ALL_FOUR)
  {
    ReadyIsSound(TWO);
    FourScopes();
  }

  lemma FourAreExposed()
    ensures forall g :: g in ALL_FOUR ==> Exposed(Ready(TWO).db, ALL_FOUR, g)
  {
    FourScopes();
    PairIsExposed(Ready(TWO).db, 0, 2);
    PairIsExposed(Ready(TWO).db, 1, 3);
  }

  lemma PairIsExposed(db: Tables, z: nat, w: nat)
    requires z in ALL_FOUR && w in ALL_FOUR && IsManual(db, z) && Contends(db, z, w) && Contends(db, w, z)
    ensures Exposed(db, ALL_FOUR, z) && Exposed(db, ALL_FOUR, w)
  {
    ManualIsLinked(db, ALL_FOUR, z);
    UnlinkedSpreads(db, ALL_FOUR, w, z);
  }

  // In the same order, the claims and endings of series 6 are the last, then those of series 5.
  lemma StraightHasLasts()
    ensures SetsHaveLast(STRAIGHT, Ready(TWO).db, ALL_FOUR, {0, 1})
  {
    var db := Ready(TWO).db;
    FourScopes();
    forall claims: set<nat>, ends: set<nat> |
      claims <= ALL_FOUR && ends <= ALL_FOUR && NoneLast(STRAIGHT, db, {0, 1}, claims, ends)
      ensures claims == {} && ends == {}
    {
      StraightIsEmpty(claims, ends);
    }
  }

  lemma StraightIsEmpty(claims: set<nat>, ends: set<nat>)
    requires claims <= ALL_FOUR && ends <= ALL_FOUR && NoneLast(STRAIGHT, Ready(TWO).db, {0, 1}, claims, ends)
    ensures claims == {} && ends == {}
  {
    var db := Ready(TWO).db;
    FourScopes();
    assert Contends(db, 2, 0) && Contends(db, 3, 1) && Contends(db, 0, 2) && Contends(db, 1, 3);
    assert 1 !in ends;
    assert 3 !in ends;
    assert 1 !in claims && 3 !in claims;
    assert 0 !in ends;
    assert 2 !in ends;
  }

  // In opposite orders each of these has to be followed by another.
  lemma CrossedHasNoLast()
    ensures NoneLast(CROSSED, Ready(TWO).db, {0, 1}, {1, 2}, {0, 2, 3})
  {
    var db := Ready(TWO).db;
    FourScopes();
    assert Earlier(CROSSED, db, 0, 1) && Earlier(CROSSED, db, 3, 2);
  }

  lemma StraightCanAllLose()
    ensures CanAllLose(STRAIGHT, Ready(TWO), ALL_FOUR)
  {
    FourWait();
    StraightHasLasts();
    assert Manuals(Ready(TWO).db, ALL_FOUR) == {0, 1} by {
      FourScopes();
    }
    AllLoseExactlyWhenOrdered(STRAIGHT, Ready(TWO), ALL_FOUR);
  }

  lemma CrossedCannotAllLose()
    ensures !CanAllLose(CROSSED, Ready(TWO), ALL_FOUR)
  {
    FourWait();
    CrossedHasNoLast();
    assert Manuals(Ready(TWO).db, ALL_FOUR) == {0, 1} by {
      FourScopes();
    }
    AllLoseExactlyWhenOrdered(CROSSED, Ready(TWO), ALL_FOUR);
  }

  // Two runs for the same two series, one of them manual: though each of the four scopes is contested and
  // linked to a manual one, whether they can all come to nothing depends on the order the two workers take.
  lemma OrderDecides()
    ensures DoAll(EMPTY_SYSTEM, Setup(TWO)) == Ready(TWO) && Waiting(Ready(TWO), ALL_FOUR)
    ensures forall g :: g in ALL_FOUR ==> Exposed(Ready(TWO).db, ALL_FOUR, g)
    ensures CanAllLose(STRAIGHT, Ready(TWO), ALL_FOUR) && !CanAllLose(CROSSED, Ready(TWO), ALL_FOUR)
  {
    SetupReaches(TWO);
    FourWait();
    FourAreExposed();
    StraightCanAllLose();
    CrossedCannotAllLose();
  }
}
