/** Races between two automatic runs that start from the empty database without the advisory lock, and what
    the order of their scopes decides. */
module RacedRuns {
  import opened Common
  import opened IngestionTables
  import opened IngestionProtocol
  import opened ConflictOutcomes
  import opened WorkerOrder
  import opened ContestedRuns
  import opened ClaimLocking
  import opened ClaimRaces

  function Scheduling(planned: Plan, at: int): Request {
    Request(true, true, None, Scheduled, 0, 7, 7, at, planned)
  }

  // Two runs for the same day of the same series, every scope waiting.
  function Raced(planned: Plan): Tables {
    var a, b := Scheduling(planned, 1), Scheduling(planned, 2);
    Tables([NewRun(a), NewRun(b)], Planned(a, 0) + Planned(b, 1))
  }

  function Submissions(planned: Plan): seq<MicroStep> {
    [Submit(Scheduling(planned, 1)), Submit(Scheduling(planned, 2))]
  }

  lemma SubmissionsReach(e: Engine, planned: Plan)
    requires planned != []
    ensures NextAll(e, EMPTY_MICRO, Submissions(planned)) == Micro(Raced(planned), map[], map[])
  {
    var a, b := Scheduling(planned, 1), Scheduling(planned, 2);
    var one := Micro(Tables([NewRun(a)], Planned(a, 0)), map[], map[]);
    assert [] + [NewRun(a)] == one.db.runs && [] + Planned(a, 0) == one.db.scopes;
    assert Next(e, EMPTY_MICRO, Submit(a)) == one;
    assert one.db.runs + [NewRun(b)] == [NewRun(a), NewRun(b)];
    assert Next(e, one, Submit(b)) == Micro(Raced(planned), map[], map[]);
    TwoSteps(e, EMPTY_MICRO, Submit(a), Submit(b));
  }

  lemma TwoSteps(e: Engine, m: Micro, a: MicroStep, b: MicroStep)
    ensures NextAll(e, m, [a, b]) == Next(e, Next(e, m, a), b)
  {
    assert [a, b][1..] == [b] && [b][1..] == [];
    var one := Next(e, m, a);
    assert NextAll(e, one, [b]) == NextAll(e, Next(e, one, b), []);
  }

  const HOME: Home := (kind: ScopeKind, series: nat) => 0

  lemma RacedIsSound(planned: Plan)
    requires planned != []
    ensures MicroInv(Micro(Raced(planned), map[], map[])) && Homed(HOME, Raced(planned))
  {
    var e := Engine(false, (dataset, kind, series) => 0);
    NextAllKeepsExclusion(e, EMPTY_MICRO, Submissions(planned));
    SubmissionsReach(e, planned);
  }

  // --------------------------------------------------------------------------------------------
  // One scope each
  // --------------------------------------------------------------------------------------------

  lemma PairRaces()
    requires MicroInv(Micro(Raced(ONE), map[], map[])) && Homed(HOME, Raced(ONE))
    ensures Race(HOME, Micro(Raced(ONE), map[], map[]), {0, 1}) && DifferentRuns(Raced(ONE), {0, 1})
    ensures Contested(Raced(ONE), 0) && Contested(Raced(ONE), 1)
  {
    var db := Raced(ONE);
    assert Contends(db, 1, 0) && Contends(db, 0, 1);
  }

  // Two submissions from the empty database make a race that both claims can lose exactly without the lock.
  lemma RaceIsReachable(ids: Ids, e: Engine)
    ensures var m := NextAll(e, EMPTY_MICRO, Submissions(ONE));
            Race(HOME, m, {0, 1}) && (CanAllSkip(ids, e, HOME, m, {0, 1}) <==> !e.postgres)
  {
    SubmissionsReach(e, ONE);
    RacedIsSound(ONE);
    PairRaces();
    AllSkipExactlyWhenContested(ids, e, HOME, Micro(Raced(ONE), map[], map[]), {0, 1});
  }

  // --------------------------------------------------------------------------------------------
  // Two scopes each
  // --------------------------------------------------------------------------------------------

  // One run owns scopes 0 and 1, the other scopes 2 and 3; 0 meets 2 and 1 meets 3.
  lemma FourRacedScopes()
    ensures var db := Raced(TWO);
            && |db.scopes| == 4
            && (forall s :: 0 <= s < 4 ==> db.scopes[s].status.ScopePending? && db.scopes[s].runId == s / 2 && !IsManual(db, s))
            && (forall a: nat, b: nat :: Contends(db, a, b) <==> Meets(a, b))
  {
    var db := Raced(TWO);
    assert db.scopes == Planned(Scheduling(TWO, 1), 0) + Planned(Scheduling(TWO, 2), 1);
  }

  lemma FourRace()
    ensures Race(HOME, Micro(Raced(TWO), map[], map[]), ALL_FOUR)
  {
    RacedIsSound(TWO);
    FourRacedScopes();
  }

  lemma FourAreContested()
    ensures forall g :: g in ALL_FOUR ==> Contested(Raced(TWO), g)
  {
    FourRacedScopes();
    var db := Raced(TWO);
    assert Contends(db, 2, 0) && Contends(db, 3, 1) && Contends(db, 0, 2) && Contends(db, 1, 3);
  }

  lemma StraightIsEmptyHere(claims: set<nat>, ends: set<nat>)
    requires claims <= ALL_FOUR && ends <= ALL_FOUR && NoneLast(STRAIGHT, Raced(TWO), ALL_FOUR, claims, ends)
    ensures claims == {} && ends == {}
  {
    var db := Raced(TWO);
    FourRacedScopes();
    assert Contends(db, 2, 0) && Contends(db, 3, 1) && Contends(db, 0, 2) && Contends(db, 1, 3);
    assert 1 !in ends && 3 !in ends;
    assert 1 !in claims && 3 !in claims;
    assert 0 !in ends && 2 !in ends;
  }

  lemma StraightCanAllSkip(e: Engine)
    requires !e.postgres
    ensures CanAllSkip(STRAIGHT, e, HOME, Micro(Raced(TWO), map[], map[]), ALL_FOUR)
  {
    FourRace();
    forall claims: set<nat>, ends: set<nat> |
      claims <= ALL_FOUR && ends <= ALL_FOUR && NoneLast(STRAIGHT, Raced(TWO), ALL_FOUR, claims, ends)
      ensures claims == {} && ends == {}
    {
      StraightIsEmptyHere(claims, ends);
    }
    AllSkipExactlyWithoutLock(STRAIGHT, e, HOME, Micro(Raced(TWO), map[], map[]), ALL_FOUR);
  }

  lemma CrossedHasNoLastHere()
    ensures NoneLast(CROSSED, Raced(TWO), ALL_FOUR, {1, 2}, {0, 3})
  {
    var db := Raced(TWO);
    FourRacedScopes();
    assert Earlier(CROSSED, db, 0, 1) && Earlier(CROSSED, db, 3, 2);
  }

  lemma CrossedCannotAllSkip(e: Engine)
    ensures !CanAllSkip(CROSSED, e, HOME, Micro(Raced(TWO), map[], map[]), ALL_FOUR)
  {
    FourRace();
    CrossedHasNoLastHere();
    AllSkipExactlyWithoutLock(CROSSED, e, HOME, Micro(Raced(TWO), map[], map[]), ALL_FOUR);
  }

  // Two automatic runs for the same two series, on an engine without the lock: though each of the four
  // scopes is contested, whether all can end skipped depends on the order the two workers take.
  lemma RaceOrderDecides(e: Engine)
    requires !e.postgres
    ensures var m := NextAll(e, EMPTY_MICRO, Submissions(TWO));
            && Race(HOME, m, ALL_FOUR) && (forall g :: g in ALL_FOUR ==> Contested(m.db, g))
            && CanAllSkip(STRAIGHT, e, HOME, m, ALL_FOUR) && !CanAllSkip(CROSSED, e, HOME, m, ALL_FOUR)
  {
    SubmissionsReach(e, TWO);
    FourRace();
    FourAreContested();
    StraightCanAllSkip(e);
    CrossedCannotAllSkip(e);
  }
}
