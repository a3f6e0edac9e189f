/** One batch among other writers: what a scope's counters say about its own series and dates while other
    workers persist theirs between its records. */
module SharedStore {
  import opened Common
  import opened Observations
  import opened AsOfReads
  import opened Pipeline
  import Ingestion = IngestionTables
  import Protocol = IngestionProtocol

  // The series and dates of a scope.
  predicate Within(scope: Ingestion.Scope, key: NaturalKey) {
    key.series == scope.series && scope.start <= key.date <= scope.end
  }

  // Version rows of the scope's own observations.
  function OwnIds(store: Store, scope: Ingestion.Scope): set<(NaturalKey, nat)> {
    set id | id in VersionIds(store) && Within(scope, id.0)
  }

  // The first n records, each after the persists other workers commit before it.
  function IngestAmong(start: Progress, items: seq<Item>, others: seq<seq<PersistCall>>, n: nat, b: Batch)
    : Result<Progress, Progress>
    requires n <= |items| == |others|
  {
    if n == 0 then Ok(start)
    else
      match IngestAmong(start, items, others, n - 1, b)
      case Err(p) => Err(p)
      case Ok(p) =>
        var shared := p.(store := Run(p.store, others[n - 1]));
        match ProcessRecord(shared, items[n - 1], b, n - 1)
        case None => Err(shared)
        case Some(next) => Ok(next)
  }

  predicate Elsewhere(scope: Ingestion.Scope, calls: seq<PersistCall>) {
    forall p :: p in calls ==> !Within(scope, p.key)
  }

  lemma ForeignStep(store: Store, p: PersistCall, scope: Ingestion.Scope)
    requires !Within(scope, p.key)
    ensures OwnIds(Step(store, p), scope) == OwnIds(store, scope)
  {
    var next := Step(store, p);
    forall id: (NaturalKey, nat) | Within(scope, id.0) ensures id in VersionIds(next) <==> id in VersionIds(store) {
      IdsAreRows(store, id);
      IdsAreRows(next, id);
    }
  }

  lemma {:induction false} ForeignRun(store: Store, calls: seq<PersistCall>, scope: Ingestion.Scope)
    requires Elsewhere(scope, calls)
    ensures OwnIds(Run(store, calls), scope) == OwnIds(store, scope)
    decreases |calls|
  {
    if calls != [] {
      ForeignStep(store, calls[0], scope);
      ForeignRun(Step(store, calls[0]), calls[1..], scope);
    }
  }

  // A persist of an own observation adds one own row unless it reports "unchanged".
  lemma OwnPersist(store: Store, p: PersistCall, scope: Ingestion.Scope)
    requires Within(scope, p.key) && Persist(store, p).Ok?
    ensures var (next, revision) := Persist(store, p).value;
            |OwnIds(next, scope)| == |OwnIds(store, scope)| + (if revision.outcome.Unchanged? then 0 else 1)
  {
    var (next, revision) := Persist(store, p).value;
    ApplyGrowth(RowFor(store, p), SightingOf(p));
    var id := (p.key, RowLength(store, p.key));
    var more := if revision.outcome.Unchanged? then {} else {id};
    OwnRowGrows(store, next, p.key, more, scope);
  }

  lemma OwnRowGrows(store: Store, next: Store, key: NaturalKey, more: set<(NaturalKey, nat)>, scope: Ingestion.Scope)
    requires Grows(store, next, key, more) && Within(scope, key)
    ensures |OwnIds(next, scope)| == |OwnIds(store, scope)| + |more|
  {
    forall id
      ensures (id in OwnIds(next, scope) <==> id in OwnIds(store, scope) || id in more) && (id in more ==> id !in OwnIds(store, scope))
    {
      IdGrows(store, next, key, more, id);
    }
    DisjointUnion(OwnIds(store, scope), more, OwnIds(next, scope));
  }

  // The batch keeps to its scope and the others keep out of it.
  predicate KeepsApart(scope: Ingestion.Scope, items: seq<Item>, others: seq<seq<PersistCall>>) {
    && (forall i :: 0 <= i < |items| && items[i].Mapped? ==> Within(scope, items[i].candidate.key))
    && (forall i :: 0 <= i < |others| ==> Elsewhere(scope, others[i]))
  }

  predicate OwnBalance(start: Progress, items: seq<Item>, n: nat, p: Progress, scope: Ingestion.Scope)
    requires n <= |items|
  {
    var c := p.counts;
    && c.fetchedCount == start.counts.fetchedCount && c.failedCount == 0
    && c.insertedCount + c.unchangedCount + c.revisedCount + c.quarantinedCount + Absences(items, n) == n
    && |OwnIds(p.store, scope)| == |OwnIds(start.store, scope)| + c.insertedCount + c.revisedCount
    && |p.quarantine| == |start.quarantine| + c.quarantinedCount
  }

  lemma RecordBalances(start: Progress, items: seq<Item>, n: nat, p: Progress, b: Batch, scope: Ingestion.Scope)
    requires n < |items| && OwnBalance(start, items, n, p, scope)
    requires items[n].Mapped? ==> Within(scope, items[n].candidate.key)
    requires ProcessRecord(p, items[n], b, n).Some?
    ensures OwnBalance(start, items, n + 1, ProcessRecord(p, items[n], b, n).value, scope)
  {
    if Admissible(items[n], b.at) {
      OwnPersist(p.store, CallFor(items[n].candidate, b, n), scope);
    }
  }

  // While others write elsewhere, a batch's counters account for every record and for exactly the growth of
  // its own observations and of the quarantine rows it adds.
  lemma {:induction false} SharedBatchBalances(start: Progress, items: seq<Item>, others: seq<seq<PersistCall>>, n: nat,
                                               b: Batch, scope: Ingestion.Scope)
    requires n <= |items| == |others| && KeepsApart(scope, items, others)
    requires start.counts == Ingestion.NO_COUNTS.(fetchedCount := |items|)
    requires IngestAmong(start, items, others, n, b).Ok?
    ensures OwnBalance(start, items, n, IngestAmong(start, items, others, n, b).value, scope)
  {
    if n > 0 {
      SharedBatchBalances(start, items, others, n - 1, b, scope);
      var p := IngestAmong(start, items, others, n - 1, b).value;
      ForeignRun(p.store, others[n - 1], scope);
      RecordBalances(start, items, n - 1, p.(store := Run(p.store, others[n - 1])), b, scope);
    }
  }

  // --------------------------------------------------------------------------------------------
  // The same outcome as alone
  // --------------------------------------------------------------------------------------------

  // The rows of the scope's own observations are the same in both stores.
  ghost predicate OwnRowsAgree(a: Store, b: Store, scope: Ingestion.Scope) {
    forall key :: Within(scope, key) ==>
      && (key in a.observations <==> key in b.observations)
      && (key in a.observations && key in b.observations ==> a.observations[key] == b.observations[key])
  }

  // As far as the scope can tell, the batch has come equally far.
  ghost predicate Alike(p: Progress, q: Progress, scope: Ingestion.Scope) {
    p.counts == q.counts && p.quarantine == q.quarantine && OwnRowsAgree(p.store, q.store, scope)
  }

  lemma {:induction false} ForeignKeepsRows(store: Store, calls: seq<PersistCall>, scope: Ingestion.Scope)
    requires Elsewhere(scope, calls)
    ensures OwnRowsAgree(Run(store, calls), store, scope)
    decreases |calls|
  {
    if calls != [] {
      assert OwnRowsAgree(Step(store, calls[0]), store, scope);
      ForeignKeepsRows(Step(store, calls[0]), calls[1..], scope);
    }
  }

  lemma PersistAlike(a: Store, b: Store, call: PersistCall, scope: Ingestion.Scope)
    requires OwnRowsAgree(a, b, scope) && Within(scope, call.key)
    ensures Persist(a, call).Ok? <==> Persist(b, call).Ok?
    ensures Persist(a, call).Ok? ==>
              && Persist(a, call).value.1 == Persist(b, call).value.1
              && OwnRowsAgree(Persist(a, call).value.0, Persist(b, call).value.0, scope)
  {
    assert RowFor(a, call) == RowFor(b, call);
  }

  lemma RecordAlike(p: Progress, q: Progress, item: Item, b: Batch, i: nat, scope: Ingestion.Scope)
    requires Alike(p, q, scope) && (item.Mapped? ==> Within(scope, item.candidate.key))
    ensures ProcessRecord(p, item, b, i).None? <==> ProcessRecord(q, item, b, i).None?
    ensures ProcessRecord(p, item, b, i).Some? ==>
              Alike(ProcessRecord(p, item, b, i).value, ProcessRecord(q, item, b, i).value, scope)
  {
    if Admissible(item, b.at) {
      PersistAlike(p.store, q.store, CallFor(item.candidate, b, i), scope);
    }
  }

  ghost predicate SameOutcome(r: Result<Progress, Progress>, alone: Result<Progress, Progress>, scope: Ingestion.Scope) {
    match (r, alone)
    case (Ok(p), Ok(q)) => Alike(p, q, scope)
    case (Err(p), Err(q)) => Alike(p, q, scope)
    case _ => false
  }

  // While others write elsewhere, a batch goes through or raises as it would alone, with the same counters,
  // quarantine rows and own observations.
  lemma {:induction false} SharedBatchIsAlone(start: Progress, items: seq<Item>, others: seq<seq<PersistCall>>, n: nat,
                                              b: Batch, scope: Ingestion.Scope)
    requires n <= |items| == |others| && KeepsApart(scope, items, others)
    ensures SameOutcome(IngestAmong(start, items, others, n, b), IngestFirst(start, items, n, b), scope)
  {
    if n > 0 {
      SharedBatchIsAlone(start, items, others, n - 1, b, scope);
      if IngestAmong(start, items, others, n - 1, b).Ok? {
        var p, q := IngestAmong(start, items, others, n - 1, b).value, IngestFirst(start, items, n - 1, b).value;
        var shared := p.(store := Run(p.store, others[n - 1]));
        ForeignKeepsRows(p.store, others[n - 1], scope);
        RecordAlike(shared, q, items[n - 1], b, n - 1, scope);
      }
    }
  }

  // The batch alone raises at record m, with q before it.
  predicate RaisesAt(start: Progress, items: seq<Item>, b: Batch, m: nat, q: Progress)
    requires m < |items|
  {
    IngestFirst(start, items, m, b) == Ok(q) && ProcessRecord(q, items[m], b, m).None?
  }

  // A batch that raises among others keeps, of its own observations, what the records before that one made
  // of them.
  lemma FailedSharedBatchKeepsPrefix(start: Progress, items: seq<Item>, others: seq<seq<PersistCall>>, b: Batch,
                                     scope: Ingestion.Scope)
    requires |items| == |others| && KeepsApart(scope, items, others)
    requires IngestAmong(start, items, others, |items|, b).Err?
    ensures exists m: nat, q :: m < |items| && RaisesAt(start, items, b, m, q) &&
              Alike(IngestAmong(start, items, others, |items|, b).error, q, scope)
  {
    SharedBatchIsAlone(start, items, others, |items|, b, scope);
    var m := RaisedAt(start, items, |items|, b);
    assert RaisesAt(start, items, b, m, IngestFirst(start, items, |items|, b).error);
  }

  // --------------------------------------------------------------------------------------------
  // Who writes elsewhere
  // --------------------------------------------------------------------------------------------

  // Workers of other running scopes do write elsewhere: no observation lies within two running scopes of
  // one kind and different runs, in any reachable state.
  lemma RunningScopesWriteApart(actions: seq<Protocol.Action>, i: nat, j: nat, key: NaturalKey)
    requires var scopes := Protocol.DoAll(Protocol.EMPTY_SYSTEM, actions).db.scopes;
             && i < |scopes| && j < |scopes|
             && scopes[i].status.ScopeRunning? && scopes[j].status.ScopeRunning?
             && scopes[i].runId != scopes[j].runId && scopes[i].kind == scopes[j].kind
    ensures var scopes := Protocol.DoAll(Protocol.EMPTY_SYSTEM, actions).db.scopes;
            !(Within(scopes[i], key) && Within(scopes[j], key))
  {
    Protocol.ScopesMutuallyExclude(actions, i, j);
  }

  // A worker whose lease was recovered may still persist into dates another scope now runs for, and then
  // the counters no longer say how many versions the scope's observations gained.
  lemma RecoveredWorkerBreaksBalance(scope: Ingestion.Scope, c: Candidate, late: PersistCall)
    requires Within(scope, c.key) && late.key == c.key && Admissible(Mapped(c), 5) && late.at < 5
    requires late.fingerprint != c.fingerprint && !late.state.Invalid? && late.rawRecord.Some?
    ensures var start := StartOf(EMPTY_STORE, [], [Mapped(c)]);
            var r := IngestAmong(start, [Mapped(c)], [[late]], 1, Batch(1, 0, 5));
            && r.Ok? && r.value.counts.insertedCount + r.value.counts.revisedCount == 1
            && |OwnIds(r.value.store, scope)| == |OwnIds(EMPTY_STORE, scope)| + 2
  {
    var start := StartOf(EMPTY_STORE, [], [Mapped(c)]);
    var b := Batch(1, 0, 5);
    assert IngestAmong(start, [Mapped(c)], [[late]], 0, b) == Ok(start);
    var once := Step(EMPTY_STORE, late);
    assert [late][1..] == [];
    assert Run(EMPTY_STORE, [late]) == once by {
      assert Run(once, []) == once;
    }
    OwnPersist(EMPTY_STORE, late, scope);
    OwnPersist(once, CallFor(c, b, 0), scope);
  }
}
