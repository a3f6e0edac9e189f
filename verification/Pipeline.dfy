/** One fetched batch on its way into the store: `SharedIngestionPipeline` in
    `app/application/ingestion/orchestrator.py` and the duplicate check of `app/domain/validation.py`.

    Every record is one transaction; a record that raises ends the batch and rolls back its own work only. */
module Pipeline {
  import opened Common
  import opened Observations
  import opened AsOfReads
  import Ingestion = IngestionTables

  // `flawed` stands for every validation error but the date and sign checks, `warned` for a warning.
  datatype Candidate = Candidate(
    kind: Ingestion.ScopeKind, key: NaturalKey, newId: nat, fingerprint: string, value: real, publishedAt: Option<int>,
    flawed: bool, warned: bool)

  // A parsed record: one whose raw row, series or candidate type raises, one the mapper rejects, a
  // published absence, or a candidate.
  datatype Item = Breaks | Unmapped | Absent | Mapped(candidate: Candidate)

  datatype Stage = MapStage | ValidateStage

  datatype QuarantineRow = QuarantineRow(runId: nat, rawRecord: nat, stage: Stage)

  // The i-th record of the batch is stored as raw row `firstRaw + i`.
  datatype Batch = Batch(runId: nat, firstRaw: nat, at: int)

  // What the batch has done so far to the tables and the counter dictionary.
  datatype Progress = Progress(store: Store, quarantine: seq<QuarantineRow>, counts: Ingestion.Counters)

  const FUTURE_TOLERANCE_DAYS := 1

  predicate TooFarAhead(key: NaturalKey, at: int) {
    key.date > DateOf(at) + FUTURE_TOLERANCE_DAYS
  }

  function Verdict(c: Candidate, at: int): ValidationState {
    if c.flawed || TooFarAhead(c.key, at) || (c.kind.Fx? && c.value <= 0.0) then Invalid
    else if c.warned then ValidWithWarnings
    else Valid
  }

  predicate Admissible(item: Item, at: int) {
    item.Mapped? && !Verdict(item.candidate, at).Invalid?
  }

  function CallFor(c: Candidate, b: Batch, i: nat): PersistCall {
    PersistCall(c.key, c.newId, c.fingerprint, b.at, c.value, c.publishedAt, Verdict(c, b.at), b.runId,
                Some(b.firstRaw + i))
  }

  function Counted(counts: Ingestion.Counters, outcome: Outcome): Ingestion.Counters {
    match outcome
    case Inserted => counts.(insertedCount := counts.insertedCount + 1)
    case Unchanged => counts.(unchangedCount := counts.unchangedCount + 1)
    case Revised => counts.(revisedCount := counts.revisedCount + 1)
  }

  function Quarantined(p: Progress, b: Batch, i: nat, stage: Stage): Progress {
    p.(quarantine := p.quarantine + [QuarantineRow(b.runId, b.firstRaw + i, stage)],
       counts := p.counts.(quarantinedCount := p.counts.quarantinedCount + 1))
  }

  // `_process_record`; nothing comes back when it raises.
  function ProcessRecord(p: Progress, item: Item, b: Batch, i: nat): Option<Progress> {
    match item
    case Breaks => None
    case Unmapped => Some(Quarantined(p, b, i, MapStage))
    case Absent => Some(p)
    case Mapped(c) =>
      if Verdict(c, b.at).Invalid? then Some(Quarantined(p, b, i, ValidateStage))
      else
        match Persist(p.store, CallFor(c, b, i))
        case Err(_) => None
        case Ok((store, revision)) => Some(Progress(store, p.quarantine, Counted(p.counts, revision.outcome)))
  }

  // The first n records; on a raise, what was reached before it.
  function IngestFirst(start: Progress, items: seq<Item>, n: nat, b: Batch): Result<Progress, Progress>
    requires n <= |items|
  {
    if n == 0 then Ok(start)
    else
      match IngestFirst(start, items, n - 1, b)
      case Err(p) => Err(p)
      case Ok(p) =>
        match ProcessRecord(p, items[n - 1], b, n - 1)
        case None => Err(p)
        case Some(next) => Ok(next)
  }

  function StartOf(store: Store, quarantine: seq<QuarantineRow>, items: seq<Item>): Progress {
    Progress(store, quarantine, Ingestion.NO_COUNTS.(fetchedCount := |items|))
  }

  function Ingest(store: Store, quarantine: seq<QuarantineRow>, items: seq<Item>, b: Batch): Result<Progress, Progress> {
    IngestFirst(StartOf(store, quarantine, items), items, |items|, b)
  }

  // `execute`: the records, then the quality trigger if the binding sets one, which may raise once they are
  // all stored.
  function Executed(store: Store, quarantine: seq<QuarantineRow>, items: seq<Item>, b: Batch, triggerRaises: bool)
    : Result<Progress, Progress>
  {
    match Ingest(store, quarantine, items, b)
    case Err(p) => Err(p)
    case Ok(p) => if triggerRaises then Err(p) else Ok(p)
  }

  // A candidate that passes validation fits the columns it is stored in.
  lemma AdmittedIsStorable(c: Candidate, b: Batch, i: nat)
    requires Admissible(Mapped(c), b.at) && |c.fingerprint| == DIGEST_LENGTH
    ensures Storable(c.kind.Fx?, CallFor(c, b, i))
  {
  }

  // --------------------------------------------------------------------------------------------
  // The pipeline object
  // --------------------------------------------------------------------------------------------

  class SharedPipeline {
    const revisions: RevisionService
    var quarantine: seq<QuarantineRow>
    var counts: Ingestion.Counters

    ghost function Contents(): Progress
      reads this, revisions
    {
      Progress(revisions.Contents(), quarantine, counts)
    }

    constructor (revisions: RevisionService)
      ensures this.revisions == revisions
      ensures Contents() == Progress(revisions.Contents(), [], Ingestion.NO_COUNTS)
    {
      this.revisions := revisions;
      quarantine, counts := [], Ingestion.NO_COUNTS;
    }

    method Process(item: Item, b: Batch, i: nat) returns (ok: bool)
      modifies this, revisions
      ensures match ProcessRecord(old(Contents()), item, b, i)
              case None => !ok && Contents() == old(Contents())
              case Some(next) => ok && Contents() == next
    {
      ok := true;
      match item
      case Breaks => ok := false;
      case Unmapped =>
        quarantine := quarantine + [QuarantineRow(b.runId, b.firstRaw + i, MapStage)];
        counts := counts.(quarantinedCount := counts.quarantinedCount + 1);
      case Absent =>
      case Mapped(c) =>
        if Verdict(c, b.at).Invalid? {
          quarantine := quarantine + [QuarantineRow(b.runId, b.firstRaw + i, ValidateStage)];
          counts := counts.(quarantinedCount := counts.quarantinedCount + 1);
          return;
        }
        var r := revisions.PersistCandidate(CallFor(c, b, i));
        if r.Err? {
          return false;
        }
        match r.value.outcome
        case Inserted => counts := counts.(insertedCount := counts.insertedCount + 1);
        case Unchanged => counts := counts.(unchangedCount := counts.unchangedCount + 1);
        case Revised => counts := counts.(revisedCount := counts.revisedCount + 1);
    }

    // `execute` from the parsed records on, the quality trigger included.
    method Execute(items: seq<Item>, b: Batch, triggerRaises: bool) returns (ok: bool)
      modifies this, revisions
      ensures match Executed(old(revisions.Contents()), old(quarantine), items, b, triggerRaises)
              case Ok(p) => ok && Contents() == p
              case Err(p) => !ok && Contents() == p
    {
      ghost var start := StartOf(revisions.Contents(), quarantine, items);
      counts := Ingestion.NO_COUNTS.(fetchedCount := |items|);
      for i := 0 to |items|
        invariant IngestFirst(start, items, i, b) == Ok(Contents())
      {
        ok := Process(items[i], b, i);
        if !ok {
          RaiseEnds(start, items, i + 1, |items|, b);
          return;
        }
      }
      ok := !triggerRaises;
    }
  }

  lemma {:induction false} RaiseEnds(start: Progress, items: seq<Item>, m: nat, n: nat, b: Batch)
    requires m <= n <= |items| && IngestFirst(start, items, m, b).Err?
    ensures IngestFirst(start, items, n, b) == IngestFirst(start, items, m, b)
  {
    if m < n {
      RaiseEnds(start, items, m, n - 1, b);
    }
  }

  // --------------------------------------------------------------------------------------------
  // Conservation
  // --------------------------------------------------------------------------------------------

  // Every version row of the store, named by its observation and position.
  function VersionIds(store: Store): set<(NaturalKey, nat)> {
    set key, i: nat | key in store.observations && i < |store.observations[key].versions| :: (key, i)
  }

  function RowLength(store: Store, key: NaturalKey): nat {
    if key in store.observations then |store.observations[key].versions| else 0
  }

  lemma IdsAreRows(store: Store, id: (NaturalKey, nat))
    ensures id in VersionIds(store) <==> id.1 < RowLength(store, id.0)
  {
    assert id == (id.0, id.1);
  }

  function Absences(items: seq<Item>, n: nat): nat
    requires n <= |items|
  {
    if n == 0 then 0 else Absences(items, n - 1) + (if items[n - 1].Absent? then 1 else 0)
  }

  // Rewriting one observation row by one that has `more` extra versions.
  ghost predicate Grows(store: Store, next: Store, key: NaturalKey, more: set<(NaturalKey, nat)>) {
    && (forall k :: k != key ==> RowLength(next, k) == RowLength(store, k))
    && (more == {} || more == {(key, RowLength(store, key))})
    && RowLength(next, key) == RowLength(store, key) + |more|
  }

  lemma IdGrows(store: Store, next: Store, key: NaturalKey, more: set<(NaturalKey, nat)>, id: (NaturalKey, nat))
    requires Grows(store, next, key, more)
    ensures id in VersionIds(next) <==> id in VersionIds(store) || id in more
    ensures id in more ==> id !in VersionIds(store) && id.0 == key
  {
    IdsAreRows(store, id);
    IdsAreRows(next, id);
  }

  lemma DisjointUnion<T>(a: set<T>, more: set<T>, b: set<T>)
    requires (forall x :: x in b <==> x in a || x in more) && (forall x :: x in more ==> x !in a)
    ensures a <= b && |b| == |a| + |more|
  {
    assert b == a + more;
  }

  lemma RowGrows(store: Store, next: Store, key: NaturalKey, more: set<(NaturalKey, nat)>)
    requires Grows(store, next, key, more)
    ensures VersionIds(store) <= VersionIds(next) && |VersionIds(next)| == |VersionIds(store)| + |more|
  {
    forall id ensures (id in VersionIds(next) <==> id in VersionIds(store) || id in more) && (id in more ==> id !in VersionIds(store)) {
      IdGrows(store, next, key, more, id);
    }
    DisjointUnion(VersionIds(store), more, VersionIds(next));
  }

  lemma ApplyGrowth(o: Observation, s: Sighting)
    requires Apply(o, s).Ok?
    ensures |Apply(o, s).value.0.versions| == |o.versions| + (if Apply(o, s).value.1.Unchanged? then 0 else 1)
  {
  }

  // A persist adds one version row unless it reports "unchanged", and never loses one.
  lemma PersistAddsVersion(store: Store, p: PersistCall)
    requires Persist(store, p).Ok?
    ensures var (next, revision) := Persist(store, p).value;
            && VersionIds(store) <= VersionIds(next)
            && |VersionIds(next)| == |VersionIds(store)| + (if revision.outcome.Unchanged? then 0 else 1)
  {
    var (next, revision) := Persist(store, p).value;
    ApplyGrowth(RowFor(store, p), SightingOf(p));
    RowGrows(store, next, p.key, if revision.outcome.Unchanged? then {} else {(p.key, RowLength(store, p.key))});
  }

  // What one batch has accounted for after n records.
  predicate Balanced(start: Progress, items: seq<Item>, n: nat, p: Progress)
    requires n <= |items|
  {
    var c := p.counts;
    && c.fetchedCount == start.counts.fetchedCount && c.failedCount == 0
    && c.NonNegative()
    && c.insertedCount + c.unchangedCount + c.revisedCount + c.quarantinedCount + Absences(items, n) == n
    && |VersionIds(p.store)| == |VersionIds(start.store)| + c.insertedCount + c.revisedCount
    && |p.quarantine| == |start.quarantine| + c.quarantinedCount
    && start.quarantine <= p.quarantine
  }

  lemma RecordBalances(start: Progress, items: seq<Item>, n: nat, p: Progress, b: Batch)
    requires n < |items| && Balanced(start, items, n, p) && ProcessRecord(p, items[n], b, n).Some?
    ensures Balanced(start, items, n + 1, ProcessRecord(p, items[n], b, n).value)
  {
    if Admissible(items[n], b.at) {
      PersistAddsVersion(p.store, CallFor(items[n].candidate, b, n));
      AdmittedBalances(start, items, n, p, b);
    }
  }

  lemma AdmittedBalances(start: Progress, items: seq<Item>, n: nat, p: Progress, b: Batch)
    requires n < |items| && Balanced(start, items, n, p) && Admissible(items[n], b.at)
    requires var r := Persist(p.store, CallFor(items[n].candidate, b, n));
             && r.Ok?
             && |VersionIds(r.value.0)| == |VersionIds(p.store)| + (if r.value.1.outcome.Unchanged? then 0 else 1)
    ensures ProcessRecord(p, items[n], b, n).Some?
    ensures Balanced(start, items, n + 1, ProcessRecord(p, items[n], b, n).value)
  {
  }

  lemma {:induction false} PrefixBalances(start: Progress, items: seq<Item>, n: nat, b: Batch)
    requires n <= |items| && IngestFirst(start, items, n, b).Ok?
    requires start.counts == Ingestion.NO_COUNTS.(fetchedCount := |items|)
    ensures Balanced(start, items, n, IngestFirst(start, items, n, b).value)
  {
    if n > 0 {
      PrefixBalances(start, items, n - 1, b);
      RecordBalances(start, items, n - 1, IngestFirst(start, items, n - 1, b).value, b);
    }
  }

  // The second half of `_execute_scope`: the scope row after its batch.
  function SettleScope(db: Ingestion.Tables, s: nat, outcome: Result<Progress, Progress>, now: int): Ingestion.Tables {
    match outcome
    case Err(_) => Ingestion.FailScope(db, s, now, Ingestion.OtherError)
    case Ok(p) =>
      match Ingestion.Complete(db, s, Ingestion.ScopeSucceeded, now, p.counts, None)
      case Ok(next) => next
      case Err(_) => Ingestion.FailScope(db, s, now, Ingestion.OtherError)
  }

  // A succeeded scope's row accounts for every record: each was inserted, unchanged, revised,
  // quarantined or a published absence; versions and quarantine rows grew by what it says.
  lemma SucceededScopeAccounts(db: Ingestion.Tables, s: nat, store: Store, quarantine: seq<QuarantineRow>,
                               items: seq<Item>, b: Batch, triggerRaises: bool, now: int)
    requires s < |db.scopes| && db.scopes[s].status.ScopeRunning?
    ensures var outcome := Executed(store, quarantine, items, b, triggerRaises);
            var scope := SettleScope(db, s, outcome, now).scopes[s];
            var c := scope.counters;
            && (outcome.Ok? <==> scope.status.ScopeSucceeded?)
            && (outcome.Ok? ==>
                  && c.fetchedCount == |items| && c.failedCount == 0
                  && c.fetchedCount == c.insertedCount + c.unchangedCount + c.revisedCount + c.quarantinedCount
                                       + Absences(items, |items|)
                  && |VersionIds(outcome.value.store)| == |VersionIds(store)| + c.insertedCount + c.revisedCount
                  && |outcome.value.quarantine| == |quarantine| + c.quarantinedCount)
  {
    if Ingest(store, quarantine, items, b).Ok? {
      PrefixBalances(StartOf(store, quarantine, items), items, |items|, b);
    }
  }

  lemma {:induction false} RaisedAt(start: Progress, items: seq<Item>, n: nat, b: Batch) returns (m: nat)
    requires n <= |items| && IngestFirst(start, items, n, b).Err?
    ensures m < n && IngestFirst(start, items, m, b) == Ok(IngestFirst(start, items, n, b).error)
    ensures ProcessRecord(IngestFirst(start, items, n, b).error, items[m], b, m).None?
  {
    if IngestFirst(start, items, n - 1, b).Ok? {
      m := n - 1;
    } else {
      m := RaisedAt(start, items, n - 1, b);
    }
  }

  // A failed scope counts one failure and nothing else, whatever it stored: the records before the one
  // that raised, or all of them when the quality trigger raised.
  lemma FailedScopeKeepsPrefix(db: Ingestion.Tables, s: nat, store: Store, quarantine: seq<QuarantineRow>,
                               items: seq<Item>, b: Batch, triggerRaises: bool, now: int)
    requires s < |db.scopes| && db.scopes[s].status.ScopeRunning?
    requires Executed(store, quarantine, items, b, triggerRaises).Err?
    ensures SettleScope(db, s, Executed(store, quarantine, items, b, triggerRaises), now).scopes[s].counters
            == Ingestion.ONE_FAILURE
    ensures exists m :: 0 <= m <= |items| && StopsAt(store, quarantine, items, b, triggerRaises, m)
  {
    if Ingest(store, quarantine, items, b).Err? {
      var m := RaisedAt(StartOf(store, quarantine, items), items, |items|, b);
      assert StopsAt(store, quarantine, items, b, triggerRaises, m);
    } else {
      assert StopsAt(store, quarantine, items, b, triggerRaises, |items|);
    }
  }

  // The batch ends before record m, or behind the last one, keeping what the m records before it did.
  predicate StopsAt(store: Store, quarantine: seq<QuarantineRow>, items: seq<Item>, b: Batch, triggerRaises: bool, m: nat)
    requires m <= |items|
  {
    var start := StartOf(store, quarantine, items);
    match Executed(store, quarantine, items, b, triggerRaises)
    case Ok(_) => false
    case Err(p) =>
      && IngestFirst(start, items, m, b) == Ok(p)
      && if m < |items| then ProcessRecord(p, items[m], b, m).None? else triggerRaises
  }
}
