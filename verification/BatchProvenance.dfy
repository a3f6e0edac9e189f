/** Where the rows of a batch come from: which record each new version and each quarantine row stands for, and
    what became of every record. */
module BatchProvenance {
  import opened Common
  import opened Observations
  import opened AsOfReads
  import opened Pipeline
  import Ingestion = IngestionTables

  // What validation asks: no error found, dated at most one day after the UTC date of retrieval, and for FX a
  // positive value.
  predicate Passes(c: Candidate, at: int) {
    !c.flawed && c.key.date <= at / 86_400_000_000 + 1 && (c.kind == Ingestion.Fx ==> c.value > 0.0)
  }

  predicate IsGood(item: Item, at: int) {
    item.Mapped? && Passes(item.candidate, at)
  }

  // Version v of an observation was written for record i.
  predicate WrittenFor(item: Item, i: nat, b: Batch, key: NaturalKey, v: Version) {
    && IsGood(item, b.at) && item.candidate.key == key
    && v.fingerprint == item.candidate.fingerprint
    && v.payload.value == item.candidate.value && v.payload.publishedAt == item.candidate.publishedAt
    && v.payload.state == (if item.candidate.warned then ValidWithWarnings else Valid)
    && v.payload.runId == b.runId && v.payload.rawRecordId == b.firstRaw + i
    && v.firstObservedAt == b.at && v.validFrom == b.at
  }

  // Every version is one there was, with the facts it had, or was written for one of the first n records.
  ghost predicate Sourced(before: Store, after: Store, items: seq<Item>, n: nat, b: Batch)
    requires n <= |items|
  {
    forall key, j: nat :: key in after.observations && j < |after.observations[key].versions| ==>
      if j < RowLength(before, key) then FactsOf(after.observations[key].versions[j]) == FactsOf(before.observations[key].versions[j])
      else WrittenForOne(items, n, b, key, after.observations[key].versions[j])
  }

  ghost predicate WrittenForOne(items: seq<Item>, n: nat, b: Batch, key: NaturalKey, v: Version)
    requires n <= |items|
  {
    exists i: nat :: i < n && WrittenFor(items[i], i, b, key, v)
  }

  // A version of the candidate's observation carries its fingerprint and was seen at the batch's time or later.
  ghost predicate IsStored(store: Store, c: Candidate, at: int) {
    && c.key in store.observations
    && exists j: nat :: j < |store.observations[c.key].versions|
         && SeenAs(store.observations[c.key].versions[j], c.fingerprint, at)
  }

  predicate SeenAs(v: Version, fingerprint: string, at: int) {
    v.fingerprint == fingerprint && v.lastObservedAt >= at
  }

  ghost predicate GoodOnesStored(store: Store, items: seq<Item>, n: nat, at: int)
    requires n <= |items|
  {
    forall i: nat :: i < n && IsGood(items[i], at) ==> IsStored(store, items[i].candidate, at)
  }

  // Nothing for a published absence or a good candidate, else one row at the stage that refused the record.
  function QuarantineOf(item: Item, i: nat, b: Batch): seq<QuarantineRow> {
    match item
    case Unmapped => [QuarantineRow(b.runId, b.firstRaw + i, MapStage)]
    case Mapped(c) => if Passes(c, b.at) then [] else [QuarantineRow(b.runId, b.firstRaw + i, ValidateStage)]
    case _ => []
  }

  function QuarantineOfFirst(items: seq<Item>, n: nat, b: Batch): seq<QuarantineRow>
    requires n <= |items|
  {
    if n == 0 then [] else QuarantineOfFirst(items, n - 1, b) + QuarantineOf(items[n - 1], n - 1, b)
  }

  // --------------------------------------------------------------------------------------------
  // One record
  // --------------------------------------------------------------------------------------------

  lemma VerdictMeans(c: Candidate, at: int)
    ensures Verdict(c, at) == if !Passes(c, at) then Invalid else if c.warned then ValidWithWarnings else Valid
  {
  }

  // A revision keeps the facts of all versions and their times of last sight at least, and may write one more.
  lemma RevisionWrites(o: Observation, s: Sighting)
    requires Apply(o, s).Ok?
    ensures var after := Apply(o, s).value.0.versions;
            && |o.versions| <= |after| <= |o.versions| + 1
            && (forall j :: 0 <= j < |o.versions| ==>
                  FactsOf(after[j]) == FactsOf(o.versions[j]) && after[j].lastObservedAt >= o.versions[j].lastObservedAt)
            && (|after| > |o.versions| ==>
                  var v := after[|o.versions|];
                  v.fingerprint == s.fingerprint && v.payload == s.payload && v.firstObservedAt == v.validFrom == s.at)
            && (exists j: nat :: j < |after| && SeenAs(after[j], s.fingerprint, s.at))
  {
    var after := Apply(o, s).value.0.versions;
    if |after| > |o.versions| {
      assert SeenAs(after[|o.versions|], s.fingerprint, s.at);
    } else {
      assert SeenAs(after[o.currentVersion.value], s.fingerprint, s.at);
    }
  }

  lemma RecordIsSourced(before: Store, p: Progress, items: seq<Item>, n: nat, b: Batch)
    requires n < |items| && Sourced(before, p.store, items, n, b) && ProcessRecord(p, items[n], b, n).Some?
    requires forall key :: RowLength(before, key) <= RowLength(p.store, key)
    ensures var next := ProcessRecord(p, items[n], b, n).value.store;
            Sourced(before, next, items, n + 1, b) && forall key :: RowLength(before, key) <= RowLength(next, key)
  {
    if items[n].Mapped? {
      VerdictMeans(items[n].candidate, b.at);
    }
    if IsGood(items[n], b.at) {
      PersistWritesOne(p.store, CallFor(items[n].candidate, b, n));
      GoodRecordIsSourced(before, p.store, Persist(p.store, CallFor(items[n].candidate, b, n)).value.0, items, n, b);
    } else {
      NothingWritten(before, p.store, items, n, b);
    }
  }

  lemma NothingWritten(before: Store, store: Store, items: seq<Item>, n: nat, b: Batch)
    requires n < |items| && Sourced(before, store, items, n, b)
    ensures Sourced(before, store, items, n + 1, b)
  {
    forall key, j: nat | key in store.observations && RowLength(before, key) <= j < |store.observations[key].versions|
      ensures WrittenForOne(items, n + 1, b, key, store.observations[key].versions[j])
    {
      WrittenForFacts(items, n, b, key, store.observations[key].versions[j], store.observations[key].versions[j]);
    }
  }

  // Facts alone decide for which record a version was written.
  lemma WrittenForFacts(items: seq<Item>, n: nat, b: Batch, key: NaturalKey, v: Version, w: Version)
    requires n < |items| && FactsOf(v) == FactsOf(w) && WrittenForOne(items, n, b, key, v)
    ensures WrittenForOne(items, n + 1, b, key, w)
  {
    var i: nat :| i < n && WrittenFor(items[i], i, b, key, v);
    assert WrittenFor(items[i], i, b, key, w);
  }

  // What one persist leaves of each observation: its versions' facts, and at most one version more.
  ghost predicate OneWritten(store: Store, next: Store, call: PersistCall) {
    forall key, j: nat :: key in next.observations && j < |next.observations[key].versions| ==>
      var v := next.observations[key].versions[j];
      if j < RowLength(store, key) then FactsOf(v) == FactsOf(store.observations[key].versions[j])
      else
        && key == call.key && v.fingerprint == call.fingerprint && call.rawRecord.Some?
        && v.payload == Payload(call.value, call.publishedAt, call.state, call.runId, call.rawRecord.value)
        && v.firstObservedAt == v.validFrom == call.at
  }

  lemma PersistWritesOne(store: Store, call: PersistCall)
    requires Persist(store, call).Ok?
    ensures var next := Persist(store, call).value.0;
            OneWritten(store, next, call) && forall key :: RowLength(store, key) <= RowLength(next, key)
  {
    var o := RowFor(store, call);
    var row := Apply(o, SightingOf(call)).value.0;
    var next := Persist(store, call).value.0;
    RevisionWrites(o, SightingOf(call));
    assert next.observations == store.observations[call.key := row] && |o.versions| == RowLength(store, call.key);
    assert forall key :: key != call.key ==> RowLength(next, key) == RowLength(store, key);
    forall key, j: nat | key in next.observations && j < |next.observations[key].versions| && key != call.key
      ensures FactsOf(next.observations[key].versions[j]) == FactsOf(store.observations[key].versions[j])
    {
    }
  }

  lemma GoodRecordIsSourced(before: Store, store: Store, next: Store, items: seq<Item>, n: nat, b: Batch)
    requires n < |items| && Sourced(before, store, items, n, b) && IsGood(items[n], b.at)
    requires OneWritten(store, next, CallFor(items[n].candidate, b, n))
    requires forall key :: RowLength(before, key) <= RowLength(store, key)
    ensures Sourced(before, next, items, n + 1, b)
  {
    VerdictMeans(items[n].candidate, b.at);
    forall key, j: nat | key in next.observations && RowLength(before, key) <= j < |next.observations[key].versions|
      ensures WrittenForOne(items, n + 1, b, key, next.observations[key].versions[j])
    {
      var v := next.observations[key].versions[j];
      if j < RowLength(store, key) {
        WrittenForFacts(items, n, b, key, store.observations[key].versions[j], v);
      } else {
        assert WrittenFor(items[n], n, b, key, v);
      }
    }
  }

  lemma PersistKeepsStored(store: Store, call: PersistCall, c: Candidate, at: int)
    requires Persist(store, call).Ok?
    ensures IsStored(store, c, at) ==> IsStored(Persist(store, call).value.0, c, at)
    ensures call.key == c.key && call.fingerprint == c.fingerprint && call.at == at ==>
              IsStored(Persist(store, call).value.0, c, at)
  {
    RevisionWrites(RowFor(store, call), SightingOf(call));
    var next := Persist(store, call).value.0;
    if IsStored(store, c, at) {
      var j: nat :| j < |store.observations[c.key].versions| && SeenAs(store.observations[c.key].versions[j], c.fingerprint, at);
      assert SeenAs(next.observations[c.key].versions[j], c.fingerprint, at);
    }
  }

  lemma RecordIsStored(p: Progress, items: seq<Item>, n: nat, b: Batch)
    requires n < |items| && GoodOnesStored(p.store, items, n, b.at) && ProcessRecord(p, items[n], b, n).Some?
    ensures GoodOnesStored(ProcessRecord(p, items[n], b, n).value.store, items, n + 1, b.at)
  {
    if items[n].Mapped? {
      VerdictMeans(items[n].candidate, b.at);
    }
    if IsGood(items[n], b.at) {
      forall i: nat | i < n + 1 && IsGood(items[i], b.at)
        ensures IsStored(ProcessRecord(p, items[n], b, n).value.store, items[i].candidate, b.at)
      {
        PersistKeepsStored(p.store, CallFor(items[n].candidate, b, n), items[i].candidate, b.at);
      }
    }
  }

  lemma RecordIsQuarantined(p: Progress, item: Item, b: Batch, i: nat)
    requires ProcessRecord(p, item, b, i).Some?
    ensures ProcessRecord(p, item, b, i).value.quarantine == p.quarantine + QuarantineOf(item, i, b)
  {
    if item.Mapped? {
      VerdictMeans(item.candidate, b.at);
    }
  }

  // --------------------------------------------------------------------------------------------
  // The batch
  // --------------------------------------------------------------------------------------------

  // After n records without a raise: every version gained was written for a good record, every good record
  // is stored, and the quarantine rows gained are those of the refused records, in order.
  ghost predicate Accounts(start: Progress, p: Progress, items: seq<Item>, n: nat, b: Batch)
    requires n <= |items|
  {
    && Sourced(start.store, p.store, items, n, b)
    && (forall key :: RowLength(start.store, key) <= RowLength(p.store, key))
    && GoodOnesStored(p.store, items, n, b.at)
    && p.quarantine == start.quarantine + QuarantineOfFirst(items, n, b)
  }

  lemma RecordAccounts(start: Progress, p: Progress, items: seq<Item>, n: nat, b: Batch)
    requires n < |items| && Accounts(start, p, items, n, b) && ProcessRecord(p, items[n], b, n).Some?
    ensures Accounts(start, ProcessRecord(p, items[n], b, n).value, items, n + 1, b)
  {
    RecordIsSourced(start.store, p, items, n, b);
    RecordIsStored(p, items, n, b);
    RecordIsQuarantined(p, items[n], b, n);
  }

  lemma {:induction false} RecordsPreserve(start: Progress, items: seq<Item>, n: nat, b: Batch, holds: (Progress, nat) -> bool)
    requires n <= |items| && IngestFirst(start, items, n, b).Ok? && holds(start, 0)
    requires forall p, i: nat :: i < n && holds(p, i) && ProcessRecord(p, items[i], b, i).Some? ==>
               holds(ProcessRecord(p, items[i], b, i).value, i + 1)
    ensures holds(IngestFirst(start, items, n, b).value, n)
  {
    if n > 0 {
      RecordsPreserve(start, items, n - 1, b, holds);
    }
  }

  lemma FirstRecordsMean(start: Progress, items: seq<Item>, n: nat, b: Batch)
    requires n <= |items| && IngestFirst(start, items, n, b).Ok?
    ensures Accounts(start, IngestFirst(start, items, n, b).value, items, n, b)
  {
    var holds := (p: Progress, i: nat) => i <= |items| && Accounts(start, p, items, i, b);
    forall p, i: nat | i < n && holds(p, i) && ProcessRecord(p, items[i], b, i).Some?
      ensures holds(ProcessRecord(p, items[i], b, i).value, i + 1)
    {
      RecordAccounts(start, p, items, i, b);
    }
    RecordsPreserve(start, items, n, b, holds);
  }

  // A quarantine row of a batch stands for one record: an unmapped one, or a mapped one that does not pass.
  predicate RefusedAs(item: Item, i: nat, b: Batch, row: QuarantineRow) {
    && row.runId == b.runId && row.rawRecord == b.firstRaw + i
    && match row.stage
       case MapStage => item.Unmapped?
       case ValidateStage => item.Mapped? && !Passes(item.candidate, b.at)
  }

  predicate IsRefused(item: Item, at: int) {
    item.Unmapped? || (item.Mapped? && !Passes(item.candidate, at))
  }

  ghost predicate StandsForOne(row: QuarantineRow, items: seq<Item>, n: nat, b: Batch)
    requires n <= |items|
  {
    exists i: nat :: i < n && RefusedAs(items[i], i, b, row)
  }

  ghost predicate HasRow(rows: seq<QuarantineRow>, item: Item, i: nat, b: Batch) {
    exists k :: 0 <= k < |rows| && RefusedAs(item, i, b, rows[k])
  }

  // Each row stands for a refused record, each refused record has a row, and no two share a raw row.
  ghost predicate RefusedOnes(rows: seq<QuarantineRow>, items: seq<Item>, n: nat, b: Batch)
    requires n <= |items|
  {
    && (forall k :: 0 <= k < |rows| ==> StandsForOne(rows[k], items, n, b))
    && (forall i: nat :: i < n && IsRefused(items[i], b.at) ==> HasRow(rows, items[i], i, b))
    && (forall k, l :: 0 <= k < l < |rows| ==> rows[k].rawRecord < rows[l].rawRecord)
  }

  // What holds of no rows and is kept by the rows of each record holds of the rows of the first n.
  lemma {:induction false} QuarantinePreserves(items: seq<Item>, n: nat, b: Batch, holds: (seq<QuarantineRow>, nat) -> bool)
    requires n <= |items| && holds([], 0)
    requires forall rows, i: nat :: i < n && holds(rows, i) ==> holds(rows + QuarantineOf(items[i], i, b), i + 1)
    ensures holds(QuarantineOfFirst(items, n, b), n)
  {
    if n > 0 {
      QuarantinePreserves(items, n - 1, b, holds);
    }
  }

  lemma QuarantineMeans(items: seq<Item>, n: nat, b: Batch)
    requires n <= |items|
    ensures RefusedOnes(QuarantineOfFirst(items, n, b), items, n, b)
  {
    var holds := (rows: seq<QuarantineRow>, i: nat) => i <= |items| && RefusedOnes(rows, items, i, b);
    forall rows, i: nat | i < n && holds(rows, i) ensures holds(rows + QuarantineOf(items[i], i, b), i + 1) {
      NextMayBeRefused(rows, items, i, b);
    }
    QuarantinePreserves(items, n, b, holds);
  }

  lemma NextMayBeRefused(rows: seq<QuarantineRow>, items: seq<Item>, n: nat, b: Batch)
    requires n < |items| && RefusedOnes(rows, items, n, b)
    ensures RefusedOnes(rows + QuarantineOf(items[n], n, b), items, n + 1, b)
  {
    var more := QuarantineOf(items[n], n, b);
    if IsRefused(items[n], b.at) {
      assert more == [more[0]] && RefusedAs(items[n], n, b, more[0]);
      OneMoreRefused(rows, items, n, b, more[0]);
    } else {
      assert rows + more == rows;
      NoneRefused(rows, items, n, b);
    }
  }

  lemma NoneRefused(rows: seq<QuarantineRow>, items: seq<Item>, n: nat, b: Batch)
    requires n < |items| && RefusedOnes(rows, items, n, b) && !IsRefused(items[n], b.at)
    ensures RefusedOnes(rows, items, n + 1, b)
  {
    forall k | 0 <= k < |rows| ensures StandsForOne(rows[k], items, n + 1, b) {
      StandsAmongMore(rows[k], items, n, b);
    }
  }

  lemma StandsAmongMore(row: QuarantineRow, items: seq<Item>, n: nat, b: Batch)
    requires n < |items| && StandsForOne(row, items, n, b)
    ensures StandsForOne(row, items, n + 1, b) && row.rawRecord < b.firstRaw + n
  {
    var i: nat :| i < n && RefusedAs(items[i], i, b, row);
    assert RefusedAs(items[i], i, b, row);
  }

  lemma RowAmongMore(rows: seq<QuarantineRow>, last: QuarantineRow, item: Item, i: nat, b: Batch)
    requires HasRow(rows, item, i, b) || RefusedAs(item, i, b, last)
    ensures HasRow(rows + [last], item, i, b)
  {
    if HasRow(rows, item, i, b) {
      var k :| 0 <= k < |rows| && RefusedAs(item, i, b, rows[k]);
      assert RefusedAs(item, i, b, (rows + [last])[k]);
    } else {
      assert RefusedAs(item, i, b, (rows + [last])[|rows|]);
    }
  }

  lemma OneMoreRefused(rows: seq<QuarantineRow>, items: seq<Item>, n: nat, b: Batch, last: QuarantineRow)
    requires n < |items| && RefusedOnes(rows, items, n, b) && RefusedAs(items[n], n, b, last)
    ensures RefusedOnes(rows + [last], items, n + 1, b)
  {
    forall k | 0 <= k < |rows + [last]| ensures StandsForOne((rows + [last])[k], items, n + 1, b) {
      if k < |rows| {
        StandsAmongMore(rows[k], items, n, b);
      }
    }
    forall i: nat | i < n + 1 && IsRefused(items[i], b.at) ensures HasRow(rows + [last], items[i], i, b) {
      RowAmongMore(rows, last, items[i], i, b);
    }
    forall k, l | 0 <= k < l < |rows + [last]| ensures (rows + [last])[k].rawRecord < (rows + [last])[l].rawRecord {
      StandsAmongMore(rows[k], items, n, b);
    }
  }

  // Main result.  A batch that goes through stores exactly its good records and quarantines exactly the
  // refused ones: each version gained carries the data, time, run and raw row of a good record, each good
  // record is stored, and each refused record has one quarantine row with its own raw row.
  lemma BatchMeans(store: Store, quarantine: seq<QuarantineRow>, items: seq<Item>, b: Batch)
    requires Ingest(store, quarantine, items, b).Ok?
    ensures var p := Ingest(store, quarantine, items, b).value;
            && Sourced(store, p.store, items, |items|, b)
            && GoodOnesStored(p.store, items, |items|, b.at)
            && quarantine <= p.quarantine
            && RefusedOnes(p.quarantine[|quarantine|..], items, |items|, b)
  {
    FirstRecordsMean(StartOf(store, quarantine, items), items, |items|, b);
    QuarantineMeans(items, |items|, b);
    var p := Ingest(store, quarantine, items, b).value;
    assert p.quarantine[|quarantine|..] == QuarantineOfFirst(items, |items|, b);
  }

  // --------------------------------------------------------------------------------------------
  // The counters
  // --------------------------------------------------------------------------------------------

  // The observations that have their first version since.
  ghost function FirstSeen(before: Store, after: Store): set<NaturalKey> {
    set key | key in after.observations && RowLength(after, key) > 0 && RowLength(before, key) == 0
  }

  ghost predicate CountsFirst(before: Store, p: Progress) {
    && WellFormedStore(p.store) && p.counts.insertedCount == |FirstSeen(before, p.store)|
    && (forall key :: RowLength(before, key) <= RowLength(p.store, key))
  }

  // "Inserted" is what an observation's first version is reported as.
  lemma InsertedIsFirst(o: Observation, s: Sighting)
    requires WellFormed(o) && Apply(o, s).Ok?
    ensures Apply(o, s).value.1 == Inserted <==> o.versions == []
    ensures |Apply(o, s).value.0.versions| > 0
  {
  }

  lemma GainsAtMostOne(a: set<NaturalKey>, b: set<NaturalKey>, key: NaturalKey, gains: bool)
    requires forall k :: k != key ==> (k in a <==> k in b)
    requires gains ==> key in b && key !in a
    requires !gains ==> (key in a <==> key in b)
    ensures |b| == |a| + if gains then 1 else 0
  {
    if gains {
      assert b == a + {key};
    } else {
      assert b == a;
    }
  }

  lemma OneRowGrows(before: Store, store: Store, next: Store, key: NaturalKey, row: Observation)
    requires next.observations == store.observations[key := row] && |row.versions| > 0
    requires RowLength(before, key) <= RowLength(store, key)
    ensures |FirstSeen(before, next)| == |FirstSeen(before, store)| + if RowLength(store, key) == 0 then 1 else 0
  {
    forall k | k != key ensures k in FirstSeen(before, store) <==> k in FirstSeen(before, next) {
      OtherRowStays(before, store, next, key, row, k);
    }
    GainsAtMostOne(FirstSeen(before, store), FirstSeen(before, next), key, RowLength(store, key) == 0);
  }

  lemma OtherRowStays(before: Store, store: Store, next: Store, key: NaturalKey, row: Observation, k: NaturalKey)
    requires next.observations == store.observations[key := row] && k != key
    ensures k in FirstSeen(before, next) <==> k in FirstSeen(before, store)
  {
    assert RowLength(next, k) == RowLength(store, k);
  }

  lemma PersistCountsFirst(before: Store, p: Progress, call: PersistCall)
    requires CountsFirst(before, p) && Persist(p.store, call).Ok?
    ensures var (next, revision) := Persist(p.store, call).value;
            && WellFormedStore(next) && (forall key :: RowLength(before, key) <= RowLength(next, key))
            && |FirstSeen(before, next)| == p.counts.insertedCount + if revision.outcome == Inserted then 1 else 0
  {
    var (next, revision) := Persist(p.store, call).value;
    assert WellFormedStore(next) by {
      StepKeepsTimelines(p.store, call);
    }
    assert forall key :: RowLength(before, key) <= RowLength(next, key) by {
      PersistWritesOne(p.store, call);
    }
    RowOfCall(p.store, call);
    OneRowGrows(before, p.store, next, call.key, Apply(RowFor(p.store, call), SightingOf(call)).value.0);
  }

  // The row a persist writes, and when it reports an insertion.
  lemma RowOfCall(store: Store, call: PersistCall)
    requires WellFormedStore(store) && Persist(store, call).Ok?
    ensures call.rawRecord.Some? && Apply(RowFor(store, call), SightingOf(call)).Ok?
    ensures var row := Apply(RowFor(store, call), SightingOf(call)).value.0;
            && Persist(store, call).value.0.observations == store.observations[call.key := row] && |row.versions| > 0
            && (Persist(store, call).value.1.outcome == Inserted <==> RowLength(store, call.key) == 0)
  {
    InsertedIsFirst(RowFor(store, call), SightingOf(call));
  }

  lemma RecordCountsFirst(before: Store, p: Progress, item: Item, b: Batch, i: nat)
    requires CountsFirst(before, p) && ProcessRecord(p, item, b, i).Some?
    ensures CountsFirst(before, ProcessRecord(p, item, b, i).value)
  {
    if Admissible(item, b.at) {
      PersistCountsFirst(before, p, CallFor(item.candidate, b, i));
    }
  }

  // Of the records of a batch, as many count as inserted as observations got their first version, as revised
  // as further versions were written, as quarantined as rows were added, and the other candidates as unchanged.
  lemma CountsMean(store: Store, quarantine: seq<QuarantineRow>, items: seq<Item>, b: Batch)
    requires WellFormedStore(store) && Ingest(store, quarantine, items, b).Ok?
    ensures var p := Ingest(store, quarantine, items, b).value;
            var c, first, gained := p.counts, |FirstSeen(store, p.store)|, |VersionIds(p.store)| - |VersionIds(store)|;
            && c.fetchedCount == |items| && c.failedCount == 0
            && c.insertedCount == first && c.revisedCount == gained - first
            && c.quarantinedCount == |p.quarantine| - |quarantine|
            && c.unchangedCount == |items| - Absences(items, |items|) - c.quarantinedCount - gained
  {
    var start := StartOf(store, quarantine, items);
    var holds := (p: Progress, i: nat) => CountsFirst(store, p);
    assert FirstSeen(store, store) == {};
    forall p, i: nat | i < |items| && holds(p, i) && ProcessRecord(p, items[i], b, i).Some?
      ensures holds(ProcessRecord(p, items[i], b, i).value, i + 1)
    {
      RecordCountsFirst(store, p, items[i], b, i);
    }
    RecordsPreserve(start, items, |items|, b, holds);
    PrefixBalances(start, items, |items|, b);
  }
}
