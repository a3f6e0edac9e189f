/** Duplicate candidates within one batch (`detect_batch_duplicates` in `app/domain/validation.py`), and
    what they decide about ingesting the same batch again. */
module Duplicates {
  import opened Common
  import opened Observations
  import opened AsOfReads
  import opened Pipeline

  // --------------------------------------------------------------------------------------------
  // Detection
  // --------------------------------------------------------------------------------------------

  datatype Finding<C> = Identical(candidate: C) | Conflict(candidate: C)

  // The earliest candidate with this natural key.
  function FirstWith<C, K(==)>(candidates: seq<C>, key: C -> K, k: K): Option<C> {
    if candidates == [] then None
    else
      match FirstWith(Front(candidates), key, k)
      case Some(c) => Some(c)
      case None => if key(Last(candidates)) == k then Some(Last(candidates)) else None
  }

  // Every candidate whose key occurred before, compared with the key's earliest candidate.
  function Findings<C, K(==)>(candidates: seq<C>, key: C -> K, fingerprint: C -> string): seq<Finding<C>> {
    if candidates == [] then []
    else
      var last := Last(candidates);
      var earlier := Findings(Front(candidates), key, fingerprint);
      match FirstWith(Front(candidates), key, key(last))
      case None => earlier
      case Some(first) =>
        earlier + [if fingerprint(first) == fingerprint(last) then Identical(last) else Conflict(last)]
  }

  method DetectBatchDuplicates<C, K(==, !new)>(candidates: seq<C>, key: C -> K, fingerprint: C -> string)
    returns (findings: seq<Finding<C>>)
    ensures findings == Findings(candidates, key, fingerprint)
  {
    var seen: map<K, string> := map[];
    findings := [];
    for i := 0 to |candidates|
      invariant findings == Findings(candidates[..i], key, fingerprint)
      invariant forall k :: k in seen <==> FirstWith(candidates[..i], key, k).Some?
      invariant forall k :: k in seen ==> seen[k] == fingerprint(FirstWith(candidates[..i], key, k).value)
    {
      var candidate := candidates[i];
      assert Front(candidates[..i + 1]) == candidates[..i];
      if key(candidate) in seen {
        var identical := seen[key(candidate)] == fingerprint(candidate);
        findings := findings + [if identical then Identical(candidate) else Conflict(candidate)];
      } else {
        seen := seen[key(candidate) := fingerprint(candidate)];
      }
    }
    assert candidates[..|candidates|] == candidates;
  }

  predicate NoConflict<C>(findings: seq<Finding<C>>) {
    forall i :: 0 <= i < |findings| ==> findings[i].Identical?
  }

  // Equal natural keys carry equal fingerprints.
  predicate KeysAgree<C, K(==)>(candidates: seq<C>, key: C -> K, fingerprint: C -> string) {
    forall i, j :: 0 <= i < |candidates| && 0 <= j < |candidates| && key(candidates[i]) == key(candidates[j]) ==>
      fingerprint(candidates[i]) == fingerprint(candidates[j])
  }

  lemma {:induction false} FirstWithFinds<C, K>(candidates: seq<C>, key: C -> K, k: K)
    ensures match FirstWith(candidates, key, k)
            case None => forall i :: 0 <= i < |candidates| ==> key(candidates[i]) != k
            case Some(c) => c in candidates && key(c) == k
  {
    if candidates != [] {
      FirstWithFinds(Front(candidates), key, k);
    }
  }

  // Comparing with the earliest occurrence alone misses no contradiction between any two candidates.
  lemma {:induction false} NoConflictMeansKeysAgree<C, K>(candidates: seq<C>, key: C -> K, fingerprint: C -> string)
    ensures NoConflict(Findings(candidates, key, fingerprint)) <==> KeysAgree(candidates, key, fingerprint)
  {
    if candidates != [] {
      var front, last := Front(candidates), Last(candidates);
      NoConflictMeansKeysAgree(front, key, fingerprint);
      FirstWithFinds(front, key, key(last));
      var earlier := Findings(front, key, fingerprint);
      var all := Findings(candidates, key, fingerprint);
      assert NoConflict(all) ==> NoConflict(earlier) by {
        assert forall i :: 0 <= i < |earlier| ==> all[i] == earlier[i];
      }
      assert forall i :: 0 <= i < |front| ==> candidates[i] == front[i];
      if FirstWith(front, key, key(last)).Some? {
        var first := FirstWith(front, key, key(last)).value;
        var m :| 0 <= m < |front| && front[m] == first;
        assert all[|earlier|] == if fingerprint(first) == fingerprint(last) then Identical(last) else Conflict(last);
        assert candidates[|front|] == last && candidates[m] == first;
      }
    }
  }

  // Candidate i is the first with the key of candidate j.
  predicate IsEarliest<C, K(==)>(candidates: seq<C>, key: C -> K, i: int, j: int) {
    && 0 <= i <= j < |candidates| && key(candidates[i]) == key(candidates[j])
    && forall m :: 0 <= m < i ==> key(candidates[m]) != key(candidates[j])
  }

  // How many of the first n candidates repeat an earlier key.
  function RepeatCount<C, K(==)>(candidates: seq<C>, key: C -> K, n: nat): nat
    requires n <= |candidates|
  {
    if n == 0 then 0
    else RepeatCount(candidates, key, n - 1) + if IsEarliest(candidates, key, n - 1, n - 1) then 0 else 1
  }

  lemma {:induction false} CountOfFront<C, K>(candidates: seq<C>, key: C -> K, n: nat)
    requires n < |candidates|
    ensures RepeatCount(Front(candidates), key, n) == RepeatCount(candidates, key, n)
  {
    if n > 0 {
      CountOfFront(candidates, key, n - 1);
      assert IsEarliest(Front(candidates), key, n - 1, n - 1) <==> IsEarliest(candidates, key, n - 1, n - 1);
    }
  }

  lemma {:induction false} FirstWithIsEarliest<C, K>(candidates: seq<C>, key: C -> K, k: K)
    ensures match FirstWith(candidates, key, k)
            case None => forall i :: 0 <= i < |candidates| ==> key(candidates[i]) != k
            case Some(c) =>
              exists i :: 0 <= i < |candidates| && candidates[i] == c && key(c) == k && forall m :: 0 <= m < i ==> key(candidates[m]) != k
  {
    if candidates != [] {
      var front := Front(candidates);
      FirstWithIsEarliest(front, key, k);
      match FirstWith(front, key, k)
      case Some(c) =>
        var i :| 0 <= i < |front| && front[i] == c && key(c) == k && forall m :: 0 <= m < i ==> key(front[m]) != k;
        assert candidates[i] == c && forall m :: 0 <= m < i ==> candidates[m] == front[m];
      case None =>
        assert forall m :: 0 <= m < |front| ==> candidates[m] == front[m];
        assert key(Last(candidates)) == k ==> candidates[|front|] == Last(candidates);
    }
  }

  // The finding about candidate j stands where the repeats before it end, and compares it with candidate i.
  ghost predicate FoundAt<C, K>(candidates: seq<C>, key: C -> K, fingerprint: C -> string, findings: seq<Finding<C>>, i: int, j: int)
    requires IsEarliest(candidates, key, i, j)
  {
    var at := RepeatCount(candidates, key, j);
    && at < |findings|
    && findings[at] == if fingerprint(candidates[i]) == fingerprint(candidates[j]) then Identical(candidates[j]) else Conflict(candidates[j])
  }

  lemma FoundInLonger<C, K>(candidates: seq<C>, key: C -> K, fingerprint: C -> string, findings: seq<Finding<C>>,
                            longer: seq<Finding<C>>, i: int, j: int)
    requires candidates != [] && IsEarliest(candidates, key, i, j) && i < j < |candidates| - 1
    requires IsEarliest(Front(candidates), key, i, j) ==> FoundAt(Front(candidates), key, fingerprint, findings, i, j)
    requires findings <= longer
    ensures FoundAt(candidates, key, fingerprint, longer, i, j)
  {
    assert IsEarliest(Front(candidates), key, i, j);
    CountOfFront(candidates, key, j);
  }

  // One finding for each candidate that repeats an earlier key, in order: identical or in conflict as its
  // fingerprint is or is not that of the earliest candidate of the key.
  lemma {:induction false} FindingsMean<C, K>(candidates: seq<C>, key: C -> K, fingerprint: C -> string)
    ensures |Findings(candidates, key, fingerprint)| == RepeatCount(candidates, key, |candidates|)
    ensures forall i, j :: IsEarliest(candidates, key, i, j) && i < j ==>
              FoundAt(candidates, key, fingerprint, Findings(candidates, key, fingerprint), i, j)
  {
    if candidates != [] {
      var front, n := Front(candidates), |candidates| - 1;
      FindingsMean(front, key, fingerprint);
      CountOfLast(candidates, key, fingerprint);
      forall i, j | IsEarliest(candidates, key, i, j) && i < j
        ensures FoundAt(candidates, key, fingerprint, Findings(candidates, key, fingerprint), i, j)
      {
        if j < n {
          FoundInLonger(candidates, key, fingerprint, Findings(front, key, fingerprint), Findings(candidates, key, fingerprint), i, j);
        } else {
          LastIsFound(candidates, key, fingerprint, i);
        }
      }
    }
  }

  lemma CountOfLast<C, K>(candidates: seq<C>, key: C -> K, fingerprint: C -> string)
    requires candidates != []
    requires |Findings(Front(candidates), key, fingerprint)| == RepeatCount(Front(candidates), key, |candidates| - 1)
    ensures |Findings(Front(candidates), key, fingerprint)| == RepeatCount(candidates, key, |candidates| - 1)
    ensures |Findings(candidates, key, fingerprint)| == RepeatCount(candidates, key, |candidates|)
  {
    var front, n := Front(candidates), |candidates| - 1;
    CountOfFront(candidates, key, n);
    FirstWithIsEarliest(front, key, key(Last(candidates)));
    assert forall m :: 0 <= m < n ==> candidates[m] == front[m];
    assert IsEarliest(candidates, key, n, n) <==> FirstWith(front, key, key(Last(candidates))).None?;
  }

  lemma LastIsFound<C, K>(candidates: seq<C>, key: C -> K, fingerprint: C -> string, i: int)
    requires candidates != [] && IsEarliest(candidates, key, i, |candidates| - 1) && i < |candidates| - 1
    requires |Findings(Front(candidates), key, fingerprint)| == RepeatCount(candidates, key, |candidates| - 1)
    ensures FoundAt(candidates, key, fingerprint, Findings(candidates, key, fingerprint), i, |candidates| - 1)
  {
    var front := Front(candidates);
    FirstWithIsEarliest(front, key, key(Last(candidates)));
    assert front[i] == candidates[i] && key(front[i]) == key(Last(candidates));
    var c := FirstWith(front, key, key(Last(candidates))).value;
    var e :| 0 <= e < |front| && front[e] == c && key(c) == key(Last(candidates))
      && forall m :: 0 <= m < e ==> key(front[m]) != key(Last(candidates));
    assert e == i by {
      assert candidates[e] == front[e];
      assert !(e < i) && !(i < e);
    }
  }

  // --------------------------------------------------------------------------------------------
  // The same batch again
  // --------------------------------------------------------------------------------------------

  function KeyOf(c: Candidate): NaturalKey {
    c.key
  }

  function FingerprintOf(c: Candidate): string {
    c.fingerprint
  }

  // The candidates validation lets through at the given retrieval time.
  function Admitted(items: seq<Item>, at: int): seq<Candidate> {
    if items == [] then []
    else Admitted(Front(items), at) + (if Admissible(Last(items), at) then [Last(items).candidate] else [])
  }

  lemma {:induction false} AdmittedAreAdmissible(items: seq<Item>, at: int)
    ensures forall c :: c in Admitted(items, at) <==>
              exists i :: 0 <= i < |items| && Admissible(items[i], at) && items[i].candidate == c
  {
    if items != [] {
      AdmittedAreAdmissible(Front(items), at);
      assert items == Front(items) + [Last(items)];
    }
  }

  // Too far ahead at the first retrieval, no longer so at the second.
  predicate NewlyDue(item: Item, first: int, second: int) {
    !Admissible(item, first) && Admissible(item, second)
  }

  // The store's current version of the candidate's observation is the candidate, known by that time.
  predicate Holds(store: Store, c: Candidate, at: int) {
    && c.key in store.observations
    && CurrentOf(store.observations[c.key]).Some?
    && CurrentOf(store.observations[c.key]).value.fingerprint == c.fingerprint
    && CurrentOf(store.observations[c.key]).value.validFrom <= at
  }

  predicate SameKey(items: seq<Item>, i: int, j: int, at: int) {
    && 0 <= i < |items| && 0 <= j < |items| && Admissible(items[i], at) && Admissible(items[j], at)
    && items[i].candidate.key == items[j].candidate.key
  }

  ghost predicate ItemsAgree(items: seq<Item>, at: int) {
    forall i, j :: SameKey(items, i, j, at) ==> items[i].candidate.fingerprint == items[j].candidate.fingerprint
  }

  // Every admissible one of the first n records is held.
  ghost predicate HoldsFirst(store: Store, items: seq<Item>, n: nat, at: int) {
    forall i :: 0 <= i < n && i < |items| && Admissible(items[i], at) ==> Holds(store, items[i].candidate, at)
  }

  // A persisted candidate is held, and so is every one it does not contradict.
  lemma PersistHolds(store: Store, c: Candidate, b: Batch, i: nat)
    requires Admissible(Mapped(c), b.at) && Persist(store, CallFor(c, b, i)).Ok?
    ensures var next := Persist(store, CallFor(c, b, i)).value.0;
            && Holds(next, c, b.at)
            && forall d: Candidate :: Holds(store, d, b.at) && (d.key == c.key ==> d.fingerprint == c.fingerprint) ==>
                 Holds(next, d, b.at)
  {
  }

  // A candidate reports "unchanged" exactly when it is held, and then nothing held changes.
  lemma UnchangedExactlyWhenHeld(store: Store, c: Candidate, b: Batch, i: nat)
    requires Admissible(Mapped(c), b.at)
    ensures var r := Persist(store, CallFor(c, b, i));
            && ((r.Ok? && r.value.1.outcome.Unchanged?) <==> Holds(store, c, b.at))
            && (Holds(store, c, b.at) ==> forall d: Candidate :: Holds(r.value.0, d, b.at) <==> Holds(store, d, b.at))
  {
  }

  // A record leaves what it does not contradict held, and is held itself once admitted.
  lemma RecordKeepsHeld(p: Progress, item: Item, b: Batch, i: nat, d: Candidate)
    requires ProcessRecord(p, item, b, i).Some?
    requires Holds(p.store, d, b.at) || item == Mapped(d)
    requires Admissible(item, b.at) && item.candidate.key == d.key ==> item.candidate.fingerprint == d.fingerprint
    requires item == Mapped(d) ==> Admissible(item, b.at)
    ensures Holds(ProcessRecord(p, item, b, i).value.store, d, b.at)
  {
    if Admissible(item, b.at) {
      PersistHolds(p.store, item.candidate, b, i);
    }
  }

  lemma {:induction false} FirstPassHolds(start: Progress, items: seq<Item>, n: nat, b: Batch)
    requires n <= |items| && IngestFirst(start, items, n, b).Ok?
    requires ItemsAgree(items, b.at)
    ensures HoldsFirst(IngestFirst(start, items, n, b).value.store, items, n, b.at)
  {
    if n > 0 {
      FirstPassHolds(start, items, n - 1, b);
      OneMoreHolds(IngestFirst(start, items, n - 1, b).value, items, n - 1, b);
    }
  }

  lemma OneMoreHolds(p: Progress, items: seq<Item>, n: nat, b: Batch)
    requires n < |items| && ItemsAgree(items, b.at) && HoldsFirst(p.store, items, n, b.at)
    requires ProcessRecord(p, items[n], b, n).Some?
    ensures HoldsFirst(ProcessRecord(p, items[n], b, n).value.store, items, n + 1, b.at)
  {
    var next := ProcessRecord(p, items[n], b, n).value;
    forall i | 0 <= i < n + 1 && Admissible(items[i], b.at) ensures Holds(next.store, items[i].candidate, b.at) {
      assert SameKey(items, n, i, b.at) ==> items[n].candidate.fingerprint == items[i].candidate.fingerprint;
      RecordKeepsHeld(p, items[n], b, n, items[i].candidate);
    }
  }

  // The batch goes through without inserting or revising anything.
  predicate Repeats(start: Progress, r: Result<Progress, Progress>) {
    && r.Ok?
    && r.value.counts.insertedCount == start.counts.insertedCount
    && r.value.counts.revisedCount == start.counts.revisedCount
  }

  lemma {:induction false} CountsGrow(start: Progress, items: seq<Item>, n: nat, b: Batch)
    requires n <= |items| && IngestFirst(start, items, n, b).Ok?
    ensures IngestFirst(start, items, n, b).value.counts.insertedCount >= start.counts.insertedCount
    ensures IngestFirst(start, items, n, b).value.counts.revisedCount >= start.counts.revisedCount
  {
    if n > 0 {
      CountsGrow(start, items, n - 1, b);
    }
  }

  predicate NoneBreaks(items: seq<Item>, n: nat) {
    forall i :: 0 <= i < n && i < |items| ==> !items[i].Breaks?
  }

  // Records repeat exactly when none raises and the store holds them all beforehand; it then holds what it
  // held.
  lemma {:induction false} RepeatsExactlyWhenHeld(start: Progress, items: seq<Item>, n: nat, b: Batch)
    requires n <= |items|
    ensures Repeats(start, IngestFirst(start, items, n, b)) <==>
            NoneBreaks(items, n) && HoldsFirst(start.store, items, n, b.at)
    ensures Repeats(start, IngestFirst(start, items, n, b)) ==>
              forall d: Candidate :: Holds(IngestFirst(start, items, n, b).value.store, d, b.at) <==> Holds(start.store, d, b.at)
  {
    if n > 0 {
      RepeatsExactlyWhenHeld(start, items, n - 1, b);
      var r := IngestFirst(start, items, n - 1, b);
      if r.Ok? {
        CountsGrow(start, items, n - 1, b);
        if Admissible(items[n - 1], b.at) {
          UnchangedExactlyWhenHeld(r.value.store, items[n - 1].candidate, b, n - 1);
        }
      }
    }
  }

  // No observation is dated beyond what a retrieval at that time may store.
  ghost predicate NothingBeyond(store: Store, at: int) {
    forall key :: key in store.observations ==> !TooFarAhead(key, at)
  }

  lemma {:induction false} IngestStoresNothingBeyond(start: Progress, items: seq<Item>, n: nat, b: Batch, at: int)
    requires n <= |items| && IngestFirst(start, items, n, b).Ok?
    requires NothingBeyond(start.store, at) && b.at <= at
    ensures NothingBeyond(IngestFirst(start, items, n, b).value.store, at)
  {
    if n > 0 {
      IngestStoresNothingBeyond(start, items, n - 1, b, at);
    }
  }

  predicate SameRow(before: Store, after: Store, key: NaturalKey) {
    && (key in before.observations <==> key in after.observations)
    && (key in before.observations ==> after.observations[key] == before.observations[key])
  }

  // A batch does not touch observations too far ahead of its retrieval.
  lemma {:induction false} IngestSparesFarKeys(start: Progress, items: seq<Item>, n: nat, b: Batch, key: NaturalKey)
    requires n <= |items| && IngestFirst(start, items, n, b).Ok? && TooFarAhead(key, b.at)
    ensures SameRow(start.store, IngestFirst(start, items, n, b).value.store, key)
  {
    if n > 0 {
      IngestSparesFarKeys(start, items, n - 1, b, key);
    }
  }

  // The store already holds every candidate that only the later retrieval admits.
  ghost predicate HoldsNewlyDue(store: Store, items: seq<Item>, first: int, second: int) {
    forall i :: 0 <= i < |items| && NewlyDue(items[i], first, second) ==> Holds(store, items[i].candidate, second)
  }

  lemma NewlyDueAreUntouched(store: Store, start: Progress, items: seq<Item>, first: Batch, second: int)
    requires start.store == store && IngestFirst(start, items, |items|, first).Ok? && first.at <= second
    ensures HoldsNewlyDue(IngestFirst(start, items, |items|, first).value.store, items, first.at, second) <==>
            HoldsNewlyDue(store, items, first.at, second)
  {
    StaysAdmissible(items, first.at, second);
    forall i | 0 <= i < |items| && NewlyDue(items[i], first.at, second)
      ensures SameRow(store, IngestFirst(start, items, |items|, first).value.store, items[i].candidate.key)
    {
      IngestSparesFarKeys(start, items, |items|, first, items[i].candidate.key);
    }
  }

  // What a store holds after the first pass, as far as the second asks.
  lemma HeldForSecondPass(store: Store, items: seq<Item>, first: int, second: int)
    requires first <= second
    ensures HoldsFirst(store, items, |items|, second) <==>
            HoldsAgain(store, items, first, second) && HoldsNewlyDue(store, items, first, second)
  {
    StaysAdmissible(items, first, second);
  }

  ghost predicate HoldsAgain(store: Store, items: seq<Item>, first: int, second: int) {
    forall i :: 0 <= i < |items| && Admissible(items[i], first) ==> Holds(store, items[i].candidate, second)
  }

  // After a first pass the store holds all it admitted exactly when no two of them contradict each other.
  lemma HeldMeansAgreement(begin: Progress, items: seq<Item>, first: Batch, second: int)
    requires IngestFirst(begin, items, |items|, first).Ok? && first.at <= second
    ensures HoldsAgain(IngestFirst(begin, items, |items|, first).value.store, items, first.at, second) <==>
            ItemsAgree(items, first.at)
  {
    if ItemsAgree(items, first.at) {
      FirstPassHolds(begin, items, |items|, first);
    }
  }

  // A batch that went through at one time goes through again later, adding nothing, exactly when its
  // admitted candidates hold no duplicate conflict and every candidate that was too far ahead the first
  // time only was already held before.
  lemma ReingestionRepeatsExactly(store: Store, quarantine: seq<QuarantineRow>, items: seq<Item>, first: Batch, second: Batch)
    requires first.at <= second.at && Ingest(store, quarantine, items, first).Ok?
    ensures var once := Ingest(store, quarantine, items, first).value;
            var start := StartOf(once.store, once.quarantine, items);
            Repeats(start, Ingest(once.store, once.quarantine, items, second)) <==>
              && NoConflict(Findings(Admitted(items, first.at), KeyOf, FingerprintOf))
              && HoldsNewlyDue(store, items, first.at, second.at)
  {
    var begin := StartOf(store, quarantine, items);
    var once := Ingest(store, quarantine, items, first).value;
    NoneBreak(begin, items, |items|, first);
    RepeatsExactlyWhenHeld(StartOf(once.store, once.quarantine, items), items, |items|, second);
    HeldForSecondPass(once.store, items, first.at, second.at);
    NewlyDueAreUntouched(store, begin, items, first, second.at);
    HeldMeansAgreement(begin, items, first, second.at);
    AgreementOfItems(items, first.at);
  }

  // A store that only ever took what validation admitted by then holds none of the latter.
  lemma NothingBeyondHoldsNone(store: Store, items: seq<Item>, first: int, second: int)
    requires NothingBeyond(store, first) && first <= second
    ensures HoldsNewlyDue(store, items, first, second) <==> !AnyNewlyDue(items, first, second)
  {
    StaysAdmissible(items, first, second);
  }

  lemma ReingestionOfAdmittedStore(store: Store, quarantine: seq<QuarantineRow>, items: seq<Item>, first: Batch, second: Batch)
    requires first.at <= second.at && NothingBeyond(store, first.at)
    requires Ingest(store, quarantine, items, first).Ok?
    ensures var once := Ingest(store, quarantine, items, first).value;
            var start := StartOf(once.store, once.quarantine, items);
            Repeats(start, Ingest(once.store, once.quarantine, items, second)) <==>
              NoConflict(Findings(Admitted(items, first.at), KeyOf, FingerprintOf)) && !AnyNewlyDue(items, first.at, second.at)
  {
    ReingestionRepeatsExactly(store, quarantine, items, first, second);
    NothingBeyondHoldsNone(store, items, first.at, second.at);
  }

  // A candidate dated two days ahead is quarantined; the same batch a day later inserts it.
  lemma FutureDatedIsInsertedLater(c: Candidate, quarantine: seq<QuarantineRow>)
    requires c.key.date == 5 && !c.flawed && c.value > 0.0
    ensures var items, first, second := [Mapped(c)], Batch(1, 0, 3 * MICROS_PER_DAY), Batch(2, 1, 4 * MICROS_PER_DAY);
            var once := Ingest(EMPTY_STORE, quarantine, items, first);
            && once.Ok? && once.value.store == EMPTY_STORE && once.value.counts.quarantinedCount == 1
            && NoConflict(Findings(Admitted(items, first.at), KeyOf, FingerprintOf))
            && Ingest(EMPTY_STORE, once.value.quarantine, items, second).Ok?
            && Ingest(EMPTY_STORE, once.value.quarantine, items, second).value.counts.insertedCount == 1
  {
    var items, first, second := [Mapped(c)], Batch(1, 0, 3 * MICROS_PER_DAY), Batch(2, 1, 4 * MICROS_PER_DAY);
    assert Front(items) == [];
    assert Admitted(items, first.at) == [];
    var start := StartOf(EMPTY_STORE, quarantine, items);
    assert IngestFirst(start, items, 0, first) == Ok(start);
    var once := Ingest(EMPTY_STORE, quarantine, items, first).value;
    var again := StartOf(EMPTY_STORE, once.quarantine, items);
    assert IngestFirst(again, items, 0, second) == Ok(again);
  }

  predicate AnyNewlyDue(items: seq<Item>, first: int, second: int) {
    exists i :: 0 <= i < |items| && NewlyDue(items[i], first, second)
  }

  lemma StaysAdmissible(items: seq<Item>, first: int, second: int)
    requires first <= second
    ensures forall i :: 0 <= i < |items| && Admissible(items[i], first) ==> Admissible(items[i], second)
    ensures forall i :: 0 <= i < |items| && NewlyDue(items[i], first, second) ==> TooFarAhead(items[i].candidate.key, first)
  {
  }

  lemma {:induction false} NoneBreak(start: Progress, items: seq<Item>, n: nat, b: Batch)
    requires n <= |items| && IngestFirst(start, items, n, b).Ok?
    ensures forall i :: 0 <= i < n ==> !items[i].Breaks?
  {
    if n > 0 {
      NoneBreak(start, items, n - 1, b);
    }
  }

  lemma AgreementOfItems(items: seq<Item>, at: int)
    ensures NoConflict(Findings(Admitted(items, at), KeyOf, FingerprintOf)) <==> ItemsAgree(items, at)
  {
    var cs := Admitted(items, at);
    NoConflictMeansKeysAgree(cs, KeyOf, FingerprintOf);
    AdmittedAreAdmissible(items, at);
    if KeysAgree(cs, KeyOf, FingerprintOf) {
      forall i, j | SameKey(items, i, j, at) ensures items[i].candidate.fingerprint == items[j].candidate.fingerprint {
        var c, d := items[i].candidate, items[j].candidate;
        assert c in cs && d in cs;
        var k, m :| 0 <= k < |cs| && 0 <= m < |cs| && cs[k] == c && cs[m] == d;
        assert KeyOf(cs[k]) == KeyOf(cs[m]);
      }
    }
    if ItemsAgree(items, at) {
      forall k, m | 0 <= k < |cs| && 0 <= m < |cs| && KeyOf(cs[k]) == KeyOf(cs[m])
        ensures FingerprintOf(cs[k]) == FingerprintOf(cs[m])
      {
        assert cs[k] in cs && cs[m] in cs;
        var i :| 0 <= i < |items| && Admissible(items[i], at) && items[i].candidate == cs[k];
        var j :| 0 <= j < |items| && Admissible(items[j], at) && items[j].candidate == cs[m];
        assert SameKey(items, i, j, at);
      }
    }
  }

  // Both stores have the same version rows and the same answer as of t.
  ghost predicate Alike(before: Store, after: Store, key: NaturalKey, t: int) {
    && WellFormedStore(after)
    && VersionIds(after) == VersionIds(before)
    && SameFacts(AsOf(after, key, t), AsOf(before, key, t))
  }

  lemma UnchangedLeavesAlike(store: Store, p: PersistCall, key: NaturalKey, t: int)
    requires WellFormedStore(store) && Persist(store, p).Ok? && Persist(store, p).value.1.outcome.Unchanged?
    ensures Alike(store, Persist(store, p).value.0, key, t)
  {
    StepKeepsTimelines(store, p);
    UnchangedIsInvisible(store, p, key, t);
    PersistAddsVersion(store, p);
    SameSizeSubset(VersionIds(store), VersionIds(Persist(store, p).value.0));
  }

  lemma RecordLeavesAlike(p: Progress, item: Item, b: Batch, i: nat, key: NaturalKey, t: int)
    requires WellFormedStore(p.store)
    requires ProcessRecord(p, item, b, i).Some?
    requires ProcessRecord(p, item, b, i).value.counts.insertedCount == p.counts.insertedCount
    requires ProcessRecord(p, item, b, i).value.counts.revisedCount == p.counts.revisedCount
    ensures var next := ProcessRecord(p, item, b, i).value;
            && Alike(p.store, next.store, key, t)
            && next.counts.unchangedCount == p.counts.unchangedCount + (if Admissible(item, b.at) then 1 else 0)
  {
    if Admissible(item, b.at) {
      UnchangedLeavesAlike(p.store, CallFor(item.candidate, b, i), key, t);
    }
  }

  // A batch that repeats leaves every version row and every as-of answer as they were, and reports each
  // admitted candidate as unchanged.
  lemma {:induction false} RepeatChangesNothing(start: Progress, items: seq<Item>, n: nat, b: Batch, key: NaturalKey, t: int)
    requires n <= |items| && WellFormedStore(start.store)
    requires Repeats(start, IngestFirst(start, items, n, b))
    ensures var after := IngestFirst(start, items, n, b).value;
            && Alike(start.store, after.store, key, t)
            && after.counts.unchangedCount == start.counts.unchangedCount + |Admitted(items[..n], b.at)|
  {
    if n > 0 {
      CountsGrow(start, items, n - 1, b);
      RepeatChangesNothing(start, items, n - 1, b, key, t);
      assert Front(items[..n]) == items[..n - 1];
      RecordLeavesAlike(IngestFirst(start, items, n - 1, b).value, items[n - 1], b, n - 1, key, t);
    }
  }

  lemma {:induction false} SameSizeSubset<T>(a: set<T>, b: set<T>)
    requires a <= b && |a| == |b|
    ensures a == b
  {
    assert b == a + (b - a);
    assert |b| == |a| + |b - a|;
  }
}
