/** Which run and raw record saw a version, and when last: what `_lineage` of
    `app/repositories/observations.py` amounts to over whole runs. */
module Lineage {
  import opened Common
  import opened Observations

  // One accepted sighting, under the version it was recorded for.
  datatype Sighted = Sighted(line: LineageKey, at: int)

  // The accepted sightings of a run, in processing order.
  function Sightings(store: Store, calls: seq<PersistCall>): seq<Sighted>
    decreases |calls|
  {
    if calls == [] then []
    else
      var p := calls[0];
      var rest := Sightings(Step(store, p), calls[1..]);
      match Persist(store, p)
      case Err(_) => rest
      case Ok((_, revision)) =>
        [Sighted(LineageKey(p.key, revision.versionNumber, p.runId, p.rawRecord.value), p.at)] + rest
  }

  // Each line of the table belongs to some sighting and keeps the latest time of all of its own.
  ghost predicate Records(lineage: map<LineageKey, int>, seen: seq<Sighted>) {
    && (forall x :: x in seen ==> x.line in lineage && x.at <= lineage[x.line])
    && (forall line :: line in lineage ==> Sighted(line, lineage[line]) in seen)
  }

  lemma OneMoreSighting(lineage: map<LineageKey, int>, seen: seq<Sighted>, line: LineageKey, at: int)
    requires Records(lineage, seen)
    ensures Records(WithLineage(lineage, line, at), seen + [Sighted(line, at)])
  {
    var after, all := WithLineage(lineage, line, at), seen + [Sighted(line, at)];
    forall l | l in after ensures Sighted(l, after[l]) in all {
      assert l in lineage ==> Sighted(l, lineage[l]) in seen;
      assert all[|seen|] == Sighted(line, at);
    }
  }

  lemma {:induction false} RunRecords(store: Store, calls: seq<PersistCall>, past: seq<Sighted>)
    requires Records(store.lineage, past)
    ensures Records(Run(store, calls).lineage, past + Sightings(store, calls))
    decreases |calls|
  {
    if calls == [] {
      assert past + [] == past;
    } else {
      var p := calls[0];
      var rest := Sightings(Step(store, p), calls[1..]);
      match Persist(store, p)
      case Err(_) => RunRecords(store, calls[1..], past);
      case Ok((next, revision)) =>
        var line := LineageKey(p.key, revision.versionNumber, p.runId, p.rawRecord.value);
        OneMoreSighting(store.lineage, past, line, p.at);
        RunRecords(next, calls[1..], past + [Sighted(line, p.at)]);
        assert past + [Sighted(line, p.at)] + rest == past + ([Sighted(line, p.at)] + rest);
    }
  }

  // After any calls, the table has a line for exactly the sighted versions, runs and raw records, and each
  // shows the latest retrieval time of its accepted sightings.
  lemma LineageIsLatestSighting(calls: seq<PersistCall>, line: LineageKey)
    ensures var lineage, seen := Run(EMPTY_STORE, calls).lineage, Sightings(EMPTY_STORE, calls);
            && (line in lineage <==> exists x :: x in seen && x.line == line)
            && (line in lineage ==>
                  Sighted(line, lineage[line]) in seen && forall x :: x in seen && x.line == line ==> x.at <= lineage[line])
  {
    RunRecords(EMPTY_STORE, calls, []);
    assert [] + Sightings(EMPTY_STORE, calls) == Sightings(EMPTY_STORE, calls);
  }

  // --------------------------------------------------------------------------------------------
  // Lines and versions
  // --------------------------------------------------------------------------------------------

  // A line of that version shows the version's own last time.
  predicate Attains(store: Store, line: LineageKey, key: NaturalKey, i: nat)
    requires key in store.observations && i < |store.observations[key].versions|
  {
    && line in store.lineage && line.key == key && line.version == i + 1
    && store.lineage[line] == store.observations[key].versions[i].lastObservedAt
  }

  ghost predicate Attained(store: Store, key: NaturalKey, i: nat)
    requires key in store.observations && i < |store.observations[key].versions|
  {
    exists line :: Attains(store, line, key, i)
  }

  // The line names a stored version and is no later than that version was last seen.
  predicate LineFits(store: Store, line: LineageKey) {
    && line in store.lineage && line.key in store.observations
    && 1 <= line.version <= |store.observations[line.key].versions|
    && store.lineage[line] <= store.observations[line.key].versions[line.version - 1].lastObservedAt
  }

  ghost predicate LinesFit(store: Store) {
    && (forall line :: line in store.lineage ==> LineFits(store, line))
    && (forall key, i: nat :: key in store.observations && i < |store.observations[key].versions| ==> Attained(store, key, i))
  }

  predicate SameTimes(before: seq<Version>, after: seq<Version>, n: nat) {
    n <= |before| && n <= |after| && forall i :: 0 <= i < n ==> after[i].lastObservedAt == before[i].lastObservedAt
  }

  // What a sighting does to its row: the sighted version is the last, every earlier one keeps its times.
  predicate Sights(before: Observation, after: Observation, number: nat, at: int) {
    && number == |after.versions| >= 1 && |before.versions| <= number <= |before.versions| + 1
    && SameTimes(before.versions, after.versions, number - 1)
    && LastOf(after).lastObservedAt ==
       if number > |before.versions| then at else Max(LastOf(before).lastObservedAt, at)
  }

  lemma ApplySights(o: Observation, s: Sighting)
    requires WellFormed(o) && Apply(o, s).Ok?
    ensures var after := Apply(o, s).value.0;
            CurrentOf(after).Some? && Sights(o, after, CurrentOf(after).value.number, s.at)
  {
  }

  lemma SightedIsLast(store: Store, p: PersistCall)
    requires WellFormedStore(store) && Persist(store, p).Ok?
    ensures var (next, revision) := Persist(store, p).value;
            && next.observations == store.observations[p.key := next.observations[p.key]]
            && Sights(RowFor(store, p), next.observations[p.key], revision.versionNumber, p.at)
  {
    ApplySights(RowFor(store, p), SightingOf(p));
  }

  // A step on the tables as the theorems below need it.
  ghost predicate SightingStep(store: Store, next: Store, line: LineageKey, before: Observation, at: int) {
    && line.key in next.observations
    && before == (if line.key in store.observations then store.observations[line.key] else before)
    && (line.key !in store.observations ==> before.versions == [])
    && next.observations == store.observations[line.key := next.observations[line.key]]
    && next.lineage == WithLineage(store.lineage, line, at)
    && Sights(before, next.observations[line.key], line.version, at)
  }

  lemma PersistIsSightingStep(store: Store, p: PersistCall)
    requires WellFormedStore(store) && Persist(store, p).Ok?
    ensures var (next, revision) := Persist(store, p).value;
            var line := LineageKey(p.key, revision.versionNumber, p.runId, p.rawRecord.value);
            SightingStep(store, next, line, RowFor(store, p), p.at)
  {
    SightedIsLast(store, p);
  }

  lemma StepKeepsFits(store: Store, next: Store, sighted: LineageKey, before: Observation, at: int, line: LineageKey)
    requires LinesFit(store) && SightingStep(store, next, sighted, before, at) && line in next.lineage
    ensures LineFits(next, line)
  {
    assert line in store.lineage ==> LineFits(store, line);
  }

  lemma StepKeepsAttained(store: Store, next: Store, sighted: LineageKey, before: Observation, at: int,
                          key: NaturalKey, i: nat)
    requires LinesFit(store) && SightingStep(store, next, sighted, before, at)
    requires key in next.observations && i < |next.observations[key].versions|
    ensures Attained(next, key, i)
  {
    if key == sighted.key && i == sighted.version - 1 && next.observations[key].versions[i].lastObservedAt == at {
      assert sighted in store.lineage ==> LineFits(store, sighted);
      assert Attains(next, sighted, key, i);
    } else {
      assert Attained(store, key, i);
      var line :| Attains(store, line, key, i);
      assert Attains(next, line, key, i);
    }
  }

  lemma {:induction false} RunKeepsLines(store: Store, calls: seq<PersistCall>)
    requires WellFormedStore(store) && LinesFit(store)
    ensures LinesFit(Run(store, calls))
    decreases |calls|
  {
    if calls != [] {
      var p := calls[0];
      StepKeepsTimelines(store, p);
      StepKeepsLines(store, p);
      RunKeepsLines(Step(store, p), calls[1..]);
    }
  }

  lemma StepKeepsLines(store: Store, p: PersistCall)
    requires WellFormedStore(store) && LinesFit(store)
    ensures LinesFit(Step(store, p))
  {
    if Persist(store, p).Ok? {
      PersistIsSightingStep(store, p);
      var (next, revision) := Persist(store, p).value;
      var sighted := LineageKey(p.key, revision.versionNumber, p.runId, p.rawRecord.value);
      SightingStepKeepsLines(store, next, sighted, RowFor(store, p), p.at);
    }
  }

  lemma SightingStepKeepsLines(store: Store, next: Store, sighted: LineageKey, before: Observation, at: int)
    requires LinesFit(store) && SightingStep(store, next, sighted, before, at)
    ensures LinesFit(next)
  {
    forall line | line in next.lineage ensures LineFits(next, line) {
      StepKeepsFits(store, next, sighted, before, at, line);
    }
    forall key, i: nat | key in next.observations && i < |next.observations[key].versions| ensures Attained(next, key, i) {
      StepKeepsAttained(store, next, sighted, before, at, key, i);
    }
  }

  // After any calls, every line names a stored version, and each version was last seen at the latest time
  // its lines show.
  lemma LastObservedIsLatestLine(calls: seq<PersistCall>)
    ensures LinesFit(Run(EMPTY_STORE, calls))
  {
    RunKeepsLines(EMPTY_STORE, calls);
  }
}
