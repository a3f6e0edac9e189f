/** The bitemporal observation store: `app/repositories/observations.py`.

    A version row belongs to one observation and is identified by its position in that
    observation's rows.  A persist call is one transaction: when it raises, nothing is kept. */
module Observations {
  import opened Common

  datatype ValidationState = Valid | ValidWithWarnings | Invalid

  // The columns `_apply` copies from `version_values` without looking at them.
  datatype Payload = Payload(
    value: real, publishedAt: Option<int>, state: ValidationState, runId: nat, rawRecordId: nat)

  datatype Version = Version(
    number: nat, fingerprint: string, firstObservedAt: int, lastObservedAt: int,
    validFrom: int, validTo: Option<int>, payload: Payload)

  datatype NaturalKey = NaturalKey(series: nat, date: int)

  datatype Observation = Observation(id: nat, currentVersion: Option<nat>, versions: seq<Version>)

  datatype LineageKey = LineageKey(key: NaturalKey, version: nat, runId: nat, rawRecordId: nat)

  datatype Store = Store(observations: map<NaturalKey, Observation>, lineage: map<LineageKey, int>)

  const EMPTY_STORE := Store(map[], map[])

  // One retrieved candidate for one observation.
  datatype Sighting = Sighting(fingerprint: string, at: int, payload: Payload)

  // `newId` is the identifier the database would give the observation row if it must be created;
  // `rawRecord` is what the raw-record lookup finds.
  datatype PersistCall = PersistCall(
    key: NaturalKey, newId: nat, fingerprint: string, at: int, value: real, publishedAt: Option<int>,
    state: ValidationState, runId: nat, rawRecord: Option<nat>)

  datatype Outcome = Inserted | Unchanged | Revised

  datatype Revision = Revision(outcome: Outcome, observationId: nat, versionNumber: nat)

  datatype PersistError = InvalidObservation | MissingRawRecord | OutOfOrder | ConflictingInstant

  // --------------------------------------------------------------------------------------------
  // The revision rule
  // --------------------------------------------------------------------------------------------

  // The row `current_version_id` points at; a dangling or null pointer finds nothing.
  function CurrentOf(o: Observation): Option<Version> {
    if o.currentVersion.Some? && o.currentVersion.value < |o.versions|
    then Some(o.versions[o.currentVersion.value])
    else None
  }

  function NewVersion(number: nat, s: Sighting): Version {
    Version(number, s.fingerprint, s.at, s.at, s.at, None, s.payload)
  }

  function Apply(o: Observation, s: Sighting): Result<(Observation, Outcome), PersistError> {
    match CurrentOf(o)
    case None =>
      Ok((o.(versions := o.versions + [NewVersion(1, s)], currentVersion := Some(|o.versions|)), Inserted))
    case Some(c) =>
      var at := o.currentVersion.value;
      if s.at < c.validFrom then Err(OutOfOrder)
      else if c.fingerprint == s.fingerprint then
        var seen := c.(lastObservedAt := Max(c.lastObservedAt, s.at));
        Ok((o.(versions := o.versions[at := seen]), Unchanged))
      else if s.at == c.validFrom then Err(ConflictingInstant)
      else
        var closed := o.versions[at := c.(validTo := Some(s.at))];
        Ok((o.(versions := closed + [NewVersion(c.number + 1, s)], currentVersion := Some(|o.versions|)), Revised))
  }

  function SightingOf(p: PersistCall): Sighting
    requires p.rawRecord.Some?
  {
    Sighting(p.fingerprint, p.at, Payload(p.value, p.publishedAt, p.state, p.runId, p.rawRecord.value))
  }

  // `lock_or_create`: the row of the natural key, created empty when absent.
  function RowFor(store: Store, p: PersistCall): Observation {
    if p.key in store.observations then store.observations[p.key] else Observation(p.newId, None, [])
  }

  // One run and raw record sight a version once; a repeated sighting keeps the later time.
  function WithLineage(lineage: map<LineageKey, int>, key: LineageKey, at: int): map<LineageKey, int> {
    lineage[key := if key in lineage then Max(lineage[key], at) else at]
  }

  function Persist(store: Store, p: PersistCall): Result<(Store, Revision), PersistError> {
    if p.state.Invalid? then Err(InvalidObservation)
    else if p.rawRecord.None? then Err(MissingRawRecord)
    else
      match Apply(RowFor(store, p), SightingOf(p))
      case Err(e) => Err(e)
      case Ok((row, outcome)) =>
        var number := if CurrentOf(row).Some? then CurrentOf(row).value.number else 0;
        var line := LineageKey(p.key, number, p.runId, p.rawRecord.value);
        Ok((Store(store.observations[p.key := row], WithLineage(store.lineage, line, p.at)),
            Revision(outcome, row.id, number)))
  }

  // The store after one transaction: a call that raises is rolled back.
  function Step(store: Store, p: PersistCall): Store {
    match Persist(store, p)
    case Ok((next, _)) => next
    case Err(_) => store
  }

  function Run(store: Store, calls: seq<PersistCall>): Store
    decreases |calls|
  {
    if calls == [] then store else Run(Step(store, calls[0]), calls[1..])
  }

  // --------------------------------------------------------------------------------------------
  // The service object, whose methods update the tables in place
  // --------------------------------------------------------------------------------------------

  class RevisionService {
    var observations: map<NaturalKey, Observation>
    var lineage: map<LineageKey, int>

    ghost function Contents(): Store
      reads this
    {
      Store(observations, lineage)
    }

    constructor ()
      ensures Contents() == EMPTY_STORE
    {
      observations, lineage := map[], map[];
    }

    // INSERT .. ON CONFLICT DO NOTHING, then SELECT .. FOR UPDATE.
    method LockOrCreate(key: NaturalKey, newId: nat) returns (row: Observation)
      modifies this`observations
      ensures key in observations && row == observations[key]
      ensures key in old(observations) ==> observations == old(observations)
      ensures key !in old(observations) ==>
                observations == old(observations)[key := Observation(newId, None, [])]
    {
      if key !in observations {
        observations := observations[key := Observation(newId, None, [])];
      }
      row := observations[key];
    }

    // `_apply` on a locked row: the current version is stamped or closed where it stands.
    method ApplyRevision(key: NaturalKey, s: Sighting) returns (r: Result<Revision, PersistError>)
      requires key in observations
      modifies this`observations
      ensures var before := old(observations)[key];
              match Apply(before, s)
              case Err(e) => r == Err(e) && observations == old(observations)
              case Ok((row, outcome)) =>
                && observations == old(observations)[key := row]
                && CurrentOf(row).Some?
                && r == Ok(Revision(outcome, before.id, CurrentOf(row).value.number))
    {
      var row := observations[key];
      if row.currentVersion.Some? && row.currentVersion.value < |row.versions| {
        var position := row.currentVersion.value;
        var current := row.versions[position];
        if s.at < current.validFrom {
          return Err(OutOfOrder);
        }
        if current.fingerprint == s.fingerprint {
          current := current.(lastObservedAt := Max(current.lastObservedAt, s.at));
          observations := observations[key := row.(versions := row.versions[position := current])];
          return Ok(Revision(Unchanged, row.id, current.number));
        }
        if s.at == current.validFrom {
          return Err(ConflictingInstant);
        }
        row := row.(versions := row.versions[position := current.(validTo := Some(s.at))]);
        var version := NewVersion(current.number + 1, s);
        row := row.(versions := row.versions + [version]);
        row := row.(currentVersion := Some(|row.versions| - 1));
        observations := observations[key := row];
        return Ok(Revision(Revised, row.id, version.number));
      }
      var first := NewVersion(1, s);
      row := row.(versions := row.versions + [first]);
      row := row.(currentVersion := Some(|row.versions| - 1));
      observations := observations[key := row];
      r := Ok(Revision(Inserted, row.id, first.number));
    }

    method RecordLineage(key: LineageKey, at: int)
      modifies this`lineage
      ensures lineage == WithLineage(old(lineage), key, at)
    {
      if key in lineage {
        lineage := lineage[key := Max(lineage[key], at)];
      } else {
        lineage := lineage[key := at];
      }
    }

    // `persist_fx` and `persist_policy_rate` inside one caller-owned transaction.
    method PersistCandidate(p: PersistCall) returns (r: Result<Revision, PersistError>)
      modifies this
      ensures match Persist(old(Contents()), p)
              case Err(e) => r == Err(e) && Contents() == old(Contents())
              case Ok((next, revision)) => r == Ok(revision) && Contents() == next
    {
      if p.state.Invalid? {
        return Err(InvalidObservation);
      }
      var saved := observations;
      var row := LockOrCreate(p.key, p.newId);
      if p.rawRecord.None? {
        observations := saved;
        return Err(MissingRawRecord);
      }
      r := ApplyRevision(p.key, SightingOf(p));
      if r.Err? {
        observations := saved;
        return;
      }
      assert observations == saved[p.key := observations[p.key]];
      RecordLineage(LineageKey(p.key, r.value.versionNumber, p.runId, p.rawRecord.value), p.at);
    }
  }

  // --------------------------------------------------------------------------------------------
  // The timeline every reachable store keeps
  // --------------------------------------------------------------------------------------------

  // Rows numbered 1..n, half-open knowledge intervals that abut, exactly the last one open and
  // current, neighbours that differ, and no invalid row: what the table constraints declare and more.
  ghost predicate WellFormed(o: Observation) {
    && (o.currentVersion == if o.versions == [] then None else Some(|o.versions| - 1))
    && (forall i :: 0 <= i < |o.versions| ==> o.versions[i].number == i + 1)
    && (forall i :: 0 <= i < |o.versions| ==>
          o.versions[i].firstObservedAt == o.versions[i].validFrom <= o.versions[i].lastObservedAt)
    && (forall i :: 0 <= i < |o.versions| ==> !o.versions[i].payload.state.Invalid?)
    && (forall i, j :: 0 <= i < j < |o.versions| ==> o.versions[i].validFrom < o.versions[j].validFrom)
    && (forall i, j :: 0 <= i && j == i + 1 && j < |o.versions| ==>
          o.versions[i].validTo == Some(o.versions[j].validFrom)
          && o.versions[i].fingerprint != o.versions[j].fingerprint)
    && (o.versions != [] ==> o.versions[|o.versions| - 1].validTo.None?)
  }

  ghost predicate WellFormedStore(store: Store) {
    forall key :: key in store.observations ==>
      WellFormed(store.observations[key]) && store.observations[key].versions != []
  }

  lemma EarlierIsClosed(o: Observation, i: nat, j: nat)
    requires WellFormed(o) && i < j < |o.versions|
    ensures o.versions[i].validTo.Some?
    ensures o.versions[i].validFrom < o.versions[i].validTo.value <= o.versions[j].validFrom
  {
    assert o.versions[i].validTo == Some(o.versions[i + 1].validFrom);
  }

  function LastOf(o: Observation): Version
    requires o.versions != []
  {
    o.versions[|o.versions| - 1]
  }

  function Stamped(o: Observation, at: int): Observation
    requires o.versions != []
  {
    o.(versions := o.versions[|o.versions| - 1 := LastOf(o).(lastObservedAt := Max(LastOf(o).lastObservedAt, at))])
  }

  function Opened(o: Observation, s: Sighting): Observation
    requires o.versions == []
  {
    o.(versions := [NewVersion(1, s)], currentVersion := Some(0))
  }

  function Closed(o: Observation, s: Sighting): Observation
    requires o.versions != []
  {
    var closed := o.versions[|o.versions| - 1 := LastOf(o).(validTo := Some(s.at))];
    o.(versions := closed + [NewVersion(LastOf(o).number + 1, s)], currentVersion := Some(|o.versions|))
  }

  lemma StampKeepsTimeline(o: Observation, at: int)
    requires WellFormed(o) && o.versions != []
    ensures WellFormed(Stamped(o, at))
  {
  }

  lemma OpeningIsTimeline(o: Observation, s: Sighting)
    requires o.versions == [] && !s.payload.state.Invalid?
    ensures WellFormed(Opened(o, s))
  {
  }

  lemma RevisionKeepsTimeline(o: Observation, s: Sighting)
    requires WellFormed(o) && o.versions != [] && !s.payload.state.Invalid?
    requires LastOf(o).validFrom < s.at && LastOf(o).fingerprint != s.fingerprint
    ensures WellFormed(Closed(o, s))
  {
  }

  predicate PointsAtLast(o: Observation) {
    o.currentVersion == if o.versions == [] then None else Some(|o.versions| - 1)
  }

  // On a row that points at its last version, revising is one of the three.
  lemma ApplyCases(o: Observation, s: Sighting)
    requires PointsAtLast(o) && Apply(o, s).Ok?
    ensures Apply(o, s).value.0 ==
            if o.versions == [] then Opened(o, s)
            else if LastOf(o).fingerprint == s.fingerprint then Stamped(o, s.at)
            else Closed(o, s)
    ensures o.versions != [] && LastOf(o).fingerprint != s.fingerprint ==> LastOf(o).validFrom < s.at
  {
    assert o.versions == [] ==> o.versions + [NewVersion(1, s)] == [NewVersion(1, s)];
  }

  lemma ApplyKeepsTimeline(o: Observation, s: Sighting)
    requires WellFormed(o) && !s.payload.state.Invalid?
    ensures Apply(o, s).Ok? ==> WellFormed(Apply(o, s).value.0) && Apply(o, s).value.0.versions != []
  {
    if Apply(o, s).Ok? {
      ApplyCases(o, s);
      if o.versions == [] {
        OpeningIsTimeline(o, s);
      } else if LastOf(o).fingerprint == s.fingerprint {
        StampKeepsTimeline(o, s.at);
      } else {
        RevisionKeepsTimeline(o, s);
      }
    }
  }

  // A persist that goes through rewrites one row, by the revision rule.
  lemma StepRewritesRow(store: Store, p: PersistCall)
    requires Persist(store, p).Ok?
    ensures p.rawRecord.Some? && !p.state.Invalid? && Apply(RowFor(store, p), SightingOf(p)).Ok?
    ensures Step(store, p).observations == store.observations[p.key := Apply(RowFor(store, p), SightingOf(p)).value.0]
  {
  }

  lemma RowUpdateKeepsTimelines(store: Store, next: Store, key: NaturalKey, row: Observation)
    requires WellFormedStore(store) && next.observations == store.observations[key := row]
    requires WellFormed(row) && row.versions != []
    ensures WellFormedStore(next)
  {
  }

  lemma StepKeepsTimelines(store: Store, p: PersistCall)
    requires WellFormedStore(store)
    ensures WellFormedStore(Step(store, p))
  {
    if Persist(store, p).Ok? {
      StepRewritesRow(store, p);
      ApplyKeepsTimeline(RowFor(store, p), SightingOf(p));
      RowUpdateKeepsTimelines(store, Step(store, p), p.key, Apply(RowFor(store, p), SightingOf(p)).value.0);
    }
  }

  lemma {:induction false} RunKeepsTimelines(store: Store, calls: seq<PersistCall>)
    requires WellFormedStore(store)
    ensures WellFormedStore(Run(store, calls))
    decreases |calls|
  {
    if calls != [] {
      StepKeepsTimelines(store, calls[0]);
      RunKeepsTimelines(Step(store, calls[0]), calls[1..]);
    }
  }

  // The unique, partial-unique and check constraints declared on the version tables; the FX table alone
  // asks for a positive value.  Quote type, unit, frequency, rate type and validation state range over
  // enumerations that hold nothing else.
  ghost predicate DeclaredConstraints(fx: bool, o: Observation) {
    var vs := o.versions;
    && (forall i, j :: 0 <= i < j < |vs| ==> vs[i].number != vs[j].number)
    && (forall i, j :: 0 <= i < j < |vs| ==>
          (vs[i].fingerprint, vs[i].validFrom) != (vs[j].fingerprint, vs[j].validFrom))
    && (forall i, j :: 0 <= i < j < |vs| ==> !(vs[i].validTo.None? && vs[j].validTo.None?))
    && (forall i :: 0 <= i < |vs| ==>
          && vs[i].number > 0
          && vs[i].firstObservedAt <= vs[i].lastObservedAt
          && (vs[i].validTo.Some? ==> vs[i].validFrom < vs[i].validTo.value)
          && FitsColumns(fx, vs[i].fingerprint, vs[i].payload.value))
    && (o.currentVersion.Some? ==> o.currentVersion.value < |vs|)
  }

  const DIGEST_LENGTH := 64

  predicate FitsColumns(fx: bool, fingerprint: string, value: real) {
    |fingerprint| == DIGEST_LENGTH && (fx ==> value > 0.0)
  }

  // What callers hand over: a SHA-256 fingerprint and, for FX, a value validation found positive.
  predicate Storable(fx: bool, p: PersistCall) {
    FitsColumns(fx, p.fingerprint, p.value)
  }

  ghost predicate RowsFit(fx: bool, store: Store) {
    forall key, i :: key in store.observations && 0 <= i < |store.observations[key].versions| ==>
      var v := store.observations[key].versions[i]; FitsColumns(fx, v.fingerprint, v.payload.value)
  }

  lemma ApplyKeepsFit(fx: bool, o: Observation, s: Sighting)
    requires forall i :: 0 <= i < |o.versions| ==> FitsColumns(fx, o.versions[i].fingerprint, o.versions[i].payload.value)
    requires FitsColumns(fx, s.fingerprint, s.payload.value) && Apply(o, s).Ok?
    ensures var vs := Apply(o, s).value.0.versions;
            forall i :: 0 <= i < |vs| ==> FitsColumns(fx, vs[i].fingerprint, vs[i].payload.value)
  {
  }

  lemma {:induction false} RunKeepsFit(fx: bool, store: Store, calls: seq<PersistCall>)
    requires RowsFit(fx, store) && forall p :: p in calls ==> Storable(fx, p)
    ensures RowsFit(fx, Run(store, calls))
    decreases |calls|
  {
    if calls != [] {
      var p := calls[0];
      assert Storable(fx, p);
      if Persist(store, p).Ok? {
        ApplyKeepsFit(fx, RowFor(store, p), SightingOf(p));
      }
      RunKeepsFit(fx, Step(store, p), calls[1..]);
    }
  }

  lemma OwnIntervals(o: Observation)
    requires WellFormed(o)
    ensures forall i :: 0 <= i < |o.versions| && o.versions[i].validTo.Some? ==>
              o.versions[i].validFrom < o.versions[i].validTo.value
    ensures forall i :: 0 <= i < |o.versions| - 1 ==> o.versions[i].validTo.Some?
  {
    forall i | 0 <= i < |o.versions| - 1
      ensures o.versions[i].validTo.Some? && o.versions[i].validFrom < o.versions[i].validTo.value
    {
      EarlierIsClosed(o, i, |o.versions| - 1);
    }
  }

  // No sequence of persists of storable candidates, in any order of retrieval times, ever violates one of
  // these constraints.
  lemma RunMeetsDeclaredConstraints(fx: bool, calls: seq<PersistCall>, key: NaturalKey)
    requires forall p :: p in calls ==> Storable(fx, p)
    requires key in Run(EMPTY_STORE, calls).observations
    ensures DeclaredConstraints(fx, Run(EMPTY_STORE, calls).observations[key])
  {
    RunKeepsTimelines(EMPTY_STORE, calls);
    RunKeepsFit(fx, EMPTY_STORE, calls);
    OwnIntervals(Run(EMPTY_STORE, calls).observations[key]);
  }
}
