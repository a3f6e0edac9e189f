/** As-of reads of the observation store, and the naive event log they refine. */
module AsOfReads {
  import opened Common
  import opened Observations

  // --------------------------------------------------------------------------------------------
  // The reads
  // --------------------------------------------------------------------------------------------

  predicate VisibleAt(v: Version, t: int) {
    v.validFrom <= t && (v.validTo.None? || t < v.validTo.value)
  }

  // The first row the interval filter lets through.
  function FirstVisible(versions: seq<Version>, t: int): Option<Version> {
    if versions == [] then None
    else if VisibleAt(versions[0], t) then Some(versions[0])
    else FirstVisible(versions[1..], t)
  }

  function AsOf(store: Store, key: NaturalKey, t: int): Option<Version> {
    if key in store.observations && key.date <= DateOf(t)
    then FirstVisible(store.observations[key].versions, t)
    else None
  }

  function Current(store: Store, key: NaturalKey): Option<Version> {
    if key in store.observations then CurrentOf(store.observations[key]) else None
  }

  // The columns of a version row that no later persist rewrites.
  datatype Facts = Facts(number: nat, fingerprint: string, firstObservedAt: int, validFrom: int, payload: Payload)

  function FactsOf(v: Version): Facts {
    Facts(v.number, v.fingerprint, v.firstObservedAt, v.validFrom, v.payload)
  }

  predicate SameFacts(a: Option<Version>, b: Option<Version>) {
    match (a, b)
    case (None, None) => true
    case (Some(v), Some(w)) => FactsOf(v) == FactsOf(w)
    case _ => false
  }

  // --------------------------------------------------------------------------------------------
  // The naive log: per observation, the accepted sightings in processing order
  // --------------------------------------------------------------------------------------------

  function Last<T>(s: seq<T>): T
    requires s != []
  {
    s[|s| - 1]
  }

  function Front<T>(s: seq<T>): seq<T>
    requires s != []
  {
    s[..|s| - 1]
  }

  // The sighting that opened the last block of equal fingerprints.
  function BlockHead(log: seq<Sighting>): Sighting
    requires log != []
  {
    if |log| > 1 && Last(Front(log)).fingerprint == Last(log).fingerprint
    then BlockHead(Front(log))
    else Last(log)
  }

  // The latest retrieval time within the last block of equal fingerprints.
  function BlockEnd(log: seq<Sighting>): int
    requires log != []
  {
    if |log| > 1 && Last(Front(log)).fingerprint == Last(log).fingerprint
    then Max(BlockEnd(Front(log)), Last(log).at)
    else Last(log).at
  }

  // A sighting may repeat or follow the last block, never precede it or contradict its first instant.
  predicate Accepts(log: seq<Sighting>, s: Sighting) {
    || log == []
    || BlockHead(log).at < s.at
    || (BlockHead(log).at == s.at && Last(log).fingerprint == s.fingerprint)
  }

  // What an accepted sighting of this fingerprint does to the log's latest block.
  function Effect(log: seq<Sighting>, fingerprint: string): Outcome {
    if log == [] then Inserted
    else if Last(log).fingerprint == fingerprint then Unchanged
    else Revised
  }

  // What the log knew at t: everything up to the last-processed sighting retrieved by then.
  function Known(log: seq<Sighting>, t: int): seq<Sighting> {
    if log == [] then []
    else if Last(log).at <= t then log
    else Known(Front(log), t)
  }

  type Logs = map<NaturalKey, seq<Sighting>>

  function LogOf(logs: Logs, key: NaturalKey): seq<Sighting> {
    if key in logs then logs[key] else []
  }

  predicate Recordable(logs: Logs, p: PersistCall) {
    !p.state.Invalid? && p.rawRecord.Some? && Accepts(LogOf(logs, p.key), SightingOf(p))
  }

  function Record(logs: Logs, p: PersistCall): Logs {
    if Recordable(logs, p) then logs[p.key := LogOf(logs, p.key) + [SightingOf(p)]] else logs
  }

  function RecordAll(logs: Logs, calls: seq<PersistCall>): Logs
    decreases |calls|
  {
    if calls == [] then logs else RecordAll(Record(logs, calls[0]), calls[1..])
  }

  // --------------------------------------------------------------------------------------------
  // Interval lookups
  // --------------------------------------------------------------------------------------------

  lemma {:induction false} FirstVisibleFinds(versions: seq<Version>, t: int)
    ensures match FirstVisible(versions, t)
            case None => forall i :: 0 <= i < |versions| ==> !VisibleAt(versions[i], t)
            case Some(v) => exists i :: 0 <= i < |versions| && versions[i] == v && VisibleAt(v, t)
  {
    if versions != [] && !VisibleAt(versions[0], t) {
      FirstVisibleFinds(versions[1..], t);
      match FirstVisible(versions[1..], t)
      case None =>
        forall i | 0 <= i < |versions| ensures !VisibleAt(versions[i], t) {
          if i > 0 { assert versions[i] == versions[1..][i - 1]; }
        }
      case Some(v) =>
        var j :| 0 <= j < |versions| - 1 && versions[1..][j] == v && VisibleAt(v, t);
        assert versions[j + 1] == v;
    }
  }

  // At no instant are two versions of an observation visible together.
  lemma VisibleIsUnique(o: Observation, t: int, i: nat, j: nat)
    requires WellFormed(o) && i < |o.versions| && j < |o.versions|
    requires VisibleAt(o.versions[i], t) && VisibleAt(o.versions[j], t)
    ensures i == j
  {
    if i < j {
      EarlierIsClosed(o, i, j);
    } else if j < i {
      EarlierIsClosed(o, j, i);
    }
  }

  lemma VisibleIsFound(o: Observation, t: int, i: nat)
    requires WellFormed(o) && i < |o.versions| && VisibleAt(o.versions[i], t)
    ensures FirstVisible(o.versions, t) == Some(o.versions[i])
  {
    FirstVisibleFinds(o.versions, t);
    var v := FirstVisible(o.versions, t).value;
    var j :| 0 <= j < |o.versions| && o.versions[j] == v && VisibleAt(v, t);
    VisibleIsUnique(o, t, i, j);
  }

  // A rewritten table answers as before when it shows the same rows at t.
  lemma {:induction false} SameRowsSameAnswer(before: seq<Version>, after: seq<Version>, t: int)
    requires |before| <= |after|
    requires forall i :: 0 <= i < |before| ==>
               FactsOf(after[i]) == FactsOf(before[i]) && (VisibleAt(after[i], t) <==> VisibleAt(before[i], t))
    requires forall i :: |before| <= i < |after| ==> !VisibleAt(after[i], t)
    ensures SameFacts(FirstVisible(after, t), FirstVisible(before, t))
  {
    if after == [] {
    } else if before == [] {
      FirstVisibleFinds(after, t);
    } else if !VisibleAt(before[0], t) {
      SameRowsSameAnswer(before[1..], after[1..], t);
    }
  }

  // The first row with an open interval, which is what a history without an instant selects.
  function FirstOpen(versions: seq<Version>): Option<Version> {
    if versions == [] then None
    else if versions[0].validTo.None? then Some(versions[0])
    else FirstOpen(versions[1..])
  }

  lemma {:induction false} OnlyLastIsOpen(versions: seq<Version>)
    requires forall i :: 0 <= i < |versions| ==> (versions[i].validTo.None? <==> i == |versions| - 1)
    ensures FirstOpen(versions) == if versions == [] then None else Some(Last(versions))
  {
    if |versions| > 1 {
      OnlyLastIsOpen(versions[1..]);
    }
  }

  // The row the current pointer names is the open row.
  lemma CurrentIsOpen(store: Store, key: NaturalKey)
    requires WellFormedStore(store) && key in store.observations
    ensures Current(store, key) == FirstOpen(store.observations[key].versions)
  {
    var o := store.observations[key];
    OwnIntervals(o);
    OnlyLastIsOpen(o.versions);
  }

  // --------------------------------------------------------------------------------------------
  // One revision
  // --------------------------------------------------------------------------------------------

  lemma ApplyKeepsPast(o: Observation, s: Sighting, t: int)
    requires WellFormed(o) && Apply(o, s).Ok? && t < s.at
    ensures SameFacts(FirstVisible(Apply(o, s).value.0.versions, t), FirstVisible(o.versions, t))
  {
    SameRowsSameAnswer(o.versions, Apply(o, s).value.0.versions, t);
  }

  lemma UnchangedKeepsAll(o: Observation, s: Sighting, t: int)
    requires WellFormed(o) && Apply(o, s).Ok? && Apply(o, s).value.1.Unchanged?
    ensures SameFacts(FirstVisible(Apply(o, s).value.0.versions, t), FirstVisible(o.versions, t))
  {
    SameRowsSameAnswer(o.versions, Apply(o, s).value.0.versions, t);
  }

  // --------------------------------------------------------------------------------------------
  // The simulation
  // --------------------------------------------------------------------------------------------

  predicate Agree(v: Option<Version>, known: seq<Sighting>) {
    match v
    case None => known == []
    case Some(w) =>
      && known != []
      && w.fingerprint == Last(known).fingerprint
      && w.payload == BlockHead(known).payload
      && w.validFrom == w.firstObservedAt == BlockHead(known).at
  }

  ghost predicate Tracks(o: Observation, log: seq<Sighting>) {
    && WellFormed(o)
    && (o.versions == [] <==> log == [])
    && (log != [] ==>
          && Last(o.versions).fingerprint == Last(log).fingerprint
          && Last(o.versions).payload == BlockHead(log).payload
          && Last(o.versions).validFrom == BlockHead(log).at
          && Last(o.versions).lastObservedAt == BlockEnd(log))
    && (forall t :: Agree(FirstVisible(o.versions, t), Known(log, t)))
  }

  lemma AppendedLog(log: seq<Sighting>, s: Sighting, t: int)
    ensures Last(log + [s]) == s && Front(log + [s]) == log
    ensures Known(log + [s], t) == if s.at <= t then log + [s] else Known(log, t)
  {
    assert Front(log + [s]) == log;
  }

  // One call: the store accepts exactly what the log accepts, names its effect, and stays in step.
  lemma ApplySimulatesLog(o: Observation, log: seq<Sighting>, s: Sighting)
    requires Tracks(o, log) && !s.payload.state.Invalid?
    ensures Apply(o, s).Ok? <==> Accepts(log, s)
    ensures Apply(o, s).Ok? ==>
              && Tracks(Apply(o, s).value.0, log + [s])
              && Apply(o, s).value.1 == Effect(log, s.fingerprint)
  {
    if Apply(o, s).Ok? {
      var after := Apply(o, s).value.0;
      ApplyKeepsTimeline(o, s);
      AppendedLog(log, s, s.at);
      forall t ensures Agree(FirstVisible(after.versions, t), Known(log + [s], t)) {
        AppendedLog(log, s, t);
        if s.at <= t {
          VisibleIsFound(after, t, |after.versions| - 1);
        } else {
          ApplyKeepsPast(o, s, t);
          assert Agree(FirstVisible(o.versions, t), Known(log, t));
        }
      }
    }
  }

  ghost predicate StoreTracks(store: Store, logs: Logs) {
    && store.observations.Keys == logs.Keys
    && forall key :: key in logs ==> logs[key] != [] && Tracks(store.observations[key], logs[key])
  }

  lemma RowTracks(store: Store, logs: Logs, p: PersistCall)
    requires StoreTracks(store, logs)
    ensures Tracks(RowFor(store, p), LogOf(logs, p.key))
  {
    assert p.key in store.observations <==> p.key in logs;
  }

  lemma RowUpdateTracks(store: Store, next: Store, logs: Logs, key: NaturalKey, row: Observation, log: seq<Sighting>)
    requires StoreTracks(store, logs) && next.observations == store.observations[key := row]
    requires log != [] && Tracks(row, log)
    ensures StoreTracks(next, logs[key := log])
  {
    assert next.observations.Keys == logs[key := log].Keys;
  }

  lemma StepSimulatesLog(store: Store, logs: Logs, p: PersistCall)
    requires StoreTracks(store, logs)
    ensures Persist(store, p).Ok? <==> Recordable(logs, p)
    ensures StoreTracks(Step(store, p), Record(logs, p))
    ensures Persist(store, p).Ok? ==> Persist(store, p).value.1.outcome == Effect(LogOf(logs, p.key), p.fingerprint)
  {
    if !p.state.Invalid? && p.rawRecord.Some? {
      RowTracks(store, logs, p);
      ApplySimulatesLog(RowFor(store, p), LogOf(logs, p.key), SightingOf(p));
      if Persist(store, p).Ok? {
        var row := Apply(RowFor(store, p), SightingOf(p)).value.0;
        RowUpdateTracks(store, Step(store, p), logs, p.key, row, LogOf(logs, p.key) + [SightingOf(p)]);
      }
    }
  }

  lemma {:induction false} RunSimulatesLog(store: Store, logs: Logs, calls: seq<PersistCall>)
    requires StoreTracks(store, logs)
    ensures StoreTracks(Run(store, calls), RecordAll(logs, calls))
    decreases |calls|
  {
    if calls != [] {
      StepSimulatesLog(store, logs, calls[0]);
      RunSimulatesLog(Step(store, calls[0]), Record(logs, calls[0]), calls[1..]);
    }
  }

  // --------------------------------------------------------------------------------------------
  // Main results
  // --------------------------------------------------------------------------------------------

  // After any calls in any time order, reading as of t finds what the log knew at t: the fingerprint
  // of the last-processed sighting retrieved by t, first seen when its block of sightings opened.
  lemma AsOfRefinesLog(calls: seq<PersistCall>, key: NaturalKey, t: int)
    ensures var found := AsOf(Run(EMPTY_STORE, calls), key, t);
            var known := Known(LogOf(RecordAll(map[], calls), key), t);
            if key.date <= DateOf(t) then Agree(found, known) else found.None?
  {
    RunSimulatesLog(EMPTY_STORE, map[], calls);
  }

  // A call succeeds exactly when the log accepts its sighting, and reports what it did to the log.
  lemma OutcomeRefinesLog(calls: seq<PersistCall>, p: PersistCall)
    ensures var logs := RecordAll(map[], calls);
            var log := LogOf(logs, p.key);
            match Persist(Run(EMPTY_STORE, calls), p)
            case Err(_) => !Recordable(logs, p)
            case Ok((_, revision)) =>
              Recordable(logs, p) && revision.outcome == Effect(log, p.fingerprint)
  {
    RunSimulatesLog(EMPTY_STORE, map[], calls);
    StepSimulatesLog(Run(EMPTY_STORE, calls), RecordAll(map[], calls), p);
  }

  function RowVersions(store: Store, key: NaturalKey): seq<Version> {
    if key in store.observations then store.observations[key].versions else []
  }

  lemma AsOfReadsRow(store: Store, key: NaturalKey, t: int)
    ensures AsOf(store, key, t) == if key.date <= DateOf(t) then FirstVisible(RowVersions(store, key), t) else None
  {
  }

  lemma StepVersions(store: Store, p: PersistCall, key: NaturalKey)
    requires Persist(store, p).Ok?
    ensures Apply(RowFor(store, p), SightingOf(p)).Ok?
    ensures RowVersions(store, p.key) == RowFor(store, p).versions
    ensures RowVersions(Step(store, p), key) ==
            if key == p.key then Apply(RowFor(store, p), SightingOf(p)).value.0.versions else RowVersions(store, key)
  {
    StepRewritesRow(store, p);
  }

  lemma RowIsWellFormed(store: Store, p: PersistCall)
    requires WellFormedStore(store)
    ensures WellFormed(RowFor(store, p))
  {
  }

  lemma {:induction false} SameFactsAsItself(v: Option<Version>)
    ensures SameFacts(v, v)
  {
  }

  // A persist at T never alters what is known as of an earlier instant.
  lemma PersistKeepsPast(store: Store, p: PersistCall, key: NaturalKey, t: int)
    requires WellFormedStore(store) && t < p.at
    ensures SameFacts(AsOf(Step(store, p), key, t), AsOf(store, key, t))
  {
    SameFactsAsItself(AsOf(store, key, t));
    if Persist(store, p).Ok? {
      AsOfReadsRow(store, key, t);
      AsOfReadsRow(Step(store, p), key, t);
      StepVersions(store, p, key);
      RowIsWellFormed(store, p);
      if key == p.key {
        ApplyKeepsPast(RowFor(store, p), SightingOf(p), t);
      }
    }
  }

  lemma {:induction false} RunKeepsPast(store: Store, calls: seq<PersistCall>, key: NaturalKey, t: int)
    requires WellFormedStore(store) && forall p :: p in calls ==> t < p.at
    ensures SameFacts(AsOf(Run(store, calls), key, t), AsOf(store, key, t))
    decreases |calls|
  {
    if calls != [] {
      PersistKeepsPast(store, calls[0], key, t);
      StepKeepsTimelines(store, calls[0]);
      RunKeepsPast(Step(store, calls[0]), calls[1..], key, t);
    }
  }

  // An "unchanged" outcome alters no as-of answer at all.
  lemma UnchangedIsInvisible(store: Store, p: PersistCall, key: NaturalKey, t: int)
    requires WellFormedStore(store)
    requires Persist(store, p).Ok? && Persist(store, p).value.1.outcome.Unchanged?
    ensures SameFacts(AsOf(Step(store, p), key, t), AsOf(store, key, t))
  {
    SameFactsAsItself(AsOf(store, key, t));
    AsOfReadsRow(store, key, t);
    AsOfReadsRow(Step(store, p), key, t);
    StepVersions(store, p, key);
    RowIsWellFormed(store, p);
    if key == p.key {
      UnchangedKeepsAll(RowFor(store, p), SightingOf(p), t);
    }
  }
}
