/** Reconciling one reference table with its configured items: `_upsert`, `_disable` and the pattern all
    per-table reconcilers share in `app/repositories/reference.py`.

    A row's identifier is its position in its table. */
module ReferenceTables {
  import opened Common

  // A foreign key is a position in the referenced table.
  type Id = Option<nat>

  // The natural keys of the tables: a code or symbol, or the columns of a wider unique constraint.
  datatype Key =
    | NameKey(name: string)
    | RelationshipKey(economy: Id, currency: Id, effectiveFrom: int)
    | FxKey(dataset: Id, symbol: string)
    | RateKey(dataset: Id, dataflow: string, series: string)

  datatype FxFacts = FxFacts(frequency: string, quoteType: string, metadata: map<string, string>)

  datatype RateFacts = RateFacts(
    frequency: string, unit: string, rateType: string, collection: string, title: string, notes: Option<string>,
    metadata: map<string, string>, publication: map<string, string>)

  // The columns reconciling sets, besides the active flag.
  datatype Columns =
    | CurrencyColumns(name: string, minorUnits: Option<int>)
    | EconomyColumns(name: string, isoCode: Option<string>, timeZone: string, economyType: string)
    | DatasetColumns(
        displayName: string, configurationReference: string, licenseUrl: Option<string>, licenseNotes: Option<string>,
        attribution: Option<string>, redistribution: string, approvalState: string)
    | PairColumns(baseCurrency: Id, quoteCurrency: Id)
    | RelationshipColumns(effectiveTo: Option<int>)
    | FxColumns(pair: Id, fxFacts: FxFacts)
    | RateColumns(rateEconomy: Id, rateCurrency: Id, rateFacts: RateFacts)

  datatype Row = Row(key: Key, values: Columns, active: bool)

  datatype Wanted = Wanted(key: Key, values: Columns, enabled: bool)

  datatype Tally = Tally(inserted: nat, updated: nat, disabled: nat) {
    function Plus(t: Tally): Tally {
      Tally(inserted + t.inserted, updated + t.updated, disabled + t.disabled)
    }
  }

  const NOTHING_DONE := Tally(0, 0, 0)

  lemma PlusAssociates(a: Tally, b: Tally, c: Tally)
    ensures a.Plus(b).Plus(c) == a.Plus(b.Plus(c))
  {
  }

  // The last of the first n rows with this key.
  function PositionBefore(rows: seq<Row>, key: Key, n: nat): (p: Option<nat>)
    requires n <= |rows|
    ensures p.Some? ==> p.value < n && rows[p.value].key == key
    ensures p.None? ==> forall i :: 0 <= i < n ==> rows[i].key != key
  {
    if n == 0 then None
    else if rows[n - 1].key == key then Some(n - 1)
    else PositionBefore(rows, key, n - 1)
  }

  // The dictionary from natural key to row, as a position: the last row of a key is the one kept.
  function Position(rows: seq<Row>, key: Key): (p: Option<nat>)
    ensures p.Some? ==> p.value < |rows| && rows[p.value].key == key
    ensures p.None? ==> forall i :: 0 <= i < |rows| ==> rows[i].key != key
  {
    PositionBefore(rows, key, |rows|)
  }

  function RowOf(w: Wanted): Row {
    Row(w.key, w.values, w.enabled)
  }

  function Upserted(rows: seq<Row>, w: Wanted): seq<Row> {
    match Position(rows, w.key)
    case None => rows + [RowOf(w)]
    case Some(p) => rows[p := RowOf(w)]
  }

  function UpsertTally(rows: seq<Row>, w: Wanted): Tally {
    match Position(rows, w.key)
    case None => Tally(1, 0, 0)
    case Some(p) => if rows[p] == RowOf(w) then NOTHING_DONE else Tally(0, 1, 0)
  }

  // The first n items upserted one after the other.
  function UpsertedFirst(rows: seq<Row>, wanted: seq<Wanted>, n: nat): seq<Row>
    requires n <= |wanted|
  {
    if n == 0 then rows else Upserted(UpsertedFirst(rows, wanted, n - 1), wanted[n - 1])
  }

  function UpsertTallyFirst(rows: seq<Row>, wanted: seq<Wanted>, n: nat): Tally
    requires n <= |wanted|
  {
    if n == 0 then NOTHING_DONE
    else UpsertTallyFirst(rows, wanted, n - 1).Plus(UpsertTally(UpsertedFirst(rows, wanted, n - 1), wanted[n - 1]))
  }

  predicate IsConfigured(wanted: seq<Wanted>, key: Key) {
    exists i :: 0 <= i < |wanted| && wanted[i].key == key
  }

  function ConfiguredKeys(wanted: seq<Wanted>): set<Key> {
    set i | 0 <= i < |wanted| :: wanted[i].key
  }

  predicate ToDisable(row: Row, configured: set<Key>) {
    row.key !in configured && row.active
  }

  // The first n rows with those no longer configured switched off.
  function DisabledFirst(rows: seq<Row>, configured: set<Key>, n: nat): (after: seq<Row>)
    requires n <= |rows|
    ensures |after| == |rows|
  {
    seq(|rows|, i requires 0 <= i < |rows| =>
      if i < n && ToDisable(rows[i], configured) then rows[i].(active := false) else rows[i])
  }

  // The next row is still as it was, and is switched off when it must be.
  lemma DisabledStep(rows: seq<Row>, configured: set<Key>, n: nat)
    requires n < |rows|
    ensures DisabledFirst(rows, configured, n)[n] == rows[n]
    ensures DisabledFirst(rows, configured, n + 1) ==
            if ToDisable(rows[n], configured) then DisabledFirst(rows, configured, n)[n := rows[n].(active := false)]
            else DisabledFirst(rows, configured, n)
  {
  }

  function DisableTally(rows: seq<Row>, configured: set<Key>, n: nat): Tally
    requires n <= |rows|
  {
    if n == 0 then NOTHING_DONE
    else DisableTally(rows, configured, n - 1).Plus(if ToDisable(rows[n - 1], configured) then Tally(0, 0, 1) else NOTHING_DONE)
  }

  lemma DisableTallyStep(start: Tally, rows: seq<Row>, configured: set<Key>, n: nat)
    requires n < |rows|
    ensures start.Plus(DisableTally(rows, configured, n + 1)) ==
            start.Plus(DisableTally(rows, configured, n)).Plus(
              if ToDisable(rows[n], configured) then Tally(0, 0, 1) else NOTHING_DONE)
  {
  }

  function Reconciled(rows: seq<Row>, wanted: seq<Wanted>): seq<Row> {
    var upserted := UpsertedFirst(rows, wanted, |wanted|);
    DisabledFirst(upserted, ConfiguredKeys(wanted), |upserted|)
  }

  function ReconcileTally(rows: seq<Row>, wanted: seq<Wanted>): Tally {
    var upserted := UpsertedFirst(rows, wanted, |wanted|);
    UpsertTallyFirst(rows, wanted, |wanted|).Plus(DisableTally(upserted, ConfiguredKeys(wanted), |upserted|))
  }

  // --------------------------------------------------------------------------------------------
  // The counting object
  // --------------------------------------------------------------------------------------------

  class Reconciler {
    var inserted: nat
    var updated: nat
    var disabled: nat

    ghost function Counted(): Tally
      reads this
    {
      Tally(inserted, updated, disabled)
    }

    constructor ()
      ensures Counted() == NOTHING_DONE
    {
      inserted, updated, disabled := 0, 0, 0;
    }

    method Upsert(rows: seq<Row>, w: Wanted) returns (after: seq<Row>)
      modifies this
      ensures after == Upserted(rows, w)
      ensures Counted() == old(Counted()).Plus(UpsertTally(rows, w))
    {
      after := rows;
      var p := Position(rows, w.key);
      if p.None? {
        after := after + [Row(w.key, w.values, w.enabled)];
        inserted := inserted + 1;
        return;
      }
      var changed := false;
      if after[p.value].values != w.values {
        after := after[p.value := after[p.value].(values := w.values)];
        changed := true;
      }
      if after[p.value].active != w.enabled {
        after := after[p.value := after[p.value].(active := w.enabled)];
        changed := true;
      }
      updated := updated + if changed then 1 else 0;
    }

    method UpsertAll(rows: seq<Row>, wanted: seq<Wanted>) returns (after: seq<Row>)
      modifies this
      ensures after == UpsertedFirst(rows, wanted, |wanted|)
      ensures Counted() == old(Counted()).Plus(UpsertTallyFirst(rows, wanted, |wanted|))
    {
      after := rows;
      for i := 0 to |wanted|
        invariant after == UpsertedFirst(rows, wanted, i)
        invariant Counted() == old(Counted()).Plus(UpsertTallyFirst(rows, wanted, i))
      {
        after := Upsert(after, wanted[i]);
      }
    }

    method Disable(rows: seq<Row>, configured: set<Key>) returns (after: seq<Row>)
      modifies this
      ensures after == DisabledFirst(rows, configured, |rows|)
      ensures Counted() == old(Counted()).Plus(DisableTally(rows, configured, |rows|))
    {
      after := rows;
      for i := 0 to |rows|
        invariant after == DisabledFirst(rows, configured, i)
        invariant Counted() == old(Counted()).Plus(DisableTally(rows, configured, i))
      {
        DisabledStep(rows, configured, i);
        DisableTallyStep(old(Counted()), rows, configured, i);
        if after[i].key !in configured && after[i].active {
          after := after[i := after[i].(active := false)];
          disabled := disabled + 1;
        }
      }
    }

    method Reconcile(rows: seq<Row>, wanted: seq<Wanted>) returns (after: seq<Row>)
      modifies this
      ensures after == Reconciled(rows, wanted)
      ensures Counted() == old(Counted()).Plus(ReconcileTally(rows, wanted))
    {
      ghost var start := Counted();
      ghost var upserts := UpsertTallyFirst(rows, wanted, |wanted|);
      var upserted := UpsertAll(rows, wanted);
      ghost var disables := DisableTally(upserted, ConfiguredKeys(wanted), |upserted|);
      after := Disable(upserted, ConfiguredKeys(wanted));
      assert Counted() == start.Plus(upserts).Plus(disables);
      PlusAssociates(start, upserts, disables);
    }
  }

  // --------------------------------------------------------------------------------------------
  // What reconciling does to a table
  // --------------------------------------------------------------------------------------------

  // The unique constraint on the natural key.
  predicate UniqueKeys(rows: seq<Row>) {
    forall i, j :: 0 <= i < j < |rows| ==> rows[i].key != rows[j].key
  }

  predicate DistinctWanted(wanted: seq<Wanted>) {
    forall i, j :: 0 <= i < j < |wanted| ==> wanted[i].key != wanted[j].key
  }

  // No row is deleted, moved or given another key.
  predicate KeepsRows(rows: seq<Row>, after: seq<Row>) {
    && |rows| <= |after|
    && forall i :: 0 <= i < |rows| ==> after[i].key == rows[i].key
  }

  // Every configured item has its row, whatever the others are.
  ghost predicate HoldsItems(rows: seq<Row>, wanted: seq<Wanted>, n: nat)
    requires n <= |wanted|
  {
    forall i :: 0 <= i < n ==> RowOf(wanted[i]) in rows
  }

  // The table says what the configuration says: items as configured, everything else switched off.
  ghost predicate Settled(rows: seq<Row>, wanted: seq<Wanted>) {
    && UniqueKeys(rows)
    && HoldsItems(rows, wanted, |wanted|)
    && (forall i :: 0 <= i < |rows| && !IsConfigured(wanted, rows[i].key) ==> !rows[i].active)
  }

  lemma UpsertKeeps(rows: seq<Row>, w: Wanted)
    requires UniqueKeys(rows)
    ensures UniqueKeys(Upserted(rows, w)) && KeepsRows(rows, Upserted(rows, w))
    ensures RowOf(w) in Upserted(rows, w)
    ensures forall r :: r in rows && r.key != w.key ==> r in Upserted(rows, w)
  {
    var after := Upserted(rows, w);
    match Position(rows, w.key)
    case None =>
      assert after[|rows|] == RowOf(w);
    case Some(p) =>
      assert after[p] == RowOf(w);
      forall r | r in rows && r.key != w.key ensures r in after {
        var i :| 0 <= i < |rows| && rows[i] == r;
        assert after[i] == r;
      }
  }

  // What the first n upserts leave behind.
  ghost predicate UpsertedSoFar(rows: seq<Row>, after: seq<Row>, wanted: seq<Wanted>, n: nat)
    requires n <= |wanted|
  {
    UniqueKeys(after) && KeepsRows(rows, after) && HoldsItems(after, wanted, n)
  }

  lemma UpsertsOneMore(rows: seq<Row>, before: seq<Row>, wanted: seq<Wanted>, n: nat)
    requires n < |wanted| && DistinctWanted(wanted) && UpsertedSoFar(rows, before, wanted, n)
    ensures UpsertedSoFar(rows, Upserted(before, wanted[n]), wanted, n + 1)
  {
    UpsertKeeps(before, wanted[n]);
    forall i | 0 <= i < n ensures RowOf(wanted[i]) in Upserted(before, wanted[n]) {
      assert RowOf(wanted[i]) in before && RowOf(wanted[i]).key != wanted[n].key;
    }
  }

  // What the start has and every upsert keeps, the upserts leave behind.
  lemma {:induction false} UpsertsPreserve(rows: seq<Row>, wanted: seq<Wanted>, n: nat, holds: (seq<Row>, nat) -> bool)
    requires n <= |wanted| && holds(rows, 0)
    requires forall before, i: nat :: i < n && holds(before, i) ==> holds(Upserted(before, wanted[i]), i + 1)
    ensures holds(UpsertedFirst(rows, wanted, n), n)
  {
    if n > 0 {
      UpsertsPreserve(rows, wanted, n - 1, holds);
    }
  }

  lemma UpsertFirstKeeps(rows: seq<Row>, wanted: seq<Wanted>, n: nat)
    requires n <= |wanted| && UniqueKeys(rows) && DistinctWanted(wanted)
    ensures UpsertedSoFar(rows, UpsertedFirst(rows, wanted, n), wanted, n)
  {
    var holds := (after: seq<Row>, i: nat) => i <= |wanted| && UpsertedSoFar(rows, after, wanted, i);
    forall before, i: nat | i < n && holds(before, i) ensures holds(Upserted(before, wanted[i]), i + 1) {
      UpsertsOneMore(rows, before, wanted, i);
    }
    UpsertsPreserve(rows, wanted, n, holds);
  }

  lemma ReconcileSettles(rows: seq<Row>, wanted: seq<Wanted>)
    requires UniqueKeys(rows) && DistinctWanted(wanted)
    ensures Settled(Reconciled(rows, wanted), wanted) && KeepsRows(rows, Reconciled(rows, wanted))
  {
    UpsertFirstKeeps(rows, wanted, |wanted|);
    var upserted := UpsertedFirst(rows, wanted, |wanted|);
    var after := Reconciled(rows, wanted);
    forall i | 0 <= i < |wanted| ensures RowOf(wanted[i]) in after {
      var p :| 0 <= p < |upserted| && upserted[p] == RowOf(wanted[i]);
      assert after[p] == upserted[p];
    }
  }

  // In a settled table exactly the configured and enabled rows are active.
  lemma SettledMeansActive(rows: seq<Row>, wanted: seq<Wanted>, p: nat)
    requires Settled(rows, wanted) && DistinctWanted(wanted) && p < |rows|
    ensures rows[p].active <==> exists i :: 0 <= i < |wanted| && wanted[i].key == rows[p].key && wanted[i].enabled
  {
    if IsConfigured(wanted, rows[p].key) {
      var i :| 0 <= i < |wanted| && wanted[i].key == rows[p].key;
      assert RowOf(wanted[i]) in rows;
      var q :| 0 <= q < |rows| && rows[q] == RowOf(wanted[i]);
      assert q == p;
    }
  }

  lemma UpsertOfHeldItem(rows: seq<Row>, w: Wanted)
    requires UniqueKeys(rows) && RowOf(w) in rows
    ensures Upserted(rows, w) == rows && UpsertTally(rows, w) == NOTHING_DONE
  {
    var q :| 0 <= q < |rows| && rows[q] == RowOf(w);
    var p := Position(rows, w.key);
    assert p.Some? && p.value == q;
  }

  lemma {:induction false} SettledUpsert(rows: seq<Row>, wanted: seq<Wanted>, n: nat)
    requires n <= |wanted| && UniqueKeys(rows) && HoldsItems(rows, wanted, |wanted|)
    ensures UpsertedFirst(rows, wanted, n) == rows && UpsertTallyFirst(rows, wanted, n) == NOTHING_DONE
  {
    if n > 0 {
      SettledUpsert(rows, wanted, n - 1);
      assert RowOf(wanted[n - 1]) in rows;
      UpsertOfHeldItem(rows, wanted[n - 1]);
    }
  }

  lemma {:induction false} SettledDisable(rows: seq<Row>, configured: set<Key>, n: nat)
    requires n <= |rows| && forall i :: 0 <= i < |rows| ==> !ToDisable(rows[i], configured)
    ensures DisabledFirst(rows, configured, n) == rows && DisableTally(rows, configured, n) == NOTHING_DONE
  {
    if n > 0 {
      SettledDisable(rows, configured, n - 1);
    }
  }

  // Reconciling a settled table changes and counts nothing.
  lemma SettledStays(rows: seq<Row>, wanted: seq<Wanted>)
    requires Settled(rows, wanted)
    ensures Reconciled(rows, wanted) == rows && ReconcileTally(rows, wanted) == NOTHING_DONE
  {
    SettledUpsert(rows, wanted, |wanted|);
    SettledDisable(rows, ConfiguredKeys(wanted), |rows|);
  }
}
