/** What each row of a synchronized database says and which rows it refers to, item by item. */
module ReferenceRules {
  import opened Common
  import opened EffectivePeriods
  import opened ReferenceTables
  import opened ReferenceSync

  // What `_validate` guarantees of the codes that items refer to.
  ghost predicate ReferencesKnown(c: Configuration) {
    && (forall i :: 0 <= i < |c.pairs| ==>
          && IsConfigured(c.currencies, NameKey(c.pairs[i].baseCurrency))
          && IsConfigured(c.currencies, NameKey(c.pairs[i].quoteCurrency)))
    && (forall i :: 0 <= i < |c.fxSeries| ==> SomePair(c, c.fxSeries[i].pair))
    && (forall i :: 0 <= i < |c.rateSeries| ==>
          && IsConfigured(c.economies, NameKey(c.rateSeries[i].economy))
          && IsConfigured(c.currencies, NameKey(c.rateSeries[i].currency)))
  }

  predicate SomePair(c: Configuration, symbol: string) {
    exists i :: 0 <= i < |c.pairs| && c.pairs[i].symbol == symbol
  }

  // The identifier names the row of this code.
  predicate Names(rows: seq<Row>, id: Id, code: string) {
    id.Some? && id.value < |rows| && rows[id.value].key == NameKey(code)
  }

  // --------------------------------------------------------------------------------------------
  // The row of each item
  // --------------------------------------------------------------------------------------------

  predicate IsItemRow(w: Wanted, row: Row) {
    row.key == w.key && row.values == w.values && row.active == w.enabled
  }

  predicate IsPairRow(db: Database, item: PairItem, row: Row) {
    && row.key == NameKey(item.symbol) && row.active == item.enabled && row.values.PairColumns?
    && Names(db.currencies, row.values.baseCurrency, item.baseCurrency)
    && Names(db.currencies, row.values.quoteCurrency, item.quoteCurrency)
  }

  predicate IsRelationshipRow(db: Database, item: Period, row: Row) {
    && row.key.RelationshipKey? && row.key.effectiveFrom == item.from && row.values == RelationshipColumns(item.to)
    && Names(db.economies, row.key.economy, item.economy) && Names(db.currencies, row.key.currency, item.currency)
  }

  predicate IsFxRow(db: Database, item: FxItem, row: Row) {
    && row.key.FxKey? && row.key.symbol == item.symbol && row.active == item.enabled
    && row.values.FxColumns? && row.values.fxFacts == item.facts
    && Names(db.datasets, row.key.dataset, item.dataset) && Names(db.pairs, row.values.pair, item.pair)
  }

  predicate IsRateRow(db: Database, item: RateItem, row: Row) {
    && row.key.RateKey? && row.key.dataflow == item.dataflow && row.key.series == item.seriesKey
    && row.active == item.enabled && row.values.RateColumns? && row.values.rateFacts == item.facts
    && Names(db.datasets, row.key.dataset, item.dataset)
    && Names(db.economies, row.values.rateEconomy, item.economy) && Names(db.currencies, row.values.rateCurrency, item.currency)
  }

  ghost predicate HasItemRow(rows: seq<Row>, w: Wanted) {
    exists row :: row in rows && IsItemRow(w, row)
  }

  ghost predicate HasPairRow(db: Database, item: PairItem) {
    exists row :: row in db.pairs && IsPairRow(db, item, row)
  }

  ghost predicate HasRelationshipRow(db: Database, item: Period) {
    exists row :: row in db.relationships && IsRelationshipRow(db, item, row)
  }

  ghost predicate HasFxRow(db: Database, item: FxItem) {
    exists row :: row in db.fxSeries && IsFxRow(db, item, row)
  }

  ghost predicate HasRateRow(db: Database, item: RateItem) {
    exists row :: row in db.rateSeries && IsRateRow(db, item, row)
  }

  // --------------------------------------------------------------------------------------------
  // They are there
  // --------------------------------------------------------------------------------------------

  lemma HeldItemsHaveRows(rows: seq<Row>, wanted: seq<Wanted>)
    requires HoldsItems(rows, wanted, |wanted|)
    ensures forall i :: 0 <= i < |wanted| ==> HasItemRow(rows, wanted[i])
  {
    forall i | 0 <= i < |wanted| ensures HasItemRow(rows, wanted[i]) {
      assert IsItemRow(wanted[i], RowOf(wanted[i]));
    }
  }

  lemma CodeHasRow(rows: seq<Row>, wanted: seq<Wanted>, code: string)
    requires HoldsItems(rows, wanted, |wanted|) && IsConfigured(wanted, NameKey(code))
    ensures Names(rows, Position(rows, NameKey(code)), code)
  {
    ConfiguredHasRow(rows, wanted, NameKey(code));
  }

  lemma PairsRefer(db: Database, c: Configuration)
    requires BaseSettled(db, c) && ReferencesKnown(c)
    ensures forall i :: 0 <= i < |c.pairs| ==> HasPairRow(db, c.pairs[i])
  {
    var wanted := WantedPairs(c, db.currencies);
    forall i | 0 <= i < |c.pairs| ensures HasPairRow(db, c.pairs[i]) {
      CodeHasRow(db.currencies, c.currencies, c.pairs[i].baseCurrency);
      CodeHasRow(db.currencies, c.currencies, c.pairs[i].quoteCurrency);
      assert RowOf(wanted[i]) in db.pairs && IsPairRow(db, c.pairs[i], RowOf(wanted[i]));
    }
  }

  lemma RelationshipsRefer(db: Database, c: Configuration)
    requires BaseSettled(db, c) && DependentSettled(db, c) && Validated(c)
    ensures forall i :: 0 <= i < |c.relationships| ==> HasRelationshipRow(db, c.relationships[i])
  {
    var wanted := WantedRelationships(c, db.economies, db.currencies);
    forall i | 0 <= i < |c.relationships|
      ensures HasRelationshipRow(db, c.relationships[i])
    {
      assert c.relationships[i] in c.relationships;
      CodeHasRow(db.economies, c.economies, c.relationships[i].economy);
      CodeHasRow(db.currencies, c.currencies, c.relationships[i].currency);
      assert RowOf(wanted[i]) in db.relationships && IsRelationshipRow(db, c.relationships[i], RowOf(wanted[i]));
    }
  }

  lemma PairIsConfigured(c: Configuration, currencies: seq<Row>, symbol: string)
    requires SomePair(c, symbol)
    ensures IsConfigured(WantedPairs(c, currencies), NameKey(symbol))
  {
    var i :| 0 <= i < |c.pairs| && c.pairs[i].symbol == symbol;
    assert WantedPairs(c, currencies)[i].key == NameKey(symbol);
  }

  lemma FxSeriesRefer(db: Database, c: Configuration)
    requires BaseSettled(db, c) && DependentSettled(db, c) && Validated(c) && ReferencesKnown(c)
    ensures forall i :: 0 <= i < |c.fxSeries| ==> HasFxRow(db, c.fxSeries[i])
  {
    var wanted := WantedFx(c, db.datasets, db.pairs);
    forall i | 0 <= i < |c.fxSeries| ensures HasFxRow(db, c.fxSeries[i]) {
      CodeHasRow(db.datasets, c.datasets, c.fxSeries[i].dataset);
      PairIsConfigured(c, db.currencies, c.fxSeries[i].pair);
      CodeHasRow(db.pairs, WantedPairs(c, db.currencies), c.fxSeries[i].pair);
      assert RowOf(wanted[i]) in db.fxSeries && IsFxRow(db, c.fxSeries[i], RowOf(wanted[i]));
    }
  }

  lemma RateSeriesRefer(db: Database, c: Configuration)
    requires BaseSettled(db, c) && DependentSettled(db, c) && Validated(c) && ReferencesKnown(c)
    ensures forall i :: 0 <= i < |c.rateSeries| ==> HasRateRow(db, c.rateSeries[i])
  {
    var wanted := WantedRates(c, db.datasets, db.economies, db.currencies);
    forall i | 0 <= i < |c.rateSeries| ensures HasRateRow(db, c.rateSeries[i]) {
      CodeHasRow(db.datasets, c.datasets, c.rateSeries[i].dataset);
      CodeHasRow(db.economies, c.economies, c.rateSeries[i].economy);
      CodeHasRow(db.currencies, c.currencies, c.rateSeries[i].currency);
      assert RowOf(wanted[i]) in db.rateSeries && IsRateRow(db, c.rateSeries[i], RowOf(wanted[i]));
    }
  }

  // After synchronizing, every configured item has its row with its own facts, and each pair, relationship and
  // series refers to the rows of the codes its item names.
  lemma SynchronizedRowsRefer(db: Database, c: Configuration)
    requires UniqueTables(db) && Validated(c) && ReferencesKnown(c)
    ensures var after := Synchronized(db, c);
            && (forall i :: 0 <= i < |c.currencies| ==> HasItemRow(after.currencies, c.currencies[i]))
            && (forall i :: 0 <= i < |c.economies| ==> HasItemRow(after.economies, c.economies[i]))
            && (forall i :: 0 <= i < |c.datasets| ==> HasItemRow(after.datasets, c.datasets[i]))
            && (forall i :: 0 <= i < |c.pairs| ==> HasPairRow(after, c.pairs[i]))
            && (forall i :: 0 <= i < |c.relationships| ==> HasRelationshipRow(after, c.relationships[i]))
            && (forall i :: 0 <= i < |c.fxSeries| ==> HasFxRow(after, c.fxSeries[i]))
            && (forall i :: 0 <= i < |c.rateSeries| ==> HasRateRow(after, c.rateSeries[i]))
  {
    var after := Synchronized(db, c);
    SynchronizeSettles(db, c);
    HeldItemsHaveRows(after.currencies, c.currencies);
    HeldItemsHaveRows(after.economies, c.economies);
    HeldItemsHaveRows(after.datasets, c.datasets);
    PairsRefer(after, c);
    RelationshipsRefer(after, c);
    FxSeriesRefer(after, c);
    RateSeriesRefer(after, c);
  }

  // --------------------------------------------------------------------------------------------
  // What is counted
  // --------------------------------------------------------------------------------------------

  // The rows there were that are different now.
  function Changed(rows: seq<Row>, after: seq<Row>): set<nat>
    requires |rows| <= |after|
  {
    set p: nat | p < |rows| && after[p] != rows[p]
  }

  predicate KeyAmong(wanted: seq<Wanted>, n: nat, key: Key)
    requires n <= |wanted|
  {
    exists i :: 0 <= i < n && wanted[i].key == key
  }

  // After n upserts: old rows of other keys are as they were, new rows belong to the items, and the tally says
  // how many rows are new and how many old ones changed.
  ghost predicate Tallied(rows: seq<Row>, after: seq<Row>, wanted: seq<Wanted>, n: nat, tally: Tally)
    requires n <= |wanted|
  {
    && |after| == |rows| + tally.inserted
    && (forall p :: 0 <= p < |rows| ==> after[p].key == rows[p].key && (!KeyAmong(wanted, n, rows[p].key) ==> after[p] == rows[p]))
    && (forall p :: |rows| <= p < |after| ==> KeyAmong(wanted, n, after[p].key))
    && tally.updated == |Changed(rows, after)| && tally.disabled == 0
  }

  lemma KeyIsFresh(wanted: seq<Wanted>, n: nat)
    requires n < |wanted| && DistinctWanted(wanted)
    ensures !KeyAmong(wanted, n, wanted[n].key)
    ensures forall key :: KeyAmong(wanted, n + 1, key) <==> KeyAmong(wanted, n, key) || key == wanted[n].key
  {
    forall key ensures KeyAmong(wanted, n + 1, key) <==> KeyAmong(wanted, n, key) || key == wanted[n].key {
      if KeyAmong(wanted, n, key) {
        var i :| 0 <= i < n && wanted[i].key == key;
      }
    }
  }

  lemma AddedRowChangesNone(rows: seq<Row>, before: seq<Row>, row: Row)
    requires |rows| <= |before|
    ensures Changed(rows, before + [row]) == Changed(rows, before)
  {
    forall p: nat | p < |rows| ensures (before + [row])[p] == before[p] {
    }
  }

  lemma InsertionTallied(rows: seq<Row>, before: seq<Row>, wanted: seq<Wanted>, n: nat, tally: Tally)
    requires n < |wanted| && DistinctWanted(wanted) && Tallied(rows, before, wanted, n, tally)
    ensures Tallied(rows, before + [RowOf(wanted[n])], wanted, n + 1, tally.Plus(Tally(1, 0, 0)))
  {
    KeyIsFresh(wanted, n);
    AddedRowChangesNone(rows, before, RowOf(wanted[n]));
    var after := before + [RowOf(wanted[n])];
    forall p | |rows| <= p < |after| ensures KeyAmong(wanted, n + 1, after[p].key) {
      if p < |before| {
        assert KeyAmong(wanted, n, before[p].key);
      }
    }
  }

  lemma OneMoreChanged(rows: seq<Row>, before: seq<Row>, p: nat, row: Row)
    requires p < |rows| <= |before| && before[p] == rows[p] && row != rows[p]
    ensures |Changed(rows, before[p := row])| == |Changed(rows, before)| + 1
  {
    assert p !in Changed(rows, before);
    assert Changed(rows, before[p := row]) == Changed(rows, before) + {p};
  }

  lemma UpdateTallied(rows: seq<Row>, before: seq<Row>, wanted: seq<Wanted>, n: nat, tally: Tally, p: nat)
    requires n < |wanted| && DistinctWanted(wanted) && Tallied(rows, before, wanted, n, tally)
    requires p < |before| && before[p].key == wanted[n].key
    ensures Tallied(rows, before[p := RowOf(wanted[n])], wanted, n + 1,
                    tally.Plus(if before[p] == RowOf(wanted[n]) then NOTHING_DONE else Tally(0, 1, 0)))
  {
    KeyIsFresh(wanted, n);
    assert p < |rows| && before[p] == rows[p];
    if before[p] == RowOf(wanted[n]) {
      assert before[p := RowOf(wanted[n])] == before;
    } else {
      OneMoreChanged(rows, before, p, RowOf(wanted[n]));
    }
  }

  // What the start has and every upsert keeps, tally included, the upserts leave behind.
  lemma {:induction false} UpsertsKeepTally(rows: seq<Row>, wanted: seq<Wanted>, n: nat, holds: (seq<Row>, Tally, nat) -> bool)
    requires n <= |wanted| && holds(rows, NOTHING_DONE, 0)
    requires forall before, tally, i: nat :: i < n && holds(before, tally, i) ==>
               holds(Upserted(before, wanted[i]), tally.Plus(UpsertTally(before, wanted[i])), i + 1)
    ensures holds(UpsertedFirst(rows, wanted, n), UpsertTallyFirst(rows, wanted, n), n)
  {
    if n > 0 {
      UpsertsKeepTally(rows, wanted, n - 1, holds);
    }
  }

  lemma UpsertsTallied(rows: seq<Row>, wanted: seq<Wanted>, n: nat)
    requires n <= |wanted| && DistinctWanted(wanted)
    ensures Tallied(rows, UpsertedFirst(rows, wanted, n), wanted, n, UpsertTallyFirst(rows, wanted, n))
  {
    var holds := (after: seq<Row>, tally: Tally, i: nat) => i <= |wanted| && Tallied(rows, after, wanted, i, tally);
    assert Changed(rows, rows) == {};
    forall before, tally, i: nat | i < n && holds(before, tally, i)
      ensures holds(Upserted(before, wanted[i]), tally.Plus(UpsertTally(before, wanted[i])), i + 1)
    {
      OneMoreTallied(rows, before, wanted, i, tally);
    }
    UpsertsKeepTally(rows, wanted, n, holds);
  }

  lemma OneMoreTallied(rows: seq<Row>, before: seq<Row>, wanted: seq<Wanted>, n: nat, tally: Tally)
    requires n < |wanted| && DistinctWanted(wanted) && Tallied(rows, before, wanted, n, tally)
    ensures Tallied(rows, Upserted(before, wanted[n]), wanted, n + 1, tally.Plus(UpsertTally(before, wanted[n])))
  {
    match Position(before, wanted[n].key)
    case None => InsertionTallied(rows, before, wanted, n, tally);
    case Some(p) => UpdateTallied(rows, before, wanted, n, tally, p);
  }

  // The active rows of no configured key, among the first n.
  ghost predicate AreOrphans(orphans: set<nat>, rows: seq<Row>, configured: set<Key>, n: nat)
    requires n <= |rows|
  {
    forall p: nat :: p in orphans <==> p < n && ToDisable(rows[p], configured)
  }

  lemma FewerOrphans(orphans: set<nat>, rows: seq<Row>, configured: set<Key>, n: nat) returns (fewer: set<nat>)
    requires n < |rows| && AreOrphans(orphans, rows, configured, n + 1)
    ensures AreOrphans(fewer, rows, configured, n)
    ensures |orphans| == |fewer| + if ToDisable(rows[n], configured) then 1 else 0
  {
    fewer := orphans - {n};
    if ToDisable(rows[n], configured) {
      assert n in orphans && orphans == fewer + {n};
    } else {
      assert fewer == orphans;
    }
  }

  lemma {:induction false} DisablesTallied(rows: seq<Row>, configured: set<Key>, n: nat, orphans: set<nat>)
    requires n <= |rows| && AreOrphans(orphans, rows, configured, n)
    ensures DisableTally(rows, configured, n) == Tally(0, 0, |orphans|)
  {
    if n == 0 {
      assert orphans == {};
    } else {
      var fewer := FewerOrphans(orphans, rows, configured, n - 1);
      DisablesTallied(rows, configured, n - 1, fewer);
    }
  }

  // Reconciling counts the rows it adds, the configured old rows it changes, and the other active rows, which it
  // switches off.
  lemma TallyMeans(rows: seq<Row>, wanted: seq<Wanted>)
    requires DistinctWanted(wanted)
    ensures var after, tally := Reconciled(rows, wanted), ReconcileTally(rows, wanted);
            && |after| == |rows| + tally.inserted
            && tally.updated == |set p: nat | p < |rows| && IsConfigured(wanted, rows[p].key) && after[p] != rows[p]|
            && tally.disabled == |set p: nat | p < |rows| && !IsConfigured(wanted, rows[p].key) && rows[p].active|
  {
    var upserted := UpsertedFirst(rows, wanted, |wanted|);
    var after := Reconciled(rows, wanted);
    var orphans := set p: nat | p < |rows| && !IsConfigured(wanted, rows[p].key) && rows[p].active;
    UpsertsTallied(rows, wanted, |wanted|);
    CountedRows(rows, upserted, after, wanted, UpsertTallyFirst(rows, wanted, |wanted|), orphans);
    DisablesTallied(upserted, ConfiguredKeys(wanted), |upserted|, orphans);
  }

  lemma CountedRows(rows: seq<Row>, upserted: seq<Row>, after: seq<Row>, wanted: seq<Wanted>, tally: Tally, orphans: set<nat>)
    requires Tallied(rows, upserted, wanted, |wanted|, tally)
    requires after == DisabledFirst(upserted, ConfiguredKeys(wanted), |upserted|)
    requires orphans == set p: nat | p < |rows| && !IsConfigured(wanted, rows[p].key) && rows[p].active
    ensures Changed(rows, upserted) == set p: nat | p < |rows| && IsConfigured(wanted, rows[p].key) && after[p] != rows[p]
    ensures AreOrphans(orphans, upserted, ConfiguredKeys(wanted), |upserted|)
  {
    forall key ensures KeyAmong(wanted, |wanted|, key) <==> IsConfigured(wanted, key) {
    }
    forall key ensures key in ConfiguredKeys(wanted) <==> IsConfigured(wanted, key) {
    }
    forall p: nat | p < |rows|
      ensures upserted[p] != rows[p] <==> IsConfigured(wanted, rows[p].key) && after[p] != rows[p]
    {
      assert KeyAmong(wanted, |wanted|, rows[p].key) <==> IsConfigured(wanted, rows[p].key);
    }
    forall p: nat | |rows| <= p < |upserted| ensures upserted[p].key in ConfiguredKeys(wanted) {
      assert KeyAmong(wanted, |wanted|, upserted[p].key);
    }
    forall p: nat | p < |rows| ensures p in orphans <==> ToDisable(upserted[p], ConfiguredKeys(wanted)) {
      assert KeyAmong(wanted, |wanted|, rows[p].key) <==> IsConfigured(wanted, rows[p].key);
    }
  }
}
