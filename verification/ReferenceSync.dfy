/** Synchronizing all reference tables with a validated configuration: `synchronize` of
    `app/repositories/reference.py` and the uniqueness and reference checks of `app/config/reference.py`. */
module ReferenceSync {
  import opened Common
  import opened EffectivePeriods
  import opened ReferenceTables

  // --------------------------------------------------------------------------------------------
  // Configuration
  // --------------------------------------------------------------------------------------------

  datatype PairItem = PairItem(symbol: string, baseCurrency: string, quoteCurrency: string, enabled: bool)
  datatype FxItem = FxItem(dataset: string, symbol: string, pair: string, facts: FxFacts, enabled: bool)
  datatype RateItem = RateItem(
    dataset: string, dataflow: string, seriesKey: string, economy: string, currency: string, facts: RateFacts, enabled: bool)

  datatype Configuration = Configuration(
    currencies: seq<Wanted>, economies: seq<Wanted>,
    relationships: seq<Period>, pairs: seq<PairItem>, datasets: seq<Wanted>,
    fxSeries: seq<FxItem>, rateSeries: seq<RateItem>)

  // What `_validate` guarantees and synchronizing relies on.
  ghost predicate Validated(c: Configuration) {
    && DistinctWanted(c.currencies) && DistinctWanted(c.economies) && DistinctWanted(c.datasets)
    && (forall i, j :: 0 <= i < j < |c.pairs| ==> c.pairs[i].symbol != c.pairs[j].symbol)
    && (forall p :: p in c.relationships ==>
          ValidPeriod(p) && IsConfigured(c.economies, NameKey(p.economy)) && IsConfigured(c.currencies, NameKey(p.currency)))
    && ApartInGroups(c.relationships)
    && (forall i :: 0 <= i < |c.fxSeries| ==> IsConfigured(c.datasets, NameKey(c.fxSeries[i].dataset)))
    && (forall i, j :: 0 <= i < j < |c.fxSeries| ==>
          (c.fxSeries[i].dataset, c.fxSeries[i].symbol) != (c.fxSeries[j].dataset, c.fxSeries[j].symbol))
    && (forall i :: 0 <= i < |c.rateSeries| ==> IsConfigured(c.datasets, NameKey(c.rateSeries[i].dataset)))
    && (forall i, j :: 0 <= i < j < |c.rateSeries| ==>
          (c.rateSeries[i].dataset, c.rateSeries[i].dataflow, c.rateSeries[i].seriesKey) !=
          (c.rateSeries[j].dataset, c.rateSeries[j].dataflow, c.rateSeries[j].seriesKey))
  }

  // --------------------------------------------------------------------------------------------
  // Tables
  // --------------------------------------------------------------------------------------------

  // The relationship table has no active flag: its rows stand as active and are never switched off.
  datatype Database = Database(
    currencies: seq<Row>, economies: seq<Row>,
    datasets: seq<Row>, pairs: seq<Row>,
    relationships: seq<Row>,
    fxSeries: seq<Row>, rateSeries: seq<Row>)

  function WantedPairs(c: Configuration, currencies: seq<Row>): seq<Wanted> {
    seq(|c.pairs|, i requires 0 <= i < |c.pairs| =>
      var item := c.pairs[i];
      Wanted(NameKey(item.symbol),
             PairColumns(Position(currencies, NameKey(item.baseCurrency)), Position(currencies, NameKey(item.quoteCurrency))),
             item.enabled))
  }

  function WantedRelationships(c: Configuration, economies: seq<Row>, currencies: seq<Row>)
    : seq<Wanted>
  {
    seq(|c.relationships|, i requires 0 <= i < |c.relationships| =>
      var item := c.relationships[i];
      Wanted(RelationshipKey(Position(economies, NameKey(item.economy)), Position(currencies, NameKey(item.currency)), item.from),
             RelationshipColumns(item.to), true))
  }

  function WantedFx(c: Configuration, datasets: seq<Row>, pairs: seq<Row>)
    : seq<Wanted>
  {
    seq(|c.fxSeries|, i requires 0 <= i < |c.fxSeries| =>
      var item := c.fxSeries[i];
      Wanted(FxKey(Position(datasets, NameKey(item.dataset)), item.symbol), FxColumns(Position(pairs, NameKey(item.pair)), item.facts),
             item.enabled))
  }

  function WantedRates(c: Configuration, datasets: seq<Row>, economies: seq<Row>,
                       currencies: seq<Row>): seq<Wanted>
  {
    seq(|c.rateSeries|, i requires 0 <= i < |c.rateSeries| =>
      var item := c.rateSeries[i];
      Wanted(RateKey(Position(datasets, NameKey(item.dataset)), item.dataflow, item.seriesKey),
             RateColumns(Position(economies, NameKey(item.economy)), Position(currencies, NameKey(item.currency)), item.facts),
             item.enabled))
  }

  function Synchronized(db: Database, c: Configuration): Database {
    var currencies := Reconciled(db.currencies, c.currencies);
    var economies := Reconciled(db.economies, c.economies);
    var datasets := Reconciled(db.datasets, c.datasets);
    var pairs := Reconciled(db.pairs, WantedPairs(c, currencies));
    Database(currencies, economies, datasets, pairs,
             UpsertedFirst(db.relationships, WantedRelationships(c, economies, currencies), |c.relationships|),
             Reconciled(db.fxSeries, WantedFx(c, datasets, pairs)),
             Reconciled(db.rateSeries, WantedRates(c, datasets, economies, currencies)))
  }

  // Inserted, updated and disabled rows of the tables that refer to no other.
  function BaseTally(db: Database, c: Configuration): Tally {
    ReconcileTally(db.currencies, c.currencies)
      .Plus(ReconcileTally(db.economies, c.economies))
      .Plus(ReconcileTally(db.datasets, c.datasets))
  }

  // The same of all seven; `after` is the synchronized database.
  function SyncTally(db: Database, after: Database, c: Configuration): Tally {
    BaseTally(db, c)
      .Plus(ReconcileTally(db.pairs, WantedPairs(c, after.currencies)))
      .Plus(UpsertTallyFirst(db.relationships, WantedRelationships(c, after.economies, after.currencies), |c.relationships|))
      .Plus(ReconcileTally(db.fxSeries, WantedFx(c, after.datasets, after.pairs)))
      .Plus(ReconcileTally(db.rateSeries, WantedRates(c, after.datasets, after.economies, after.currencies)))
  }

  class ReferenceRepository {
    var db: Database

    constructor (db: Database)
      ensures this.db == db
    {
      this.db := db;
    }

    method SynchronizeBase(r: Reconciler, c: Configuration)
      returns (currencies: seq<Row>, economies: seq<Row>, datasets: seq<Row>)
      requires r.Counted() == NOTHING_DONE
      modifies r
      ensures currencies == Reconciled(db.currencies, c.currencies)
      ensures economies == Reconciled(db.economies, c.economies)
      ensures datasets == Reconciled(db.datasets, c.datasets)
      ensures db == old(db) && r.Counted() == BaseTally(db, c)
    {
      currencies := r.Reconcile(db.currencies, c.currencies);
      assert r.Counted() == ReconcileTally(db.currencies, c.currencies);
      economies := r.Reconcile(db.economies, c.economies);
      datasets := r.Reconcile(db.datasets, c.datasets);
    }

    method Synchronize(c: Configuration) returns (counts: Tally)
      modifies this
      ensures db == Synchronized(old(db), c)
      ensures counts == SyncTally(old(db), db, c)
    {
      var r := new Reconciler();
      var currencies, economies, datasets := SynchronizeBase(r, c);
      ghost var t3 := BaseTally(db, c);
      var wantedPairs := WantedPairs(c, currencies);
      var pairs := r.Reconcile(db.pairs, wantedPairs);
      ghost var t4 := t3.Plus(ReconcileTally(db.pairs, wantedPairs));
      assert r.Counted() == t4;
      var wantedRelationships := WantedRelationships(c, economies, currencies);
      var relationships := r.UpsertAll(db.relationships, wantedRelationships);
      ghost var t5 := t4.Plus(UpsertTallyFirst(db.relationships, wantedRelationships, |c.relationships|));
      assert r.Counted() == t5;
      var wantedFx := WantedFx(c, datasets, pairs);
      var fxSeries := r.Reconcile(db.fxSeries, wantedFx);
      ghost var t6 := t5.Plus(ReconcileTally(db.fxSeries, wantedFx));
      assert r.Counted() == t6;
      var wantedRates := WantedRates(c, datasets, economies, currencies);
      var rateSeries := r.Reconcile(db.rateSeries, wantedRates);
      assert r.Counted() == t6.Plus(ReconcileTally(db.rateSeries, wantedRates));
      db := Database(currencies, economies, datasets, pairs, relationships, fxSeries, rateSeries);
      counts := Tally(r.inserted, r.updated, r.disabled);
    }
  }

  // --------------------------------------------------------------------------------------------
  // Convergence
  // --------------------------------------------------------------------------------------------

  predicate UniqueTables(db: Database) {
    && UniqueKeys(db.currencies) && UniqueKeys(db.economies) && UniqueKeys(db.datasets) && UniqueKeys(db.pairs)
    && UniqueKeys(db.relationships) && UniqueKeys(db.fxSeries) && UniqueKeys(db.rateSeries)
  }

  predicate KeepsAllRows(db: Database, after: Database) {
    KeepsBaseRows(db, after) && KeepsDependentRows(db, after)
  }

  ghost predicate SettledDatabase(db: Database, c: Configuration) {
    BaseSettled(db, c) && DependentSettled(db, c)
  }

  // A configured key has a row, and no two keys share one.
  lemma ConfiguredHasRow(rows: seq<Row>, wanted: seq<Wanted>, key: Key)
    requires HoldsItems(rows, wanted, |wanted|) && IsConfigured(wanted, key)
    ensures Position(rows, key).Some?
  {
    var i :| 0 <= i < |wanted| && wanted[i].key == key;
    assert RowOf(wanted[i]) in rows;
  }

  lemma DistinctRelationships(c: Configuration, economies: seq<Row>, currencies: seq<Row>)
    requires Validated(c) && HoldsItems(economies, c.economies, |c.economies|) && HoldsItems(currencies, c.currencies, |c.currencies|)
    ensures DistinctWanted(WantedRelationships(c, economies, currencies))
  {
    AcceptedStartsDiffer(c.relationships);
    var wanted := WantedRelationships(c, economies, currencies);
    forall i, j | 0 <= i < j < |wanted| ensures wanted[i].key != wanted[j].key {
      var a, b := c.relationships[i], c.relationships[j];
      assert a in c.relationships && b in c.relationships;
      ConfiguredHasRow(economies, c.economies, NameKey(a.economy));
      ConfiguredHasRow(economies, c.economies, NameKey(b.economy));
      ConfiguredHasRow(currencies, c.currencies, NameKey(a.currency));
      ConfiguredHasRow(currencies, c.currencies, NameKey(b.currency));
    }
  }

  lemma DistinctSeries(c: Configuration, datasets: seq<Row>, pairs: seq<Row>,
                       economies: seq<Row>, currencies: seq<Row>)
    requires Validated(c) && HoldsItems(datasets, c.datasets, |c.datasets|)
    ensures DistinctWanted(WantedFx(c, datasets, pairs))
    ensures DistinctWanted(WantedRates(c, datasets, economies, currencies))
  {
    forall i, j | 0 <= i < j < |c.fxSeries|
      ensures WantedFx(c, datasets, pairs)[i].key != WantedFx(c, datasets, pairs)[j].key
    {
      ConfiguredHasRow(datasets, c.datasets, NameKey(c.fxSeries[i].dataset));
      ConfiguredHasRow(datasets, c.datasets, NameKey(c.fxSeries[j].dataset));
    }
    forall i, j | 0 <= i < j < |c.rateSeries|
      ensures WantedRates(c, datasets, economies, currencies)[i].key != WantedRates(c, datasets, economies, currencies)[j].key
    {
      ConfiguredHasRow(datasets, c.datasets, NameKey(c.rateSeries[i].dataset));
      ConfiguredHasRow(datasets, c.datasets, NameKey(c.rateSeries[j].dataset));
    }
  }

  ghost predicate BaseSettled(db: Database, c: Configuration) {
    && Settled(db.currencies, c.currencies) && Settled(db.economies, c.economies) && Settled(db.datasets, c.datasets)
    && Settled(db.pairs, WantedPairs(c, db.currencies))
  }

  ghost predicate DependentSettled(db: Database, c: Configuration) {
    && UniqueKeys(db.relationships)
    && HoldsItems(db.relationships, WantedRelationships(c, db.economies, db.currencies), |c.relationships|)
    && Settled(db.fxSeries, WantedFx(c, db.datasets, db.pairs))
    && Settled(db.rateSeries, WantedRates(c, db.datasets, db.economies, db.currencies))
  }

  predicate KeepsBaseRows(db: Database, after: Database) {
    && KeepsRows(db.currencies, after.currencies) && KeepsRows(db.economies, after.economies)
    && KeepsRows(db.datasets, after.datasets) && KeepsRows(db.pairs, after.pairs)
  }

  lemma BaseSettles(db: Database, c: Configuration)
    requires UniqueTables(db) && Validated(c)
    ensures BaseSettled(Synchronized(db, c), c) && KeepsBaseRows(db, Synchronized(db, c))
  {
    ReconcileSettles(db.currencies, c.currencies);
    ReconcileSettles(db.economies, c.economies);
    ReconcileSettles(db.datasets, c.datasets);
    var wanted := WantedPairs(c, Reconciled(db.currencies, c.currencies));
    ReconcileSettles(db.pairs, wanted);
  }

  lemma RelationshipsSettle(rows: seq<Row>, c: Configuration, economies: seq<Row>, currencies: seq<Row>)
    requires UniqueKeys(rows) && Validated(c)
    requires HoldsItems(economies, c.economies, |c.economies|) && HoldsItems(currencies, c.currencies, |c.currencies|)
    ensures UpsertedSoFar(rows, UpsertedFirst(rows, WantedRelationships(c, economies, currencies), |c.relationships|),
                          WantedRelationships(c, economies, currencies), |c.relationships|)
  {
    DistinctRelationships(c, economies, currencies);
    UpsertFirstKeeps(rows, WantedRelationships(c, economies, currencies), |c.relationships|);
  }

  predicate KeepsDependentRows(db: Database, after: Database) {
    && KeepsRows(db.relationships, after.relationships)
    && KeepsRows(db.fxSeries, after.fxSeries) && KeepsRows(db.rateSeries, after.rateSeries)
  }

  lemma DependentSettles(db: Database, c: Configuration)
    requires UniqueTables(db) && Validated(c) && BaseSettled(Synchronized(db, c), c)
    ensures DependentSettled(Synchronized(db, c), c) && KeepsDependentRows(db, Synchronized(db, c))
  {
    var after := Synchronized(db, c);
    RelationshipsSettle(db.relationships, c, after.economies, after.currencies);
    DistinctSeries(c, after.datasets, after.pairs, after.economies, after.currencies);
    ReconcileSettles(db.fxSeries, WantedFx(c, after.datasets, after.pairs));
    ReconcileSettles(db.rateSeries, WantedRates(c, after.datasets, after.economies, after.currencies));
  }

  // From any database, synchronizing with a validated configuration settles every table and deletes or
  // re-keys no row.
  lemma SynchronizeSettles(db: Database, c: Configuration)
    requires UniqueTables(db) && Validated(c)
    ensures SettledDatabase(Synchronized(db, c), c) && KeepsAllRows(db, Synchronized(db, c))
  {
    BaseSettles(db, c);
    DependentSettles(db, c);
  }

  // Synchronizing a settled database changes nothing and reports (0, 0, 0).
  lemma SettledIsFixed(db: Database, c: Configuration)
    requires SettledDatabase(db, c)
    ensures Synchronized(db, c) == db && SyncTally(db, db, c) == NOTHING_DONE
  {
    SettledStays(db.currencies, c.currencies);
    SettledStays(db.economies, c.economies);
    SettledStays(db.datasets, c.datasets);
    SettledStays(db.pairs, WantedPairs(c, db.currencies));
    SettledUpsert(db.relationships, WantedRelationships(c, db.economies, db.currencies), |c.relationships|);
    SettledStays(db.fxSeries, WantedFx(c, db.datasets, db.pairs));
    SettledStays(db.rateSeries, WantedRates(c, db.datasets, db.economies, db.currencies));
  }

  // A second synchronization is idle.
  lemma SecondSyncIsIdle(db: Database, c: Configuration)
    requires UniqueTables(db) && Validated(c)
    ensures var once := Synchronized(db, c);
            Synchronized(once, c) == once && SyncTally(once, once, c) == NOTHING_DONE
  {
    SynchronizeSettles(db, c);
    SettledIsFixed(Synchronized(db, c), c);
  }

  // A row is active exactly when the configuration has an enabled item of its key.
  ghost predicate ActiveAsConfigured(rows: seq<Row>, wanted: seq<Wanted>) {
    forall p :: 0 <= p < |rows| ==> (rows[p].active <==> EnabledItem(wanted, rows[p].key))
  }

  predicate EnabledItem(wanted: seq<Wanted>, key: Key) {
    exists i :: 0 <= i < |wanted| && wanted[i].key == key && wanted[i].enabled
  }

  lemma SettledIsActiveAsConfigured(rows: seq<Row>, wanted: seq<Wanted>)
    requires Settled(rows, wanted) && DistinctWanted(wanted)
    ensures ActiveAsConfigured(rows, wanted)
  {
    forall p | 0 <= p < |rows| ensures rows[p].active <==> EnabledItem(wanted, rows[p].key) {
      SettledMeansActive(rows, wanted, p);
    }
  }

  ghost predicate AllActiveAsConfigured(db: Database, c: Configuration) {
    && ActiveAsConfigured(db.currencies, c.currencies)
    && ActiveAsConfigured(db.economies, c.economies)
    && ActiveAsConfigured(db.datasets, c.datasets)
    && ActiveAsConfigured(db.pairs, WantedPairs(c, db.currencies))
    && ActiveAsConfigured(db.fxSeries, WantedFx(c, db.datasets, db.pairs))
    && ActiveAsConfigured(db.rateSeries, WantedRates(c, db.datasets, db.economies, db.currencies))
  }

  lemma SettledDatabaseIsActiveAsConfigured(db: Database, c: Configuration)
    requires SettledDatabase(db, c) && Validated(c)
    ensures AllActiveAsConfigured(db, c)
  {
    DistinctSeries(c, db.datasets, db.pairs, db.economies, db.currencies);
    SettledIsActiveAsConfigured(db.currencies, c.currencies);
    SettledIsActiveAsConfigured(db.economies, c.economies);
    SettledIsActiveAsConfigured(db.datasets, c.datasets);
    SettledIsActiveAsConfigured(db.pairs, WantedPairs(c, db.currencies));
    SettledIsActiveAsConfigured(db.fxSeries, WantedFx(c, db.datasets, db.pairs));
    SettledIsActiveAsConfigured(db.rateSeries, WantedRates(c, db.datasets, db.economies, db.currencies));
  }

  // After synchronizing, in every table with an active flag a row is active exactly when it is configured
  // and enabled.
  lemma ActiveExactlyWhenConfigured(db: Database, c: Configuration)
    requires UniqueTables(db) && Validated(c)
    ensures AllActiveAsConfigured(Synchronized(db, c), c)
  {
    SynchronizeSettles(db, c);
    SettledDatabaseIsActiveAsConfigured(Synchronized(db, c), c);
  }
}
