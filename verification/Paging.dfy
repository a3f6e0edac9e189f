/** Keyset pagination of a history as of one instant: `app/application/queries/observations.py`. */
module Paging {
  import opened Common
  import opened Observations
  import opened AsOfReads
  import opened Cursors
  import opened Keyset

  // `series` are the series joined to the requested pair; the tables behind that join do not change.
  datatype Query = Query(series: set<nat>, start: int, end: int, asOf: int)

  // A returned row: its sort key and the columns no later persist rewrites.
  type FactRow = Row<Facts>

  datatype Page = Page(items: seq<FactRow>, next: Option<string>)

  datatype QueryError =
    | InvalidDateRange | DateOutOfBounds | DateRangeTooLarge | InvalidPageSize | InvalidCursor

  const FIRST_DATE := -25_567  // 1900-01-01
  const MAXIMUM_DAYS := 9132
  const MAXIMUM_PAGE := 500

  // --------------------------------------------------------------------------------------------
  // The rows a query joins
  // --------------------------------------------------------------------------------------------

  predicate Selected(store: Store, q: Query, key: NaturalKey, i: int) {
    && key in store.observations
    && 0 <= i < |store.observations[key].versions|
    && key.series in q.series
    && q.start <= key.date <= q.end
    && key.date <= DateOf(q.asOf)
    && VisibleAt(store.observations[key].versions[i], q.asOf)
  }

  function RowAt(store: Store, key: NaturalKey, i: int): FactRow
    requires key in store.observations && 0 <= i < |store.observations[key].versions|
  {
    var o := store.observations[key];
    Row(key.date, o.id, FactsOf(o.versions[i]))
  }

  // One row per joined version, without the filter on validation states.
  ghost function Unfiltered(store: Store, q: Query): set<FactRow> {
    set key, i | key in store.observations && 0 <= i < |store.observations[key].versions| && Selected(store, q, key, i)
      :: RowAt(store, key, i)
  }

  // `_fx_query`: only valid and valid-with-warnings versions.
  ghost function Snapshot(store: Store, q: Query): set<FactRow> {
    set row | row in Unfiltered(store, q) && !row.body.payload.state.Invalid?
  }

  lemma InUnfiltered(store: Store, q: Query, row: FactRow)
    ensures row in Unfiltered(store, q) <==>
            exists key, i :: Selected(store, q, key, i) && row == RowAt(store, key, i)
  {
    if key, i :| Selected(store, q, key, i) && row == RowAt(store, key, i) {
      assert key in store.observations && 0 <= i < |store.observations[key].versions|;
    }
  }

  // In a reachable store the validation-state filter never drops a row.
  lemma FilterDropsNothing(store: Store, q: Query)
    requires WellFormedStore(store)
    ensures Snapshot(store, q) == Unfiltered(store, q)
  {
    forall row | row in Unfiltered(store, q) ensures !row.body.payload.state.Invalid? {
      InUnfiltered(store, q, row);
      var key, i :| Selected(store, q, key, i) && row == RowAt(store, key, i);
      assert WellFormed(store.observations[key]);
    }
  }

  // --------------------------------------------------------------------------------------------
  // One page
  // --------------------------------------------------------------------------------------------

  predicate Accepted(q: Query, today: int, pageSize: int) {
    && q.start <= q.end
    && FIRST_DATE <= q.start
    && q.end <= today
    && q.end - q.start + 1 <= MAXIMUM_DAYS
    && 1 <= pageSize <= MAXIMUM_PAGE
  }

  // The identifiers a store uses fit in 128 bits and are not shared.
  ghost predicate ProperIds(store: Store) {
    && (forall key :: key in store.observations ==> store.observations[key].id < UUID_LIMIT)
    && (forall a, b :: a in store.observations && b in store.observations && a != b ==>
          store.observations[a].id != store.observations[b].id)
  }

  ghost predicate Sound(store: Store) {
    WellFormedStore(store) && ProperIds(store)
  }

  lemma RowKeyIdentifiesRow(store: Store, q: Query, k: NaturalKey, i: int, l: NaturalKey, j: int)
    requires Sound(store) && Selected(store, q, k, i) && Selected(store, q, l, j)
    requires store.observations[k].id == store.observations[l].id
    ensures k == l && i == j
  {
    VisibleIsUnique(store.observations[k], q.asOf, i, j);
  }

  // A row of the snapshot is a selected version.
  lemma SnapshotRow(store: Store, q: Query, row: FactRow) returns (key: NaturalKey, i: int)
    requires row in Snapshot(store, q)
    ensures Selected(store, q, key, i) && row == RowAt(store, key, i)
  {
    InUnfiltered(store, q, row);
    key, i :| Selected(store, q, key, i) && row == RowAt(store, key, i);
  }

  lemma SnapshotKeysDistinct(store: Store, q: Query)
    requires Sound(store)
    ensures DistinctKeys(Snapshot(store, q))
  {
    forall a, b | a in Snapshot(store, q) && b in Snapshot(store, q) && a != b
      ensures a.id != b.id
    {
      var k, i := SnapshotRow(store, q, a);
      var l, j := SnapshotRow(store, q, b);
      if a.id == b.id {
        RowKeyIdentifiesRow(store, q, k, i, l, j);
      }
    }
  }

  // How positions become opaque text and back; None from `decode` is the INVALID_CURSOR error.
  datatype Codec = Codec(encode: (int, nat) --> string, decode: string -> Option<(int, nat)>)

  const CURSORS := Codec((d: int, id: nat) requires Encodable(d, id) => EncodeCursor(d, id), DecodeCursor)

  // Rows that can be ordered and, within accepted dates, named by a cursor that leads back to them.
  ghost predicate Answerable(codec: Codec, rows: set<FactRow>, q: Query) {
    && DistinctKeys(rows)
    && (FIRST_DATE <= q.start && q.end <= MAX_DATE ==> forall row :: row in rows ==> Nameable(codec, row))
  }

  ghost predicate Nameable(codec: Codec, row: FactRow) {
    && codec.encode.requires(row.date, row.id)
    && var text := codec.encode(row.date, row.id);
       text != "" && codec.decode(text) == Some((row.date, row.id))
  }

  lemma SnapshotRowIsEncodable(store: Store, q: Query, row: FactRow)
    requires Sound(store) && row in Snapshot(store, q) && FIRST_DATE <= q.start && q.end <= MAX_DATE
    ensures Encodable(row.date, row.id)
  {
    var key, i := SnapshotRow(store, q, row);
  }

  lemma EncodableIsNameable(row: FactRow)
    requires Encodable(row.date, row.id)
    ensures Nameable(CURSORS, row)
  {
    CursorRoundTrip(row.date, row.id);
  }

  lemma SnapshotAnswerable(store: Store, q: Query)
    requires Sound(store)
    ensures Answerable(CURSORS, Snapshot(store, q), q)
  {
    SnapshotKeysDistinct(store, q);
    if FIRST_DATE <= q.start && q.end <= MAX_DATE {
      forall row | row in Snapshot(store, q) ensures Nameable(CURSORS, row) {
        SnapshotRowIsEncodable(store, q, row);
        EncodableIsNameable(row);
      }
    }
  }

  // `_after_cursor`: no cursor and the empty cursor both start at the beginning.
  function PositionOf(codec: Codec, cursor: Option<string>): Result<Position, QueryError> {
    if cursor.None? || cursor.value == "" then Ok(None)
    else
      var decoded := codec.decode(cursor.value);
      if decoded.None? then Err(InvalidCursor) else Ok(decoded)
  }

  // The page computed from the rows a query sees.
  ghost function HistoryPage(codec: Codec, rows: set<FactRow>, q: Query, today: int, cursor: Option<string>,
                             pageSize: int): Result<Page, QueryError>
    requires Answerable(codec, rows, q) && today <= MAX_DATE
  {
    if q.start > q.end then Err(InvalidDateRange)
    else if q.start < FIRST_DATE then Err(DateOutOfBounds)
    else if q.end > today then Err(DateOutOfBounds)
    else if q.end - q.start + 1 > MAXIMUM_DAYS then Err(DateRangeTooLarge)
    else if pageSize < 1 || pageSize > MAXIMUM_PAGE then Err(InvalidPageSize)
    else
      var after := PositionOf(codec, cursor);
      if after.Err? then Err(after.error)
      else
        var (items, next) := PageAfter(rows, after.value, pageSize);
        if next.None? then Ok(Page(items, None))
        else
          assert exists row :: row in rows && Nameable(codec, row) && next.value == (row.date, row.id);
          Ok(Page(items, Some(codec.encode(next.value.0, next.value.1))))
  }

  ghost function FxHistory(store: Store, q: Query, today: int, cursor: Option<string>, pageSize: int)
    : Result<Page, QueryError>
    requires Sound(store) && today <= MAX_DATE
  {
    SnapshotAnswerable(store, q);
    HistoryPage(CURSORS, Snapshot(store, q), q, today, cursor, pageSize)
  }

  // --------------------------------------------------------------------------------------------
  // Stability of the snapshot
  // --------------------------------------------------------------------------------------------

  predicate FreshId(store: Store, p: PersistCall) {
    p.key in store.observations ||
    (p.newId < UUID_LIMIT && forall key :: key in store.observations ==> store.observations[key].id != p.newId)
  }

  predicate FreshIds(store: Store, calls: seq<PersistCall>)
    decreases |calls|
  {
    calls == [] || (FreshId(store, calls[0]) && FreshIds(Step(store, calls[0]), calls[1..]))
  }

  lemma ApplyKeepsId(o: Observation, s: Sighting)
    ensures Apply(o, s).Ok? ==> Apply(o, s).value.0.id == o.id
  {
  }

  lemma RowUpdateKeepsIds(store: Store, next: Store, key: NaturalKey, row: Observation)
    requires ProperIds(store) && next.observations == store.observations[key := row] && row.id < UUID_LIMIT
    requires forall k :: k in store.observations && k != key ==> store.observations[k].id != row.id
    ensures ProperIds(next)
  {
  }

  lemma StepKeepsSound(store: Store, p: PersistCall)
    requires Sound(store) && FreshId(store, p)
    ensures Sound(Step(store, p))
  {
    StepKeepsTimelines(store, p);
    if Persist(store, p).Ok? {
      StepRewritesRow(store, p);
      ApplyKeepsId(RowFor(store, p), SightingOf(p));
      RowUpdateKeepsIds(store, Step(store, p), p.key, Apply(RowFor(store, p), SightingOf(p)).value.0);
    }
  }

  // The rows of one observation as of t, before and after a persist with a later retrieval time.
  lemma ApplyKeepsRows(o: Observation, s: Sighting, t: int)
    requires WellFormed(o) && Apply(o, s).Ok? && t < s.at
    ensures var after := Apply(o, s).value.0;
            && after.id == o.id
            && |o.versions| <= |after.versions|
            && (forall i :: 0 <= i < |o.versions| ==>
                  && FactsOf(after.versions[i]) == FactsOf(o.versions[i])
                  && (VisibleAt(after.versions[i], t) <==> VisibleAt(o.versions[i], t)))
            && (forall i :: |o.versions| <= i < |after.versions| ==> !VisibleAt(after.versions[i], t))
  {
  }

  lemma StepKeepsSelection(store: Store, p: PersistCall, q: Query, key: NaturalKey, i: int)
    requires WellFormedStore(store) && q.asOf < p.at
    ensures Selected(Step(store, p), q, key, i) <==> Selected(store, q, key, i)
    ensures Selected(store, q, key, i) ==> RowAt(Step(store, p), key, i) == RowAt(store, key, i)
  {
    if Persist(store, p).Ok? && key == p.key {
      ApplyKeepsRows(RowFor(store, p), SightingOf(p), q.asOf);
    }
  }

  lemma StepKeepsSnapshot(store: Store, p: PersistCall, q: Query)
    requires WellFormedStore(store) && q.asOf < p.at
    ensures Snapshot(Step(store, p), q) == Snapshot(store, q)
  {
    var next := Step(store, p);
    forall row ensures row in Unfiltered(next, q) <==> row in Unfiltered(store, q) {
      InUnfiltered(next, q, row);
      InUnfiltered(store, q, row);
      if row in Unfiltered(next, q) {
        var key, i :| Selected(next, q, key, i) && row == RowAt(next, key, i);
        StepKeepsSelection(store, p, q, key, i);
      }
      if row in Unfiltered(store, q) {
        var key, i :| Selected(store, q, key, i) && row == RowAt(store, key, i);
        StepKeepsSelection(store, p, q, key, i);
      }
    }
  }

  ghost predicate LaterThan(calls: seq<PersistCall>, t: int) {
    forall p :: p in calls ==> t < p.at
  }

  lemma {:induction false} RunKeepsSnapshot(store: Store, calls: seq<PersistCall>, q: Query)
    requires Sound(store) && FreshIds(store, calls) && LaterThan(calls, q.asOf)
    ensures Sound(Run(store, calls)) && Snapshot(Run(store, calls), q) == Snapshot(store, q)
    decreases |calls|
  {
    if calls != [] {
      StepKeepsSnapshot(store, calls[0], q);
      StepKeepsSound(store, calls[0]);
      RunKeepsSnapshot(Step(store, calls[0]), calls[1..], q);
    }
  }

  // --------------------------------------------------------------------------------------------
  // The walk
  // --------------------------------------------------------------------------------------------

  // The store became another one through persists retrieved after t.
  ghost predicate GrowsTo(store: Store, next: Store, t: int) {
    exists calls :: FreshIds(store, calls) && LaterThan(calls, t) && next == Run(store, calls)
  }

  // How the k-th request of a walk is answered.
  type Fetch = (nat, Option<string>) -> Result<Page, QueryError>

  // What a client collects from request k on, until a page has no successor or its n requests are spent.
  ghost function Collect(fetch: Fetch, k: nat, n: nat, cursor: Option<string>): Result<Walk<Facts>, QueryError>
    requires k < n
    decreases n - k
  {
    var page := fetch(k, cursor);
    if page.Err? then Err(page.error)
    else if page.value.next.None? then Ok(Walk(page.value.items, true))
    else if k + 1 == n then Ok(Walk(page.value.items, false))
    else
      var rest := Collect(fetch, k + 1, n, page.value.next);
      if rest.Err? then rest else Ok(Walk(page.value.items + rest.value.rows, rest.value.done))
  }

  // The requests of one walk: each sees the store and the date of its own moment.
  ghost predicate Answering(stores: seq<Store>, todays: seq<int>) {
    && |stores| == |todays|
    && (forall k :: 0 <= k < |stores| ==> Sound(stores[k]) && todays[k] <= MAX_DATE)
  }

  ghost function FxFetch(stores: seq<Store>, todays: seq<int>, q: Query, pageSize: int): Fetch
    requires Answering(stores, todays)
  {
    (k: nat, cursor: Option<string>) =>
      if k < |stores| then FxHistory(stores[k], q, todays[k], cursor, pageSize) else Err(InvalidCursor)
  }

  // One page of text cursors is one page of positions.
  lemma HistoryAtPosition(codec: Codec, rows: set<FactRow>, q: Query, today: int, cursor: Option<string>, pageSize: int,
                          after: Position)
    requires Answerable(codec, rows, q)
    requires Accepted(q, today, pageSize) && today <= MAX_DATE && PositionOf(codec, cursor) == Ok(after)
    ensures HistoryPage(codec, rows, q, today, cursor, pageSize).Ok?
    ensures var page := HistoryPage(codec, rows, q, today, cursor, pageSize).value;
            var (items, next) := PageAfter(rows, after, pageSize);
            && page.items == items
            && (page.next.None? <==> next.None?)
            && PositionOf(codec, page.next) == Ok(next)
  {
    var next := PageAfter(rows, after, pageSize).1;
    if next.Some? {
      var row :| row in rows && next.value == (row.date, row.id);
      assert Nameable(codec, row);
    }
  }

  // A request whose cursor names a position is answered with that position's page.
  ghost predicate Serves(fetch: Fetch, page: Position -> (seq<FactRow>, Position),
                         position: Option<string> -> Result<Position, QueryError>, k: nat, cursor: Option<string>)
  {
    position(cursor).Ok? ==>
      var (items, next) := page(position(cursor).value);
      var answer := fetch(k, cursor);
      && answer.Ok? && answer.value.items == items
      && (answer.value.next.None? <==> next.None?)
      && position(answer.value.next) == Ok(next)
  }

  ghost predicate AllServed(fetch: Fetch, page: Position -> (seq<FactRow>, Position),
                            position: Option<string> -> Result<Position, QueryError>, n: nat)
  {
    forall k: nat, cursor :: k < n ==> Serves(fetch, page, position, k, cursor)
  }

  // The passage of positions through opaque text changes nothing a walk collects.
  lemma {:induction false} CollectIgnoresText(
    fetch: Fetch, page: Position -> (seq<FactRow>, Position), position: Option<string> -> Result<Position, QueryError>,
    k: nat, n: nat, cursor: Option<string>)
    requires k < n && AllServed(fetch, page, position, n)
    requires position(cursor).Ok?
    ensures Collect(fetch, k, n, cursor) == Ok(CollectPages(page, position(cursor).value, n - k - 1))
    decreases n - k
  {
    assert Serves(fetch, page, position, k, cursor);
    var answer := fetch(k, cursor).value;
    if answer.next.Some? && k + 1 < n {
      CollectIgnoresText(fetch, page, position, k + 1, n, answer.next);
    }
  }

  lemma {:induction false} GrowthKeepsSnapshot(stores: seq<Store>, q: Query, k: nat)
    requires k < |stores| && Sound(stores[0])
    requires forall i, j :: 0 <= i && j == i + 1 && j < |stores| ==> GrowsTo(stores[i], stores[j], q.asOf)
    ensures Sound(stores[k]) && Snapshot(stores[k], q) == Snapshot(stores[0], q)
  {
    if k > 0 {
      GrowthKeepsSnapshot(stores, q, k - 1);
      assert GrowsTo(stores[k - 1], stores[k], q.asOf);
      var calls :| FreshIds(stores[k - 1], calls) && LaterThan(calls, q.asOf) && stores[k] == Run(stores[k - 1], calls);
      RunKeepsSnapshot(stores[k - 1], calls, q);
    }
  }

  // A request answered by a page of the rows serves the position its cursor names.
  lemma PageServes(codec: Codec, fetch: Fetch, rows: set<FactRow>, q: Query, today: int, pageSize: int, k: nat,
                   cursor: Option<string>)
    requires Answerable(codec, rows, q) && Accepted(q, today, pageSize) && today <= MAX_DATE
    requires fetch(k, cursor) == HistoryPage(codec, rows, q, today, cursor, pageSize)
    ensures Serves(fetch, Pager(rows, pageSize), PositionBy(codec), k, cursor)
  {
    var after := PositionOf(codec, cursor);
    if after.Ok? {
      HistoryAtPosition(codec, rows, q, today, cursor, pageSize, after.value);
    }
  }

  function PositionBy(codec: Codec): Option<string> -> Result<Position, QueryError> {
    cursor => PositionOf(codec, cursor)
  }

  lemma FetchIsPage(stores: seq<Store>, todays: seq<int>, q: Query, pageSize: int, k: nat, cursor: Option<string>)
    requires Answering(stores, todays) && k < |stores|
    ensures Answerable(CURSORS, Snapshot(stores[k], q), q)
    ensures FxFetch(stores, todays, q, pageSize)(k, cursor) ==
            HistoryPage(CURSORS, Snapshot(stores[k], q), q, todays[k], cursor, pageSize)
  {
    SnapshotAnswerable(stores[k], q);
  }

  // The stores and dates a walk meets: the store grows by persists retrieved after t, and days go by.
  ghost predicate Course(stores: seq<Store>, todays: seq<int>, t: int) {
    && stores != [] && |todays| == |stores| && Sound(stores[0])
    && (forall i, j :: 0 <= i && j == i + 1 && j < |stores| ==> GrowsTo(stores[i], stores[j], t))
    && (forall k :: 0 <= k < |todays| ==> todays[0] <= todays[k] <= MAX_DATE)
  }

  lemma CourseIsSteady(stores: seq<Store>, todays: seq<int>, q: Query)
    requires Course(stores, todays, q.asOf)
    ensures Answering(stores, todays)
    ensures forall k :: 0 <= k < |stores| ==> Snapshot(stores[k], q) == Snapshot(stores[0], q)
  {
    forall k | 0 <= k < |stores| ensures Sound(stores[k]) && Snapshot(stores[k], q) == Snapshot(stores[0], q) {
      GrowthKeepsSnapshot(stores, q, k);
    }
  }

  lemma WalkServes(codec: Codec, stores: seq<Store>, todays: seq<int>, q: Query, pageSize: int, rows: set<FactRow>)
    requires codec == CURSORS
    requires Answering(stores, todays) && Answerable(codec, rows, q) && 1 <= pageSize
    requires forall k :: 0 <= k < |stores| ==> Accepted(q, todays[k], pageSize) && Snapshot(stores[k], q) == rows
    ensures AllServed(FxFetch(stores, todays, q, pageSize), Pager(rows, pageSize), PositionBy(codec), |stores|)
  {
    var fetch := FxFetch(stores, todays, q, pageSize);
    forall k: nat, cursor: Option<string> | k < |stores|
      ensures Serves(fetch, Pager(rows, pageSize), PositionBy(codec), k, cursor)
    {
      FetchIsPage(stores, todays, q, pageSize, k, cursor);
      PageServes(codec, fetch, rows, q, todays[k], pageSize, k, cursor);
    }
  }

  lemma WalkYields(fetch: Fetch, position: Option<string> -> Result<Position, QueryError>, rows: set<FactRow>,
                   pageSize: nat, n: nat)
    requires DistinctKeys(rows) && 1 <= pageSize && 1 <= n && |rows| <= pageSize * n
    requires position(None) == Ok(None) && AllServed(fetch, Pager(rows, pageSize), position, n)
    ensures Collect(fetch, 0, n, None) == Ok(Walk(Sorted(rows), true))
  {
    RowsAreProduct(pageSize, n);
    CollectIgnoresText(fetch, Pager(rows, pageSize), position, 0, n, None);
    CollectAll(rows, pageSize, n - 1);
  }

  // The walk over stores that all show the same rows.
  lemma WalkOverRows(codec: Codec, stores: seq<Store>, todays: seq<int>, q: Query, pageSize: int, rows: set<FactRow>)
    requires codec == CURSORS && stores != []
    requires Answering(stores, todays) && Answerable(codec, rows, q) && 1 <= pageSize && |rows| <= pageSize * |stores|
    requires forall k :: 0 <= k < |stores| ==> Accepted(q, todays[k], pageSize) && Snapshot(stores[k], q) == rows
    ensures Collect(FxFetch(stores, todays, q, pageSize), 0, |stores|, None) == Ok(Walk(Sorted(rows), true))
  {
    WalkServes(codec, stores, todays, q, pageSize, rows);
    WalkYields(FxFetch(stores, todays, q, pageSize), PositionBy(codec), rows, pageSize, |stores|);
  }

  // Walking the FX history of one query with a fixed instant, while the store grows and days go by between
  // requests, ends after at most ceil(n / pageSize) pages and yields exactly the sorted snapshot.
  lemma WalkIsSnapshot(stores: seq<Store>, todays: seq<int>, q: Query, pageSize: int)
    requires Course(stores, todays, q.asOf) && Accepted(q, todays[0], pageSize)
    requires |Snapshot(stores[0], q)| <= pageSize * |stores|
    ensures Answering(stores, todays)
    ensures var walk := Collect(FxFetch(stores, todays, q, pageSize), 0, |stores|, None);
            walk.Ok? && walk.value.done && Lists(walk.value.rows, Snapshot(stores[0], q))
  {
    CourseIsSteady(stores, todays, q);
    SnapshotAnswerable(stores[0], q);
    WalkOverRows(CURSORS, stores, todays, q, pageSize, Snapshot(stores[0], q));
  }

  ghost predicate IsAsOfRow(store: Store, q: Query, key: NaturalKey, row: FactRow) {
    && key in store.observations && key.series in q.series && q.start <= key.date <= q.end
    && var found := AsOf(store, key, q.asOf);
       found.Some? && row == Row(key.date, store.observations[key].id, FactsOf(found.value))
  }

  lemma AsOfRowIsSelected(store: Store, q: Query, key: NaturalKey, row: FactRow)
    requires WellFormedStore(store) && IsAsOfRow(store, q, key, row)
    ensures row in Unfiltered(store, q)
  {
    var o := store.observations[key];
    FirstVisibleFinds(o.versions, q.asOf);
    var v := AsOf(store, key, q.asOf).value;
    var i :| 0 <= i < |o.versions| && o.versions[i] == v && VisibleAt(v, q.asOf);
    assert Selected(store, q, key, i) && row == RowAt(store, key, i);
    InUnfiltered(store, q, row);
  }

  lemma SelectedIsAsOfRow(store: Store, q: Query, key: NaturalKey, i: int)
    requires WellFormedStore(store) && Selected(store, q, key, i)
    ensures IsAsOfRow(store, q, key, RowAt(store, key, i))
  {
    VisibleIsFound(store.observations[key], q.asOf, i);
  }

  // The joined rows are exactly the versions `as_of` returns for the observations in range.
  lemma SnapshotIsAsOf(store: Store, q: Query, row: FactRow)
    requires WellFormedStore(store)
    ensures row in Snapshot(store, q) <==> exists key :: IsAsOfRow(store, q, key, row)
  {
    FilterDropsNothing(store, q);
    if row in Snapshot(store, q) {
      var key, i := SnapshotRow(store, q, row);
      SelectedIsAsOfRow(store, q, key, i);
    }
    if key :| IsAsOfRow(store, q, key, row) {
      AsOfRowIsSelected(store, q, key, row);
    }
  }
}
