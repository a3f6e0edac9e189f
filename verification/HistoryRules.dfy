/** What one history request answers: its refusals, and the rows and successor of its page. */
module HistoryRules {
  import opened Common
  import opened Observations
  import opened AsOfReads
  import opened Cursors
  import opened Keyset
  import opened Paging

  const FIRST_DAY := CalendarDate(1900, 1, 1)

  // The date range and the page size are allowed.
  predicate InBounds(q: Query, today: int, pageSize: int)
    requires ValidDate(FIRST_DAY)
  {
    && q.start <= q.end && ToDay(FIRST_DAY) <= q.start && q.end <= today && q.end - q.start < 9132
    && 1 <= pageSize <= 500
  }

  // The position a cursor names: the beginning for none or the empty one, nothing for one that does not decode.
  function Named(cursor: Option<string>): Option<Position> {
    if cursor == None || cursor == Some("") then Some(None)
    else match DecodeCursor(cursor.value) case None => None case Some(p) => Some(Some(p))
  }

  // Each refusal has its own condition, checked in this order; all other requests are answered.
  ghost predicate RefusedProperly(answer: Result<Page, QueryError>, q: Query, today: int, cursor: Option<string>, pageSize: int)
    requires ValidDate(FIRST_DAY)
  {
    var first := ToDay(FIRST_DAY);
    match answer
    case Err(InvalidDateRange) => q.end < q.start
    case Err(DateOutOfBounds) => q.start <= q.end && (q.start < first || today < q.end)
    case Err(DateRangeTooLarge) => first <= q.start <= q.end <= today && q.end - q.start >= 9132
    case Err(InvalidPageSize) => first <= q.start <= q.end <= today && q.end - q.start < 9132 && !(1 <= pageSize <= 500)
    case Err(InvalidCursor) => InBounds(q, today, pageSize) && Named(cursor) == None
    case Ok(_) => InBounds(q, today, pageSize) && Named(cursor).Some?
  }

  lemma PageIsRefusedProperly(rows: set<FactRow>, q: Query, today: int, cursor: Option<string>, pageSize: int)
    requires Answerable(CURSORS, rows, q) && today <= MAX_DATE
    ensures ValidDate(FIRST_DAY)
    ensures RefusedProperly(HistoryPage(CURSORS, rows, q, today, cursor, pageSize), q, today, cursor, pageSize)
  {
    assert ToDay(FIRST_DAY) == FIRST_DATE;
    NamedIsPosition(cursor);
  }

  lemma RefusalsMean(store: Store, q: Query, today: int, cursor: Option<string>, pageSize: int)
    requires Sound(store) && today <= MAX_DATE
    ensures ValidDate(FIRST_DAY)
    ensures RefusedProperly(FxHistory(store, q, today, cursor, pageSize), q, today, cursor, pageSize)
  {
    SnapshotAnswerable(store, q);
    PageIsRefusedProperly(Snapshot(store, q), q, today, cursor, pageSize);
  }

  predicate Behind(row: FactRow, after: Position) {
    after == None || row.date > after.value.0 || (row.date == after.value.0 && row.id > after.value.1)
  }

  // The first rows behind the position by date and identifier, at most a page of them; a successor exactly when
  // more rows follow, and then its cursor leads back to the last of these.
  ghost predicate IsPageOf(page: Page, rows: set<FactRow>, after: Position, pageSize: int) {
    && |page.items| <= pageSize
    && (forall i :: 0 <= i < |page.items| ==> page.items[i] in rows && Behind(page.items[i], after))
    && (forall i, j :: 0 <= i < j < |page.items| ==> Behind(page.items[j], Some((page.items[i].date, page.items[i].id))))
    && (forall row :: row in rows && Behind(row, after) && row !in page.items ==> Remains(row, page, pageSize))
    && (page.next.Some? ==> exists row :: row in rows && Behind(row, after) && row !in page.items)
  }

  // A row that is left for later pages.
  ghost predicate Remains(row: FactRow, page: Page, pageSize: int) {
    && page.items != [] && |page.items| == pageSize && page.next.Some? && page.next.value != ""
    && var last := page.items[|page.items| - 1];
       Behind(row, Some((last.date, last.id))) && DecodeCursor(page.next.value) == Some((last.date, last.id))
  }

  lemma BehindIsFollowing(rows: set<FactRow>, after: Position, row: FactRow)
    ensures row in Following(rows, after) <==> row in rows && Behind(row, after)
  {
  }

  // The page cut from the front of a listing.
  lemma FrontIsPage(listing: seq<FactRow>, rows: set<FactRow>, pageSize: nat)
    requires Lists(listing, rows) && 1 <= pageSize
    ensures var (items, next) := FirstPage(listing, pageSize);
            && items == listing[..Min(pageSize, |listing|)]
            && (next.Some? <==> |listing| > pageSize)
            && (next.Some? ==> next.value == (listing[pageSize - 1].date, listing[pageSize - 1].id))
  {
    if |listing| > pageSize + 1 {
      assert listing[..pageSize + 1][..pageSize] == listing[..pageSize];
    }
  }

  lemma LaterRowRemains(listing: seq<FactRow>, pageSize: nat, k: nat, page: Page)
    requires (forall i, j :: 0 <= i < j < |listing| ==> Before(listing[i], listing[j])) && 1 <= pageSize <= k < |listing|
    requires page.items == listing[..pageSize] && page.next.Some? && page.next.value != ""
    requires DecodeCursor(page.next.value) == Some((listing[pageSize - 1].date, listing[pageSize - 1].id))
    ensures Remains(listing[k], page, pageSize)
  {
    assert page.items[pageSize - 1] == listing[pageSize - 1] && Before(listing[pageSize - 1], listing[k]);
  }

  lemma CutIsPage(listing: seq<FactRow>, rows: set<FactRow>, after: Position, pageSize: nat, page: Page)
    requires Lists(listing, Following(rows, after)) && 1 <= pageSize && page.items == listing[..Min(pageSize, |listing|)]
    requires page.next.Some? <==> |listing| > pageSize
    requires page.next.Some? ==>
               && page.next.value != ""
               && DecodeCursor(page.next.value) == Some((listing[pageSize - 1].date, listing[pageSize - 1].id))
    ensures IsPageOf(page, rows, after, pageSize)
  {
    forall i | 0 <= i < |page.items| ensures page.items[i] in rows && Behind(page.items[i], after) {
      assert page.items[i] == listing[i] && listing[i] in listing;
      BehindIsFollowing(rows, after, listing[i]);
    }
    forall i, j | 0 <= i < j < |page.items|
      ensures Behind(page.items[j], Some((page.items[i].date, page.items[i].id)))
    {
      assert Before(listing[i], listing[j]);
    }
    forall row | row in rows && Behind(row, after) && row !in page.items ensures Remains(row, page, pageSize) {
      BehindIsFollowing(rows, after, row);
      var k :| 0 <= k < |listing| && listing[k] == row;
      if k < |page.items| {
        assert false;
      }
      LaterRowRemains(listing, pageSize, k, page);
    }
    if page.next.Some? {
      var row := listing[pageSize];
      assert row in listing;
      BehindIsFollowing(rows, after, row);
      assert forall i :: 0 <= i < pageSize ==> Before(listing[i], row);
    }
  }

  lemma PageOfRows(rows: set<FactRow>, q: Query, today: int, cursor: Option<string>, pageSize: int, after: Position)
    requires Answerable(CURSORS, rows, q) && today <= MAX_DATE && Accepted(q, today, pageSize)
    requires PositionOf(CURSORS, cursor) == Ok(after)
    ensures HistoryPage(CURSORS, rows, q, today, cursor, pageSize).Ok?
    ensures IsPageOf(HistoryPage(CURSORS, rows, q, today, cursor, pageSize).value, rows, after, pageSize)
  {
    HistoryAtPosition(CURSORS, rows, q, today, cursor, pageSize, after);
    var page := HistoryPage(CURSORS, rows, q, today, cursor, pageSize).value;
    var following := Following(rows, after);
    var listing := Sorted(following);
    FrontIsPage(listing, following, pageSize);
    SuccessorDecodes(page.next);
    CutIsPage(listing, rows, after, pageSize, page);
  }

  // A successor that leads to a position is not empty and decodes to it.
  lemma SuccessorDecodes(next: Option<string>)
    ensures next.Some? && PositionOf(CURSORS, next).Ok? && PositionOf(CURSORS, next).value.Some? ==>
              next.value != "" && DecodeCursor(next.value) == PositionOf(CURSORS, next).value
  {
  }

  lemma NamedIsPosition(cursor: Option<string>)
    ensures PositionOf(CURSORS, cursor) == if Named(cursor).Some? then Ok(Named(cursor).value) else Err(InvalidCursor)
  {
  }

  // Main result.  An answered request yields the page behind its cursor's position, of the rows the query sees.
  lemma PageMeans(store: Store, q: Query, today: int, cursor: Option<string>, pageSize: int)
    requires Sound(store) && today <= MAX_DATE && FxHistory(store, q, today, cursor, pageSize).Ok?
    ensures Named(cursor).Some?
    ensures IsPageOf(FxHistory(store, q, today, cursor, pageSize).value, Snapshot(store, q), Named(cursor).value, pageSize)
  {
    RefusalsMean(store, q, today, cursor, pageSize);
    SnapshotAnswerable(store, q);
    NamedIsPosition(cursor);
    BoundsAreAccepted(q, today, pageSize);
    PageOfRows(Snapshot(store, q), q, today, cursor, pageSize, Named(cursor).value);
  }

  lemma BoundsAreAccepted(q: Query, today: int, pageSize: int)
    requires ValidDate(FIRST_DAY)
    ensures InBounds(q, today, pageSize) <==> Accepted(q, today, pageSize)
  {
  }
}
