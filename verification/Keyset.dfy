/** Keyset pagination over rows ordered by (date, id): the order, one page, and a whole walk. */
module Keyset {
  import opened Common

  datatype Row<T> = Row(date: int, id: nat, body: T)

  // --------------------------------------------------------------------------------------------
  // ORDER BY observation_date, id
  // --------------------------------------------------------------------------------------------

  predicate Precedes<T>(d: int, id: nat, row: Row<T>) {
    d < row.date || (d == row.date && id < row.id)
  }

  predicate Before<T>(a: Row<T>, b: Row<T>) {
    Precedes(a.date, a.id, b)
  }

  ghost predicate DistinctKeys<T(!new)>(rows: set<Row<T>>) {
    forall a, b :: a in rows && b in rows && a != b ==> Before(a, b) || Before(b, a)
  }

  ghost predicate Lists<T(!new)>(listing: seq<Row<T>>, rows: set<Row<T>>) {
    && (forall i, j :: 0 <= i < j < |listing| ==> Before(listing[i], listing[j]))
    && (forall row :: row in rows <==> row in listing)
  }

  lemma {:induction false} LeastRow<T(!new)>(rows: set<Row<T>>) returns (least: Row<T>)
    requires rows != {} && DistinctKeys(rows)
    ensures least in rows && forall row :: row in rows && row != least ==> Before(least, row)
  {
    var any :| any in rows;
    if rows == {any} {
      least := any;
    } else {
      var rest := LeastRow(rows - {any});
      least := if Before(any, rest) then any else rest;
      forall row | row in rows && row != least ensures Before(least, row) {
        assert row == any || row == rest || Before(rest, row);
      }
    }
  }

  lemma {:induction false} ListingExists<T(!new)>(rows: set<Row<T>>) returns (listing: seq<Row<T>>)
    requires DistinctKeys(rows)
    ensures Lists(listing, rows) && |listing| == |rows|
  {
    if rows == {} {
      listing := [];
    } else {
      var least := LeastRow(rows);
      var rest := ListingExists(rows - {least});
      listing := [least] + rest;
      assert forall i :: 0 < i < |listing| ==> listing[i] == rest[i - 1] && rest[i - 1] in rows;
    }
  }

  // The one listing of the rows in key order.
  ghost function Sorted<T(!new)>(rows: set<Row<T>>): (listing: seq<Row<T>>)
    requires DistinctKeys(rows)
    ensures Lists(listing, rows) && |listing| == |rows|
  {
    assert exists listing :: Lists(listing, rows) && |listing| == |rows| by {
      var listing := ListingExists(rows);
    }
    var listing :| Lists(listing, rows) && |listing| == |rows|;
    listing
  }

  lemma {:induction false} ListingIsUnique<T(!new)>(a: seq<Row<T>>, b: seq<Row<T>>, rows: set<Row<T>>)
    requires Lists(a, rows) && Lists(b, rows)
    ensures a == b
  {
    EmptyListing(a, rows);
    EmptyListing(b, rows);
    if rows != {} {
      assert a[0] in b && b[0] in a;
      var rest := rows - {a[0]};
      TailLists(a, rows);
      TailLists(b, rows);
      ListingIsUnique(a[1..], b[1..], rest);
    }
  }

  lemma EmptyListing<T(!new)>(listing: seq<Row<T>>, rows: set<Row<T>>)
    requires Lists(listing, rows)
    ensures listing == [] <==> rows == {}
  {
    if listing != [] {
      assert listing[0] in listing;
    }
  }

  lemma TailLists<T(!new)>(a: seq<Row<T>>, rows: set<Row<T>>)
    requires Lists(a, rows) && a != []
    ensures Lists(a[1..], rows - {a[0]})
  {
    forall row ensures row in rows - {a[0]} <==> row in a[1..] {
      if row in a[1..] {
        var i :| 0 <= i < |a| - 1 && a[1..][i] == row;
        assert a[i + 1] == row && Before(a[0], row);
      }
      if row in rows - {a[0]} {
        var i :| 0 <= i < |a| && a[i] == row;
        assert a[1..][i - 1] == row;
      }
    }
  }

  // A position in the order, as a cursor decodes to; None is the beginning.
  type Position = Option<(int, nat)>

  ghost function Following<T(!new)>(rows: set<Row<T>>, after: Position): set<Row<T>> {
    if after.None? then rows else set row | row in rows && Precedes(after.value.0, after.value.1, row)
  }

  // LIMIT pageSize + 1, then `_page`: the extra row only tells that there is a next page.
  function FirstPage<T>(listing: seq<Row<T>>, pageSize: nat): (page: (seq<Row<T>>, Position))
    requires 1 <= pageSize
    ensures page.1.Some? ==> exists row :: row in listing && page.1.value == (row.date, row.id)
  {
    var fetched := if |listing| <= pageSize + 1 then listing else listing[..pageSize + 1];
    if |fetched| > pageSize then
      var last := fetched[pageSize - 1];
      assert last == listing[pageSize - 1] && last in listing;
      (fetched[..pageSize], Some((last.date, last.id)))
    else (fetched, None)
  }

  // ORDER BY date and id, from behind a position on.
  ghost function PageAfter<T(!new)>(rows: set<Row<T>>, after: Position, pageSize: nat): (page: (seq<Row<T>>, Position))
    requires DistinctKeys(rows) && 1 <= pageSize
    ensures page.1.Some? ==> exists row :: row in rows && page.1.value == (row.date, row.id)
  {
    FirstPage(Sorted(Following(rows, after)), pageSize)
  }

  // What a client collects; `done` tells whether the last page was reached.
  datatype Walk<T> = Walk(rows: seq<Row<T>>, done: bool)

  // The pages of rows that never change, by position.
  ghost function Pager<T(!new)>(rows: set<Row<T>>, pageSize: nat): Position -> (seq<Row<T>>, Position)
    requires DistinctKeys(rows) && 1 <= pageSize
  {
    (after: Position) => PageAfter(rows, after, pageSize)
  }

  // A walk from page to page by position instead of opaque text.
  ghost function CollectPages<T>(page: Position -> (seq<Row<T>>, Position), after: Position, refetches: nat): Walk<T>
    decreases refetches
  {
    var (items, next) := page(after);
    if next.None? then Walk(items, true)
    else if refetches == 0 then Walk(items, false)
    else
      var rest := CollectPages(page, next, refetches - 1);
      Walk(items + rest.rows, rest.done)
  }

  // The rows after the k-th of a listing are exactly those its key precedes.
  lemma SuffixLists<T(!new)>(listing: seq<Row<T>>, rows: set<Row<T>>, k: nat)
    requires Lists(listing, rows) && 1 <= k <= |listing|
    ensures Lists(listing[k..], Following(rows, Some((listing[k - 1].date, listing[k - 1].id))))
  {
    var last := listing[k - 1];
    forall row ensures (row in rows && Precedes(last.date, last.id, row)) <==> row in listing[k..] {
      if row in rows && Precedes(last.date, last.id, row) {
        var i :| 0 <= i < |listing| && listing[i] == row;
        assert i < k - 1 ==> Before(listing[i], listing[k - 1]);
        assert listing[k..][i - k] == row;
      }
      if row in listing[k..] {
        var i :| 0 <= i < |listing| - k && listing[k..][i] == row;
        assert listing[k + i] == row && Before(listing[k - 1], listing[k + i]);
      }
    }
  }

  function PositionAt<T>(listing: seq<Row<T>>, k: nat): Position
    requires k <= |listing|
  {
    if k == 0 then None else Some((listing[k - 1].date, listing[k - 1].id))
  }

  // The page that starts behind the k-th row of a listing.
  function PageOf<T>(listing: seq<Row<T>>, k: nat, pageSize: nat): (seq<Row<T>>, Position)
    requires k <= |listing|
  {
    if |listing| - k <= pageSize then (listing[k..], None)
    else (listing[k..k + pageSize], PositionAt(listing, k + pageSize))
  }

  lemma FirstPageOfSuffix<T>(listing: seq<Row<T>>, k: nat, pageSize: nat)
    requires k <= |listing| && 1 <= pageSize
    ensures FirstPage(listing[k..], pageSize) == PageOf(listing, k, pageSize)
  {
    if |listing| - k > pageSize {
      assert listing[k..][pageSize - 1] == listing[k + pageSize - 1];
      assert listing[k..][..pageSize] == listing[k..k + pageSize];
      assert |listing| - k > pageSize + 1 ==> listing[k..][..pageSize + 1][..pageSize] == listing[k..k + pageSize];
    }
  }

  lemma PageAtPosition<T(!new)>(rows: set<Row<T>>, listing: seq<Row<T>>, k: nat, pageSize: nat)
    requires DistinctKeys(rows) && Lists(listing, rows) && k <= |listing| && 1 <= pageSize
    ensures PageAfter(rows, PositionAt(listing, k), pageSize) == PageOf(listing, k, pageSize)
  {
    if k > 0 {
      SuffixLists(listing, rows, k);
    } else {
      assert listing[k..] == listing;
    }
    var following := Following(rows, PositionAt(listing, k));
    ListingIsUnique(Sorted(following), listing[k..], following);
    FirstPageOfSuffix(listing, k, pageSize);
  }

  // How many rows so many full pages hold.
  function Rows(pageSize: nat, pages: nat): nat {
    if pages == 0 then 0 else Rows(pageSize, pages - 1) + pageSize
  }

  lemma {:induction false} RowsAreProduct(pageSize: nat, pages: nat)
    ensures Rows(pageSize, pages) == pageSize * pages
  {
    if pages > 0 {
      RowsAreProduct(pageSize, pages - 1);
      assert pageSize * pages == pageSize * (pages - 1) + pageSize;
    }
  }

  lemma {:induction false} CollectFrom<T>(page: Position -> (seq<Row<T>>, Position), listing: seq<Row<T>>, k: nat,
                                          pageSize: nat, refetches: nat)
    requires k <= |listing| && 1 <= pageSize
    requires forall j: nat :: j <= |listing| ==> page(PositionAt(listing, j)) == PageOf(listing, j, pageSize)
    requires |listing| - k <= Rows(pageSize, refetches + 1)
    ensures CollectPages(page, PositionAt(listing, k), refetches) == Walk(listing[k..], true)
    decreases refetches
  {
    if |listing| - k > pageSize {
      CollectFrom(page, listing, k + pageSize, pageSize, refetches - 1);
      assert listing[k..] == listing[k..k + pageSize] + listing[k + pageSize..];
    }
  }

  // Walking rows that never change yields their listing.
  lemma CollectAll<T(!new)>(rows: set<Row<T>>, pageSize: nat, refetches: nat)
    requires DistinctKeys(rows) && 1 <= pageSize && |rows| <= Rows(pageSize, refetches + 1)
    ensures CollectPages(Pager(rows, pageSize), None, refetches) == Walk(Sorted(rows), true)
  {
    var listing := Sorted(rows);
    forall j: nat | j <= |listing|
      ensures Pager(rows, pageSize)(PositionAt(listing, j)) == PageOf(listing, j, pageSize)
    {
      PageAtPosition(rows, listing, j, pageSize);
    }
    CollectFrom(Pager(rows, pageSize), listing, 0, pageSize, refetches);
    assert listing[0..] == listing;
  }
}
