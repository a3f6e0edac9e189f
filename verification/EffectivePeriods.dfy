/** Effective periods of economy/currency relationships: the checks of `_validate` and
    `_validate_no_overlaps` in `app/config/reference.py`. */
module EffectivePeriods {
  import opened Common

  // Inclusive days; an open-ended period has no last day.
  datatype Period = Period(economy: string, currency: string, from: int, to: Option<int>)

  type GroupKey = (string, string)

  datatype PeriodError = InvalidDates | OverlappingDates

  predicate ValidPeriod(p: Period) {
    p.to.Some? ==> p.from <= p.to.value
  }

  predicate Covers(p: Period, day: int) {
    p.from <= day && (p.to.Some? ==> day <= p.to.value)
  }

  // No day lies in both.
  ghost predicate Disjoint(a: Period, b: Period) {
    forall day :: !(Covers(a, day) && Covers(b, day))
  }

  function KeyOf(p: Period): GroupKey {
    (p.economy, p.currency)
  }

  // All periods of one economy and currency are pairwise disjoint.
  ghost predicate ApartInGroups(items: seq<Period>) {
    forall i, j :: 0 <= i < j < |items| && KeyOf(items[i]) == KeyOf(items[j]) ==> Disjoint(items[i], items[j])
  }

  ghost predicate Apart(s: seq<Period>) {
    forall i, j :: 0 <= i < j < |s| ==> Disjoint(s[i], s[j])
  }

  // --------------------------------------------------------------------------------------------
  // Sorting by first day
  // --------------------------------------------------------------------------------------------

  // Python's `sorted` is stable: a later period goes behind those that start with it.
  function Inserted(p: Period, s: seq<Period>): seq<Period> {
    if s == [] then [p]
    else if p.from < s[0].from then [p] + s
    else [s[0]] + Inserted(p, s[1..])
  }

  function SortedByStart(s: seq<Period>): seq<Period> {
    if s == [] then [] else Inserted(s[|s| - 1], SortedByStart(s[..|s| - 1]))
  }

  predicate Ascending(s: seq<Period>) {
    forall i, j :: 0 <= i < j < |s| ==> s[i].from <= s[j].from
  }

  // Each period ends before the next one starts.
  predicate EndsBefore(previous: Period, current: Period) {
    previous.to.Some? && previous.to.value < current.from
  }

  predicate NeighboursApart(s: seq<Period>) {
    forall j :: 1 <= j < |s| ==> EndsBefore(s[j - 1], s[j])
  }

  lemma {:induction false} InsertedAscends(p: Period, s: seq<Period>)
    requires Ascending(s)
    ensures Ascending(Inserted(p, s))
    ensures forall q :: q in Inserted(p, s) <==> q == p || q in s
  {
    if s != [] && p.from >= s[0].from {
      var all, rest := Inserted(p, s), Inserted(p, s[1..]);
      InsertedAscends(p, s[1..]);
      assert s == [s[0]] + s[1..];
      forall i | 0 < i < |all| ensures all[i].from >= s[0].from {
        assert all[i] == rest[i - 1] && rest[i - 1] in rest;
      }
    }
  }

  lemma {:induction false} InsertedApart(p: Period, s: seq<Period>)
    requires Ascending(s)
    ensures Apart(Inserted(p, s)) <==> Apart(s) && forall q :: q in s ==> Disjoint(p, q)
  {
    if s == [] {
    } else if p.from < s[0].from {
      Prepended(p, s);
    } else {
      InsertedApart(p, s[1..]);
      InsertedAscends(p, s[1..]);
      assert s == [s[0]] + s[1..];
      Prepended(s[0], Inserted(p, s[1..]));
      Prepended(s[0], s[1..]);
      assert Disjoint(s[0], p) <==> Disjoint(p, s[0]);
    }
  }

  lemma Prepended(p: Period, s: seq<Period>)
    ensures Apart([p] + s) <==> Apart(s) && forall q :: q in s ==> Disjoint(p, q)
    ensures forall q :: q in [p] + s <==> q == p || q in s
  {
    var all := [p] + s;
    if Apart(all) {
      forall q | q in s ensures Disjoint(p, q) {
        var i :| 0 <= i < |s| && s[i] == q;
        assert all[0] == p && all[i + 1] == q;
      }
      forall i, j | 0 <= i < j < |s| ensures Disjoint(s[i], s[j]) {
        assert all[i + 1] == s[i] && all[j + 1] == s[j];
      }
    }
  }

  lemma Appended(s: seq<Period>, p: Period)
    ensures Apart(s + [p]) <==> Apart(s) && forall q :: q in s ==> Disjoint(p, q)
  {
    var all := s + [p];
    if Apart(all) {
      forall q | q in s ensures Disjoint(p, q) {
        var i :| 0 <= i < |s| && s[i] == q;
        assert all[i] == q && all[|s|] == p && Disjoint(q, p);
      }
      forall i, j | 0 <= i < j < |s| ensures Disjoint(s[i], s[j]) {
        assert all[i] == s[i] && all[j] == s[j];
      }
    }
    if Apart(s) && forall q :: q in s ==> Disjoint(p, q) {
      forall i, j | 0 <= i < j < |all| ensures Disjoint(all[i], all[j]) {
        assert all[i] in s;
      }
    }
  }

  lemma {:induction false} SortKeepsApart(s: seq<Period>)
    ensures Ascending(SortedByStart(s))
    ensures forall q :: q in SortedByStart(s) <==> q in s
    ensures Apart(SortedByStart(s)) <==> Apart(s)
  {
    if s != [] {
      var front, last := s[..|s| - 1], s[|s| - 1];
      SortKeepsApart(front);
      InsertedAscends(last, SortedByStart(front));
      InsertedApart(last, SortedByStart(front));
      assert s == front + [last];
      Appended(front, last);
    }
  }

  // Once sorted, looking at neighbours alone finds every overlap, open-ended periods included.
  lemma NeighboursSuffice(s: seq<Period>)
    requires Ascending(s) && forall p :: p in s ==> ValidPeriod(p)
    ensures NeighboursApart(s) <==> Apart(s)
  {
    if NeighboursApart(s) {
      forall i, j | 0 <= i < j < |s| ensures Disjoint(s[i], s[j]) {
        var next := i + 1;
        assert EndsBefore(s[next - 1], s[next]) && s[next].from <= s[j].from;
      }
    }
    if Apart(s) {
      forall j | 1 <= j < |s| ensures EndsBefore(s[j - 1], s[j]) {
        assert s[j] in s && Covers(s[j], s[j].from);
        assert !Covers(s[j - 1], s[j].from);
      }
    }
  }

  // --------------------------------------------------------------------------------------------
  // Grouping
  // --------------------------------------------------------------------------------------------

  function Group(items: seq<Period>, key: GroupKey): seq<Period> {
    if items == [] then []
    else
      var last := items[|items| - 1];
      Group(items[..|items| - 1], key) + if KeyOf(last) == key then [last] else []
  }

  lemma {:induction false} GroupMeans(items: seq<Period>, key: GroupKey)
    ensures forall p :: p in Group(items, key) <==> p in items && KeyOf(p) == key
  {
    if items != [] {
      GroupMeans(items[..|items| - 1], key);
      assert items == items[..|items| - 1] + [items[|items| - 1]];
    }
  }

  lemma LongerApartInGroups(front: seq<Period>, last: Period)
    ensures ApartInGroups(front + [last]) <==>
            ApartInGroups(front) && forall q :: q in front && KeyOf(q) == KeyOf(last) ==> Disjoint(last, q)
  {
    var all := front + [last];
    if ApartInGroups(all) {
      forall q | q in front && KeyOf(q) == KeyOf(last) ensures Disjoint(last, q) {
        var i :| 0 <= i < |front| && front[i] == q;
        assert all[i] == q && all[|front|] == last && Disjoint(q, last);
      }
      forall i, j | 0 <= i < j < |front| && KeyOf(front[i]) == KeyOf(front[j]) ensures Disjoint(front[i], front[j]) {
        assert all[i] == front[i] && all[j] == front[j];
      }
    }
    if ApartInGroups(front) && forall q :: q in front && KeyOf(q) == KeyOf(last) ==> Disjoint(last, q) {
      forall i, j | 0 <= i < j < |all| && KeyOf(all[i]) == KeyOf(all[j]) ensures Disjoint(all[i], all[j]) {
        assert all[i] in front;
      }
    }
  }

  ghost predicate AllGroupsApart(items: seq<Period>) {
    forall key :: Apart(Group(items, key))
  }

  // Pairwise disjoint within groups is every group pairwise disjoint.
  lemma {:induction false} GroupsApart(items: seq<Period>)
    ensures ApartInGroups(items) <==> AllGroupsApart(items)
  {
    if items != [] {
      var front, last := items[..|items| - 1], items[|items| - 1];
      var mine := KeyOf(last);
      GroupsApart(front);
      assert items == front + [last];
      LongerApartInGroups(front, last);
      GroupMeans(front, mine);
      Appended(Group(front, mine), last);
      assert Group(items, mine) == Group(front, mine) + [last];
      assert forall key :: key != mine ==> Group(items, key) == Group(front, key);
      if AllGroupsApart(items) {
        assert Apart(Group(items, mine));
        forall key ensures Apart(Group(front, key)) {
          assert Apart(Group(items, key));
        }
      }
      if ApartInGroups(items) {
        forall key ensures Apart(Group(items, key)) {
          assert Apart(Group(front, key));
        }
      }
    } else {
      forall key ensures Apart(Group(items, key)) {
      }
    }
  }

  // --------------------------------------------------------------------------------------------
  // The checks
  // --------------------------------------------------------------------------------------------

  // The adjacent comparison of one sorted group.
  method CheckNeighbours(ordered: seq<Period>) returns (ok: bool)
    ensures ok <==> NeighboursApart(ordered)
  {
    var i := 1;
    while i < |ordered|
      invariant 1 <= i
      invariant forall k :: 1 <= k < i && k < |ordered| ==> EndsBefore(ordered[k - 1], ordered[k])
    {
      var previous, current := ordered[i - 1], ordered[i];
      if previous.to.None? || current.from <= previous.to.value {
        return false;
      }
      i := i + 1;
    }
    ok := true;
  }

  // One group: sorted, then compared with its neighbours.
  method CheckGroup(periods: seq<Period>) returns (ok: bool)
    requires forall p :: p in periods ==> ValidPeriod(p)
    ensures ok <==> Apart(periods)
  {
    var ordered := SortedByStart(periods);
    SortKeepsApart(periods);
    NeighboursSuffice(ordered);
    ok := CheckNeighbours(ordered);
  }

  // Each key's group, as far as the items go.
  ghost predicate Grouped(items: seq<Period>, groups: map<GroupKey, seq<Period>>) {
    forall key :: Group(items, key) == if key in groups then groups[key] else []
  }

  lemma GroupsOneMore(items: seq<Period>, item: Period, groups: map<GroupKey, seq<Period>>)
    requires Grouped(items, groups)
    ensures var key := KeyOf(item);
            Grouped(items + [item], groups[key := (if key in groups then groups[key] else []) + [item]])
  {
    assert (items + [item])[..|items|] == items;
  }

  // `groups` and its keys in insertion order.
  method CollectGroups(items: seq<Period>) returns (groups: map<GroupKey, seq<Period>>, keys: seq<GroupKey>)
    ensures forall key :: key in groups <==> key in keys
    ensures Grouped(items, groups)
  {
    groups, keys := map[], [];
    for i := 0 to |items|
      invariant forall key :: key in groups <==> key in keys
      invariant Grouped(items[..i], groups)
    {
      var item := items[i];
      var key := KeyOf(item);
      GroupsOneMore(items[..i], item, groups);
      assert items[..i + 1] == items[..i] + [item];
      if key !in groups {
        groups := groups[key := []];
        keys := keys + [key];
      }
      groups := groups[key := groups[key] + [item]];
    }
    assert items[..|items|] == items;
  }

  // Nothing lies outside the collected groups.
  lemma CollectedGroupsSuffice(items: seq<Period>, groups: map<GroupKey, seq<Period>>, keys: seq<GroupKey>)
    requires Grouped(items, groups) && forall key :: key in groups <==> key in keys
    ensures ApartInGroups(items) <==> forall j :: 0 <= j < |keys| ==> Apart(groups[keys[j]])
  {
    GroupsApart(items);
    if forall j :: 0 <= j < |keys| ==> Apart(groups[keys[j]]) {
      forall key ensures Apart(Group(items, key)) {
        if key in groups {
          var j :| 0 <= j < |keys| && keys[j] == key;
          assert Apart(groups[keys[j]]);
        }
      }
    }
    if AllGroupsApart(items) {
      forall j | 0 <= j < |keys| ensures Apart(groups[keys[j]]) {
        assert Apart(Group(items, keys[j]));
      }
    }
  }

  lemma GroupsAreValid(items: seq<Period>, groups: map<GroupKey, seq<Period>>)
    requires Grouped(items, groups) && forall p :: p in items ==> ValidPeriod(p)
    ensures ValidGroups(groups)
  {
    forall key | key in groups ensures forall p :: p in groups[key] ==> ValidPeriod(p) {
      GroupMeans(items, key);
      assert Group(items, key) == groups[key];
    }
  }

  predicate ValidGroups(groups: map<GroupKey, seq<Period>>) {
    forall key :: key in groups ==> forall p :: p in groups[key] ==> ValidPeriod(p)
  }

  // Every group checked in turn.
  method CheckGroups(groups: map<GroupKey, seq<Period>>, keys: seq<GroupKey>) returns (ok: bool)
    requires ValidGroups(groups) && forall key :: key in keys ==> key in groups
    ensures ok <==> forall j :: 0 <= j < |keys| ==> Apart(groups[keys[j]])
  {
    for i := 0 to |keys|
      invariant forall j :: 0 <= j < i ==> Apart(groups[keys[j]])
    {
      ok := CheckGroup(groups[keys[i]]);
      if !ok {
        return;
      }
    }
    ok := true;
  }

  method ValidateNoOverlaps(items: seq<Period>) returns (ok: bool)
    requires forall p :: p in items ==> ValidPeriod(p)
    ensures ok <==> ApartInGroups(items)
  {
    var groups, keys := CollectGroups(items);
    GroupsAreValid(items, groups);
    CollectedGroupsSuffice(items, groups, keys);
    ok := CheckGroups(groups, keys);
  }

  // Dates first, then overlaps: accepted exactly when every period is valid and, within each economy and
  // currency, no day belongs to two periods.
  method ValidatePeriods(items: seq<Period>) returns (error: Option<PeriodError>)
    ensures error == None <==> (forall p :: p in items ==> ValidPeriod(p)) && ApartInGroups(items)
    ensures error == Some(InvalidDates) <==> exists p :: p in items && !ValidPeriod(p)
  {
    for i := 0 to |items|
      invariant forall j :: 0 <= j < i ==> ValidPeriod(items[j])
    {
      if items[i].to.Some? && items[i].to.value < items[i].from {
        assert items[i] in items;
        return Some(InvalidDates);
      }
    }
    var ok := ValidateNoOverlaps(items);
    error := if ok then None else Some(OverlappingDates);
  }

  // Accepted periods of one group never start on the same day, so their table keys are distinct.
  lemma AcceptedStartsDiffer(items: seq<Period>)
    requires (forall p :: p in items ==> ValidPeriod(p)) && ApartInGroups(items)
    ensures forall i, j :: 0 <= i < j < |items| ==>
              (items[i].economy, items[i].currency, items[i].from) != (items[j].economy, items[j].currency, items[j].from)
  {
    forall i, j | 0 <= i < j < |items| && KeyOf(items[i]) == KeyOf(items[j]) ensures items[i].from != items[j].from {
      assert items[i] in items && items[j] in items;
      assert Covers(items[i], items[i].from) && Disjoint(items[i], items[j]);
      assert !Covers(items[j], items[i].from);
    }
  }
}
