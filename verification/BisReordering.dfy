/** The order in which a response lists its dimensions does not matter: what the class comment of
    `BISParser` in `app/providers/bis/parser.py` promises. */
module BisReordering {
  import opened Common
  import opened BisParser

  ghost predicate Permutation(p: seq<nat>, n: nat) {
    && |p| == n
    && (forall i :: 0 <= i < n ==> p[i] < n)
    && (forall i, j :: 0 <= i < j < n ==> p[i] != p[j])
    && (forall j: nat :: j < n ==> j in p)
  }

  // The same elements in another order; a key of another length stays as it is.
  function Reordered<T>(s: seq<T>, p: seq<nat>): seq<T> {
    if |s| == |p| && (forall i :: 0 <= i < |p| ==> p[i] < |p|)
    then seq(|p|, i requires 0 <= i < |p| => s[p[i]])
    else s
  }

  function ReorderedObservation(o: Observation, q: seq<nat>): Observation {
    o.(key := Reordered(o.key, q))
  }

  function ReorderedSeries(s: Series, p: seq<nat>, q: seq<nat>): Series {
    s.(key := Reordered(s.key, p),
       observations := seq(|s.observations|, i requires 0 <= i < |s.observations| => ReorderedObservation(s.observations[i], q)))
  }

  // Both dimension lists and every encoded key, permuted consistently.
  function ReorderedDocument(doc: Document, p: seq<nat>, q: seq<nat>): Document {
    doc.(seriesDimensions := Reordered(doc.seriesDimensions, p),
         observationDimensions := Reordered(doc.observationDimensions, q),
         series := seq(|doc.series|, i requires 0 <= i < |doc.series| => ReorderedSeries(doc.series[i], p, q)))
  }

  predicate DistinctNames(dims: seq<Dimension>) {
    forall i, j :: 0 <= i < j < |dims| ==> dims[i].name != dims[j].name
  }

  predicate NoSharedAlias(alias: string -> string, names: seq<string>) {
    forall m, n :: m in names && n in names && alias(m) == alias(n) ==> m == n
  }

  lemma PositionOf(p: seq<nat>, n: nat, j: nat) returns (i: nat)
    requires Permutation(p, n) && j < n
    ensures i < n && p[i] == j
  {
    assert j in p;
    i :| 0 <= i < |p| && p[i] == j;
  }

  // --------------------------------------------------------------------------------------------
  // Keys
  // --------------------------------------------------------------------------------------------

  predicate Selects(names: Names, part: Option<int>, d: Dimension) {
    d.name in names && Resolved(part, d) == Some(names[d.name])
  }

  // With distinct names a key decodes position by position.
  lemma {:induction false} DecodedMeans(key: Key, dims: seq<Dimension>)
    requires DistinctNames(dims) && |key| == |dims|
    ensures Decoded(key, dims).Some? <==> forall i :: 0 <= i < |key| ==> Resolved(key[i], dims[i]).Some?
    ensures Decoded(key, dims).Some? ==> forall i :: 0 <= i < |key| ==> Selects(Decoded(key, dims).value, key[i], dims[i])
  {
    if key != [] {
      var front, before := key[..|key| - 1], dims[..|dims| - 1];
      DecodedMeans(front, before);
      forall i | 0 <= i < |front| ensures front[i] == key[i] && before[i] == dims[i] && dims[i].name != dims[|dims| - 1].name {
      }
    }
  }

  lemma NamesReordered(dims: seq<Dimension>, p: seq<nat>)
    requires Permutation(p, |dims|)
    ensures forall n :: n in DimensionNames(Reordered(dims, p)) <==> n in DimensionNames(dims)
    ensures DistinctNames(dims) ==> DistinctNames(Reordered(dims, p))
  {
    var after := Reordered(dims, p);
    forall n | n in DimensionNames(dims) ensures n in DimensionNames(after) {
      var j :| 0 <= j < |dims| && DimensionNames(dims)[j] == n;
      var i := PositionOf(p, |dims|, j);
      assert DimensionNames(after)[i] == n;
    }
    forall n | n in DimensionNames(after) ensures n in DimensionNames(dims) {
      var i :| 0 <= i < |after| && DimensionNames(after)[i] == n;
      assert DimensionNames(dims)[p[i]] == n;
    }
  }

  lemma {:induction false} DecodedReordered(key: Key, dims: seq<Dimension>, p: seq<nat>)
    requires Permutation(p, |dims|) && DistinctNames(dims)
    ensures Decoded(Reordered(key, p), Reordered(dims, p)) == Decoded(key, dims)
  {
    if |key| == |dims| {
      var key', dims' := Reordered(key, p), Reordered(dims, p);
      NamesReordered(dims, p);
      DecodedMeans(key, dims);
      DecodedMeans(key', dims');
      if Decoded(key', dims').Some? {
        forall j | 0 <= j < |key| ensures Resolved(key[j], dims[j]).Some? {
          var i := PositionOf(p, |dims|, j);
          assert Resolved(key'[i], dims'[i]).Some?;
        }
      }
      if Decoded(key, dims).Some? {
        SameDecoding(key, dims, p);
      }
    }
  }

  lemma SameDecoding(key: Key, dims: seq<Dimension>, p: seq<nat>)
    requires Permutation(p, |dims|) && DistinctNames(dims) && |key| == |dims|
    requires Decoded(key, dims).Some? && Decoded(Reordered(key, p), Reordered(dims, p)).Some?
    ensures Decoded(Reordered(key, p), Reordered(dims, p)).value == Decoded(key, dims).value
  {
    var before, after := Decoded(key, dims).value, Decoded(Reordered(key, p), Reordered(dims, p)).value;
    assert forall n :: n in before <==> n in after by {
      NamesReordered(dims, p);
      DecodedNames(key, dims);
      DecodedNames(Reordered(key, p), Reordered(dims, p));
    }
    forall n | n in before ensures n in after && after[n] == before[n] {
      SameValue(key, dims, p, n);
    }
  }

  lemma SameValue(key: Key, dims: seq<Dimension>, p: seq<nat>, n: string)
    requires Permutation(p, |dims|) && DistinctNames(dims) && |key| == |dims|
    requires Decoded(key, dims).Some? && Decoded(Reordered(key, p), Reordered(dims, p)).Some?
    requires n in Decoded(key, dims).value
    ensures n in Decoded(Reordered(key, p), Reordered(dims, p)).value
    ensures Decoded(Reordered(key, p), Reordered(dims, p)).value[n] == Decoded(key, dims).value[n]
  {
    DecodedNames(key, dims);
    var j :| 0 <= j < |dims| && DimensionNames(dims)[j] == n;
    SameChoice(key, dims, p, j);
    assert dims[j].name == n;
  }

  lemma SameChoice(key: Key, dims: seq<Dimension>, p: seq<nat>, j: nat)
    requires Permutation(p, |dims|) && DistinctNames(dims) && |key| == |dims| && j < |dims|
    requires Decoded(key, dims).Some? && Decoded(Reordered(key, p), Reordered(dims, p)).Some?
    ensures Selects(Decoded(key, dims).value, key[j], dims[j])
    ensures Selects(Decoded(Reordered(key, p), Reordered(dims, p)).value, key[j], dims[j])
  {
    var key', dims' := Reordered(key, p), Reordered(dims, p);
    NamesReordered(dims, p);
    DecodedMeans(key, dims);
    DecodedMeans(key', dims');
    var i := PositionOf(p, |dims|, j);
    assert Selects(Decoded(key', dims').value, key'[i], dims'[i]);
  }

  // --------------------------------------------------------------------------------------------
  // Canonical names
  // --------------------------------------------------------------------------------------------

  lemma {:induction false} CanonicalMeans(alias: string -> string, names: seq<string>, values: Names)
    requires NoSharedAlias(alias, names) && forall n :: n in names ==> n in values
    ensures forall n :: n in names ==>
              alias(n) in Canonical(alias, names, values) && Canonical(alias, names, values)[alias(n)] == values[n]
    ensures forall k :: k in Canonical(alias, names, values) ==> exists n :: n in names && alias(n) == k
  {
    if names != [] {
      var front, last := names[..|names| - 1], names[|names| - 1];
      assert names == front + [last];
      CanonicalMeans(alias, front, values);
      forall k | k in Canonical(alias, names, values) ensures exists n :: n in names && alias(n) == k {
        if k in Canonical(alias, front, values) {
          var n :| n in front && alias(n) == k;
          assert n in names;
        } else {
          assert last in names && alias(last) == k;
        }
      }
    }
  }

  // Without shared aliases the order in which names are entered is invisible.
  lemma CanonicalIgnoresOrder(alias: string -> string, a: seq<string>, b: seq<string>, values: Names)
    requires NoSharedAlias(alias, a) && forall n :: n in a ==> n in values
    requires forall n :: n in a <==> n in b
    ensures Canonical(alias, a, values) == Canonical(alias, b, values)
  {
    CanonicalMeans(alias, a, values);
    CanonicalMeans(alias, b, values);
    var c, d := Canonical(alias, a, values), Canonical(alias, b, values);
    forall k ensures k in c <==> k in d {
    }
    forall k | k in c ensures c[k] == d[k] {
      var n :| n in a && alias(n) == k;
    }
  }

  // --------------------------------------------------------------------------------------------
  // Records
  // --------------------------------------------------------------------------------------------

  // What the source needs of a response: distinct dimension names, and no two names a series shows with one alias.
  ghost predicate WellNamed(doc: Document) {
    && DistinctNames(doc.seriesDimensions) && DistinctNames(doc.observationDimensions)
    && (forall s :: s in doc.series ==> NoSharedAlias(Alias, PresentNames(doc, s)))
  }

  lemma HeaderReordered(cfg: Settings, doc: Document, s: Series, p: seq<nat>, q: seq<nat>)
    requires Permutation(p, |doc.seriesDimensions|) && DistinctNames(doc.seriesDimensions)
    requires NoSharedAlias(Alias, PresentNames(doc, s)) && cfg.keyOrder != []
    ensures SeriesHeader(cfg, ReorderedDocument(doc, p, q), ReorderedSeries(s, p, q)) == SeriesHeader(cfg, doc, s)
  {
    var doc', s' := ReorderedDocument(doc, p, q), ReorderedSeries(s, p, q);
    DecodedReordered(s.key, doc.seriesDimensions, p);
    NamesReordered(doc.seriesDimensions, p);
    if Decoded(s.key, doc.seriesDimensions).Some? {
      DecodedNames(s.key, doc.seriesDimensions);
      CellNamesAreDecoded(s.cells, doc.seriesAttributes, |s.cells|);
      var values := Decoded(s.key, doc.seriesDimensions).value + DecodedCells(s.cells, doc.seriesAttributes, |s.cells|);
      CanonicalIgnoresOrder(Alias, PresentNames(doc, s), PresentNames(doc', s'), values);
    }
  }

  lemma TimeReordered(dims: seq<Dimension>, q: seq<nat>)
    requires Permutation(q, |dims|)
    ensures TimeName(Reordered(dims, q)) == TimeName(dims)
  {
    var after := Reordered(dims, q);
    forall j: nat | OnlyTime(dims, j) ensures exists i :: 0 <= i < |after| && OnlyTime(after, i) && after[i] == dims[j] {
      var i := PositionOf(q, |dims|, j);
      assert OnlyTime(after, i);
    }
    forall i: nat | OnlyTime(after, i) ensures OnlyTime(dims, q[i]) {
      forall j | 0 <= j < |dims| && IsTime(dims[j]) ensures j == q[i] {
        var k := PositionOf(q, |dims|, j);
        assert IsTime(after[k]);
      }
    }
  }

  lemma ObservationReordered(cfg: Settings, doc: Document, time: string, h: Header, o: Observation, p: seq<nat>, q: seq<nat>)
    requires Permutation(q, |doc.observationDimensions|) && DistinctNames(doc.observationDimensions)
    ensures ObservationRecord(cfg, ReorderedDocument(doc, p, q), time, h, ReorderedObservation(o, q)) ==
            ObservationRecord(cfg, doc, time, h, o)
  {
    DecodedReordered(o.key, doc.observationDimensions, q);
  }

  lemma {:induction false} GatheredAlike<T, R>(f: T -> Option<seq<R>>, g: T -> Option<seq<R>>, a: seq<T>, b: seq<T>, n: nat)
    requires n <= |a| == |b| && forall i :: 0 <= i < |a| ==> f(a[i]) == g(b[i])
    ensures Gathered(f, a, n) == Gathered(g, b, n)
  {
    if n > 0 {
      GatheredAlike(f, g, a, b, n - 1);
    }
  }

  lemma SeriesReordered(cfg: Settings, doc: Document, time: string, s: Series, p: seq<nat>, q: seq<nat>)
    requires Permutation(p, |doc.seriesDimensions|) && Permutation(q, |doc.observationDimensions|)
    requires DistinctNames(doc.seriesDimensions) && DistinctNames(doc.observationDimensions)
    requires NoSharedAlias(Alias, PresentNames(doc, s)) && cfg.keyOrder != []
    ensures SeriesRecords(cfg, ReorderedDocument(doc, p, q), time, ReorderedSeries(s, p, q)) == SeriesRecords(cfg, doc, time, s)
  {
    HeaderReordered(cfg, doc, s, p, q);
    var h := SeriesHeader(cfg, doc, s);
    if h.Some? {
      var doc', s' := ReorderedDocument(doc, p, q), ReorderedSeries(s, p, q);
      var f, g := EachObservation(cfg, doc', time, h.value), EachObservation(cfg, doc, time, h.value);
      forall i | 0 <= i < |s.observations| ensures f(s'.observations[i]) == g(s.observations[i]) {
        ObservationReordered(cfg, doc, time, h.value, s.observations[i], p, q);
      }
      GatheredAlike(f, g, s'.observations, s.observations, |s.observations|);
    }
  }

  // Permuting the series and the observation dimensions together with every key changes no record, and
  // breaks or mends no response, once the order of the full key is configured.
  lemma ReorderingIsInvisible(cfg: Settings, doc: Document, p: seq<nat>, q: seq<nat>)
    requires Permutation(p, |doc.seriesDimensions|) && Permutation(q, |doc.observationDimensions|)
    requires WellNamed(doc) && cfg.keyOrder != []
    ensures Parsed(cfg, ReorderedDocument(doc, p, q)) == Parsed(cfg, doc)
  {
    TimeReordered(doc.observationDimensions, q);
    var time := TimeName(doc.observationDimensions);
    if time.Some? {
      var doc' := ReorderedDocument(doc, p, q);
      var f, g := EachSeries(cfg, doc', time.value), EachSeries(cfg, doc, time.value);
      forall i | 0 <= i < |doc.series| ensures f(doc'.series[i]) == g(doc.series[i]) {
        SeriesReordered(cfg, doc, time.value, doc.series[i], p, q);
      }
      GatheredAlike(f, g, doc'.series, doc.series, |doc.series|);
    }
  }
}
