/** Splitting a wanted date range and key list into bounded requests: `BISClient.requests` of
    `app/providers/bis/client.py`, and the range check of `app/application/ingestion/commands.py`. */
module BisRequests {
  import opened Common

  // The days and keys of one request; dates are days.
  datatype Chunk = Chunk(start: int, end: int, keys: seq<string>)

  datatype RequestError = NoSeriesKey

  // `dict.fromkeys`: the first occurrence of each key, in order.
  function Distinct(keys: seq<string>): seq<string> {
    if keys == [] then []
    else
      var front, last := keys[..|keys| - 1], keys[|keys| - 1];
      Distinct(front) + if last in front then [] else [last]
  }

  // The requests for one stretch of days.
  function Row(keys: seq<string>, offset: nat, start: int, end: int, maxSeries: nat): seq<Chunk>
    requires maxSeries >= 1
    decreases |keys| - offset
  {
    if offset >= |keys| then []
    else
      [Chunk(start, end, keys[offset..Min(offset + maxSeries, |keys|)])] + Row(keys, offset + maxSeries, start, end, maxSeries)
  }

  function Rows(keys: seq<string>, start: int, end: int, maxDays: nat, maxSeries: nat): seq<Chunk>
    requires maxDays >= 1 && maxSeries >= 1
    decreases end - start
  {
    if start > end then []
    else
      var rangeEnd := Min(end, start + maxDays - 1);
      Row(keys, 0, start, rangeEnd, maxSeries) + Rows(keys, rangeEnd + 1, end, maxDays, maxSeries)
  }

  lemma OneMoreChunk(chunks: seq<Chunk>, keys: seq<string>, offset: nat, start: int, end: int, maxSeries: nat)
    requires maxSeries >= 1 && offset < |keys|
    ensures chunks + Row(keys, offset, start, end, maxSeries) ==
            chunks + [Chunk(start, end, keys[offset..Min(offset + maxSeries, |keys|)])]
            + Row(keys, offset + maxSeries, start, end, maxSeries)
  {
  }

  lemma OneMoreRow(chunks: seq<Chunk>, keys: seq<string>, start: int, end: int, maxDays: nat, maxSeries: nat)
    requires maxDays >= 1 && maxSeries >= 1 && start <= end
    ensures var rangeEnd := Min(end, start + maxDays - 1);
            chunks + Rows(keys, start, end, maxDays, maxSeries) ==
            chunks + Row(keys, 0, start, rangeEnd, maxSeries) + Rows(keys, rangeEnd + 1, end, maxDays, maxSeries)
  {
  }

  // The limits are positive: the client refuses others when it is built.
  method Requests(seriesKeys: seq<string>, start: int, end: int, maxDays: nat, maxSeries: nat)
    returns (r: Result<seq<Chunk>, RequestError>)
    requires start <= end && maxDays >= 1 && maxSeries >= 1
    ensures r == if seriesKeys == [] then Err(NoSeriesKey) else Ok(Rows(Distinct(seriesKeys), start, end, maxDays, maxSeries))
  {
    var keys := Distinct(seriesKeys);
    DistinctCounts(seriesKeys);
    if keys == [] {
      assert seriesKeys != [] ==> multiset(keys)[seriesKeys[0]] == 1;
      return Err(NoSeriesKey);
    }
    var chunks: seq<Chunk> := [];
    var rangeStart := start;
    while rangeStart <= end
      invariant chunks + Rows(keys, rangeStart, end, maxDays, maxSeries) == Rows(keys, start, end, maxDays, maxSeries)
      decreases end - rangeStart
    {
      var rangeEnd := Min(end, rangeStart + maxDays - 1);
      var offset := 0;
      ghost var before := chunks;
      while offset < |keys|
        invariant chunks + Row(keys, offset, rangeStart, rangeEnd, maxSeries) ==
                  before + Row(keys, 0, rangeStart, rangeEnd, maxSeries)
        decreases |keys| - offset
      {
        var selected := keys[offset..Min(offset + maxSeries, |keys|)];
        OneMoreChunk(chunks, keys, offset, rangeStart, rangeEnd, maxSeries);
        chunks := chunks + [Chunk(rangeStart, rangeEnd, selected)];
        offset := offset + maxSeries;
      }
      assert chunks == before + Row(keys, 0, rangeStart, rangeEnd, maxSeries);
      OneMoreRow(before, keys, rangeStart, end, maxDays, maxSeries);
      rangeStart := rangeEnd + 1;
    }
    assert chunks == Rows(keys, start, end, maxDays, maxSeries);
    assert seriesKeys != [];
    r := Ok(chunks);
  }

  // --------------------------------------------------------------------------------------------
  // Every day of every key, once
  // --------------------------------------------------------------------------------------------

  // How often the requests ask for one day of one key.
  function TimesAsked(chunks: seq<Chunk>, day: int, key: string): nat {
    if chunks == [] then 0
    else
      var c := chunks[0];
      (if c.start <= day <= c.end then multiset(c.keys)[key] else 0) + TimesAsked(chunks[1..], day, key)
  }

  predicate WithinLimits(chunks: seq<Chunk>, start: int, end: int, maxDays: nat, maxSeries: nat) {
    forall i :: 0 <= i < |chunks| ==>
      && start <= chunks[i].start <= chunks[i].end <= end
      && chunks[i].end - chunks[i].start + 1 <= maxDays
      && 1 <= |chunks[i].keys| <= maxSeries
  }

  lemma {:induction false} DistinctCounts(keys: seq<string>)
    ensures forall k :: multiset(Distinct(keys))[k] == if k in keys then 1 else 0
  {
    if keys != [] {
      DistinctCounts(keys[..|keys| - 1]);
      assert keys == keys[..|keys| - 1] + [keys[|keys| - 1]];
    }
  }

  lemma {:induction false} TimesAskedAdds(a: seq<Chunk>, b: seq<Chunk>, day: int, key: string)
    ensures TimesAsked(a + b, day, key) == TimesAsked(a, day, key) + TimesAsked(b, day, key)
  {
    if a == [] {
      assert a + b == b;
    } else {
      assert (a + b)[1..] == a[1..] + b;
      TimesAskedAdds(a[1..], b, day, key);
    }
  }

  lemma ChunkAsks(c: Chunk, rest: seq<Chunk>, day: int, key: string)
    ensures TimesAsked([c] + rest, day, key) ==
            (if c.start <= day <= c.end then multiset(c.keys)[key] else 0) + TimesAsked(rest, day, key)
  {
    assert ([c] + rest)[1..] == rest;
  }

  lemma RowSplits(keys: seq<string>, offset: nat, next: nat, start: int, end: int, maxSeries: nat)
    requires maxSeries >= 1 && offset < |keys| && next == Min(offset + maxSeries, |keys|)
    ensures Row(keys, offset, start, end, maxSeries) ==
            [Chunk(start, end, keys[offset..next])] + Row(keys, next, start, end, maxSeries)
  {
  }

  lemma KeysSplit(keys: seq<string>, offset: nat, next: nat, key: string)
    requires offset <= next <= |keys|
    ensures multiset(keys[offset..])[key] == multiset(keys[offset..next])[key] + multiset(keys[next..])[key]
  {
    assert keys[offset..] == keys[offset..next] + keys[next..];
  }

  lemma {:induction false} RowAsks(keys: seq<string>, offset: nat, start: int, end: int, maxSeries: nat, day: int, key: string)
    requires maxSeries >= 1 && offset <= |keys|
    ensures TimesAsked(Row(keys, offset, start, end, maxSeries), day, key) ==
            if start <= day <= end then multiset(keys[offset..])[key] else 0
    decreases |keys| - offset
  {
    if offset < |keys| {
      var next := Min(offset + maxSeries, |keys|);
      RowAsks(keys, next, start, end, maxSeries, day, key);
      RowSplits(keys, offset, next, start, end, maxSeries);
      ChunkAsks(Chunk(start, end, keys[offset..next]), Row(keys, next, start, end, maxSeries), day, key);
      KeysSplit(keys, offset, next, key);
    }
  }

  lemma {:induction false} RowsAsk(keys: seq<string>, start: int, end: int, maxDays: nat, maxSeries: nat, day: int, key: string)
    requires maxDays >= 1 && maxSeries >= 1
    ensures TimesAsked(Rows(keys, start, end, maxDays, maxSeries), day, key) ==
            if start <= day <= end then multiset(keys)[key] else 0
    decreases end - start
  {
    if start <= end {
      var rangeEnd := Min(end, start + maxDays - 1);
      RowAsks(keys, 0, start, rangeEnd, maxSeries, day, key);
      assert keys[0..] == keys;
      RowsAsk(keys, rangeEnd + 1, end, maxDays, maxSeries, day, key);
      TimesAskedAdds(Row(keys, 0, start, rangeEnd, maxSeries), Rows(keys, rangeEnd + 1, end, maxDays, maxSeries), day, key);
    }
  }

  lemma {:induction false} RowWithinLimits(keys: seq<string>, offset: nat, start: int, end: int, maxSeries: nat)
    requires maxSeries >= 1 && start <= end
    ensures WithinLimits(Row(keys, offset, start, end, maxSeries), start, end, end - start + 1, maxSeries)
    decreases |keys| - offset
  {
    if offset < |keys| {
      RowWithinLimits(keys, offset + maxSeries, start, end, maxSeries);
    }
  }

  lemma {:induction false} RowsWithinLimits(keys: seq<string>, start: int, end: int, maxDays: nat, maxSeries: nat)
    requires maxDays >= 1 && maxSeries >= 1
    ensures WithinLimits(Rows(keys, start, end, maxDays, maxSeries), start, end, maxDays, maxSeries)
    decreases end - start
  {
    if start <= end {
      var rangeEnd := Min(end, start + maxDays - 1);
      RowWithinLimits(keys, 0, start, rangeEnd, maxSeries);
      RowsWithinLimits(keys, rangeEnd + 1, end, maxDays, maxSeries);
    }
  }

  // The requests ask for every day of every wanted key exactly once and for nothing else, each within
  // both limits, however often a key was repeated in the input.
  lemma RequestsTileExactly(seriesKeys: seq<string>, start: int, end: int, maxDays: nat, maxSeries: nat)
    requires maxDays >= 1 && maxSeries >= 1
    ensures var chunks := Rows(Distinct(seriesKeys), start, end, maxDays, maxSeries);
            && (forall day, key :: TimesAsked(chunks, day, key) == if start <= day <= end && key in seriesKeys then 1 else 0)
            && WithinLimits(chunks, start, end, maxDays, maxSeries)
  {
    var keys := Distinct(seriesKeys);
    DistinctCounts(seriesKeys);
    forall day, key
      ensures TimesAsked(Rows(keys, start, end, maxDays, maxSeries), day, key) ==
              if start <= day <= end && key in seriesKeys then 1 else 0
    {
      RowsAsk(keys, start, end, maxDays, maxSeries, day, key);
    }
    RowsWithinLimits(keys, start, end, maxDays, maxSeries);
  }

  // --------------------------------------------------------------------------------------------
  // One series within an accepted range
  // --------------------------------------------------------------------------------------------

  const DEFAULT_MAX_RANGE_DAYS := 366

  // The range check of `StartIngestionCommand.validate`.
  predicate AcceptsRange(configured: Option<nat>, start: int, end: int) {
    end - start + 1 <= if configured.Some? then configured.value else DEFAULT_MAX_RANGE_DAYS
  }

  // A runtime binding keeps only the first request; for one series within an accepted range it is the
  // only one and equals the scope.
  lemma FirstRequestIsScope(key: string, start: int, end: int, maxDays: nat, maxSeries: nat)
    requires maxDays >= 1 && maxSeries >= 1 && start <= end
    ensures AcceptsRange(Some(maxDays), start, end) <==>
            Rows(Distinct([key]), start, end, maxDays, maxSeries) == [Chunk(start, end, [key])]
  {
    var keys := Distinct([key]);
    assert [key][..0] == [] && Distinct([]) == [];
    assert keys == [key];
    var rangeEnd := Min(end, start + maxDays - 1);
    assert keys[0..Min(maxSeries, 1)] == [key];
    assert Row(keys, 0, start, rangeEnd, maxSeries) == [Chunk(start, rangeEnd, [key])];
    var rest := Rows(keys, rangeEnd + 1, end, maxDays, maxSeries);
    var all := Rows(keys, start, end, maxDays, maxSeries);
    assert all == [Chunk(start, rangeEnd, [key])] + rest;
    assert all[0] == Chunk(start, rangeEnd, [key]);
    if AcceptsRange(Some(maxDays), start, end) {
      assert rest == [];
    }
  }
}
