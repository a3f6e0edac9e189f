/** Reading an SDMX-JSON response by dimension name: `_parse_json`, `_decode_key` and `_decode_attributes` of
    `app/providers/bis/parser.py`.

    An encoded key is given as its colon-separated parts after `int`; a part that is no integer is None. */
module BisParser {
  import opened Common
  import BisRequests

  // A listed member of a dimension or attribute; `Malformed` is one that is not an object.
  datatype Member = Named(text: string) | Malformed

  datatype Dimension = Dimension(name: string, members: seq<Member>)

  type Key = seq<Option<int>>

  // One attribute position of a series or observation: null, or a value that may be a member index.
  datatype Cell = Null | Entry(raw: string, index: Option<int>)

  // The first element of an observation array; `Unreadable` raises.
  datatype Amount = Absence | Number(text: string) | Unreadable

  datatype Observation = Observation(key: Key, amount: Amount, cells: seq<Cell>)

  datatype Series = Series(key: Key, cells: seq<Cell>, observations: seq<Observation>)

  // `series` lists the series of all data sets in order.
  datatype Document = Document(
    seriesDimensions: seq<Dimension>, observationDimensions: seq<Dimension>,
    seriesAttributes: seq<Dimension>, observationAttributes: seq<Dimension>,
    series: seq<Series>, publishedAt: Option<int>, version: Option<string>)

  datatype Settings = Settings(
    dataflow: string, keyOrder: seq<string>, currency: Option<string>, collection: Option<string>, unit: Option<string>,
    readDate: string -> Option<int>)

  datatype Record = Record(
    dataflow: string, seriesKey: string, economy: string, currency: string, frequency: string, unit: string,
    collection: string, date: int, value: Option<string>, publishedAt: Option<int>, version: Option<string>,
    attributes: map<string, string>)

  type Names = map<string, string>

  // --------------------------------------------------------------------------------------------
  // Names and aliases
  // --------------------------------------------------------------------------------------------

  function UpperChar(c: char): char {
    if 'a' <= c <= 'z' then c - 'a' + 'A' else c
  }

  function LowerChar(c: char): char {
    if 'A' <= c <= 'Z' then c - 'A' + 'a' else c
  }

  function Upper(s: string): string {
    seq(|s|, i requires 0 <= i < |s| => UpperChar(s[i]))
  }

  function Lower(s: string): string {
    seq(|s|, i requires 0 <= i < |s| => LowerChar(s[i]))
  }

  const SERIES_ALIASES: map<string, string> := map[
    "FREQ" := "frequency", "REF_AREA" := "economy", "ECONOMY" := "economy", "CURRENCY" := "currency",
    "UNIT_MEASURE" := "unit", "UNIT" := "unit", "COLLECTION" := "collection_indicator",
    "COLLECTION_INDICATOR" := "collection_indicator", "INSTRUMENT" := "instrument"]

  function Alias(name: string): string {
    if Upper(name) in SERIES_ALIASES then SERIES_ALIASES[Upper(name)] else Lower(name)
  }

  function DimensionNames(dims: seq<Dimension>): seq<string> {
    seq(|dims|, i requires 0 <= i < |dims| => dims[i].name)
  }

  // --------------------------------------------------------------------------------------------
  // Decoding
  // --------------------------------------------------------------------------------------------

  // Indexing as Python does it: a negative index counts from the end.
  function MemberAt(members: seq<Member>, i: int): Option<string> {
    var at := if i < 0 then |members| + i else i;
    if 0 <= at < |members| && members[at].Named? then Some(members[at].text) else None
  }

  // The text one key part selects in its dimension.
  function Resolved(part: Option<int>, d: Dimension): Option<string> {
    if part.None? then None else MemberAt(d.members, part.value)
  }

  // Nothing comes back when the key does not fit its dimensions: the source raises.
  function Decoded(key: Key, dims: seq<Dimension>): Option<Names> {
    if |key| != |dims| then None
    else if key == [] then Some(map[])
    else
      var front := Decoded(key[..|key| - 1], dims[..|dims| - 1]);
      var last := Resolved(key[|key| - 1], dims[|dims| - 1]);
      if front.None? || last.None? then None else Some(front.value[dims[|dims| - 1].name := last.value])
  }

  method DecodeKey(key: Key, dims: seq<Dimension>) returns (names: Option<Names>)
    ensures names == Decoded(key, dims)
  {
    if |key| != |dims| {
      return None;
    }
    var result: Names := map[];
    for i := 0 to |key|
      invariant Decoded(key[..i], dims[..i]) == Some(result)
    {
      assert key[..i + 1][..i] == key[..i] && dims[..i + 1][..i] == dims[..i];
      var member := Resolved(key[i], dims[i]);
      if member.None? {
        Undecodable(key, dims, i + 1);
        return None;
      }
      result := result[dims[i].name := member.value];
    }
    assert key[..|key|] == key && dims[..|dims|] == dims;
    names := Some(result);
  }

  lemma {:induction false} Undecodable(key: Key, dims: seq<Dimension>, n: nat)
    requires |key| == |dims| && n <= |key| && Decoded(key[..n], dims[..n]).None?
    ensures Decoded(key, dims).None?
    decreases |key| - n
  {
    if n == |key| {
      assert key[..n] == key && dims[..n] == dims;
    } else {
      assert key[..n + 1][..n] == key[..n] && dims[..n + 1][..n] == dims[..n];
      Undecodable(key, dims, n + 1);
    }
  }

  // An attribute value names a member when it can; otherwise it stands for itself.
  function CellText(cell: Cell, d: Dimension): string
    requires cell.Entry?
  {
    var member := Resolved(cell.index, d);
    if member.Some? then member.value else cell.raw
  }

  // The first n positions, ignoring nulls and positions without a definition.
  function DecodedCells(cells: seq<Cell>, definitions: seq<Dimension>, n: nat): Names
    requires n <= |cells|
  {
    if n == 0 then map[]
    else
      var front := DecodedCells(cells, definitions, n - 1);
      if cells[n - 1].Null? || n - 1 >= |definitions| then front
      else front[definitions[n - 1].name := CellText(cells[n - 1], definitions[n - 1])]
  }

  // The attribute names present, in the order they are written.
  function CellNames(cells: seq<Cell>, definitions: seq<Dimension>, n: nat): seq<string>
    requires n <= |cells|
  {
    if n == 0 then []
    else
      var front := CellNames(cells, definitions, n - 1);
      if cells[n - 1].Null? || n - 1 >= |definitions| then front else front + [definitions[n - 1].name]
  }

  method DecodeAttributes(cells: seq<Cell>, definitions: seq<Dimension>) returns (result: Names)
    ensures result == DecodedCells(cells, definitions, |cells|)
  {
    result := map[];
    for i := 0 to |cells|
      invariant result == DecodedCells(cells, definitions, i)
    {
      if cells[i].Null? || i >= |definitions| {
        continue;
      }
      result := result[definitions[i].name := CellText(cells[i], definitions[i])];
    }
  }

  // --------------------------------------------------------------------------------------------
  // Canonical names of one series
  // --------------------------------------------------------------------------------------------

  // The alias dictionary, filled in the order of the named values: a later name wins a shared alias.
  function Canonical(alias: string -> string, names: seq<string>, values: Names): Names
    requires forall n :: n in names ==> n in values
  {
    if names == [] then map[]
    else
      var last := names[|names| - 1];
      Canonical(alias, names[..|names| - 1], values)[alias(last) := values[last]]
  }

  function WithDefault(values: Names, name: string, default: Option<string>): Names {
    if default.Some? && name !in values then values[name := default.value] else values
  }

  function Completed(cfg: Settings, canonical: Names): Names {
    WithDefault(WithDefault(WithDefault(canonical, "currency", cfg.currency), "unit", cfg.unit),
                "collection_indicator", cfg.collection)
  }

  predicate HasRequired(canonical: Names) {
    && "frequency" in canonical && "economy" in canonical && "currency" in canonical
    && "unit" in canonical && "collection_indicator" in canonical
  }

  function Joined(parts: seq<string>): string {
    if parts == [] then ""
    else if |parts| == 1 then parts[0]
    else Joined(parts[..|parts| - 1]) + "." + parts[|parts| - 1]
  }

  function FullKey(order: seq<string>, values: Names): Option<string> {
    if forall i :: 0 <= i < |order| ==> order[i] in values
    then Some(Joined(seq(|order|, i requires 0 <= i < |order| => values[order[i]])))
    else None
  }

  // Everything one series contributes to its records.
  datatype Header = Header(
    dimensions: Names, attributes: Names, fullKey: string,
    economy: string, currency: string, frequency: string, unit: string, collection: string)

  function SeriesHeader(cfg: Settings, doc: Document, s: Series): Option<Header> {
    var dimensions := Decoded(s.key, doc.seriesDimensions);
    if dimensions.None? then None
    else
      DecodedNames(s.key, doc.seriesDimensions);
      CellNamesAreDecoded(s.cells, doc.seriesAttributes, |s.cells|);
      var attributes := DecodedCells(s.cells, doc.seriesAttributes, |s.cells|);
      var values := dimensions.value + attributes;
      var order := PresentNames(doc, s);
      var canonical := Completed(cfg, Canonical(Alias, order, values));
      var keyOrder := if cfg.keyOrder != [] then cfg.keyOrder else DimensionNames(doc.seriesDimensions);
      var fullKey := FullKey(keyOrder, values);
      if !HasRequired(canonical) || fullKey.None? then None
      else
        Some(Header(dimensions.value, attributes, fullKey.value, canonical["economy"], canonical["currency"],
                    canonical["frequency"], canonical["unit"], canonical["collection_indicator"]))
  }

  // The keys of the named values in dictionary order: dimensions, then attributes not yet there.
  function PresentNames(doc: Document, s: Series): (names: seq<string>)
    ensures forall n :: n in names <==>
              n in DimensionNames(doc.seriesDimensions) || n in CellNames(s.cells, doc.seriesAttributes, |s.cells|)
  {
    var all := DimensionNames(doc.seriesDimensions) + CellNames(s.cells, doc.seriesAttributes, |s.cells|);
    DistinctKeepsNames(all);
    BisRequests.Distinct(all)
  }

  lemma DistinctKeepsNames(names: seq<string>)
    ensures forall n :: n in BisRequests.Distinct(names) <==> n in names
  {
    BisRequests.DistinctCounts(names);
    forall n ensures n in BisRequests.Distinct(names) <==> n in names {
      assert n in BisRequests.Distinct(names) <==> multiset(BisRequests.Distinct(names))[n] > 0;
    }
  }

  lemma {:induction false} DecodedNames(key: Key, dims: seq<Dimension>)
    requires Decoded(key, dims).Some?
    ensures forall n :: n in Decoded(key, dims).value <==> n in DimensionNames(dims)
  {
    if key != [] {
      DecodedNames(key[..|key| - 1], dims[..|dims| - 1]);
      assert DimensionNames(dims) == DimensionNames(dims[..|dims| - 1]) + [dims[|dims| - 1].name];
    }
  }

  lemma {:induction false} CellNamesAreDecoded(cells: seq<Cell>, definitions: seq<Dimension>, n: nat)
    requires n <= |cells|
    ensures forall m :: m in DecodedCells(cells, definitions, n) <==> m in CellNames(cells, definitions, n)
  {
    if n > 0 {
      CellNamesAreDecoded(cells, definitions, n - 1);
    }
  }

  // --------------------------------------------------------------------------------------------
  // Records
  // --------------------------------------------------------------------------------------------

  predicate IsTime(d: Dimension) {
    Upper(d.name) == "TIME_PERIOD"
  }

  // The one time dimension.
  predicate OnlyTime(dims: seq<Dimension>, i: nat) {
    i < |dims| && IsTime(dims[i]) && forall j :: 0 <= j < |dims| && IsTime(dims[j]) ==> j == i
  }

  function TimeName(dims: seq<Dimension>): Option<string> {
    if exists i :: 0 <= i < |dims| && OnlyTime(dims, i) then
      var i :| 0 <= i < |dims| && OnlyTime(dims, i);
      Some(dims[i].name)
    else None
  }

  function ObservationRecord(cfg: Settings, doc: Document, time: string, h: Header, o: Observation): Option<seq<Record>> {
    var names := Decoded(o.key, doc.observationDimensions);
    if names.None? || time !in names.value || o.amount.Unreadable? then None
    else
      match cfg.readDate(names.value[time])
      case None => None
      case Some(date) =>
        var value := if o.amount.Absence? then None else Some(o.amount.text);
        var attributes := DecodedCells(o.cells, doc.observationAttributes, |o.cells|);
        Some([Record(cfg.dataflow, h.fullKey, h.economy, h.currency, h.frequency, h.unit, h.collection, date, value,
                     doc.publishedAt, doc.version, h.dimensions + h.attributes + attributes)])
  }

  // What the first n items yield one after the other, unless one of them raises.
  function Gathered<T, R>(each: T -> Option<seq<R>>, items: seq<T>, n: nat): Option<seq<R>>
    requires n <= |items|
  {
    if n == 0 then Some([])
    else
      var front := Gathered(each, items, n - 1);
      var last := each(items[n - 1]);
      if front.None? || last.None? then None else Some(front.value + last.value)
  }

  function EachObservation(cfg: Settings, doc: Document, time: string, h: Header): Observation -> Option<seq<Record>> {
    o => ObservationRecord(cfg, doc, time, h, o)
  }

  function SeriesRecords(cfg: Settings, doc: Document, time: string, s: Series): Option<seq<Record>> {
    var h := SeriesHeader(cfg, doc, s);
    if h.None? then None
    else Gathered(EachObservation(cfg, doc, time, h.value), s.observations, |s.observations|)
  }

  function EachSeries(cfg: Settings, doc: Document, time: string): Series -> Option<seq<Record>> {
    s => SeriesRecords(cfg, doc, time, s)
  }

  // All records, or nothing when the contract is broken anywhere.
  function Parsed(cfg: Settings, doc: Document): Option<seq<Record>> {
    var time := TimeName(doc.observationDimensions);
    if doc.seriesDimensions == [] || time.None? then None
    else Gathered(EachSeries(cfg, doc, time.value), doc.series, |doc.series|)
  }

  // A generator loop run to its end: `tuple` over what is yielded, cut short by the first raise.
  method Gather<T, R>(each: T -> Option<seq<R>>, items: seq<T>) returns (all: Option<seq<R>>)
    ensures all == Gathered(each, items, |items|)
  {
    var found: seq<R> := [];
    for i := 0 to |items|
      invariant Gathered(each, items, i) == Some(found)
    {
      var more := each(items[i]);
      if more.None? {
        GatheringStops(each, items, i + 1);
        return None;
      }
      found := found + more.value;
    }
    all := Some(found);
  }

  // The outer and, within `SeriesRecords`, the inner loop of `_parse_json`.
  method ParseJson(cfg: Settings, doc: Document) returns (records: Option<seq<Record>>)
    ensures records == Parsed(cfg, doc)
  {
    var time := TimeName(doc.observationDimensions);
    if doc.seriesDimensions == [] || time.None? {
      return None;
    }
    records := Gather(EachSeries(cfg, doc, time.value), doc.series);
  }

  lemma {:induction false} GatheringStops<T, R>(each: T -> Option<seq<R>>, items: seq<T>, n: nat)
    requires n <= |items| && Gathered(each, items, n).None?
    ensures Gathered(each, items, |items|).None?
    decreases |items| - n
  {
    if n < |items| {
      GatheringStops(each, items, n + 1);
    }
  }
}
