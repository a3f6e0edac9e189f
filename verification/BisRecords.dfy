/** What each record of a parsed response says: which key part, attribute or configured default every field
    comes from. */
module BisRecords {
  import opened Common
  import opened BisParser

  // --------------------------------------------------------------------------------------------
  // Selected texts
  // --------------------------------------------------------------------------------------------

  // The index names this member; a negative one counts from the end.
  predicate Picks(part: Option<int>, d: Dimension, text: string) {
    && part.Some? && -|d.members| <= part.value < |d.members|
    && d.members[if part.value < 0 then |d.members| + part.value else part.value] == Named(text)
  }

  // The part at the last dimension of this name picks the text.
  ghost predicate NamedBy(key: Key, dims: seq<Dimension>, n: string, text: string) {
    |key| == |dims| && exists i :: IsLastNamed(dims, i, n) && Picks(key[i], dims[i], text)
  }

  predicate IsLastNamed(dims: seq<Dimension>, i: int, n: string) {
    0 <= i < |dims| && dims[i].name == n && forall j :: i < j < |dims| ==> dims[j].name != n
  }

  // An attribute position that says something.
  predicate Filled(cells: seq<Cell>, definitions: seq<Dimension>, i: int, n: string) {
    0 <= i < |cells| && i < |definitions| && cells[i].Entry? && definitions[i].name == n
  }

  // The cell names a member when its index picks one, and otherwise stands for itself.
  ghost predicate Shows(cell: Cell, d: Dimension, text: string) {
    cell.Entry? && (Picks(cell.index, d, text) || (text == cell.raw && forall t :: !Picks(cell.index, d, t)))
  }

  ghost predicate Attributed(cells: seq<Cell>, definitions: seq<Dimension>, n: string) {
    exists i :: Filled(cells, definitions, i, n)
  }

  // The last filled position of this name shows the text.
  ghost predicate AttributedBy(cells: seq<Cell>, definitions: seq<Dimension>, n: string, text: string) {
    exists i :: Filled(cells, definitions, i, n) && Shows(cells[i], definitions[i], text)
      && forall j :: i < j ==> !Filled(cells, definitions, j, n)
  }

  lemma ResolvedPicks(part: Option<int>, d: Dimension)
    ensures Resolved(part, d).Some? ==> Picks(part, d, Resolved(part, d).value)
    ensures Resolved(part, d).None? ==> forall t :: !Picks(part, d, t)
  {
  }

  lemma {:induction false} DecodedIsNamed(key: Key, dims: seq<Dimension>, n: string)
    requires Decoded(key, dims).Some?
    ensures n in Decoded(key, dims).value <==> n in DimensionNames(dims)
    ensures n in Decoded(key, dims).value ==> NamedBy(key, dims, n, Decoded(key, dims).value[n])
  {
    DecodedNames(key, dims);
    if n in Decoded(key, dims).value {
      var front, ds := key[..|key| - 1], dims[..|dims| - 1];
      if dims[|dims| - 1].name == n {
        NamedByLast(key, dims, n);
      } else {
        DecodedIsNamed(front, ds, n);
        NamedByFront(key, dims, n, Decoded(front, ds).value[n]);
      }
    }
  }

  lemma NamedByLast(key: Key, dims: seq<Dimension>, n: string)
    requires key != [] && Decoded(key, dims).Some? && dims[|dims| - 1].name == n
    ensures n in Decoded(key, dims).value && NamedBy(key, dims, n, Decoded(key, dims).value[n])
  {
    ResolvedPicks(key[|key| - 1], dims[|dims| - 1]);
    assert IsLastNamed(dims, |dims| - 1, n);
  }

  lemma NamedByFront(key: Key, dims: seq<Dimension>, n: string, text: string)
    requires |key| == |dims| > 0 && dims[|dims| - 1].name != n
    requires NamedBy(key[..|key| - 1], dims[..|dims| - 1], n, text)
    ensures NamedBy(key, dims, n, text)
  {
    var front, ds := key[..|key| - 1], dims[..|dims| - 1];
    var i :| IsLastNamed(ds, i, n) && Picks(front[i], ds[i], text);
    assert IsLastNamed(dims, i, n) && Picks(key[i], dims[i], text);
  }

  // Among the first m positions.
  ghost predicate AttributedFirst(cells: seq<Cell>, definitions: seq<Dimension>, m: nat, n: string, text: string) {
    exists i :: i < m && Filled(cells, definitions, i, n) && Shows(cells[i], definitions[i], text)
      && forall j :: i < j < m ==> !Filled(cells, definitions, j, n)
  }

  lemma {:induction false} CellsAreAttributed(cells: seq<Cell>, definitions: seq<Dimension>, m: nat, n: string)
    requires m <= |cells|
    ensures n in DecodedCells(cells, definitions, m) <==> exists i :: i < m && Filled(cells, definitions, i, n)
    ensures n in DecodedCells(cells, definitions, m) ==>
              AttributedFirst(cells, definitions, m, n, DecodedCells(cells, definitions, m)[n])
  {
    if m > 0 {
      CellsAreAttributed(cells, definitions, m - 1, n);
      if Filled(cells, definitions, m - 1, n) {
        ResolvedPicks(cells[m - 1].index, definitions[m - 1]);
        assert Shows(cells[m - 1], definitions[m - 1], CellText(cells[m - 1], definitions[m - 1]));
      } else {
        assert n in DecodedCells(cells, definitions, m) <==> n in DecodedCells(cells, definitions, m - 1);
        if n in DecodedCells(cells, definitions, m) {
          var text := DecodedCells(cells, definitions, m)[n];
          var i :| i < m - 1 && Filled(cells, definitions, i, n) && Shows(cells[i], definitions[i], text)
            && forall j :: i < j < m - 1 ==> !Filled(cells, definitions, j, n);
          assert forall j :: i < j < m ==> !Filled(cells, definitions, j, n);
        }
      }
    }
  }

  lemma DecodedIsAttributed(cells: seq<Cell>, definitions: seq<Dimension>, n: string)
    ensures n in DecodedCells(cells, definitions, |cells|) <==> Attributed(cells, definitions, n)
    ensures n in DecodedCells(cells, definitions, |cells|) ==>
              AttributedBy(cells, definitions, n, DecodedCells(cells, definitions, |cells|)[n])
  {
    CellsAreAttributed(cells, definitions, |cells|, n);
    if n in DecodedCells(cells, definitions, |cells|) {
      var text := DecodedCells(cells, definitions, |cells|)[n];
      var i :| i < |cells| && Filled(cells, definitions, i, n) && Shows(cells[i], definitions[i], text)
        && forall j :: i < j < |cells| ==> !Filled(cells, definitions, j, n);
      assert forall j :: i < j ==> !Filled(cells, definitions, j, n);
    }
  }

  // --------------------------------------------------------------------------------------------
  // Named values of a series
  // --------------------------------------------------------------------------------------------

  ghost predicate SeriesNames(doc: Document, s: Series, n: string) {
    n in DimensionNames(doc.seriesDimensions) || Attributed(s.cells, doc.seriesAttributes, n)
  }

  // The attribute of this name if there is one, else the key part.
  ghost predicate SeriesValue(doc: Document, s: Series, n: string, text: string) {
    if Attributed(s.cells, doc.seriesAttributes, n) then AttributedBy(s.cells, doc.seriesAttributes, n, text)
    else NamedBy(s.key, doc.seriesDimensions, n, text)
  }

  lemma ValuesMean(doc: Document, s: Series, n: string)
    requires Decoded(s.key, doc.seriesDimensions).Some?
    ensures var values := Decoded(s.key, doc.seriesDimensions).value + DecodedCells(s.cells, doc.seriesAttributes, |s.cells|);
            (n in values <==> SeriesNames(doc, s, n)) && (n in values ==> SeriesValue(doc, s, n, values[n]))
  {
    DecodedIsNamed(s.key, doc.seriesDimensions, n);
    DecodedIsAttributed(s.cells, doc.seriesAttributes, n);
  }

  // --------------------------------------------------------------------------------------------
  // Fields
  // --------------------------------------------------------------------------------------------

  datatype Field = Economy | Currency | Frequency | Unit | Collection

  // The names, in any case, that stand for a field.
  function NamesOf(field: Field): set<string> {
    match field
    case Economy => {"ECONOMY", "REF_AREA"}
    case Currency => {"CURRENCY"}
    case Frequency => {"FREQUENCY", "FREQ"}
    case Unit => {"UNIT", "UNIT_MEASURE"}
    case Collection => {"COLLECTION_INDICATOR", "COLLECTION"}
  }

  function Canon(field: Field): string {
    match field
    case Economy => "economy"
    case Currency => "currency"
    case Frequency => "frequency"
    case Unit => "unit"
    case Collection => "collection_indicator"
  }

  predicate StandsFor(n: string, field: Field) {
    Upper(n) in NamesOf(field)
  }

  lemma CaseFolds(c: char)
    ensures LowerChar(UpperChar(c)) == LowerChar(c) && UpperChar(LowerChar(c)) == UpperChar(c)
  {
  }

  lemma LowerOfUpper(n: string)
    ensures Lower(Upper(n)) == Lower(n) && Upper(Lower(n)) == Upper(n)
  {
    forall i | 0 <= i < |n|
      ensures Lower(Upper(n))[i] == Lower(n)[i] && Upper(Lower(n))[i] == Upper(n)[i]
    {
      CaseFolds(n[i]);
    }
  }

  lemma CanonInCapitals(field: Field)
    ensures Upper(Canon(field)) in NamesOf(field)
    ensures Upper(Canon(field)) == match field
                                   case Economy => "ECONOMY"
                                   case Currency => "CURRENCY"
                                   case Frequency => "FREQUENCY"
                                   case Unit => "UNIT"
                                   case Collection => "COLLECTION_INDICATOR"
  {
    match field
    case Economy => assert Upper("economy") == "ECONOMY";
    case Currency => assert Upper("currency") == "CURRENCY";
    case Frequency => assert Upper("frequency") == "FREQUENCY";
    case Unit => assert Upper("unit") == "UNIT";
    case Collection => assert Upper("collection_indicator") == "COLLECTION_INDICATOR";
  }

  lemma LowerFrequency()
    ensures Lower("FREQUENCY") == "frequency"
  {
  }

  lemma AliasMeans(n: string, field: Field)
    ensures Alias(n) == Canon(field) <==> StandsFor(n, field)
  {
    LowerOfUpper(n);
    CanonInCapitals(field);
    LowerFrequency();
    if Alias(n) == Canon(field) && Upper(n) !in SERIES_ALIASES {
      assert Lower(n) == Canon(field) && Upper(n) == Upper(Canon(field));
    }
    if StandsFor(n, field) && Upper(n) !in SERIES_ALIASES {
      assert Upper(n) == "FREQUENCY";
      assert Lower(n) == Lower("FREQUENCY");
    }
  }

  // The value of a name that stands for the field; the configured default only when no name does.
  ghost predicate FieldValue(doc: Document, s: Series, field: Field, default: Option<string>, text: string) {
    || (exists n :: StandsFor(n, field) && SeriesNames(doc, s, n) && SeriesValue(doc, s, n, text))
    || (default == Some(text) && forall n :: SeriesNames(doc, s, n) ==> !StandsFor(n, field))
  }

  lemma {:induction false} CanonicalComesFrom(alias: string -> string, names: seq<string>, values: Names, k: string)
    requires forall n :: n in names ==> n in values
    ensures k in Canonical(alias, names, values) <==> exists n :: n in names && alias(n) == k
    ensures k in Canonical(alias, names, values) ==>
              exists n :: n in names && alias(n) == k && Canonical(alias, names, values)[k] == values[n]
  {
    if names != [] {
      var front, last := names[..|names| - 1], names[|names| - 1];
      assert names == front + [last];
      CanonicalComesFrom(alias, front, values, k);
      assert last in names && forall n :: n in front ==> n in names;
      if alias(last) != k && k in Canonical(alias, front, values) {
        var n :| n in front && alias(n) == k && Canonical(alias, front, values)[k] == values[n];
        assert n in names && Canonical(alias, names, values)[k] == values[n];
      }
    }
  }

  // The canonical entry of a field, before any default.
  lemma CanonicalFieldMeans(doc: Document, s: Series, field: Field)
    requires Decoded(s.key, doc.seriesDimensions).Some?
    ensures var values := Decoded(s.key, doc.seriesDimensions).value + DecodedCells(s.cells, doc.seriesAttributes, |s.cells|);
            var names := PresentNames(doc, s);
            && (forall n :: n in names ==> n in values)
            && var canonical := Canonical(Alias, names, values);
               if Canon(field) in canonical then FieldValue(doc, s, field, None, canonical[Canon(field)])
               else forall n :: SeriesNames(doc, s, n) ==> !StandsFor(n, field)
  {
    var values := Decoded(s.key, doc.seriesDimensions).value + DecodedCells(s.cells, doc.seriesAttributes, |s.cells|);
    var names := PresentNames(doc, s);
    forall n ensures n in names <==> SeriesNames(doc, s, n) {
      NamesArePresent(doc, s, n);
    }
    forall n | n in names ensures n in values {
      ValuesMean(doc, s, n);
    }
    var canonical := Canonical(Alias, names, values);
    CanonicalComesFrom(Alias, names, values, Canon(field));
    if Canon(field) in canonical {
      var n :| n in names && Alias(n) == Canon(field) && canonical[Canon(field)] == values[n];
      AliasMeans(n, field);
      ValuesMean(doc, s, n);
    } else {
      forall n | SeriesNames(doc, s, n) ensures !StandsFor(n, field) {
        AliasMeans(n, field);
      }
    }
  }

  lemma NamesArePresent(doc: Document, s: Series, n: string)
    ensures n in PresentNames(doc, s) <==> SeriesNames(doc, s, n)
  {
    CellNamesAreDecoded(s.cells, doc.seriesAttributes, |s.cells|);
    DecodedIsAttributed(s.cells, doc.seriesAttributes, n);
  }

  // What is configured for the fields that may be.
  function DefaultOf(cfg: Settings, field: Field): Option<string> {
    match field
    case Currency => cfg.currency
    case Unit => cfg.unit
    case Collection => cfg.collection
    case _ => None
  }

  lemma DefaultFills(cfg: Settings, canonical: Names, field: Field)
    ensures var c, name := Completed(cfg, canonical), Canon(field);
            && (name in c <==> name in canonical || DefaultOf(cfg, field).Some?)
            && (name in c ==> c[name] == if name in canonical then canonical[name] else DefaultOf(cfg, field).value)
  {
  }

  // --------------------------------------------------------------------------------------------
  // Headers
  // --------------------------------------------------------------------------------------------

  function Dotted(parts: seq<string>): string {
    if parts == [] then "" else if |parts| == 1 then parts[0] else parts[0] + "." + Dotted(parts[1..])
  }

  lemma {:induction false} DottedEnd(parts: seq<string>, last: string)
    requires parts != []
    ensures Dotted(parts + [last]) == Dotted(parts) + "." + last
  {
    if |parts| == 1 {
      assert (parts + [last])[1..] == [last];
    } else {
      assert (parts + [last])[1..] == parts[1..] + [last];
      DottedEnd(parts[1..], last);
    }
  }

  lemma {:induction false} JoinedIsDotted(parts: seq<string>)
    ensures Joined(parts) == Dotted(parts)
  {
    if |parts| > 1 {
      var front, last := parts[..|parts| - 1], parts[|parts| - 1];
      JoinedIsDotted(front);
      DottedEnd(front, last);
      assert parts == front + [last];
    }
  }

  // The values of the ordered names, joined by dots.
  ghost predicate KeyText(doc: Document, s: Series, order: seq<string>, text: string) {
    exists parts :: IsDottedKey(doc, s, order, parts, text)
  }

  ghost predicate IsDottedKey(doc: Document, s: Series, order: seq<string>, parts: seq<string>, text: string) {
    |parts| == |order| && text == Dotted(parts) && forall i :: 0 <= i < |order| ==> SeriesValue(doc, s, order[i], parts[i])
  }

  function FieldOf(h: Header, field: Field): string {
    match field
    case Economy => h.economy
    case Currency => h.currency
    case Frequency => h.frequency
    case Unit => h.unit
    case Collection => h.collection
  }

  function RecordField(r: Record, field: Field): string {
    match field
    case Economy => r.economy
    case Currency => r.currency
    case Frequency => r.frequency
    case Unit => r.unit
    case Collection => r.collection
  }

  // The text is the series' value of the field, or the configured one.
  ghost predicate FieldFits(cfg: Settings, doc: Document, s: Series, field: Field, text: string) {
    FieldValue(doc, s, field, DefaultOf(cfg, field), text)
  }

  // What a series says in every one of its records.
  ghost predicate HeaderFits(cfg: Settings, doc: Document, s: Series, h: Header) {
    && (forall field :: FieldFits(cfg, doc, s, field, FieldOf(h, field)))
    && KeyText(doc, s, if cfg.keyOrder != [] then cfg.keyOrder else DimensionNames(doc.seriesDimensions), h.fullKey)
    && (forall n :: n in h.dimensions + h.attributes <==> SeriesNames(doc, s, n))
    && (forall n :: n in h.dimensions + h.attributes ==> SeriesValue(doc, s, n, (h.dimensions + h.attributes)[n]))
  }

  // The completed canonical entries of a series.
  function CompletedEntries(cfg: Settings, doc: Document, s: Series): Names
    requires Decoded(s.key, doc.seriesDimensions).Some?
  {
    DecodedNames(s.key, doc.seriesDimensions);
    CellNamesAreDecoded(s.cells, doc.seriesAttributes, |s.cells|);
    var values := Decoded(s.key, doc.seriesDimensions).value + DecodedCells(s.cells, doc.seriesAttributes, |s.cells|);
    Completed(cfg, Canonical(Alias, PresentNames(doc, s), values))
  }

  lemma FieldsAreEntries(cfg: Settings, doc: Document, s: Series)
    requires SeriesHeader(cfg, doc, s).Some?
    ensures Decoded(s.key, doc.seriesDimensions).Some?
    ensures var h, c := SeriesHeader(cfg, doc, s).value, CompletedEntries(cfg, doc, s);
            && "economy" in c && h.economy == c["economy"] && "currency" in c && h.currency == c["currency"]
            && "frequency" in c && h.frequency == c["frequency"] && "unit" in c && h.unit == c["unit"]
            && "collection_indicator" in c && h.collection == c["collection_indicator"]
  {
  }

  // The header's field is the completed canonical entry.
  lemma FieldIsCompleted(cfg: Settings, doc: Document, s: Series, field: Field)
    requires SeriesHeader(cfg, doc, s).Some?
    ensures Decoded(s.key, doc.seriesDimensions).Some?
    ensures Canon(field) in CompletedEntries(cfg, doc, s)
    ensures FieldOf(SeriesHeader(cfg, doc, s).value, field) == CompletedEntries(cfg, doc, s)[Canon(field)]
  {
    FieldsAreEntries(cfg, doc, s);
  }

  lemma FieldMeans(cfg: Settings, doc: Document, s: Series, field: Field)
    requires SeriesHeader(cfg, doc, s).Some?
    ensures FieldValue(doc, s, field, DefaultOf(cfg, field), FieldOf(SeriesHeader(cfg, doc, s).value, field))
  {
    FieldIsCompleted(cfg, doc, s, field);
    CanonicalFieldMeans(doc, s, field);
    var values := Decoded(s.key, doc.seriesDimensions).value + DecodedCells(s.cells, doc.seriesAttributes, |s.cells|);
    DefaultFills(cfg, Canonical(Alias, PresentNames(doc, s), values), field);
  }

  lemma KeyMeans(doc: Document, s: Series, order: seq<string>)
    requires Decoded(s.key, doc.seriesDimensions).Some?
    ensures var values := Decoded(s.key, doc.seriesDimensions).value + DecodedCells(s.cells, doc.seriesAttributes, |s.cells|);
            FullKey(order, values).Some? ==> KeyText(doc, s, order, FullKey(order, values).value)
  {
    var values := Decoded(s.key, doc.seriesDimensions).value + DecodedCells(s.cells, doc.seriesAttributes, |s.cells|);
    if FullKey(order, values).Some? {
      var parts := seq(|order|, i requires 0 <= i < |order| => values[order[i]]);
      JoinedIsDotted(parts);
      forall i | 0 <= i < |order| ensures SeriesValue(doc, s, order[i], parts[i]) {
        ValuesMean(doc, s, order[i]);
      }
      assert IsDottedKey(doc, s, order, parts, FullKey(order, values).value);
    }
  }

  lemma HeaderMeans(cfg: Settings, doc: Document, s: Series)
    requires SeriesHeader(cfg, doc, s).Some?
    ensures HeaderFits(cfg, doc, s, SeriesHeader(cfg, doc, s).value)
  {
    forall field ensures FieldFits(cfg, doc, s, field, FieldOf(SeriesHeader(cfg, doc, s).value, field)) {
      FieldMeans(cfg, doc, s, field);
    }
    KeyMeans(doc, s, if cfg.keyOrder != [] then cfg.keyOrder else DimensionNames(doc.seriesDimensions));
    forall n ensures var h := SeriesHeader(cfg, doc, s).value;
        && (n in h.dimensions + h.attributes <==> SeriesNames(doc, s, n))
        && (n in h.dimensions + h.attributes ==> SeriesValue(doc, s, n, (h.dimensions + h.attributes)[n]))
    {
      ValuesMean(doc, s, n);
    }
  }

  // --------------------------------------------------------------------------------------------
  // Records
  // --------------------------------------------------------------------------------------------

  // The only observation dimension called TIME_PERIOD, in any case, picks a text that reads as the date.
  ghost predicate DatedBy(cfg: Settings, doc: Document, o: Observation, date: int) {
    exists i, text :: 0 <= i < |doc.observationDimensions| == |o.key| && Picks(o.key[i], doc.observationDimensions[i], text)
      && cfg.readDate(text) == Some(date)
      && forall j :: 0 <= j < |doc.observationDimensions| ==> (Upper(doc.observationDimensions[j].name) == "TIME_PERIOD" <==> j == i)
  }

  // One observation of one series, field by field; an attribute of the observation overrides one of the series.
  ghost predicate RecordFits(cfg: Settings, doc: Document, s: Series, o: Observation, r: Record) {
    && r.dataflow == cfg.dataflow && r.publishedAt == doc.publishedAt && r.version == doc.version
    && (forall field :: FieldFits(cfg, doc, s, field, RecordField(r, field)))
    && KeyText(doc, s, if cfg.keyOrder != [] then cfg.keyOrder else DimensionNames(doc.seriesDimensions), r.seriesKey)
    && DatedBy(cfg, doc, o, r.date)
    && (match o.amount case Absence => r.value == None case Number(text) => r.value == Some(text) case Unreadable => false)
    && (forall n :: n in r.attributes <==> SeriesNames(doc, s, n) || Attributed(o.cells, doc.observationAttributes, n))
    && (forall n :: n in r.attributes ==> AttributeFits(doc, s, o, n, r.attributes[n]))
  }

  ghost predicate AttributeFits(doc: Document, s: Series, o: Observation, n: string, text: string) {
    if Attributed(o.cells, doc.observationAttributes, n) then AttributedBy(o.cells, doc.observationAttributes, n, text)
    else SeriesValue(doc, s, n, text)
  }

  lemma TimeMeans(cfg: Settings, doc: Document, o: Observation, time: string)
    requires TimeName(doc.observationDimensions) == Some(time) && Decoded(o.key, doc.observationDimensions).Some?
    requires time in Decoded(o.key, doc.observationDimensions).value
    ensures var read := cfg.readDate(Decoded(o.key, doc.observationDimensions).value[time]);
            read.Some? ==> DatedBy(cfg, doc, o, read.value)
  {
    var dims := doc.observationDimensions;
    var i :| 0 <= i < |dims| && OnlyTime(dims, i) && dims[i].name == time;
    var text := Decoded(o.key, dims).value[time];
    DecodedIsNamed(o.key, dims, time);
    var k :| IsLastNamed(dims, k, time) && Picks(o.key[k], dims[k], text);
    assert IsTime(dims[k]);
    assert k == i;
    assert Picks(o.key[i], dims[i], text);
  }

  lemma AttributesMean(doc: Document, s: Series, o: Observation, h: Header, n: string)
    requires forall n :: n in h.dimensions + h.attributes <==> SeriesNames(doc, s, n)
    requires forall n :: n in h.dimensions + h.attributes ==> SeriesValue(doc, s, n, (h.dimensions + h.attributes)[n])
    ensures var all := h.dimensions + h.attributes + DecodedCells(o.cells, doc.observationAttributes, |o.cells|);
            && (n in all <==> SeriesNames(doc, s, n) || Attributed(o.cells, doc.observationAttributes, n))
            && (n in all ==> AttributeFits(doc, s, o, n, all[n]))
  {
    DecodedIsAttributed(o.cells, doc.observationAttributes, n);
  }

  // The columns of a record, as its header and observation give them.
  lemma RecordColumns(cfg: Settings, doc: Document, time: string, h: Header, o: Observation)
    requires ObservationRecord(cfg, doc, time, h, o).Some?
    ensures Decoded(o.key, doc.observationDimensions).Some? && time in Decoded(o.key, doc.observationDimensions).value
    ensures var made := ObservationRecord(cfg, doc, time, h, o).value;
            && |made| == 1
            && var r := made[0];
               && r.dataflow == cfg.dataflow && r.publishedAt == doc.publishedAt && r.version == doc.version
               && r.seriesKey == h.fullKey && (forall field :: RecordField(r, field) == FieldOf(h, field))
               && cfg.readDate(Decoded(o.key, doc.observationDimensions).value[time]) == Some(r.date)
               && (match o.amount case Absence => r.value == None case Number(text) => r.value == Some(text) case Unreadable => false)
               && r.attributes == h.dimensions + h.attributes + DecodedCells(o.cells, doc.observationAttributes, |o.cells|)
  {
  }

  lemma RecordMeans(cfg: Settings, doc: Document, time: string, s: Series, h: Header, o: Observation)
    requires HeaderFits(cfg, doc, s, h) && TimeName(doc.observationDimensions) == Some(time)
    requires ObservationRecord(cfg, doc, time, h, o).Some?
    ensures var made := ObservationRecord(cfg, doc, time, h, o).value; |made| == 1 && RecordFits(cfg, doc, s, o, made[0])
  {
    RecordColumns(cfg, doc, time, h, o);
    TimeMeans(cfg, doc, o, time);
    RecordFitsHeader(cfg, doc, s, h, o, ObservationRecord(cfg, doc, time, h, o).value[0]);
  }

  lemma RecordFitsHeader(cfg: Settings, doc: Document, s: Series, h: Header, o: Observation, r: Record)
    requires HeaderFits(cfg, doc, s, h) && DatedBy(cfg, doc, o, r.date)
    requires r.dataflow == cfg.dataflow && r.publishedAt == doc.publishedAt && r.version == doc.version
    requires r.seriesKey == h.fullKey && forall field :: RecordField(r, field) == FieldOf(h, field)
    requires match o.amount case Absence => r.value == None case Number(text) => r.value == Some(text) case Unreadable => false
    requires r.attributes == h.dimensions + h.attributes + DecodedCells(o.cells, doc.observationAttributes, |o.cells|)
    ensures RecordFits(cfg, doc, s, o, r)
  {
    forall n ensures (n in r.attributes <==> SeriesNames(doc, s, n) || Attributed(o.cells, doc.observationAttributes, n)) &&
                     (n in r.attributes ==> AttributeFits(doc, s, o, n, r.attributes[n]))
    {
      AttributesMean(doc, s, o, h, n);
    }
    forall field ensures FieldFits(cfg, doc, s, field, RecordField(r, field)) {
      assert FieldFits(cfg, doc, s, field, FieldOf(h, field));
    }
  }

  // --------------------------------------------------------------------------------------------
  // The response
  // --------------------------------------------------------------------------------------------

  // Where the results of the n-th item start.
  function StartOf<T, R>(each: T -> Option<seq<R>>, items: seq<T>, n: nat): nat
    requires n <= |items|
  {
    if n == 0 then 0 else StartOf(each, items, n - 1) + match each(items[n - 1]) case Some(more) => |more| case None => 0
  }

  lemma {:induction false} GatheredHolds<T, R>(each: T -> Option<seq<R>>, items: seq<T>, n: nat, i: nat)
    requires n <= |items| && i < n && Gathered(each, items, n).Some?
    ensures |Gathered(each, items, n).value| == StartOf(each, items, n)
    ensures each(items[i]).Some? && StartOf(each, items, i) + |each(items[i]).value| <= StartOf(each, items, n)
    ensures forall k :: 0 <= k < |each(items[i]).value| ==>
              Gathered(each, items, n).value[StartOf(each, items, i) + k] == each(items[i]).value[k]
  {
    GatheredLength(each, items, n);
    GatheredLength(each, items, n - 1);
    if i < n - 1 {
      GatheredHolds(each, items, n - 1, i);
    }
  }

  lemma {:induction false} GatheredLength<T, R>(each: T -> Option<seq<R>>, items: seq<T>, n: nat)
    requires n <= |items| && Gathered(each, items, n).Some?
    ensures |Gathered(each, items, n).value| == StartOf(each, items, n)
  {
    if n > 0 {
      GatheredLength(each, items, n - 1);
    }
  }

  // As many observations as the first n series have.
  function Observations(series: seq<Series>, n: nat): nat
    requires n <= |series|
  {
    if n == 0 then 0 else Observations(series, n - 1) + |series[n - 1].observations|
  }

  ghost predicate SeriesFits(cfg: Settings, doc: Document, s: Series, made: seq<Record>) {
    |made| == |s.observations| && forall k :: 0 <= k < |made| ==> RecordFits(cfg, doc, s, s.observations[k], made[k])
  }

  // Items that each yield one fitting result.
  lemma {:induction false} GatheredOnes<T(!new), R>(each: T -> Option<seq<R>>, items: seq<T>, n: nat, fits: (T, R) -> bool)
    requires n <= |items| && Gathered(each, items, n).Some?
    requires forall t :: each(t).Some? ==> |each(t).value| == 1 && fits(t, each(t).value[0])
    ensures |Gathered(each, items, n).value| == n
    ensures forall k :: 0 <= k < n ==> fits(items[k], Gathered(each, items, n).value[k])
  {
    if n > 0 {
      GatheredOnes(each, items, n - 1, fits);
    }
  }

  lemma ObservationsMean(cfg: Settings, doc: Document, time: string, s: Series, h: Header)
    requires HeaderFits(cfg, doc, s, h) && TimeName(doc.observationDimensions) == Some(time)
    requires Gathered(EachObservation(cfg, doc, time, h), s.observations, |s.observations|).Some?
    ensures SeriesFits(cfg, doc, s, Gathered(EachObservation(cfg, doc, time, h), s.observations, |s.observations|).value)
  {
    var each := EachObservation(cfg, doc, time, h);
    var fits := (o: Observation, r: Record) => RecordFits(cfg, doc, s, o, r);
    forall o | each(o).Some? ensures |each(o).value| == 1 && fits(o, each(o).value[0]) {
      RecordMeans(cfg, doc, time, s, h, o);
    }
    GatheredOnes(each, s.observations, |s.observations|, fits);
    var made := Gathered(each, s.observations, |s.observations|).value;
    assert forall k :: 0 <= k < |made| ==> fits(s.observations[k], made[k]);
  }

  lemma SeriesMeans(cfg: Settings, doc: Document, time: string, s: Series)
    requires TimeName(doc.observationDimensions) == Some(time) && SeriesRecords(cfg, doc, time, s).Some?
    ensures SeriesFits(cfg, doc, s, SeriesRecords(cfg, doc, time, s).value)
  {
    HeaderMeans(cfg, doc, s);
    ObservationsMean(cfg, doc, time, s, SeriesHeader(cfg, doc, s).value);
  }

  // Series that each yield as many records as they have observations.
  lemma {:induction false} StartsAreObservations(each: Series -> Option<seq<Record>>, series: seq<Series>, n: nat)
    requires n <= |series| && Gathered(each, series, n).Some?
    requires forall s: Series :: each(s).Some? ==> |each(s).value| == |s.observations|
    ensures StartOf(each, series, n) == Observations(series, n)
  {
    if n > 0 {
      StartsAreObservations(each, series, n - 1);
    }
  }

  lemma {:induction false} GatheredBefore<T, R>(each: T -> Option<seq<R>>, items: seq<T>, n: nat, m: nat)
    requires m <= n <= |items| && Gathered(each, items, n).Some?
    ensures Gathered(each, items, m).Some?
  {
    if m < n {
      GatheredBefore(each, items, n - 1, m);
    }
  }

  // The k-th observation of the i-th series has its record behind those of all earlier observations.
  lemma RecordsInOrder(each: Series -> Option<seq<Record>>, series: seq<Series>, i: nat, k: nat)
    requires i < |series| && k < |series[i].observations| && Gathered(each, series, |series|).Some?
    requires forall s: Series :: each(s).Some? ==> |each(s).value| == |s.observations|
    ensures var all := Gathered(each, series, |series|).value;
            && |all| == Observations(series, |series|) && Observations(series, i) + k < |all|
            && each(series[i]).Some? && all[Observations(series, i) + k] == each(series[i]).value[k]
  {
    GatheredHolds(each, series, |series|, i);
    GatheredBefore(each, series, |series|, i);
    StartsAreObservations(each, series, i);
    StartsAreObservations(each, series, |series|);
  }

  lemma ParsedIsGathered(cfg: Settings, doc: Document)
    requires Parsed(cfg, doc).Some?
    ensures TimeName(doc.observationDimensions).Some?
    ensures Parsed(cfg, doc) == Gathered(EachSeries(cfg, doc, TimeName(doc.observationDimensions).value), doc.series, |doc.series|)
  {
  }

  lemma RecordOfSeries(cfg: Settings, doc: Document, time: string, s: Series, k: nat)
    requires TimeName(doc.observationDimensions) == Some(time) && SeriesRecords(cfg, doc, time, s).Some?
    requires k < |s.observations|
    ensures k < |SeriesRecords(cfg, doc, time, s).value|
    ensures RecordFits(cfg, doc, s, s.observations[k], SeriesRecords(cfg, doc, time, s).value[k])
  {
    SeriesMeans(cfg, doc, time, s);
  }

  lemma EachSeriesCounts(cfg: Settings, doc: Document, time: string, s: Series)
    requires TimeName(doc.observationDimensions) == Some(time)
    ensures EachSeries(cfg, doc, time)(s) == SeriesRecords(cfg, doc, time, s)
    ensures SeriesRecords(cfg, doc, time, s).Some? ==> |SeriesRecords(cfg, doc, time, s).value| == |s.observations|
  {
    if SeriesRecords(cfg, doc, time, s).Some? {
      SeriesMeans(cfg, doc, time, s);
    }
  }

  // Where the record of each observation stands.
  lemma ResponseInOrder(cfg: Settings, doc: Document, time: string, i: nat, k: nat)
    requires Parsed(cfg, doc).Some? && TimeName(doc.observationDimensions) == Some(time)
    requires i < |doc.series| && k < |doc.series[i].observations|
    ensures var all, made := Parsed(cfg, doc).value, SeriesRecords(cfg, doc, time, doc.series[i]);
            && |all| == Observations(doc.series, |doc.series|) && Observations(doc.series, i) + k < |all|
            && made.Some? && k < |made.value| && all[Observations(doc.series, i) + k] == made.value[k]
  {
    ParsedIsGathered(cfg, doc);
    var each := EachSeries(cfg, doc, time);
    forall s: Series | each(s).Some? ensures |each(s).value| == |s.observations| {
      EachSeriesCounts(cfg, doc, time, s);
    }
    RecordsInOrder(each, doc.series, i, k);
    EachSeriesCounts(cfg, doc, time, doc.series[i]);
  }

  // Main result.  A parsed response has one record for each observation of each series, in order, and each says
  // what its series and observation say.
  lemma ResponseMeans(cfg: Settings, doc: Document, i: nat, k: nat)
    requires Parsed(cfg, doc).Some? && i < |doc.series| && k < |doc.series[i].observations|
    ensures |Parsed(cfg, doc).value| == Observations(doc.series, |doc.series|)
    ensures Observations(doc.series, i) + k < |Parsed(cfg, doc).value|
    ensures RecordFits(cfg, doc, doc.series[i], doc.series[i].observations[k], Parsed(cfg, doc).value[Observations(doc.series, i) + k])
  {
    ParsedIsGathered(cfg, doc);
    var time := TimeName(doc.observationDimensions).value;
    ResponseInOrder(cfg, doc, time, i, k);
    var fits := (r: Record) => RecordFits(cfg, doc, doc.series[i], doc.series[i].observations[k], r);
    assert fits(SeriesRecords(cfg, doc, time, doc.series[i]).value[k]) by {
      RecordOfSeries(cfg, doc, time, doc.series[i], k);
    }
    assert fits(Parsed(cfg, doc).value[Observations(doc.series, i) + k]);
  }
}
