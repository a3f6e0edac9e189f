/** What enters a candidate's fingerprint: `_canonicalize`, `fx_fingerprint` and `policy_rate_fingerprint` of
    `app/domain/fingerprints.py`.

    The JSON dump and the SHA-256 digest are not modelled: a fingerprint stands for the canonical tree. */
module Fingerprints {
  import opened Common
  import opened Cursors
  import opened Decimals

  datatype Json =
    | JsonNull
    | JsonText(text: string)
    | JsonNumber(number: int)
    | JsonBool(truth: bool)
    | JsonList(items: seq<Json>)
    | JsonObject(fields: map<string, Json>)

  datatype FxCandidate = FxCandidate(
    date: int, value: Number, quoteType: string, publishedAt: Option<int>, attributes: map<string, Json>)

  datatype RateCandidate = RateCandidate(
    date: int, value: Number, unit: string, frequency: string, rateType: string, publishedAt: Option<int>,
    attributes: map<string, Json>)

  // --------------------------------------------------------------------------------------------
  // Instants
  // --------------------------------------------------------------------------------------------

  const MICROS_PER_SECOND := 1_000_000

  predicate Representable(day: int) {
    MIN_DATE <= day <= MAX_DATE
  }

  // Whole seconds since midnight as HH:MM:SS.
  function ClockText(seconds: nat): string
    requires seconds < 86_400
  {
    FixedDigits(seconds / 3600, 10, 2) + ":" + FixedDigits(seconds / 60 % 60, 10, 2) + ":" + FixedDigits(seconds % 60, 10, 2)
  }

  // `isoformat` shows microseconds only when there are any.
  function MicrosText(micros: nat): string
    requires micros < MICROS_PER_SECOND
  {
    if micros == 0 then "" else "." + FixedDigits(micros, 10, 6)
  }

  function InstantText(t: int): string
    requires Representable(DateOf(t))
  {
    var inDay := t % MICROS_PER_DAY;
    IsoFormat(FromDay(DateOf(t))) + "T" + ClockText(inDay / MICROS_PER_SECOND) + MicrosText(inDay % MICROS_PER_SECOND) + "Z"
  }

  lemma PowersOfTen()
    ensures Pow(10, 2) == 100 && Pow(10, 6) == 1_000_000
  {
    assert Pow(10, 1) == 10;
    PowSum(10, 2, 2);
    PowSum(10, 4, 2);
  }

  lemma ClockRoundTrip(seconds: nat)
    requires seconds < 86_400
    ensures var s := ClockText(seconds);
            && |s| == 8
            && ParseDigits(s[..2], 10) == Some(seconds / 3600)
            && ParseDigits(s[3..5], 10) == Some(seconds / 60 % 60)
            && ParseDigits(s[6..], 10) == Some(seconds % 60)
  {
    PowersOfTen();
    DecimalRoundTrip(seconds / 3600, 2);
    DecimalRoundTrip(seconds / 60 % 60, 2);
    DecimalRoundTrip(seconds % 60, 2);
    var s := ClockText(seconds);
    assert s[..2] == FixedDigits(seconds / 3600, 10, 2);
    assert s[3..5] == FixedDigits(seconds / 60 % 60, 10, 2);
    assert s[6..] == FixedDigits(seconds % 60, 10, 2);
  }

  lemma ClockArithmetic(a: nat, b: nat)
    requires a / 3600 == b / 3600 && a / 60 % 60 == b / 60 % 60 && a % 60 == b % 60
    ensures a == b
  {
    assert a / 60 == a / 3600 * 60 + a / 60 % 60 && b / 60 == b / 3600 * 60 + b / 60 % 60;
  }

  lemma ClockInjective(a: nat, b: nat)
    requires a < 86_400 && b < 86_400 && ClockText(a) == ClockText(b)
    ensures a == b
  {
    ClockRoundTrip(a);
    ClockRoundTrip(b);
    ClockArithmetic(a, b);
  }

  lemma MicrosInjective(a: nat, b: nat)
    requires a < MICROS_PER_SECOND && b < MICROS_PER_SECOND && MicrosText(a) == MicrosText(b)
    ensures a == b
  {
    PowersOfTen();
    DecimalRoundTrip(a, 6);
    DecimalRoundTrip(b, 6);
    assert a != 0 ==> MicrosText(a)[1..] == FixedDigits(a, 10, 6);
    assert b != 0 ==> MicrosText(b)[1..] == FixedDigits(b, 10, 6);
  }

  lemma DayTextInjective(a: int, b: int)
    requires Representable(a) && Representable(b) && IsoFormat(FromDay(a)) == IsoFormat(FromDay(b))
    ensures a == b
  {
    FromDayRoundTrip(a);
    FromDayRoundTrip(b);
    IsoRoundTrip(FromDay(a));
    IsoRoundTrip(FromDay(b));
  }

  lemma DayTextLength(day: int)
    requires Representable(day)
    ensures |IsoFormat(FromDay(day))| == 10
  {
    FromDayRoundTrip(day);
    IsoRoundTrip(FromDay(day));
  }

  // The date, clock and fraction of an instant's text.
  lemma InstantParts(t: int)
    requires Representable(DateOf(t))
    ensures var s, inDay := InstantText(t), t % MICROS_PER_DAY;
            && |s| >= 20
            && s[..10] == IsoFormat(FromDay(DateOf(t)))
            && s[11..19] == ClockText(inDay / MICROS_PER_SECOND)
            && s[19..|s| - 1] == MicrosText(inDay % MICROS_PER_SECOND)
  {
    DayTextLength(DateOf(t));
    ClockRoundTrip(t % MICROS_PER_DAY / MICROS_PER_SECOND);
  }

  lemma InstantTextInjective(a: int, b: int)
    requires Representable(DateOf(a)) && Representable(DateOf(b)) && InstantText(a) == InstantText(b)
    ensures a == b
  {
    InstantParts(a);
    InstantParts(b);
    DayTextInjective(DateOf(a), DateOf(b));
    ClockInjective(a % MICROS_PER_DAY / MICROS_PER_SECOND, b % MICROS_PER_DAY / MICROS_PER_SECOND);
    MicrosInjective(a % MICROS_PER_DAY % MICROS_PER_SECOND, b % MICROS_PER_DAY % MICROS_PER_SECOND);
  }

  // --------------------------------------------------------------------------------------------
  // Canonical trees
  // --------------------------------------------------------------------------------------------

  function DateNode(day: int): Json
    requires Representable(day)
  {
    JsonText(IsoFormat(FromDay(day)))
  }

  predicate RepresentableInstant(t: Option<int>) {
    t.None? || Representable(DateOf(t.value))
  }

  function InstantNode(t: Option<int>): Json
    requires RepresentableInstant(t)
  {
    if t.None? then JsonNull else JsonText(InstantText(t.value))
  }

  // `_selected`: all attributes, or those of the chosen names that are present.
  function Selected(attributes: map<string, Json>, names: Option<set<string>>): map<string, Json> {
    if names.None? then attributes else map name | name in attributes && name in names.value :: attributes[name]
  }

  function FxObject(series: Json, date: Json, value: Json, quoteType: Json, published: Json, attributes: Json): Json {
    JsonObject(map[
      "series" := series, "observation_date" := date, "value" := value, "quote_type" := quoteType,
      "provider_publication_timestamp" := published, "attributes" := attributes])
  }

  function RateObject(series: Json, date: Json, value: Json, unit: Json, frequency: Json, rateType: Json,
                      published: Json, attributes: Json): Json
  {
    JsonObject(map[
      "series" := series, "observation_date" := date, "value" := value, "unit" := unit, "frequency" := frequency,
      "rate_type" := rateType, "provider_publication_timestamp" := published, "attributes" := attributes])
  }

  // Nothing comes back when the value is not finite: the source raises.
  function FxTree(c: FxCandidate, series: string, names: Option<set<string>>): Option<Json>
    requires Representable(c.date) && RepresentableInstant(c.publishedAt)
  {
    match CanonicalDecimal(c.value)
    case None => None
    case Some(value) =>
      Some(FxObject(JsonText(series), DateNode(c.date), JsonText(value), JsonText(c.quoteType),
                    InstantNode(c.publishedAt), JsonObject(Selected(c.attributes, names))))
  }

  function RateTree(c: RateCandidate, series: string, names: Option<set<string>>): Option<Json>
    requires Representable(c.date) && RepresentableInstant(c.publishedAt)
  {
    match CanonicalDecimal(c.value)
    case None => None
    case Some(value) =>
      Some(RateObject(JsonText(series), DateNode(c.date), JsonText(value), JsonText(c.unit), JsonText(c.frequency),
                      JsonText(c.rateType), InstantNode(c.publishedAt), JsonObject(Selected(c.attributes, names))))
  }

  lemma FxObjectInjective(a: Json, b: Json, c: Json, d: Json, e: Json, f: Json,
                          a': Json, b': Json, c': Json, d': Json, e': Json, f': Json)
    requires FxObject(a, b, c, d, e, f) == FxObject(a', b', c', d', e', f')
    ensures (a, b, c) == (a', b', c') && (d, e, f) == (d', e', f')
  {
    var m, n := FxObject(a, b, c, d, e, f).fields, FxObject(a', b', c', d', e', f').fields;
    assert m["series"] == n["series"] && m["observation_date"] == n["observation_date"];
    assert m["value"] == n["value"] && m["quote_type"] == n["quote_type"];
    assert m["provider_publication_timestamp"] == n["provider_publication_timestamp"];
    assert m["attributes"] == n["attributes"];
  }

  lemma RateFirstFields(a: Json, b: Json, c: Json, d: Json, e: Json, f: Json, g: Json, h: Json)
    ensures var m := RateObject(a, b, c, d, e, f, g, h).fields;
            && "series" in m && m["series"] == a && "observation_date" in m && m["observation_date"] == b
            && "value" in m && m["value"] == c && "unit" in m && m["unit"] == d
  {
  }

  lemma RateLastFields(a: Json, b: Json, c: Json, d: Json, e: Json, f: Json, g: Json, h: Json)
    ensures var m := RateObject(a, b, c, d, e, f, g, h).fields;
            && "frequency" in m && m["frequency"] == e && "rate_type" in m && m["rate_type"] == f
            && "provider_publication_timestamp" in m && m["provider_publication_timestamp"] == g
            && "attributes" in m && m["attributes"] == h
  {
  }

  lemma RateObjectInjective(a: Json, b: Json, c: Json, d: Json, e: Json, f: Json, g: Json, h: Json,
                            a': Json, b': Json, c': Json, d': Json, e': Json, f': Json, g': Json, h': Json)
    requires RateObject(a, b, c, d, e, f, g, h) == RateObject(a', b', c', d', e', f', g', h')
    ensures (a, b, c, d) == (a', b', c', d') && (e, f, g, h) == (e', f', g', h')
  {
    RateFirstFields(a, b, c, d, e, f, g, h);
    RateFirstFields(a', b', c', d', e', f', g', h');
    RateLastFields(a, b, c, d, e, f, g, h);
    RateLastFields(a', b', c', d', e', f', g', h');
  }

  lemma NodesInjective(d: int, e: int, t: Option<int>, u: Option<int>, x: Number, y: Number)
    requires Representable(d) && Representable(e) && RepresentableInstant(t) && RepresentableInstant(u)
    requires x.Finite? && y.Finite?
    ensures DateNode(d) == DateNode(e) <==> d == e
    ensures InstantNode(t) == InstantNode(u) <==> t == u
    ensures CanonicalDecimal(x) == CanonicalDecimal(y) <==> ValueOf(x) == ValueOf(y)
  {
    if DateNode(d) == DateNode(e) {
      DayTextInjective(d, e);
    }
    if t.Some? && u.Some? && InstantNode(t) == InstantNode(u) {
      InstantTextInjective(t.value, u.value);
    }
    CanonicalExactlyWhenEqual(x, y);
  }

  // All attributes are the same; or, when names are chosen, each chosen one is missing from both or the same in
  // both.
  predicate AttributesAgree(a: map<string, Json>, b: map<string, Json>, names: Option<set<string>>) {
    match names
    case None => a == b
    case Some(chosen) => forall n :: n in chosen ==> (n in a <==> n in b) && (n in a && n in b ==> a[n] == b[n])
  }

  lemma SelectionMeans(a: map<string, Json>, b: map<string, Json>, names: Option<set<string>>)
    ensures Selected(a, names) == Selected(b, names) <==> AttributesAgree(a, b, names)
  {
    if names.Some? {
      var x, y := Selected(a, names), Selected(b, names);
      if x == y {
        forall n | n in names.value ensures (n in a <==> n in b) && (n in a && n in b ==> a[n] == b[n]) {
          assert (n in x <==> n in a) && (n in y <==> n in b);
        }
      }
      if AttributesAgree(a, b, names) {
        assert forall n :: n in x <==> n in y;
        assert forall n :: n in x ==> x[n] == y[n];
      }
    }
  }

  // Two FX candidates share a fingerprint exactly when they say the same thing: same series, day, numeric
  // value, quote type, publication instant and selected attributes.  Retrieval and source never matter.
  lemma FxFingerprintMeans(a: FxCandidate, b: FxCandidate, s: string, t: string, names: Option<set<string>>)
    requires Representable(a.date) && RepresentableInstant(a.publishedAt) && a.value.Finite?
    requires Representable(b.date) && RepresentableInstant(b.publishedAt) && b.value.Finite?
    ensures FxTree(a, s, names) == FxTree(b, t, names) <==>
            && s == t && a.date == b.date && ValueOf(a.value) == ValueOf(b.value)
            && a.quoteType == b.quoteType && a.publishedAt == b.publishedAt
            && AttributesAgree(a.attributes, b.attributes, names)
  {
    NodesInjective(a.date, b.date, a.publishedAt, b.publishedAt, a.value, b.value);
    SelectionMeans(a.attributes, b.attributes, names);
    if FxTree(a, s, names) == FxTree(b, t, names) {
      FxObjectInjective(
        JsonText(s), DateNode(a.date), JsonText(CanonicalDecimal(a.value).value), JsonText(a.quoteType),
        InstantNode(a.publishedAt), JsonObject(Selected(a.attributes, names)),
        JsonText(t), DateNode(b.date), JsonText(CanonicalDecimal(b.value).value), JsonText(b.quoteType),
        InstantNode(b.publishedAt), JsonObject(Selected(b.attributes, names)));
    }
  }

  // The same for policy rates, with unit, frequency and rate type.
  lemma RateFingerprintMeans(a: RateCandidate, b: RateCandidate, s: string, t: string, names: Option<set<string>>)
    requires Representable(a.date) && RepresentableInstant(a.publishedAt) && a.value.Finite?
    requires Representable(b.date) && RepresentableInstant(b.publishedAt) && b.value.Finite?
    ensures RateTree(a, s, names) == RateTree(b, t, names) <==>
            && s == t && a.date == b.date && ValueOf(a.value) == ValueOf(b.value)
            && a.unit == b.unit && a.frequency == b.frequency && a.rateType == b.rateType
            && a.publishedAt == b.publishedAt
            && AttributesAgree(a.attributes, b.attributes, names)
  {
    NodesInjective(a.date, b.date, a.publishedAt, b.publishedAt, a.value, b.value);
    SelectionMeans(a.attributes, b.attributes, names);
    if RateTree(a, s, names) == RateTree(b, t, names) {
      RateObjectInjective(
        JsonText(s), DateNode(a.date), JsonText(CanonicalDecimal(a.value).value), JsonText(a.unit),
        JsonText(a.frequency), JsonText(a.rateType), InstantNode(a.publishedAt), JsonObject(Selected(a.attributes, names)),
        JsonText(t), DateNode(b.date), JsonText(CanonicalDecimal(b.value).value), JsonText(b.unit),
        JsonText(b.frequency), JsonText(b.rateType), InstantNode(b.publishedAt), JsonObject(Selected(b.attributes, names)));
    }
  }
}
