/** Opaque page cursors: `encode_cursor` and `decode_cursor` of `app/application/queries/observations.py`.

    A cursor is the unpadded base64url text (section 5 of RFC 4648) of the JSON array
    ["YYYY-MM-DD","xxxxxxxx-xxxx-xxxx-xxxx-xxxxxxxxxxxx"].  Bytes are written as ASCII characters. */
module Cursors {
  import opened Common

  // --------------------------------------------------------------------------------------------
  // Fixed-width digits
  // --------------------------------------------------------------------------------------------

  function DigitChar(d: nat): char
    requires d < 16
  {
    if d < 10 then '0' + d as char else 'a' + (d - 10) as char
  }

  function DigitValue(c: char): Option<nat> {
    if '0' <= c <= '9' then Some(c as nat - '0' as nat)
    else if 'a' <= c <= 'f' then Some(c as nat - 'a' as nat + 10)
    else None
  }

  function FixedDigits(n: nat, base: nat, width: nat): string
    requires 2 <= base <= 16
  {
    if width == 0 then "" else FixedDigits(n / base, base, width - 1) + [DigitChar(n % base)]
  }

  function ParseDigits(s: string, base: nat): Option<nat> {
    if s == "" then Some(0)
    else
      var high := ParseDigits(s[..|s| - 1], base);
      var low := DigitValue(s[|s| - 1]);
      if high.None? || low.None? || low.value >= base then None else Some(high.value * base + low.value)
  }

  // Text that JSON neither escapes nor ends: no quotation mark, no backslash.
  predicate Plain(s: string) {
    forall i :: 0 <= i < |s| ==> s[i] != '"' && s[i] != '\\'
  }

  // Text whose characters are single bytes.
  predicate Bytes(s: string) {
    forall i :: 0 <= i < |s| ==> s[i] as int < 256
  }

  lemma DigitRoundTrip(d: nat)
    requires d < 16
    ensures DigitValue(DigitChar(d)) == Some(d) && Plain([DigitChar(d)]) && Bytes([DigitChar(d)])
  {
  }

  lemma OneMoreDigit(high: string, q: nat, d: nat, base: nat)
    requires 2 <= base <= 16 && d < base
    requires ParseDigits(high, base) == Some(q) && Plain(high) && Bytes(high)
    ensures var s := high + [DigitChar(d)];
            ParseDigits(s, base) == Some(q * base + d) && Plain(s) && Bytes(s)
  {
    DigitRoundTrip(d);
    var s := high + [DigitChar(d)];
    assert s[..|s| - 1] == high;
  }

  // The text has the width, reads as the number and needs no escaping.
  predicate Reads(s: string, base: nat, n: nat, width: nat) {
    |s| == width && ParseDigits(s, base) == Some(n) && Plain(s) && Bytes(s)
  }

  lemma {:induction false} DecimalRoundTrip(n: nat, width: nat)
    requires n < Pow(10, width)
    ensures Reads(FixedDigits(n, 10, width), 10, n, width)
  {
    if width > 0 {
      DecimalRoundTrip(n / 10, width - 1);
      OneMoreDigit(FixedDigits(n / 10, 10, width - 1), n / 10, n % 10, 10);
    }
  }

  lemma {:induction false} HexRoundTrip(n: nat, width: nat)
    requires n < Pow(16, width)
    ensures Reads(FixedDigits(n, 16, width), 16, n, width)
  {
    if width > 0 {
      HexRoundTrip(n / 16, width - 1);
      OneMoreDigit(FixedDigits(n / 16, 16, width - 1), n / 16, n % 16, 16);
    }
  }

  // --------------------------------------------------------------------------------------------
  // Calendar dates
  // --------------------------------------------------------------------------------------------

  // Day 0 is 1970-01-01; Python's dates run from 0001-01-01 to 9999-12-31.
  const EPOCH_ORDINAL := 719_163
  const MIN_DATE := 1 - EPOCH_ORDINAL
  const MAX_DATE := 3_652_059 - EPOCH_ORDINAL

  predicate IsLeap(y: int) {
    y % 4 == 0 && (y % 100 != 0 || y % 400 == 0)
  }

  function DaysInYear(y: int): int {
    if IsLeap(y) then 366 else 365
  }

  function DaysInMonth(y: int, m: int): int {
    if m == 2 then (if IsLeap(y) then 29 else 28)
    else if m == 4 || m == 6 || m == 9 || m == 11 then 30
    else 31
  }

  function DaysBeforeYear(y: int): int {
    (y - 1) * 365 + LeapsBefore(y)
  }

  function DaysBeforeMonth(y: int, m: int): int
    requires 1 <= m <= 12
  {
    [0, 31, 59, 90, 120, 151, 181, 212, 243, 273, 304, 334][m - 1] + (if m > 2 && IsLeap(y) then 1 else 0)
  }

  datatype CalendarDate = CalendarDate(year: nat, month: nat, day: nat)

  predicate ValidDate(d: CalendarDate) {
    1 <= d.year <= 9999 && 1 <= d.month <= 12 && 1 <= d.day <= DaysInMonth(d.year, d.month)
  }

  function ToDay(d: CalendarDate): int
    requires ValidDate(d)
  {
    DaysBeforeYear(d.year) + DaysBeforeMonth(d.year, d.month) + d.day - EPOCH_ORDINAL
  }

  function YearOf(ordinal: int, y: nat): nat
    requires 1 <= y && 1 <= ordinal
  {
    if y == 1 || DaysBeforeYear(y) < ordinal then y else YearOf(ordinal, y - 1)
  }

  function MonthOf(year: int, dayOfYear: int, m: nat): nat
    requires 1 <= m <= 12
  {
    if m == 1 || DaysBeforeMonth(year, m) < dayOfYear then m else MonthOf(year, dayOfYear, m - 1)
  }

  function FromDay(day: int): CalendarDate
    requires MIN_DATE <= day <= MAX_DATE
  {
    var ordinal := day + EPOCH_ORDINAL;
    YearOfBounds(ordinal, 9999);
    var year := YearOf(ordinal, 9999);
    var rest := ordinal - DaysBeforeYear(year);
    MonthOfBounds(year, rest, 12);
    var month := MonthOf(year, rest, 12);
    CalendarDate(year, month, rest - DaysBeforeMonth(year, month))
  }

  lemma FourthYear(y: nat)
    requires y >= 1
    ensures y / 4 == (y - 1) / 4 + if y % 4 == 0 then 1 else 0
  {
  }

  lemma HundredthYear(y: nat)
    requires y >= 1
    ensures y / 100 == (y - 1) / 100 + if y % 100 == 0 then 1 else 0
    ensures y % 100 == 0 ==> y % 4 == 0
  {
  }

  lemma FourHundredthYear(y: nat)
    requires y >= 1
    ensures y / 400 == (y - 1) / 400 + if y % 400 == 0 then 1 else 0
    ensures y % 400 == 0 ==> y % 100 == 0
  {
  }

  // The number of leap years before a year, by which its first day is shifted.
  function LeapsBefore(y: int): int {
    (y - 1) / 4 - (y - 1) / 100 + (y - 1) / 400
  }

  lemma NextLeaps(y: nat)
    requires y >= 1
    ensures LeapsBefore(y + 1) == LeapsBefore(y) + if IsLeap(y) then 1 else 0
  {
    FourthYear(y);
    HundredthYear(y);
    FourHundredthYear(y);
  }

  lemma NextYear(y: nat)
    requires y >= 1
    ensures DaysBeforeYear(y + 1) == DaysBeforeYear(y) + DaysInYear(y)
  {
    NextLeaps(y);
  }

  lemma {:induction false} YearOfBounds(ordinal: int, y: nat)
    requires 1 <= y <= 9999 && 1 <= ordinal <= DaysBeforeYear(y) + DaysInYear(y)
    ensures var r := YearOf(ordinal, y);
            1 <= r <= y && DaysBeforeYear(r) < ordinal <= DaysBeforeYear(r) + DaysInYear(r)
  {
    if y > 1 && ordinal <= DaysBeforeYear(y) {
      NextYear(y - 1);
      YearOfBounds(ordinal, y - 1);
    }
  }

  lemma {:induction false} MonthOfBounds(year: int, dayOfYear: int, m: nat)
    requires 1 <= m <= 12 && 1 <= dayOfYear <= DaysBeforeMonth(year, m) + DaysInMonth(year, m)
    ensures var r := MonthOf(year, dayOfYear, m);
            1 <= r <= m && DaysBeforeMonth(year, r) < dayOfYear <= DaysBeforeMonth(year, r) + DaysInMonth(year, r)
  {
    if m > 1 && dayOfYear <= DaysBeforeMonth(year, m) {
      MonthOfBounds(year, dayOfYear, m - 1);
    }
  }

  lemma FromDayRoundTrip(day: int)
    requires MIN_DATE <= day <= MAX_DATE
    ensures ValidDate(FromDay(day)) && ToDay(FromDay(day)) == day
  {
    var ordinal := day + EPOCH_ORDINAL;
    YearOfBounds(ordinal, 9999);
    var year := YearOf(ordinal, 9999);
    MonthOfBounds(year, ordinal - DaysBeforeYear(year), 12);
  }

  function IsoFormat(d: CalendarDate): string {
    FixedDigits(d.year, 10, 4) + "-" + FixedDigits(d.month, 10, 2) + "-" + FixedDigits(d.day, 10, 2)
  }

  function FromIsoFormat(s: string): Option<CalendarDate> {
    if |s| != 10 || s[4] != '-' || s[7] != '-' then None
    else
      var y, m, d := ParseDigits(s[..4], 10), ParseDigits(s[5..7], 10), ParseDigits(s[8..], 10);
      if y.None? || m.None? || d.None? then None
      else if ValidDate(CalendarDate(y.value, m.value, d.value))
      then Some(CalendarDate(y.value, m.value, d.value))
      else None
  }

  lemma SmallPowers()
    ensures Pow(10, 2) == 100 && Pow(10, 4) == 10_000
  {
    assert Pow(10, 1) == 10;
    assert Pow(10, 3) == 10 * Pow(10, 2);
  }

  lemma IsoParts(d: CalendarDate)
    requires ValidDate(d)
    ensures var s := IsoFormat(d);
            && |s| == 10 && s[4] == '-' && s[7] == '-' && Plain(s) && Bytes(s)
            && Reads(s[..4], 10, d.year, 4) && Reads(s[5..7], 10, d.month, 2) && Reads(s[8..], 10, d.day, 2)
  {
    SmallPowers();
    DecimalRoundTrip(d.year, 4);
    DecimalRoundTrip(d.month, 2);
    DecimalRoundTrip(d.day, 2);
    var y, m, e := FixedDigits(d.year, 10, 4), FixedDigits(d.month, 10, 2), FixedDigits(d.day, 10, 2);
    var s := IsoFormat(d);
    assert s == y + "-" + m + "-" + e;
    assert s[..4] == y && s[5..7] == m && s[8..] == e;
  }

  lemma IsoRoundTrip(d: CalendarDate)
    requires ValidDate(d)
    ensures FromIsoFormat(IsoFormat(d)) == Some(d) && Plain(IsoFormat(d)) && Bytes(IsoFormat(d))
  {
    IsoParts(d);
  }

  // --------------------------------------------------------------------------------------------
  // Identifiers
  // --------------------------------------------------------------------------------------------

  // 128-bit identifiers, ordered as numbers.
  const UUID_LIMIT: nat := 0x1_0000_0000_0000_0000_0000_0000_0000_0000

  lemma UuidLimitInHex()
    ensures UUID_LIMIT == Pow(16, 32)
  {
    PowSum(16, 4, 4);
    PowSum(16, 8, 8);
    PowSum(16, 16, 16);
    assert Pow(16, 4) == 0x1_0000 by {
      assert Pow(16, 2) == 256;
      PowSum(16, 2, 2);
    }
  }

  // The 8-4-4-4-12 grouping.
  function Dashed(h: string): string
    requires |h| == 32
  {
    Hyphen(h[..8], Hyphen(h[8..12], Hyphen(h[12..16], Hyphen(h[16..20], h[20..]))))
  }

  function Hyphen(a: string, b: string): (s: string)
    ensures Plain(a) && Plain(b) ==> Plain(s)
    ensures Bytes(a) && Bytes(b) ==> Bytes(s)
  {
    a + "-" + b
  }

  function Undashed(s: string): Option<string> {
    if |s| != 36 || s[8] != '-' || s[13] != '-' || s[18] != '-' || s[23] != '-' then None
    else Some(s[..8] + s[9..13] + s[14..18] + s[19..23] + s[24..])
  }

  lemma UndashedDashed(h: string)
    requires |h| == 32
    ensures Undashed(Dashed(h)) == Some(h)
    ensures Plain(h) ==> Plain(Dashed(h))
    ensures Bytes(h) ==> Bytes(Dashed(h))
  {
    var s := Dashed(h);
    assert s[..8] == h[..8] && s[9..13] == h[8..12] && s[14..18] == h[12..16];
    assert s[19..23] == h[16..20] && s[24..] == h[20..];
    assert h == h[..8] + h[8..12] + h[12..16] + h[16..20] + h[20..];
  }

  function Hex(id: nat): (h: string)
    requires id < UUID_LIMIT
    ensures |h| == 32 && Plain(h) && Bytes(h) && ParseDigits(h, 16) == Some(id)
  {
    UuidLimitInHex();
    HexRoundTrip(id, 32);
    FixedDigits(id, 16, 32)
  }

  function UuidText(id: nat): string
    requires id < UUID_LIMIT
  {
    Dashed(Hex(id))
  }

  function ParseUuid(s: string): Option<nat> {
    var h := Undashed(s);
    if h.None? then None else ParseDigits(h.value, 16)
  }

  // --------------------------------------------------------------------------------------------
  // The JSON array of two plain strings
  // --------------------------------------------------------------------------------------------

  function JsonPair(a: string, b: string): string {
    "[\"" + a + "\",\"" + b + "\"]"
  }

  // The text before and after the first quotation mark.
  function SplitAtQuote(s: string): Option<(string, string)> {
    if s == "" || s[0] == '\\' then None
    else if s[0] == '"' then Some(("", s[1..]))
    else
      match SplitAtQuote(s[1..])
      case Some((before, after)) => Some(([s[0]] + before, after))
      case None => None
  }

  function ParseJsonPair(s: string): Option<(string, string)> {
    if |s| < 2 || s[..2] != "[\"" then None
    else
      match SplitAtQuote(s[2..])
      case None => None
      case Some((a, rest)) =>
        if |rest| < 2 || rest[..2] != ",\"" then None
        else
          match SplitAtQuote(rest[2..])
          case Some((b, tail)) => if tail == "]" then Some((a, b)) else None
          case None => None
  }

  lemma {:induction false} SplitsAtQuote(a: string, rest: string)
    requires Plain(a)
    ensures SplitAtQuote(a + "\"" + rest) == Some((a, rest))
  {
    var s := a + "\"" + rest;
    if a == "" {
      assert s[1..] == rest;
    } else {
      assert s[0] == a[0];
      assert a == [a[0]] + a[1..];
      assert s[1..] == a[1..] + "\"" + rest;
      SplitsAtQuote(a[1..], rest);
    }
  }

  lemma JsonPairRoundTrip(a: string, b: string)
    requires Plain(a) && Plain(b)
    ensures ParseJsonPair(JsonPair(a, b)) == Some((a, b))
  {
    var s := JsonPair(a, b);
    var rest := ",\"" + b + "\"]";
    assert s[2..] == a + "\"" + rest;
    SplitsAtQuote(a, rest);
    assert rest[2..] == b + "\"" + "]";
    SplitsAtQuote(b, "]");
  }

  // --------------------------------------------------------------------------------------------
  // base64url
  // --------------------------------------------------------------------------------------------

  function SextetChar(v: nat): char
    requires v < 64
  {
    if v < 26 then 'A' + v as char
    else if v < 52 then 'a' + (v - 26) as char
    else if v < 62 then '0' + (v - 52) as char
    else if v == 62 then '-' else '_'
  }

  function SextetValue(c: char): Option<nat> {
    if 'A' <= c <= 'Z' then Some(c as nat - 'A' as nat)
    else if 'a' <= c <= 'z' then Some(c as nat - 'a' as nat + 26)
    else if '0' <= c <= '9' then Some(c as nat - '0' as nat + 52)
    else if c == '-' then Some(62)
    else if c == '_' then Some(63)
    else None
  }

  function EncodeGroup(x: nat, y: nat, z: nat): (s: string)
    requires x < 256 && y < 256 && z < 256
    ensures |s| == 4 && s[3] == SextetChar(z % 64)
  {
    [SextetChar(x / 4), SextetChar(x % 4 * 16 + y / 16), SextetChar(y % 16 * 4 + z / 64), SextetChar(z % 64)]
  }

  function EncodeBase64(raw: string): string
    requires Bytes(raw)
  {
    if |raw| == 0 then ""
    else if |raw| == 1 then
      var x := raw[0] as nat;
      [SextetChar(x / 4), SextetChar(x % 4 * 16), '=', '=']
    else if |raw| == 2 then
      var x, y := raw[0] as nat, raw[1] as nat;
      [SextetChar(x / 4), SextetChar(x % 4 * 16 + y / 16), SextetChar(y % 16 * 4), '=']
    else
      EncodeGroup(raw[0] as nat, raw[1] as nat, raw[2] as nat) + EncodeBase64(raw[3..])
  }

  function DecodeBase64(s: string): Option<string> {
    if s == "" then Some("")
    else if |s| < 4 then None
    else
      var p, q, r, u := SextetValue(s[0]), SextetValue(s[1]), SextetValue(s[2]), SextetValue(s[3]);
      if p.None? || q.None? then None
      else
        var first := (p.value * 4 + q.value / 16) as char;
        if |s| == 4 && s[2] == '=' && s[3] == '=' then Some([first])
        else if r.None? then None
        else
          var second := (q.value % 16 * 16 + r.value / 4) as char;
          if |s| == 4 && s[3] == '=' then Some([first, second])
          else if u.None? then None
          else
            var third := (r.value % 4 * 64 + u.value) as char;
            var rest := DecodeBase64(s[4..]);
            if rest.None? then None else Some([first, second, third] + rest.value)
  }

  function StripPadding(s: string): string {
    if s != "" && s[|s| - 1] == '=' then StripPadding(s[..|s| - 1]) else s
  }

  // `cursor + "=" * (-len(cursor) % 4)`
  function Padded(s: string): string {
    s + Repeat('=', (-|s|) % 4)
  }

  lemma SextetRoundTrip(v: nat)
    requires v < 64
    ensures SextetValue(SextetChar(v)) == Some(v) && SextetChar(v) != '='
  {
  }

  lemma OctetsOfSextets(x: nat, y: nat, z: nat)
    requires x < 256 && y < 256 && z < 256
    ensures x / 4 < 64 && x % 4 * 16 + y / 16 < 64 && y % 16 * 4 + z / 64 < 64 && z % 64 < 64
    ensures x / 4 * 4 + (x % 4 * 16 + y / 16) / 16 == x
    ensures (x % 4 * 16 + y / 16) % 16 * 16 + (y % 16 * 4 + z / 64) / 4 == y
    ensures (y % 16 * 4 + z / 64) % 4 * 64 + z % 64 == z
  {
  }

  // What one group of four characters decodes to, in terms of their values.
  lemma GroupDecodes(s: string, p: nat, q: nat, r: nat, u: nat, a: char, b: char, c: char)
    requires |s| >= 4 && SextetValue(s[0]) == Some(p) && SextetValue(s[1]) == Some(q)
    requires SextetValue(s[2]) == Some(r) && SextetValue(s[3]) == Some(u)
    requires p * 4 + q / 16 == a as int && q % 16 * 16 + r / 4 == b as int && r % 4 * 64 + u == c as int
    ensures DecodeBase64(s) ==
            match DecodeBase64(s[4..])
            case None => None
            case Some(rest) => Some([a, b, c] + rest)
  {
    assert s[2] != '=' && s[3] != '=';
  }

  lemma DecodeGroup(a: char, b: char, c: char, tail: string, rest: string)
    requires a as int < 256 && b as int < 256 && c as int < 256 && DecodeBase64(tail) == Some(rest)
    ensures DecodeBase64(EncodeGroup(a as nat, b as nat, c as nat) + tail) == Some([a, b, c] + rest)
  {
    var x, y, z := a as nat, b as nat, c as nat;
    var p, q, r, u := x / 4, x % 4 * 16 + y / 16, y % 16 * 4 + z / 64, z % 64;
    OctetsOfSextets(x, y, z);
    SextetRoundTrip(p);
    SextetRoundTrip(q);
    SextetRoundTrip(r);
    SextetRoundTrip(u);
    var s := EncodeGroup(x, y, z) + tail;
    assert s[4..] == tail;
    GroupDecodes(s, p, q, r, u, a, b, c);
  }

  lemma PairDecodes(s: string, p: nat, q: nat, r: nat, a: char, b: char)
    requires |s| == 4 && SextetValue(s[0]) == Some(p) && SextetValue(s[1]) == Some(q)
    requires SextetValue(s[2]) == Some(r) && s[3] == '='
    requires p * 4 + q / 16 == a as int && q % 16 * 16 + r / 4 == b as int
    ensures DecodeBase64(s) == Some([a, b])
  {
    assert s[2] != '=';
  }

  lemma TwoOctets(a: char, b: char)
    requires a as int < 256 && b as int < 256
    ensures |EncodeBase64([a, b])| == 4
    ensures DecodeBase64(EncodeBase64([a, b])) == Some([a, b])
  {
    var x, y := a as nat, b as nat;
    var p, q, r := x / 4, x % 4 * 16 + y / 16, y % 16 * 4;
    OctetsOfSextets(x, y, 0);
    SextetRoundTrip(p);
    SextetRoundTrip(q);
    SextetRoundTrip(r);
    PairDecodes(EncodeBase64([a, b]), p, q, r, a, b);
  }

  lemma OneOctet(a: char)
    requires a as int < 256
    ensures |EncodeBase64([a])| == 4
    ensures DecodeBase64(EncodeBase64([a])) == Some([a])
  {
    var x := a as nat;
    OctetsOfSextets(x, 0, 0);
    SextetRoundTrip(x / 4);
    SextetRoundTrip(x % 4 * 16);
  }

  lemma ThreeOrMore(raw: string)
    requires Bytes(raw) && |raw| >= 3 && DecodeBase64(EncodeBase64(raw[3..])) == Some(raw[3..])
    ensures DecodeBase64(EncodeBase64(raw)) == Some(raw)
  {
    var tail := EncodeBase64(raw[3..]);
    DecodeGroup(raw[0], raw[1], raw[2], tail, raw[3..]);
    assert EncodeBase64(raw) == EncodeGroup(raw[0] as nat, raw[1] as nat, raw[2] as nat) + tail;
    assert raw == [raw[0], raw[1], raw[2]] + raw[3..];
  }

  lemma {:induction false} Base64RoundTrip(raw: string)
    requires Bytes(raw)
    ensures DecodeBase64(EncodeBase64(raw)) == Some(raw)
    decreases |raw|
  {
    if |raw| >= 3 {
      Base64RoundTrip(raw[3..]);
      ThreeOrMore(raw);
    } else if |raw| == 2 {
      TwoOctets(raw[0], raw[1]);
      assert raw == [raw[0], raw[1]];
    } else if |raw| == 1 {
      OneOctet(raw[0]);
      assert raw == [raw[0]];
    }
  }

  // Stripping only ever removes the padding, so padding again restores the encoded text.
  lemma {:induction false} PaddingRoundTrip(raw: string)
    requires Bytes(raw)
    ensures Padded(StripPadding(EncodeBase64(raw))) == EncodeBase64(raw)
    ensures raw != "" ==> StripPadding(EncodeBase64(raw)) != ""
    decreases |raw|
  {
    if |raw| >= 3 {
      var front := EncodeGroup(raw[0] as nat, raw[1] as nat, raw[2] as nat);
      var tail := EncodeBase64(raw[3..]);
      SextetRoundTrip(raw[2] as nat % 64);
      PaddingRoundTrip(raw[3..]);
      StripAfter(front, tail);
      PadAfter(front, StripPadding(tail));
    } else if |raw| == 2 {
      var x, y := raw[0] as nat, raw[1] as nat;
      SextetRoundTrip(y % 16 * 4);
      StripOne([SextetChar(x / 4), SextetChar(x % 4 * 16 + y / 16), SextetChar(y % 16 * 4)]);
    } else if |raw| == 1 {
      var x := raw[0] as nat;
      SextetRoundTrip(x % 4 * 16);
      StripTwo([SextetChar(x / 4), SextetChar(x % 4 * 16)]);
    }
  }

  lemma PadAfter(front: string, tail: string)
    requires |front| == 4
    ensures Padded(front + tail) == front + Padded(tail)
  {
    assert (-|front + tail|) % 4 == (-|tail|) % 4;
  }

  lemma StripOne(front: string)
    requires |front| == 3 && front[2] != '='
    ensures StripPadding(front + ['=']) == front && Padded(front) == front + ['=']
  {
    assert (front + ['='])[..3] == front;
  }

  lemma StripTwo(front: string)
    requires |front| == 2 && front[1] != '='
    ensures StripPadding([front[0], front[1], '=', '=']) == front
    ensures Padded(front) == [front[0], front[1], '=', '=']
  {
    assert [front[0], front[1], '=', '='][..3] == [front[0], front[1], '='];
    assert [front[0], front[1], '='][..2] == front;
    assert StripPadding([front[0], front[1], '=']) == front;
  }

  lemma {:induction false} StripAfter(front: string, tail: string)
    requires front != "" && front[|front| - 1] != '='
    ensures StripPadding(front + tail) == front + StripPadding(tail)
    decreases |tail|
  {
    if tail == "" {
      assert front + tail == front;
    } else if tail[|tail| - 1] == '=' {
      assert (front + tail)[..|front + tail| - 1] == front + tail[..|tail| - 1];
      StripAfter(front, tail[..|tail| - 1]);
    }
  }

  // --------------------------------------------------------------------------------------------
  // Cursors
  // --------------------------------------------------------------------------------------------

  predicate Encodable(day: int, id: nat) {
    MIN_DATE <= day <= MAX_DATE && id < UUID_LIMIT
  }

  function CursorJson(day: int, id: nat): (s: string)
    requires Encodable(day, id)
  {
    JsonPair(IsoFormat(FromDay(day)), UuidText(id))
  }

  lemma CursorFields(day: int, id: nat)
    requires Encodable(day, id)
    ensures Bytes(CursorJson(day, id)) && CursorJson(day, id) != ""
    ensures ParseJsonPair(CursorJson(day, id)) == Some((IsoFormat(FromDay(day)), UuidText(id)))
    ensures FromIsoFormat(IsoFormat(FromDay(day))) == Some(FromDay(day)) && ValidDate(FromDay(day))
    ensures ToDay(FromDay(day)) == day
    ensures ParseUuid(UuidText(id)) == Some(id)
  {
    FromDayRoundTrip(day);
    IsoRoundTrip(FromDay(day));
    UndashedDashed(Hex(id));
    var a, b := IsoFormat(FromDay(day)), UuidText(id);
    JsonPairRoundTrip(a, b);
    JsonPairBytes(a, b);
  }

  lemma JsonPairBytes(a: string, b: string)
    requires Bytes(a) && Bytes(b)
    ensures Bytes(JsonPair(a, b)) && JsonPair(a, b) != ""
  {
  }

  function EncodeCursor(day: int, id: nat): string
    requires Encodable(day, id)
  {
    CursorFields(day, id);
    StripPadding(EncodeBase64(CursorJson(day, id)))
  }

  // None stands for the INVALID_CURSOR error.
  function DecodeCursor(cursor: string): Option<(int, nat)> {
    var raw := DecodeBase64(Padded(cursor));
    if raw.None? then None
    else
      var fields := ParseJsonPair(raw.value);
      if fields.None? then None
      else
        var date, id := FromIsoFormat(fields.value.0), ParseUuid(fields.value.1);
        if date.None? || id.None? then None else Some((ToDay(date.value), id.value))
  }

  // Every position a page can end at survives the trip through the opaque text, which is never the
  // empty string a caller sends to mean "from the beginning".
  lemma CursorRoundTrip(day: int, id: nat)
    requires Encodable(day, id)
    ensures DecodeCursor(EncodeCursor(day, id)) == Some((day, id))
    ensures EncodeCursor(day, id) != ""
  {
    var raw := CursorJson(day, id);
    CursorFields(day, id);
    PaddingRoundTrip(raw);
    Base64RoundTrip(raw);
  }
}
