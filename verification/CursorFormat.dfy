/** What dates and cursors look like from outside: the calendar, the base64url alphabet and the text a cursor
    carries. */
module CursorFormat {
  import opened Common
  import opened Cursors

  // --------------------------------------------------------------------------------------------
  // The calendar
  // --------------------------------------------------------------------------------------------

  // Thirty days have April, June, September and November; February has 28, in leap years 29.
  function LastDay(year: int, month: int): int {
    if month in {4, 6, 9, 11} then 30
    else if month != 2 then 31
    else if year % 400 == 0 || (year % 4 == 0 && year % 100 != 0) then 29
    else 28
  }

  function NextDate(d: CalendarDate): CalendarDate {
    if d.day < LastDay(d.year, d.month) then CalendarDate(d.year, d.month, d.day + 1)
    else if d.month < 12 then CalendarDate(d.year, d.month + 1, 1)
    else CalendarDate(d.year + 1, 1, 1)
  }

  lemma LeapRule(year: nat)
    requires year >= 1
    ensures IsLeap(year) <==> year % 400 == 0 || (year % 4 == 0 && year % 100 != 0)
  {
    HundredthYear(year);
    FourHundredthYear(year);
  }

  lemma LastDayIsDaysInMonth(year: nat, month: nat)
    requires year >= 1
    ensures LastDay(year, month) == DaysInMonth(year, month)
  {
    LeapRule(year);
  }

  lemma MonthsFollow(year: int, month: nat)
    requires 1 <= month <= 11
    ensures DaysBeforeMonth(year, month + 1) == DaysBeforeMonth(year, month) + DaysInMonth(year, month)
  {
    MonthTableFollows(month, IsLeap(year));
  }

  lemma MonthTableFollows(month: nat, leap: bool)
    requires 1 <= month <= 11
    ensures var table := [0, 31, 59, 90, 120, 151, 181, 212, 243, 273, 304, 334];
            table[month] + (if month + 1 > 2 && leap then 1 else 0) ==
            table[month - 1] + (if month > 2 && leap then 1 else 0)
            + (if month == 2 then (if leap then 29 else 28) else if month in {4, 6, 9, 11} then 30 else 31)
  {
    if month <= 6 {
      assert month in {1, 2, 3, 4, 5, 6};
    } else {
      assert month in {7, 8, 9, 10, 11};
    }
  }

  // Day 0 is 1970-01-01, and each day is followed by the next date of the Gregorian calendar.
  lemma DaysFollowCalendar(d: CalendarDate)
    requires ValidDate(d) && d != CalendarDate(9999, 12, 31)
    ensures ValidDate(CalendarDate(1970, 1, 1)) && ToDay(CalendarDate(1970, 1, 1)) == 0
    ensures ValidDate(NextDate(d)) && ToDay(NextDate(d)) == ToDay(d) + 1
  {
    LastDayIsDaysInMonth(d.year, d.month);
    if d.day == LastDay(d.year, d.month) {
      if d.month < 12 {
        MonthsFollow(d.year, d.month);
      } else {
        NextYear(d.year);
      }
    }
  }

  // --------------------------------------------------------------------------------------------
  // base64url
  // --------------------------------------------------------------------------------------------

  // Characters that need no escaping in a URL.
  predicate UrlSafe(c: char) {
    'A' <= c <= 'Z' || 'a' <= c <= 'z' || '0' <= c <= '9' || c == '-' || c == '_'
  }

  // Table 2 of RFC 4648, section 5: capitals, small letters, digits, minus and underline, in this order.
  lemma AlphabetIsStandard(v: nat)
    requires v < 64
    ensures UrlSafe(SextetChar(v))
    ensures SextetChar(v) as int ==
            if v <= 25 then 65 + v else if v <= 51 then 97 + (v - 26) else if v <= 61 then 48 + (v - 52)
            else if v == 62 then 45 else 95
  {
  }

  // The four sextets of three bytes, most significant first.
  lemma SextetsOfGroup(x: nat, y: nat, z: nat)
    requires x < 256 && y < 256 && z < 256
    ensures x / 4 < 64 && x % 4 * 16 + y / 16 < 64 && y % 16 * 4 + z / 64 < 64
    ensures (((x / 4) * 64 + (x % 4 * 16 + y / 16)) * 64 + (y % 16 * 4 + z / 64)) * 64 + z % 64 == (x * 256 + y) * 256 + z
  {
    assert x == x / 4 * 4 + x % 4 && y == y / 16 * 16 + y % 16 && z == z / 64 * 64 + z % 64;
  }

  // The number that characters stand for, six bits each.
  function ReadSextets(s: string): Option<nat> {
    if s == "" then Some(0)
    else
      var high, low := ReadSextets(s[..|s| - 1]), SextetValue(s[|s| - 1]);
      if high.None? || low.None? then None else Some(high.value * 64 + low.value)
  }

  // Four characters stand for the number that three bytes make.
  lemma GroupIsBigEndian(x: nat, y: nat, z: nat)
    requires x < 256 && y < 256 && z < 256
    ensures ReadSextets(EncodeGroup(x, y, z)) == Some((x * 256 + y) * 256 + z)
  {
    SextetsOfGroup(x, y, z);
    FourSextets(x / 4, x % 4 * 16 + y / 16, y % 16 * 4 + z / 64, z % 64);
  }

  lemma FourSextets(a: nat, b: nat, c: nat, d: nat)
    requires a < 64 && b < 64 && c < 64 && d < 64
    ensures ReadSextets([SextetChar(a), SextetChar(b), SextetChar(c), SextetChar(d)]) ==
            Some(((a * 64 + b) * 64 + c) * 64 + d)
  {
    OneMoreSextet("", 0, a);
    assert [] + [SextetChar(a)] == [SextetChar(a)];
    OneMoreSextet([SextetChar(a)], a, b);
    assert [SextetChar(a)] + [SextetChar(b)] == [SextetChar(a), SextetChar(b)];
    OneMoreSextet([SextetChar(a), SextetChar(b)], a * 64 + b, c);
    assert [SextetChar(a), SextetChar(b)] + [SextetChar(c)] == [SextetChar(a), SextetChar(b), SextetChar(c)];
    OneMoreSextet([SextetChar(a), SextetChar(b), SextetChar(c)], (a * 64 + b) * 64 + c, d);
    assert [SextetChar(a), SextetChar(b), SextetChar(c)] + [SextetChar(d)] ==
           [SextetChar(a), SextetChar(b), SextetChar(c), SextetChar(d)];
  }

  lemma OneMoreSextet(s: string, n: nat, v: nat)
    requires v < 64 && ReadSextets(s) == Some(n)
    ensures ReadSextets(s + [SextetChar(v)]) == Some(n * 64 + v)
  {
    SextetRoundTrip(v);
    assert (s + [SextetChar(v)])[..|s|] == s;
  }

  predicate AllUrlSafe(s: string) {
    forall i :: 0 <= i < |s| ==> UrlSafe(s[i])
  }

  lemma GroupIsUrlSafe(x: nat, y: nat, z: nat)
    requires x < 256 && y < 256 && z < 256
    ensures AllUrlSafe(EncodeGroup(x, y, z)) && EncodeGroup(x, y, z)[3] != '='
  {
    AlphabetIsStandard(x / 4);
    AlphabetIsStandard(x % 4 * 16 + y / 16);
    AlphabetIsStandard(y % 16 * 4 + z / 64);
    AlphabetIsStandard(z % 64);
  }

  lemma PairIsUrlSafe(x: nat, y: nat)
    requires x < 256 && y < 256
    ensures var front := [SextetChar(x / 4), SextetChar(x % 4 * 16 + y / 16), SextetChar(y % 16 * 4)];
            AllUrlSafe(front) && front[2] != '='
  {
    AlphabetIsStandard(x / 4);
    AlphabetIsStandard(x % 4 * 16 + y / 16);
    AlphabetIsStandard(y % 16 * 4);
  }

  lemma OneIsUrlSafe(x: nat)
    requires x < 256
    ensures var front := [SextetChar(x / 4), SextetChar(x % 4 * 16)];
            AllUrlSafe(front) && front[1] != '='
  {
    AlphabetIsStandard(x / 4);
    AlphabetIsStandard(x % 4 * 16);
  }

  lemma TailIsUrlSafe(raw: string)
    requires Bytes(raw) && |raw| <= 2
    ensures AllUrlSafe(StripPadding(EncodeBase64(raw)))
  {
    if |raw| == 2 {
      var x, y := raw[0] as nat, raw[1] as nat;
      var front := [SextetChar(x / 4), SextetChar(x % 4 * 16 + y / 16), SextetChar(y % 16 * 4)];
      PairIsUrlSafe(x, y);
      StripOne(front);
      assert EncodeBase64(raw) == front + ['='];
    } else if |raw| == 1 {
      var x := raw[0] as nat;
      var front := [SextetChar(x / 4), SextetChar(x % 4 * 16)];
      OneIsUrlSafe(x);
      StripTwo(front);
      assert EncodeBase64(raw) == [front[0], front[1], '=', '='];
    }
  }

  lemma {:induction false} StrippedIsUrlSafe(raw: string)
    requires Bytes(raw)
    ensures AllUrlSafe(StripPadding(EncodeBase64(raw)))
    decreases |raw|
  {
    if |raw| >= 3 {
      var front, tail := EncodeGroup(raw[0] as nat, raw[1] as nat, raw[2] as nat), EncodeBase64(raw[3..]);
      StrippedIsUrlSafe(raw[3..]);
      GroupIsUrlSafe(raw[0] as nat, raw[1] as nat, raw[2] as nat);
      assert EncodeBase64(raw) == front + tail;
      StripAfter(front, tail);
    } else {
      TailIsUrlSafe(raw);
    }
  }

  // --------------------------------------------------------------------------------------------
  // The text of a cursor
  // --------------------------------------------------------------------------------------------

  // YYYY-MM-DD in decimal digits.
  predicate IsIsoText(s: string, d: CalendarDate) {
    && |s| == 10 && s[4] == '-' && s[7] == '-'
    && ParseDigits(s[..4], 10) == Some(d.year) && ParseDigits(s[5..7], 10) == Some(d.month)
    && ParseDigits(s[8..], 10) == Some(d.day)
  }

  // 8-4-4-4-12 hexadecimal digits.
  predicate IsUuidText(s: string, id: nat) {
    && |s| == 36 && s[8] == '-' && s[13] == '-' && s[18] == '-' && s[23] == '-'
    && ParseDigits(s[..8] + s[9..13] + s[14..18] + s[19..23] + s[24..], 16) == Some(id)
  }

  predicate IsCursorText(s: string, day: int, id: nat)
    requires Encodable(day, id)
  {
    && |s| == 53 && s[..2] == "[\"" && s[12..15] == "\",\"" && s[51..] == "\"]"
    && IsIsoText(s[2..12], FromDay(day)) && IsUuidText(s[15..51], id)
  }

  // A cursor is URL-safe text whose bytes are the JSON array of the ISO date and the identifier.
  lemma CursorMeans(day: int, id: nat)
    requires Encodable(day, id)
    ensures AllUrlSafe(EncodeCursor(day, id))
    ensures var raw := DecodeBase64(Padded(EncodeCursor(day, id)));
            raw.Some? && IsCursorText(raw.value, day, id)
  {
    var s := CursorJson(day, id);
    CursorFields(day, id);
    StrippedIsUrlSafe(s);
    PaddingRoundTrip(s);
    Base64RoundTrip(s);
    CursorJsonMeans(day, id);
  }

  lemma JsonPairParts(a: string, b: string)
    requires |a| == 10 && |b| == 36
    ensures var s := JsonPair(a, b);
            |s| == 53 && s[..2] == "[\"" && s[2..12] == a && s[12..15] == "\",\"" && s[15..51] == b && s[51..] == "\"]"
  {
  }

  lemma UuidTextMeans(id: nat)
    requires id < UUID_LIMIT
    ensures IsUuidText(UuidText(id), id)
  {
    UndashedDashed(Hex(id));
  }

  lemma CursorJsonMeans(day: int, id: nat)
    requires Encodable(day, id)
    ensures IsCursorText(CursorJson(day, id), day, id)
  {
    FromDayRoundTrip(day);
    IsoParts(FromDay(day));
    UuidTextMeans(id);
    JsonPairParts(IsoFormat(FromDay(day)), UuidText(id));
  }
}
