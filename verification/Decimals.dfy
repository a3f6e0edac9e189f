/** Canonical decimal text: `canonical_decimal` of `app/domain/fingerprints.py`.

    A number is a sign, a coefficient and a power of ten, as Python's `Decimal` keeps it. */
module Decimals {
  import opened Common
  import opened Cursors

  datatype Number = Finite(negative: bool, coefficient: nat, exponent: int) | NonFinite

  // --------------------------------------------------------------------------------------------
  // Rendering
  // --------------------------------------------------------------------------------------------

  function NatText(n: nat): string {
    if n < 10 then [DigitChar(n)] else NatText(n / 10) + [DigitChar(n % 10)]
  }

  function Zeros(n: nat): string {
    Repeat('0', n)
  }

  function Sign(negative: bool): string {
    if negative then "-" else ""
  }

  // The digits before and after the decimal point of `format(value, "f")`; `dot` counts digits before it.
  function IntPart(digits: string, dot: int): string {
    if dot <= 0 then "0"
    else if dot > |digits| then digits + Zeros(dot - |digits|)
    else digits[..dot]
  }

  function FracPart(digits: string, dot: int): string {
    if dot < 0 then Zeros(-dot) + digits
    else if dot > |digits| then ""
    else digits[dot..]
  }

  function Joined(whole: string, fraction: string): string {
    if fraction == "" then whole else whole + "." + fraction
  }

  // A zero loses a positive exponent.
  function Unsigned(c: nat, e: int): string {
    var digits := NatText(c);
    var dot := |digits| + if c == 0 && e > 0 then 0 else e;
    Joined(IntPart(digits, dot), FracPart(digits, dot))
  }

  function FixedPoint(negative: bool, c: nat, e: int): string {
    Sign(negative) + Unsigned(c, e)
  }

  function TrimEnd(s: string, c: char): string {
    if s != "" && s[|s| - 1] == c then TrimEnd(s[..|s| - 1], c) else s
  }

  function Trimmed(rendered: string): string {
    if '.' in rendered then TrimEnd(TrimEnd(rendered, '0'), '.') else rendered
  }

  function WithoutNegativeZero(s: string): string {
    if s == "-0" || s == "" then "0" else s
  }

  function CanonicalText(negative: bool, c: nat, e: int): string {
    WithoutNegativeZero(Trimmed(FixedPoint(negative, c, e)))
  }

  // Infinities and NaN raise.
  function CanonicalDecimal(x: Number): Option<string> {
    if x.NonFinite? then None else Some(CanonicalText(x.negative, x.coefficient, x.exponent))
  }

  // --------------------------------------------------------------------------------------------
  // The number a triple stands for, and reading one back
  // --------------------------------------------------------------------------------------------

  // c times ten to the e.
  function Magnitude(c: nat, e: int): real
    decreases if e < 0 then -e else e
  {
    if e == 0 then c as real else if e > 0 then 10.0 * Magnitude(c, e - 1) else Magnitude(c, e + 1) / 10.0
  }

  function Value(negative: bool, c: nat, e: int): real {
    if negative then -Magnitude(c, e) else Magnitude(c, e)
  }

  function ValueOf(x: Number): real
    requires x.Finite?
  {
    Value(x.negative, x.coefficient, x.exponent)
  }

  function IndexOf(s: string, c: char): (i: nat)
    ensures i <= |s|
  {
    if s == "" || s[0] == c then 0 else 1 + IndexOf(s[1..], c)
  }

  function ParseUnsigned(s: string): Option<(nat, int)> {
    var dot := IndexOf(s, '.');
    if dot == |s| then
      match ParseDigits(s, 10)
      case None => None
      case Some(c) => Some((c, 0))
    else
      match ParseDigits(s[..dot] + s[dot + 1..], 10)
      case None => None
      case Some(c) => Some((c, dot + 1 - |s|))
  }

  function ParseDecimal(s: string): Option<Number> {
    var negative := s != "" && s[0] == '-';
    match ParseUnsigned(if negative then s[1..] else s)
    case None => None
    case Some((c, e)) => Some(Finite(negative, c, e))
  }

  // --------------------------------------------------------------------------------------------
  // Digits and powers of ten
  // --------------------------------------------------------------------------------------------

  predicate AllDigits(s: string) {
    forall i :: 0 <= i < |s| ==> '0' <= s[i] <= '9'
  }

  lemma {:induction false} NatTextDigits(n: nat)
    ensures NatText(n) != "" && AllDigits(NatText(n))
    ensures n > 0 ==> ParseDigits(NatText(n), 10) == Some(n)
    ensures NatText(n)[|NatText(n)| - 1] == DigitChar(n % 10)
  {
    if n >= 10 {
      NatTextDigits(n / 10);
      var s := NatText(n);
      assert s[..|s| - 1] == NatText(n / 10);
    } else {
      var s := NatText(n);
      assert s[..|s| - 1] == "";
    }
  }

  lemma {:induction false} ParseLeadingZeros(k: nat, digits: string)
    requires ParseDigits(digits, 10).Some?
    ensures ParseDigits(Zeros(k) + digits, 10) == ParseDigits(digits, 10)
    decreases k + |digits|
  {
    var s := Zeros(k) + digits;
    if digits == "" {
      assert s == Zeros(k);
      if k > 0 {
        assert s[..|s| - 1] == Zeros(k - 1) + "";
        ParseLeadingZeros(k - 1, "");
      }
    } else {
      assert s[..|s| - 1] == Zeros(k) + digits[..|digits| - 1];
      ParseLeadingZeros(k, digits[..|digits| - 1]);
    }
  }

  lemma TenfoldProduct(n: nat, p: nat)
    ensures n * (10 * p) == n * p * 10
  {
  }

  lemma {:induction false} ParseTrailingZeros(digits: string, k: nat)
    requires ParseDigits(digits, 10).Some?
    ensures ParseDigits(digits + Zeros(k), 10) == Some(ParseDigits(digits, 10).value * Pow(10, k))
  {
    var s := digits + Zeros(k);
    if k == 0 {
      assert s == digits;
    } else {
      assert s[..|s| - 1] == digits + Zeros(k - 1);
      ParseTrailingZeros(digits, k - 1);
      TenfoldProduct(ParseDigits(digits, 10).value, Pow(10, k - 1));
    }
  }

  lemma MagnitudeStep(c: nat, e: int)
    ensures Magnitude(c, e + 1) == 10.0 * Magnitude(c, e)
  {
  }

  lemma {:induction false} MagnitudeScales(c: nat, e: int)
    ensures Magnitude(10 * c, e) == 10.0 * Magnitude(c, e)
    decreases if e < 0 then -e else e
  {
    if e > 0 {
      MagnitudeScales(c, e - 1);
    } else if e < 0 {
      MagnitudeScales(c, e + 1);
    }
  }

  lemma {:induction false} MagnitudeShifts(c: nat, e: int, k: nat)
    ensures Magnitude(c, e + k) == Magnitude(c * Pow(10, k), e)
  {
    if k > 0 {
      MagnitudeShifts(c, e, k - 1);
      MagnitudeStep(c, e + k - 1);
      MagnitudeScales(c * Pow(10, k - 1), e);
      assert c * Pow(10, k) == 10 * (c * Pow(10, k - 1));
    }
  }

  lemma {:induction false} MagnitudeInjective(c: nat, d: nat, e: int)
    requires Magnitude(c, e) == Magnitude(d, e)
    ensures c == d
    decreases if e < 0 then -e else e
  {
    if e > 0 {
      MagnitudeInjective(c, d, e - 1);
    } else if e < 0 {
      MagnitudeInjective(c, d, e + 1);
    }
  }

  lemma {:induction false} MagnitudeSign(c: nat, e: int)
    ensures Magnitude(c, e) >= 0.0 && (Magnitude(c, e) == 0.0 <==> c == 0)
    decreases if e < 0 then -e else e
  {
    if e > 0 {
      MagnitudeSign(c, e - 1);
    } else if e < 0 {
      MagnitudeSign(c, e + 1);
    }
  }

  // --------------------------------------------------------------------------------------------
  // Normal form: no trailing zero in the coefficient, one zero
  // --------------------------------------------------------------------------------------------

  function Normal(negative: bool, c: nat, e: int): (bool, nat, int) {
    if c == 0 then (false, 0, 0)
    else if c % 10 == 0 then Normal(negative, c / 10, e + 1)
    else (negative, c, e)
  }

  predicate IsNormal(x: (bool, nat, int)) {
    x == (false, 0, 0) || x.1 % 10 != 0
  }

  lemma {:induction false} NormalKeepsValue(negative: bool, c: nat, e: int)
    ensures var (n, d, f) := Normal(negative, c, e); Value(n, d, f) == Value(negative, c, e)
    ensures IsNormal(Normal(negative, c, e))
  {
    if c == 0 {
      MagnitudeSign(0, e);
    } else if c % 10 == 0 {
      var d := c / 10;
      NormalKeepsValue(negative, d, e + 1);
      MagnitudeStep(d, e);
      MagnitudeScales(d, e);
      assert c == 10 * d;
    }
  }

  lemma LargerExponentEndsInZero(c: nat, d: nat, k: nat)
    requires k > 0 && c == d * Pow(10, k)
    ensures c % 10 == 0
  {
    assert c == 10 * (d * Pow(10, k - 1));
  }

  // Equal values have equal magnitudes, and equal signs unless they are zero.
  lemma MagnitudesEqual(n: bool, c: nat, e: int, m: bool, d: nat, f: int)
    requires Value(n, c, e) == Value(m, d, f)
    ensures Magnitude(c, e) == Magnitude(d, f)
    ensures (c == 0 <==> d == 0) && (n == m || c == 0)
  {
    MagnitudeSign(c, e);
    MagnitudeSign(d, f);
  }

  // The smaller exponent carries a multiple of ten, so two normal coefficients of one magnitude agree.
  lemma ExponentsAgree(c: nat, e: int, d: nat, f: int)
    requires Magnitude(c, e) == Magnitude(d, f)
    requires c % 10 != 0 && d % 10 != 0
    ensures c == d && e == f
  {
    if e <= f {
      MagnitudeShifts(d, e, f - e);
      MagnitudeInjective(c, d * Pow(10, f - e), e);
      if e < f { LargerExponentEndsInZero(c, d, f - e); }
    } else {
      MagnitudeShifts(c, f, e - f);
      MagnitudeInjective(d, c * Pow(10, e - f), f);
      LargerExponentEndsInZero(d, c, e - f);
    }
  }

  // Two normal triples of one value are the same triple.
  lemma NormalIsUnique(x: (bool, nat, int), y: (bool, nat, int))
    requires IsNormal(x) && IsNormal(y) && Value(x.0, x.1, x.2) == Value(y.0, y.1, y.2)
    ensures x == y
  {
    MagnitudesEqual(x.0, x.1, x.2, y.0, y.1, y.2);
    if x.1 != 0 {
      ExponentsAgree(x.1, x.2, y.1, y.2);
    }
  }

  // --------------------------------------------------------------------------------------------
  // Trimming
  // --------------------------------------------------------------------------------------------

  lemma {:induction false} TrimZeros(s: string, k: nat)
    ensures TrimEnd(s + Zeros(k), '0') == TrimEnd(s, '0')
  {
    var all := s + Zeros(k);
    if k == 0 {
      assert all == s;
    } else {
      assert all[..|all| - 1] == s + Zeros(k - 1);
      TrimZeros(s, k - 1);
    }
  }

  // An integral text followed by a point and zeros trims to the integral text.
  lemma TrimFraction(s: string, k: nat)
    requires s != "" && s[|s| - 1] != '.'
    ensures Trimmed(s + "." + Zeros(k)) == s
  {
    var all := s + "." + Zeros(k);
    assert all[|s|] == '.';
    TrimZeros(s + ".", k);
    assert TrimEnd(s + ".", '0') == s + ".";
    assert (s + ".")[..|s|] == s;
    assert TrimEnd(s, '.') == s;
  }

  lemma ZeroParts(e: int)
    ensures Unsigned(0, e) == if e < 0 then "0" + "." + Zeros(-e) else "0"
  {
    assert NatText(0) == "0";
    if e < -1 {
      assert Zeros(-(1 + e)) + "0" == Zeros(-e);
    } else if e == -1 {
      assert "0"[0..] == Zeros(1);
    }
  }

  function ZeroSigned(negative: bool): string {
    if negative then "-0" else "0"
  }

  lemma ZeroRendering(negative: bool, e: int)
    ensures FixedPoint(negative, 0, e) == if e < 0 then ZeroSigned(negative) + "." + Zeros(-e) else ZeroSigned(negative)
  {
    ZeroParts(e);
    assert Sign(negative) + "0" == ZeroSigned(negative);
    if e < 0 {
      assert Sign(negative) + ("0" + "." + Zeros(-e)) == Sign(negative) + "0" + "." + Zeros(-e);
    }
  }

  lemma TrimmedZero(negative: bool, k: nat)
    ensures Trimmed(ZeroSigned(negative)) == ZeroSigned(negative)
    ensures Trimmed(ZeroSigned(negative) + "." + Zeros(k)) == ZeroSigned(negative)
  {
    TrimFraction(ZeroSigned(negative), k);
  }

  lemma ZeroText(negative: bool, e: int)
    ensures CanonicalText(negative, 0, e) == "0"
  {
    ZeroRendering(negative, e);
    TrimmedZero(negative, if e < 0 then -e else 0);
  }

  // Where the digits of a nonzero number go.
  lemma WholeParts(c: nat, e: int)
    requires c > 0 && e >= 0
    ensures Unsigned(c, e) == NatText(c) + Zeros(e)
  {
    var digits := NatText(c);
    assert digits[..|digits|] == digits && digits[|digits|..] == "" && digits + Zeros(0) == digits;
  }

  lemma PartsOfDigits(digits: string, dot: int) returns (pad: nat)
    requires AllDigits(digits) && dot < |digits|
    ensures var whole, fraction := IntPart(digits, dot), FracPart(digits, dot);
            && whole != "" && AllDigits(whole) && |fraction| == |digits| - dot
            && whole + fraction == Zeros(pad) + digits
  {
    if dot <= 0 {
      pad := 1 - dot;
      assert "0" + Zeros(-dot) == Zeros(pad);
      assert FracPart(digits, dot) == Zeros(-dot) + digits;
      assert "0" + (Zeros(-dot) + digits) == Zeros(pad) + digits;
    } else {
      pad := 0;
      assert digits[..dot] + digits[dot..] == Zeros(0) + digits;
    }
  }

  lemma PointParts(c: nat, e: int) returns (whole: string, fraction: string, pad: nat)
    requires e < 0
    ensures whole != "" && AllDigits(whole) && |fraction| == -e
    ensures whole + fraction == Zeros(pad) + NatText(c)
    ensures Unsigned(c, e) == whole + "." + fraction
  {
    var digits := NatText(c);
    var dot := |digits| + e;
    NatTextDigits(c);
    whole, fraction := IntPart(digits, dot), FracPart(digits, dot);
    pad := PartsOfDigits(digits, dot);
  }

  // A trailing zero of the coefficient is the last digit of the fraction.
  lemma ZeroMovesOut(c: nat, e: int)
    requires c > 0 && c % 10 == 0
    ensures e >= 0 ==> Unsigned(c, e) == Unsigned(c / 10, e + 1)
    ensures e == -1 ==> Unsigned(c, e) == Unsigned(c / 10, 0) + "." + Zeros(1)
    ensures e < -1 ==> Unsigned(c, e) == Unsigned(c / 10, e + 1) + Zeros(1)
  {
    var d := NatText(c / 10);
    var digits := NatText(c);
    assert digits == d + "0";
    if e >= 0 {
      WholeParts(c, e);
      WholeParts(c / 10, e + 1);
      assert "0" + Zeros(e) == Zeros(e + 1);
      assert digits + Zeros(e) == d + ("0" + Zeros(e));
    } else if e == -1 {
      WholeParts(c / 10, 0);
      assert digits[..|d|] == d && digits[|d|..] == Zeros(1) && d + Zeros(0) == d;
    } else {
      var dot := |d| + e + 1;
      if dot < 0 {
        assert Zeros(-dot) + digits == Zeros(-dot) + d + Zeros(1);
      } else {
        assert digits[..dot] == d[..dot] && digits[dot..] == d[dot..] + Zeros(1);
      }
      JoinedLonger(IntPart(d, dot), FracPart(d, dot));
    }
  }

  lemma JoinedLonger(whole: string, fraction: string)
    requires fraction != ""
    ensures Joined(whole, fraction + Zeros(1)) == Joined(whole, fraction) + Zeros(1)
  {
    assert whole + "." + (fraction + Zeros(1)) == whole + "." + fraction + Zeros(1);
  }

  lemma OnlyZeroText(negative: bool, c: nat, e: int)
    requires c > 0 && c % 10 == 0 && e == -1
    ensures Trimmed(FixedPoint(negative, c, e)) == Trimmed(FixedPoint(negative, c / 10, e + 1))
  {
    ZeroMovesOut(c, e);
    var shorter := FixedPoint(negative, c / 10, e + 1);
    assert FixedPoint(negative, c, e) == shorter + "." + Zeros(1);
    IntegralText(negative, c / 10, e + 1);
    TrimFraction(shorter, 1);
  }

  // One trailing zero moved from the coefficient to the exponent does not show.
  lemma TrailingZeroText(negative: bool, c: nat, e: int)
    requires c > 0 && c % 10 == 0
    ensures Trimmed(FixedPoint(negative, c, e)) == Trimmed(FixedPoint(negative, c / 10, e + 1))
  {
    ZeroMovesOut(c, e);
    var shorter := FixedPoint(negative, c / 10, e + 1);
    if e == -1 {
      OnlyZeroText(negative, c, e);
    } else if e < -1 {
      PointShown(negative, c / 10, e + 1);
      assert FixedPoint(negative, c, e) == shorter + Zeros(1);
      TrimZeros(shorter, 1);
    }
  }

  lemma IntegralText(negative: bool, c: nat, e: int)
    requires c > 0 && e >= 0
    ensures var s := FixedPoint(negative, c, e); s != "" && '.' !in s
  {
    WholeParts(c, e);
    NatTextDigits(c);
  }

  lemma PointShown(negative: bool, c: nat, e: int)
    requires e < 0
    ensures '.' in FixedPoint(negative, c, e)
  {
    var whole, fraction, pad := PointParts(c, e);
    assert FixedPoint(negative, c, e)[|Sign(negative)| + |whole|] == '.';
  }

  lemma {:induction false} NormalText(negative: bool, c: nat, e: int)
    ensures var (n, d, f) := Normal(negative, c, e); CanonicalText(n, d, f) == CanonicalText(negative, c, e)
  {
    if c == 0 {
      ZeroText(negative, e);
      ZeroText(false, 0);
    } else if c % 10 == 0 {
      TrailingZeroText(negative, c, e);
      NormalText(negative, c / 10, e + 1);
    }
  }

  // --------------------------------------------------------------------------------------------
  // Reading the text back
  // --------------------------------------------------------------------------------------------

  lemma {:induction false} IndexOfFirst(before: string, c: char, after: string)
    requires c !in before
    ensures IndexOf(before + [c] + after, c) == |before|
  {
    if before != "" {
      assert (before + [c] + after)[1..] == before[1..] + [c] + after;
      IndexOfFirst(before[1..], c, after);
    }
  }

  lemma {:induction false} IndexOfMissing(s: string, c: char)
    requires c !in s
    ensures IndexOf(s, c) == |s|
  {
    if s != "" {
      IndexOfMissing(s[1..], c);
    }
  }

  lemma PointAt(before: string, after: string)
    requires AllDigits(before)
    ensures var s := before + "." + after;
            && IndexOf(s, '.') == |before| < |s| == |before| + 1 + |after|
            && s[..|before|] == before && s[|before| + 1..] == after
  {
    assert before + "." + after == before + ['.'] + after;
    IndexOfFirst(before, '.', after);
  }

  lemma ParsePoint(before: string, after: string)
    requires AllDigits(before) && ParseDigits(before + after, 10).Some?
    ensures ParseUnsigned(before + "." + after) == Some((ParseDigits(before + after, 10).value, -|after|))
  {
    PointAt(before, after);
  }

  lemma ParseUnsignedText(c: nat, e: int)
    requires c > 0
    ensures ParseUnsigned(Unsigned(c, e)) == Some(if e >= 0 then (c * Pow(10, e), 0) else (c, e))
    ensures Unsigned(c, e) != "" && Unsigned(c, e)[0] != '-'
  {
    NatTextDigits(c);
    if e >= 0 {
      WholeParts(c, e);
      ParseTrailingZeros(NatText(c), e);
      IndexOfMissing(NatText(c) + Zeros(e), '.');
    } else {
      var whole, fraction, pad := PointParts(c, e);
      ParseLeadingZeros(pad, NatText(c));
      ParsePoint(whole, fraction);
    }
  }

  lemma ParseFixedPoint(negative: bool, c: nat, e: int)
    requires c > 0
    ensures ParseDecimal(FixedPoint(negative, c, e)) ==
            Some(if e >= 0 then Finite(negative, c * Pow(10, e), 0) else Finite(negative, c, e))
  {
    ParseUnsignedText(c, e);
    var s := FixedPoint(negative, c, e);
    if negative {
      assert s[1..] == Unsigned(c, e);
    } else {
      assert s == Unsigned(c, e);
    }
  }

  // A normal number is rendered without anything to trim.
  lemma NormalIsUntrimmed(negative: bool, c: nat, e: int)
    requires c % 10 != 0
    ensures CanonicalText(negative, c, e) == FixedPoint(negative, c, e)
  {
    NothingToTrim(negative, c, e);
    ParseFixedPoint(negative, c, e);
    PowPositive(10, if e >= 0 then e else 0);
    MinusZero();
  }

  lemma NothingToTrim(negative: bool, c: nat, e: int)
    requires c % 10 != 0
    ensures Trimmed(FixedPoint(negative, c, e)) == FixedPoint(negative, c, e)
  {
    if e >= 0 {
      IntegralText(negative, c, e);
    } else {
      LastDigitShown(negative, c, e);
    }
  }

  lemma LastDigitShown(negative: bool, c: nat, e: int)
    requires e < 0
    ensures var s := FixedPoint(negative, c, e); s != "" && s[|s| - 1] == DigitChar(c % 10)
  {
    var whole, fraction, pad := PointParts(c, e);
    NatTextDigits(c);
    var digits := whole + fraction;
    assert digits[|digits| - 1] == DigitChar(c % 10);
    assert fraction[|fraction| - 1] == digits[|digits| - 1];
  }

  lemma MinusZero()
    ensures ParseDecimal("-0") == Some(Finite(true, 0, 0)) && ParseDecimal("0") == Some(Finite(false, 0, 0))
    ensures ParseDecimal("") == Some(Finite(false, 0, 0))
  {
    assert "-0"[1..] == "0" && "0"[1..] == "" && "0"[..0] == "";
  }

  // --------------------------------------------------------------------------------------------
  // Main results
  // --------------------------------------------------------------------------------------------

  lemma ScaledValue(negative: bool, c: nat, e: nat)
    ensures Value(negative, c * Pow(10, e), 0) == Value(negative, c, e)
  {
    MagnitudeShifts(c, 0, e);
  }

  // Reading the canonical text of any finite number gives that number back.
  lemma ParseRecoversValue(x: Number)
    requires x.Finite?
    ensures var back := ParseDecimal(CanonicalDecimal(x).value);
            back.Some? && back.value.Finite? && ValueOf(back.value) == ValueOf(x)
  {
    var (n, c, e) := Normal(x.negative, x.coefficient, x.exponent);
    NormalKeepsValue(x.negative, x.coefficient, x.exponent);
    NormalText(x.negative, x.coefficient, x.exponent);
    if c == 0 {
      ZeroText(false, 0);
      MinusZero();
    } else {
      NormalIsUntrimmed(n, c, e);
      ParseFixedPoint(n, c, e);
      if e >= 0 {
        ScaledValue(n, c, e);
      }
    }
  }

  // Two finite numbers have one canonical text exactly when they are numerically equal.
  lemma CanonicalExactlyWhenEqual(x: Number, y: Number)
    requires x.Finite? && y.Finite?
    ensures CanonicalDecimal(x) == CanonicalDecimal(y) <==> ValueOf(x) == ValueOf(y)
  {
    ParseRecoversValue(x);
    ParseRecoversValue(y);
    if ValueOf(x) == ValueOf(y) {
      NormalKeepsValue(x.negative, x.coefficient, x.exponent);
      NormalKeepsValue(y.negative, y.coefficient, y.exponent);
      NormalIsUnique(Normal(x.negative, x.coefficient, x.exponent), Normal(y.negative, y.coefficient, y.exponent));
      NormalText(x.negative, x.coefficient, x.exponent);
      NormalText(y.negative, y.coefficient, y.exponent);
    }
  }
}
