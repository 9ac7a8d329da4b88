/**
  Decimal amounts as text: what the wallet accepts, what a text is worth, and the printer that rounds a
  USD amount up to ten fractional digits. Rational numbers are modelled by `real`.
 */
module Decimal {
  import opened Common

  const FRACTIONAL_DIGITS: nat := 10
  const MAX_SCALE: nat := 10
  const DIVISOR: nat := 10_000_000_000

  predicate IsDigit(c: char) {
    '0' <= c <= '9'
  }

  predicate AllDigits(s: string) {
    forall i :: 0 <= i < |s| ==> IsDigit(s[i])
  }

  function Pow10(n: nat): (p: nat)
    ensures p >= 1
  {
    if n == 0 then 1 else 10 * Pow10(n - 1)
  }

  function DigitsValue(s: string): nat
    requires AllDigits(s)
  {
    if s == "" then 0 else DigitsValue(s[..|s| - 1]) * 10 + (s[|s| - 1] as int - '0' as int)
  }

  function DigitChar(d: nat): (c: char)
    requires d < 10
    ensures IsDigit(c) && c as int - '0' as int == d
  {
    ('0' as int + d) as char
  }

  /** The usual decimal digits of a natural number. */
  function NatText(n: nat): (s: string)
    ensures s != "" && AllDigits(s) && DigitsValue(s) == n
  {
    if n < 10 then [DigitChar(n)] else NatText(n / 10) + [DigitChar(n % 10)]
  }

  function Zeros(n: nat): (s: string)
    ensures |s| == n && AllDigits(s) && forall i :: 0 <= i < n ==> s[i] == '0'
  {
    seq(n, _ => '0')
  }

  // ---------------------------------------------------------------- reading

  function DotIndex(text: string): (i: nat)
    ensures i <= |text| && (i < |text| ==> text[i] == '.') && forall k :: 0 <= k < i ==> text[k] != '.'
  {
    if text == "" || text[0] == '.' then 0 else 1 + DotIndex(text[1..])
  }

  function Whole(text: string): string {
    text[..DotIndex(text)]
  }

  function Fraction(text: string): string {
    if DotIndex(text) == |text| then "" else text[DotIndex(text) + 1..]
  }

  /** Digits, optionally followed by a dot and digits. */
  predicate IsDecimal(text: string) {
    && Whole(text) != "" && AllDigits(Whole(text))
    && (DotIndex(text) < |text| ==> Fraction(text) != "" && AllDigits(Fraction(text)))
  }

  /** What digits after the dot are worth. */
  function FractionValue(s: string): (v: real)
    requires AllDigits(s)
    ensures 0.0 <= v < 1.0
  {
    if s == "" then 0.0 else ((s[0] as int - '0' as int) as real + FractionValue(s[1..])) / 10.0
  }

  function Value(text: string): (v: real)
    requires IsDecimal(text)
    ensures v >= 0.0
  {
    DigitsValue(Whole(text)) as real + FractionValue(Fraction(text))
  }

  function ParseDecimal(text: string): Option<real> {
    if IsDecimal(text) then Some(Value(text)) else None
  }

  function TrimRight(s: string, c: char): (t: string)
    ensures t <= s && (t != "" ==> t[|t| - 1] != c) && forall i :: |t| <= i < |s| ==> s[i] == c
  {
    if s != "" && s[|s| - 1] == c then TrimRight(s[..|s| - 1], c) else s
  }

  function TrimLeft(s: string, c: char): (t: string)
    ensures t == "" <==> forall i :: 0 <= i < |s| ==> s[i] == c
  {
    if s != "" && s[0] == c then TrimLeft(s[1..], c) else s
  }

  datatype Verdict = Accepted | NotADecimal | TooFine | NotPositive

  function ValidateAmount(amount: string): Verdict {
    if !IsDecimal(amount) then NotADecimal
    else if |Fraction(amount)| > MAX_SCALE then TooFine
    else if TrimLeft(TrimRight(Whole(amount) + Fraction(amount), '0'), '0') == "" then NotPositive
    else Accepted
  }

  predicate Digits(s: string) {
    s != "" && AllDigits(s)
  }

  /** A decimal is one or more digits, or two such texts around a dot. */
  lemma IsDecimalIff(text: string)
    ensures IsDecimal(text) <==>
            Digits(text) || exists whole, fraction :: Digits(whole) && Digits(fraction) && text == whole + "." + fraction
  {
    var i := DotIndex(text);
    if IsDecimal(text) && i < |text| {
      assert text == Whole(text) + "." + Fraction(text);
      assert Digits(Whole(text)) && Digits(Fraction(text));
    }
    if Digits(text) {
      assert Whole(text) == text;
    }
    if whole, fraction :| Digits(whole) && Digits(fraction) && text == whole + "." + fraction {
      DotAfterDigits(whole, fraction);
    }
  }

  lemma ValueInParts(whole: string, fraction: string)
    requires Digits(whole) && Digits(fraction)
    ensures ParseDecimal(whole + "." + fraction) == Some(DigitsValue(whole) as real + FractionValue(fraction))
  {
    var text := whole + "." + fraction;
    DotAfterDigits(whole, fraction);
    ParseParts(text, whole, fraction);
  }

  lemma ParseParts(text: string, whole: string, fraction: string)
    requires Digits(whole) && Digits(fraction)
    requires Whole(text) == whole && Fraction(text) == fraction
    ensures ParseDecimal(text) == Some(DigitsValue(whole) as real + FractionValue(fraction))
  {
  }

  /** It is worth its digits, read as one number, over a power of ten for each digit after the dot. */
  lemma ValueIsScaledDigits(whole: string, fraction: string) returns (value: real)
    requires Digits(whole) && Digits(fraction)
    ensures ParseDecimal(whole + "." + fraction) == Some(value) && AllDigits(whole + fraction)
    ensures IsQuotient(value, DigitsValue(whole + fraction), Pow10(|fraction|))
  {
    ValueInParts(whole, fraction);
    DigitsValueConcat(whole, fraction);
    FractionIsScaledDigits(fraction);
    AddWhole(DigitsValue(whole), FractionValue(fraction), DigitsValue(fraction), Pow10(|fraction|));
    value := DigitsValue(whole) as real + FractionValue(fraction);
  }

  lemma AddWhole(whole: nat, rest: real, n: nat, p: nat)
    requires IsQuotient(rest, n, p)
    ensures IsQuotient(whole as real + rest, whole * p + n, p)
  {
  }

  lemma {:induction false} ZeroDigits(s: string)
    requires AllDigits(s)
    ensures DigitsValue(s) == 0 <==> forall i :: 0 <= i < |s| ==> s[i] == '0'
  {
    if s != "" {
      ZeroDigits(s[..|s| - 1]);
    }
  }

  lemma {:induction false} ZeroFraction(s: string)
    requires AllDigits(s)
    ensures FractionValue(s) == 0.0 <==> forall i :: 0 <= i < |s| ==> s[i] == '0'
  {
    if s != "" {
      ZeroFraction(s[1..]);
      assert forall i :: 1 <= i < |s| ==> s[i] == s[1..][i - 1];
    }
  }

  /** An amount is accepted exactly when it is a decimal, worth more than nothing, with at most ten fractional digits. */
  lemma AcceptedIff(amount: string)
    ensures ValidateAmount(amount) == Accepted <==>
            IsDecimal(amount) && Value(amount) > 0.0 && |Fraction(amount)| <= 10
    ensures ValidateAmount(amount) == NotADecimal <==> !IsDecimal(amount)
    ensures ValidateAmount(amount) == TooFine <==> IsDecimal(amount) && |Fraction(amount)| > 10
  {
    if IsDecimal(amount) {
      var whole, fraction := Whole(amount), Fraction(amount);
      var digits := whole + fraction;
      ZeroDigits(whole);
      ZeroFraction(fraction);
      assert forall i :: 0 <= i < |whole| ==> whole[i] == digits[i];
      assert forall i :: 0 <= i < |fraction| ==> fraction[i] == digits[|whole| + i];
      var trimmed := TrimRight(digits, '0');
      assert TrimLeft(trimmed, '0') == "" <==> forall i :: 0 <= i < |digits| ==> digits[i] == '0';
    }
  }

  // ---------------------------------------------------------------- printing

  /** The least whole number of units of 10^-10 that covers `usd`. */
  function RoundUpUnits(usd: real): (units: nat)
    requires usd > 0.0
  {
    var scaled := usd * DIVISOR as real;
    var quotient := scaled.Floor;
    if scaled - quotient as real > 0.0 then quotient + 1 else quotient
  }

  function UnitsText(units: nat): string {
    var padded := Zeros(FRACTIONAL_DIGITS) + NatText(units % DIVISOR);
    var text := NatText(units / DIVISOR) + "." + padded[|padded| - FRACTIONAL_DIGITS..];
    TrimRight(TrimRight(text, '0'), '.')
  }

  function RoundUpUSD(usd: real): string
    requires usd > 0.0
  {
    UnitsText(RoundUpUnits(usd))
  }

  /** Dividing numerator by denominator and looking at the remainder is taking the floor and looking at the rest. */
  lemma QuotientAndRemainder(num: nat, den: nat)
    requires den > 0
    ensures (num as real / den as real).Floor == num / den
    ensures num as real / den as real - (num / den) as real > 0.0 <==> num % den > 0
  {
    var q, r := num / den, num % den;
    var rest := r as real / den as real;
    assert 0.0 <= rest < 1.0 && (rest > 0.0 <==> r > 0);
    assert num as real == q as real * den as real + rest * den as real;
    assert num as real / den as real == q as real + rest;
  }

  lemma {:induction false} DigitsValueConcat(a: string, b: string)
    requires AllDigits(a) && AllDigits(b)
    ensures AllDigits(a + b)
    ensures DigitsValue(a + b) == DigitsValue(a) * Pow10(|b|) + DigitsValue(b)
  {
    if b == "" {
      assert a + b == a;
    } else {
      var init := b[..|b| - 1];
      DigitsValueConcat(a, init);
      assert (a + b)[..|a + b| - 1] == a + init;
      OneMoreDigit(DigitsValue(a), Pow10(|init|), DigitsValue(init), b[|b| - 1] as int - '0' as int);
    }
  }

  lemma OneMoreDigit(a: nat, p: nat, b: nat, d: int)
    ensures (a * p + b) * 10 + d == a * (10 * p) + (b * 10 + d)
  {
  }

  lemma {:induction false} NatTextLength(n: nat, k: nat)
    requires k > 0 && n < Pow10(k)
    ensures |NatText(n)| <= k
  {
    if n >= 10 {
      assert k > 1;
      NatTextLength(n / 10, k - 1);
    }
  }

  lemma DivisorIsPow10()
    ensures Pow10(FRACTIONAL_DIGITS) == DIVISOR
  {
    assert Pow10(2) == 100;
    assert Pow10(4) == 10_000;
    assert Pow10(6) == 1_000_000;
    assert Pow10(8) == 100_000_000;
  }

  /** The zero-padded fraction: ten digits worth `n`. */
  lemma PaddedFraction(n: nat) returns (digits: string)
    requires n < DIVISOR
    ensures var padded := Zeros(FRACTIONAL_DIGITS) + NatText(n); digits == padded[|padded| - FRACTIONAL_DIGITS..]
    ensures |digits| == FRACTIONAL_DIGITS && AllDigits(digits) && DigitsValue(digits) == n
  {
    DivisorIsPow10();
    NatTextLength(n, FRACTIONAL_DIGITS);
    var text := NatText(n);
    var padded := Zeros(FRACTIONAL_DIGITS) + text;
    digits := padded[|text|..];
    assert digits == Zeros(FRACTIONAL_DIGITS - |text|) + text;
    LeadingZeros(FRACTIONAL_DIGITS - |text|, text);
  }

  lemma LeadingZeros(k: nat, s: string)
    requires AllDigits(s)
    ensures AllDigits(Zeros(k) + s) && DigitsValue(Zeros(k) + s) == DigitsValue(s)
  {
    ZeroDigits(Zeros(k));
    DigitsValueConcat(Zeros(k), s);
  }

  lemma {:induction false} TrimAfterDot(whole: string, digits: string)
    requires AllDigits(digits)
    ensures TrimRight(whole + "." + digits, '0') == whole + "." + TrimRight(digits, '0')
  {
    var text := whole + "." + digits;
    if digits == "" {
      assert text == whole + ".";
    } else {
      assert text[..|text| - 1] == whole + "." + digits[..|digits| - 1];
      if digits[|digits| - 1] == '0' {
        TrimAfterDot(whole, digits[..|digits| - 1]);
      }
    }
  }

  /** What both trims leave: the whole part, and the fraction without its trailing zeros unless that is nothing. */
  lemma TrimmedText(whole: string, digits: string)
    requires whole != "" && AllDigits(whole) && AllDigits(digits)
    ensures var kept := TrimRight(digits, '0');
            TrimRight(TrimRight(whole + "." + digits, '0'), '.') == if kept == "" then whole else whole + "." + kept
  {
    TrimAfterDot(whole, digits);
    var kept := TrimRight(digits, '0');
    var text := whole + "." + kept;
    if kept == "" {
      assert text[..|text| - 1] == whole && text[|text| - 1] == '.';
    } else {
      assert text[|text| - 1] == kept[|kept| - 1];
    }
  }

  lemma DotAfterDigits(whole: string, rest: string)
    requires AllDigits(whole)
    ensures DotIndex(whole) == |whole|
    ensures DotIndex(whole + "." + rest) == |whole|
    ensures Whole(whole + "." + rest) == whole && Fraction(whole + "." + rest) == rest
    ensures Whole(whole) == whole && Fraction(whole) == ""
  {
    var text := whole + "." + rest;
    assert text[|whole|] == '.';
    assert forall k :: 0 <= k < |whole| ==> text[k] == whole[k];
  }

  /** Trailing zeros of a fraction are worth nothing. */
  lemma {:induction false} DroppedZeros(kept: string, dropped: string)
    requires AllDigits(kept) && forall i :: 0 <= i < |dropped| ==> dropped[i] == '0'
    ensures AllDigits(kept + dropped) && FractionValue(kept + dropped) == FractionValue(kept)
    decreases |kept|
  {
    if kept == "" {
      assert kept + dropped == dropped;
      ZeroFraction(dropped);
    } else {
      DroppedZeros(kept[1..], dropped);
      assert (kept + dropped)[1..] == kept[1..] + dropped;
    }
  }

  lemma DigitsFromFront(s: string)
    requires s != "" && AllDigits(s)
    ensures s[0] as int - '0' as int >= 0
    ensures DigitsValue(s) == (s[0] as int - '0' as int) * Pow10(|s| - 1) + DigitsValue(s[1..])
  {
    DigitsValueConcat(s[..1], s[1..]);
    assert s == s[..1] + s[1..];
    assert s[..1][..0] == "";
  }

  /** `value` is `n` over `p`. */
  ghost predicate IsQuotient(value: real, n: nat, p: nat) {
    value * p as real == n as real
  }

  /** A fraction of n digits is its digits' value over 10^n. */
  lemma {:induction false} FractionIsScaledDigits(s: string)
    requires AllDigits(s)
    ensures IsQuotient(FractionValue(s), DigitsValue(s), Pow10(|s|))
  {
    if s == "" {
      assert FractionValue(s) == 0.0;
    } else {
      var rest := s[1..];
      FractionIsScaledDigits(rest);
      DigitsFromFront(s);
      ShiftedByOne(s[0] as int - '0' as int, FractionValue(rest), Pow10(|s| - 1), DigitsValue(rest));
    }
  }

  lemma ShiftedByOne(d: nat, fraction: real, p: nat, n: nat)
    requires IsQuotient(fraction, n, p)
    ensures IsQuotient((d as real + fraction) / 10.0, d * p + n, 10 * p)
  {
    var x := (d as real + fraction) / 10.0;
    assert x * (10 * p) as real == x * 10.0 * p as real;
    assert x * 10.0 == d as real + fraction;
    assert (d as real + fraction) * p as real == d as real * p as real + fraction * p as real;
  }

  /** Whole part and fraction of the printed text. */
  lemma UnitsTextShape(units: nat) returns (digits: string)
    ensures |digits| == FRACTIONAL_DIGITS && AllDigits(digits) && DigitsValue(digits) == units % DIVISOR
    ensures var text := UnitsText(units);
            IsDecimal(text) && Whole(text) == NatText(units / DIVISOR) && Fraction(text) == TrimRight(digits, '0') &&
            (Fraction(text) != "" ==> text[|text| - 1] != '0')
  {
    var whole := NatText(units / DIVISOR);
    digits := PaddedFraction(units % DIVISOR);
    var kept := TrimRight(digits, '0');
    TrimmedText(whole, digits);
    DotAfterDigits(whole, kept);
    DecimalShape(whole, kept);
  }

  lemma DecimalShape(whole: string, kept: string)
    requires whole != "" && AllDigits(whole) && AllDigits(kept)
    ensures var text := if kept == "" then whole else whole + "." + kept;
            IsDecimal(text) && Whole(text) == whole && Fraction(text) == kept &&
            (kept != "" ==> text[|text| - 1] == kept[|kept| - 1])
  {
    DotAfterDigits(whole, kept);
  }

  /** Whatever is printed is a decimal text, in shortest form, worth exactly the units printed. */
  lemma UnitsTextValue(units: nat)
    ensures var text := UnitsText(units);
            IsDecimal(text) && |Fraction(text)| <= FRACTIONAL_DIGITS &&
            (Fraction(text) != "" ==> text[|text| - 1] != '0') &&
            Value(text) == units as real / DIVISOR as real
  {
    var digits := UnitsTextShape(units);
    var kept := TrimRight(digits, '0');
    assert digits == kept + digits[|kept|..];
    DroppedZeros(kept, digits[|kept|..]);
    FractionIsScaledDigits(digits);
    DivisorIsPow10();
    WholeAndRest(units, FractionValue(digits));
  }

  lemma WholeAndRest(units: nat, rest: real)
    requires IsQuotient(rest, units % DIVISOR, DIVISOR)
    ensures (units / DIVISOR) as real + rest == units as real / DIVISOR as real
  {
    assert units == units / DIVISOR * DIVISOR + units % DIVISOR;
  }

  lemma RoundUpUnitsBounds(usd: real)
    requires usd > 0.0
    ensures var units := RoundUpUnits(usd) as real;
            units >= 1.0 && usd * DIVISOR as real <= units < usd * DIVISOR as real + 1.0
  {
    var scaled := usd * DIVISOR as real;
    assert scaled > 0.0;
    assert scaled.Floor as real <= scaled < scaled.Floor as real + 1.0;
  }

  /**
    Printing rounds up exactly: the text is an amount the wallet accepts, and reading it back gives a value
    at or above `usd` by less than one unit of the last place.
   */
  lemma RoundUpUSDIsExact(usd: real)
    requires usd > 0.0
    ensures var text := RoundUpUSD(usd);
            ValidateAmount(text) == Accepted &&
            ParseDecimal(text) == Some(RoundUpUnits(usd) as real / DIVISOR as real) &&
            usd <= Value(text) < usd + 1.0 / DIVISOR as real && DIVISOR == 10_000_000_000
  {
    UnitsTextValue(RoundUpUnits(usd));
    RoundUpUnitsBounds(usd);
    AcceptedIff(RoundUpUSD(usd));
  }

  lemma AmountsAreWholeUnits(amount: string) returns (units: nat)
    requires IsDecimal(amount) && |Fraction(amount)| <= FRACTIONAL_DIGITS
    ensures Value(amount) == units as real / DIVISOR as real
  {
    var fraction := Fraction(amount);
    var digits := fraction + Zeros(FRACTIONAL_DIGITS - |fraction|);
    DroppedZeros(fraction, Zeros(FRACTIONAL_DIGITS - |fraction|));
    FractionIsScaledDigits(digits);
    DivisorIsPow10();
    units := DigitsValue(Whole(amount)) * DIVISOR + DigitsValue(digits);
  }

  /** No accepted amount that covers `usd` is smaller than the one printed. */
  lemma RoundUpUSDIsLeast(usd: real, amount: string)
    requires usd > 0.0 && ValidateAmount(amount) == Accepted && Value(amount) >= usd
    ensures IsDecimal(RoundUpUSD(usd)) && Value(amount) >= Value(RoundUpUSD(usd))
  {
    AcceptedIff(amount);
    var units := AmountsAreWholeUnits(amount);
    LeastUnits(usd, units);
    UnitsTextValue(RoundUpUnits(usd));
  }

  lemma LeastUnits(usd: real, units: nat)
    requires usd > 0.0 && units as real / DIVISOR as real >= usd
    ensures units >= RoundUpUnits(usd)
  {
    RoundUpUnitsBounds(usd);
    assert RoundUpUnits(usd) as real < units as real + 1.0;
  }
}
