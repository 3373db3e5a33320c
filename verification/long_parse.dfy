/**
 Decimal parsing of signed 64-bit integers, as Kotlin's `String.toLongOrNull()`
 does it for the required-tracker-id preference: an optional leading `+` or
 `-`, then at least one decimal digit, and a value that fits a `Long`;
 anything else is `null`. `FormatLong` is the decimal rendering it inverts.
 */
module LongParse {
  import opened Wrappers

  const LONG_MIN: int := -0x8000_0000_0000_0000
  const LONG_MAX: int := 0x7FFF_FFFF_FFFF_FFFF

  predicate IsLong(n: int) {
    LONG_MIN <= n <= LONG_MAX
  }

  predicate IsDigit(c: char) {
    '0' <= c <= '9'
  }

  predicate AllDigits(s: string) {
    forall i :: 0 <= i < |s| ==> IsDigit(s[i])
  }

  /** `s` is a sign-optional, non-empty run of decimal digits. */
  predicate IsNumeral(s: string) {
    if |s| > 0 && (s[0] == '+' || s[0] == '-') then |s| > 1 && AllDigits(s[1..])
    else |s| > 0 && AllDigits(s)
  }

  /** The value of a run of decimal digits, most significant first. */
  function DigitsValue(s: string): nat
    requires AllDigits(s)
    decreases |s|
  {
    if |s| == 0 then 0
    else DigitsValue(s[..|s| - 1]) * 10 + (s[|s| - 1] as int - '0' as int)
  }

  function ParseLong(s: string): (r: Option<int>)
    ensures r.Some? ==> IsNumeral(s) && IsLong(r.value)
    ensures r.Some? && |s| > 0 && s[0] == '-' ==> r.value <= 0
    ensures r.Some? && |s| > 0 && s[0] != '-' ==> r.value >= 0
  {
    if |s| == 0 then None
    else if s[0] < '0' then
      if |s| == 1 then None
      else if s[0] == '-' && AllDigits(s[1..]) && IsLong(-(DigitsValue(s[1..]) as int)) then Some(-(DigitsValue(s[1..]) as int))
      else if s[0] == '+' && AllDigits(s[1..]) && IsLong(DigitsValue(s[1..])) then Some(DigitsValue(s[1..]))
      else None
    else if AllDigits(s) && IsLong(DigitsValue(s)) then Some(DigitsValue(s))
    else None
  }

  /** The canonical decimal digits of a natural number. */
  function Digits(n: nat): (s: string)
    ensures |s| > 0 && AllDigits(s)
    decreases n
  {
    if n < 10 then [('0' as int + n) as char]
    else Digits(n / 10) + [('0' as int + n % 10) as char]
  }

  /** Kotlin's `Long.toString()`: a `-` before the digits of a negative value. */
  function FormatLong(n: int): string
  {
    if n < 0 then "-" + Digits(-n) else Digits(n)
  }

  lemma {:induction false} DigitsValueOfDigits(n: nat)
    ensures DigitsValue(Digits(n)) == n
    decreases n
  {
    if n >= 10 {
      DigitsValueOfDigits(n / 10);
      var s := Digits(n);
      assert s[..|s| - 1] == Digits(n / 10);
    }
  }

  /** Every `Long` survives being written out and read back. */
  lemma ParseFormatRoundTrip(n: int)
    requires IsLong(n)
    ensures ParseLong(FormatLong(n)) == Some(n)
  {
    if n < 0 {
      DigitsValueOfDigits(-n);
      var s := FormatLong(n);
      assert s[1..] == Digits(-n);
    } else {
      DigitsValueOfDigits(n);
    }
  }

  /** A value outside the 64-bit range is `null`, never a wrapped-around number. */
  lemma OverflowIsRejected(s: string)
    requires AllDigits(s) && |s| > 0 && !IsLong(DigitsValue(s))
    ensures ParseLong(s) == None
    ensures ParseLong("+" + s) == None
    ensures DigitsValue(s) > LONG_MAX + 1 ==> ParseLong("-" + s) == None
  {
    assert ("-" + s)[1..] == s;
  }

  /** A leading zero does not change the value of a digit run. */
  lemma {:induction false} DigitsValueLeadingZero(s: string)
    requires AllDigits(s)
    ensures AllDigits("0" + s) && DigitsValue("0" + s) == DigitsValue(s)
    decreases |s|
  {
    if |s| > 0 {
      var init := s[..|s| - 1];
      DigitsValueLeadingZero(init);
      assert ("0" + s)[..|s|] == "0" + init;
    }
  }

  /**
   Numerals that are not in canonical form read as their canonical form: a
   `+` sign and leading zeros change nothing, and `-0` is zero. With the
   round trip above this fixes the value of every numeral.
   */
  lemma NonCanonicalNumerals(s: string)
    requires |s| > 0 && AllDigits(s)
    ensures ParseLong("+" + s) == ParseLong(s)
    ensures ParseLong("0" + s) == ParseLong(s)
    ensures ParseLong("-0" + s) == ParseLong("-" + s)
    ensures ParseLong("-0") == Some(0)
  {
    DigitsValueLeadingZero(s);
    assert ("+" + s)[1..] == s;
    assert ("-" + s)[1..] == s;
    assert ("-0" + s)[1..] == "0" + s;
    assert "-0"[1..] == "0";
  }
}
