/** Numeric coercion of query parameters: `parseValidNumber`, which accepts exactly
    what Go's `strconv.ParseInt(s, 10, 64)` accepts and turns everything else into 0. */
module Numbers {

  const Int64Min: int := -0x8000_0000_0000_0000
  const Int64Max: int := 0x7FFF_FFFF_FFFF_FFFF

  predicate InInt64(n: int) {
    Int64Min <= n <= Int64Max
  }

  predicate IsDigit(c: char) {
    '0' <= c <= '9'
  }

  function DigitValue(c: char): (d: nat)
    requires IsDigit(c)
    ensures d < 10
  {
    (c as int) - ('0' as int)
  }

  function DigitChar(d: nat): (c: char)
    requires d < 10
    ensures IsDigit(c) && DigitValue(c) == d
  {
    ('0' as int + d) as char
  }

  predicate AllDigits(s: string) {
    forall i :: 0 <= i < |s| ==> IsDigit(s[i])
  }

  /** The value of a string of decimal digits, most significant digit first. */
  function DigitsValue(s: string): nat
    requires AllDigits(s)
  {
    if s == [] then 0 else DigitsValue(s[..|s| - 1]) * 10 + DigitValue(s[|s| - 1])
  }

  /** The string without its optional leading sign. */
  function Unsigned(s: string): string {
    if |s| > 0 && (s[0] == '+' || s[0] == '-') then s[1..] else s
  }

  /** Base-10 integer syntax: an optional '+' or '-', then at least one decimal digit
      and nothing else (with an explicit base, underscores and prefixes are refused). */
  predicate IsNumeral(s: string) {
    Unsigned(s) != [] && AllDigits(Unsigned(s))
  }

  /** The mathematical value of a numeral, before any range check. */
  function NumeralValue(s: string): int
    requires IsNumeral(s)
  {
    if s[0] == '-' then 0 - DigitsValue(Unsigned(s)) else DigitsValue(Unsigned(s))
  }

  /** `parseValidNumber`: 0 for the empty string and for every string that `ParseInt`
      rejects (bad syntax or outside the int64 range), the numeral's value otherwise. */
  function ParseValidNumber(s: string): (r: int)
    ensures InInt64(r)
    ensures r != 0 ==> IsNumeral(s) && r == NumeralValue(s)
    ensures IsNumeral(s) && InInt64(NumeralValue(s)) ==> r == NumeralValue(s)
  {
    if s == "" then 0
    else if IsNumeral(s) && InInt64(NumeralValue(s)) then NumeralValue(s)
    else 0
  }

  /** Decimal rendering of a natural number, without leading zeros. */
  function FormatNat(n: nat): string
    decreases n
  {
    if n < 10 then [DigitChar(n)] else FormatNat(n / 10) + [DigitChar(n % 10)]
  }

  /** Decimal rendering of an integer, as Go's `strconv.FormatInt(n, 10)` writes it. */
  function FormatInt(n: int): string {
    if n < 0 then "-" + FormatNat(-n) else FormatNat(n)
  }

  lemma {:induction false} FormatNatIsDigits(n: nat)
    ensures FormatNat(n) != [] && AllDigits(FormatNat(n))
    ensures FormatNat(n)[0] != '-' && FormatNat(n)[0] != '+'
    ensures DigitsValue(FormatNat(n)) == n
    decreases n
  {
    if n >= 10 {
      FormatNatIsDigits(n / 10);
      var s := FormatNat(n);
      assert s[..|s| - 1] == FormatNat(n / 10);
    }
  }

  /** Every int64 written in decimal parses back to itself. */
  lemma {:induction false} ParseFormatRoundTrip(n: int)
    requires InInt64(n)
    ensures ParseValidNumber(FormatInt(n)) == n
  {
    var s := FormatInt(n);
    if n < 0 {
      var d := FormatNat(-n);
      FormatNatIsDigits(-n);
      assert s == "-" + d && s[0] == '-';
      assert Unsigned(s) == d;
      assert IsNumeral(s);
      assert NumeralValue(s) == n;
    } else {
      var d := FormatNat(n);
      FormatNatIsDigits(n);
      assert Unsigned(s) == d;
      assert IsNumeral(s);
      assert NumeralValue(s) == n;
    }
  }

  /** Leading zeros do not change the value of a string of digits. */
  lemma {:induction false} LeadingZeroDigits(s: string)
    requires AllDigits(s)
    ensures AllDigits("0" + s) && DigitsValue("0" + s) == DigitsValue(s)
    decreases |s|
  {
    if s != [] {
      var t := "0" + s;
      assert t[..|t| - 1] == "0" + s[..|s| - 1];
      LeadingZeroDigits(s[..|s| - 1]);
    }
  }

  /** A leading zero after the sign position is accepted and ignored: "007" parses as 7. */
  lemma {:induction false} ParseIgnoresLeadingZero(s: string)
    requires s != [] && AllDigits(s)
    ensures ParseValidNumber("0" + s) == ParseValidNumber(s)
  {
    LeadingZeroDigits(s);
    assert Unsigned("0" + s) == "0" + s;
    assert Unsigned(s) == s;
  }

}
