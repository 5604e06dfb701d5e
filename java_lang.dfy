/** The few pieces of Java's standard library that the metadata handler leans on:
    nullable references, string concatenation with a possibly-null String, and
    Long.parseLong. */
module JavaLang {

  /** A Java reference that may be null: None is null. */
  datatype Option<+T> = None | Some(value: T)

  /** What Java's string `+` appends for a String reference: its characters, or "null". */
  function Show(s: Option<string>): string {
    match s
    case None => "null"
    case Some(v) => v
  }

  const LONG_MIN: int := -0x8000_0000_0000_0000
  const LONG_MAX: int := 0x7FFF_FFFF_FFFF_FFFF

  predicate IsDigit(c: char) {
    '0' <= c <= '9'
  }

  predicate AllDigits(s: string) {
    forall i :: 0 <= i < |s| ==> IsDigit(s[i])
  }

  function DigitValue(c: char): nat
    requires IsDigit(c)
  {
    c as int - '0' as int
  }

  function DigitChar(d: nat): (c: char)
    requires d < 10
    ensures IsDigit(c) && DigitValue(c) == d
  {
    ('0' as int + d) as char
  }

  /** The number a string of decimal digits denotes (leading zeros allowed). */
  function DigitsValue(ds: string): nat
    requires AllDigits(ds)
    decreases |ds|
  {
    if ds == [] then 0 else DigitsValue(ds[..|ds| - 1]) * 10 + DigitValue(ds[|ds| - 1])
  }

  /** The part of a numeral after one optional leading sign. */
  function Magnitude(s: string): string {
    if |s| > 0 && (s[0] == '-' || s[0] == '+') then s[1..] else s
  }

  /** Long.parseLong(s) in radix 10: None stands for the NumberFormatException it
      throws on an empty string, a lone sign, a non-digit, or a value outside the
      64-bit range. */
  function ParseLong(s: string): (r: Option<int>)
    ensures r.Some? ==> Magnitude(s) != [] && AllDigits(Magnitude(s)) && LONG_MIN <= r.value <= LONG_MAX
  {
    var digits := Magnitude(s);
    if digits == [] || !AllDigits(digits) then None
    else
      var v: int := if s[0] == '-' then -(DigitsValue(digits) as int) else DigitsValue(digits);
      if LONG_MIN <= v <= LONG_MAX then Some(v) else None
  }

  /** The shortest decimal numeral of n. */
  function DecimalString(n: nat): string
    decreases n
  {
    if n < 10 then [DigitChar(n)] else DecimalString(n / 10) + [DigitChar(n % 10)]
  }

  /** Long.toString(n): what a numeric metadata value looks like when it parses. */
  function LongString(n: int): string {
    if n < 0 then "-" + DecimalString(-n) else DecimalString(n)
  }

  lemma {:induction false} DecimalStringValue(n: nat)
    ensures DecimalString(n) != [] && AllDigits(DecimalString(n))
    ensures DigitsValue(DecimalString(n)) == n
    decreases n
  {
    if n >= 10 {
      DecimalStringValue(n / 10);
      var ds := DecimalString(n);
      assert ds[..|ds| - 1] == DecimalString(n / 10);
      assert ds[|ds| - 1] == DigitChar(n % 10);
    }
  }

  /** Every long value survives printing and parsing back. */
  lemma ParseLongRoundTrip(n: int)
    requires LONG_MIN <= n <= LONG_MAX
    ensures ParseLong(LongString(n)) == Some(n)
  {
    if n < 0 {
      DecimalStringValue(-n);
      var s := LongString(n);
      assert Magnitude(s) == DecimalString(-n);
    } else {
      DecimalStringValue(n);
      assert Magnitude(LongString(n)) == DecimalString(n);
    }
  }

  /** A long's text with a value outside the 64-bit range makes parseLong throw. */
  lemma ParseLongOutOfRange(n: int)
    requires n < LONG_MIN || LONG_MAX < n
    ensures ParseLong(LongString(n)) == None
  {
    var m: nat := if n < 0 then -n else n;
    DecimalStringValue(m);
    assert Magnitude(LongString(n)) == DecimalString(m);
  }

  /** A character that is neither a digit nor a leading sign makes parseLong throw. */
  lemma ParseLongRejectsNonDigit(s: string, i: nat)
    requires i < |s| && !IsDigit(s[i])
    requires i > 0 || (s[i] != '-' && s[i] != '+')
    ensures ParseLong(s) == None
  {
  }
}
