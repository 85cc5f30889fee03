/*
 * The part of the C library's `strtol` that the command-line and address
 * parsers rely on: leading white space, an optional sign, base 10 or base 0
 * (a `0x` prefix selects hexadecimal, a leading `0` octal), saturation at the
 * limits of `long`, and the end pointer that says how much was consumed.
 */
module CLib {
  import opened Common

  predicate IsSpace(c: char) {
    c == ' ' || c == '\t' || c == '\n' || c == '\r' || c as int == 11 || c as int == 12
  }

  /** The digit a character stands for in bases up to 36; 36 for a character that is no digit. */
  function DigitValue(c: char): (d: nat)
    ensures d <= 36
  {
    if '0' <= c <= '9' then c as int - '0' as int
    else if 'a' <= c <= 'z' then c as int - 'a' as int + 10
    else if 'A' <= c <= 'Z' then c as int - 'A' as int + 10
    else 36
  }

  predicate IsDigitIn(c: char, base: nat) {
    DigitValue(c) < base
  }

  /** Length of the longest prefix of `s` made of digits of `base`. */
  function DigitRun(s: string, base: nat): (n: nat)
    ensures n <= |s|
    ensures forall i :: 0 <= i < n ==> IsDigitIn(s[i], base)
    ensures n < |s| ==> !IsDigitIn(s[n], base)
  {
    if s == [] || !IsDigitIn(s[0], base) then 0 else 1 + DigitRun(s[1..], base)
  }

  /** Value of a string of digits, most significant first. */
  function DigitsValue(s: string, base: nat): nat
  {
    if s == [] then 0
    else DigitsValue(s[..|s| - 1], base) * base + DigitValue(s[|s| - 1])
  }

  function LeadingSpaces(s: string): (n: nat)
    ensures n <= |s|
    ensures forall i :: 0 <= i < n ==> IsSpace(s[i])
    ensures n < |s| ==> !IsSpace(s[n])
  {
    if s == [] || !IsSpace(s[0]) then 0 else 1 + LeadingSpaces(s[1..])
  }

  /** What `strtol(s, &end, base)` returns, and how many characters `end` lies past `s`. */
  datatype Parsed = Parsed(value: int, end: nat)

  function Strtol(s: string, base: nat): (p: Parsed)
    requires base == 0 || base == 10
    ensures LONG_MIN <= p.value <= LONG_MAX
    ensures p.end <= |s|
  {
    var i := LeadingSpaces(s);
    var negative := i < |s| && s[i] == '-';
    var j := if i < |s| && (s[i] == '-' || s[i] == '+') then i + 1 else i;
    var hex := base == 0 && j + 1 < |s| && s[j] == '0' && (s[j + 1] == 'x' || s[j + 1] == 'X');
    var b := if base == 10 then 10 else if hex then 16 else if j < |s| && s[j] == '0' then 8 else 10;
    var k := if hex then j + 2 else j;
    var n := DigitRun(s[k..], b);
    if n == 0 then
      // no digits: a bare "0x" still consumes its "0"; otherwise nothing is consumed
      if hex then Parsed(0, j + 1) else Parsed(0, 0)
    else
      var magnitude: int := DigitsValue(s[k..k + n], b);
      Parsed(Clamp(if negative then -magnitude else magnitude, LONG_MIN, LONG_MAX), k + n)
  }

  /** `*end == '\0'` after the call: the whole string was consumed. */
  predicate FullyParsed(s: string, p: Parsed) {
    p.end == |s|
  }

  /** The canonical decimal spelling of a natural number. */
  function Decimal(n: nat): (s: string)
    ensures |s| >= 1
    ensures forall i :: 0 <= i < |s| ==> '0' <= s[i] <= '9'
  {
    if n < 10 then [('0' as int + n) as char] else Decimal(n / 10) + [('0' as int + n % 10) as char]
  }

  lemma {:induction false} DecimalValue(n: nat)
    ensures DigitsValue(Decimal(n), 10) == n
    ensures DigitRun(Decimal(n), 10) == |Decimal(n)|
  {
    var s := Decimal(n);
    if n >= 10 {
      DecimalValue(n / 10);
      assert s[..|s| - 1] == Decimal(n / 10);
    }
  }

  lemma {:induction false} DecimalLeadingDigit(n: nat)
    ensures n > 0 ==> Decimal(n)[0] != '0'
  {
    if n >= 10 {
      DecimalLeadingDigit(n / 10);
    }
  }

  /** A plain run of decimal digits not starting with `0` reads as its value in both bases used here. */
  lemma StrtolOfDigits(s: string, base: nat)
    requires base == 0 || base == 10
    requires |s| >= 1 && s[0] != '0'
    requires forall i :: 0 <= i < |s| ==> '0' <= s[i] <= '9'
    ensures Strtol(s, base) == Parsed(Clamp(DigitsValue(s, 10), LONG_MIN, LONG_MAX), |s|)
  {
    assert !IsSpace(s[0]);
    assert LeadingSpaces(s) == 0;
    assert s[0..] == s;
    assert s[0..0 + |s|] == s;
    assert DigitRun(s, 10) == |s|;
  }

  /** Round trip: `strtol` reads back exactly what `Decimal` writes, consuming all of it. */
  lemma DecimalRoundTrip(n: nat, base: nat)
    requires base == 0 || base == 10
    requires n <= LONG_MAX
    ensures Strtol(Decimal(n), base) == Parsed(n, |Decimal(n)|)
  {
    var s := Decimal(n);
    DecimalValue(n);
    DecimalLeadingDigit(n);
    if n == 0 {
      assert s == "0";
      assert s[0..] == s && s[0..1] == s && s[..0] == [];
      assert DigitsValue(s, 8) == 0 && DigitsValue(s, 10) == 0;
    } else {
      StrtolOfDigits(s, base);
    }
  }
}
