/**
 * Decimal text and numbers: `String(n)`, `padStart(2, "0")`, and
 * `Number(s)` / unary `+s` on strings. JavaScript's `NaN` is `None`.
 */
module Numbers {
  import opened Wrappers
  import opened Strings

  predicate IsDigit(c: char) { '0' <= c <= '9' }

  predicate AllDigits(s: string) {
    forall i :: 0 <= i < |s| ==> IsDigit(s[i])
  }

  function DigitChar(d: nat): (c: char)
    requires d < 10
    ensures IsDigit(c) && c as int - '0' as int == d
  {
    ('0' as int + d) as char
  }

  /** The value of a string of decimal digits, read left to right. */
  function DigitsValue(s: string): nat
    requires AllDigits(s)
  {
    if s == [] then 0 else DigitsValue(s[..|s| - 1]) * 10 + (s[|s| - 1] as int - '0' as int)
  }

  /** `String(n)` for a non-negative integer: its decimal digits, without leading zeros. */
  function NatToString(n: nat): (r: string)
    ensures |r| >= 1 && AllDigits(r) && DigitsValue(r) == n
    ensures r[0] == '0' ==> n == 0
  {
    if n < 10 then [DigitChar(n)]
    else
      var r := NatToString(n / 10) + [DigitChar(n % 10)];
      assert r[..|r| - 1] == NatToString(n / 10);
      r
  }

  /** `String(n)` for any integer. */
  function IntToString(n: int): string {
    if n < 0 then "-" + NatToString(-n) else NatToString(n)
  }

  /** `s.padStart(2, "0")` */
  function Pad2(s: string): (r: string)
    ensures |r| >= 2
  {
    if |s| >= 2 then s else if |s| == 1 then "0" + s else "00"
  }

  /** A leading zero does not change the value of a digit string. */
  lemma {:induction false} LeadingZero(s: string)
    requires AllDigits(s)
    ensures AllDigits("0" + s) && DigitsValue("0" + s) == DigitsValue(s)
  {
    if s != [] {
      LeadingZero(s[..|s| - 1]);
      assert ("0" + s)[..|"0" + s| - 1] == "0" + s[..|s| - 1];
    }
  }

  /** Padding a decimal numeral with zeros keeps its value. */
  lemma Pad2Value(n: nat)
    ensures AllDigits(Pad2(NatToString(n))) && DigitsValue(Pad2(NatToString(n))) == n
  {
    var s := NatToString(n);
    if |s| == 1 { LeadingZero(s); }
  }

  /**
   * `Number(s)`: leading and trailing white space is ignored, an empty
   * string is 0, and an optionally signed run of decimal digits is its value.
   * Every other string is `NaN` (`None`); JavaScript would also read
   * fractions, exponents, `0x`/`0o`/`0b` prefixes and `Infinity`.
   */
  function ToNumber(s: string): (r: Option<int>)
    ensures AllDigits(Trim(s)) ==> r == Some(DigitsValue(Trim(s)))
  {
    var t := Trim(s);
    if t == "" then Some(0)
    else if t[0] == '+' || t[0] == '-' then
      if |t| > 1 && AllDigits(t[1..]) then
        var v: int := DigitsValue(t[1..]);
        Some(if t[0] == '-' then -v else v)
      else None
    else if AllDigits(t) then Some(DigitsValue(t))
    else None
  }

  /** A string of digits, with or without surrounding white space,
      is read as its decimal value. */
  lemma ToNumberDigits(s: string)
    requires AllDigits(s)
    ensures ToNumber(s) == Some(DigitsValue(s))
  {
    TrimNoSpace(s);
  }

  /** `String(n)` read back by `Number` is `n`, also after padding. */
  lemma NumberOfNatToString(n: nat)
    ensures ToNumber(NatToString(n)) == Some(n)
    ensures ToNumber(Pad2(NatToString(n))) == Some(n)
  {
    ToNumberDigits(NatToString(n));
    Pad2Value(n);
    ToNumberDigits(Pad2(NatToString(n)));
  }

  /** `x || 0` for a number: `NaN` and 0 both give 0. */
  function OrZero(x: Option<int>): int {
    if x.Some? then x.value else 0
  }
}
