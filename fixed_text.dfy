/**
 * `(x / scale).toFixed(p)` for integers `x` and `scale`: the quotient
 * rounded to `p` decimals, written with a minus sign when it is negative.
 * Its partner is the reader `ReadFixed`, which takes such text back to the
 * number of `10^-p` units it shows.
 */
module FixedText {
  import opened Wrappers
  import opened Strings
  import opened Numbers
  import opened Time

  function Pow10(p: nat): (r: nat)
    ensures r >= 1
  {
    if p == 0 then 1 else 10 * Pow10(p - 1)
  }

  function Abs(x: int): nat {
    if x < 0 then -x else x
  }

  /** `x / d` rounded to the nearest integer, a tie going up: the one `q`
      with `q - 1/2 <= x / d < q + 1/2`. */
  function RoundDiv(x: nat, d: nat): (q: nat)
    requires d > 0
    ensures -(d as int) <= 2 * x - 2 * d * q < d
  {
    var q := (2 * x + d) / (2 * d);
    assert 2 * d * q <= 2 * x + d < 2 * d * q + 2 * d;
    q
  }

  /** `q` units of `10^-p` as decimal text with exactly `p` decimals. */
  function Decimal(q: nat, p: nat): string
    requires p >= 1
  {
    var (whole, frac) := DivMod(q, Pow10(p));
    NatToString(whole) + "." + PadZeros(NatToString(frac), p)
  }

  /** The quotient and remainder of `q` by a positive `d`. */
  function DivMod(q: nat, d: nat): (r: (nat, nat))
    requires d >= 1
    ensures r.1 < d && q == r.0 * d + r.1
  {
    DivModNonNeg(q, d);
    (q / d, q % d)
  }

  lemma DivModNonNeg(q: nat, d: nat)
    requires d >= 1
    ensures q / d >= 0 && 0 <= q % d < d && q == (q / d) * d + q % d
  {
  }

  /** `(x / scale).toFixed(p)`: the magnitude is rounded half up and the
      sign is written whenever `x` is negative, also when the rounded value
      is zero ("-0.0"). */
  function Fixed(x: int, scale: nat, p: nat): string
    requires scale > 0 && p >= 1
  {
    (if x < 0 then "-" else "") + Decimal(RoundDiv(Abs(x) * Pow10(p), scale), p)
  }

  /** Reads an unsigned decimal with exactly `p` decimals as a count of `10^-p`. */
  function ReadDecimal(s: string, p: nat): Option<nat> {
    var parts := Split(s, '.');
    if |parts| == 2 && parts[0] != "" && AllDigits(parts[0]) && |parts[1]| == p && AllDigits(parts[1])
    then Some(DigitsValue(parts[0]) * Pow10(p) + DigitsValue(parts[1]))
    else None
  }

  /** Reads a decimal with exactly `p` decimals and an optional minus sign. */
  function ReadFixed(s: string, p: nat): Option<int> {
    if s != "" && s[0] == '-' then
      match ReadDecimal(s[1..], p)
      case None => None
      case Some(v) => Some(-(v as int))
    else
      match ReadDecimal(s, p)
      case None => None
      case Some(v) => Some(v)
  }

  /** The characters of a number written in decimal. */
  predicate NumeralChars(s: string) {
    forall i :: 0 <= i < |s| ==> IsDigit(s[i]) || s[i] == '.' || s[i] == '-'
  }

  /** `toFixed` writes digits, a point and possibly a minus sign only. */
  lemma FixedChars(x: int, scale: nat, p: nat)
    requires scale > 0 && p >= 1
    ensures NumeralChars(Fixed(x, scale, p))
  {
    var q := RoundDiv(Abs(x) * Pow10(p), scale);
    var (whole, frac) := DivMod(q, Pow10(p));
    PadZerosValue(NatToString(frac), p);
    var a := NatToString(whole);
    var b := PadZeros(NatToString(frac), p);
    var sign := if x < 0 then "-" else "";
    assert Fixed(x, scale, p) == sign + a + "." + b;
    NumeralConcat(sign, a, b);
  }

  lemma NumeralConcat(sign: string, a: string, b: string)
    requires sign == "" || sign == "-"
    requires AllDigits(a) && AllDigits(b)
    ensures NumeralChars(sign + a + "." + b)
  {
    var s := sign + a + "." + b;
    forall i | 0 <= i < |s| ensures IsDigit(s[i]) || s[i] == '.' || s[i] == '-' {
      if i >= |sign| && i < |sign| + |a| {
        assert s[i] == a[i - |sign|];
      } else if i > |sign| + |a| {
        assert s[i] == b[i - |sign| - |a| - 1];
      }
    }
  }

  /** Zero padding keeps a digit string's value, and pads a short one to
      exactly `n` characters. */
  lemma {:induction false} PadZerosValue(s: string, n: nat)
    requires AllDigits(s)
    ensures AllDigits(PadZeros(s, n)) && DigitsValue(PadZeros(s, n)) == DigitsValue(s)
    ensures |s| <= n ==> |PadZeros(s, n)| == n
    decreases n - |s|
  {
    if |s| < n {
      LeadingZero(s);
      PadZerosValue("0" + s, n);
    }
  }

  /** A number below `10^p` has at most `p` digits. */
  lemma {:induction false} NatToStringShort(v: nat, p: nat)
    requires p >= 1 && v < Pow10(p)
    ensures |NatToString(v)| <= p
  {
    if v >= 10 {
      NatToStringShort(v / 10, p - 1);
    }
  }

  /** `Decimal` is read back by `ReadDecimal`. */
  lemma DecimalRoundTrip(q: nat, p: nat)
    requires p >= 1
    ensures ReadDecimal(Decimal(q, p), p) == Some(q)
  {
    var (whole, frac) := DivMod(q, Pow10(p));
    var a := NatToString(whole);
    var r := NatToString(frac);
    var b := PadZeros(r, p);
    NatToStringShort(frac, p);
    PadZerosValue(r, p);
    assert a + "." + b == a + ['.'] + b;
    SplitAtFirst(a, '.', b, c => c == '.');
    SplitNoSep(b, c => c == '.');
    assert Split(Decimal(q, p), '.') == [a, b];
  }

  /** A signed `Decimal` is read back with its sign. */
  lemma SignedDecimalReads(neg: bool, q: nat, p: nat)
    requires p >= 1
    ensures ReadFixed((if neg then "-" else "") + Decimal(q, p), p) == Some(if neg then -(q as int) else q)
  {
    var d := Decimal(q, p);
    DecimalRoundTrip(q, p);
    assert d[0] == NatToString(DivMod(q, Pow10(p)).0)[0];
    if neg {
      assert ("-" + d)[1..] == d;
    } else {
      assert "" + d == d;
    }
  }

  /** The rounding bound of a magnitude, carried over to a signed value. */
  lemma SignedNearest(x: int, xp: int, axp: nat, scale: nat, q: nat, v: int)
    requires (x >= 0 ==> xp == axp) && (x < 0 ==> xp == -(axp as int))
    requires -(scale as int) <= 2 * axp - 2 * scale * q < scale
    requires v == if x < 0 then -(q as int) else q
    ensures x >= 0 ==> -(scale as int) <= 2 * xp - 2 * scale * v < scale
    ensures x < 0 ==> -(scale as int) < 2 * xp - 2 * scale * v <= scale
  {
  }

  /** The value `(x / scale).toFixed(p)` shows, in units of `10^-p`: the
      nearest to `x / scale`, a tie going away from zero. */
  function FixedValue(x: int, scale: nat, p: nat): (v: int)
    requires scale > 0
    ensures x >= 0 ==> -(scale as int) <= 2 * (x * Pow10(p)) - 2 * scale * v < scale
    ensures x < 0 ==> -(scale as int) < 2 * (x * Pow10(p)) - 2 * scale * v <= scale
  {
    var axp := Abs(x) * Pow10(p);
    var q := RoundDiv(axp, scale);
    var v := if x < 0 then -(q as int) else q;
    assert x < 0 ==> x * Pow10(p) == -axp;
    SignedNearest(x, x * Pow10(p), axp, scale, q, v);
    v
  }

  /** What `toFixed` writes is read back as `FixedValue`. */
  lemma FixedRoundTrip(x: int, scale: nat, p: nat)
    requires scale > 0 && p >= 1
    ensures ReadFixed(Fixed(x, scale, p), p) == Some(FixedValue(x, scale, p))
  {
    var q := RoundDiv(Abs(x) * Pow10(p), scale);
    assert Fixed(x, scale, p) == (if x < 0 then "-" else "") + Decimal(q, p);
    SignedDecimalReads(x < 0, q, p);
  }
}
