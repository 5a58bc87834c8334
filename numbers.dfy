/**
 * Decimal text as Python's `float(s)` reads it, for the plain forms the
 * thresholds and percentages of this system use: optional surrounding
 * whitespace, an optional sign, digits with an optional fractional part.
 */
module Numbers {
  import opened Common

  function DigitValue(c: char): (d: nat)
    requires IsDigit(c)
    ensures d < 10
  {
    c as int - '0' as int
  }

  lemma DigitValueOfDigitChar(d: int)
    requires 0 <= d < 10
    ensures DigitValue(DigitChar(d)) == d
  {
  }

  /** The value of a string of decimal digits, most significant first. */
  function DigitsValue(s: string): nat
    requires AllDigits(s)
  {
    if s == [] then 0 else 10 * DigitsValue(s[..|s| - 1]) + DigitValue(s[|s| - 1])
  }

  function Pow10(n: nat): (p: nat)
    ensures p >= 1
  {
    if n == 0 then 1 else 10 * Pow10(n - 1)
  }

  /** Reading back the decimal text of a natural number gives the number. */
  lemma {:induction false} DigitsValueOfNatToString(n: nat)
    ensures DigitsValue(NatToString(n)) == n
  {
    var s := NatToString(n);
    if n < 10 {
      DigitValueOfDigitChar(n);
    } else {
      assert s[..|s| - 1] == NatToString(n / 10);
      DigitsValueOfNatToString(n / 10);
      DigitValueOfDigitChar(n % 10);
    }
  }

  /** Distinct natural numbers have distinct decimal texts. */
  lemma NatToStringInjective(m: nat, n: nat)
    requires NatToString(m) == NatToString(n)
    ensures m == n
  {
    DigitsValueOfNatToString(m);
    DigitsValueOfNatToString(n);
  }

  /** Digits with an optional single `.`: the integer digits and the fraction digits, at least one digit in all. */
  function ParseUnsigned(s: string): (r: Option<real>)
    ensures AllDigits(s) && s != [] ==> r == Some(DigitsValue(s) as real)
    ensures r.Some? ==> r.value >= 0.0
  {
    var dot := FirstIndex(s, (c: char) => c == '.');
    if dot < 0 then
      if s != [] && AllDigits(s) then Some(DigitsValue(s) as real) else None
    else
      var whole, fraction := s[..dot], s[dot + 1..];
      if AllDigits(whole) && AllDigits(fraction) && |whole| + |fraction| >= 1 then
        assert !AllDigits(s) by {
          assert !IsDigit(s[dot]);
        }
        var v := DigitsValue(whole) as real + FractionValue(DigitsValue(fraction), Pow10(|fraction|));
        Some(v)
      else None
  }

  /** The digits after the point, as a fraction of the power of ten their count gives. */
  function FractionValue(digits: nat, scale: nat): (r: real)
    requires scale >= 1
    ensures r >= 0.0
  {
    digits as real / scale as real
  }

  /**
   * Python's `float(s)` on plain decimal text; `None` where it would raise
   * `ValueError` (exponents, `inf`, `nan` and digit separators are not read).
   */
  function ParseFloat(s: string): (r: Option<real>)
  {
    var t := Strip(s);
    if t != [] && t[0] == '-' then
      var u := ParseUnsigned(t[1..]);
      if u.Some? then Some(-u.value) else None
    else if t != [] && t[0] == '+' then ParseUnsigned(t[1..])
    else ParseUnsigned(t)
  }

  /** The text of a whole number reads back as that number. */
  lemma ParseFloatOfNatToString(n: nat)
    ensures ParseFloat(NatToString(n)) == Some(n as real)
  {
    var s := NatToString(n);
    assert !IsWhitespace(s[0]) && !IsWhitespace(s[|s| - 1]);
    assert Strip(s) == s;
    DigitsValueOfNatToString(n);
  }

  /** A fractional part is divided by its power of ten. */
  lemma ParseFloatFraction()
    ensures ParseFloat("12.5") == Some(12.5)
  {
    var s := "12.5";
    assert Strip(s) == s;
    assert FirstIndex(s, (c: char) => c == '.') == 2;
    assert s[..2] == "12" && s[3..] == "5";
    assert "12"[..1] == "1";
  }

  /** A dot without digits, or nothing at all, is not a number. */
  lemma ParseFloatRejectsNoDigits()
    ensures ParseFloat(".") == None
    ensures ParseFloat("") == None
  {
    assert Strip(".") == ".";
    assert FirstIndex(".", (c: char) => c == '.') == 0;
  }
}
