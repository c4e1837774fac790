/** Decimal numerals: the strings the numeric guard accepts, and the integer and exact real values
    PHP's (int) and (float) casts give them. */
module Numeric {
  import opened Text

  predicate IsDigit(c: char)
  {
    '0' <= c <= '9'
  }

  predicate AllDigits(s: string)
  {
    forall i :: 0 <= i < |s| ==> IsDigit(s[i])
  }

  function DigitValue(c: char): nat
    requires IsDigit(c)
  {
    c as int - '0' as int
  }

  /** The value of a string of decimal digits, most significant first ("" is 0). */
  function DigitsValue(s: string): nat
    requires AllDigits(s)
  {
    if s == [] then 0 else 10 * DigitsValue(s[..|s| - 1]) + DigitValue(s[|s| - 1])
  }

  function Pow10(n: nat): (r: nat)
    ensures r >= 1
  {
    if n == 0 then 1 else 10 * Pow10(n - 1)
  }

  /** A string of n digits denotes less than 10^n. */
  lemma {:induction false} DigitsBelowPow10(s: string)
    requires AllDigits(s)
    ensures DigitsValue(s) < Pow10(|s|)
  {
    if s != [] {
      DigitsBelowPow10(s[..|s| - 1]);
    }
  }

  predicate HasSign(s: string)
  {
    |s| > 0 && (s[0] == '+' || s[0] == '-')
  }

  predicate IsNegative(s: string)
  {
    |s| > 0 && s[0] == '-'
  }

  /** The numeral without its sign. */
  function Unsigned(s: string): string
  {
    if HasSign(s) then s[1..] else s
  }

  /** The digits before the decimal point. */
  function IntegerDigits(s: string): string
  {
    var u := Unsigned(s);
    u[..IndexOf(u, '.')]
  }

  /** The digits after the decimal point ("" when there is no point). */
  function FractionDigits(s: string): string
  {
    var u := Unsigned(s);
    var k := IndexOf(u, '.');
    if k < |u| then u[k + 1..] else ""
  }

  /** A decimal numeral: an optional sign, digits with at most one decimal point, and at least
      one digit in all ("7", "-3", "18.5", "5.", "+.5"). */
  predicate IsNumeric(s: string)
  {
    && AllDigits(IntegerDigits(s))
    && AllDigits(FractionDigits(s))
    && |IntegerDigits(s)| + |FractionDigits(s)| > 0
  }

  /** The same strings described character by character: every character is a digit, a decimal
      point or a leading sign; no two are points; at least one is a digit. */
  predicate NumeralSpelling(s: string)
  {
    && (forall i :: 0 <= i < |s| ==> IsDigit(s[i]) || s[i] == '.' || (i == 0 && HasSign(s)))
    && (forall i, j :: 0 <= i < j < |s| && s[i] == '.' ==> s[j] != '.')
    && (exists i :: 0 <= i < |s| && IsDigit(s[i]))
  }

  /** The numerals the guard accepts are exactly the strings of that spelling. */
  lemma NumeralShape(s: string)
    ensures IsNumeric(s) <==> NumeralSpelling(s)
  {
    if IsNumeric(s) {
      NumeralHasSpelling(s);
    }
    if NumeralSpelling(s) {
      SpellingIsNumeral(s);
    }
  }

  lemma NumeralHasSpelling(s: string)
    requires IsNumeric(s)
    ensures NumeralSpelling(s)
  {
    var o := if HasSign(s) then 1 else 0;
    var u := Unsigned(s);
    var k := IndexOf(u, '.');
    assert u == s[o..];
    assert IntegerDigits(s) == u[..k];
    forall i | 0 <= i < |s|
      ensures IsDigit(s[i]) || s[i] == '.' || (i == 0 && HasSign(s))
    {
      if o <= i && i - o != k {
        DigitOfUnsigned(s, i - o);
      }
    }
    forall i, j | 0 <= i < j < |s| && s[i] == '.'
      ensures s[j] != '.'
    {
      assert !IsDigit('.');
      if o <= i {
        if i - o < k {
          DigitOfUnsigned(s, i - o);
        }
        DigitOfUnsigned(s, j - o);
      }
    }
    if |IntegerDigits(s)| > 0 {
      DigitOfUnsigned(s, 0);
      assert IsDigit(s[o]);
    } else {
      DigitOfUnsigned(s, k + 1);
      assert IsDigit(s[o + k + 1]);
    }
  }

  /** A character of a numeral's unsigned part other than its decimal point is a digit. */
  lemma DigitOfUnsigned(s: string, j: int)
    requires IsNumeric(s)
    requires 0 <= j < |Unsigned(s)| && j != IndexOf(Unsigned(s), '.')
    ensures IsDigit(Unsigned(s)[j])
  {
    var u := Unsigned(s);
    var k := IndexOf(u, '.');
    if j < k {
      assert u[j] == IntegerDigits(s)[j];
    } else {
      assert u[j] == FractionDigits(s)[j - k - 1];
    }
  }

  lemma SpellingIsNumeral(s: string)
    requires NumeralSpelling(s)
    ensures IsNumeric(s)
  {
    UnsignedSpelling(s);
    PointSplitsDigits(Unsigned(s));
  }

  /** Digits and points only, at most one point, at least one digit. */
  predicate UnsignedSpelled(u: string)
  {
    && (forall j :: 0 <= j < |u| ==> IsDigit(u[j]) || u[j] == '.')
    && (forall i, j :: 0 <= i < j < |u| && u[i] == '.' ==> u[j] != '.')
    && (exists j :: 0 <= j < |u| && IsDigit(u[j]))
  }

  lemma UnsignedSpelling(s: string)
    requires NumeralSpelling(s)
    ensures UnsignedSpelled(Unsigned(s))
  {
    var o := if HasSign(s) then 1 else 0;
    var u := Unsigned(s);
    assert u == s[o..];
    assert forall j :: 0 <= j < |u| ==> u[j] == s[j + o];
    assert !IsDigit('+') && !IsDigit('-');
    var i :| 0 <= i < |s| && IsDigit(s[i]);
    assert IsDigit(u[i - o]);
  }

  lemma PointSplitsDigits(u: string)
    requires UnsignedSpelled(u)
    ensures var k := IndexOf(u, '.');
            AllDigits(u[..k]) && AllDigits(if k < |u| then u[k + 1..] else "")
            && |u[..k]| + |if k < |u| then u[k + 1..] else ""| > 0
  {
    var k := IndexOf(u, '.');
    assert !IsDigit('.');
    var i :| 0 <= i < |u| && IsDigit(u[i]);
    assert i != k;
  }

  /** The integer part of a numeral with its sign, which truncates its exact value toward zero.
      This stands for (int) on a numeral; PHP 7.1 and later truncate the nearest double of a
      numeral with a decimal point, which can differ when that double rounds across an integer. */
  function NumeralInt(s: string): (n: int)
    requires IsNumeric(s)
    ensures !IsNegative(s) ==> n as real <= NumeralReal(s) < n as real + 1.0
    ensures IsNegative(s) ==> n as real - 1.0 < NumeralReal(s) <= n as real
  {
    var n: int := DigitsValue(IntegerDigits(s));
    if IsNegative(s) then -n else n
  }

  /** The exact value the numeral denotes: the digits after the point add less than one to the
      value of the digits before it, and the sign applies to both. */
  function NumeralReal(s: string): (x: real)
    requires IsNumeric(s)
    ensures !IsNegative(s) ==>
              DigitsValue(IntegerDigits(s)) as real <= x < DigitsValue(IntegerDigits(s)) as real + 1.0
    ensures IsNegative(s) ==>
              -(DigitsValue(IntegerDigits(s)) as real) - 1.0 < x <= -(DigitsValue(IntegerDigits(s)) as real)
  {
    var f := FractionDigits(s);
    DigitsBelowPow10(f);
    FractionBelowOne(DigitsValue(f) as real, Pow10(|f|) as real);
    var x := DigitsValue(IntegerDigits(s)) as real + DigitsValue(f) as real / Pow10(|f|) as real;
    if IsNegative(s) then -x else x
  }

  lemma FractionBelowOne(a: real, b: real)
    requires 0.0 <= a < b
    ensures 0.0 <= a / b < 1.0
  {
  }

  /** Decimal digits of a natural number, without leading zeros. */
  function NatToString(n: nat): (r: string)
    ensures |r| >= 1 && AllDigits(r)
    ensures DigitsValue(r) == n
  {
    var last := ['0' + (n % 10) as char];
    if n < 10 then last
    else
      var r := NatToString(n / 10) + last;
      assert r[..|r| - 1] == NatToString(n / 10);
      r
  }

  /** The canonical decimal spelling of an integer: a minus sign for negatives, no plus sign. */
  function IntToString(n: int): (r: string)
    ensures r != ""
  {
    if n < 0 then "-" + NatToString(-n) else NatToString(n)
  }

  lemma AllDigitsHasNoPoint(u: string)
    requires AllDigits(u)
    ensures IndexOf(u, '.') == |u|
  {
    IndexOfAbsent(u, '.');
  }

  /** Printing an integer and reading it back as a numeral gives the integer. */
  lemma IntToStringIsNumeral(n: int)
    ensures IsNumeric(IntToString(n))
    ensures NumeralInt(IntToString(n)) == n
    ensures NumeralReal(IntToString(n)) == n as real
  {
    var s := IntToString(n);
    var u := if n < 0 then NatToString(-n) else NatToString(n);
    if n < 0 {
      assert s[1..] == u;
    } else {
      assert !IsDigit('-') && !IsDigit('+');
      assert IsDigit(s[0]);
    }
    assert Unsigned(s) == u;
    AllDigitsHasNoPoint(u);
    assert IntegerDigits(s) == u;
    assert FractionDigits(s) == "";
  }
}
