/**
 The decimal text forms the generators rely on: the literals Python's int()
 and float() accept (restricted to ASCII digits with no surrounding
 whitespace and no '_' separators), and str() of an int.
 */
module Decimal {
  import opened Wrappers

  predicate IsDigit(c: char) { '0' <= c <= '9' }

  predicate AllDigits(s: string) { forall i :: 0 <= i < |s| ==> IsDigit(s[i]) }

  predicate IsSign(c: char) { c == '+' || c == '-' }

  /** The text after an optional leading sign. */
  function Unsigned(s: string): string
  {
    if |s| > 0 && IsSign(s[0]) then s[1..] else s
  }

  /** An integer literal: an optional sign followed by one or more digits. */
  predicate IsIntText(s: string)
  {
    var u := Unsigned(s);
    |u| > 0 && AllDigits(u)
  }

  function DigitValue(c: char): nat
    requires IsDigit(c)
  {
    (c as int - '0' as int) as nat
  }

  function DigitChar(d: nat): char
    requires d < 10
  {
    ('0' as int + d) as char
  }

  /** The value of a digit string read most significant digit first. */
  function DigitsValue(ds: string): nat
    requires AllDigits(ds)
  {
    if |ds| == 0 then 0 else DigitsValue(ds[..|ds| - 1]) * 10 + DigitValue(ds[|ds| - 1])
  }

  /** int(s): the value of an integer literal, None where int() raises ValueError. */
  function ParseInt(s: string): Option<int>
  {
    if IsIntText(s) then
      var v: int := DigitsValue(Unsigned(s));
      Some(if s[0] == '-' then -v else v)
    else
      None
  }

  /** The canonical decimal digits of n: no leading zero except for 0 itself. */
  function DecimalDigits(n: nat): (s: string)
    ensures |s| > 0
  {
    if n < 10 then [DigitChar(n)] else DecimalDigits(n / 10) + [DigitChar(n % 10)]
  }

  /** The digits of n read back give n, and only 0 is written with a leading zero. */
  lemma {:induction false} DecimalDigitsValue(n: nat)
    ensures AllDigits(DecimalDigits(n))
    ensures DigitsValue(DecimalDigits(n)) == n
    ensures DecimalDigits(n)[0] == '0' ==> n == 0
  {
    var s := DecimalDigits(n);
    if n >= 10 {
      var front := DecimalDigits(n / 10);
      DecimalDigitsValue(n / 10);
      assert s[..|s| - 1] == front;
      assert s[0] == front[0];
    }
  }

  /** str(n) for a Python int: a '-' for negatives, then the canonical digits. */
  function IntToString(n: int): (s: string)
    ensures |s| > 0
  {
    if n < 0 then "-" + DecimalDigits(-n) else DecimalDigits(n)
  }

  /**
   str(n) is made of digits and '-' only, and int() reads it back as n: the
   URL substitution and the coercion of integer values agree on the text.
   */
  lemma IntToStringRoundTrip(n: int)
    ensures forall i :: 0 <= i < |IntToString(n)| ==> IsDigit(IntToString(n)[i]) || IntToString(n)[i] == '-'
    ensures ParseInt(IntToString(n)) == Some(n)
  {
    var s := IntToString(n);
    if n < 0 {
      var d := DecimalDigits(-n);
      DecimalDigitsValue(-n);
      assert Unsigned(s) == d;
    } else {
      DecimalDigitsValue(n);
    }
  }

  /** Leading zeros carry no value: int("007") == int("7"). */
  lemma {:induction false} LeadingZerosIgnored(ds: string)
    requires AllDigits(ds)
    ensures AllDigits("0" + ds) && DigitsValue("0" + ds) == DigitsValue(ds)
  {
    var z := "0" + ds;
    if ds != [] {
      var front := ds[..|ds| - 1];
      assert z[..|z| - 1] == "0" + front;
      LeadingZerosIgnored(front);
    }
  }

  /**
   The mantissa of a Python float literal that has a decimal point: digits,
   one '.', digits, with at least one digit in all ("1.", ".5", "12.5").
   */
  predicate IsPointMantissa(m: string)
  {
    |m| > 1 && exists p | 0 <= p < |m| :: m[p] == '.' && AllDigits(m[..p]) && AllDigits(m[p + 1..])
  }

  /** An exponent part: 'e' or 'E' followed by an integer literal. */
  predicate IsExponent(e: string)
  {
    |e| >= 2 && (e[0] == 'e' || e[0] == 'E') && IsIntText(e[1..])
  }

  /**
   float(s) succeeds, for an s that holds a '.': an optional sign, a point
   mantissa and an optional exponent. Without a '.' the generators never
   call float(), so "inf", "nan" and "1e5" are not float texts here.
   */
  predicate IsFloatText(s: string)
  {
    var u := Unsigned(s);
    IsPointMantissa(u) || exists x | 0 < x < |u| :: IsPointMantissa(u[..x]) && IsExponent(u[x..])
  }

  /** A point mantissa holds a '.'. */
  lemma MantissaHasPoint(m: string)
    requires IsPointMantissa(m)
    ensures '.' in m
  {
    var p :| 0 <= p < |m| && m[p] == '.' && AllDigits(m[..p]) && AllDigits(m[p + 1..]);
    assert m[p] == '.';
  }

  /** Every float text holds a '.'. */
  lemma FloatTextHasPoint(s: string)
    requires IsFloatText(s)
    ensures '.' in s
  {
    var u := Unsigned(s);
    var m := u;
    if !IsPointMantissa(u) {
      var x :| 0 < x < |u| && IsPointMantissa(u[..x]) && IsExponent(u[x..]);
      m := u[..x];
    }
    MantissaHasPoint(m);
    var p :| 0 <= p < |m| && m[p] == '.';
    assert u[p] == '.';
    if |s| > 0 && IsSign(s[0]) {
      assert s[p + 1] == '.';
    } else {
      assert s[p] == '.';
    }
  }

  /** No integer literal holds a '.'. */
  lemma IntTextHasNoPoint(s: string)
    requires IsIntText(s)
    ensures '.' !in s
  {
    var signed := |s| > 0 && IsSign(s[0]);
    var u := Unsigned(s);
    forall j | 0 <= j < |s| ensures s[j] != '.' {
      if signed && j > 0 {
        assert s[j] == u[j - 1];
      } else if !signed {
        assert s[j] == u[j];
      }
    }
  }
}
