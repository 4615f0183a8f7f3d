/** Decimal rendering of a non-negative integer, as a template literal
    interpolates an integral number, and the reading that undoes it. */
module Decimal {

  predicate IsDigit(c: char) {
    '0' <= c <= '9'
  }

  predicate AllDigits(s: string) {
    forall i :: 0 <= i < |s| ==> IsDigit(s[i])
  }

  function DigitChar(d: nat): (c: char)
    requires d < 10
    ensures IsDigit(c)
    ensures c == '0' <==> d == 0
  {
    ('0' as int + d) as char
  }

  function DigitValue(c: char): (d: nat)
    requires IsDigit(c)
    ensures d < 10
    ensures DigitChar(d) == c
  {
    (c as int - '0' as int) as nat
  }

  /** The shortest base-10 spelling of `n`: digits only, never empty, and
      without a leading zero. */
  function ToDecimal(n: nat): (s: string)
    ensures |s| > 0
    ensures AllDigits(s)
    ensures n >= 10 <==> |s| > 1
    ensures Canonical(s)
  {
    if n < 10 then [DigitChar(n)] else ToDecimal(n / 10) + [DigitChar(n % 10)]
  }

  /** A non-empty run of digits with no leading zero (a lone `0` is fine). */
  predicate Canonical(s: string) {
    |s| > 0 && AllDigits(s) && (|s| > 1 ==> s[0] != '0')
  }

  /** The number a string of digits denotes. */
  function Value(s: string): nat
    requires AllDigits(s)
  {
    if |s| == 0 then 0 else Value(s[..|s| - 1]) * 10 + DigitValue(s[|s| - 1])
  }

  /** Splits `s` into its longest all-digit prefix and the remainder. */
  function SplitDigits(s: string): (r: (string, string))
    ensures AllDigits(r.0)
    ensures r.0 + r.1 == s
    ensures |r.1| == 0 || !IsDigit(r.1[0])
  {
    if |s| == 0 || !IsDigit(s[0]) then ("", s)
    else
      var rest := SplitDigits(s[1..]);
      ([s[0]] + rest.0, rest.1)
  }

  /** Reading the decimal spelling back gives the number. */
  lemma {:induction false} ValueOfDecimal(n: nat)
    ensures Value(ToDecimal(n)) == n
  {
    if n >= 10 {
      var s := ToDecimal(n);
      assert s[..|s| - 1] == ToDecimal(n / 10);
      ValueOfDecimal(n / 10);
    }
  }

  /** A run of digits followed by a non-digit is split off exactly. */
  lemma {:induction false} SplitDigitsOfPrefix(t: string, rest: string)
    requires AllDigits(t)
    requires |rest| == 0 || !IsDigit(rest[0])
    ensures SplitDigits(t + rest) == (t, rest)
  {
    if |t| > 0 {
      var s := t + rest;
      assert s[0] == t[0] && IsDigit(s[0]);
      assert s[1..] == t[1..] + rest;
      SplitDigitsOfPrefix(t[1..], rest);
      assert [t[0]] + t[1..] == t;
    } else {
      assert t + rest == rest;
    }
  }

  /** A run of digits that starts with a non-zero digit denotes a positive number. */
  lemma {:induction false} LeadingDigitPositive(s: string)
    requires |s| > 0 && AllDigits(s) && s[0] != '0'
    ensures Value(s) >= 1
    decreases |s|
  {
    if |s| > 1 {
      LeadingDigitPositive(s[..|s| - 1]);
    } else {
      assert DigitChar(DigitValue(s[0])) == s[0];
    }
  }

  /** A canonical spelling is the spelling of the number it denotes, so the
      reading is injective on canonical spellings. */
  lemma {:induction false} CanonicalIsDecimal(s: string)
    requires Canonical(s)
    ensures ToDecimal(Value(s)) == s
    decreases |s|
  {
    var last := s[|s| - 1];
    var d := DigitValue(last);
    if |s| == 1 {
      assert s == [last];
    } else {
      var init := s[..|s| - 1];
      assert init[0] == s[0];
      LeadingDigitPositive(init);
      CanonicalIsDecimal(init);
      var n := Value(s);
      assert n == Value(init) * 10 + d;
      assert n / 10 == Value(init) && n % 10 == d;
      assert s == init + [last];
    }
  }
}
