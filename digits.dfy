/** Powers of ten and decimal digit strings, shared by the currency table
    (for `Exponent`) and the formatter. */
module Digits {

  function Pow10(k: nat): (p: nat)
    ensures p >= 1
  {
    if k == 0 then 1 else 10 * Pow10(k - 1)
  }

  lemma {:induction false} Pow10Add(a: nat, b: nat)
    ensures Pow10(a + b) == Pow10(a) * Pow10(b)
  {
    if a > 0 {
      Pow10Add(a - 1, b);
    }
  }

  lemma {:induction false} Pow10StrictlyIncreasing(a: nat, b: nat)
    requires a < b
    ensures Pow10(a) < Pow10(b)
  {
    if b > a + 1 {
      Pow10StrictlyIncreasing(a, b - 1);
    }
  }

  /** Powers of ten in the other direction: comparing powers compares exponents. */
  lemma Pow10Order(a: nat, b: nat)
    ensures Pow10(a) <= Pow10(b) <==> a <= b
  {
    if a < b {
      Pow10StrictlyIncreasing(a, b);
    } else if b < a {
      Pow10StrictlyIncreasing(b, a);
    }
  }

  predicate IsPowerOfTen(n: int)
  {
    exists k: nat :: k <= n && Pow10(k) == n
  }

  /** The search behind `RoundedLog10`: the first `r` from `e` on with
      10^(r + 1/2) above `n`. */
  function RoundedLog10From(n: nat, e: nat): (r: nat)
    requires n >= 1 && Pow10(2 * e) <= 10 * (n * n)
    ensures Pow10(2 * r) <= 10 * (n * n) < Pow10(2 * r + 2)
    decreases 10 * (n * n) - Pow10(2 * e)
  {
    if 10 * (n * n) < Pow10(2 * e + 2) then e
    else
      Pow10StrictlyIncreasing(2 * e, 2 * e + 2);
      RoundedLog10From(n, e + 1)
  }

  /** log10(n) rounded to the nearest integer. Squaring keeps it in the
      integers: r is the rounding of log10(n) exactly when
      10^(r - 1/2) <= n < 10^(r + 1/2), that is 10^(2r) <= 10 n^2 < 10^(2r + 2);
      no integer n lies on a midpoint 10^(r + 1/2), so no tie-break arises. */
  function RoundedLog10(n: nat): (r: nat)
    requires n >= 1
    ensures Pow10(2 * r) <= 10 * (n * n) < Pow10(2 * r + 2)
  {
    RoundedLog10From(n, 0)
  }

  /** The rounded logarithm is the only number bracketing 10 n^2 that way. */
  lemma RoundedLog10Unique(n: nat, r: nat)
    requires n >= 1
    requires Pow10(2 * r) <= 10 * (n * n) < Pow10(2 * r + 2)
    ensures RoundedLog10(n) == r
  {
    var s := RoundedLog10(n);
    if s < r {
      Pow10Order(2 * s + 2, 2 * r);
    } else if r < s {
      Pow10Order(2 * r + 2, 2 * s);
    }
  }

  /** For a power of ten the rounded logarithm is its number of zeros. */
  lemma RoundedLog10OfPower(k: nat)
    ensures RoundedLog10(Pow10(k)) == k
  {
    var n, p := Pow10(k), Pow10(2 * k);
    SquareOfPower(k);
    TwoMoreZeros(2 * k);
    assert 10 * (n * n) == 10 * p;
    RoundedLog10Unique(n, k);
  }

  lemma SquareOfPower(k: nat)
    ensures Pow10(k) * Pow10(k) == Pow10(2 * k)
  {
    Pow10Add(k, k);
  }

  lemma TwoMoreZeros(k: nat)
    ensures Pow10(k + 2) == 100 * Pow10(k)
  {
    assert Pow10(k + 2) == 10 * Pow10(k + 1);
  }

  predicate IsDigit(ch: char)
  {
    '0' <= ch <= '9'
  }

  predicate AllDigits(s: string)
  {
    forall i :: 0 <= i < |s| ==> IsDigit(s[i])
  }

  /** A character that is not a digit does not occur in a digit string. */
  lemma NonDigitAbsent(s: string, ch: char)
    requires AllDigits(s) && !IsDigit(ch)
    ensures ch !in s
  {
  }

  function DigitChar(d: nat): (ch: char)
    requires d < 10
    ensures IsDigit(ch)
  {
    ['0', '1', '2', '3', '4', '5', '6', '7', '8', '9'][d]
  }

  function DigitOf(ch: char): (d: nat)
    requires IsDigit(ch)
    ensures d < 10 && DigitChar(d) == ch
  {
    (ch as int - '0' as int) as nat
  }

  /** The number a string of decimal digits denotes. */
  function Value(s: string): (v: nat)
    requires AllDigits(s)
    ensures v < Pow10(|s|)
  {
    if s == [] then 0 else Value(s[..|s| - 1]) * 10 + DigitOf(s[|s| - 1])
  }

  /** Exactly `width` decimal digits of `n`, with leading zeros as needed. */
  function Padded(n: nat, width: nat): (s: string)
    requires n < Pow10(width)
    ensures |s| == width && AllDigits(s) && Value(s) == n
  {
    if width == 0 then ""
    else
      var s := Padded(n / 10, width - 1) + [DigitChar(n % 10)];
      assert s[..|s| - 1] == Padded(n / 10, width - 1);
      s
  }

  /** The shortest decimal numeral of `n`: "0" for zero, else no leading zero. */
  function Numeral(n: nat): (s: string)
    ensures |s| >= 1 && AllDigits(s) && Value(s) == n
    ensures |s| > 1 ==> s[0] != '0'
  {
    if n < 10 then
      AppendDigit([], n);
      [] + [DigitChar(n)]
    else
      AppendDigit(Numeral(n / 10), n % 10);
      Numeral(n / 10) + [DigitChar(n % 10)]
  }

  /** Appending a digit multiplies the value by ten and adds the digit. */
  lemma AppendDigit(s: string, d: nat)
    requires AllDigits(s) && d < 10
    ensures AllDigits(s + [DigitChar(d)]) && Value(s + [DigitChar(d)]) == Value(s) * 10 + d
  {
    var t := s + [DigitChar(d)];
    assert t[..|t| - 1] == s;
    assert DigitOf(DigitChar(d)) == d;
  }

  /** `s` without its trailing zeros. */
  function StripTrailingZeros(s: string): (r: string)
    ensures |r| <= |s| && r == s[..|r|]
    ensures |r| > 0 ==> r[|r| - 1] != '0'
    ensures forall i :: |r| <= i < |s| ==> s[i] == '0'
  {
    if s == [] || s[|s| - 1] != '0' then s
    else StripTrailingZeros(s[..|s| - 1])
  }

  /** Ruby's `ljust`: `s` followed by enough copies of `fill` to reach `width`;
      a string already that long is left as it is. */
  function PadRight(s: string, width: nat, fill: char): (r: string)
    ensures |r| == if |s| >= width then |s| else width
    ensures r[..|s|] == s
    ensures forall i :: |s| <= i < |r| ==> r[i] == fill
    ensures AllDigits(s) && IsDigit(fill) ==> AllDigits(r)
  {
    if |s| >= width then s else PadRight(s, width - 1, fill) + [fill]
  }

  /** Appending a digit to a numeral multiplies its value by ten and adds
      the digit: the numeral of `10 n + d` is that of `n` followed by `d`. */
  lemma NumeralStep(k: nat, n: nat, d: nat)
    requires n >= 1 && d < 10 && k == 10 * n + d
    ensures Numeral(k) == Numeral(n) + [DigitChar(d)]
  {
    DivideByTen(k, n, d);
  }

  lemma DivideByTen(k: nat, n: nat, d: nat)
    requires d < 10 && k == 10 * n + d
    ensures k / 10 == n && k % 10 == d
  {
  }

  /** Padding with zeros restores what stripping trailing zeros took away. */
  lemma PadRestoresStrip(s: string)
    ensures PadRight(StripTrailingZeros(s), |s|, '0') == s
  {
    var r := StripTrailingZeros(s);
    var p := PadRight(r, |s|, '0');
    assert |p| == |s|;
    forall i | 0 <= i < |s|
      ensures p[i] == s[i]
    {
      if i < |r| {
        assert p[i] == p[..|r|][i];
      }
    }
  }
}
