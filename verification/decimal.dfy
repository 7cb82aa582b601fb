/** Decimal text of integers as JavaScript's `String(n)` prints them for magnitudes below 10^21,
    which includes every year a `Date` can hold (no padding, a leading `-` for negatives), the value a run of digits denotes, and `String.prototype.split`
    with a one-character separator. */
module Decimal {

  predicate IsDigit(c: char) {
    '0' <= c <= '9'
  }

  predicate AllDigits(s: string) {
    forall i :: 0 <= i < |s| ==> IsDigit(s[i])
  }

  function DigitValue(c: char): (n: nat)
    requires IsDigit(c)
    ensures n < 10
  {
    (c as int) - ('0' as int)
  }

  function DigitChar(n: nat): (c: char)
    requires n < 10
    ensures IsDigit(c) && DigitValue(c) == n
  {
    (('0' as int) + n) as char
  }

  /** s is a run of decimal digits denoting n. */
  predicate ReadsAs(s: string, n: int) {
    AllDigits(s) && DigitsToNat(s) == n
  }

  function Pow10(k: nat): (p: nat)
    ensures p >= 1
  {
    if k == 0 then 1 else 10 * Pow10(k - 1)
  }

  /** The value a run of decimal digits denotes; a run of k digits stays below 10^k. */
  function DigitsToNat(s: string): (n: nat)
    requires AllDigits(s)
    ensures n < Pow10(|s|)
  {
    if |s| == 0 then 0 else DigitsToNat(s[..|s| - 1]) * 10 + DigitValue(s[|s| - 1])
  }

  /** The digits of n, most significant first: never empty, never a leading zero except for 0 itself. */
  function NatToDigits(n: nat): (s: string)
    ensures |s| >= 1 && AllDigits(s)
    ensures s[0] == '0' <==> n == 0
    decreases n
  {
    if n < 10 then [DigitChar(n)] else NatToDigits(n / 10) + [DigitChar(n % 10)]
  }

  /** `String(n)` for an integer-valued number of magnitude below 10^21; from 10^21 up
      JavaScript switches to exponent form, which this model does not produce. */
  function IntToDecimal(n: int): (s: string)
    ensures |s| >= 1
    ensures n < 0 <==> s[0] == '-'
    ensures n >= 0 ==> s == NatToDigits(n)
    ensures n < 0 ==> s[1..] == NatToDigits(-n)
  {
    if n < 0 then "-" + NatToDigits(-n) else NatToDigits(n)
  }

  /** Reading back the printed digits gives the number. */
  lemma {:induction false} DigitsRoundTrip(n: nat)
    ensures DigitsToNat(NatToDigits(n)) == n
    decreases n
  {
    var s := NatToDigits(n);
    if n < 10 {
      assert s[..|s| - 1] == [];
    } else {
      assert s[..|s| - 1] == NatToDigits(n / 10);
      DigitsRoundTrip(n / 10);
    }
  }

  /** A run of digits that does not start with `0` is at least 10^(k-1) when it has k > 1 digits. */
  lemma {:induction false} LeadingDigitBound(s: string)
    requires |s| > 1 && AllDigits(s) && s[0] != '0'
    ensures DigitsToNat(s) >= Pow10(|s| - 1)
    decreases |s|
  {
    var init := s[..|s| - 1];
    assert init[0] == s[0];
    if |init| > 1 {
      LeadingDigitBound(init);
    } else {
      assert DigitsToNat(init) == DigitValue(s[0]) by {
        assert init[..0] == [];
      }
    }
  }

  /** n is printed with exactly k digits iff it lies in [10^(k-1), 10^k) (or k is 1 and n < 10). */
  lemma DigitsLength(n: nat, k: nat)
    requires k >= 1
    ensures |NatToDigits(n)| == k <==> n < Pow10(k) && (k == 1 || Pow10(k - 1) <= n)
  {
    var s := NatToDigits(n);
    DigitsRoundTrip(n);
    if |s| > 1 {
      LeadingDigitBound(s);
    }
    if |s| < k {
      Pow10Monotone(|s|, k - 1);
    } else if |s| > k {
      Pow10Monotone(k, |s| - 1);
    }
  }

  lemma {:induction false} Pow10Monotone(a: nat, b: nat)
    requires a <= b
    ensures Pow10(a) <= Pow10(b)
    decreases b - a
  {
    if a < b {
      Pow10Monotone(a + 1, b);
    }
  }

  lemma NatToDigitsInjective(a: nat, b: nat)
    requires NatToDigits(a) == NatToDigits(b)
    ensures a == b
  {
    DigitsRoundTrip(a);
    DigitsRoundTrip(b);
  }

  /** Two integers print the same iff they are equal. */
  lemma IntToDecimalInjective(a: int, b: int)
    ensures IntToDecimal(a) == IntToDecimal(b) <==> a == b
  {
    if IntToDecimal(a) == IntToDecimal(b) {
      assert (a < 0) == (b < 0);
      if a < 0 {
        NatToDigitsInjective(-a, -b);
      } else {
        NatToDigitsInjective(a, b);
      }
    }
  }

  /** `s.split(sep)`: the maximal separator-free pieces, empty pieces included. */
  function Split(s: string, sep: char): (parts: seq<string>)
    ensures |parts| >= 1
    ensures forall i :: 0 <= i < |parts| ==> sep !in parts[i]
  {
    if |s| == 0 then [""]
    else
      var rest := Split(s[1..], sep);
      if s[0] == sep then [""] + rest else [[s[0]] + rest[0]] + rest[1..]
  }

  lemma {:induction false} SplitNoSeparator(s: string, sep: char)
    requires sep !in s
    ensures Split(s, sep) == [s]
    decreases |s|
  {
    if |s| > 0 {
      SplitNoSeparator(s[1..], sep);
      assert [s[0]] + s[1..] == s;
    }
  }

  lemma {:induction false} SplitAtSeparator(a: string, sep: char, b: string)
    requires sep !in a
    ensures Split(a + [sep] + b, sep) == [a] + Split(b, sep)
    decreases |a|
  {
    var s := a + [sep] + b;
    if |a| == 0 {
      assert s[1..] == b;
    } else {
      assert s[1..] == a[1..] + [sep] + b;
      SplitAtSeparator(a[1..], sep, b);
      assert [a[0]] + a[1..] == a;
    }
  }
}
