/**
  Decimal rendering of integers (Python's `str` on a non-negative `int`),
  its inverse, the 4-digit PIN format, and `random.randint` with the
  random source made an explicit seed.
*/
module Decimal {

  predicate IsDigit(c: char) {
    '0' <= c <= '9'
  }

  /** Every character of `s` is an ASCII decimal digit. */
  predicate AllDigits(s: string) {
    forall i :: 0 <= i < |s| ==> IsDigit(s[i])
  }

  /** The spelling `str` produces: digits only, no leading zero unless the number is 0. */
  predicate Canonical(s: string) {
    && |s| >= 1
    && AllDigits(s)
    && (|s| > 1 ==> s[0] != '0')
  }

  function DigitChar(d: nat): (c: char)
    requires d < 10
    ensures IsDigit(c)
    ensures c as int - '0' as int == d
  {
    ('0' as int + d) as char
  }

  function DigitValue(c: char): (d: nat)
    requires IsDigit(c)
    ensures d < 10
    ensures DigitChar(d) == c
  {
    c as int - '0' as int
  }

  function Pow10(k: nat): (p: nat)
    ensures p >= 1
  {
    if k == 0 then 1 else 10 * Pow10(k - 1)
  }

  /** `str(n)` for a non-negative integer `n`. */
  function Digits(n: nat): (s: string)
    ensures Canonical(s)
    ensures n >= 1 ==> s[0] != '0'
    decreases n
  {
    if n < 10 then [DigitChar(n)]
    else Digits(n / 10) + [DigitChar(n % 10)]
  }

  /** The number a string of decimal digits denotes (0 for the empty string). */
  function Value(s: string): (n: nat)
    requires AllDigits(s)
    decreases |s|
  {
    if |s| == 0 then 0
    else Value(s[..|s| - 1]) * 10 + DigitValue(s[|s| - 1])
  }

  /** Reading back what `str` wrote gives the number again. */
  lemma {:induction false} ValueOfDigits(n: nat)
    ensures Value(Digits(n)) == n
    decreases n
  {
    if n >= 10 {
      var s := Digits(n);
      var front := Digits(n / 10);
      assert s == front + [DigitChar(n % 10)];
      assert s[..|s| - 1] == front;
      ValueOfDigits(n / 10);
    }
  }

  /** `str` is injective: two numbers with the same spelling are equal. */
  lemma DigitsInjective(a: nat, b: nat)
    requires Digits(a) == Digits(b)
    ensures a == b
  {
    ValueOfDigits(a);
    ValueOfDigits(b);
  }

  lemma {:induction false} ValueBelowPow10(s: string)
    requires AllDigits(s)
    ensures Value(s) < Pow10(|s|)
    decreases |s|
  {
    if |s| > 0 {
      ValueBelowPow10(s[..|s| - 1]);
    }
  }

  lemma {:induction false} ValueAtLeastPow10(s: string)
    requires AllDigits(s)
    requires |s| >= 1 && s[0] != '0'
    ensures Value(s) >= Pow10(|s| - 1)
    decreases |s|
  {
    if |s| > 1 {
      var front := s[..|s| - 1];
      assert front[0] == s[0];
      ValueAtLeastPow10(front);
    }
  }

  /** Every canonical spelling is what `str` writes for its value. */
  lemma {:induction false} DigitsOfValue(s: string)
    requires Canonical(s)
    ensures Digits(Value(s)) == s
    decreases |s|
  {
    if |s| > 1 {
      var front := s[..|s| - 1];
      assert front[0] == s[0];
      assert Canonical(front);
      ValueAtLeastPow10(front);
      DigitsOfValue(front);
      var n := Value(s);
      assert n / 10 == Value(front);
      assert n % 10 == DigitValue(s[|s| - 1]);
      assert s == front + [s[|s| - 1]];
    }
  }

  const PinLow: nat := 1000
  const PinHigh: nat := 9999

  /** The shape of a PIN: exactly four decimal digits, the first not zero. */
  predicate PinFormat(s: string) {
    && |s| == 4
    && AllDigits(s)
    && s[0] != '0'
  }

  /**
    A string has the PIN format exactly when it is `str(n)` for some
    `n` in [1000, 9999].
  */
  lemma PinFormatIffDecimalInRange(s: string)
    ensures PinFormat(s) <==> exists n: nat :: PinLow <= n <= PinHigh && s == Digits(n)
  {
    if PinFormat(s) {
      ValueBelowPow10(s);
      ValueAtLeastPow10(s);
      DigitsOfValue(s);
      var n := Value(s);
      assert PinLow <= n <= PinHigh && s == Digits(n);
    }
    if exists n: nat :: PinLow <= n <= PinHigh && s == Digits(n) {
      var n: nat :| PinLow <= n <= PinHigh && s == Digits(n);
      PinOfRange(n);
    }
  }

  /** `str(n)` for `n` in [1000, 9999] has the PIN format, and `int` reads back `n`. */
  lemma PinOfRange(n: nat)
    requires PinLow <= n <= PinHigh
    ensures PinFormat(Digits(n))
    ensures Value(Digits(n)) == n
  {
    ValueOfDigits(n);
    var s := Digits(n);
    ValueBelowPow10(s);
    ValueAtLeastPow10(s);
    if |s| < 4 {
      assert Pow10(|s|) <= Pow10(3) by { Pow10Monotone(|s|, 3); }
      assert false;
    }
    if |s| > 4 {
      assert Pow10(4) <= Pow10(|s| - 1) by { Pow10Monotone(4, |s| - 1); }
      assert false;
    }
  }

  lemma {:induction false} Pow10Monotone(j: nat, k: nat)
    requires j <= k
    ensures Pow10(j) <= Pow10(k)
    decreases k - j
  {
    if j < k {
      Pow10Monotone(j + 1, k);
    }
  }

  /**
    `random.randint(lo, hi)`: the random source is the `seed`, and the
    draw is an integer of the closed range [lo, hi].
  */
  function RandInt(lo: int, hi: int, seed: nat): (r: int)
    requires lo <= hi
    ensures lo <= r <= hi
  {
    lo + seed % (hi - lo + 1)
  }

  /** Every value of the range can be drawn: the range is not narrowed. */
  lemma RandIntReachesEveryValue(lo: int, hi: int, v: int)
    requires lo <= v <= hi
    ensures exists seed: nat :: RandInt(lo, hi, seed) == v
  {
    assert RandInt(lo, hi, v - lo) == v;
  }
}
