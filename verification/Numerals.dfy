/** Decimal numerals as strings: writing a number, reading one, what leading zeros are worth, and when two numerals
    state the same number. */
module Numerals {

  predicate IsDigit(c: char) {
    '0' <= c <= '9'
  }

  predicate AllDigits(s: string) {
    forall i :: 0 <= i < |s| ==> IsDigit(s[i])
  }

  function DigitOf(c: char): (d: nat)
    requires IsDigit(c)
    ensures d < 10
  {
    c as int - '0' as int
  }

  function CharOf(d: nat): (c: char)
    requires d < 10
    ensures IsDigit(c) && DigitOf(c) == d
  {
    ('0' as int + d) as char
  }

  function Value(s: string): nat
    requires AllDigits(s)
  {
    if s == [] then 0 else 10 * Value(s[..|s| - 1]) + DigitOf(s[|s| - 1])
  }

  /** The numeral of a number, without superfluous zeros. */
  function Str(n: nat): (s: string)
    ensures s != [] && AllDigits(s)
  {
    if n < 10 then [CharOf(n)] else Str(n / 10) + [CharOf(n % 10)]
  }

  function Pow10(k: nat): (p: nat)
    ensures p > 0
  {
    if k == 0 then 1 else 10 * Pow10(k - 1)
  }

  function Repeat(c: char, k: nat): (s: string)
    ensures |s| == k && forall i :: 0 <= i < k ==> s[i] == c
  {
    seq(k, _ => c)
  }

  lemma {:induction false} ValueOfStr(n: nat)
    ensures Value(Str(n)) == n
    ensures n > 0 ==> Str(n)[0] != '0'
    ensures n == 0 ==> Str(n) == "0"
  {
    if n >= 10 {
      ValueOfStr(n / 10);
      assert Str(n)[..|Str(n)| - 1] == Str(n / 10);
    } else {
      assert Str(n)[..0] == [];
    }
  }

  lemma {:induction false} ValueBelow(s: string)
    requires AllDigits(s)
    ensures Value(s) < Pow10(|s|)
  {
    if s != [] {
      ValueBelow(s[..|s| - 1]);
    }
  }

  lemma {:induction false} ValueOfConcat(a: string, b: string)
    requires AllDigits(a) && AllDigits(b)
    ensures AllDigits(a + b) && Value(a + b) == Value(a) * Pow10(|b|) + Value(b)
  {
    hide DigitOf;
    if b == [] {
      assert a + b == a;
    } else {
      var front := b[..|b| - 1];
      ValueOfConcat(a, front);
      assert (a + b)[..|a + b| - 1] == a + front;
      Shift(Value(a), Pow10(|front|), Value(front), DigitOf(b[|front|]));
    }
  }

  lemma Shift(a: nat, p: nat, b: nat, d: nat)
    ensures 10 * (a * p + b) + d == a * (10 * p) + (10 * b + d)
  {
  }

  lemma {:induction false} ZerosAreWorthNothing(k: nat)
    ensures AllDigits(Repeat('0', k)) && Value(Repeat('0', k)) == 0
  {
    if k > 0 {
      ZerosAreWorthNothing(k - 1);
      assert Repeat('0', k)[..k - 1] == Repeat('0', k - 1);
    }
  }

  /** Numerals of one length are told apart by their values. */
  lemma {:induction false} SameLengthSameValue(a: string, b: string)
    requires AllDigits(a) && AllDigits(b) && |a| == |b|
    requires Value(a) == Value(b)
    ensures a == b
  {
    if a != [] {
      var n := |a| - 1;
      SameLengthSameValue(a[..n], b[..n]);
      assert a == a[..n] + [a[n]] && b == b[..n] + [b[n]];
    }
  }

  predicate Tidy(s: string) {
    s != [] && (s[0] == '0' ==> |s| == 1)
  }

  lemma {:induction false} LeadingDigitCounts(s: string)
    requires AllDigits(s) && s != [] && s[0] != '0'
    ensures Value(s) >= Pow10(|s| - 1)
  {
    if |s| > 1 {
      LeadingDigitCounts(s[..|s| - 1]);
    } else {
      assert s[..0] == [];
    }
  }

  lemma PowersIncrease(a: nat, b: nat)
    requires a <= b
    ensures Pow10(a) <= Pow10(b)
    decreases b - a
  {
    if a < b {
      PowersIncrease(a, b - 1);
    }
  }

  /** Without superfluous zeros, values tell any two numerals apart. */
  lemma TidyNumeralsAreUnique(a: string, b: string)
    requires AllDigits(a) && AllDigits(b) && Tidy(a) && Tidy(b)
    requires Value(a) == Value(b)
    ensures a == b
  {
    if |a| < |b| {
      LongerIsMore(a, b);
    } else if |b| < |a| {
      LongerIsMore(b, a);
    }
    SameLengthSameValue(a, b);
  }

  lemma LongerIsMore(a: string, b: string)
    requires AllDigits(a) && AllDigits(b) && Tidy(a) && Tidy(b) && |a| < |b|
    ensures Value(a) < Value(b)
  {
    ValueBelow(a);
    LeadingDigitCounts(b);
    PowersIncrease(|a|, |b| - 1);
  }
}
