/**
  String helpers with Go's meaning: the ordering of Go's `<` on strings,
  substring search (`strings.Contains`), and `fmt.Sprintf("%d")` on naturals.

  Go compares strings byte-wise over their UTF-8 encoding; UTF-8 preserves the
  order of Unicode scalar values, so comparing `char`s (scalar values) gives
  the same order.
 */
module Strings {

  /** Go's `a < b` on strings: lexicographic, a proper prefix is smaller. */
  predicate Less(a: string, b: string)
  {
    LessFrom(a, b, 0)
  }

  /** Compares `a[i..]` with `b[i..]`, the strings having been found equal before `i`. */
  predicate LessFrom(a: string, b: string, i: nat)
    decreases |a| - i
  {
    if i >= |a| then i < |b|
    else if i >= |b| then false
    else if a[i] != b[i] then a[i] < b[i]
    else LessFrom(a, b, i + 1)
  }

  lemma {:induction false} LessFromIrreflexive(a: string, i: nat)
    ensures !LessFrom(a, a, i)
    decreases |a| - i
  {
    if i < |a| {
      LessFromIrreflexive(a, i + 1);
    }
  }

  lemma {:induction false} LessFromAsymmetric(a: string, b: string, i: nat)
    ensures LessFrom(a, b, i) ==> !LessFrom(b, a, i)
    decreases |a| - i
  {
    if i < |a| && i < |b| && a[i] == b[i] {
      LessFromAsymmetric(a, b, i + 1);
    }
  }

  lemma {:induction false} LessFromTransitive(a: string, b: string, c: string, i: nat)
    requires LessFrom(a, b, i) && LessFrom(b, c, i)
    ensures LessFrom(a, c, i)
    decreases |a| - i
  {
    if i < |a| && a[i] == b[i] && b[i] == c[i] {
      LessFromTransitive(a, b, c, i + 1);
    }
  }

  lemma {:induction false} LessFromTotal(a: string, b: string, i: nat)
    requires i <= |a| && i <= |b| && a[i..] != b[i..]
    ensures LessFrom(a, b, i) || LessFrom(b, a, i)
    decreases |a| - i
  {
    if i < |a| && i < |b| && a[i] == b[i] {
      assert a[i..] == [a[i]] + a[i + 1..] && b[i..] == [b[i]] + b[i + 1..];
      LessFromTotal(a, b, i + 1);
    }
  }

  lemma LessIrreflexive(a: string)
    ensures !Less(a, a)
  {
    LessFromIrreflexive(a, 0);
  }

  lemma LessAsymmetric(a: string, b: string)
    ensures Less(a, b) ==> !Less(b, a)
  {
    LessFromAsymmetric(a, b, 0);
  }

  lemma LessTransitive(a: string, b: string, c: string)
    requires Less(a, b) && Less(b, c)
    ensures Less(a, c)
  {
    LessFromTransitive(a, b, c, 0);
  }

  /** Any two different strings are ordered one way or the other. */
  lemma LessTotal(a: string, b: string)
    requires a != b
    ensures Less(a, b) || Less(b, a)
  {
    assert a[0..] == a && b[0..] == b;
    LessFromTotal(a, b, 0);
  }

  /** `sub` occurs in `s` starting at position `i`. */
  predicate OccursAt(s: string, sub: string, i: nat)
  {
    i + |sub| <= |s| && s[i..i + |sub|] == sub
  }

  /** Go's `strings.Contains(s, sub)`. */
  ghost predicate Contains(s: string, sub: string)
  {
    exists i: nat :: OccursAt(s, sub, i)
  }

  predicate IsDigit(c: char)
  {
    '0' <= c <= '9'
  }

  predicate AllDigits(s: string)
  {
    forall i :: 0 <= i < |s| ==> IsDigit(s[i])
  }

  function DigitChar(d: nat): (c: char)
    requires d < 10
    ensures IsDigit(c) && c as int - '0' as int == d
  {
    (d + '0' as int) as char
  }

  function DigitValue(c: char): (d: nat)
    requires IsDigit(c)
    ensures d < 10 && DigitChar(d) == c
  {
    c as int - '0' as int
  }

  /** `fmt.Sprintf("%d", n)` for a natural number: decimal digits, no leading zero. */
  function Decimal(n: nat): (s: string)
    ensures |s| > 0 && AllDigits(s)
    ensures |s| > 1 ==> s[0] != '0'
    decreases n
  {
    if n < 10 then [DigitChar(n)] else Decimal(n / 10) + [DigitChar(n % 10)]
  }

  /** Reads a string of decimal digits back as a number (the inverse of `Decimal`). */
  function ParseDecimal(s: string): nat
    requires AllDigits(s)
    decreases |s|
  {
    if |s| == 0 then 0 else 10 * ParseDecimal(s[..|s| - 1]) + DigitValue(s[|s| - 1])
  }

  lemma {:induction false} DecimalRoundTrip(n: nat)
    ensures ParseDecimal(Decimal(n)) == n
    decreases n
  {
    var s := Decimal(n);
    if n >= 10 {
      DecimalRoundTrip(n / 10);
      assert s[..|s| - 1] == Decimal(n / 10);
    }
  }

  /** Different numbers print differently. */
  lemma DecimalInjective(m: nat, n: nat)
    requires Decimal(m) == Decimal(n)
    ensures m == n
  {
    DecimalRoundTrip(m);
    DecimalRoundTrip(n);
  }
}
