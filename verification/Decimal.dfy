/** Decimal numbers as printf prints them and as they read back. */
module Decimal {
  predicate IsDigit(c: char) {
    '0' <= c <= '9'
  }

  predicate AllDigits(s: string) {
    forall i :: 0 <= i < |s| ==> IsDigit(s[i])
  }

  function Digit(d: nat): char
    requires d < 10
  {
    "0123456789"[d]
  }

  function DigitValue(c: char): (v: nat)
    requires IsDigit(c)
    ensures v < 10 && Digit(v) == c
  {
    c as int - '0' as int
  }

  function Value(s: string): nat
    requires AllDigits(s)
  {
    if s == [] then 0 else 10 * Value(s[..|s| - 1]) + DigitValue(s[|s| - 1])
  }

  /** "%d" of a number that is not negative. */
  function Text(n: nat): string {
    if n < 10 then [Digit(n)] else Text(n / 10) + [Digit(n % 10)]
  }

  /** "%d". */
  function IntText(i: int): string {
    if i < 0 then "-" + Text(-i) else Text(i)
  }

  function Repeat(c: char, k: nat): string {
    seq(k, _ => c)
  }

  /** Padding on the left to a minimal width, as "%6d" and "%06d" do it. */
  function Pad(s: string, width: nat, c: char): string {
    if |s| < width then Repeat(c, width - |s|) + s else s
  }

  function Pow10(k: nat): nat {
    if k == 0 then 1 else 10 * Pow10(k - 1)
  }

  lemma {:induction false} TextReadsBack(n: nat)
    ensures |Text(n)| > 0 && AllDigits(Text(n)) && Value(Text(n)) == n
  {
    if n >= 10 {
      TextReadsBack(n / 10);
      assert Text(n)[..|Text(n)| - 1] == Text(n / 10);
    } else {
      assert Text(n)[..0] == [];
    }
  }

  /** A number has at most k digits exactly when it is below 10^k. */
  lemma {:induction false} TextLength(n: nat, k: nat)
    requires k > 0
    ensures |Text(n)| <= k <==> n < Pow10(k)
  {
    if k == 1 {
      if n >= 10 { TextReadsBack(n / 10); }
    } else if n >= 10 {
      TextLength(n / 10, k - 1);
    } else {
      Pow10Grows(k);
    }
  }

  lemma {:induction false} Pow10Grows(k: nat)
    requires k > 0
    ensures Pow10(k) >= 10
  {
    if k > 1 { Pow10Grows(k - 1); }
  }

  lemma {:induction false} LeadingZeros(s: string, k: nat)
    requires AllDigits(s)
    ensures AllDigits(Repeat('0', k) + s) && Value(Repeat('0', k) + s) == Value(s)
  {
    var padded := Repeat('0', k) + s;
    if s != [] {
      LeadingZeros(s[..|s| - 1], k);
      assert padded[..|padded| - 1] == Repeat('0', k) + s[..|s| - 1];
    } else if k > 0 {
      LeadingZeros(s, k - 1);
      assert padded[..|padded| - 1] == Repeat('0', k - 1) + s;
    }
  }

  /** Zero padding does not change what a number reads back as. */
  lemma PaddedReadsBack(n: nat, width: nat)
    ensures AllDigits(Pad(Text(n), width, '0')) && Value(Pad(Text(n), width, '0')) == n
  {
    TextReadsBack(n);
    if |Text(n)| < width { LeadingZeros(Text(n), width - |Text(n)|); }
  }

  lemma {:induction false} ValueBound(s: string)
    requires AllDigits(s)
    ensures Value(s) < Pow10(|s|)
  {
    if s != [] { ValueBound(s[..|s| - 1]); }
  }
}
