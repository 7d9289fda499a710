/** Decimal text of unsigned integers: what "%u"/"%zu" print and what strtoul reads back. */
module Decimal {
  const UINT_MOD: nat := 0x1_0000_0000

  predicate IsDigit(c: char) {
    '0' <= c <= '9'
  }

  function Digit(d: nat): (c: char)
    requires d < 10
    ensures IsDigit(c) && DigitValue(c) == d
  {
    '0' + d as char
  }

  function DigitValue(c: char): nat
    requires IsDigit(c)
  {
    (c - '0') as nat
  }

  /** The ten digits, and what each stands for. */
  lemma DigitsInOrder(d: nat)
    requires d < 10
    ensures Dec(d) == ["0123456789"[d]] && Value(["0123456789"[d]]) == d
  {
    assert [Digit(d)][..0] == "" && "0123456789"[d] == Digit(d);
  }

  predicate AllDigits(s: string) {
    forall i :: 0 <= i < |s| ==> IsDigit(s[i])
  }

  /** The shortest decimal numeral of n. */
  function Dec(n: nat): (s: string)
    ensures 0 < |s| && AllDigits(s)
  {
    if n < 10 then [Digit(n)] else Dec(n / 10) + [Digit(n % 10)]
  }

  /** The number a digit string denotes; the empty string denotes 0, as for strtoul. */
  function Value(s: string): nat
    requires AllDigits(s)
  {
    if s == "" then 0 else 10 * Value(s[..|s| - 1]) + DigitValue(s[|s| - 1])
  }

  lemma {:induction false} ValueOfDec(n: nat)
    ensures Value(Dec(n)) == n
  {
    if n < 10 {
      assert Dec(n)[..0] == "";
    } else {
      ValueOfDec(n / 10);
      assert Dec(n)[..|Dec(n)| - 1] == Dec(n / 10);
    }
  }

  /** How many digits s starts with. */
  function DigitCount(s: string): (d: nat)
    ensures d <= |s| && AllDigits(s[..d])
    ensures d < |s| ==> !IsDigit(s[d])
  {
    if s == "" || !IsDigit(s[0]) then 0
    else
      assert forall i :: 0 < i <= DigitCount(s[1..]) ==> s[i] == s[1..][i - 1];
      1 + DigitCount(s[1..])
  }

  /** A numeral followed by a non-digit (or by nothing) is exactly the leading digit run. */
  lemma {:induction false} DigitCountOfNumeral(s: string, tail: string)
    requires AllDigits(s)
    requires tail == "" || !IsDigit(tail[0])
    ensures DigitCount(s + tail) == |s|
    ensures (s + tail)[..|s|] == s && (s + tail)[|s|..] == tail
  {
    if s == "" {
      assert s + tail == tail;
    } else {
      DigitCountOfNumeral(s[1..], tail);
      FirstOfSum(s, tail);
    }
  }

  lemma FirstOfSum(s: string, tail: string)
    requires s != ""
    ensures s + tail != "" && (s + tail)[0] == s[0] && (s + tail)[1..] == s[1..] + tail
    ensures (s + tail)[..|s|] == s && (s + tail)[|s|..] == tail
  {
  }

  function Pow10(k: nat): (p: nat)
    ensures p > 0
  {
    if k == 0 then 1 else 10 * Pow10(k - 1)
  }

  /** A number has at most k digits exactly when it is below 10^k. */
  lemma {:induction false} DecLength(n: nat, k: nat)
    requires k > 0
    ensures |Dec(n)| <= k <==> n < Pow10(k)
  {
    if k == 1 {
      assert Pow10(1) == 10 * Pow10(0) == 10;
    } else if n >= 10 {
      DecLength(n / 10, k - 1);
    } else {
      Pow10Grows(k);
    }
  }

  lemma {:induction false} Pow10Grows(k: nat)
    requires k > 0
    ensures Pow10(k) >= 10
  {
    if k == 1 {
      assert Pow10(1) == 10 * Pow10(0);
    } else {
      Pow10Grows(k - 1);
    }
  }
}
