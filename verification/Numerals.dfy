/** Decimal numerals. */
module Numerals {

  predicate IsDigit(ch: char) {
    '0' <= ch <= '9'
  }

  function DigitValue(ch: char): nat
    requires IsDigit(ch)
  {
    (ch as int) - ('0' as int)
  }

  function DigitChar(d: nat): (ch: char)
    requires d < 10
    ensures IsDigit(ch) && DigitValue(ch) == d
  {
    (('0' as int) + d) as char
  }

  function Decimal(n: nat): (s: string)
    ensures s != "" && forall i | 0 <= i < |s| :: IsDigit(s[i])
  {
    if n < 10 then [DigitChar(n)] else Decimal(n / 10) + [DigitChar(n % 10)]
  }

  /** The number a string of digits reads as, after a prefix that reads as `before`. */
  function ValueFrom(before: nat, s: string): (n: nat)
    requires forall i | 0 <= i < |s| :: IsDigit(s[i])
    ensures before <= n
    decreases |s|
  {
    if s == "" then before else ValueFrom(before * 10 + DigitValue(s[0]), s[1..])
  }

  lemma {:induction false} ValueMore(before: nat, s: string, ch: char)
    requires IsDigit(ch) && forall i | 0 <= i < |s| :: IsDigit(s[i])
    ensures ValueFrom(before, s + [ch]) == ValueFrom(before, s) * 10 + DigitValue(ch)
    decreases |s|
  {
    if s == "" {
      assert s + [ch] == [ch];
    } else {
      assert (s + [ch])[1..] == s[1..] + [ch];
      ValueMore(before * 10 + DigitValue(s[0]), s[1..], ch);
    }
  }

  lemma {:induction false} DecimalReads(n: nat)
    ensures ValueFrom(0, Decimal(n)) == n
  {
    if n >= 10 {
      DecimalReads(n / 10);
      ValueMore(0, Decimal(n / 10), DigitChar(n % 10));
    } else {
      assert Decimal(n)[1..] == "";
    }
  }

  /** The digits in order. */
  lemma DigitsInOrder(d: nat)
    requires d < 10
    ensures IsDigit("0123456789"[d]) && DigitValue("0123456789"[d]) == d && Decimal(d) == ["0123456789"[d]]
  {
  }
}
