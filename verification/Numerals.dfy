/** Decimal numbers as text: their digits, padded or not, and what they say. */
module Numerals {
  predicate IsDigit(c: char) {
    '0' <= c <= '9'
  }

  function Digit(n: nat): (c: char)
    requires n < 10
    ensures IsDigit(c) && c as int == '0' as int + n
  {
    ('0' as int + n) as char
  }

  function Digits(n: nat): (s: string)
    ensures s != "" && (forall c :: c in s ==> IsDigit(c)) && (n > 0 ==> s[0] != '0')
  {
    if n < 10 then [Digit(n)] else Digits(n / 10) + [Digit(n % 10)]
  }

  /** A decimal number of at least `width` digits. */
  function Padded(n: nat, width: nat): (s: string)
    ensures s != "" && |s| >= width && forall c :: c in s ==> IsDigit(c)
  {
    var digits := Digits(n);
    if |digits| < width then seq(width - |digits|, _ => '0') + digits else digits
  }

  function Value(s: string): int {
    if s == "" then 0 else 10 * Value(s[..|s| - 1]) + (s[|s| - 1] as int - '0' as int)
  }

  lemma {:induction false} ValueOfDigits(n: nat)
    ensures Value(Digits(n)) == n
  {
    if n >= 10 {
      ValueOfDigits(n / 10);
      assert Digits(n)[..|Digits(n)| - 1] == Digits(n / 10);
    } else {
      assert Digits(n)[..0] == "";
    }
  }

  lemma {:induction false} ValueOfZeros(k: nat, s: string)
    ensures Value(seq(k, _ => '0') + s) == Value(s)
  {
    var all := seq(k, _ => '0') + s;
    if s != "" {
      assert all[..|all| - 1] == seq(k, _ => '0') + s[..|s| - 1];
      ValueOfZeros(k, s[..|s| - 1]);
    } else if k > 0 {
      assert all[..|all| - 1] == seq(k - 1, _ => '0') + s;
      ValueOfZeros(k - 1, s);
    } else {
      assert all == s;
    }
  }

  /** A padded number says which it is, at any width. */
  lemma ValueOfPadded(n: nat, width: nat)
    ensures Value(Padded(n, width)) == n
  {
    ValueOfDigits(n);
    ValueOfZeros(if |Digits(n)| < width then width - |Digits(n)| else 0, Digits(n));
    assert seq(0, _ => '0') + Digits(n) == Digits(n);
  }

  lemma DigitsStep(n: nat)
    ensures |Digits(n)| == if n < 10 then 1 else |Digits(n / 10)| + 1
  {
  }

  lemma DigitsAreMany(n: nat)
    ensures |Digits(n)| >= 4 <==> n >= 1000
  {
    hide Digits;
    DigitsStep(n);
    DigitsStep(n / 10);
    DigitsStep(n / 10 / 10);
    DigitsStep(n / 10 / 10 / 10);
  }

  /** Three digits are read as four exactly where there are four. */
  lemma WidthsAgreeIff(n: nat, m: nat)
    ensures Padded(n, 3) == Padded(m, 4) <==> n == m && n >= 1000
  {
    ValueOfPadded(n, 3);
    ValueOfPadded(m, 4);
    DigitsAreMany(n);
  }

  /** Different numbers have different digits. */
  lemma DigitsSayWhich(n: nat, m: nat)
    ensures Digits(n) == Digits(m) <==> n == m
  {
    ValueOfDigits(n);
    ValueOfDigits(m);
  }
}
