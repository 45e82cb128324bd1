/** Decimal digit strings and the natural numbers they denote: the value
    `float(...)` reads from a string of digits, and the digits `str(...)`
    writes for a whole number. */
module Decimal {
  import opened Text

  predicate AllDigits(s: string) {
    forall i :: 0 <= i < |s| ==> IsDigit(s[i])
  }

  function DigitValue(c: char): (d: nat)
    requires IsDigit(c)
    ensures d < 10
  {
    c as int - '0' as int
  }

  function DigitChar(d: nat): (c: char)
    requires d < 10
    ensures IsDigit(c) && DigitValue(c) == d
  {
    ('0' as int + d) as char
  }

  /** The number a string of decimal digits denotes (leading zeros allowed). */
  function ValueOf(s: string): nat
    requires AllDigits(s)
  {
    if s == [] then 0 else ValueOf(s[..|s| - 1]) * 10 + DigitValue(s[|s| - 1])
  }

  /** The shortest decimal spelling of `n`. */
  function Show(n: nat): (r: string)
    ensures r != [] && AllDigits(r)
    ensures |r| > 1 ==> r[0] != '0'
  {
    if n < 10 then [DigitChar(n)] else Show(n / 10) + [DigitChar(n % 10)]
  }

  /** Reading back what Show wrote gives the number again. */
  lemma {:induction false} ValueOfShow(n: nat)
    ensures ValueOf(Show(n)) == n
  {
    if n >= 10 {
      var s := Show(n);
      assert s[..|s| - 1] == Show(n / 10);
      ValueOfShow(n / 10);
    }
  }

  function Pow10(k: nat): (p: nat)
    ensures p >= 1
  {
    if k == 0 then 1 else 10 * Pow10(k - 1)
  }

  /** The value of a concatenation: the left part is shifted by the length
      of the right part. */
  lemma {:induction false} ValueOfAppend(x: string, y: string)
    requires AllDigits(x) && AllDigits(y)
    ensures AllDigits(x + y)
    ensures ValueOf(x + y) == ValueOf(x) * Pow10(|y|) + ValueOf(y)
  {
    assert AllDigits(x + y) by {
      forall i | 0 <= i < |x + y| ensures IsDigit((x + y)[i]) {
        if i < |x| { assert (x + y)[i] == x[i]; } else { assert (x + y)[i] == y[i - |x|]; }
      }
    }
    if y == [] {
      assert x + y == x;
    } else {
      var y' := y[..|y| - 1];
      var c := y[|y| - 1];
      assert (x + y)[..|x + y| - 1] == x + y';
      ValueOfAppend(x, y');
      assert AllDigits(y') by {
        forall i | 0 <= i < |y'| ensures IsDigit(y'[i]) { assert y'[i] == y[i]; }
      }
      var a, p, b, d := ValueOf(x), Pow10(|y'|), ValueOf(y'), DigitValue(c);
      assert ValueOf(x + y) == ValueOf(x + y') * 10 + d;
      assert ValueOf(y) == b * 10 + d;
      assert Pow10(|y|) == p * 10;
      ShiftDigit(a, p, b, d);
    }
  }

  /** Appending a digit to both halves of a split number. */
  lemma ShiftDigit(a: int, p: int, b: int, d: int)
    ensures (a * p + b) * 10 + d == a * (p * 10) + (b * 10 + d)
  {
    assert (a * p + b) * 10 == (a * p) * 10 + b * 10;
    assert (a * p) * 10 == a * (p * 10);
  }

  /** Exactly three digits, with leading zeros: how the digits after a
      thousands separator are written. */
  function Pad3(m: nat): (r: string)
    requires m < 1000
    ensures |r| == 3 && AllDigits(r)
  {
    [DigitChar(m / 100), DigitChar(m / 10 % 10), DigitChar(m % 10)]
  }

  lemma Pad3Value(m: nat)
    requires m < 1000
    ensures ValueOf(Pad3(m)) == m
  {
    var r := Pad3(m);
    assert r[..2][..1] == r[..1];
    assert ValueOf(r[..1]) == m / 100;
    assert ValueOf(r[..2]) == m / 100 * 10 + m / 10 % 10;
  }
}
