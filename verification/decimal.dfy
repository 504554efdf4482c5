/**
  Decimal strings as the insert script and Redis see them: fixed-width
  zero-padded rendering (Lua's `string.format('%015d', n)`), parsing a digit
  string back to a number (what ZADD does with a score argument), and the
  shortest rendering of a number without leading zeros (what ZSCORE replies).
 */
module Decimal {

  function Pow10(k: nat): (r: nat)
    ensures r >= 1
  {
    if k == 0 then 1 else 10 * Pow10(k - 1)
  }

  predicate IsDigit(c: char) {
    '0' <= c <= '9'
  }

  predicate AllDigits(s: string) {
    forall i :: 0 <= i < |s| ==> IsDigit(s[i])
  }

  function DigitValue(c: char): (d: nat)
    requires IsDigit(c)
    ensures d < 10
  {
    c as int - '0' as int
  }

  /** The character for the digit `d`; `DigitValue` is its inverse. */
  function Digit(d: nat): (c: char)
    requires d < 10
    ensures IsDigit(c) && DigitValue(c) == d
  {
    ('0' as int + d) as char
  }

  lemma DivBelow(n: nat, k: nat)
    requires n < 10 * Pow10(k)
    ensures n / 10 < Pow10(k)
  {
  }

  /** `n` written in exactly `width` digits, padded on the left with zeros. */
  function Pad(n: nat, width: nat): (s: string)
    requires n < Pow10(width)
    ensures |s| == width && AllDigits(s)
  {
    if width == 0 then []
    else
      DivBelow(n, width - 1);
      Pad(n / 10, width - 1) + [Digit(n % 10)]
  }

  /** The number a digit string denotes, leading zeros included. */
  function Value(s: string): (n: nat)
    requires AllDigits(s)
    ensures n < Pow10(|s|)
  {
    if |s| == 0 then 0
    else 10 * Value(s[..|s| - 1]) + DigitValue(s[|s| - 1])
  }

  /** The shortest decimal form of `n`: "0" for zero, otherwise no leading zero. */
  function Render(n: nat): (s: string)
    ensures |s| >= 1 && AllDigits(s)
    ensures Value(s) == n
    ensures s[0] == '0' ==> n == 0
    ensures n == 0 ==> s == "0"
  {
    if n < 10 then [Digit(n)]
    else
      var s := Render(n / 10) + [Digit(n % 10)];
      assert s[..|s| - 1] == Render(n / 10);
      s
  }

  /** Parsing a padded rendering gives the number back. */
  lemma {:induction false} ValuePad(n: nat, width: nat)
    requires n < Pow10(width)
    ensures Value(Pad(n, width)) == n
  {
    if width > 0 {
      var s := Pad(n, width);
      DivBelow(n, width - 1);
      assert s[..|s| - 1] == Pad(n / 10, width - 1);
      ValuePad(n / 10, width - 1);
    }
  }

  /** Padding a parsed digit string to its own width gives the string back. */
  lemma {:induction false} PadValue(s: string)
    requires AllDigits(s)
    ensures Pad(Value(s), |s|) == s
  {
    if |s| > 0 {
      var init := s[..|s| - 1];
      var n := Value(s);
      assert n / 10 == Value(init) && n % 10 == DigitValue(s[|s| - 1]);
      PadValue(init);
      assert s == init + [s[|s| - 1]];
    }
  }

  /** Parsing a concatenation: the left part is shifted by the width of the right. */
  lemma {:induction false} ValueConcat(a: string, b: string)
    requires AllDigits(a) && AllDigits(b)
    ensures AllDigits(a + b)
    ensures Value(a + b) == Value(a) * Pow10(|b|) + Value(b)
  {
    if |b| > 0 {
      var ab := a + b;
      var b' := b[..|b| - 1];
      assert AllDigits(b');
      assert ab[..|ab| - 1] == a + b';
      assert ab[|ab| - 1] == b[|b| - 1];
      ValueConcat(a, b');
      Shift(Value(ab), Value(a + b'), Value(a), Value(b'), DigitValue(b[|b| - 1]),
            Pow10(|b'|), Value(b), Pow10(|b|));
    } else {
      assert a + b == a;
    }
  }

  /** The arithmetic step of `ValueConcat`: appending one digit to both sides. */
  lemma Shift(x: int, y: int, va: int, vb: int, d: int, w: int, v: int, p: int)
    requires x == 10 * y + d && y == va * w + vb
    requires v == 10 * vb + d && p == 10 * w
    ensures x == va * p + v
  {
    assert va * p == 10 * (va * w);
  }

  /** A number with exactly `width` significant digits renders as its padded form. */
  lemma {:induction false} RenderPad(n: nat, width: nat)
    requires width >= 1 && Pow10(width - 1) <= n < Pow10(width)
    ensures Render(n) == Pad(n, width)
  {
    if width > 1 {
      assert n >= 10;
      DivBelow(n, width - 1);
      assert Pow10(width - 2) <= n / 10;
      RenderPad(n / 10, width - 1);
    }
  }
}
