/**
 * Decimal text of natural numbers, as produced by Python's `str(int)` for a
 * non-negative value and by the zero-padded numeric fields of `strftime`, and
 * read back by the numeric fields of `strptime`.
 */
module Digits {

  predicate IsDigit(c: char) {
    '0' <= c <= '9'
  }

  predicate AllDigits(s: string) {
    forall i :: 0 <= i < |s| ==> IsDigit(s[i])
  }

  function DigitValue(c: char): (k: nat)
    requires IsDigit(c)
    ensures k < 10
  {
    c as int - '0' as int
  }

  function DigitChar(k: nat): (c: char)
    requires k < 10
    ensures IsDigit(c) && DigitValue(c) == k
  {
    ('0' as int + k) as char
  }

  /** 10 to the power `w`. */
  function Pow10(w: nat): (p: nat)
    ensures p >= 1
  {
    if w == 0 then 1 else 10 * Pow10(w - 1)
  }

  /** The number a string of decimal digits denotes, most significant digit first; it has at most as many digits as the string. */
  function Value(s: string): (v: nat)
    requires AllDigits(s)
    ensures v < Pow10(|s|)
  {
    if s == [] then 0 else Value(s[..|s| - 1]) * 10 + DigitValue(s[|s| - 1])
  }

  /** Appending a digit shifts the value one decimal place and adds the digit. */
  lemma ValueSnoc(t: string, c: char)
    requires AllDigits(t) && IsDigit(c)
    ensures AllDigits(t + [c])
    ensures Value(t + [c]) == Value(t) * 10 + DigitValue(c)
  {
    assert (t + [c])[..|t|] == t;
  }

  /**
   * Python's `str(n)` for `n >= 0`: the shortest decimal text of `n`, which
   * reads back as `n` and has no leading zero unless it is "0".
   */
  function NatToString(n: nat): (s: string)
    ensures |s| >= 1 && AllDigits(s)
    ensures Value(s) == n
    ensures s[0] == '0' ==> n == 0 && |s| == 1
  {
    if n < 10 then [DigitChar(n)]
    else
      var s := NatToString(n / 10) + [DigitChar(n % 10)];
      assert s[..|s| - 1] == NatToString(n / 10);
      s
  }

  /** The `width` least significant decimal digits of `n`, zero padded (`%02d`, `%04d`). */
  function Pad(n: nat, width: nat): (s: string)
    ensures |s| == width && AllDigits(s)
  {
    if width == 0 then []
    else Pad(n / 10, width - 1) + [DigitChar(n % 10)]
  }

  lemma DivTen(w: nat, k: nat)
    requires k < 10
    ensures (w * 10 + k) / 10 == w && (w * 10 + k) % 10 == k
  {
  }

  /** A padded field reads back as the number it was made from, when that number fits the width. */
  lemma {:induction false} ValueOfPad(n: nat, width: nat)
    requires n < Pow10(width)
    ensures Value(Pad(n, width)) == n
  {
    if width > 0 {
      var s := Pad(n, width);
      assert s[..|s| - 1] == Pad(n / 10, width - 1);
      ValueOfPad(n / 10, width - 1);
    }
  }

  /** A field of digits is the padded text of its own value: a fixed-width field has one spelling per number. */
  lemma {:induction false} PadOfValue(s: string)
    requires AllDigits(s)
    ensures Pad(Value(s), |s|) == s
  {
    if s != [] {
      var init, last := s[..|s| - 1], s[|s| - 1];
      PadOfValue(init);
      var v, w, k := Value(s), Value(init), DigitValue(last);
      assert v == w * 10 + k;
      DivTen(w, k);
      assert Pad(v, |s|) == Pad(w, |init|) + [DigitChar(k)];
      assert s == init + [last];
    }
  }
}
