/**
 * Character classes of JavaScript regular expressions and decimal digit strings,
 * shared by the value validators and the rem formatter.
 */
module Chars {

  /** `\s` of a JavaScript regular expression: WhiteSpace and LineTerminator characters. */
  predicate IsSpace(c: char)
  {
    || ('\U{9}' <= c <= '\U{D}')
    || c == ' ' || c == '\U{A0}' || c == '\U{1680}'
    || ('\U{2000}' <= c <= '\U{200A}')
    || c == '\U{2028}' || c == '\U{2029}' || c == '\U{202F}' || c == '\U{205F}'
    || c == '\U{3000}' || c == '\U{FEFF}'
  }

  /** `\d` of a JavaScript regular expression: the ASCII digits only. */
  predicate IsDigit(c: char)
  {
    '0' <= c <= '9'
  }

  predicate AllSpace(s: string)
  {
    forall i :: 0 <= i < |s| ==> IsSpace(s[i])
  }

  predicate AllDigits(s: string)
  {
    forall i :: 0 <= i < |s| ==> IsDigit(s[i])
  }

  lemma DigitIsNotSpace(c: char)
    requires IsDigit(c) || c == '.'
    ensures !IsSpace(c)
  {
  }

  function DigitValue(c: char): (d: nat)
    requires IsDigit(c)
    ensures d < 10
  {
    c as int - '0' as int
  }

  function DigitChar(d: nat): (c: char)
    requires d < 10
    ensures IsDigit(c) && DigitValue(c) == d
  {
    ('0' as int + d) as char
  }

  function Pow10(n: nat): (p: nat)
    ensures p >= 1
  {
    if n == 0 then 1 else 10 * Pow10(n - 1)
  }

  /** The number a string of decimal digits denotes (the empty string denotes 0). */
  function DigitsValue(s: string): nat
    requires AllDigits(s)
  {
    if s == [] then 0 else DigitsValue(s[..|s| - 1]) * 10 + DigitValue(s[|s| - 1])
  }

  lemma {:induction false} DigitsValueBound(s: string)
    requires AllDigits(s)
    ensures DigitsValue(s) < Pow10(|s|)
  {
    if s != [] {
      DigitsValueBound(s[..|s| - 1]);
    }
  }

  /** The shortest decimal rendering of `m`, as JavaScript's Number.prototype.toString gives an integer. */
  function NatDigits(m: nat): (s: string)
    ensures |s| > 0 && AllDigits(s) && DigitsValue(s) == m
    ensures s[0] == '0' ==> s == "0"
    decreases m
  {
    if m < 10 then [DigitChar(m)]
    else
      var init := NatDigits(m / 10);
      var s := init + [DigitChar(m % 10)];
      assert s[..|s| - 1] == init;
      s
  }

  /** Exactly `w` digits for `k`, padded on the left with zeros. */
  function FixedDigits(k: nat, w: nat): (s: string)
    requires k < Pow10(w)
    ensures |s| == w && AllDigits(s) && DigitsValue(s) == k
    decreases w
  {
    if w == 0 then ""
    else
      var init := FixedDigits(k / 10, w - 1);
      var s := init + [DigitChar(k % 10)];
      assert s[..|s| - 1] == init;
      s
  }
}
