/**
 * Decimal text of integers as Python writes it (`str(n)`, `f"{n}"`) and
 * reads it back (`int(text)`).
 */
module Numerals {
  import opened Wrappers
  import Text

  predicate IsDigit(c: char) {
    '0' <= c <= '9'
  }

  predicate AllDigits(s: string) {
    forall i :: 0 <= i < |s| ==> IsDigit(s[i])
  }

  function DigitChar(d: nat): (c: char)
    requires d < 10
    ensures IsDigit(c) && c as int - '0' as int == d
  {
    ('0' as int + d) as char
  }

  /** The value of a string of decimal digits, most significant first. */
  function DigitsValue(s: string): nat
    requires AllDigits(s)
  {
    if s == [] then 0 else DigitsValue(s[..|s| - 1]) * 10 + (s[|s| - 1] as int - '0' as int)
  }

  /** `str(n)` for a natural number: shortest decimal form, no leading zero. */
  function NatToDecimal(n: nat): (r: string)
    ensures |r| >= 1 && AllDigits(r)
    ensures r[0] == '0' ==> n == 0 && r == "0"
    ensures DigitsValue(r) == n
  {
    if n < 10 then [DigitChar(n)]
    else
      var prefix := NatToDecimal(n / 10);
      assert (prefix + [DigitChar(n % 10)])[..|prefix|] == prefix;
      prefix + [DigitChar(n % 10)]
  }

  /** A leading zero does not change the value of a digit string. */
  lemma {:induction false} LeadingZero(s: string)
    requires AllDigits(s)
    ensures AllDigits("0" + s) && DigitsValue("0" + s) == DigitsValue(s)
  {
    if s != [] {
      var init := s[..|s| - 1];
      assert ("0" + s)[..|"0" + s| - 1] == "0" + init;
      LeadingZero(init);
    }
  }

  /** `str(i)` for any integer: a minus sign before the magnitude. */
  function IntToDecimal(i: int): (r: string)
  {
    if i < 0 then "-" + NatToDecimal(-i) else NatToDecimal(i)
  }

  /**
   * Python's `int(text)` on ASCII text: surrounding whitespace is ignored,
   * one optional sign, then at least one decimal digit; anything else is
   * the `ValueError` case, `None` here.
   */
  function ParseInt(s: string): (r: Option<int>)
    ensures r.Some? ==> |Text.Strip(s)| >= 1
  {
    var t := Text.Strip(s);
    if t == [] then None
    else
      var negative := t[0] == '-';
      var body := if t[0] == '-' || t[0] == '+' then t[1..] else t;
      if body != [] && AllDigits(body) then
        Some(if negative then -(DigitsValue(body) as int) else DigitsValue(body))
      else None
  }

  /** Text that does not begin or end with whitespace is its own strip. */
  lemma StripUnspaced(s: string)
    requires s == [] || (!Text.IsSpace(s[0]) && !Text.IsSpace(s[|s| - 1]))
    ensures Text.Strip(s) == s
  {
  }

  /** `int(str(i)) == i` for every integer. */
  lemma ParseIntToDecimal(i: int)
    ensures ParseInt(IntToDecimal(i)) == Some(i)
  {
    var d := IntToDecimal(i);
    StripUnspaced(d);
    if i < 0 {
      assert d[1..] == NatToDecimal(-i);
    }
  }

  /** Text with a non-digit, non-sign, non-space character never parses. */
  lemma ParseIntRejects(s: string, k: int)
    requires 0 <= k < |s|
    requires !IsDigit(s[k]) && !Text.IsSpace(s[k]) && s[k] != '-' && s[k] != '+'
    ensures ParseInt(s) == None
  {
    var t := Text.Strip(s);
    Text.StripSlice(s);
    var i := |s| - |Text.TrimStart(s)|;
    assert i <= k < i + |t|;
    assert t[k - i] == s[k];
    if t[0] == '-' || t[0] == '+' {
      assert t[1..][k - i - 1] == s[k];
    } else {
      assert t[k - i] == s[k];
    }
  }
}
