/** Decimal digit strings and natural numbers: the source's `int(t)` on a digit
    token and `str(n)` on a cell value. Going through the number drops leading
    zeros, so a cell typed `038` is rendered `38`. */
module Decimal {

  /** ASCII decimal digit. */
  predicate IsDigit(c: char) {
    '0' <= c <= '9'
  }

  /** `t.isdigit()` restricted to ASCII: non-empty and all digits. */
  predicate IsDigits(t: string) {
    |t| > 0 && forall k :: 0 <= k < |t| ==> IsDigit(t[k])
  }

  predicate AllDigits(t: string) {
    forall k :: 0 <= k < |t| ==> IsDigit(t[k])
  }

  function DigitValue(c: char): (d: nat)
    requires IsDigit(c)
    ensures d < 10
  {
    (c as int) - ('0' as int)
  }

  function DigitChar(d: nat): (c: char)
    requires d < 10
    ensures IsDigit(c) && DigitValue(c) == d
  {
    (('0' as int) + d) as char
  }

  /** `int(t)` for a string of digits (the empty string reads as 0): zero
      exactly when every digit is `0`. */
  function Value(t: string): (v: nat)
    requires AllDigits(t)
    ensures v == 0 <==> forall k :: 0 <= k < |t| ==> t[k] == '0'
  {
    if t == [] then 0 else Value(t[..|t| - 1]) * 10 + DigitValue(t[|t| - 1])
  }

  /** `str(n)`: the shortest decimal numeral, with a leading `0` only for zero. */
  function Show(n: nat): (r: string)
    ensures IsDigits(r)
    ensures r[0] == '0' <==> n == 0
    ensures n == 0 ==> r == "0"
  {
    if n < 10 then [DigitChar(n)] else Show(n / 10) + [DigitChar(n % 10)]
  }

  /** A digit string without its redundant leading zeros (all zeros leave one). */
  function StripZeros(t: string): (r: string)
    ensures |r| <= |t| && r == t[|t| - |r|..]
    ensures forall k :: 0 <= k < |t| - |r| ==> t[k] == '0'
    ensures |t| > 0 ==> |r| > 0
    ensures |r| > 1 ==> r[0] != '0'
  {
    if |t| > 1 && t[0] == '0' then StripZeros(t[1..]) else t
  }

  /** Reading back what `Show` wrote gives the number. */
  lemma {:induction false} ValueShow(n: nat)
    ensures Value(Show(n)) == n
  {
    if n >= 10 {
      ValueShow(n / 10);
      var r := Show(n);
      assert r[..|r| - 1] == Show(n / 10);
    }
  }

  /** A leading zero does not change the value. */
  lemma {:induction false} ValueLeadingZero(t: string)
    requires AllDigits(t)
    ensures Value(['0'] + t) == Value(t)
  {
    if t != [] {
      var z := ['0'] + t;
      assert z[..|z| - 1] == ['0'] + t[..|t| - 1];
      ValueLeadingZero(t[..|t| - 1]);
    }
  }

  lemma {:induction false} ValueStripZeros(t: string)
    requires AllDigits(t)
    ensures Value(StripZeros(t)) == Value(t)
  {
    if |t| > 1 && t[0] == '0' {
      var u := t[1..];
      assert AllDigits(u);
      calc {
        Value(StripZeros(t));
        Value(StripZeros(u));
        { ValueStripZeros(u); }
        Value(u);
        { ValueLeadingZero(u); }
        Value(['0'] + u);
        { assert ['0'] + u == t; }
        Value(t);
      }
    }
  }

  /** A numeral that starts with a non-zero digit has a positive value. */
  lemma {:induction false} ValuePositive(t: string)
    requires IsDigits(t) && t[0] != '0'
    ensures Value(t) > 0
  {
    if |t| > 1 {
      ValuePositive(t[..|t| - 1]);
    }
  }

  /** `Show` inverts `Value` on numerals without redundant leading zeros. */
  lemma {:induction false} ShowValueCanonical(t: string)
    requires IsDigits(t) && (|t| > 1 ==> t[0] != '0')
    ensures Show(Value(t)) == t
  {
    if |t| == 1 {
      assert Value(t) == DigitValue(t[0]);
      assert DigitChar(DigitValue(t[0])) == t[0];
    } else {
      var p := t[..|t| - 1];
      ShowValueCanonical(p);
      ValuePositive(p);
      var n := Value(t);
      assert n / 10 == Value(p) && n % 10 == DigitValue(t[|t| - 1]);
      assert DigitChar(DigitValue(t[|t| - 1])) == t[|t| - 1];
      assert t == p + [t[|t| - 1]];
    }
  }

  /** `str(int(t))` is `t` with its leading zeros removed. */
  lemma ShowValue(t: string)
    requires IsDigits(t)
    ensures Show(Value(t)) == StripZeros(t)
  {
    ValueStripZeros(t);
    ShowValueCanonical(StripZeros(t));
  }
}
