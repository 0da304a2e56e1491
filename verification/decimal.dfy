/** Decimal text: the digit filter `replace(/[^\d]/g, '')`, `parseInt(…, 10)` on its
    result, and JavaScript's rendering of an integer-valued number as text. */
module Decimal {

  /** `\d`: the ASCII digits only. */
  predicate IsDigit(c: char) {
    '0' <= c <= '9'
  }

  predicate AllDigits(s: string) {
    forall i :: 0 <= i < |s| ==> IsDigit(s[i])
  }

  predicate NoDigits(s: string) {
    forall i :: 0 <= i < |s| ==> !IsDigit(s[i])
  }

  /** `s` with every character that is not a digit deleted, the rest kept in order. */
  function KeepDigits(s: string): (r: string)
    ensures AllDigits(r)
    ensures |r| <= |s|
  {
    if s == [] then []
    else if IsDigit(s[0]) then [s[0]] + KeepDigits(s[1..])
    else KeepDigits(s[1..])
  }

  lemma {:induction false} KeepDigitsConcat(a: string, b: string)
    ensures KeepDigits(a + b) == KeepDigits(a) + KeepDigits(b)
  {
    if a == [] {
      assert a + b == b;
    } else {
      assert (a + b)[0] == a[0];
      assert (a + b)[1..] == a[1..] + b;
      KeepDigitsConcat(a[1..], b);
    }
  }

  /** The filter leaves a string of digits as it is. */
  lemma {:induction false} KeepDigitsOfDigits(s: string)
    requires AllDigits(s)
    ensures KeepDigits(s) == s
  {
    if s != [] {
      KeepDigitsOfDigits(s[1..]);
    }
  }

  /** The filter yields the empty string exactly when there is no digit to keep. */
  lemma {:induction false} KeepDigitsEmpty(s: string)
    ensures KeepDigits(s) == [] <==> NoDigits(s)
  {
    if s != [] {
      KeepDigitsEmpty(s[1..]);
      if NoDigits(s[1..]) && !IsDigit(s[0]) {
        forall i | 0 <= i < |s| ensures !IsDigit(s[i]) {
          if i > 0 { assert s[i] == s[1..][i - 1]; }
        }
      }
      if NoDigits(s) {
        forall i | 0 <= i < |s| - 1 ensures !IsDigit(s[1..][i]) {
          assert s[1..][i] == s[i + 1];
        }
      }
    }
  }

  function DigitValue(c: char): (d: nat)
    requires IsDigit(c)
    ensures d < 10
  {
    (c as int) - ('0' as int)
  }

  function DigitChar(d: nat): (c: char)
    requires d < 10
    ensures IsDigit(c) && DigitValue(c) == d
  {
    (('0' as int) + d) as char
  }

  /** The value of a string of digits read most significant first, as `parseInt(s, 10)`
      reads a string that holds nothing but digits (leading zeros included). */
  function DigitsValue(s: string): (v: nat)
    requires AllDigits(s)
  {
    if s == [] then 0 else DigitsValue(s[..|s| - 1]) * 10 + DigitValue(s[|s| - 1])
  }

  /** The numeral JavaScript prints for a non-negative integer: no sign, no grouping,
      no leading zero. */
  function NatToString(n: nat): (s: string)
    ensures |s| >= 1 && AllDigits(s)
    ensures s[0] == '0' ==> n == 0
    decreases n
  {
    if n < 10 then [DigitChar(n)] else NatToString(n / 10) + [DigitChar(n % 10)]
  }

  /** The numeral JavaScript prints for an integer: a minus sign before a negative one. */
  function IntToString(i: int): (s: string)
  {
    if i < 0 then "-" + NatToString(-i) else NatToString(i)
  }

  /** Reading back a printed numeral gives the number printed. */
  lemma {:induction false} ValueOfNatToString(n: nat)
    ensures DigitsValue(NatToString(n)) == n
    decreases n
  {
    if n >= 10 {
      var s := NatToString(n);
      assert s[..|s| - 1] == NatToString(n / 10);
      ValueOfNatToString(n / 10);
    }
  }

  /** A string of digits with no leading zero denotes a positive number. */
  lemma {:induction false} DigitsValuePositive(s: string)
    requires |s| >= 1 && AllDigits(s) && s[0] != '0'
    ensures DigitsValue(s) >= 1
  {
    if |s| > 1 {
      DigitsValuePositive(s[..|s| - 1]);
    }
  }

  /** Printing the value of a canonical numeral gives that numeral back. */
  lemma {:induction false} NatToStringOfValue(s: string)
    requires |s| >= 1 && AllDigits(s)
    requires s[0] == '0' ==> |s| == 1
    ensures NatToString(DigitsValue(s)) == s
  {
    var p := s[..|s| - 1];
    var d := DigitValue(s[|s| - 1]);
    if |s| == 1 {
      assert DigitsValue(s) == d;
      assert DigitChar(d) == s[0];
    } else {
      DigitsValuePositive(p);
      NatToStringOfValue(p);
      var v := DigitsValue(s);
      assert v == DigitsValue(p) * 10 + d;
      assert v / 10 == DigitsValue(p) && v % 10 == d;
      assert DigitChar(d) == s[|s| - 1];
      assert s == p + [s[|s| - 1]];
    }
  }

  /** The minus sign is not a digit, so filtering a printed integer keeps its magnitude only. */
  lemma KeepDigitsOfIntToString(i: int)
    ensures KeepDigits(IntToString(i)) == NatToString(if i < 0 then -i else i)
  {
    var m: nat := if i < 0 then -i else i;
    KeepDigitsOfDigits(NatToString(m));
    if i < 0 {
      KeepDigitsConcat("-", NatToString(m));
    }
  }
}
