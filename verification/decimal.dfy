/**
 Decimal numerals: the digits matched by `\d`, the value `std::stoi` gives them,
 and the text `std::to_string` produces for a number. Both the file-name parser
 and the output-path naming are built on these.
 */
module Decimal {

  /** An ASCII decimal digit, the class `\d` of an ECMAScript regular expression. */
  predicate IsDigit(c: char) {
    '0' <= c <= '9'
  }

  predicate AllDigits(s: string) {
    forall k :: 0 <= k < |s| ==> IsDigit(s[k])
  }

  /** A non-empty digit run, the language of `\d+`. */
  predicate IsNumeral(s: string) {
    |s| >= 1 && AllDigits(s)
  }

  /** A numeral without superfluous leading zeros, the shape `std::to_string` produces. */
  predicate IsCanonical(s: string) {
    IsNumeral(s) && (|s| > 1 ==> s[0] != '0')
  }

  predicate AllZeros(s: string) {
    forall k :: 0 <= k < |s| ==> s[k] == '0'
  }

  function DigitValue(c: char): (d: nat)
    requires IsDigit(c)
    ensures d < 10
  {
    (c as int) - ('0' as int)
  }

  function DigitChar(d: nat): (c: char)
    requires d < 10
    ensures IsDigit(c) && DigitValue(c) == d
  {
    (d + '0' as int) as char
  }

  /** The decimal value of a digit string, read most significant digit first. */
  function Value(s: string): (v: nat)
    requires AllDigits(s)
    ensures v == 0 <==> AllZeros(s)
  {
    if |s| == 0 then 0
    else
      var init := s[..|s| - 1];
      assert AllZeros(s) <==> AllZeros(init) && s[|s| - 1] == '0';
      Value(init) * 10 + DigitValue(s[|s| - 1])
  }

  /** `std::to_string` of an unsigned number. */
  function NatToString(k: nat): (s: string)
    ensures IsCanonical(s)
    decreases k
  {
    if k < 10 then [DigitChar(k)] else NatToString(k / 10) + [DigitChar(k % 10)]
  }

  /** `std::to_string` of a signed number: a minus sign before the magnitude. */
  function IntToString(i: int): (s: string)
    ensures |s| >= 1
    ensures i >= 0 <==> IsDigit(s[0])
  {
    if i < 0 then "-" + NatToString(-i) else NatToString(i)
  }

  /** Reading back what `NatToString` printed gives the number printed. */
  lemma {:induction false} ValueOfNatToString(k: nat)
    ensures Value(NatToString(k)) == k
    decreases k
  {
    if k >= 10 {
      var p := NatToString(k / 10);
      var s := p + [DigitChar(k % 10)];
      assert s[..|s| - 1] == p;
      ValueOfNatToString(k / 10);
    }
  }

  lemma NatToStringInjective(k1: nat, k2: nat)
    ensures NatToString(k1) == NatToString(k2) <==> k1 == k2
  {
    if NatToString(k1) == NatToString(k2) {
      ValueOfNatToString(k1);
      ValueOfNatToString(k2);
    }
  }

  lemma IntToStringInjective(i1: int, i2: int)
    ensures IntToString(i1) == IntToString(i2) <==> i1 == i2
  {
    if IntToString(i1) == IntToString(i2) {
      if i1 < 0 && i2 < 0 {
        assert IntToString(i1)[1..] == NatToString(-i1);
        assert IntToString(i2)[1..] == NatToString(-i2);
        NatToStringInjective(-i1, -i2);
      } else if i1 >= 0 && i2 >= 0 {
        NatToStringInjective(i1, i2);
      }
    }
  }

  /** A numeral that starts with a non-zero digit has a positive value. */
  lemma {:induction false} ValuePositive(s: string)
    requires IsNumeral(s) && s[0] != '0'
    ensures Value(s) >= 1
    decreases |s|
  {
    if |s| > 1 {
      ValuePositive(s[..|s| - 1]);
    }
  }

  /** Printing the value of a canonical numeral gives the numeral back. */
  lemma {:induction false} NatToStringOfValue(s: string)
    requires IsCanonical(s)
    ensures NatToString(Value(s)) == s
    decreases |s|
  {
    if |s| > 1 {
      var p := s[..|s| - 1];
      ValuePositive(p);
      NatToStringOfValue(p);
      assert s == p + [s[|s| - 1]];
    }
  }

  /** One leading zero does not change the value of a digit string. */
  lemma {:induction false} ValueLeadingZero(s: string)
    requires AllDigits(s)
    ensures Value("0" + s) == Value(s)
    decreases |s|
  {
    if |s| > 0 {
      var p := s[..|s| - 1];
      assert ("0" + s)[..|"0" + s| - 1] == "0" + p;
      ValueLeadingZero(p);
    }
  }

  /** Any run of leading zeros leaves the value of a digit string unchanged. */
  lemma {:induction false} ValueLeadingZeros(zeros: string, s: string)
    requires AllZeros(zeros) && AllDigits(s)
    ensures AllDigits(zeros + s)
    ensures Value(zeros + s) == Value(s)
    decreases |zeros|
  {
    if |zeros| > 0 {
      var rest := zeros[1..];
      ValueLeadingZeros(rest, s);
      assert zeros == "0" + rest;
      assert zeros + s == "0" + (rest + s);
      ValueLeadingZero(rest + s);
    } else {
      assert zeros + s == s;
    }
  }
}
