/**
 The data-file name parser of the batch driver: a whole-string match of the
 pattern `dsb-(\d+)\.bin` whose capture group is converted with `std::stoi`,
 and the sentinel -1 for every name that does not match.
 */
module FileNumber {
  import opened Wrappers
  import opened Decimal

  const NamePrefix: string := "dsb-"
  const NameSuffix: string := ".bin"

  /** The largest value of a 32-bit `int`. */
  const IntMax: nat := 0x7FFF_FFFF

  /** The language of `dsb-(\d+)\.bin` under whole-string matching. */
  ghost predicate Matches(name: string) {
    exists d :: IsNumeral(d) && name == NamePrefix + d + NameSuffix
  }

  /** Length of the longest digit run of `s` starting at `from` (the greedy `\d+`). */
  function DigitRunLength(s: string, from: nat): (k: nat)
    requires from <= |s|
    ensures from + k <= |s|
    ensures AllDigits(s[from..from + k])
    ensures from + k == |s| || !IsDigit(s[from + k])
    decreases |s| - from
  {
    if from < |s| && IsDigit(s[from]) then
      var rest := DigitRunLength(s, from + 1);
      assert s[from..from + 1 + rest] == [s[from]] + s[from + 1..from + 1 + rest];
      1 + rest
    else
      0
  }

  /** A digit run followed by a non-digit (or the end) is exactly the greedy run. */
  lemma DigitRunLengthExact(s: string, from: nat, k: nat)
    requires from + k <= |s|
    requires AllDigits(s[from..from + k])
    requires from + k == |s| || !IsDigit(s[from + k])
    ensures DigitRunLength(s, from) == k
    decreases k
  {
    if k > 0 {
      assert s[from..from + k][0] == s[from];
      assert s[from + 1..from + k] == s[from..from + k][1..];
      DigitRunLengthExact(s, from + 1, k - 1);
    }
  }

  /**
   Capture group 1 of a successful `regex_match`, or None when the name does
   not match. The literal prefix, then the greedy digit run, then the literal
   suffix up to the end of the name: `\d` never matches '.', so no
   backtracking can change the outcome.
   */
  function Capture(name: string): (r: Option<string>)
    ensures r.Some? ==> IsNumeral(r.value) && name == NamePrefix + r.value + NameSuffix
  {
    if |name| < |NamePrefix| || name[..|NamePrefix|] != NamePrefix then None
    else
      var k := DigitRunLength(name, |NamePrefix|);
      if k == 0 || name[|NamePrefix| + k..] != NameSuffix then None
      else
        var d := name[|NamePrefix|..|NamePrefix| + k];
        assert name == NamePrefix + d + NameSuffix;
        Some(d)
  }

  /** Every name of the language is captured, and the capture is its digit run. */
  lemma CaptureComplete(d: string)
    requires IsNumeral(d)
    ensures Capture(NamePrefix + d + NameSuffix) == Some(d)
  {
    var name := NamePrefix + d + NameSuffix;
    assert name[|NamePrefix|..|NamePrefix| + |d|] == d;
    assert name[|NamePrefix| + |d|] == '.';
    DigitRunLengthExact(name, |NamePrefix|, |d|);
    assert name[|NamePrefix| + |d|..] == NameSuffix;
  }

  lemma CaptureIffMatches(name: string)
    ensures Capture(name).Some? <==> Matches(name)
  {
    if Matches(name) {
      var d :| IsNumeral(d) && name == NamePrefix + d + NameSuffix;
      CaptureComplete(d);
    }
  }

  /** The captured digits denote a value `std::stoi` can return without throwing. */
  ghost predicate FitsInInt(name: string) {
    Capture(name).Some? ==> Value(Capture(name).value) <= IntMax
  }

  /**
   The file number of a data file name: the decimal value of its digit run
   when the whole name matches, and -1 otherwise.
   */
  function ExtractFileNumber(name: string): (r: int)
    requires FitsInInt(name)
    ensures -1 <= r <= IntMax
    ensures r >= 0 <==> Matches(name)
  {
    CaptureIffMatches(name);
    match Capture(name)
    case Some(d) => Value(d)
    case None => -1
  }

  /** A name `dsb-<d>.bin` with a numeral d yields the decimal value of d. */
  lemma ExtractNumeral(d: string)
    requires IsNumeral(d) && Value(d) <= IntMax
    ensures FitsInInt(NamePrefix + d + NameSuffix)
    ensures ExtractFileNumber(NamePrefix + d + NameSuffix) == Value(d)
  {
    CaptureComplete(d);
  }

  /** The parser reads back the name the dataset generator writes for index k. */
  lemma ExtractToString(k: nat)
    requires k <= IntMax
    ensures FitsInInt(NamePrefix + NatToString(k) + NameSuffix)
    ensures ExtractFileNumber(NamePrefix + NatToString(k) + NameSuffix) == k
  {
    ValueOfNatToString(k);
    ExtractNumeral(NatToString(k));
  }

  /** In a matching name every character between the literal prefix and suffix is a digit. */
  lemma MatchedMiddleIsDigits(name: string, p: nat)
    requires Matches(name)
    requires |NamePrefix| <= p < |name| - |NameSuffix|
    ensures IsDigit(name[p])
  {
    var d :| IsNumeral(d) && name == NamePrefix + d + NameSuffix;
    assert name[p] == d[p - |NamePrefix|];
  }

  /** A non-digit anywhere between "dsb-" and the last four characters rejects the name. */
  lemma NonDigitRejected(name: string, p: nat)
    requires |NamePrefix| <= p < |name| - |NameSuffix|
    requires !IsDigit(name[p])
    ensures FitsInInt(name)
    ensures ExtractFileNumber(name) == -1
  {
    CaptureIffMatches(name);
    if Matches(name) {
      MatchedMiddleIsDigits(name, p);
    }
  }

  /** A name that does not end in ".bin" is rejected: the dot is a literal, not a wildcard. */
  lemma WrongSuffixRejected(name: string)
    requires |name| < |NameSuffix| || name[|name| - |NameSuffix|..] != NameSuffix
    ensures FitsInInt(name)
    ensures ExtractFileNumber(name) == -1
  {
    CaptureIffMatches(name);
  }

  /** Matching is whole-string: any text before "dsb-" rejects the name. */
  lemma ExtraPrefixRejected(x: string, d: string)
    requires |x| >= 1
    ensures FitsInInt(x + NamePrefix + d + NameSuffix)
    ensures ExtractFileNumber(x + NamePrefix + d + NameSuffix) == -1
  {
    var name := x + NamePrefix + d + NameSuffix;
    assert name[|x| + 3] == '-';
    NonDigitRejected(name, |x| + 3);
  }

  /** Matching is whole-string: any text after ".bin" rejects the name. */
  lemma ExtraSuffixRejected(d: string, y: string)
    requires |y| >= 1
    ensures FitsInInt(NamePrefix + d + NameSuffix + y)
    ensures ExtractFileNumber(NamePrefix + d + NameSuffix + y) == -1
  {
    var name := NamePrefix + d + NameSuffix + y;
    assert name[|NamePrefix| + |d|] == '.';
    NonDigitRejected(name, |NamePrefix| + |d|);
  }

  /** Between "dsb-" and ".bin" there must be a non-empty run of digits only. */
  lemma NonNumeralRejected(m: string)
    requires !IsNumeral(m)
    ensures FitsInInt(NamePrefix + m + NameSuffix)
    ensures ExtractFileNumber(NamePrefix + m + NameSuffix) == -1
  {
    CaptureIffMatches(NamePrefix + m + NameSuffix);
  }

  lemma Regroup(a: string, b: string, c: string, e: string)
    ensures a + b + c + e == a + (b + c) + e
  {
  }

  /** Leading zeros are accepted and do not change the number. */
  lemma LeadingZerosIgnored(zeros: string, d: string)
    requires AllZeros(zeros) && IsNumeral(d) && Value(d) <= IntMax
    ensures FitsInInt(NamePrefix + zeros + d + NameSuffix)
    ensures ExtractFileNumber(NamePrefix + zeros + d + NameSuffix) == Value(d)
  {
    ValueLeadingZeros(zeros, d);
    Regroup(NamePrefix, zeros, d, NameSuffix);
    ExtractNumeral(zeros + d);
  }

  /** "dsb-007.bin" is file 7. */
  lemma ExampleLeadingZeros()
    ensures FitsInInt("dsb-007.bin") && ExtractFileNumber("dsb-007.bin") == 7
  {
    assert "dsb-007.bin" == NamePrefix + "00" + "7" + NameSuffix;
    LeadingZerosIgnored("00", "7");
  }

  /** "dsb-.bin" has no digits and is rejected. */
  lemma ExampleEmptyDigits()
    ensures FitsInInt("dsb-.bin") && ExtractFileNumber("dsb-.bin") == -1
  {
    assert "dsb-.bin" == NamePrefix + "" + NameSuffix;
    NonNumeralRejected("");
  }

  /** "dsb-1xbin" is rejected: the dot of ".bin" is literal. */
  lemma ExampleLiteralDot()
    ensures FitsInInt("dsb-1xbin") && ExtractFileNumber("dsb-1xbin") == -1
  {
    assert "dsb-1xbin"[5..] == "xbin";
    WrongSuffixRejected("dsb-1xbin");
  }

  /** "xdsb-1.bin" and "dsb-1.bin.bak" are rejected: the match is whole-string. */
  lemma ExampleWholeString()
    ensures FitsInInt("xdsb-1.bin") && ExtractFileNumber("xdsb-1.bin") == -1
    ensures FitsInInt("dsb-1.bin.bak") && ExtractFileNumber("dsb-1.bin.bak") == -1
  {
    assert "xdsb-1.bin" == "x" + NamePrefix + "1" + NameSuffix;
    ExtraPrefixRejected("x", "1");
    assert "dsb-1.bin.bak" == NamePrefix + "1" + NameSuffix + ".bak";
    ExtraSuffixRejected("1", ".bak");
  }
}
