/**
  The acceptance tests applied to what the user types: the count test of
  `get_int64` (digits only, and a `strtoull` value that is neither 0 nor
  `ULLONG_MAX`) and the positivity test on the start number.
 */
module Input {

  import opened Wrappers

  /** `ULLONG_MAX`, 2^64 - 1: what `strtoull` returns when the value does not fit. */
  const ULongLongMax: nat := 0xFFFF_FFFF_FFFF_FFFF

  const Digits: string := "0123456789"

  /** `find_first_not_of`: the first position whose character is not in `chars`, `None` for `npos`. */
  function FindFirstNotOf(s: string, chars: string): (r: Option<nat>)
    ensures r.None? <==> forall i :: 0 <= i < |s| ==> s[i] in chars
    ensures r.Some? ==> r.value < |s| && s[r.value] !in chars
    ensures r.Some? ==> forall i :: 0 <= i < r.value ==> s[i] in chars
  {
    if s == [] then None
    else if s[0] !in chars then Some(0)
    else match FindFirstNotOf(s[1..], chars)
      case None => None
      case Some(k) => Some(k + 1)
  }

  predicate AllDigits(s: string)
  {
    forall i :: 0 <= i < |s| ==> s[i] in Digits
  }

  function DigitValue(c: char): (d: nat)
    requires c in Digits
    ensures d < 10 && Digits[d] == c
  {
    (c as int) - ('0' as int)
  }

  /** The exact value of a decimal numeral, with no bound on its size. */
  function DecimalValue(s: string): (v: nat)
    requires AllDigits(s)
  {
    if s == [] then 0 else 10 * DecimalValue(s[..|s| - 1]) + DigitValue(s[|s| - 1])
  }

  /**
    `strtoull` in base 10 on a string of digits: the digits are taken
    left to right, and once the value no longer fits it stays at `ULLONG_MAX`.
   */
  function StrToULL(s: string): (r: nat)
    requires AllDigits(s)
    ensures r <= ULongLongMax
  {
    if s == [] then 0
    else
      var v := 10 * StrToULL(s[..|s| - 1]) + DigitValue(s[|s| - 1]);
      if v > ULongLongMax then ULongLongMax else v
  }

  /** `strtoull` saturates: it returns the exact value when that fits in 64 bits and `ULLONG_MAX` otherwise. */
  lemma {:induction false} StrToULLSaturates(s: string)
    requires AllDigits(s)
    ensures StrToULL(s) == if DecimalValue(s) < ULongLongMax then DecimalValue(s) else ULongLongMax
  {
    if s != [] {
      var p := s[..|s| - 1];
      assert AllDigits(p) by {
        forall i | 0 <= i < |p| ensures p[i] in Digits {
          assert p[i] == s[i];
        }
      }
      StrToULLSaturates(p);
    }
  }

  /**
    The acceptance test of `get_int64`: the input is all digits (an empty
    input passes that part) and its `strtoull` value is neither `ULLONG_MAX`
    nor 0. Returns the count it accepts.
   */
  function ParseCount(input: string): (r: Option<nat>)
    ensures r.Some? ==> 0 < r.value < ULongLongMax
  {
    var isNumeric := FindFirstNotOf(input, Digits).None?;
    if isNumeric && StrToULL(input) != ULongLongMax && StrToULL(input) > 0 then Some(StrToULL(input))
    else None
  }

  /** A count is accepted exactly when it is a numeral whose value v has 0 < v < 2^64 - 1, and then v is the count. */
  lemma ParseCountCorrect(input: string)
    ensures ParseCount(input).Some? <==>
      AllDigits(input) && 0 < DecimalValue(input) && DecimalValue(input) < ULongLongMax
    ensures ParseCount(input).Some? ==> AllDigits(input) && ParseCount(input).value == DecimalValue(input)
  {
    if AllDigits(input) {
      StrToULLSaturates(input);
    }
  }

  /** A sign, a space or any other character that is not a digit makes the count invalid. */
  lemma ParseCountRejectsNonDigit(input: string, i: nat)
    requires i < |input| && input[i] !in Digits
    ensures ParseCount(input) == None
  {
  }

  /** A numeral `DecimalValue` reads as zero is made of zeros only, and conversely. */
  lemma {:induction false} DecimalValueZero(s: string)
    requires AllDigits(s)
    ensures DecimalValue(s) == 0 <==> forall i :: 0 <= i < |s| ==> s[i] == '0'
  {
    if s != [] {
      var p := s[..|s| - 1];
      assert AllDigits(p) by {
        forall i | 0 <= i < |p| ensures p[i] in Digits {
          assert p[i] == s[i];
        }
      }
      DecimalValueZero(p);
      assert forall i :: 0 <= i < |p| ==> p[i] == s[i];
    }
  }

  /** The empty input, "0", "000", "18446744073709551615" and anything larger are rejected. */
  lemma ParseCountRejectsBounds(input: string)
    requires AllDigits(input)
    requires (forall i :: 0 <= i < |input| ==> input[i] == '0') || DecimalValue(input) >= ULongLongMax
    ensures ParseCount(input) == None
  {
    ParseCountCorrect(input);
    DecimalValueZero(input);
  }

  /** The test on the parsed start number: it must be positive, so candidate 0 is never checked. */
  predicate StartAccepted(parsed: int): (ok: bool)
    ensures ok <==> parsed >= 1
  {
    parsed > 0
  }

  /** A numeral is an accepted start number exactly when one of its digits is not '0'. */
  lemma StartAcceptedDigits(s: string)
    requires AllDigits(s)
    ensures StartAccepted(DecimalValue(s)) <==> exists i :: 0 <= i < |s| && s[i] != '0'
  {
    DecimalValueZero(s);
  }

  /** A numeral with an optional leading minus sign. */
  predicate IsSignedNumeral(s: string)
  {
    AllDigits(s) || (|s| >= 1 && s[0] == '-' && AllDigits(s[1..]))
  }

  /** The value of a numeral with an optional leading minus sign. */
  function SignedValue(s: string): (v: int)
    requires IsSignedNumeral(s)
  {
    if |s| >= 1 && s[0] == '-' then -(DecimalValue(s[1..]) as int) else DecimalValue(s)
  }

  /** A signed numeral is an accepted start number exactly when it has no minus sign and a digit other than '0'. */
  lemma StartAcceptedSigned(s: string)
    requires IsSignedNumeral(s)
    ensures StartAccepted(SignedValue(s)) <==>
      (|s| == 0 || s[0] != '-') && exists i :: 0 <= i < |s| && s[i] != '0'
  {
    if |s| >= 1 && s[0] == '-' {
      assert SignedValue(s) <= 0;
    } else {
      assert AllDigits(s);
      StartAcceptedDigits(s);
    }
  }

  /** What the prompts do with a few typed inputs. */
  lemma InputExamples()
    ensures ParseCount("27") == Some(27)
    ensures ParseCount("") == None && ParseCount("0") == None
    ensures ParseCount("-5") == None && ParseCount(" 5") == None && ParseCount("+5") == None
    ensures StartAccepted(DecimalValue("27")) && !StartAccepted(DecimalValue("0"))
    ensures IsSignedNumeral("-5") && !StartAccepted(SignedValue("-5"))
  {
  }

  /** 2^32 is an accepted count: the validator lets through counts that do not fit a 32-bit counter. */
  lemma ParseCountTwoTo32()
    ensures ParseCount("4294967296") == Some(0x1_0000_0000)
  {
    assert "4294967296"[..9] == "429496729";
    assert "429496729"[..8] == "42949672";
    assert "42949672"[..7] == "4294967";
    assert "4294967"[..6] == "429496";
    assert "429496"[..5] == "42949";
    assert "42949"[..4] == "4294";
    assert "4294"[..3] == "429";
    assert "429"[..2] == "42";
    assert "42"[..1] == "4";
    assert DecimalValue("4294967296") == 4294967296;
    ParseCountCorrect("4294967296");
  }
}
