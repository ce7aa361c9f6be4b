/** The integer parsers of src/utils.cpp: `std::from_chars` in base 10 into an unsigned
    type, with any error reported as an empty `optional`. */
module Utils {
  import opened Wrappers
  import opened Decimal

  newtype uint8 = x: int | 0 <= x < 0x100
  newtype uint32 = x: int | 0 <= x < 0x1_0000_0000
  newtype uint64 = x: int | 0 <= x < 0x1_0000_0000_0000_0000

  /** What `std::from_chars` reports for an unsigned type whose values lie below `bound`:
      the value of the maximal leading digit run, `errc::invalid_argument` (None) when
      there is no leading digit (no sign and no white space is accepted), and
      `errc::result_out_of_range` (None) when the run denotes a value that does not fit.
      The end pointer is not examined, so whatever follows the run is ignored. */
  function FromChars(s: string, bound: nat): (r: Option<nat>)
    ensures r.Some? ==> r.value < bound
    ensures r.Some? ==> |s| > 0 && IsDigit(s[0])
  {
    var k := DigitRun(s);
    if k == 0 then None
    else if DigitsValue(s[..k]) < bound then Some(DigitsValue(s[..k]))
    else None
  }

  function ParseUint8(s: string): (r: Option<uint8>)
    ensures r.Some? <==> FromChars(s, TWO_8).Some?
    ensures r.Some? ==> r.value as nat == FromChars(s, TWO_8).value
  {
    match FromChars(s, TWO_8)
    case Some(v) => Some(v as uint8)
    case None => None
  }

  function ParseUint32(s: string): (r: Option<uint32>)
    ensures r.Some? <==> FromChars(s, TWO_32).Some?
    ensures r.Some? ==> r.value as nat == FromChars(s, TWO_32).value
  {
    match FromChars(s, TWO_32)
    case Some(v) => Some(v as uint32)
    case None => None
  }

  function ParseUint64(s: string): (r: Option<uint64>)
    ensures r.Some? <==> FromChars(s, TWO_64).Some?
    ensures r.Some? ==> r.value as nat == FromChars(s, TWO_64).value
  {
    match FromChars(s, TWO_64)
    case Some(v) => Some(v as uint64)
    case None => None
  }

  /** The whole contract of `std::from_chars` when the text starts with a digit: split it
      into the maximal digit run `ds` and the rest; the result is the run's value exactly
      when that value fits. */
  lemma FromCharsDigitRun(s: string, ds: string, rest: string, bound: nat)
    requires s == ds + rest && ds != [] && AllDigits(ds)
    requires rest == [] || !IsDigit(rest[0])
    ensures FromChars(s, bound) == if DigitsValue(ds) < bound then Some(DigitsValue(ds)) else None
  {
    DigitRunOfDigits(ds, rest);
    assert s[..|ds|] == ds;
  }

  /** An empty string, or one that starts with a sign, white space or any other
      non-digit, parses to nothing at every width. */
  lemma FromCharsNoLeadingDigit(s: string, bound: nat)
    requires s == [] || !IsDigit(s[0])
    ensures FromChars(s, bound) == None
    ensures ParseUint8(s) == None && ParseUint32(s) == None && ParseUint64(s) == None
  {
  }

  /** Every value is read back from its decimal rendering, after any number of leading
      zeros and before any text that does not start with a digit. */
  lemma FromCharsRoundTrip(n: nat, zeros: string, rest: string, bound: nat)
    requires n < bound
    requires forall k :: 0 <= k < |zeros| ==> zeros[k] == '0'
    requires rest == [] || !IsDigit(rest[0])
    ensures FromChars(zeros + NatToDecimal(n) + rest, bound) == Some(n)
  {
    var ds := zeros + NatToDecimal(n);
    DigitsValueLeadingZeros(zeros, NatToDecimal(n));
    FromCharsDigitRun(ds + rest, ds, rest, bound);
  }

  lemma ParseRoundTrip8(v: uint8)
    ensures ParseUint8(NatToDecimal(v as nat)) == Some(v)
  {
    FromCharsRoundTrip(v as nat, "", "", TWO_8);
    assert "" + NatToDecimal(v as nat) + "" == NatToDecimal(v as nat);
  }

  lemma ParseRoundTrip32(v: uint32)
    ensures ParseUint32(NatToDecimal(v as nat)) == Some(v)
  {
    FromCharsRoundTrip(v as nat, "", "", TWO_32);
    assert "" + NatToDecimal(v as nat) + "" == NatToDecimal(v as nat);
  }

  lemma ParseRoundTrip64(v: uint64)
    ensures ParseUint64(NatToDecimal(v as nat)) == Some(v)
  {
    FromCharsRoundTrip(v as nat, "", "", TWO_64);
    assert "" + NatToDecimal(v as nat) + "" == NatToDecimal(v as nat);
  }

  /** Overflow is reported, never wrapped: 255 fits a `uint8_t`, 256 does not. */
  lemma ParseUint8Overflow()
    ensures ParseUint8("255") == Some(255)
    ensures ParseUint8("256") == None
  {
    FromCharsRoundTrip(255, "", "", TWO_8);
    FromCharsDigitRun("256", "256", "", TWO_8);
    assert NatToDecimal(255) == "255" by {
      assert NatToDecimal(25) == "25" by { assert NatToDecimal(2) == "2"; }
    }
    assert "" + "255" + "" == "255";
    assert DigitsValue("256") == 256 by {
      assert "256"[..2] == "25";
      assert "25"[..1] == "2";
      assert "2"[..0] == "";
    }
  }

  /** Leading zeros are accepted, and text after the digit run is ignored. */
  lemma ParseUint8ZerosAndTrailing()
    ensures ParseUint8("0007") == Some(7)
    ensures ParseUint8("12ab") == Some(12)
  {
    FromCharsRoundTrip(7, "000", "", TWO_8);
    assert NatToDecimal(7) == "7";
    assert "000" + "7" + "" == "0007";
    FromCharsRoundTrip(12, "", "ab", TWO_8);
    assert NatToDecimal(12) == "12" by { assert NatToDecimal(1) == "1"; }
    assert "" + "12" + "ab" == "12ab";
  }

  /** A sign or white space before the digits is refused. */
  lemma ParseUint8Signs()
    ensures ParseUint8("-1") == None && ParseUint8("+1") == None && ParseUint8(" 1") == None
    ensures ParseUint8("") == None
  {
    FromCharsNoLeadingDigit("-1", TWO_8);
    FromCharsNoLeadingDigit("+1", TWO_8);
    FromCharsNoLeadingDigit(" 1", TWO_8);
  }

  /** A narrower parser's success is also a wider parser's success, with the same value. */
  lemma ParseMonotoneByWidth(s: string)
    ensures ParseUint8(s).Some? ==>
      ParseUint32(s) == Some(ParseUint8(s).value as uint32) &&
      ParseUint64(s) == Some(ParseUint8(s).value as uint64)
    ensures ParseUint32(s).Some? ==> ParseUint64(s) == Some(ParseUint32(s).value as uint64)
  {
  }
}
