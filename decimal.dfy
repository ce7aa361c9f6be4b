/** Decimal text: `std::to_string`, `std::reverse` on a string, the digit run that
    `std::from_chars` reads, `std::stoul`/`std::stoull`, and the fixed-width
    conversions the decoder applies to their results. */
module Decimal {
  import opened Wrappers

  /** 2^8, 2^31, 2^32 and 2^64: the widths of `uint8_t`, `int32_t`, `uint32_t` and
      `unsigned long` (64 bits on the LP64 platforms the extension is built for). */
  const TWO_8: nat := 0x100
  const TWO_31: nat := 0x8000_0000
  const TWO_32: nat := 0x1_0000_0000
  const TWO_64: nat := 0x1_0000_0000_0000_0000

  predicate IsDigit(c: char) { '0' <= c <= '9' }

  function DigitValue(c: char): (d: nat)
    requires IsDigit(c)
    ensures d < 10
  {
    (c as int) - ('0' as int)
  }

  function DigitChar(d: nat): (c: char)
    requires d < 10
    ensures IsDigit(c) && DigitValue(c) == d
  {
    (('0' as int) + d) as char
  }

  predicate AllDigits(s: string) { forall i :: 0 <= i < |s| ==> IsDigit(s[i]) }

  /** The number a run of decimal digits denotes, most significant digit first. */
  function DigitsValue(ds: string): nat
    requires AllDigits(ds)
    decreases |ds|
  {
    if ds == [] then 0 else 10 * DigitsValue(ds[..|ds| - 1]) + DigitValue(ds[|ds| - 1])
  }

  /** `std::to_string` of a non-negative integer: its shortest decimal rendering. */
  function NatToDecimal(n: nat): (s: string)
    ensures |s| > 0 && AllDigits(s)
    ensures DigitsValue(s) == n
    ensures |s| > 1 ==> s[0] != '0'
    decreases n
  {
    if n < 10 then [DigitChar(n)]
    else
      var hd := NatToDecimal(n / 10);
      var s := hd + [DigitChar(n % 10)];
      assert s[..|s| - 1] == hd;
      s
  }

  /** `std::to_string` of any integer: a '-' sign before the magnitude when negative. */
  function IntToDecimal(i: int): (s: string)
    ensures |s| > 0
    ensures forall k :: 0 <= k < |s| ==> IsDigit(s[k]) || (k == 0 && s[k] == '-')
    ensures i >= 0 <==> AllDigits(s)
  {
    if i < 0 then
      var s := "-" + NatToDecimal(-i);
      assert !IsDigit(s[0]);
      s
    else NatToDecimal(i)
  }

  /** Two numbers with the same rendering are equal: `std::to_string` loses nothing. */
  lemma IntToDecimalInjective(i: int, j: int)
    requires IntToDecimal(i) == IntToDecimal(j)
    ensures i == j
  {
    if i < 0 && j < 0 {
      assert NatToDecimal(-i) == IntToDecimal(i)[1..];
      assert NatToDecimal(-j) == IntToDecimal(j)[1..];
    }
  }

  /** `std::reverse` applied to a whole string. */
  function Reverse(s: string): (r: string)
    ensures |r| == |s|
    ensures forall k :: 0 <= k < |s| ==> r[k] == s[|s| - 1 - k]
  {
    if s == [] then [] else Reverse(s[1..]) + [s[0]]
  }

  /** Reversing twice gives the string back, so reversal loses nothing. */
  lemma ReverseInvolution(s: string)
    ensures Reverse(Reverse(s)) == s
  {
  }

  lemma ReverseInjective(s: string, t: string)
    requires Reverse(s) == Reverse(t)
    ensures s == t
  {
    ReverseInvolution(s);
    ReverseInvolution(t);
  }

  /** Length of the leading run of decimal digits: the characters `std::from_chars`
      and `strtoul` consume. */
  function DigitRun(s: string): (n: nat)
    ensures n <= |s| && AllDigits(s[..n])
    ensures n < |s| ==> !IsDigit(s[n])
  {
    if s == [] || !IsDigit(s[0]) then 0
    else
      var n := 1 + DigitRun(s[1..]);
      assert s[..n] == [s[0]] + s[1..][..n - 1];
      n
  }

  /** A digit run is read up to the first non-digit and no further. */
  lemma {:induction false} DigitRunOfDigits(ds: string, rest: string)
    requires AllDigits(ds)
    requires rest == [] || !IsDigit(rest[0])
    ensures DigitRun(ds + rest) == |ds|
    decreases |ds|
  {
    if ds != [] {
      assert (ds + rest)[1..] == ds[1..] + rest;
      DigitRunOfDigits(ds[1..], rest);
    } else {
      assert ds + rest == rest;
    }
  }

  lemma {:induction false} DigitsValueZeros(zeros: string)
    requires forall k :: 0 <= k < |zeros| ==> zeros[k] == '0'
    ensures AllDigits(zeros) && DigitsValue(zeros) == 0
    decreases |zeros|
  {
    if zeros != [] {
      DigitsValueZeros(zeros[..|zeros| - 1]);
    }
  }

  /** Leading zeros do not change the value of a digit run. */
  lemma {:induction false} DigitsValueLeadingZeros(zeros: string, ds: string)
    requires forall k :: 0 <= k < |zeros| ==> zeros[k] == '0'
    requires AllDigits(ds)
    ensures AllDigits(zeros + ds) && DigitsValue(zeros + ds) == DigitsValue(ds)
    decreases |ds|
  {
    DigitsValueZeros(zeros);
    if ds == [] {
      assert zeros + ds == zeros;
    } else {
      var s := zeros + ds;
      assert s[..|s| - 1] == zeros + ds[..|ds| - 1];
      DigitsValueLeadingZeros(zeros, ds[..|ds| - 1]);
    }
  }

  /** White space as C's `isspace` sees it in the "C" locale. */
  predicate IsSpace(c: char)
  {
    c == ' ' || c == '\t' || c == '\n' || c == '\r' || c as int == 11 || c as int == 12
  }

  /** The number of leading white-space characters. */
  function SpaceRun(s: string): (n: nat)
    ensures n <= |s|
    ensures forall k :: 0 <= k < n ==> IsSpace(s[k])
    ensures n < |s| ==> !IsSpace(s[n])
  {
    if s == [] || !IsSpace(s[0]) then 0 else 1 + SpaceRun(s[1..])
  }

  /** `std::stoul` (and `std::stoull`, the same on LP64) in base 10, as glibc's `strtoul`
      does it: skip white space, take an optional '+' or '-', then at least one digit.
      `None` is the exception `std::invalid_argument` (no digits) or `std::out_of_range`
      (the magnitude does not fit 64 bits); a '-' sign negates modulo 2^64. */
  function StoUL(s: string): (r: Option<nat>)
    ensures r.Some? ==> r.value < TWO_64
  {
    var t := s[SpaceRun(s)..];
    var u := if |t| > 0 && (t[0] == '-' || t[0] == '+') then t[1..] else t;
    var k := DigitRun(u);
    if k == 0 then None
    else
      var m := DigitsValue(u[..k]);
      if m >= TWO_64 then None
      else if t[0] == '-' then Some((TWO_64 - m) % TWO_64)
      else Some(m)
  }

  /** `std::stoul` reads back the decimal rendering of every value that fits, whatever
      follows the digits (a '/' of a row key, say). */
  lemma StoULOfDecimal(n: nat, rest: string)
    requires n < TWO_64
    requires rest == [] || !IsDigit(rest[0])
    ensures StoUL(NatToDecimal(n) + rest) == Some(n)
  {
    var s := NatToDecimal(n) + rest;
    assert SpaceRun(s) == 0 by { assert IsDigit(s[0]); }
    assert s[SpaceRun(s)..] == s;
    DigitRunOfDigits(NatToDecimal(n), rest);
    assert s[..|NatToDecimal(n)|] == NatToDecimal(n);
  }

  /** `strtoul` negates a '-' value modulo 2^64. */
  lemma StoULOfNegative(n: nat)
    requires 0 < n < TWO_64
    ensures StoUL("-" + NatToDecimal(n)) == Some(TWO_64 - n)
  {
    var d := NatToDecimal(n);
    var s := "-" + d;
    assert SpaceRun(s) == 0;
    assert s[0..] == s && s[1..] == d;
    DigitRunOfDigits(d, "");
    assert d + "" == d && d[..|d|] == d;
    assert DigitRun(d) == |d| && DigitsValue(d) == n;
    assert 0 < TWO_64 - n < TWO_64;
    assert (TWO_64 - n) % TWO_64 == TWO_64 - n;
  }

  /** `std::stoul` throws, rather than returning a value, on text without a digit. */
  lemma StoULNoDigits(s: string)
    requires forall k :: 0 <= k < |s| ==> !IsDigit(s[k])
    ensures StoUL(s) == None
  {
  }

  /** `strtoul` accepts a minus sign and wraps: "-1" is 2^64 - 1. */
  lemma StoULNegativeWraps()
    ensures StoUL("-1") == Some(TWO_64 - 1)
    ensures StoUL(" 7") == Some(7)
  {
    assert SpaceRun("-1") == 0;
    assert "-1"[0..] == "-1";
    assert "-1"[1..] == "1";
    assert DigitRun("1") == 1;
    assert "1"[..1] == "1";
    assert DigitsValue("1") == 1 by { assert "1"[..0] == ""; }
    assert SpaceRun(" 7") == 1 by { assert SpaceRun(" 7"[1..]) == 0; }
    assert " 7"[1..] == "7";
    assert DigitRun("7") == 1;
    assert "7"[..1] == "7";
    assert DigitsValue("7") == 7 by { assert "7"[..0] == ""; }
  }

  /** The implicit conversion of an unsigned long to `uint32_t` (`Value::UINTEGER`). */
  function ToUint32(x: nat): (r: nat)
    ensures r < TWO_32
    ensures (x - r) % TWO_32 == 0
    ensures x < TWO_32 ==> r == x
  {
    x % TWO_32
  }

  /** The implicit conversion of an unsigned long to `int32_t` (two's complement, C++20). */
  function ToInt32(x: nat): (r: int)
    ensures -(TWO_31 as int) <= r < TWO_31
    ensures (r - x) % TWO_32 == 0
    ensures x < TWO_31 ==> r == x
  {
    var m := x % TWO_32;
    if m >= TWO_31 then m - TWO_32 else m
  }
}
