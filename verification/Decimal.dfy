// std::to_string on a port and Utils::String::toNumber (std::from_chars into an int), which the
// authority printer and parser of common/URI.cpp use.
module Decimal {
  import opened Bytes

  const INT_MAX := 0x7FFF_FFFF

  predicate IsDigit(c: byte) {
    0x30 <= c <= 0x39
  }

  /** How many leading bytes are digits. */
  function DigitRun(s: Text): (n: nat)
    ensures n <= |s|
    ensures forall i :: 0 <= i < n ==> IsDigit(s[i])
    ensures n < |s| ==> !IsDigit(s[n])
  {
    if s == [] || !IsDigit(s[0]) then 0 else 1 + DigitRun(s[1..])
  }

  function DigitsValue(s: Text): nat
    requires forall i :: 0 <= i < |s| ==> IsDigit(s[i])
  {
    if s == [] then 0
    else
      assert IsDigit(s[|s| - 1]);
      10 * DigitsValue(s[..|s| - 1]) + (s[|s| - 1] as int - 0x30)
  }

  /** std::from_chars: an optional minus sign and a run of digits; whatever follows is ignored, and the
      result stays 0 when there is no digit or the number does not fit an int. */
  function FromChars(s: Text): int {
    var negative := s != [] && s[0] == MINUS;
    var t := if negative then s[1..] else s;
    var v: int := DigitsValue(t[..DigitRun(t)]);
    if negative then (if v <= INT_MAX + 1 then -v else 0)
    else if v <= INT_MAX then v else 0
  }

  function ToDecimal(n: nat): Text {
    if n < 10 then [(0x30 + n) as byte]
    else ToDecimal(n / 10) + [(0x30 + n % 10) as byte]
  }

  lemma {:induction false} ToDecimalIsDigits(n: nat)
    ensures ToDecimal(n) != []
    ensures forall i :: 0 <= i < |ToDecimal(n)| ==> IsDigit(ToDecimal(n)[i])
    ensures DigitsValue(ToDecimal(n)) == n
  {
    if n < 10 {
      assert ToDecimal(n)[..0] == [];
    } else {
      ToDecimalIsDigits(n / 10);
      assert ToDecimal(n)[..|ToDecimal(n)| - 1] == ToDecimal(n / 10);
    }
  }

  function Power10(n: nat): nat {
    if n == 0 then 1 else 10 * Power10(n - 1)
  }

  /** Each digit counts with the power of ten of its place. */
  lemma {:induction false} DigitsHavePlaces(d: byte, s: Text)
    requires IsDigit(d) && forall i :: 0 <= i < |s| ==> IsDigit(s[i])
    ensures DigitsValue([d] + s) == (d as int - '0' as int) * Power10(|s|) + DigitsValue(s)
  {
    var t := [d] + s;
    if s == [] {
      assert t[..0] == [];
    } else {
      var init := s[..|s| - 1];
      assert t[..|t| - 1] == [d] + init;
      DigitsHavePlaces(d, init);
      PlaceTimesTen(d as int - '0' as int, Power10(|init|));
    }
  }

  lemma PlaceTimesTen(d: int, p: int)
    ensures 10 * (d * p) == d * (10 * p)
  {
  }

  /** The printed number has no leading zero. */
  lemma {:induction false} ToDecimalHasNoZero(n: nat)
    ensures ToDecimal(n)[0] as int == '0' as int ==> n == 0 && |ToDecimal(n)| == 1
  {
    if n >= 10 {
      ToDecimalHasNoZero(n / 10);
    }
  }

  lemma {:induction false} LeadingZero(s: Text)
    requires forall i :: 0 <= i < |s| ==> IsDigit(s[i])
    ensures DigitsValue([0x30] + s) == DigitsValue(s)
  {
    DigitsHavePlaces(0x30, s);
  }

  lemma {:induction false} LeadingZeros(zeros: Text, s: Text)
    requires forall i :: 0 <= i < |zeros| ==> zeros[i] as int == '0' as int
    requires forall i :: 0 <= i < |s| ==> IsDigit(s[i])
    ensures forall i :: 0 <= i < |zeros + s| ==> IsDigit((zeros + s)[i])
    ensures DigitsValue(zeros + s) == DigitsValue(s)
  {
    if zeros == [] {
      assert zeros + s == s;
    } else {
      LeadingZeros(zeros[1..], s);
      LeadingZero(zeros[1..] + s);
      assert zeros + s == [0x30] + (zeros[1..] + s);
    }
  }

  lemma {:induction false} DigitRunOf(digits: Text, rest: Text)
    requires forall i :: 0 <= i < |digits| ==> IsDigit(digits[i])
    requires rest == [] || !IsDigit(rest[0])
    ensures DigitRun(digits + rest) == |digits| && (digits + rest)[..|digits|] == digits
  {
    var s := digits + rest;
    assert forall i :: 0 <= i < |digits| ==> s[i] == digits[i];
    if rest != [] {
      assert s[|digits|] == rest[0];
    }
  }

  /** What from_chars reads: leading zeros and whatever follows the digits count for nothing, and a number
      that does not fit an int is not stored. */
  lemma FromCharsReads(zeros: Text, n: nat, rest: Text)
    requires forall i :: 0 <= i < |zeros| ==> zeros[i] as int == '0' as int
    requires rest == [] || !IsDigit(rest[0])
    ensures FromChars(zeros + ToDecimal(n) + rest) == if n <= 2147483647 then n else 0
    ensures FromChars([MINUS] + (zeros + ToDecimal(n) + rest)) == -(if n <= 2147483648 then n else 0)
  {
    var digits := zeros + ToDecimal(n);
    ToDecimalIsDigits(n);
    LeadingZeros(zeros, ToDecimal(n));
    DigitRunOf(digits, rest);
    assert digits[0] == (digits + rest)[0] && IsDigit(digits[0]);
    assert ([MINUS] + (digits + rest))[1..] == digits + rest;
  }

  /** Without a digit it stores nothing. */
  lemma FromCharsNeedsDigit(s: Text)
    requires s == [] || (!IsDigit(s[0]) && (s[0] as int == '-' as int ==> |s| == 1 || !IsDigit(s[1])))
    ensures FromChars(s) == 0
  {
    assert DigitsValue([]) == 0;
    if s != [] && s[0] == MINUS {
      assert s[1..][..0] == [];
    } else {
      assert s[..0] == [];
    }
  }

  /** Reading back a printed number gives the number, for everything an int can hold. */
  lemma FromCharsOfToDecimal(n: nat)
    requires n <= INT_MAX
    ensures FromChars(ToDecimal(n)) == n
  {
    var s := ToDecimal(n);
    ToDecimalIsDigits(n);
    assert IsDigit(s[0]);
    assert DigitRun(s) == |s|;
    assert s[..|s|] == s;
  }
}
