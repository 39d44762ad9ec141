/**
 * Decimal rendering of integers, as `std::ostream << int` writes them in the
 * classic "C" locale with default stream flags:
 * an optional '-' followed by the digits of the magnitude, most significant
 * first, with no leading zeros. `Parse` reads such text back.
 */
module Decimal {
  import opened Wrappers

  predicate IsDigit(ch: char) {
    '0' <= ch <= '9'
  }

  predicate AllDigits(s: string) {
    forall i :: 0 <= i < |s| ==> IsDigit(s[i])
  }

  function DigitChar(d: nat): (ch: char)
    requires d < 10
    ensures IsDigit(ch)
  {
    ('0' as int + d) as char
  }

  function DigitValue(ch: char): (d: nat)
    requires IsDigit(ch)
    ensures d < 10 && DigitChar(d) == ch
  {
    ch as int - '0' as int
  }

  /** The digits of `n`, most significant first; a leading '0' only for zero itself. */
  function NatDigits(n: nat): (s: string)
    ensures |s| >= 1 && AllDigits(s)
    ensures s[0] == '0' <==> n == 0
    decreases n
  {
    if n < 10 then [DigitChar(n)] else NatDigits(n / 10) + [DigitChar(n % 10)]
  }

  /** The value of a string of digits read in base ten. */
  function DigitsValue(s: string): nat
    requires AllDigits(s)
    decreases |s|
  {
    if s == [] then 0 else DigitsValue(s[..|s| - 1]) * 10 + DigitValue(s[|s| - 1])
  }

  /** The text an output stream writes for the integer `i`. */
  function FromInt(i: int): (s: string)
    ensures |s| >= 1 && '\n' !in s
    ensures s[0] == '-' <==> i < 0
  {
    var s := if i < 0 then "-" + NatDigits(-i) else NatDigits(i);
    assert s[0] != '\n';
    assert forall k :: 0 < k < |s| ==> IsDigit(s[k]);
    s
  }

  /** Reads an optional '-' followed by at least one digit; anything else is `None`. */
  function Parse(s: string): (r: Option<int>)
    ensures r.Some? ==> |s| >= 1 && (r.value < 0 ==> s[0] == '-')
  {
    if |s| > 0 && s[0] == '-' then
      if |s| > 1 && AllDigits(s[1..]) then Some(-(DigitsValue(s[1..]) as int)) else None
    else if |s| > 0 && AllDigits(s) then Some(DigitsValue(s))
    else None
  }

  lemma {:induction false} DigitsValueOfNatDigits(n: nat)
    ensures DigitsValue(NatDigits(n)) == n
    decreases n
  {
    if n >= 10 {
      var s := NatDigits(n);
      assert s[..|s| - 1] == NatDigits(n / 10);
      DigitsValueOfNatDigits(n / 10);
    }
  }

  /** Reading back what was written recovers the integer, sign included. */
  lemma {:induction false} ParseFromInt(i: int)
    ensures Parse(FromInt(i)) == Some(i)
  {
    var s := FromInt(i);
    if i < 0 {
      var digits := NatDigits(-i);
      assert s == "-" + digits;
      assert s[1..] == digits;
      assert AllDigits(s[1..]);
      DigitsValueOfNatDigits(-i);
    } else {
      assert s == NatDigits(i);
      assert s[0] != '-';
      DigitsValueOfNatDigits(i);
    }
  }
}
