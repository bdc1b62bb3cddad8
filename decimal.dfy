/**
 * Java's `int` and its decimal text form: `String.valueOf(int)` writes the
 * controller record and the broker child names, `Integer.parseInt` reads them
 * back.
 */
module Decimal {
  import opened Wrappers

  /** Java's 32-bit `int`. */
  type Int32 = x: int | -0x8000_0000 <= x < 0x8000_0000

  predicate IsDigit(c: char) {
    '0' <= c <= '9'
  }

  predicate AllDigits(s: string) {
    forall i :: 0 <= i < |s| ==> IsDigit(s[i])
  }

  function DigitChar(d: nat): (c: char)
    requires d < 10
    ensures IsDigit(c) && c as int - '0' as int == d
  {
    ('0' as int + d) as char
  }

  /** The decimal digits of `n`, most significant first, with no leading zero. */
  function NatToString(n: nat): (s: string)
    ensures |s| > 0 && AllDigits(s)
    ensures s[0] == '0' ==> n == 0
    decreases n
  {
    if n < 10 then [DigitChar(n)] else NatToString(n / 10) + [DigitChar(n % 10)]
  }

  /** `String.valueOf(int)`: a minus sign for negative values, then the digits. */
  function IntToString(i: int): (s: string)
    ensures |s| > 0
    ensures s[0] == '-' <==> i < 0
    ensures i >= 0 ==> AllDigits(s)
  {
    if i < 0 then "-" + NatToString(-i) else NatToString(i)
  }

  /** The number a string of decimal digits denotes. */
  function DigitsValue(s: string): (v: nat)
    requires AllDigits(s)
  {
    if s == [] then 0 else DigitsValue(s[..|s| - 1]) * 10 + (s[|s| - 1] as int - '0' as int)
  }

  /**
   * `Integer.parseInt(String)`: an optional sign, then at least one digit, and
   * a value that fits an `int`; `None` stands for its NumberFormatException.
   */
  function ParseInt(s: string): (r: Option<Int32>)
    ensures r.Some? ==> |s| > 0 && (s[0] == '-' || s[0] == '+' || IsDigit(s[0]))
    ensures r.Some? ==> forall k :: 1 <= k < |s| ==> IsDigit(s[k])
    ensures r.Some? && r.value < 0 ==> s[0] == '-'
    ensures r.Some? && (s[0] == '-' || s[0] == '+') ==> |s| > 1
    ensures |s| > 0 && AllDigits(s) && DigitsValue(s) >= 0x8000_0000 ==> r == None
    ensures |s| > 0 && AllDigits(s) && DigitsValue(s) < 0x8000_0000 ==> r == Some(DigitsValue(s))
  {
    if s == [] then None
    else
      var digits := if s[0] == '-' || s[0] == '+' then s[1..] else s;
      if digits == [] || !AllDigits(digits) then None
      else
        var v: int := if s[0] == '-' then -(DigitsValue(digits) as int) else DigitsValue(digits);
        if -0x8000_0000 <= v < 0x8000_0000 then Some(v) else None  // the range of `Int32`
  }

  /** A signed numeral: '+' reads as the value below 2^31, '-' as its negation down to -2^31; otherwise `None`. */
  lemma ParseIntSigned(sign: char, digits: string)
    requires sign == '+' || sign == '-'
    requires |digits| > 0 && AllDigits(digits)
    ensures sign == '+' ==>
              ParseInt([sign] + digits) == if DigitsValue(digits) < 0x8000_0000 then Some(DigitsValue(digits)) else None
    ensures sign == '-' ==>
              ParseInt([sign] + digits)
              == if DigitsValue(digits) <= 0x8000_0000 then Some(-(DigitsValue(digits) as int)) else None
  {
    assert ([sign] + digits)[1..] == digits;
  }

  lemma {:induction false} DigitsValueOfNatToString(n: nat)
    ensures DigitsValue(NatToString(n)) == n
    decreases n
  {
    if n >= 10 {
      var s := NatToString(n / 10);
      DigitsValueOfNatToString(n / 10);
      var t := s + [DigitChar(n % 10)];
      assert t[..|t| - 1] == s;
    }
  }

  /** Reading back what `String.valueOf` wrote gives the same `int`. */
  lemma ParseIntOfIntToString(i: Int32)
    ensures ParseInt(IntToString(i)) == Some(i)
  {
    if i < 0 {
      DigitsValueOfNatToString(-(i as int));
      var s := "-" + NatToString(-(i as int));
      assert s[1..] == NatToString(-(i as int));
    } else {
      DigitsValueOfNatToString(i);
    }
  }

  /** Distinct ids have distinct decimal forms. */
  lemma IntToStringInjective(a: Int32, b: Int32)
    ensures IntToString(a) == IntToString(b) ==> a == b
  {
    ParseIntOfIntToString(a);
    ParseIntOfIntToString(b);
  }
}
