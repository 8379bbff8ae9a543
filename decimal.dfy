/** Decimal numerals: the integer formatting that `format!("{}", n)` performs
    and the parser behind `str::parse::<u16>`. */
module Decimal {

  datatype Option<T> = None | Some(value: T)

  /** Rust's `u16`. */
  newtype u16 = x: int | 0 <= x < 0x1_0000

  const U16Max: nat := 0xFFFF

  predicate IsDigit(c: char) {
    '0' <= c <= '9'
  }

  predicate AllDigits(s: string) {
    forall i :: 0 <= i < |s| ==> IsDigit(s[i])
  }

  function DigitChar(d: nat): (c: char)
    requires d < 10
    ensures IsDigit(c) && c as int - '0' as int == d
  {
    ('0' as int + d) as char
  }

  /** The canonical decimal numeral of `n`: no sign, no leading zeros. */
  function ToDecimal(n: nat): (s: string)
    ensures |s| >= 1 && AllDigits(s)
    ensures s[0] == '0' ==> n == 0 && |s| == 1
    decreases n
  {
    if n < 10 then [DigitChar(n)] else ToDecimal(n / 10) + [DigitChar(n % 10)]
  }

  /** The value of a string of decimal digits, most significant first. */
  function DigitsValue(s: string): (v: nat)
    requires AllDigits(s)
  {
    if s == [] then 0
    else DigitsValue(s[..|s| - 1]) * 10 + (s[|s| - 1] as int - '0' as int)
  }

  lemma {:induction false} DigitsValueOfDecimal(n: nat)
    ensures DigitsValue(ToDecimal(n)) == n
    decreases n
  {
    if n >= 10 {
      var s := ToDecimal(n);
      assert s[..|s| - 1] == ToDecimal(n / 10);
      DigitsValueOfDecimal(n / 10);
    }
  }

  /** Distinct numbers have distinct numerals. */
  lemma DecimalInjective(m: nat, n: nat)
    requires ToDecimal(m) == ToDecimal(n)
    ensures m == n
  {
    DigitsValueOfDecimal(m);
    DigitsValueOfDecimal(n);
  }

  lemma {:induction false} DigitsValueLeadingZero(s: string)
    requires AllDigits(s)
    ensures AllDigits("0" + s) && DigitsValue("0" + s) == DigitsValue(s)
    decreases |s|
  {
    if s != [] {
      var t := "0" + s;
      assert t[..|t| - 1] == "0" + s[..|s| - 1];
      DigitsValueLeadingZero(s[..|s| - 1]);
    }
  }

  /** The digits that `str::parse` reads: one leading `+` is skipped when
      something follows it. */
  function Unsigned(s: string): (d: string)
    ensures |d| <= |s| && s[|s| - |d|..] == d
  {
    if |s| > 1 && s[0] == '+' then s[1..] else s
  }

  /** `s.parse::<u16>()`: `None` for an empty string, a non-digit (a lone or
      second sign, a minus sign included) or a value above 65535; leading zeros are
      accepted. */
  function ParseU16(s: string): (r: Option<u16>)
    ensures r.Some? <==>
              && s != [] && (IsDigit(s[0]) || (s[0] == '+' && |s| > 1))
              && (forall i :: 0 < i < |s| ==> IsDigit(s[i]))
              && AllDigits(Unsigned(s)) && DigitsValue(Unsigned(s)) <= U16Max
    ensures r.Some? ==> r.value as nat == DigitsValue(Unsigned(s))
  {
    var digits := Unsigned(s);
    if digits != [] && AllDigits(digits) && DigitsValue(digits) <= U16Max then
      Some(DigitsValue(digits) as u16)
    else
      None
  }

  /** Every `u16` survives formatting and parsing. */
  lemma ParseDecimal(n: u16)
    ensures ParseU16(ToDecimal(n as nat)) == Some(n)
  {
    DigitsValueOfDecimal(n as nat);
  }

  /** A leading `+` is accepted. */
  lemma ParsePlusDecimal(n: u16)
    ensures ParseU16("+" + ToDecimal(n as nat)) == Some(n)
  {
    var s := "+" + ToDecimal(n as nat);
    assert Unsigned(s) == ToDecimal(n as nat);
    DigitsValueOfDecimal(n as nat);
  }

  /** Numbers beyond the `u16` range are rejected. */
  lemma ParseOverflow(n: nat)
    requires n > U16Max
    ensures ParseU16(ToDecimal(n)) == None
  {
    DigitsValueOfDecimal(n);
  }

  /** Leading zeros do not change the parsed value. */
  lemma ParseLeadingZero(s: string)
    requires s != [] && AllDigits(s)
    ensures ParseU16("0" + s) == ParseU16(s)
  {
    DigitsValueLeadingZero(s);
  }

  lemma {:induction false} DigitsValueLeadingZeros(k: nat, s: string)
    requires AllDigits(s)
    ensures AllDigits(seq(k, _ => '0') + s)
    ensures DigitsValue(seq(k, _ => '0') + s) == DigitsValue(s)
    decreases k
  {
    if k == 0 {
      assert seq(k, _ => '0') + s == s;
    } else {
      var z := seq(k - 1, _ => '0');
      assert seq(k, _ => '0') == "0" + z;
      assert seq(k, _ => '0') + s == "0" + (z + s);
      DigitsValueLeadingZeros(k - 1, s);
      DigitsValueLeadingZero(z + s);
    }
  }

  /** Every spelling of a `u16` that `str::parse` accepts: an optional `+`,
      any number of leading zeros, then the numeral. */
  lemma ParseAnySpelling(plus: bool, k: nat, n: u16)
    ensures ParseU16((if plus then "+" else "") + seq(k, _ => '0') + ToDecimal(n as nat)) == Some(n)
  {
    var d := seq(k, _ => '0') + ToDecimal(n as nat);
    DigitsValueLeadingZeros(k, ToDecimal(n as nat));
    DigitsValueOfDecimal(n as nat);
    var s := (if plus then "+" else "") + seq(k, _ => '0') + ToDecimal(n as nat);
    if plus {
      assert s == "+" + d;
      assert Unsigned(s) == d;
    } else {
      assert s == d;
      assert IsDigit(d[0]);
    }
  }

  /** A minus sign is never accepted (the type is unsigned). */
  lemma ParseRejectsMinus(s: string)
    requires s != [] && s[0] == '-'
    ensures ParseU16(s) == None
  {
  }
}
