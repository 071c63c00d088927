/** Decimal text for 32-bit signed integers: `i32::to_string` (used for the
    `--dpi` argument) and `str::parse::<i32>` (used for box coordinates). */
module Decimal {
  import opened Wrappers

  const I32_MIN: int := -0x8000_0000
  const I32_MAX: int := 0x7fff_ffff

  /** Rust's `i32`. */
  type Int32 = x: int | I32_MIN <= x <= I32_MAX

  predicate IsDigit(ch: char) { '0' <= ch <= '9' }

  predicate AllDigits(s: string) { forall ch <- s :: IsDigit(ch) }

  function DigitChar(d: nat): (ch: char)
    requires d < 10
    ensures IsDigit(ch)
  {
    ('0' as int + d) as char
  }

  /** The decimal digits of `n`, most significant first, without leading zeros. */
  function NatToDecimal(n: nat): (s: string)
    ensures |s| >= 1 && AllDigits(s)
    ensures '-' !in s && '+' !in s && ' ' !in s
  {
    if n < 10 then [DigitChar(n)] else NatToDecimal(n / 10) + [DigitChar(n % 10)]
  }

  /** The value of a string of decimal digits, read left to right. */
  function DigitsValue(s: string): nat
    requires AllDigits(s)
  {
    if s == [] then 0
    else
      var last := s[|s| - 1];
      assert last in s;
      DigitsValue(s[..|s| - 1]) * 10 + (last as int - '0' as int)
  }

  /** `i.to_string()`: a `-` for negative values, then the digits of |i|. */
  function IntToDecimal(i: int): (s: string)
    ensures |s| >= 1 && ' ' !in s && '\n' !in s && '\r' !in s
  {
    if i < 0 then "-" + NatToDecimal(-i) else NatToDecimal(i)
  }

  /** `s.parse::<i32>()`: an optional `+` or `-`, then at least one ASCII
      digit and nothing else; values outside the `i32` range are rejected. */
  function ParseI32(s: string): (r: Option<Int32>)
    ensures s == [] ==> r == None
  {
    if s == [] then None
    else
      var signed := s[0] == '+' || s[0] == '-';
      var digits := if signed then s[1..] else s;
      if digits == [] || !AllDigits(digits) then None
      else
        var magnitude: int := DigitsValue(digits);
        var v: int := if s[0] == '-' then -magnitude else magnitude;
        if I32_MIN <= v <= I32_MAX then Some(v) else None
  }

  /** Reading back the digits of `n` gives `n`. */
  lemma {:induction false} DigitsOfDecimal(n: nat)
    ensures DigitsValue(NatToDecimal(n)) == n
  {
    if n >= 10 {
      var s := NatToDecimal(n);
      assert s[..|s| - 1] == NatToDecimal(n / 10);
      DigitsOfDecimal(n / 10);
    }
  }

  /** Every `i32` survives `to_string` followed by `parse::<i32>`. */
  lemma ParseOfDecimal(i: Int32)
    ensures ParseI32(IntToDecimal(i)) == Some(i)
  {
    var s := IntToDecimal(i);
    var n: int := i;
    if n < 0 {
      assert s[1..] == NatToDecimal(-n);
      DigitsOfDecimal(-n);
    } else {
      DigitsOfDecimal(i);
      assert s[0] != '+' && s[0] != '-' by { assert s[0] in s; }
    }
  }

  /** The decimal texts of `vs`, in order. */
  function Decimals(vs: seq<Int32>): (ts: seq<string>)
    ensures |ts| == |vs|
    ensures forall k :: 0 <= k < |vs| ==> ts[k] == IntToDecimal(vs[k])
  {
    if vs == [] then [] else Decimals(vs[..|vs| - 1]) + [IntToDecimal(vs[|vs| - 1])]
  }
}
