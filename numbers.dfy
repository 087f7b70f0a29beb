/**
 * Decimal parsing and printing of the two integer types the log holds:
 * `u64` ramp ids (`str::parse::<u64>`) and `isize` vped values
 * (`str::parse::<isize>` and `Display`), on a 64-bit target.
 */
module Numbers {
  import opened Wrappers

  const U64_LIMIT: nat := 0x1_0000_0000_0000_0000
  const ISIZE_MIN: int := -0x8000_0000_0000_0000
  const ISIZE_MAX: int := 0x7FFF_FFFF_FFFF_FFFF

  predicate IsDigit(c: char)
  {
    '0' <= c <= '9'
  }

  predicate AllDigits(s: string)
  {
    forall i :: 0 <= i < |s| ==> IsDigit(s[i])
  }

  function DigitValue(c: char): nat
    requires IsDigit(c)
  {
    (c as int) - ('0' as int)
  }

  function Digit(d: nat): (c: char)
    requires d < 10
    ensures IsDigit(c) && DigitValue(c) == d
  {
    ('0' as int + d) as char
  }

  /** The value of a string of decimal digits, most significant first. */
  function DigitsValue(s: string): nat
    requires AllDigits(s)
  {
    if s == [] then 0 else DigitsValue(s[..|s| - 1]) * 10 + DigitValue(s[|s| - 1])
  }

  /** The digits and the sign of a number text: an optional leading `+` or, when `signed`, `-`. */
  function Unsign(s: string, signed: bool): (string, bool)
  {
    if |s| > 0 && s[0] == '+' then (s[1..], false)
    else if signed && |s| > 0 && s[0] == '-' then (s[1..], true)
    else (s, false)
  }

  /**
   * `s.parse::<u64>()`: an optional `+`, then one or more decimal digits
   * whose value fits in 64 bits; anything else (empty text, a lone sign, a
   * `-`, any other character, overflow) is an error.
   */
  function ParseU64(s: string): (r: Option<nat>)
    ensures r.Some? ==> r.value < U64_LIMIT
    ensures r.Some? ==> |s| > 0 && (s[0] == '+' || IsDigit(s[0])) && forall i :: 0 < i < |s| ==> IsDigit(s[i])
  {
    var (digits, _) := Unsign(s, false);
    if digits == [] || !AllDigits(digits) then None
    else
      var v := DigitsValue(digits);
      if v < U64_LIMIT then Some(v) else None
  }

  /**
   * `s.parse::<isize>()` on a 64-bit target: an optional `+` or `-`, then one
   * or more decimal digits whose signed value lies in the `isize` range.
   */
  function ParseIsize(s: string): (r: Option<int>)
    ensures r.Some? ==> ISIZE_MIN <= r.value <= ISIZE_MAX
    ensures r.Some? ==> |s| > 0 && (s[0] in "+-" || IsDigit(s[0])) && forall i :: 0 < i < |s| ==> IsDigit(s[i])
  {
    var (digits, negative) := Unsign(s, true);
    if digits == [] || !AllDigits(digits) then None
    else
      var magnitude: int := DigitsValue(digits);
      var v := if negative then -magnitude else magnitude;
      if ISIZE_MIN <= v <= ISIZE_MAX then Some(v) else None
  }

  /** `Display` of a non-negative integer: its decimal digits, without leading zeros. */
  function NatToString(n: nat): (s: string)
    ensures |s| >= 1 && AllDigits(s)
    ensures |s| > 1 ==> s[0] != '0'
  {
    if n < 10 then [Digit(n)] else NatToString(n / 10) + [Digit(n % 10)]
  }

  /** `Display` of a signed integer: a `-` for negative values, then the digits of the magnitude. */
  function IntToString(i: int): (s: string)
    ensures |s| >= 1 && IsDigit(s[|s| - 1])
    ensures s[0] == '-' <==> i < 0
    ensures var d := if i < 0 then s[1..] else s;
      && d != [] && AllDigits(d) && (|d| > 1 ==> d[0] != '0')
      && DigitsValue(d) == if i < 0 then -i else i
  {
    if i < 0 then
      DigitsValueNatToString(-i);
      var s := "-" + NatToString(-i);
      assert s[1..] == NatToString(-i);
      s
    else
      DigitsValueNatToString(i);
      NatToString(i)
  }

  /** Reading back the digits `NatToString` prints gives the number. */
  lemma {:induction false} DigitsValueNatToString(n: nat)
    ensures DigitsValue(NatToString(n)) == n
  {
    var s := NatToString(n);
    if n >= 10 {
      DigitsValueNatToString(n / 10);
      assert s[..|s| - 1] == NatToString(n / 10);
    }
  }

  /** Parsing a printed `u64` gives it back. */
  lemma ParseU64NatToString(n: nat)
    requires n < U64_LIMIT
    ensures ParseU64(NatToString(n)) == Some(n)
  {
    DigitsValueNatToString(n);
  }

  /** Parsing a printed `isize` gives it back. */
  lemma ParseIsizeIntToString(i: int)
    requires ISIZE_MIN <= i <= ISIZE_MAX
    ensures ParseIsize(IntToString(i)) == Some(i)
  {
    var s := IntToString(i);
    if i < 0 {
      DigitsValueNatToString(-i);
      assert s[1..] == NatToString(-i);
    } else {
      DigitsValueNatToString(i);
    }
  }

  /** A printed number is a single field: it holds no comma, space or newline. */
  lemma IntToStringPlain(i: int)
    ensures ',' !in IntToString(i) && ' ' !in IntToString(i) && '\n' !in IntToString(i)
  {
    var s := IntToString(i);
    var d := if i < 0 then NatToString(-i) else NatToString(i);
    assert forall k :: 0 <= k < |d| ==> d[k] != ',' && d[k] != ' ' && d[k] != '\n';
  }
}
