/**
 * Rust's fixed-width integers and the standard-library conversions between
 * integers and their decimal text that the modelled code relies on:
 * `to_string` / `{}` on unsigned integers, `str::parse::<u8>` with its
 * error kinds, and the truncating `%` on signed integers.
 */
module Numbers {
  import opened Wrappers

  type u8 = x: int | 0 <= x < 0x100
  type u32 = x: int | 0 <= x < 0x1_0000_0000
  type u64 = x: int | 0 <= x < 0x1_0000_0000_0000_0000
  type i32 = x: int | -0x8000_0000 <= x < 0x8000_0000

  const U8_MAX: int := 0xff
  const U32_MAX: int := 0xffff_ffff
  const I32_MIN: int := -0x8000_0000
  const I32_MAX: int := 0x7fff_ffff

  predicate InI32(x: int) { I32_MIN <= x <= I32_MAX }

  // ---------------------------------------------------------------------
  // Decimal digits
  // ---------------------------------------------------------------------

  predicate IsDigit(c: char) { '0' <= c <= '9' }

  predicate AllDigits(s: string) { forall i :: 0 <= i < |s| ==> IsDigit(s[i]) }

  function DigitValue(c: char): (d: nat)
    requires IsDigit(c)
    ensures d < 10
  {
    (c as int) - ('0' as int)
  }

  function DigitChar(d: nat): (c: char)
    requires d < 10
    ensures IsDigit(c) && DigitValue(c) == d
  {
    (('0' as int) + d) as char
  }

  /** The number a string of decimal digits denotes, most significant digit first. */
  function DigitsValue(s: string): nat
    requires AllDigits(s)
  {
    if s == [] then 0 else DigitsValue(s[..|s| - 1]) * 10 + DigitValue(s[|s| - 1])
  }

  /**
   * Decimal text of a non-negative integer, as Rust renders an unsigned
   * integer with `to_string` or `{}`: at least one digit, no sign and no
   * leading zero.
   */
  function NatToString(n: nat): (s: string)
    ensures |s| > 0 && AllDigits(s)
    ensures |s| > 1 ==> s[0] != '0'
  {
    if n < 10 then [DigitChar(n)] else NatToString(n / 10) + [DigitChar(n % 10)]
  }

  /** Reading the decimal text back gives the number. */
  lemma {:induction false} NatToStringValue(n: nat)
    ensures DigitsValue(NatToString(n)) == n
  {
    if n >= 10 {
      NatToStringValue(n / 10);
      var s := NatToString(n);
      assert s[..|s| - 1] == NatToString(n / 10);
    }
  }

  /** Distinct numbers have distinct decimal texts. */
  lemma NatToStringInjective(a: nat, b: nat)
    requires NatToString(a) == NatToString(b)
    ensures a == b
  {
    NatToStringValue(a);
    NatToStringValue(b);
  }

  /** Decimal text of a signed integer, as `{}` and `{:?}` render an `i32`. */
  function IntToString(n: int): string
  {
    if n < 0 then "-" + NatToString(-n) else NatToString(n)
  }

  // ---------------------------------------------------------------------
  // `str::parse::<u8>`
  // ---------------------------------------------------------------------

  /** The kinds of `ParseIntError` that parsing a `u8` can produce. */
  datatype IntErrorKind = Empty | InvalidDigit | PosOverflow

  /** The `Display` text of a `ParseIntError` of each kind. */
  function IntErrorMessage(kind: IntErrorKind): string
  {
    match kind
    case Empty => "cannot parse integer from empty string"
    case InvalidDigit => "invalid digit found in string"
    case PosOverflow => "number too large to fit in target type"
  }

  /**
   * Left-to-right accumulation of digits onto `acc`, without a width bound:
   * the value the scanner below is computing.
   */
  function Accumulate(acc: nat, ds: string): nat
    requires AllDigits(ds)
    decreases |ds|
  {
    if ds == [] then acc else Accumulate(acc * 10 + DigitValue(ds[0]), ds[1..])
  }

  lemma {:induction false} AccumulateGrows(acc: nat, ds: string)
    requires AllDigits(ds)
    ensures Accumulate(acc, ds) >= acc
    decreases |ds|
  {
    if ds != [] {
      AccumulateGrows(acc * 10 + DigitValue(ds[0]), ds[1..]);
    }
  }

  lemma {:induction false} AccumulateSnoc(acc: nat, ds: string, c: char)
    requires AllDigits(ds) && IsDigit(c)
    ensures AllDigits(ds + [c])
    ensures Accumulate(acc, ds + [c]) == Accumulate(acc, ds) * 10 + DigitValue(c)
    decreases |ds|
  {
    if ds != [] {
      assert (ds + [c])[1..] == ds[1..] + [c];
      AccumulateSnoc(acc * 10 + DigitValue(ds[0]), ds[1..], c);
    }
  }

  /** Accumulating from zero reads a digit string as its decimal value. */
  lemma {:induction false} AccumulateFromZero(ds: string)
    requires AllDigits(ds)
    ensures Accumulate(0, ds) == DigitsValue(ds)
    decreases |ds|
  {
    if ds != [] {
      var init := ds[..|ds| - 1];
      AccumulateFromZero(init);
      AccumulateSnoc(0, init, ds[|ds| - 1]);
      assert init + [ds[|ds| - 1]] == ds;
    }
  }

  /**
   * The digit loop of the standard library's integer parser for `u8`: each
   * character is first checked to be a digit, then the accumulated value is
   * checked against 255.
   */
  function ScanU8(ds: string, acc: u8): (r: Result<u8, IntErrorKind>)
    ensures r != Err(Empty)
    ensures !AllDigits(ds) ==> r.Err?
    ensures AllDigits(ds) ==> (r.Ok? <==> Accumulate(acc, ds) <= U8_MAX)
    ensures AllDigits(ds) && r.Ok? ==> r.value == Accumulate(acc, ds)
    ensures AllDigits(ds) && r.Err? ==> r.error == PosOverflow
    decreases |ds|
  {
    if ds == [] then Ok(acc)
    else if !IsDigit(ds[0]) then Err(InvalidDigit)
    else if acc * 10 + DigitValue(ds[0]) > U8_MAX then
      AccumulateGrowsIfDigits(acc * 10 + DigitValue(ds[0]), ds[1..]);
      Err(PosOverflow)
    else
      ScanU8(ds[1..], acc * 10 + DigitValue(ds[0]))
  }

  lemma AccumulateGrowsIfDigits(acc: nat, ds: string)
    ensures AllDigits(ds) ==> Accumulate(acc, ds) >= acc
  {
    if AllDigits(ds) {
      AccumulateGrows(acc, ds);
    }
  }

  lemma DigitsAccumulateFromZero(ds: string)
    ensures AllDigits(ds) ==> Accumulate(0, ds) == DigitsValue(ds)
  {
    if AllDigits(ds) {
      AccumulateFromZero(ds);
    }
  }

  /** The digits that follow an optional leading '+'. */
  function Unsigned(s: string): string
  {
    if |s| > 0 && s[0] == '+' then s[1..] else s
  }

  /**
   * `s.parse::<u8>()`: an empty string is `Empty`; a lone sign is
   * `InvalidDigit`; one leading '+' is accepted ('-' is not, for an unsigned
   * type); then the remaining characters are scanned as digits.
   */
  function ParseU8(s: string): (r: Result<u8, IntErrorKind>)
    ensures r.Ok? <==> |Unsigned(s)| > 0 && AllDigits(Unsigned(s)) && DigitsValue(Unsigned(s)) <= U8_MAX
    ensures r.Ok? ==> r.value == DigitsValue(Unsigned(s))
    ensures s == [] <==> r == Err(Empty)
  {
    if s == [] then Err(Empty)
    else if (s[0] == '+' || s[0] == '-') && |s| == 1 then Err(InvalidDigit)
    else
      var ds := if s[0] == '+' then s[1..] else s;
      DigitsAccumulateFromZero(ds);
      ScanU8(ds, 0)
  }

  /** Every `u8` survives the trip through its decimal text. */
  lemma ParseU8RoundTrip(a: u8)
    ensures ParseU8(NatToString(a)) == Ok(a)
  {
    var s := NatToString(a);
    assert s[0] != '+' by { assert IsDigit(s[0]); }
    NatToStringValue(a);
  }

  // ---------------------------------------------------------------------
  // Rust's `%` on signed integers
  // ---------------------------------------------------------------------

  /**
   * Rust's remainder truncates toward zero, so it takes the sign of the
   * dividend (Dafny's `%` is Euclidean and never negative).
   */
  function TruncRem(a: int, b: int): (r: int)
    requires b > 0
    ensures a >= 0 ==> 0 <= r < b
    ensures a < 0 ==> -b < r <= 0
  {
    if a >= 0 then a % b else -((-a) % b)
  }

  /**
   * An `i32` is odd in Rust's sense (`n % 2 != 0`) exactly when Dafny's
   * Euclidean remainder is 1; negative odd numbers included.
   */
  lemma TruncRemTwo(n: int)
    ensures TruncRem(n, 2) != 0 <==> n % 2 == 1
    ensures n < 0 && n % 2 == 1 ==> TruncRem(n, 2) == -1
  {
  }
}
