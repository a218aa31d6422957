/**
 * JavaScript numbers, as far as the sanitisation code uses them: truthiness,
 * `Math.floor`, `Math.max(0, _)`, the `>= 0` comparison, and the two
 * conversions between numbers and decimal-integer strings.
 *
 * A number is modelled by its mathematical value, or one of the three
 * non-finite doubles. Rounding to 53-bit precision is not modelled; where a
 * conversion depends on it the model is exact only up to 2^53.
 */
module JsNumber {

  datatype Num = Finite(r: real) | NaN | PosInf | NegInf

  /** 2^53: every integer of at most this magnitude is exactly a double. */
  const MaxSafeMagnitude: int := 0x20_0000_0000_0000

  predicate IsInteger(x: real) {
    x.Floor as real == x
  }

  /** A finite, integral, non-negative number. */
  predicate IsNonNegativeInteger(n: Num) {
    n.Finite? && n.r >= 0.0 && IsInteger(n.r)
  }

  /** ToBoolean of a number: false exactly for +0, -0 and NaN. */
  predicate NumberToBoolean(n: Num) {
    match n
    case Finite(x) => x != 0.0
    case NaN => false
    case _ => true
  }

  /** The comparison `n >= 0`: false for NaN and for -Infinity. */
  predicate AtLeastZero(n: Num) {
    match n
    case Finite(x) => x >= 0.0
    case PosInf => true
    case _ => false
  }

  /** `Math.floor(n)`: the greatest integer not above a finite `n`; non-finite values are returned as they are. */
  function Floor(n: Num): (r: Num)
    ensures n.Finite? ==> r.Finite? && IsInteger(r.r) && r.r <= n.r < r.r + 1.0
    ensures !n.Finite? ==> r == n
  {
    match n
    case Finite(x) => Finite(x.Floor as real)
    case _ => n
  }

  /** `Math.max(0, n)`: NaN if `n` is NaN, otherwise the least number that is `>= 0` and `>= n`. */
  function MaxZero(n: Num): (r: Num)
    ensures n.NaN? <==> r.NaN?
    ensures !n.NaN? ==> AtLeastZero(r)
    ensures AtLeastZero(n) ==> r == n
    ensures !n.NaN? && !AtLeastZero(n) ==> r == Finite(0.0)
  {
    match n
    case Finite(x) => if x >= 0.0 then n else Finite(0.0)
    case NegInf => Finite(0.0)
    case _ => n
  }

  /** `n || 0` where `n` is a number: falsy numbers (zeros and NaN) become 0. */
  function OrZero(n: Num): (r: Num)
    ensures !r.NaN?
    ensures r == n || r == Finite(0.0)
    ensures NumberToBoolean(r) <==> NumberToBoolean(n)
  {
    if NumberToBoolean(n) then n else Finite(0.0)
  }

  /**
   * `Math.max(0, Math.floor(x || 0))` where `x` is the number `n`: the numeric
   * normalisation that the backup sanitiser applies to every counter.
   * The result is a non-negative integer, unless `n` is +Infinity, which
   * survives both `Math.floor` and `Math.max`.
   */
  function ToNonNegativeInt(n: Num): (r: Num)
    ensures IsNonNegativeInteger(r) || r == PosInf
    ensures r == PosInf <==> n == PosInf
    ensures n.Finite? && n.r >= 0.0 ==> r == Finite(n.r.Floor as real)
    ensures n.NaN? || n.NegInf? || (n.Finite? && n.r < 0.0) ==> r == Finite(0.0)
  {
    MaxZero(Floor(OrZero(n)))
  }

  /** Normalising a normalised number changes nothing. */
  lemma ToNonNegativeIntIdempotent(n: Num)
    ensures ToNonNegativeInt(ToNonNegativeInt(n)) == ToNonNegativeInt(n)
  {
  }

  // ---------------------------------------------------------------------
  // Decimal integer strings
  // ---------------------------------------------------------------------

  predicate IsDigit(c: char) {
    '0' <= c <= '9'
  }

  predicate AllDigits(s: string) {
    forall i :: 0 <= i < |s| ==> IsDigit(s[i])
  }

  function DigitChar(d: nat): (c: char)
    requires d < 10
    ensures IsDigit(c) && c as int - '0' as int == d
  {
    ('0' as int + d) as char
  }

  /** The value of a string of decimal digits, most significant first. */
  function DigitsValue(s: string): nat
    requires AllDigits(s)
  {
    if s == [] then 0
    else 10 * DigitsValue(s[..|s| - 1]) + (s[|s| - 1] as int - '0' as int)
  }

  /** The shortest decimal spelling of `n`: no leading zero except for 0 itself. */
  function NatToDecimal(n: nat): (s: string)
    ensures |s| > 0 && AllDigits(s)
    ensures s[0] == '0' ==> n == 0
    decreases n
  {
    if n < 10 then [DigitChar(n)] else NatToDecimal(n / 10) + [DigitChar(n % 10)]
  }

  /** `-` followed by the digits for a negative integer, the digits alone otherwise. */
  function IntToDecimal(k: int): string {
    if k < 0 then "-" + NatToDecimal(-k) else NatToDecimal(k)
  }

  /** An optionally negated, non-empty run of decimal digits. */
  predicate IsDecimalIntegerLiteral(s: string) {
    (|s| > 0 && AllDigits(s)) || (|s| > 1 && s[0] == '-' && AllDigits(s[1..]))
  }

  function DecimalIntegerValue(s: string): int
    requires IsDecimalIntegerLiteral(s)
  {
    if AllDigits(s) && |s| > 0 then DigitsValue(s) else -(DigitsValue(s[1..]) as int)
  }

  /**
   * `Number(s)` for a string `s` (StringToNumber). The model decodes decimal
   * integer literals of magnitude at most 2^53 itself, which are exact; every
   * other string (white space, signs, fractions, exponents, hexadecimal,
   * "Infinity", the empty string) is decoded by `other`, the host's
   * conversion.
   */
  function StringToNumber(s: string, other: string -> Num): (r: Num)
    ensures IsDecimalIntegerLiteral(s) && -MaxSafeMagnitude <= DecimalIntegerValue(s) <= MaxSafeMagnitude
            ==> r == Finite(DecimalIntegerValue(s) as real)
  {
    if IsDecimalIntegerLiteral(s) && -MaxSafeMagnitude <= DecimalIntegerValue(s) <= MaxSafeMagnitude
    then Finite(DecimalIntegerValue(s) as real)
    else other(s)
  }

  /**
   * `String(n)` / `${n}` (Number::toString). Integers of magnitude at most
   * 2^53 are spelt out in decimal; non-integral and larger finite values are
   * formatted by `other`, the host's conversion.
   */
  function NumberToString(n: Num, other: real -> string): (s: string)
    ensures n.Finite? && IsInteger(n.r) && -MaxSafeMagnitude as real <= n.r <= MaxSafeMagnitude as real
            ==> IsDecimalIntegerLiteral(s) && DecimalIntegerValue(s) as real == n.r
  {
    match n
    case NaN => "NaN"
    case PosInf => "Infinity"
    case NegInf => "-Infinity"
    case Finite(x) =>
      if IsInteger(x) && -MaxSafeMagnitude as real <= x <= MaxSafeMagnitude as real
      then IntToDecimalRoundTrip(x.Floor); IntToDecimal(x.Floor)
      else other(x)
  }

  lemma {:induction false} DigitsValueAppend(s: string, d: nat)
    requires AllDigits(s) && d < 10
    ensures AllDigits(s + [DigitChar(d)])
    ensures DigitsValue(s + [DigitChar(d)]) == 10 * DigitsValue(s) + d
  {
    var t := s + [DigitChar(d)];
    assert t[..|t| - 1] == s;
  }

  /** Reading back the decimal spelling of a natural number gives the number. */
  lemma {:induction false} NatToDecimalRoundTrip(n: nat)
    ensures DigitsValue(NatToDecimal(n)) == n
    decreases n
  {
    if n < 10 {
      var s := NatToDecimal(n);
      assert s[..|s| - 1] == [];
    } else {
      NatToDecimalRoundTrip(n / 10);
      DigitsValueAppend(NatToDecimal(n / 10), n % 10);
    }
  }

  /** The decimal spelling of an integer is a decimal integer literal whose value is that integer. */
  lemma IntToDecimalRoundTrip(k: int)
    ensures IsDecimalIntegerLiteral(IntToDecimal(k))
    ensures DecimalIntegerValue(IntToDecimal(k)) == k
  {
    if k < 0 {
      var s := IntToDecimal(k);
      assert s[1..] == NatToDecimal(-k);
      assert !AllDigits(s) by { assert !IsDigit(s[0]); }
      NatToDecimalRoundTrip(-k);
    } else {
      NatToDecimalRoundTrip(k);
    }
  }

  /**
   * `Number(String(n))` is `n` for every integer `n` of magnitude at most
   * 2^53, whatever the host does with other strings and numbers.
   */
  lemma IntegerStringRoundTrip(k: int, toString: real -> string, toNumber: string -> Num)
    requires -MaxSafeMagnitude <= k <= MaxSafeMagnitude
    ensures StringToNumber(NumberToString(Finite(k as real), toString), toNumber) == Finite(k as real)
  {
    assert IsInteger(k as real);
  }
}
