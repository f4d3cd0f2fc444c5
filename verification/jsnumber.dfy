/** `parseFloat` of ECMAScript, over exact reals: leading white space is
    skipped, then the longest prefix that reads as a decimal literal (an
    optional sign, then `Infinity` or digits with an optional fraction and an
    optional exponent) gives the value; with no such prefix the result is
    NaN. */
module JsNumber {
  import opened Text

  /** The values `parseFloat` can return. Finite values are exact reals:
      rounding to binary64, overflow to Infinity and underflow to zero are
      not modelled. */
  datatype Number = NaN | PosInfinity | NegInfinity | Finite(value: real)

  /** The comparison `n <= 0` of JavaScript: false when `n` is NaN. */
  predicate AtMostZero(n: Number) {
    match n
    case NaN => false
    case PosInfinity => false
    case NegInfinity => true
    case Finite(v) => v <= 0.0
  }

  function DigitValue(c: char): (v: nat)
    requires IsDigit(c)
    ensures v <= 9
    ensures v == 0 <==> c == '0'
  {
    c as int - '0' as int
  }

  /** The maximal run of digits at the start of `s`. */
  function LeadingDigits(s: string): (r: string)
    ensures |r| <= |s| && r == s[..|r|]
    ensures forall i | 0 <= i < |r| :: IsDigit(r[i])
    ensures |r| < |s| ==> !IsDigit(s[|r|])
  {
    if |s| > 0 && IsDigit(s[0]) then [s[0]] + LeadingDigits(s[1..]) else []
  }

  /** Every character of `ds` is the digit `0`; true of the empty string. */
  predicate AllZeros(ds: string) {
    forall i | 0 <= i < |ds| :: ds[i] == '0'
  }

  /** The value of a run of decimal digits; it is zero exactly when every
      digit is `0`. */
  function DigitsValue(ds: string): (v: nat)
    requires forall i | 0 <= i < |ds| :: IsDigit(ds[i])
    ensures v == 0 <==> forall i | 0 <= i < |ds| :: ds[i] == '0'
  {
    if ds == [] then 0
    else
      var init := ds[..|ds| - 1];
      var v := DigitsValue(init) * 10 + DigitValue(ds[|ds| - 1]);
      assert (forall i | 0 <= i < |ds| :: ds[i] == '0')
         <==> (forall i | 0 <= i < |init| :: init[i] == '0') && ds[|ds| - 1] == '0';
      v
  }

  function Pow10(n: nat): (r: real)
    ensures r >= 1.0
  {
    if n == 0 then 1.0 else 10.0 * Pow10(n - 1)
  }

  /** The factor `10^e` for an integer exponent. */
  function Scale(e: int): (r: real)
    ensures r > 0.0
  {
    if e >= 0 then Pow10(e) else 1.0 / Pow10(-e)
  }

  /** The exponent of an ExponentPart (`e` or `E`, an optional sign, at least
      one digit) at the start of `s`, or 0 when there is none: an incomplete
      exponent is not part of the longest numeric prefix. */
  function Exponent(s: string): int {
    if |s| >= 2 && (s[0] == 'e' || s[0] == 'E') then
      var signed := s[1] == '+' || s[1] == '-';
      var ds := LeadingDigits(s[if signed then 2 else 1..]);
      if ds == [] then 0
      else if s[1] == '-' then -(DigitsValue(ds) as int)
      else DigitsValue(ds)
    else 0
  }

  /** The trimmed input starts with a minus sign. */
  predicate HasMinus(s: string) {
    var t := TrimStart(s);
    |t| > 0 && t[0] == '-'
  }

  /** The trimmed input without its sign, if it has one. */
  function Unsigned(s: string): string {
    var t := TrimStart(s);
    if |t| > 0 && (t[0] == '+' || t[0] == '-') then t[1..] else t
  }

  predicate StartsWithInfinity(u: string) {
    |u| >= 8 && u[..8] == "Infinity"
  }

  /** `u` begins with some decimal literal: `Infinity`, a digit, or a point
      followed by a digit. */
  predicate StartsNumeric(u: string) {
    || StartsWithInfinity(u)
    || (|u| > 0 && IsDigit(u[0]))
    || (|u| > 1 && u[0] == '.' && IsDigit(u[1]))
  }

  /** The value of the digits before and after the decimal point; it is
      zero exactly when all of them are `0`. */
  function Mantissa(whole: string, frac: string): (m: real)
    requires forall i | 0 <= i < |whole| :: IsDigit(whole[i])
    requires forall i | 0 <= i < |frac| :: IsDigit(frac[i])
    ensures m >= 0.0
    ensures m == 0.0 <==> AllZeros(whole) && AllZeros(frac)
  {
    var w := DigitsValue(whole) as real;
    var f := DigitsValue(frac) as real;
    QuotientZero(f, Pow10(|frac|));
    w + f / Pow10(|frac|)
  }

  /** A non-negative quotient by a positive divisor is non-negative, and
      zero exactly when the dividend is. */
  lemma QuotientZero(a: real, b: real)
    requires a >= 0.0 && b > 0.0
    ensures a / b >= 0.0
    ensures a / b == 0.0 <==> a == 0.0
  {
    if a / b == 0.0 {
      assert a == (a / b) * b;
    }
  }

  /** The fraction digits after the decimal point at the start of `rest`,
      or none when `rest` does not start with a point. */
  function FractionDigits(rest: string): (frac: string)
    ensures forall i | 0 <= i < |frac| :: IsDigit(frac[i])
    ensures frac != [] ==> |rest| > 1 && rest[0] == '.' && frac == LeadingDigits(rest[1..])
  {
    if |rest| > 0 && rest[0] == '.' then LeadingDigits(rest[1..]) else []
  }

  /** All digits of the literal at the start of `u`, before and after the
      point, are `0`. */
  predicate ZeroMantissa(u: string) {
    var whole := LeadingDigits(u);
    AllZeros(whole) && AllZeros(FractionDigits(u[|whole|..]))
  }

  /** The value of the longest unsigned decimal literal at the start of `u`. */
  function ParseUnsigned(u: string): (r: Number)
    ensures r.NaN? <==> !StartsNumeric(u)
    ensures r.PosInfinity? <==> StartsWithInfinity(u)
    ensures !r.NegInfinity? && (r.Finite? ==> r.value >= 0.0)
    ensures r.Finite? ==> (r.value == 0.0 <==> ZeroMantissa(u))
  {
    if StartsWithInfinity(u) then PosInfinity
    else
      var whole := LeadingDigits(u);
      ParseFraction(whole, u[|whole|..])
  }

  /** The value of a literal whose integer digits are `whole` and whose
      remaining text is `rest`: an optional `.` with fraction digits, then an
      optional exponent. */
  function ParseFraction(whole: string, rest: string): (r: Number)
    requires forall i | 0 <= i < |whole| :: IsDigit(whole[i])
    ensures r.NaN? <==> whole == [] && !(|rest| > 1 && rest[0] == '.' && IsDigit(rest[1]))
    ensures r.Finite? || r.NaN?
    ensures r.Finite? ==> r.value >= 0.0
    ensures r.Finite? ==> (r.value == 0.0 <==> AllZeros(whole) && AllZeros(FractionDigits(rest)))
  {
    var hasPoint := |rest| > 0 && rest[0] == '.';
    var frac := FractionDigits(rest);
    if whole == [] && frac == [] then NaN
    else
      var tail := if hasPoint then rest[1 + |frac|..] else rest;
      Finite(Scaled(Mantissa(whole, frac), Exponent(tail)))
  }

  /** `m * 10^e`: scaling keeps the sign and does not reach zero. */
  function Scaled(m: real, e: int): (v: real)
    requires m >= 0.0
    ensures v >= 0.0
    ensures v == 0.0 <==> m == 0.0
  {
    ProductZero(m, Scale(e));
    m * Scale(e)
  }

  /** A non-negative multiple of a positive factor is non-negative, and zero
      exactly when the multiple is. */
  lemma ProductZero(a: real, b: real)
    requires a >= 0.0 && b > 0.0
    ensures a * b >= 0.0
    ensures a * b == 0.0 <==> a == 0.0
  {
  }

  /** `-n`. */
  function Negate(n: Number): Number {
    match n
    case NaN => NaN
    case PosInfinity => NegInfinity
    case NegInfinity => PosInfinity
    case Finite(v) => Finite(-v)
  }

  /** `parseFloat(s)`. */
  function ParseFloat(s: string): (r: Number)
    ensures r.NaN? <==> !StartsNumeric(Unsigned(s))
    ensures r.PosInfinity? <==> !HasMinus(s) && StartsWithInfinity(Unsigned(s))
    ensures r.NegInfinity? <==> HasMinus(s) && StartsWithInfinity(Unsigned(s))
    ensures HasMinus(s) ==> (r.Finite? ==> r.value <= 0.0)
    ensures !HasMinus(s) ==> (r.Finite? ==> r.value >= 0.0)
    ensures r.Finite? ==> (r.value == 0.0 <==> ZeroMantissa(Unsigned(s)))
  {
    var n := ParseUnsigned(Unsigned(s));
    if HasMinus(s) then Negate(n) else n
  }

  /** A string of digits reads as the integer it spells. */
  lemma ParseDigitString(d: string)
    requires d != [] && forall i | 0 <= i < |d| :: IsDigit(d[i])
    ensures ParseFloat(d) == Finite(DigitsValue(d) as real)
  {
    DigitIsPlain(d[0]);
    PlainStart(d);
    ParseUnsignedDigits(d);
  }

  /** A digit is neither white space nor a sign. */
  lemma DigitIsPlain(c: char)
    requires IsDigit(c)
    ensures !IsSpace(c) && c != '+' && c != '-'
  {
  }

  /** Text that starts with neither white space nor a sign is read as it
      stands. */
  lemma PlainStart(s: string)
    requires s != [] && !IsSpace(s[0]) && s[0] != '+' && s[0] != '-'
    ensures ParseFloat(s) == ParseUnsigned(s)
  {
    assert TrimStart(s) == s;
    assert Unsigned(s) == s;
    assert !HasMinus(s);
  }

  lemma ParseUnsignedDigits(d: string)
    requires d != [] && forall i | 0 <= i < |d| :: IsDigit(d[i])
    ensures ParseUnsigned(d) == Finite(DigitsValue(d) as real)
  {
    NotInfinity(d);
    assert LeadingDigits(d) == d;
    assert d[|d|..] == [];
    FractionOfNothing(d);
  }

  lemma NotInfinity(d: string)
    requires d != [] && IsDigit(d[0])
    ensures !StartsWithInfinity(d)
  {
    if |d| >= 8 { assert d[..8][0] == d[0]; }
  }

  lemma FractionOfNothing(d: string)
    requires d != [] && forall i | 0 <= i < |d| :: IsDigit(d[i])
    ensures ParseFraction(d, []) == Finite(DigitsValue(d) as real)
  {
    assert ParseFraction(d, []) == Finite(Scaled(Mantissa(d, []), 0));
  }
}
