/**
 * Floating-point values as the code inspects them. A value is a real, an
 * infinity or NaN; rounding is not modelled (sums and products are exact).
 * `binary32` bit patterns are decoded exactly, as `f32::from_le_bytes` reads
 * them, and Rust's `str::parse::<f64>` grammar is written out.
 */
module Floats {
  import opened Wrappers
  import Text

  datatype Float = Finite(value: real) | Infinity(negative: bool) | NaN
  {
    /** `is_finite()`: neither NaN nor infinite. */
    predicate IsFinite()
    {
      Finite?
    }

    function Negate(): Float
    {
      match this
      case Finite(v) => Finite(-v)
      case Infinity(n) => Infinity(!n)
      case NaN => NaN
    }
  }

  /** `x >= t` on IEEE values: false whenever either side is NaN. */
  predicate AtLeast(x: real, t: Float)
  {
    match t
    case Finite(v) => x >= v
    case Infinity(negative) => negative
    case NaN => false
  }

  function Pow2(n: nat): (r: real)
    ensures r >= 1.0
  {
    if n == 0 then 1.0 else 2.0 * Pow2(n - 1)
  }

  /** 2 raised to an integer power. */
  function Scale2(e: int): (r: real)
    ensures r > 0.0
  {
    if e >= 0 then Pow2(e) else 1.0 / Pow2(-e)
  }

  function SignBit(bits: bv32): bool
  {
    bits >> 31 == 1
  }

  function ExponentField(bits: bv32): nat
  {
    ((bits >> 23) & 0xFF) as nat
  }

  function FractionField(bits: bv32): nat
  {
    (bits & 0x7F_FFFF) as nat
  }

  /** The value of the sign, exponent and fraction fields of a binary32. */
  function Decode32(negative: bool, exponent: nat, fraction: nat): (f: Float)
    ensures f.IsFinite() <==> exponent != 255
  {
    if exponent == 255 then
      if fraction == 0 then Infinity(negative) else NaN
    else
      var magnitude :=
        if exponent == 0 then fraction as real * Scale2(exponent - 149)
        else (fraction + 0x80_0000) as real * Scale2(exponent - 150);
      Finite(if negative then -magnitude else magnitude)
  }

  /**
   * The IEEE 754 binary32 value of a bit pattern: exponent field 255 is an
   * infinity (zero fraction) or NaN, exponent field 0 a subnormal
   * `fraction * 2^-149`, any other `(2^23 + fraction) * 2^(exponent - 150)`.
   */
  function Binary32(bits: bv32): (f: Float)
    ensures f.IsFinite() <==> ExponentField(bits) != 255
  {
    Decode32(SignBit(bits), ExponentField(bits), FractionField(bits))
  }

  /** The all-zero pattern is +0.0. */
  lemma {:induction false} ZeroBitsAreZero()
    ensures Binary32(0) == Finite(0.0)
  {
    assert ExponentField(0) == 0 && FractionField(0) == 0 && !SignBit(0);
  }

  lemma {:induction false} OppositeSigns(negative: bool, exponent: nat, fraction: nat)
    ensures Decode32(!negative, exponent, fraction) == Decode32(negative, exponent, fraction).Negate()
  {
  }

  /** Flipping the sign bit negates the value, the way `-x` acts on an `f32`. */
  lemma {:induction false} FlipSignNegates(bits: bv32)
    ensures Binary32(bits ^ 0x8000_0000) == Binary32(bits).Negate()
  {
    var flipped := bits ^ 0x8000_0000;
    assert (flipped >> 23) & 0xFF == (bits >> 23) & 0xFF;
    assert flipped & 0x7F_FFFF == bits & 0x7F_FFFF;
    assert SignBit(flipped) == !SignBit(bits);
    OppositeSigns(SignBit(bits), ExponentField(bits), FractionField(bits));
  }

  /** A square root: non-negative and squaring back to its argument on non-negative inputs. */
  ghost predicate IsSqrt(sqrt: real -> real)
  {
    forall x :: 0.0 <= x ==> 0.0 <= sqrt(x) && sqrt(x) * sqrt(x) == x
  }

  /** The exponential function, as far as the decay computation relies on it. */
  ghost predicate IsExp(exp: real -> real)
  {
    exp(0.0) == 1.0
    && (forall x :: 0.0 < exp(x))
    && (forall x, y :: x <= y ==> exp(x) <= exp(y))
  }

  predicate IsDigit(c: char)
  {
    '0' <= c <= '9'
  }

  /** Number of leading ASCII digits. */
  function DigitRun(s: string): (n: nat)
    ensures n <= |s|
    ensures forall i :: 0 <= i < n ==> IsDigit(s[i])
    ensures n == |s| || !IsDigit(s[n])
  {
    if s == [] || !IsDigit(s[0]) then 0 else 1 + DigitRun(s[1..])
  }

  /** The natural number a string of decimal digits denotes. */
  function DigitsValue(s: string): nat
    requires forall i :: 0 <= i < |s| ==> IsDigit(s[i])
  {
    if s == [] then 0
    else
      assert IsDigit(s[|s| - 1]);
      10 * DigitsValue(s[..|s| - 1]) + (s[|s| - 1] as int - '0' as int)
  }

  function Pow10(n: nat): (r: nat)
    ensures r >= 1
  {
    if n == 0 then 1 else 10 * Pow10(n - 1)
  }

  /** 10 raised to an integer power. */
  function Scale10(e: int): (r: real)
    ensures r > 0.0
  {
    if e >= 0 then Pow10(e) as real else 1.0 / Pow10(-e) as real
  }

  function AsciiLower(s: string): string
  {
    if s == [] then []
    else [if 'A' <= s[0] <= 'Z' then (s[0] as int + 32) as char else s[0]] + AsciiLower(s[1..])
  }

  /** The exponent part `e[+-]digits`, which must make up the whole of `s`. */
  function ParseExponent(s: string): Option<int>
  {
    if s == [] || (s[0] != 'e' && s[0] != 'E') then None
    else
      var negative := |s| > 1 && s[1] == '-';
      var digits := if |s| > 1 && (s[1] == '+' || s[1] == '-') then s[2..] else s[1..];
      var n := DigitRun(digits);
      if n == 0 || n != |digits| then None
      else
        var magnitude := DigitsValue(digits);
        Some(if negative then -(magnitude as int) else magnitude)
  }

  /**
   * The unsigned decimal forms `digits`, `digits.`, `digits.digits`,
   * `.digits`, each with an optional exponent.
   */
  function ParseDecimal(s: string): Option<real>
  {
    var whole := DigitRun(s);
    var afterWhole := s[whole..];
    var hasPoint := afterWhole != [] && afterWhole[0] == '.';
    var afterPoint := if hasPoint then afterWhole[1..] else afterWhole;
    var fraction := if hasPoint then DigitRun(afterPoint) else 0;
    var rest := afterPoint[fraction..];
    if whole + fraction == 0 then None
    else
      var exponent := if rest == [] then Some(0) else ParseExponent(rest);
      match exponent
      case None => None
      case Some(e) =>
        var mantissa := DigitsValue(s[..whole] + afterPoint[..fraction]);
        Some(mantissa as real * Scale10(e - fraction))
  }

  /** `str::parse::<f64>`: optional sign, then `inf`, `infinity`, `nan` (any case) or a decimal. */
  function ParseFloat(s: string): Option<Float>
  {
    var negative := s != [] && s[0] == '-';
    var body := if s != [] && (s[0] == '+' || s[0] == '-') then s[1..] else s;
    var lower := AsciiLower(body);
    if lower == "inf" || lower == "infinity" then Some(Infinity(negative))
    else if lower == "nan" then Some(NaN)
    else
      match ParseDecimal(body)
      case None => None
      case Some(v) => Some(Finite(if negative then -v else v))
  }

  lemma {:induction false} DigitsOfNatToString(n: nat)
    ensures forall i :: 0 <= i < |Text.NatToString(n)| ==> IsDigit(Text.NatToString(n)[i])
    ensures DigitsValue(Text.NatToString(n)) == n
  {
    if n >= 10 {
      DigitsOfNatToString(n / 10);
      var s := Text.NatToString(n);
      assert s[..|s| - 1] == Text.NatToString(n / 10);
    }
  }

  /** A decimal integer, as `{}` prints it, parses back to the same value. */
  lemma {:induction false} ParseNatString(n: nat)
    ensures ParseFloat(Text.NatToString(n)) == Some(Finite(n as real))
  {
    var s := Text.NatToString(n);
    DigitsOfNatToString(n);
    assert DigitRun(s) == |s| by {
      DigitRunAll(s);
    }
    assert s[|s|..] == [];
    assert s[..|s|] + [] == s;
    assert AsciiLower(s) != "inf" && AsciiLower(s) != "infinity" && AsciiLower(s) != "nan" by {
      AsciiLowerKeepsDigit(s);
    }
  }

  lemma {:induction false} DigitRunAll(s: string)
    requires forall i :: 0 <= i < |s| ==> IsDigit(s[i])
    ensures DigitRun(s) == |s|
  {
    if s != [] {
      DigitRunAll(s[1..]);
    }
  }

  lemma {:induction false} AsciiLowerKeepsDigit(s: string)
    requires s != [] && IsDigit(s[0])
    ensures AsciiLower(s) != [] && IsDigit(AsciiLower(s)[0])
  {
  }
}
