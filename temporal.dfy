/**
 * Temporal decay (`src/temporal.rs`): how much a memory's age discounts its
 * score, and the blend of that discount with a similarity score. Times are
 * nanoseconds since the Unix epoch; the clock reading is a parameter, and
 * so is `exp`, whose laws the lemmas require through `Floats.IsExp`.
 */
module Temporal {
  import opened Wrappers
  import Floats

  datatype DecayFunction = Exponential | Linear

  /** `lambda` is per second for `Exponential` and per day for `Linear`. */
  datatype DecayConfig = DecayConfig(kind: DecayFunction, lambda: real, offsetDays: real)

  /** `DecayConfig::default()`: exponential, `lambda = 1e-6`, no grace period. */
  const DEFAULT_DECAY := DecayConfig(Exponential, 0.000001, 0.0)

  /** The reasons `validate` and `validate_recency_weight` give; `Message` renders them. */
  datatype TemporalError =
    | NonPositiveLambda(lambda: real)
    | ExponentialTooLarge(lambda: real)
    | ExponentialTooSmall(lambda: real)
    | LinearTooLarge(lambda: real)
    | LinearTooSmall(lambda: real)
    | NegativeOffset(offsetDays: real)
    | RecencyWeightOutOfRange(weight: Floats.Float)

  /** The error text, with `show` standing for Rust's `{}` formatting of an `f64`. */
  function Message(e: TemporalError, show: Floats.Float -> string): string
  {
    match e
    case NonPositiveLambda(l) => "Invalid lambda: " + show(Floats.Finite(l)) + " (must be positive)"
    case ExponentialTooLarge(l) => "Exponential decay lambda " + show(Floats.Finite(l)) + " is too large (max: 1e-3)"
    case ExponentialTooSmall(l) => "Exponential decay lambda " + show(Floats.Finite(l)) + " is too small (min: 1e-10)"
    case LinearTooLarge(l) => "Linear decay lambda " + show(Floats.Finite(l)) + " is too large (max: 100.0)"
    case LinearTooSmall(l) => "Linear decay lambda " + show(Floats.Finite(l)) + " is too small to be useful (min: 1e-6)"
    case NegativeOffset(o) => "Invalid offset_days: " + show(Floats.Finite(o)) + " (must be >= 0)"
    case RecencyWeightOutOfRange(w) => "Invalid recency weight: " + show(w) + " (must be between 0.0 and 1.0)"
  }

  /** The admissible rate for each decay function. */
  predicate LambdaInRange(f: DecayFunction, lambda: real)
  {
    match f
    case Exponential => 0.0000000001 <= lambda <= 0.001
    case Linear => 0.000001 <= lambda <= 100.0
  }

  predicate IsRangeError(e: TemporalError)
  {
    e.ExponentialTooLarge? || e.ExponentialTooSmall? || e.LinearTooLarge? || e.LinearTooSmall?
  }

  /**
   * `DecayConfig::validate`: the rate must be positive, then within its
   * function's range, then the grace period non-negative; the first failed
   * check is the one reported.
   */
  function Validate(c: DecayConfig): (r: Result<(), TemporalError>)
    ensures r.Ok? <==> c.lambda > 0.0 && LambdaInRange(c.kind, c.lambda) && c.offsetDays >= 0.0
    ensures c.lambda <= 0.0 ==> r == Err(NonPositiveLambda(c.lambda))
    ensures c.lambda > 0.0 && !LambdaInRange(c.kind, c.lambda) ==> r.Err? && IsRangeError(r.error)
    ensures c.lambda > 0.0 && LambdaInRange(c.kind, c.lambda) && c.offsetDays < 0.0 ==>
      r == Err(NegativeOffset(c.offsetDays))
  {
    if c.lambda <= 0.0 then Err(NonPositiveLambda(c.lambda))
    else if c.kind == Exponential && c.lambda > 0.001 then Err(ExponentialTooLarge(c.lambda))
    else if c.kind == Exponential && c.lambda < 0.0000000001 then Err(ExponentialTooSmall(c.lambda))
    else if c.kind == Linear && c.lambda > 100.0 then Err(LinearTooLarge(c.lambda))
    else if c.kind == Linear && c.lambda < 0.000001 then Err(LinearTooSmall(c.lambda))
    else if c.offsetDays < 0.0 then Err(NegativeOffset(c.offsetDays))
    else Ok(())
  }

  /** `DecayConfig::new`: the default, which passes validation. */
  function New(): (r: Result<DecayConfig, TemporalError>)
    ensures r.Ok? && r.value == DEFAULT_DECAY && Validate(r.value).Ok?
  {
    var c := DEFAULT_DECAY;
    match Validate(c)
    case Err(e) => Err(e)
    case Ok(_) => Ok(c)
  }

  predicate Valid(c: DecayConfig)
  {
    Validate(c).Ok?
  }

  /** `age.num_seconds().max(0)`: whole seconds, truncated toward zero, never negative. */
  function AgeSeconds(createdNs: int, nowNs: int): (age: nat)
    ensures createdNs >= nowNs ==> age == 0
    ensures createdNs < nowNs ==> age * 1_000_000_000 <= nowNs - createdNs < (age + 1) * 1_000_000_000
  {
    if nowNs - createdNs <= 0 then 0 else (nowNs - createdNs) / 1_000_000_000
  }

  /** Age past the grace period, in seconds: `(age - offset_days * 86400).max(0)`. */
  function EffectiveAge(c: DecayConfig, createdNs: int, nowNs: int): (e: real)
    ensures e >= 0.0
    ensures e >= AgeSeconds(createdNs, nowNs) as real - c.offsetDays * 86400.0
    ensures e == 0.0 || e == AgeSeconds(createdNs, nowNs) as real - c.offsetDays * 86400.0
  {
    var age := AgeSeconds(createdNs, nowNs) as real - c.offsetDays * 86400.0;
    if age > 0.0 then age else 0.0
  }

  function Clamp(x: real, lo: real, hi: real): (r: real)
    requires lo <= hi
    ensures lo <= r <= hi
    ensures lo <= x <= hi ==> r == x
  {
    if x < lo then lo else if x > hi then hi else x
  }

  /** The exponential branch: `exp(-lambda * age)`, cut to 0 below an exponent of -700 and to 1 above 700. */
  function ExponentialDecay(lambda: real, age: real, exp: real -> real): real
  {
    var exponent := -lambda * age;
    if exponent < -700.0 then 0.0
    else if exponent > 700.0 then 1.0
    else exp(exponent)
  }

  /** The linear branch: `1 - lambda * days`, clamped to `[0, 1]`. */
  function LinearDecay(lambda: real, age: real): real
  {
    Clamp(1.0 - lambda * age / 86400.0, 0.0, 1.0)
  }

  /** `calculate_decay`: the decay factor of a memory created at `createdNs`, read at `nowNs`. */
  function CalculateDecay(c: DecayConfig, createdNs: int, nowNs: int, exp: real -> real): real
  {
    match c.kind
    case Exponential => ExponentialDecay(c.lambda, EffectiveAge(c, createdNs, nowNs), exp)
    case Linear => LinearDecay(c.lambda, EffectiveAge(c, createdNs, nowNs))
  }

  lemma {:induction false} ProductOrder(l: real, a: real, b: real)
    requires l > 0.0 && 0.0 <= b <= a
    ensures 0.0 <= l * b <= l * a
    ensures -l * a <= -l * b <= 0.0
    ensures -l * a == -(l * a)
  {
    assert l * a - l * b == l * (a - b);
  }

  /**
   * With a positive rate, exponential decay lies in `[0, 1]` and does not
   * grow with age; it is 0 once `lambda * age` passes 700 and
   * `exp(-lambda * age)` before, so the upper cut-off never applies.
   */
  lemma {:induction false} ExponentialDecayProperties(lambda: real, older: real, newer: real, exp: real -> real)
    requires lambda > 0.0 && 0.0 <= newer <= older && Floats.IsExp(exp)
    ensures 0.0 <= ExponentialDecay(lambda, older, exp) <= ExponentialDecay(lambda, newer, exp) <= 1.0
    ensures ExponentialDecay(lambda, older, exp) == if lambda * older > 700.0 then 0.0 else exp(-(lambda * older))
  {
    ProductOrder(lambda, older, newer);
    ProductOrder(lambda, newer, 0.0);
    var x1, x2 := -lambda * older, -lambda * newer;
    assert exp(x1) <= exp(x2) <= exp(0.0);
  }

  /** With a positive rate, linear decay lies in `[0, 1]` and does not grow with age. */
  lemma {:induction false} LinearDecayProperties(lambda: real, older: real, newer: real)
    requires lambda > 0.0 && 0.0 <= newer <= older
    ensures 0.0 <= LinearDecay(lambda, older) <= LinearDecay(lambda, newer) <= 1.0
    ensures LinearDecay(lambda, older) == 0.0 <==> lambda * older >= 86400.0
  {
    ProductOrder(lambda, older, newer);
    var p1, p2 := lambda * older, lambda * newer;
    assert p2 / 86400.0 <= p1 / 86400.0;
    assert LinearDecay(lambda, older) == Clamp(1.0 - p1 / 86400.0, 0.0, 1.0);
    assert LinearDecay(lambda, newer) == Clamp(1.0 - p2 / 86400.0, 0.0, 1.0);
  }

  /** For a valid configuration the decay factor is a fraction. */
  lemma {:induction false} DecayBounds(c: DecayConfig, createdNs: int, nowNs: int, exp: real -> real)
    requires Valid(c) && Floats.IsExp(exp)
    ensures 0.0 <= CalculateDecay(c, createdNs, nowNs, exp) <= 1.0
  {
    var e := EffectiveAge(c, createdNs, nowNs);
    if c.kind == Exponential {
      ExponentialDecayProperties(c.lambda, e, e, exp);
    } else {
      LinearDecayProperties(c.lambda, e, e);
    }
  }

  /** Brand new memories, and any memory still inside the grace period, are not discounted. */
  lemma {:induction false} DecayInGracePeriod(c: DecayConfig, createdNs: int, nowNs: int, exp: real -> real)
    requires Floats.IsExp(exp)
    requires AgeSeconds(createdNs, nowNs) as real <= c.offsetDays * 86400.0
    ensures CalculateDecay(c, createdNs, nowNs, exp) == 1.0
  {
    assert EffectiveAge(c, createdNs, nowNs) == 0.0;
  }

  /** A memory created at or after the clock reading is not discounted under a valid configuration. */
  lemma {:induction false} DecayOfNewMemory(c: DecayConfig, createdNs: int, nowNs: int, exp: real -> real)
    requires Valid(c) && Floats.IsExp(exp) && createdNs >= nowNs
    ensures CalculateDecay(c, createdNs, nowNs, exp) == 1.0
  {
    DecayInGracePeriod(c, createdNs, nowNs, exp);
  }

  lemma {:induction false} AgeMonotone(older: int, newer: int, nowNs: int)
    requires older <= newer
    ensures AgeSeconds(older, nowNs) >= AgeSeconds(newer, nowNs)
  {
    if nowNs - newer > 0 {
      var a, b := nowNs - older, nowNs - newer;
      assert AgeSeconds(older, nowNs) == a / 1_000_000_000;
      assert AgeSeconds(newer, nowNs) == b / 1_000_000_000;
      DivMonotone(a, b, 1_000_000_000);
    }
  }

  lemma {:induction false} DivMonotone(a: int, b: int, d: int)
    requires 0 <= b <= a && 0 < d
    ensures b / d <= a / d
  {
    var q, p := a / d, b / d;
    assert p * d <= b <= a < (q + 1) * d;
    MulLess(p, q + 1, d);
  }

  lemma {:induction false} MulLess(x: int, y: int, d: int)
    requires 0 < d && x * d < y * d
    ensures x < y
  {
    assert (y - x) * d == y * d - x * d;
  }

  /** An older memory is never discounted less than a newer one. */
  lemma {:induction false} DecayMonotone(c: DecayConfig, older: int, newer: int, nowNs: int, exp: real -> real)
    requires Valid(c) && Floats.IsExp(exp) && older <= newer
    ensures CalculateDecay(c, older, nowNs, exp) <= CalculateDecay(c, newer, nowNs, exp)
  {
    AgeMonotone(older, newer, nowNs);
    var e1 := EffectiveAge(c, older, nowNs);
    var e2 := EffectiveAge(c, newer, nowNs);
    if c.kind == Exponential {
      ExponentialDecayProperties(c.lambda, e1, e2, exp);
    } else {
      LinearDecayProperties(c.lambda, e1, e2);
    }
  }

  /**
   * `apply_recency_weight`: the similarity unchanged for a weight of zero or
   * less, otherwise `(1 - w) * similarity + w * decay`.
   */
  function ApplyRecencyWeight(similarity: real, createdNs: int, nowNs: int, weight: real, c: DecayConfig,
                              exp: real -> real): (r: real)
    ensures weight <= 0.0 ==> r == similarity
    ensures weight == 1.0 ==> r == CalculateDecay(c, createdNs, nowNs, exp)
  {
    if weight <= 0.0 then similarity
    else Blend(similarity, CalculateDecay(c, createdNs, nowNs, exp), weight)
  }

  /** `(1 - weight) * similarity + weight * decay`. */
  function Blend(similarity: real, decay: real, weight: real): real
  {
    (1.0 - weight) * similarity + weight * decay
  }

  /** A blend with a weight in `(0, 1]` lies between its two ends. */
  lemma {:induction false} BlendBetween(s: real, d: real, w: real)
    requires 0.0 < w <= 1.0
    ensures s <= d ==> s <= Blend(s, d, w) <= d
    ensures d <= s ==> d <= Blend(s, d, w) <= s
  {
    assert Blend(s, d, w) == s + w * (d - s);
    ScaleBetween(w, d - s);
  }

  /** With a weight in `(0, 1]` the result lies between the similarity and the decay factor. */
  lemma {:induction false} RecencyWeightBlends(similarity: real, createdNs: int, nowNs: int, weight: real, c: DecayConfig,
                            exp: real -> real)
    requires 0.0 < weight <= 1.0
    ensures var d := CalculateDecay(c, createdNs, nowNs, exp);
      var r := ApplyRecencyWeight(similarity, createdNs, nowNs, weight, c, exp);
      (similarity <= d ==> similarity <= r <= d) && (d <= similarity ==> d <= r <= similarity)
  {
    BlendBetween(similarity, CalculateDecay(c, createdNs, nowNs, exp), weight);
  }

  lemma {:induction false} ScaleBetween(w: real, x: real)
    requires 0.0 < w <= 1.0
    ensures 0.0 <= x ==> 0.0 <= w * x <= x
    ensures x <= 0.0 ==> x <= w * x <= 0.0
  {
    assert x - w * x == (1.0 - w) * x;
  }

  /** `validate_recency_weight`: exactly the closed interval `[0, 1]`; NaN is outside it. */
  function ValidateRecencyWeight(weight: Floats.Float): (r: Result<(), TemporalError>)
    ensures r.Ok? <==> weight.Finite? && 0.0 <= weight.value <= 1.0
    ensures r.Err? ==> r.error == RecencyWeightOutOfRange(weight)
  {
    if weight.Finite? && 0.0 <= weight.value && weight.value <= 1.0 then Ok(())
    else Err(RecencyWeightOutOfRange(weight))
  }
}
