/** The delay before a retry: exponential in the attempts, capped, and drawn at random below the ceiling,
    all in 64-bit nanoseconds that wrap around. */
module Backoff {
  import opened Basics

  const SIGN: int := 0x8000_0000_0000_0000
  const WORD: int := 0x1_0000_0000_0000_0000
  const SECOND: int := 1_000_000_000
  const DEFAULT_MAX: int := 60 * SECOND
  const DEFAULT_CAP: nat := 30

  predicate Fits(x: int) {
    -SIGN <= x < SIGN
  }

  /** The 64-bit signed value of an integer. */
  function Wrap(x: int): int {
    (x + SIGN) % WORD - SIGN
  }

  function Pow2(a: nat): int {
    if a == 0 then 1 else 2 * Pow2(a - 1)
  }

  /** One shifted left by a in 64 bits: the top bit is the sign, and further bits fall off. */
  function Shifted(a: nat): int {
    if a < 63 then Pow2(a) else if a == 63 then -SIGN else 0
  }

  datatype Settings = Settings(baseSeconds: int, maxSeconds: int, maxAttempts: int)

  /** The random draw refuses an empty range. */
  datatype Outcome = Delay(ns: int) | Panic

  function Or(x: int, y: int): int {
    if x <= 0 then y else x
  }

  function BaseFrom(base: int, cfg: Option<Settings>): int {
    Or(if base <= 0 && cfg.Some? then Wrap(cfg.value.baseSeconds * SECOND) else base, SECOND)
  }

  function MaxFrom(max: int, cfg: Option<Settings>): int {
    Or(if max <= 0 && cfg.Some? then Wrap(cfg.value.maxSeconds * SECOND) else max, DEFAULT_MAX)
  }

  function CapFrom(cfg: Option<Settings>): nat {
    if cfg.Some? && cfg.value.maxAttempts > 0 then cfg.value.maxAttempts else DEFAULT_CAP
  }

  function Clamped(attempts: int, cap: nat): nat {
    if attempts < 0 then 0 else if attempts > cap then cap else attempts
  }

  /** The ceiling of the draw, from a positive base and maximum. */
  function Ceiling(base: int, max: int, a: nat): int {
    var delay := Wrap(base * Shifted(a));
    if delay > max || delay <= 0 then max else delay
  }

  function Drawn(delay: int, draw: nat): Outcome {
    var range := Wrap(delay + 1);
    if range <= 0 then Panic else Delay(draw % range)
  }

  /** What the ceiling is meant to be, with no overflow. */
  function Intended(base: int, max: int, a: nat): int {
    Min(max, base * Pow2(a))
  }

  // ---------------------------------------------------------------- wrap-around

  lemma WrapOf(x: int, k: int)
    requires Fits(x)
    ensures Wrap(x + k * WORD) == x
  {
    var y := x + SIGN;
    assert 0 <= y < WORD;
    ModAdds(y, k);
    assert x + k * WORD + SIGN == y + k * WORD;
  }

  lemma ModAdds(y: int, k: int)
    requires 0 <= y < WORD
    ensures (y + k * WORD) % WORD == y
  {
  }

  lemma WrapFits(x: int) returns (k: int)
    ensures Fits(Wrap(x)) && x == Wrap(x) + k * WORD
  {
    k := (x + SIGN) / WORD;
  }

  lemma WrapSame(x: int, k: int)
    ensures Wrap(x + k * WORD) == Wrap(x)
  {
    var j := WrapFits(x);
    WrapOf(Wrap(x), j + k);
    assert x + k * WORD == Wrap(x) + (j + k) * WORD;
  }

  lemma {:induction false} PowersAdd(a: nat, b: nat)
    ensures Pow2(a + b) == Pow2(a) * Pow2(b)
  {
    if a > 0 {
      PowersAdd(a - 1, b);
    }
  }

  lemma {:induction false} PowersGrow(a: nat, b: nat)
    requires a <= b
    ensures 1 <= Pow2(a) <= Pow2(b)
  {
    if a < b {
      PowersGrow(a, b - 1);
    } else if a > 0 {
      PowersGrow(a - 1, a - 1);
    }
  }

  lemma WordPowers()
    ensures Pow2(63) == SIGN && Pow2(64) == WORD
  {
    assert Pow2(15) == 0x8000;
    PowersAdd(15, 15);
    PowersAdd(30, 30);
    assert Pow2(3) == 8;
    PowersAdd(60, 3);
  }

  /** Multiplying by the shifted one is multiplying by the power of two and wrapping, for every shift. */
  lemma ShiftIsPower(base: int, a: nat)
    ensures Wrap(base * Shifted(a)) == Wrap(base * Pow2(a))
  {
    hide Wrap, Pow2;
    WordPowers();
    if a == 63 {
      WrapSame(base * Pow2(63), -base);
      assert base * -SIGN == base * SIGN + -base * WORD;
    } else if a > 63 {
      PowersAdd(a - 64, 64);
      WrapSame(0, base * Pow2(a - 64));
      assert base * (Pow2(a - 64) * WORD) == 0 + (base * Pow2(a - 64)) * WORD;
    }
  }

  // ---------------------------------------------------------------- the ceiling

  /** The product overflows, and what is left of it looks like a delay below the maximum. */
  predicate WrapsToDelay(base: int, max: int, a: nat) {
    base * Pow2(a) >= SIGN && 0 < Wrap(base * Pow2(a)) < max
  }

  /** The ceiling is the intended one exactly when the product does not wrap to a smaller delay. */
  lemma CeilingIntendedIff(base: int, max: int, a: nat)
    requires 0 < base < SIGN && 0 < max < SIGN
    ensures Ceiling(base, max, a) == Intended(base, max, a) <==> !WrapsToDelay(base, max, a)
    ensures 0 < Ceiling(base, max, a) <= Intended(base, max, a)
  {
    hide Pow2, Shifted, Wrap;
    var x := base * Pow2(a);
    ShiftIsPower(base, a);
    PowersGrow(0, a);
    PositiveProduct(base, Pow2(a));
    if x < SIGN {
      WrapOf(x, 0);
      assert x + 0 * WORD == x;
    }
  }

  lemma PositiveProduct(x: int, y: int)
    requires 0 < x && 0 < y
    ensures x <= x * y
  {
  }

  /** While the product does not overflow, the ceiling never falls as attempts grow. */
  lemma CeilingGrows(base: int, max: int, a: nat, b: nat)
    requires 0 < base && 0 < max < SIGN && a <= b && base * Pow2(b) < SIGN
    ensures Ceiling(base, max, a) <= Ceiling(base, max, b) == Min(max, base * Pow2(b))
  {
    hide Pow2, Ceiling, Wrap;
    PowersGrow(0, a);
    PowersGrow(a, b);
    ProductGrows(base, Pow2(a), Pow2(b));
    PositiveProduct(base, Pow2(a));
    CeilingIntendedIff(base, max, a);
    CeilingIntendedIff(base, max, b);
  }

  /** The ceiling never falls with one more attempt, up to the cap. */
  ghost predicate NeverFalls(base: int, max: int, cap: nat) {
    forall a: nat, b: nat :: a <= b <= cap ==> Ceiling(base, max, a) <= Ceiling(base, max, b)
  }

  /** The first overflow goes to the sign bit, so the ceiling there is the maximum. */
  lemma {:induction false} FirstOverflow(base: int, max: int, a: nat) returns (b: nat)
    requires 0 < base < SIGN && 0 < max < SIGN && base * Pow2(a) >= SIGN
    ensures b <= a && Ceiling(base, max, b) == max
  {
    hide Wrap, Shifted;
    assert a > 0;
    var half := base * Pow2(a - 1);
    assert base * Pow2(a) == 2 * half by { Doubled(base, Pow2(a - 1)); }
    if half >= SIGN {
      b := FirstOverflow(base, max, a - 1);
    } else {
      b := a;
      ShiftIsPower(base, a);
      WrapOf(2 * half - WORD, 1);
      assert 2 * half - WORD + 1 * WORD == 2 * half;
    }
  }

  lemma Doubled(x: int, y: int)
    ensures x * (2 * y) == 2 * (x * y)
  {
  }

  /** Over all attempts up to the cap, the ceiling never falls exactly when it is always the intended
      one. */
  lemma NeverFallsIff(base: int, max: int, cap: nat)
    requires 0 < base < SIGN && 0 < max < SIGN
    ensures NeverFalls(base, max, cap) <==> forall a: nat | a <= cap :: !WrapsToDelay(base, max, a)
  {
    hide Ceiling, Pow2, Wrap;
    if a: nat :| a <= cap && WrapsToDelay(base, max, a) {
      CeilingIntendedIff(base, max, a);
      var b := FirstOverflow(base, max, a);
      assert Ceiling(base, max, a) < Ceiling(base, max, b);
    } else {
      forall a: nat, b: nat | a <= b <= cap
        ensures Ceiling(base, max, a) <= Ceiling(base, max, b)
      {
        assert !WrapsToDelay(base, max, a) && !WrapsToDelay(base, max, b);
        CeilingIntendedIff(base, max, a);
        CeilingIntendedIff(base, max, b);
        PowersGrow(a, b);
        ProductGrows(base, Pow2(a), Pow2(b));
      }
    }
  }

  /** What wraps around is still a multiple of every power of two that divided it. */
  lemma WrapKeepsFactor(m: int, z: nat)
    requires z <= 64
    ensures exists j :: Wrap(m * Pow2(z)) == j * Pow2(z)
  {
    hide Wrap, Pow2;
    var k := WrapFits(m * Pow2(z));
    WordPowers();
    PowersAdd(64 - z, z);
    Regroup(m, k, Pow2(64 - z), Pow2(z));
    assert Wrap(m * Pow2(z)) == (m - k * Pow2(64 - z)) * Pow2(z);
  }

  lemma Regroup(m: int, k: int, x: int, y: int)
    ensures m * y - k * (x * y) == (m - k * x) * y
  {
  }

  /** A base of odd * 2^z against a maximum: if odd * max fits in 63 bits, no number of attempts wraps to
      a delay. */
  lemma NoWrapToDelay(odd: int, z: nat, max: int, a: nat)
    requires 0 < odd && 0 < max && odd * max <= SIGN
    ensures !WrapsToDelay(odd * Pow2(z), max, a)
  {
    hide Wrap, Pow2;
    PowersAdd(z, a);
    Regrouped(odd, Pow2(z), Pow2(a));
    WordPowers();
    var x := odd * Pow2(z + a);
    if x >= SIGN {
      if z + a > 64 {
        PowersAdd(z + a - 64, 64);
        WrapOf(0, odd * Pow2(z + a - 64));
        Regrouped(odd, Pow2(z + a - 64), WORD);
        assert x == 0 + odd * Pow2(z + a - 64) * WORD;
      } else {
        WrapKeepsFactor(odd, z + a);
        var j :| Wrap(x) == j * Pow2(z + a);
        PowersGrow(0, z + a);
        Cancels(odd, max, Pow2(z + a));
        NotBetween(j, Pow2(z + a));
      }
    }
  }

  lemma Regrouped(x: int, y: int, z: int)
    ensures x * y * z == x * (y * z)
  {
  }

  lemma Cancels(x: int, y: int, z: int)
    requires 0 < x && x * y <= x * z
    ensures y <= z
  {
  }

  lemma NotBetween(j: int, y: int)
    requires 0 < y
    ensures j * y <= 0 || y <= j * y
  {
  }

  /** For a base and a maximum of whole seconds whose product is at most 4722, the ceiling is the
      intended one whatever the attempts and their cap; the defaults, one second and sixty, are well
      within it. */
  lemma WholeSecondsAreSafe(baseSeconds: int, maxSeconds: int, a: nat)
    requires 0 < baseSeconds && 0 < maxSeconds && baseSeconds * maxSeconds <= 4722
    ensures Ceiling(baseSeconds * SECOND, maxSeconds * SECOND, a)
         == Intended(baseSeconds * SECOND, maxSeconds * SECOND, a)
  {
    hide Ceiling, Intended, Wrap, WrapsToDelay;
    var odd := baseSeconds * 1953125;
    assert Pow2(9) == 512;
    assert odd * Pow2(9) == baseSeconds * SECOND;
    SecondsProduct(baseSeconds, maxSeconds);
    PositiveProduct(baseSeconds, maxSeconds);
    PositiveProduct(maxSeconds, baseSeconds);
    NoWrapToDelay(odd, 9, maxSeconds * SECOND, a);
    CeilingIntendedIff(baseSeconds * SECOND, maxSeconds * SECOND, a);
  }

  lemma SecondsProduct(x: int, y: int)
    requires x * y <= 4722
    ensures (x * 1953125) * (y * SECOND) <= SIGN
  {
    assert (x * 1953125) * (y * SECOND) == (x * y) * (1953125 * SECOND);
  }

  /** A configuration that the server accepts: a base of 47279 seconds, a maximum of 47280. */
  const LONG_DELAYS := Settings(47279, 47280, 30)

  /** The cap of thirty does not keep the product from overflowing: with these delays the attempt
      count 24 gives a ceiling of about 94 seconds where 47280 are meant. */
  lemma CapDoesNotPreventOverflow()
    ensures var base, max := BaseFrom(0, Some(LONG_DELAYS)), MaxFrom(0, Some(LONG_DELAYS));
      var a := Clamped(24, CapFrom(Some(LONG_DELAYS)));
      && Ceiling(base, max, a) == 94_489_280_512
      && Intended(base, max, a) == 47280 * SECOND
      && !NeverFalls(base, max, CapFrom(Some(LONG_DELAYS)))
  {
    var base, max := 47279 * SECOND, 47280 * SECOND;
    WrapOf(base, 0);
    WrapOf(max, 0);
    assert base + 0 * WORD == base && max + 0 * WORD == max;
    assert Pow2(12) == 0x1000;
    PowersAdd(12, 12);
    WrapOf(94_489_280_512, 43);
    assert base * Pow2(24) == 94_489_280_512 + 43 * WORD;
    assert WrapsToDelay(base, max, 24);
    NeverFallsIff(base, max, 30);
  }

  // ---------------------------------------------------------------- the ceiling of a call

  /** The ceiling that a call has with these arguments and settings. */
  function CallCeiling(attempts: int, base: int, max: int, cfg: Option<Settings>): int {
    Ceiling(BaseFrom(base, cfg), MaxFrom(max, cfg), Clamped(attempts, CapFrom(cfg)))
  }

  /** With nothing set: one second, doubled with each attempt, up to a minute. */
  lemma DefaultCeilings(attempts: int)
    ensures attempts <= 0 ==> CallCeiling(attempts, 0, 0, None) == 1_000_000_000
    ensures attempts == 1 ==> CallCeiling(attempts, 0, 0, None) == 2_000_000_000
    ensures attempts == 2 ==> CallCeiling(attempts, 0, 0, None) == 4_000_000_000
    ensures attempts == 3 ==> CallCeiling(attempts, 0, 0, None) == 8_000_000_000
    ensures attempts == 4 ==> CallCeiling(attempts, 0, 0, None) == 16_000_000_000
    ensures attempts == 5 ==> CallCeiling(attempts, 0, 0, None) == 32_000_000_000
    ensures attempts >= 6 ==> CallCeiling(attempts, 0, 0, None) == 60_000_000_000
  {
    hide Ceiling, Pow2, Wrap;
    var a := Clamped(attempts, 30);
    WholeSecondsAreSafe(1, 60, a);
    SmallPowers();
    if attempts >= 6 {
      PowersGrow(6, a);
    }
  }

  lemma SmallPowers()
    ensures Pow2(0) == 1 && Pow2(1) == 2 && Pow2(2) == 4 && Pow2(3) == 8 && Pow2(4) == 16 && Pow2(5) == 32
    ensures Pow2(6) == 64
  {
  }

  /** Whatever the arguments, attempts above the cap have the ceiling at the cap, and attempts below none
      that of none; the cap is the configured one if it is positive, and 30 if not. */
  lemma AttemptsAreClamped(attempts: int, base: int, max: int, cfg: Option<Settings>)
    ensures cfg.Some? && 0 < cfg.value.maxAttempts <= attempts ==>
      CallCeiling(attempts, base, max, cfg) == CallCeiling(cfg.value.maxAttempts, base, max, cfg)
    ensures (cfg.Some? ==> cfg.value.maxAttempts <= 0) && 30 <= attempts ==>
      CallCeiling(attempts, base, max, cfg) == CallCeiling(30, base, max, cfg)
    ensures attempts <= 0 ==> CallCeiling(attempts, base, max, cfg) == CallCeiling(0, base, max, cfg)
  {
  }

  /** The exponent of the call: attempts within the cap count one by one. */
  lemma CeilingWithin(attempts: nat, base: int, max: int, cfg: Option<Settings>)
    requires 0 < base < SIGN && 0 < max < SIGN && base * Pow2(attempts) < SIGN
    requires attempts <= if cfg.Some? && cfg.value.maxAttempts > 0 then cfg.value.maxAttempts else 30
    ensures CallCeiling(attempts, base, max, cfg) == Min(max, base * Pow2(attempts))
  {
    hide Ceiling, Pow2, Wrap;
    CeilingIntendedIff(base, max, attempts);
  }

  /** With both delays configured in whole seconds whose product is at most 4722, and none given in the
      call, the ceiling is the documented one for all attempts. */
  lemma ConfiguredCeiling(attempts: nat, cfg: Settings)
    requires 0 < cfg.baseSeconds && 0 < cfg.maxSeconds && cfg.baseSeconds * cfg.maxSeconds <= 4722
    ensures var a := if cfg.maxAttempts > 0 then Min(attempts, cfg.maxAttempts) else Min(attempts, 30);
      CallCeiling(attempts, 0, 0, Some(cfg))
        == Min(cfg.maxSeconds * 1_000_000_000, cfg.baseSeconds * 1_000_000_000 * Pow2(a))
  {
    hide Ceiling, Pow2, Wrap;
    PositiveProduct(cfg.baseSeconds, cfg.maxSeconds);
    PositiveProduct(cfg.maxSeconds, cfg.baseSeconds);
    SecondsFit(cfg.baseSeconds);
    SecondsFit(cfg.maxSeconds);
    WholeSecondsAreSafe(cfg.baseSeconds, cfg.maxSeconds, Clamped(attempts, CapFrom(Some(cfg))));
  }

  lemma SecondsFit(x: int)
    requires 0 < x <= 4722
    ensures Wrap(x * SECOND) == x * SECOND
  {
    WrapOf(x * SECOND, 0);
    assert x * SECOND + 0 * WORD == x * SECOND;
  }

  // ---------------------------------------------------------------- the draw

  /** The maximum is the largest 64-bit value, and the wrapped product does not stay below it. */
  predicate PanicInputs(base: int, max: int, a: nat) {
    max == SIGN - 1 && (Wrap(base * Pow2(a)) <= 0 || Wrap(base * Pow2(a)) == SIGN - 1)
  }

  lemma CeilingIsLargestIff(base: int, max: int, a: nat)
    requires 0 < base < SIGN && 0 < max < SIGN
    ensures Ceiling(base, max, a) == SIGN - 1 <==> PanicInputs(base, max, a)
  {
    hide Wrap, Pow2, Shifted;
    ShiftIsPower(base, a);
    var _ := WrapFits(base * Pow2(a));
  }

  /** The draw panics exactly on those inputs. */
  lemma PanicsIff(base: int, max: int, a: nat, draw: nat)
    requires 0 < base < SIGN && 0 < max < SIGN
    ensures Drawn(Ceiling(base, max, a), draw) == Panic <==> PanicInputs(base, max, a)
  {
    hide Ceiling, PanicInputs, Wrap;
    CeilingIntendedIff(base, max, a);
    CeilingIsLargestIff(base, max, a);
    var top := Ceiling(base, max, a);
    if top == SIGN - 1 {
      WrapOf(-SIGN, 1);
      assert -SIGN + 1 * WORD == top + 1;
    } else {
      WrapOf(top + 1, 0);
      assert top + 1 + 0 * WORD == top + 1;
    }
  }

  lemma DrawInRange(base: int, max: int, a: nat, draw: nat)
    requires 0 < base < SIGN && 0 < max < SIGN
    ensures var r := Drawn(Ceiling(base, max, a), draw);
      r.Delay? ==> 0 <= r.ns <= Ceiling(base, max, a)
  {
    hide Ceiling, PanicInputs, Wrap;
    CeilingIntendedIff(base, max, a);
    CeilingIsLargestIff(base, max, a);
    PanicsIff(base, max, a, draw);
    var top := Ceiling(base, max, a);
    if top < SIGN - 1 {
      WrapOf(top + 1, 0);
      assert top + 1 + 0 * WORD == top + 1;
    }
  }

  lemma TopIsDrawn(top: int, delay: int)
    requires 0 <= delay <= top < SIGN - 1
    ensures Drawn(top, delay) == Delay(delay)
  {
    hide Wrap;
    WrapOf(top + 1, 0);
    assert top + 1 + 0 * WORD == top + 1;
    assert delay % (top + 1) == delay;
  }

  /** For a maximum below the largest 64-bit value the draw never panics, and its range is every delay
      from nothing up to the ceiling. */
  lemma DrawsUpToCeiling(base: int, max: int, a: nat, delay: int)
    requires 0 < base < SIGN && 0 < max < SIGN - 1
    ensures (exists draw: nat :: Drawn(Ceiling(base, max, a), draw) == Delay(delay))
       <==> 0 <= delay <= Ceiling(base, max, a)
    ensures 0 < Ceiling(base, max, a) <= max
  {
    hide Ceiling, Wrap, Drawn, Pow2;
    CeilingIntendedIff(base, max, a);
    if draw: nat :| Drawn(Ceiling(base, max, a), draw) == Delay(delay) {
      DrawInRange(base, max, a, draw);
    } else if 0 <= delay <= Ceiling(base, max, a) {
      TopIsDrawn(Ceiling(base, max, a), delay);
    }
  }

  lemma Effective(base: int, max: int, cfg: Option<Settings>)
    requires Fits(base) && Fits(max)
    ensures 0 < BaseFrom(base, cfg) < SIGN && 0 < MaxFrom(max, cfg) < SIGN
  {
  }

  /** The delay drawn is between nothing and the maximum in force; it panics exactly when that
      maximum is the largest 64-bit value and the wrapped product does not stay below it; and its ceiling
      is at most the intended one. */
  method ComputeBackoff(attempts: int, base: int, max: int, cfg: Option<Settings>, draw: nat) returns (r: Outcome)
    requires Fits(base) && Fits(max)
    ensures r == Drawn(CallCeiling(attempts, base, max, cfg), draw)
    ensures r == Panic
       <==> PanicInputs(BaseFrom(base, cfg), MaxFrom(max, cfg), Clamped(attempts, CapFrom(cfg)))
    ensures r.Delay? ==>
              0 <= r.ns <= Intended(BaseFrom(base, cfg), MaxFrom(max, cfg), Clamped(attempts, CapFrom(cfg)))
  {
    hide Wrap, Pow2, Shifted, Intended, PanicInputs;
    var baseDelay, maxDelay, tries := base, max, attempts;
    if baseDelay <= 0 && cfg.Some? {
      baseDelay := Wrap(cfg.value.baseSeconds * SECOND);
    }
    if baseDelay <= 0 {
      baseDelay := SECOND;
    }
    if maxDelay <= 0 && cfg.Some? {
      maxDelay := Wrap(cfg.value.maxSeconds * SECOND);
    }
    if maxDelay <= 0 {
      maxDelay := DEFAULT_MAX;
    }
    if tries < 0 {
      tries := 0;
    }
    var maxAttempts := DEFAULT_CAP;
    if cfg.Some? && cfg.value.maxAttempts > 0 {
      maxAttempts := cfg.value.maxAttempts;
    }
    if tries > maxAttempts {
      tries := maxAttempts;
    }
    var delay := Wrap(baseDelay * Shifted(tries));
    if delay > maxDelay || delay <= 0 {
      delay := maxDelay;
    }
    var range := Wrap(delay + 1);
    Effective(base, max, cfg);
    CeilingIntendedIff(baseDelay, maxDelay, tries);
    PanicsIff(baseDelay, maxDelay, tries, draw);
    if range <= 0 {
      return Panic;
    }
    DrawInRange(baseDelay, maxDelay, tries, draw);
    return Delay(draw % range);
  }
}
