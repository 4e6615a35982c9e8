/**
 Time conversions and periodic delays (freertos/include/portable.h, freertos/src/freertos_init.c and
 freertos/src/freertos_task.c).
 */
module Time {
  import opened Prelude

  /** portMAX_DELAY */
  const MAX_DELAY: nat := 0xFFFF_FFFF

  /** `pdMS_TO_TICKS` at `rate` ticks per second, in 32-bit arithmetic. */
  function MsToTicks(ms: nat, rate: nat): nat {
    Mul32(ms, rate) / 1000
  }

  /** `fr_ticks_to_ms`: 64-bit arithmetic, truncated to 32 bits. */
  function TicksToMs(ticks: nat, rate: nat): nat
    requires rate >= 1
  {
    if ticks == MAX_DELAY then MAX_DELAY
    else if ticks == 0 then 0
    else ticks * 1000 / rate % WORD
  }

  lemma DivBounds(a: nat, b: nat)
    requires b >= 1
    ensures a / b * b <= a < a / b * b + b
  {
    assert a == a / b * b + a % b;
  }

  lemma Distribute(a: int, b: int, n: int)
    ensures (a - b) * n == a * n - b * n
  {
  }

  /** Cancelling a positive factor from a comparison. */
  lemma CancelLe(a: nat, b: nat, n: nat)
    requires n >= 1 && n * a <= n * b
    ensures a <= b
  {
    MulMonotone(n, b + 1, a);
    assert n * (b + 1) == n * b + n;
  }

  /** To ticks and back: never more than was asked for, and short by less than 1000 / rate + 1 milliseconds. */
  lemma ConversionBound(ms: nat, rate: nat)
    requires rate >= 1 && ms * rate < WORD
    ensures var back := TicksToMs(MsToTicks(ms, rate), rate);
      back <= ms && (ms - back) * rate < 1000 + rate
  {
    var t := ms * rate / 1000;
    var b := t * 1000 / rate;
    DivBounds(t * 1000, rate);
    CancelLe(b, ms, rate);
    Distribute(ms, b, rate);
    assert ms < WORD by {
      MulMonotone(ms, 1, rate);
    }
    assert TicksToMs(MsToTicks(ms, rate), rate) == b;
  }

  /** The 32-bit product of the macro is right exactly when it has not wrapped. */
  lemma MsToTicksExactIff(ms: nat, rate: nat)
    ensures MsToTicks(ms, rate) == ms * rate / 1000 <==> ms * rate < WORD
  {
    ScaledWrap(ms * rate);
  }

  lemma ScaledWrap(x: nat)
    ensures x % WORD / 1000 == x / 1000 <==> x < WORD
  {
    if x >= WORD {
      assert x % WORD <= x - WORD;
    }
  }

  /** `vTaskDelayUntil`: the new wake time, and the delay it sleeps for. */
  function DelayUntil(prev: nat, increment: nat, now: nat): (r: (nat, nat)) {
    var target := Add32(prev, increment);
    (target, if target > now then target - now else 0)
  }

  /** The wake time after one call for each entry of `nows`. */
  function WakeTime(prev: nat, increment: nat, nows: seq<nat>): nat {
    if nows == [] then prev
    else DelayUntil(WakeTime(prev, increment, nows[..|nows| - 1]), increment, nows[|nows| - 1]).0
  }

  /** However late each call runs, k calls advance the wake time by exactly k increments (modulo 2^32). */
  lemma {:induction false} NoDrift(prev: nat, increment: nat, nows: seq<nat>)
    requires prev < WORD
    ensures WakeTime(prev, increment, nows) == (prev + |nows| * increment) % WORD
  {
    if nows == [] {
    } else {
      var k := |nows| - 1;
      NoDrift(prev, increment, nows[..k]);
      OneMore(prev, increment, k, WakeTime(prev, increment, nows[..k]));
    }
  }

  lemma OneMore(prev: nat, increment: nat, k: nat, wake: nat)
    requires wake == (prev + k * increment) % WORD
    ensures Add32(wake, increment) == (prev + (k + 1) * increment) % WORD
  {
    WrapAdd(prev + k * increment, increment);
    MulSucc(k, increment);
  }

  lemma MulSucc(k: nat, n: nat)
    ensures (k + 1) * n == k * n + n
  {
  }

  lemma WrapAdd(a: nat, b: nat)
    ensures (a % WORD + b) % WORD == (a + b) % WORD
  {
  }

  /**
   When the delay is right: with unbounded times less than 2^32 ticks apart, the unsigned comparison of line 155 gives
   the true distance to the target, or zero for one that has passed, exactly when target and now lie in the same turn
   of the 32-bit counter.
   */
  lemma DelayExactIff(prev: nat, increment: nat, now: nat)
    requires prev + increment < now + WORD && now < prev + increment + WORD
    ensures var target := prev + increment;
      (DelayUntil(prev % WORD, increment, now % WORD).1 == if target > now then target - now else 0)
      <==> target / WORD == now / WORD
  {
    WrapAdd(prev, increment);
    var target := prev + increment;
    assert target == target / WORD * WORD + target % WORD;
    assert now == now / WORD * WORD + now % WORD;
  }

  /** The 64-bit quotient survives its cast exactly when it fits 32 bits; then it is the floor of the true duration. */
  lemma TicksToMsExactIff(ticks: nat, rate: nat)
    requires rate >= 1 && ticks < MAX_DELAY
    ensures TicksToMs(ticks, rate) == ticks * 1000 / rate <==> ticks * 1000 / rate < WORD
    ensures ticks * 1000 / rate < WORD ==>
      var ms := TicksToMs(ticks, rate); ms * rate <= ticks * 1000 < ms * rate + rate
  {
    DivBounds(ticks * 1000, rate);
    if ticks == 0 {
      SmallQuotient(0, rate);
    }
  }

  lemma SmallQuotient(a: nat, b: nat)
    requires a < b
    ensures a / b == 0 && 0 * b == 0
  {
  }

  /**
   What `vTaskDelay` sleeps: the ticks in milliseconds, rounded down, but one for less than that, for ever for the
   largest count; the rounding costs less than a millisecond.
   */
  lemma DelayIsTheTicks(ticks: nat, rate: nat)
    requires rate >= 1
    ensures ticks == MAX_DELAY ==> DelayMs(ticks, rate) == MAX_DELAY
    ensures ticks < MAX_DELAY && ticks * 1000 / rate < WORD ==>
      var ms := DelayMs(ticks, rate);
      if ticks * 1000 < rate then ms == 1 else ms * rate <= ticks * 1000 < ms * rate + rate
  {
    if ticks < MAX_DELAY {
      TicksToMsExactIff(ticks, rate);
      DivBounds(ticks * 1000, rate);
      if ticks * 1000 < rate {
        SmallQuotient(ticks * 1000, rate);
      } else {
        NonZeroQuotient(ticks * 1000, rate);
      }
    }
  }

  lemma NonZeroQuotient(a: nat, b: nat)
    requires 1 <= b <= a
    ensures a / b >= 1
  {
    DivBounds(a, b);
    assert 0 * b == 0;
  }

  /** `vTaskDelay`: the milliseconds to sleep, at least one. */
  function DelayMs(ticks: nat, rate: nat): (ms: nat)
    requires rate >= 1
    ensures ms >= 1
  {
    var ms := TicksToMs(ticks, rate);
    if ms == 0 then 1 else ms
  }

  /**
   `vTaskDelayUntil`: the new wake time, None behind a null pointer, and the milliseconds slept, None for no sleep at all.
   */
  method VTaskDelayUntil(wake: Option<nat>, increment: nat, now: nat, rate: nat)
    returns (wake': Option<nat>, slept: Option<nat>)
    requires (wake.Some? ==> wake.value < WORD) && increment < WORD && now < WORD && rate >= 1
    ensures wake.None? ==> wake'.None?
    ensures wake.Some? ==> wake' == Some(DelayUntil(wake.value, increment, now).0)
    ensures wake.None? || increment == 0 ==> slept.None?
    ensures wake.Some? && increment != 0 ==>
      var delay := DelayUntil(wake.value, increment, now).1;
      slept == if delay == 0 then None else Some(DelayMs(delay, rate))
  {
    if wake.None? || increment == 0 {
      return wake, None;
    }
    var target := Add32(wake.value, increment);
    var delay := 0;
    if target > now {
      delay := target - now;
    }
    wake' := Some(target);
    slept := None;
    if delay != 0 {
      slept := Some(DelayMs(delay, rate));
    }
  }
}
