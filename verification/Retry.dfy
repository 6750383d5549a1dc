/** Retrying an operation with exponential backoff. Delays are exact reals,
    cut to whole milliseconds where the code casts them. */
module Retry {

  const U32_MAX: nat := 0xFFFF_FFFF
  const I32_RANGE: nat := 0x8000_0000

  datatype RetryPolicy = RetryPolicy(
    maxRetries: nat, initialDelay: nat, maxDelay: nat, multiplier: real, jitter: real)

  const DEFAULT := RetryPolicy(3, 100, 10_000, 2.0, 0.1)

  /** One call of the operation. */
  datatype Attempt<T> = Success(value: T) | Failure(error: nat, retryable: bool)

  datatype RetryResult<T> =
    | Done(value: T)
    | MaxRetriesExceeded(lastError: nat, attempts: nat)
    | NonRetryable(error: nat, attempts: nat)

  /** `new`: the jitter factor is clamped to the unit interval. */
  function NewPolicy(maxRetries: nat, initialDelay: nat, maxDelay: nat, multiplier: real, jitter: real): (p: RetryPolicy)
    ensures 0.0 <= p.jitter <= 1.0
    ensures 0.0 <= jitter <= 1.0 ==> p.jitter == jitter
    ensures jitter < 0.0 ==> p.jitter == 0.0
    ensures jitter > 1.0 ==> p.jitter == 1.0
    ensures p.maxRetries == maxRetries && p.initialDelay == initialDelay && p.maxDelay == maxDelay && p.multiplier == multiplier
  {
    RetryPolicy(maxRetries, initialDelay, maxDelay, multiplier,
                if jitter < 0.0 then 0.0 else if jitter > 1.0 then 1.0 else jitter)
  }

  // ---------------------------------------------------------------------
  // Delays
  // ---------------------------------------------------------------------

  function Power(x: real, n: nat): (r: real)
    ensures x != 0.0 ==> r != 0.0
  {
    if n == 0 then 1.0 else x * Power(x, n - 1)
  }

  function AtMost(x: real, cap: real): real {
    if x <= cap then x else cap
  }

  /** Casting to an unsigned integer: negative numbers become zero. */
  function ToUnsigned(x: real): (n: nat)
    ensures x >= 0.0 ==> n as real <= x < n as real + 1.0
  {
    if x < 0.0 then 0 else x.Floor
  }

  /** The attempt number is cast to a signed 32-bit exponent, which wraps. */
  function Exponent(attempt: nat): (e: int)
    ensures attempt < I32_RANGE ==> e == attempt
  {
    var low := attempt % (2 * I32_RANGE);
    if low < I32_RANGE then low else low - 2 * I32_RANGE
  }

  function Scaled(base: real, factor: real): real {
    base * factor
  }

  function Quotient(base: real, divisor: real): real
    requires divisor != 0.0
  {
    base / divisor
  }

  function UncutDelay(p: RetryPolicy, attempt: nat): real {
    var e := Exponent(attempt);
    if e >= 0 then AtMost(Scaled(p.initialDelay as real, Power(p.multiplier, e)), p.maxDelay as real)
    else if p.multiplier == 0.0 then p.maxDelay as real
    else AtMost(Quotient(p.initialDelay as real, Power(p.multiplier, -e)), p.maxDelay as real)
  }

  function CalculateDelay(p: RetryPolicy, attempt: nat): nat {
    ToUnsigned(UncutDelay(p, attempt))
  }

  /** `random` is the number drawn, at least 0 and below 1. */
  function JitteredDelay(p: RetryPolicy, attempt: nat, random: real): nat {
    var base := CalculateDelay(p, attempt);
    if p.jitter <= 0.0 then base
    else
      var jittered := Scaled(base as real, 1.0 - Scaled(p.jitter, random));
      ToUnsigned(if jittered >= 1.0 then jittered else 1.0)
  }

  lemma {:induction false} DelayCapped(p: RetryPolicy, attempt: nat)
    ensures CalculateDelay(p, attempt) <= p.maxDelay
  {
    hide Power;
    assert UncutDelay(p, attempt) <= p.maxDelay as real;
  }

  lemma {:induction false} Scale(a: real, x: real, y: real)
    requires a >= 0.0 && 0.0 <= x <= y
    ensures 0.0 <= Scaled(a, x) <= Scaled(a, y)
  {
  }

  lemma {:induction false} Grow(a: real, x: real)
    requires a >= 0.0 && x >= 1.0
    ensures a <= x * a
  {
  }

  lemma {:induction false} PowerGrows(x: real, i: nat, j: nat)
    requires x >= 1.0 && i <= j
    ensures 1.0 <= Power(x, i) <= Power(x, j)
  {
    if i < j {
      PowerGrows(x, i, j - 1);
      Grow(Power(x, j - 1), x);
    } else if j > 0 {
      PowerGrows(x, i - 1, j - 1);
      Grow(Power(x, j - 1), x);
    }
  }

  /** With a multiplier of at least one, a later retry never waits less, as long
      as the attempt number fits the exponent. */
  lemma {:induction false} DelaysGrow(p: RetryPolicy, i: nat, j: nat)
    requires p.multiplier >= 1.0 && i <= j < I32_RANGE
    ensures CalculateDelay(p, i) <= CalculateDelay(p, j)
  {
    PowerGrows(p.multiplier, i, j);
    hide Power;
    UncutGrows(p, i, j);
    hide UncutDelay;
  }

  lemma {:induction false} UncutGrows(p: RetryPolicy, i: nat, j: nat)
    requires i < I32_RANGE && j < I32_RANGE
    requires 0.0 <= Power(p.multiplier, i) <= Power(p.multiplier, j)
    ensures 0.0 <= UncutDelay(p, i) <= UncutDelay(p, j)
  {
    hide Power, AtMost, Scaled;
    var a, cap := p.initialDelay as real, p.maxDelay as real;
    Scale(a, Power(p.multiplier, i), Power(p.multiplier, j));
    CappedGrows(Scaled(a, Power(p.multiplier, i)), Scaled(a, Power(p.multiplier, j)), cap);
  }

  lemma {:induction false} CappedGrows(x: real, y: real, cap: real)
    requires 0.0 <= x <= y && cap >= 0.0
    ensures 0.0 <= AtMost(x, cap) <= AtMost(y, cap)
  {
  }

  lemma {:induction false} PowerOfTwo(n: nat)
    ensures Power(2.0, n) >= n as real + 1.0
  {
    if n > 0 {
      PowerOfTwo(n - 1);
    }
  }

  /** Beyond that the exponent turns negative: the default policy waits the
      maximum before attempt 2^31 and not at all after it. */
  lemma {:induction false} DelayWrapsToZero()
    ensures CalculateDelay(DEFAULT, I32_RANGE - 1) == DEFAULT.maxDelay
    ensures CalculateDelay(DEFAULT, I32_RANGE) == 0
  {
    PowerOfTwo(I32_RANGE - 1);
    PowerOfTwo(I32_RANGE);
    hide Power;
    assert Exponent(I32_RANGE) == -(I32_RANGE as int);
    var p := Power(2.0, I32_RANGE);
    assert 0.0 <= 100.0 / p < 1.0;
  }

  /** A multiplier of zero: no delay but the first, until the exponent wraps, and
      from then on the maximum. */
  lemma {:induction false} ZeroMultiplier(p: RetryPolicy, attempt: nat)
    requires p.multiplier == 0.0 && attempt <= U32_MAX
    ensures CalculateDelay(p, attempt) ==
            if attempt == 0 then (if p.initialDelay <= p.maxDelay then p.initialDelay else p.maxDelay)
            else if attempt < 0x8000_0000 then 0
            else p.maxDelay
  {
    assert attempt > 0 ==> Power(0.0, attempt) == 0.0 * Power(0.0, attempt - 1) == 0.0;
  }

  lemma {:induction false} Shrinks(a: real, x: real, y: real)
    requires a >= 0.0 && 0.0 < x <= y
    ensures 0.0 <= Quotient(a, y) <= Quotient(a, x)
  {
    var u, v := a / x, a / y;
    assert u * x == a && v * y == a;
    assert u >= 0.0 && v >= 0.0;
    assert u * (y - x) >= 0.0;
    assert (u - v) * y == u * (y - x);
  }

  lemma {:induction false} ExponentWraps(attempt: nat)
    requires I32_RANGE <= attempt <= U32_MAX
    ensures Exponent(attempt) == attempt - 2 * I32_RANGE
  {
  }

  /** From the wrap to the last attempt number the delays grow again. */
  lemma {:induction false} WrappedDelaysGrow(p: RetryPolicy, i: nat, j: nat)
    requires p.multiplier >= 1.0 && I32_RANGE <= i <= j <= U32_MAX
    ensures CalculateDelay(p, i) <= CalculateDelay(p, j)
  {
    var m, n := 2 * I32_RANGE - i, 2 * I32_RANGE - j;
    PowerGrows(p.multiplier, n, m);
    PowerGrows(p.multiplier, 0, n);
    ExponentWraps(i);
    ExponentWraps(j);
    hide Power, AtMost, Exponent, Quotient, Scaled;
    var a, cap := p.initialDelay as real, p.maxDelay as real;
    Shrinks(a, Power(p.multiplier, n), Power(p.multiplier, m));
    CappedGrows(Quotient(a, Power(p.multiplier, m)), Quotient(a, Power(p.multiplier, n)), cap);
    assert UncutDelay(p, i) <= UncutDelay(p, j);
    hide UncutDelay;
  }

  /** The wrap does not shorten the delays of a policy that does not grow them,
      that has none, or whose cap is below every one of them. */
  predicate WrapHarmless(p: RetryPolicy) {
    || p.multiplier == 1.0
    || p.initialDelay == 0
    || Scaled(p.maxDelay as real, Power(p.multiplier, I32_RANGE)) <= p.initialDelay as real
  }

  lemma {:induction false} WrapHarmlessExactly(p: RetryPolicy)
    requires p.multiplier >= 1.0
    ensures CalculateDelay(p, I32_RANGE - 1) <= CalculateDelay(p, I32_RANGE) <==> WrapHarmless(p)
  {
    PowerGrows(p.multiplier, 0, I32_RANGE - 1);
    var before, after := Power(p.multiplier, I32_RANGE - 1), Power(p.multiplier, I32_RANGE);
    assert after == p.multiplier * before;
    Grow(before, p.multiplier);
    if p.multiplier > 1.0 {
      Strictly(before, p.multiplier);
    } else {
      PowerOfOne(I32_RANGE - 1);
    }
    ExponentWraps(I32_RANGE);
    hide Power, AtMost, Scaled, Quotient;
    DelaysAtWrap(p, before, after);
    WrapCompared(p.initialDelay, p.maxDelay, before, after);
  }

  lemma {:induction false} Strictly(x: real, m: real)
    requires x >= 1.0 && m > 1.0
    ensures m * x > 1.0
  {
  }

  lemma {:induction false} PowerOfOne(n: nat)
    ensures Power(1.0, n) == 1.0
  {
    if n > 0 {
      PowerOfOne(n - 1);
    }
  }

  lemma {:induction false} DelaysAtWrap(p: RetryPolicy, before: real, after: real)
    requires p.multiplier >= 1.0 && after != 0.0
    requires before == Power(p.multiplier, I32_RANGE - 1) && after == Power(p.multiplier, I32_RANGE)
    ensures CalculateDelay(p, I32_RANGE - 1) == ToUnsigned(AtMost(Scaled(p.initialDelay as real, before), p.maxDelay as real))
    ensures CalculateDelay(p, I32_RANGE) == ToUnsigned(AtMost(Quotient(p.initialDelay as real, after), p.maxDelay as real))
  {
    ExponentWraps(I32_RANGE);
    hide Power, AtMost, Scaled, Quotient;
  }

  /** The comparison, with the two powers as numbers. */
  lemma {:induction false} WrapCompared(initial: nat, cap: nat, before: real, after: real)
    requires 1.0 <= before <= after && (after == 1.0 || after > 1.0)
    ensures ToUnsigned(AtMost(Scaled(initial as real, before), cap as real)) <= ToUnsigned(AtMost(Quotient(initial as real, after), cap as real))
            <==> after == 1.0 || initial == 0 || Scaled(cap as real, after) <= initial as real
  {
    var a, c := initial as real, cap as real;
    Scale(a, 1.0, before);
    assert Scaled(a, 1.0) == a;
    Shrinks(a, 1.0, after);
    assert Quotient(a, 1.0) == a;
    QuotientAgainst(a, c, after);
    QuotientBelow(a, after);
    assert Quotient(a, after) == a ==> Scaled(a, before) == a;
    hide Scaled, Quotient, ToUnsigned, AtMost;
    FloorsCompared(initial, cap, Scaled(a, before), Quotient(a, after));
  }

  lemma {:induction false} FloorsCompared(a: nat, c: nat, u: real, v: real)
    requires 0.0 <= v <= a as real <= u && (v == a as real ==> u == v)
    ensures ToUnsigned(AtMost(u, c as real)) <= ToUnsigned(AtMost(v, c as real)) <==> v == a as real || v >= c as real
  {
    hide ToUnsigned;
    var x := AtMost(u, c as real);
    if v < a as real && v < c as real {
      var f := ToUnsigned(v);
      WholeBelow(f, a, v);
      WholeBelow(f, c, v);
      assert (f + 1) as real <= x;
      WholeBelow(f, ToUnsigned(x) + 1, (f + 1) as real);
    }
  }

  lemma {:induction false} WholeBelow(m: nat, n: nat, x: real)
    requires m as real <= x < n as real
    ensures m + 1 <= n
  {
  }

  lemma {:induction false} QuotientAgainst(a: real, c: real, d: real)
    requires d > 0.0
    ensures Quotient(a, d) >= c <==> Scaled(c, d) <= a
  {
    var q := a / d;
    assert q * d == a;
    if q >= c {
      assert (q - c) * d >= 0.0;
    } else {
      assert (c - q) * d > 0.0;
    }
  }

  lemma {:induction false} QuotientBelow(a: real, d: real)
    requires a >= 0.0 && d >= 1.0
    ensures Quotient(a, d) == a <==> d == 1.0 || a == 0.0
  {
    var q := a / d;
    assert q * d == a;
    if q == a {
      assert a * (d - 1.0) == 0.0;
    }
  }

  /** So the delays of a policy with such a multiplier grow up to attempt n
      exactly when n still fits the exponent or the wrap is harmless. */
  lemma {:induction false} DelaysGrowExactly(p: RetryPolicy, n: nat)
    requires p.multiplier >= 1.0 && n <= U32_MAX
    ensures (forall i: nat, j: nat :: i <= j <= n ==> CalculateDelay(p, i) <= CalculateDelay(p, j))
            <==> n < I32_RANGE || WrapHarmless(p)
  {
    hide CalculateDelay, WrapHarmless;
    WrapHarmlessExactly(p);
    if n < I32_RANGE || WrapHarmless(p) {
      forall i: nat, j: nat | i <= j <= n ensures CalculateDelay(p, i) <= CalculateDelay(p, j) {
        if j < I32_RANGE {
          DelaysGrow(p, i, j);
        } else if i >= I32_RANGE {
          WrappedDelaysGrow(p, i, j);
        } else {
          DelaysGrow(p, i, I32_RANGE - 1);
          WrappedDelaysGrow(p, I32_RANGE, j);
        }
      }
    }
  }

  lemma {:induction false} Between(base: real, factor: real, low: real)
    requires base >= 0.0 && low <= factor <= 1.0
    ensures Scaled(base, low) <= Scaled(base, factor) <= base
    ensures Scaled(base, 0.0) == 0.0
  {
  }

  /** With a multiplier of at least one, each delay is the multiplier times the
      one before, up to the cap, from the initial delay on. */
  lemma {:induction false} DelaysMultiply(p: RetryPolicy, n: nat)
    requires n + 1 < I32_RANGE && p.multiplier >= 1.0
    ensures UncutDelay(p, 0) == AtMost(p.initialDelay as real, p.maxDelay as real)
    ensures UncutDelay(p, n + 1) == AtMost(p.multiplier * UncutDelay(p, n), p.maxDelay as real)
  {
    hide UncutDelay, Power;
    DelayStep(p, n);
    ScaledIs(p.multiplier, UncutDelay(p, n));
  }

  lemma {:induction false} ScaledIs(m: real, u: real)
    ensures Scaled(m, u) == m * u
  {
  }

  lemma {:induction false} DelayStep(p: RetryPolicy, n: nat)
    requires n + 1 < I32_RANGE && p.multiplier >= 1.0
    ensures UncutDelay(p, 0) == AtMost(p.initialDelay as real, p.maxDelay as real)
    ensures UncutDelay(p, n + 1) == AtMost(Scaled(p.multiplier, UncutDelay(p, n)), p.maxDelay as real)
  {
    hide Scaled, Power, UncutDelay, AtMost;
    UncutSteps(p, n);
    CapTwice(Scaled(p.initialDelay as real, Power(p.multiplier, n)), p.multiplier, p.maxDelay as real);
  }

  lemma {:induction false} UncutSteps(p: RetryPolicy, n: nat)
    requires n + 1 < I32_RANGE && p.multiplier >= 1.0
    ensures var y := Scaled(p.initialDelay as real, Power(p.multiplier, n));
            && y >= 0.0
            && UncutDelay(p, 0) == AtMost(p.initialDelay as real, p.maxDelay as real)
            && UncutDelay(p, n) == AtMost(y, p.maxDelay as real)
            && UncutDelay(p, n + 1) == AtMost(Scaled(p.multiplier, y), p.maxDelay as real)
  {
    var a, m, x, z := p.initialDelay as real, p.multiplier, Power(p.multiplier, n), Power(p.multiplier, n + 1);
    assert z == Scaled(m, x) && Power(m, 0) == 1.0;
    PowerGrows(m, 0, n);
    ScaledTwice(a, m, x);
    Scale(a, 0.0, x);
    assert Scaled(a, 1.0) == a;
    hide Power, Scaled, AtMost;
  }

  lemma {:induction false} ScaledTwice(a: real, m: real, x: real)
    ensures Scaled(a, Scaled(m, x)) == Scaled(m, Scaled(a, x))
  {
  }

  lemma {:induction false} CapTwice(y: real, m: real, cap: real)
    requires y >= 0.0 && cap >= 0.0 && m >= 1.0
    ensures AtMost(Scaled(m, y), cap) == AtMost(Scaled(m, AtMost(y, cap)), cap)
  {
    Grow(cap, m);
    Grow(y, m);
  }

  /** The default policy waits 100, 200, 400 milliseconds and so on, up to ten
      seconds; a jitter drawn in the middle takes one twentieth off. */
  lemma {:induction false} DefaultDelays()
    ensures CalculateDelay(DEFAULT, 0) == 100 && CalculateDelay(DEFAULT, 1) == 200 && CalculateDelay(DEFAULT, 2) == 400
    ensures CalculateDelay(DEFAULT, 6) == 6400 && CalculateDelay(DEFAULT, 7) == 10_000
    ensures JitteredDelay(DEFAULT, 0, 0.5) == 95 && JitteredDelay(DEFAULT, 1, 0.5) == 190
  {
    hide UncutDelay;
    DelaysMultiply(DEFAULT, 0);
    DelaysMultiply(DEFAULT, 1);
    DelaysMultiply(DEFAULT, 2);
    DelaysMultiply(DEFAULT, 3);
    DelaysMultiply(DEFAULT, 4);
    DelaysMultiply(DEFAULT, 5);
    DelaysMultiply(DEFAULT, 6);
  }

  /** Jitter only shortens a delay, by at most its factor, but never below one
      millisecond, not even a delay of zero. */
  lemma {:induction false} JitterBounds(p: RetryPolicy, attempt: nat, random: real)
    requires 0.0 <= p.jitter <= 1.0 && 0.0 <= random < 1.0
    ensures var base, delay := CalculateDelay(p, attempt), JitteredDelay(p, attempt, random);
            && (p.jitter == 0.0 ==> delay == base)
            && (p.jitter > 0.0 ==> 1 <= delay && (delay <= base || delay == 1))
            && Scaled(base as real, 1.0 - p.jitter) < delay as real + 1.0
  {
    var base := CalculateDelay(p, attempt);
    Between(p.jitter, random, 0.0);
    Between(base as real, 1.0 - p.jitter, 1.0 - p.jitter);
    hide CalculateDelay, Scaled, ToUnsigned;
    JitterFactor(base as real, 1.0 - Scaled(p.jitter, random), 1.0 - p.jitter);
  }

  lemma {:induction false} JitterFactor(base: real, factor: real, low: real)
    requires base >= 0.0 && low <= factor <= 1.0
    ensures var jittered := Scaled(base, factor);
            var delay := ToUnsigned(if jittered >= 1.0 then jittered else 1.0);
            1 <= delay && (delay as real <= base || delay == 1) && Scaled(base, low) < delay as real + 1.0
  {
    Between(base, factor, low);
    hide Scaled;
  }

  /** The cap also holds for every jittered delay exactly when there is no
      jitter or the cap is not zero. */
  lemma {:induction false} JitteredDelayCapped(p: RetryPolicy)
    requires 0.0 <= p.jitter <= 1.0
    ensures (forall attempt: nat, random: real :: 0.0 <= random < 1.0 ==> JitteredDelay(p, attempt, random) <= p.maxDelay)
            <==> p.jitter == 0.0 || p.maxDelay >= 1
  {
    hide CalculateDelay, JitteredDelay;
    if p.jitter == 0.0 || p.maxDelay >= 1 {
      forall attempt: nat, random: real | 0.0 <= random < 1.0 ensures JitteredDelay(p, attempt, random) <= p.maxDelay {
        DelayCapped(p, attempt);
        JitterBounds(p, attempt, random);
      }
    } else {
      JitterBounds(p, 0, 0.0);
      assert JitteredDelay(p, 0, 0.0) > p.maxDelay;
    }
  }

  // ---------------------------------------------------------------------
  // The loop
  // ---------------------------------------------------------------------

  predicate Final<T>(a: Attempt<T>) {
    a.Success? || !a.retryable
  }

  /** The most calls a policy makes. */
  function Limit(p: RetryPolicy): nat {
    if p.maxRetries == 0 then 1 else p.maxRetries
  }

  /** The operation is called until a call is final, or up to the limit. */
  ghost predicate CallsMade<T>(operation: nat -> Attempt<T>, limit: nat, calls: nat) {
    && 1 <= calls <= limit
    && (forall i :: 0 <= i < calls - 1 ==> !Final(operation(i)))
    && (Final(operation(calls - 1)) || calls == limit)
  }

  /** What the caller learns from the last call. */
  function Verdict<T>(last: Attempt<T>, calls: nat): RetryResult<T> {
    match last
    case Success(v) => Done(v)
    case Failure(e, retryable) => if retryable then MaxRetriesExceeded(e, calls) else NonRetryable(e, calls)
  }

  function SaturatingIncrement(n: nat): nat {
    if n >= U32_MAX then U32_MAX else n + 1
  }

  /** `random(i)` is the number drawn before retry i; `delays` are the waits. */
  method ExecuteWithRetry<T>(p: RetryPolicy, operation: nat -> Attempt<T>, random: nat -> real)
    returns (r: RetryResult<T>, calls: nat, delays: seq<nat>)
    requires p.maxRetries <= U32_MAX
    ensures CallsMade(operation, Limit(p), calls)
    ensures r == Verdict(operation(calls - 1), calls)
    ensures forall i :: 0 <= i < calls - 1 ==> operation(i).Failure? && operation(i).retryable
    ensures match operation(calls - 1)
            case Success(v) => r == Done(v)
            case Failure(e, retryable) =>
              if retryable then r == MaxRetriesExceeded(e, calls) && calls == (if p.maxRetries >= 1 then p.maxRetries else 1)
              else r == NonRetryable(e, calls)
    ensures |delays| == calls - 1
    ensures forall i :: 0 <= i < |delays| ==> delays[i] == JitteredDelay(p, i, random(i))
  {
    hide JitteredDelay;
    var attempts := 0;
    calls, delays := 0, [];
    while true
      invariant attempts == calls == |delays| && calls < Limit(p)
      invariant forall i :: 0 <= i < calls ==> !Final(operation(i))
      invariant forall i :: 0 <= i < |delays| ==> delays[i] == JitteredDelay(p, i, random(i))
      decreases Limit(p) - calls
    {
      attempts := SaturatingIncrement(attempts);
      var outcome := operation(calls);
      calls := calls + 1;
      match outcome {
        case Success(value) =>
          return Done(value), calls, delays;
        case Failure(error, retryable) =>
          if !retryable {
            return NonRetryable(error, attempts), calls, delays;
          }
          if attempts >= p.maxRetries {
            return MaxRetriesExceeded(error, attempts), calls, delays;
          }
          delays := delays + [JitteredDelay(p, attempts - 1, random(attempts - 1))];
      }
    }
  }

  /** With the first final outcome at call k, exactly the smaller of k and the
      limit; without one, exactly the limit. */
  lemma {:induction false} CallsAreMinimal<T>(operation: nat -> Attempt<T>, limit: nat, calls: nat, k: nat)
    requires k >= 1 && limit >= 1
    requires forall i :: 0 <= i < k - 1 ==> !Final(operation(i))
    requires Final(operation(k - 1)) || k >= limit
    ensures CallsMade(operation, limit, calls) <==> calls == if k <= limit then k else limit
  {
    var last := operation(k - 1);
  }

  /** Told from the outcomes: the loop goes on past retryable failures and past
      nothing else, and gives up at the limit only. */
  lemma {:induction false} StopsAsDocumented<T>(p: RetryPolicy, operation: nat -> Attempt<T>, calls: nat)
    requires CallsMade(operation, Limit(p), calls)
    ensures forall i :: 0 <= i < calls - 1 ==> operation(i).Failure? && operation(i).retryable
    ensures match operation(calls - 1)
            case Success(v) => Verdict(operation(calls - 1), calls) == Done(v)
            case Failure(e, false) => Verdict(operation(calls - 1), calls) == NonRetryable(e, calls)
            case Failure(e, true) =>
              && Verdict(operation(calls - 1), calls) == MaxRetriesExceeded(e, calls)
              && calls == if p.maxRetries >= 1 then p.maxRetries else 1
  {
    var last := operation(calls - 1);
    forall i | 0 <= i < calls - 1 ensures operation(i).Failure? && operation(i).retryable {
      assert !Final(operation(i));
    }
  }

  /** The documentation promises max_retries retries behind the first call. An
      operation that keeps failing is retried that often only if max_retries
      is 0; otherwise once less. */
  lemma {:induction false} RetriesAsDocumented<T>(p: RetryPolicy, operation: nat -> Attempt<T>, calls: nat)
    requires forall i: nat :: !Final(operation(i))
    requires CallsMade(operation, Limit(p), calls)
    ensures calls - 1 == p.maxRetries <==> p.maxRetries == 0
    ensures p.maxRetries > 0 ==> calls - 1 == p.maxRetries - 1
  {
    CallsAreMinimal(operation, Limit(p), calls, Limit(p));
  }
}
