/** How long to wait before a retry: a Retry-After header, or an exponential
    backoff with jitter, all in 32-bit arithmetic. */
module Backoff {
  import opened Core
  import opened HttpHead

  datatype RetryPolicy = RetryPolicy(
    maxRetries: Uint8,
    initialBackoffMs: Uint32,
    maxBackoffMs: Uint32,
    respectRetryAfter: bool,
    jitter: bool)

  function Min(a: nat, b: nat): nat { if a < b then a else b }

  function Pow2(n: nat): nat { if n == 0 then 1 else 2 * Pow2(n - 1) }

  // ---- The Retry-After header ----

  /** A header value in milliseconds; 0 if it is not a usable number. */
  function RetryAfterMs(value: string): Uint32 {
    if AllDigits(value) && DigitsValue(0, value) <= 40_000_009 then DigitsValue(0, value) * 1000 % TWO_32 else 0
  }

  lemma {:induction false} DigitsGrow(acc: nat, s: string)
    requires AllDigits(s)
    ensures DigitsValue(acc, s) >= acc && (s != "" ==> DigitsValue(acc, s) >= 10 * acc)
    decreases |s|
  {
    if s != "" {
      DigitsGrow(acc * 10 + (s[0] as int - '0' as int), s[1..]);
    }
  }

  method ParseRetryAfterMs(value: string) returns (ms: Uint32)
    ensures ms == RetryAfterMs(value)
  {
    var seconds: Uint32 := 0;
    assert value[0..] == value;
    for i := 0 to |value|
      invariant seconds <= 40_000_009
      invariant AllDigits(value[i..]) <==> AllDigits(value)
      invariant AllDigits(value) ==> DigitsValue(0, value) == DigitsValue(seconds, value[i..])
    {
      var c := value[i];
      assert value[i..][0] == c && value[i..][1..] == value[i + 1..];
      if c < '0' || c > '9' { return 0; }
      if seconds > 4_000_000 {
        if AllDigits(value) { DigitsGrow(seconds, value[i..]); }
        return 0;
      }
      assert AllDigits(value[i..]) <==> AllDigits(value[i + 1..]) by { DigitsTail(value[i..]); }
      seconds := (seconds * 10 + (c as int - '0' as int)) % TWO_32;
    }
    ms := seconds * 1000 % TWO_32;
  }

  lemma {:induction false} DigitsTail(s: string)
    requires s != "" && '0' <= s[0] <= '9'
    ensures AllDigits(s) <==> AllDigits(s[1..])
  {
    if AllDigits(s[1..]) {
      forall k | 0 <= k < |s| ensures '0' <= s[k] <= '9' {
        if k > 0 { assert s[k] == s[1..][k - 1]; }
      }
    }
  }

  /** The header is read exactly for up to 4,294,967 seconds, and never beyond:
      then the product wraps, or the value is ignored. */
  lemma {:induction false} RetryAfterExactly(value: string)
    requires AllDigits(value)
    ensures RetryAfterMs(value) == 1000 * DigitsValue(0, value) <==> DigitsValue(0, value) <= 4_294_967
  {
    hide AllDigits, DigitsValue;
  }

  /** One second more than that is read as less than a second. */
  lemma {:induction false} RetryAfterWraps(value: string)
    requires AllDigits(value) && DigitsValue(0, value) == 4_294_968
    ensures RetryAfterMs(value) == 704
  {
    hide AllDigits, DigitsValue;
    Remainder(4_294_968_000, 1, 704);
  }

  // ---- The doubling backoff ----

  /** At most `n` doublings in 32 bits, none once `max` is reached. */
  function Doubled(backoff: Uint32, max: Uint32, n: nat): Uint32
    decreases n
  {
    if n == 0 || backoff >= max then backoff else Doubled(backoff * 2 % TWO_32, max, n - 1)
  }

  function Ceiling(p: RetryPolicy, attempt: nat): (r: Uint32)
    ensures r <= p.maxBackoffMs
  {
    Min(Doubled(p.initialBackoffMs, p.maxBackoffMs, attempt), p.maxBackoffMs)
  }

  lemma {:induction false} PowStep(backoff: nat, n: nat)
    ensures n > 0 ==> backoff * Pow2(n) == 2 * backoff * Pow2(n - 1)
  {
  }

  lemma {:induction false} PowGrows(backoff: nat, n: nat)
    ensures backoff * Pow2(n) >= backoff
    decreases n
  {
    if n > 0 {
      PowGrows(2 * backoff, n - 1);
      PowStep(backoff, n);
    }
  }

  lemma {:induction false} DoubledClosed(backoff: Uint32, max: Uint32, n: nat)
    requires max <= TWO_31
    ensures Min(Doubled(backoff, max, n), max) == Min(backoff * Pow2(n), max)
    decreases n
  {
    PowGrows(backoff, n);
    PowStep(backoff, n);
    hide Pow2;
    if n > 0 && backoff < max {
      Remainder(backoff * 2, 0, backoff * 2);
      DoubledClosed(backoff * 2, max, n - 1);
    } else if n == 0 {
      PowZero(backoff);
    }
  }

  lemma {:induction false} PowZero(backoff: nat)
    ensures backoff * Pow2(0) == backoff
  {
  }

  /** The closed form holds for every first wait and every attempt exactly if
      the ceiling is at most 2^31; above it, doubling can wrap to nothing. */
  lemma {:induction false} ClosedFormExactly(max: Uint32)
    ensures (forall initial: Uint32, n: nat :: Min(Doubled(initial, max, n), max) == Min(initial * Pow2(n), max))
       <==> max <= TWO_31
  {
    if max <= TWO_31 {
      forall initial: Uint32, n: nat ensures Min(Doubled(initial, max, n), max) == Min(initial * Pow2(n), max) {
        DoubledClosed(initial, max, n);
      }
    } else {
      DoublingWraps(max);
    }
  }

  lemma {:induction false} DoublingWraps(max: Uint32)
    requires max > TWO_31
    ensures Min(Doubled(TWO_31, max, 1), max) == 0 && Min(TWO_31 * Pow2(1), max) == max
  {
    assert Doubled(TWO_31, max, 1) == Doubled(0, max, 0);
    assert Pow2(1) == 2 * Pow2(0);
  }

  // ---- Jitter ----

  const MULTIPLIER: nat := 1664525
  const INCREMENT: nat := 1013904223

  function NextJitter(state: Uint32): Uint32 { (state * MULTIPLIER + INCREMENT) % TWO_32 }

  function Spread(backoff: Uint32, state: Uint32): (r: Uint32)
    ensures backoff / 2 <= r <= backoff
  {
    backoff / 2 + state % (backoff - backoff / 2 + 1)
  }

  /** The generator's first values from zero. */
  lemma {:induction false} FirstValues()
    ensures NextJitter(0) == 1013904223 && NextJitter(1013904223) == 1196435762
  {
    Remainder(1013904223, 0, 1013904223);
    Remainder(1013904223 * 1664525 + 1013904223, 392941, 1196435762);
  }

  /** The generator reaches every 32-bit value. */
  lemma {:induction false} JitterIsOnto(target: Uint32) returns (state: Uint32)
    ensures NextJitter(state) == target
  {
    // 4276115653 inverts the multiplier: their product is 1657219 * 2^32 + 1
    var d: nat := target + TWO_32 - INCREMENT;
    state := d * 4276115653 % TWO_32;
    var q := d * 4276115653 / TWO_32;
    var k := d * 1657219 - q * MULTIPLIER + 1;
    assert state * MULTIPLIER + INCREMENT == k * TWO_32 + target;
    Remainder(state * MULTIPLIER + INCREMENT, k, target);
  }

  lemma {:induction false} Remainder(n: nat, k: int, r: Uint32)
    requires n == k * TWO_32 + r
    ensures n % TWO_32 == r
  {
  }

  lemma {:induction false} SpreadAt(backoff: Uint32, state: Uint32)
    requires state <= backoff - backoff / 2
    ensures Spread(backoff, state) == backoff / 2 + state
  {
    SmallRemainder(state, backoff - backoff / 2 + 1);
  }

  lemma {:induction false} SmallRemainder(a: nat, m: nat)
    requires a < m
    ensures a % m == a
  {
  }

  /** With jitter, the waits are exactly the numbers from half the backoff, rounded
      down, to all of it. */
  lemma {:induction false} JitterRange(backoff: Uint32, w: nat)
    ensures (exists state: Uint32 :: Spread(backoff, NextJitter(state)) == w) <==> backoff / 2 <= w <= backoff
  {
    hide NextJitter, Spread;
    if backoff / 2 <= w <= backoff {
      var state := JitterIsOnto(w - backoff / 2);
      SpreadAt(backoff, w - backoff / 2);
      assert Spread(backoff, NextJitter(state)) == w;
    }
  }

  // ---- The wait as a whole ----

  /** What the server asks for, in milliseconds; 0 if nothing counts. */
  function Directed(p: RetryPolicy, retryAfter: Option<string>): Uint32 {
    if p.respectRetryAfter && retryAfter.Some? then RetryAfterMs(retryAfter.value) else 0
  }

  /** The wait after failed attempt number `attempt`, and the new jitter state. */
  function BackoffStep(p: RetryPolicy, attempt: nat, retryAfter: Option<string>, state: Uint32): (Uint32, Uint32) {
    var directed, backoff := Directed(p, retryAfter), Ceiling(p, attempt);
    if directed > 0 then (Min(directed, p.maxBackoffMs), state)
    else if p.jitter && backoff > 1 then (Spread(backoff, NextJitter(state)), NextJitter(state))
    else (backoff, state)
  }

  /** What a wait may be. */
  ghost predicate WaitOk(p: RetryPolicy, attempt: nat, retryAfter: Option<string>, w: nat) {
    var directed, backoff := Directed(p, retryAfter), Ceiling(p, attempt);
    if directed > 0 then w == Min(directed, p.maxBackoffMs)
    else if p.jitter && backoff > 1 then backoff / 2 <= w <= backoff
    else w == backoff
  }

  /** The possible waits are exactly those. */
  lemma {:induction false} WaitsExactly(p: RetryPolicy, attempt: nat, retryAfter: Option<string>, w: nat)
    ensures (exists state: Uint32 :: BackoffStep(p, attempt, retryAfter, state).0 == w)
       <==> WaitOk(p, attempt, retryAfter, w)
  {
    var backoff := Ceiling(p, attempt);
    JitterRange(backoff, w);
    hide Spread, NextJitter, Ceiling, Directed, Min;
    if WaitOk(p, attempt, retryAfter, w) {
      var state: Uint32 :|
        Directed(p, retryAfter) == 0 && p.jitter && backoff > 1 ==> Spread(backoff, NextJitter(state)) == w;
      assert BackoffStep(p, attempt, retryAfter, state).0 == w;
    }
  }

  /** `initial`, doubled per attempt, up to `max`. */
  function FullWait(p: RetryPolicy, attempt: nat): nat {
    Min(p.initialBackoffMs * Pow2(attempt), p.maxBackoffMs)
  }

  lemma {:induction false} BackoffWithoutHeader(p: RetryPolicy, attempt: nat, state: Uint32)
    requires !p.jitter
    ensures BackoffStep(p, attempt, None, state) == (Ceiling(p, attempt), state)
  {
    hide Ceiling;
  }

  /** Without header and jitter the wait is that for every policy, attempt and
      state exactly if the ceiling is at most 2^31. */
  lemma {:induction false} BackoffExactly(max: Uint32)
    ensures (forall p: RetryPolicy, attempt: nat, state: Uint32 | p.maxBackoffMs == max && !p.jitter ::
               BackoffStep(p, attempt, None, state) == (FullWait(p, attempt), state))
       <==> max <= TWO_31
  {
    if max <= TWO_31 {
      forall p: RetryPolicy, attempt: nat, state: Uint32 | p.maxBackoffMs == max && !p.jitter
        ensures BackoffStep(p, attempt, None, state) == (FullWait(p, attempt), state)
      {
        BackoffWithoutHeader(p, attempt, state);
        DoubledClosed(p.initialBackoffMs, max, attempt);
        hide BackoffStep, Doubled, Pow2;
      }
    } else {
      var p := RetryPolicy(0, TWO_31, max, false, false);
      DoublingWraps(max);
      BackoffWithoutHeader(p, 1, 0);
      hide BackoffStep, Doubled, Pow2;
      assert BackoffStep(p, 1, None, 0) != (FullWait(p, 1), 0);
    }
  }

  /** With a ceiling of at most 2^31, what a wait is, header and jitter counted. */
  lemma {:induction false} WaitInWords(p: RetryPolicy, attempt: nat, retryAfter: Option<string>, w: nat)
    requires p.maxBackoffMs <= TWO_31 && WaitOk(p, attempt, retryAfter, w)
    ensures var full := FullWait(p, attempt);
      if p.respectRetryAfter && retryAfter.Some? && RetryAfterMs(retryAfter.value) > 0 then
        w == Min(RetryAfterMs(retryAfter.value), p.maxBackoffMs)
      else if p.jitter then full / 2 <= w <= full && (full == 1 ==> w == 1)
      else w == full
  {
    DoubledClosed(p.initialBackoffMs, p.maxBackoffMs, attempt);
    hide Doubled, Pow2, RetryAfterMs;
  }

  /** Which numbers the wait itself honours, for every generator state: all up to
      4,294,967 seconds. A larger one is honoured only if what it wraps to still
      reaches the ceiling, or if it is ignored and the backoff is at the ceiling
      without jitter. */
  lemma {:induction false} HonouredExactly(p: RetryPolicy, attempt: nat, value: string)
    requires p.respectRetryAfter && AllDigits(value) && DigitsValue(0, value) >= 1
    ensures (forall state: Uint32 ::
               BackoffStep(p, attempt, Some(value), state).0 == Min(1000 * DigitsValue(0, value), p.maxBackoffMs))
       <==> (|| DigitsValue(0, value) <= 4_294_967
             || RetryAfterMs(value) >= p.maxBackoffMs
             || (RetryAfterMs(value) == 0 && Ceiling(p, attempt) == p.maxBackoffMs
                 && (!p.jitter || p.maxBackoffMs <= 1)))
  {
    RetryAfterExactly(value);
    JitterRange(Ceiling(p, attempt), p.maxBackoffMs / 2);
    hide AllDigits, DigitsValue, RetryAfterMs, NextJitter, Spread, Doubled, Ceiling;
    var max, wanted := p.maxBackoffMs, 1000 * DigitsValue(0, value);
    assert wanted > 4_294_967_000 ==> Min(wanted, max) == max;
    if RetryAfterMs(value) == 0 && Ceiling(p, attempt) == max && p.jitter && max > 1 {
      var state: Uint32 :| Spread(max, NextJitter(state)) == max / 2;
      assert BackoffStep(p, attempt, Some(value), state).0 == max / 2;
    } else {
      assert forall state: Uint32 | RetryAfterMs(value) > 0 ::
          BackoffStep(p, attempt, Some(value), state).0 == Min(RetryAfterMs(value), max);
      var first := BackoffStep(p, attempt, Some(value), 0).0;
    }
  }

  /** Zero seconds are no different from no header at all. */
  lemma {:induction false} ZeroIsNoHeader(p: RetryPolicy, attempt: nat, value: string, state: Uint32)
    requires !AllDigits(value) || DigitsValue(0, value) == 0
    ensures BackoffStep(p, attempt, Some(value), state) == BackoffStep(p, attempt, None, state)
  {
    hide AllDigits, DigitsValue, NextJitter, Spread, Ceiling;
  }
}
