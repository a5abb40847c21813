/** Delays between attempts to reach the core's web socket again. Durations are in nanoseconds. */
module Backoff {
  const U32_MAX: nat := 0xFFFF_FFFF
  const U64_MAX: nat := 0xFFFF_FFFF_FFFF_FFFF

  /** `Duration::MAX`: all its seconds and nanoseconds. */
  const DURATION_MAX: nat := U64_MAX * 1_000_000_000 + 999_999_999
  const JITTER_DIVISOR: nat := 4

  type Duration = d: nat | d <= DURATION_MAX
  type U32 = n: nat | n <= U32_MAX
  type U64 = n: nat | n <= U64_MAX

  function Min(a: nat, b: nat): nat {
    if a < b then a else b
  }

  function Saturated(d: nat): Duration {
    Min(d, DURATION_MAX)
  }

  function Power2(k: nat): nat {
    if k == 0 then 1 else 2 * Power2(k - 1)
  }

  /** `1_u32 << k`, when it can be shifted that far. */
  function ShiftedOne(k: nat): nat {
    if k < 32 then Power2(k) else U32_MAX
  }

  function Base(attempt: U32, initial: Duration, max: Duration): Duration {
    var scaled := Saturated(initial * ShiftedOne(Min(attempt, 16)));
    if scaled > max then max else scaled
  }

  function JitterLimit(base: Duration): U64 {
    Min(base / JITTER_DIVISOR, U64_MAX)
  }

  function Jitter(base: Duration, seed: U64): Duration {
    var limit := JitterLimit(base);
    if limit == 0 then 0 else seed % (limit + 1)
  }

  function ReconnectDelay(attempt: U32, initial: Duration, max: Duration, seed: U64): Duration {
    var base := Base(attempt, initial, max);
    Saturated(base + Jitter(base, seed))
  }

  class WebSocketReconnectBackoff {
    var attempt: U32
    const initial: Duration
    const max: Duration

    constructor (initial: Duration, max: Duration)
      ensures attempt == 0 && this.initial == initial && this.max == max
    {
      this.attempt := 0;
      this.initial := initial;
      this.max := max;
    }

    method Reset()
      modifies this
      ensures attempt == 0
    {
      attempt := 0;
    }

    /** The seed stands for the clock and the process id. */
    method NextDelay(seed: U64) returns (delay: Duration)
      modifies this
      ensures delay == ReconnectDelay(old(attempt), initial, max, seed)
      ensures attempt == Min(old(attempt) + 1, U32_MAX)
    {
      delay := ReconnectDelay(attempt, initial, max, seed);
      attempt := if attempt < U32_MAX then attempt + 1 else attempt;
    }
  }

  // -------------------------------------------------------------------------- properties

  /** The attempts counted after `failures` calls of `NextDelay` since the last reset. */
  function AttemptsAfter(failures: nat): U32 {
    if failures == 0 then 0 else Min(AttemptsAfter(failures - 1) + 1, U32_MAX)
  }

  lemma {:induction false} Power2Grows(a: nat, b: nat)
    requires a <= b
    ensures 1 <= Power2(a) <= Power2(b)
    decreases b
  {
    if a < b {
      Power2Grows(a, b - 1);
    } else if a > 0 {
      Power2Grows(a - 1, b - 1);
    }
  }

  lemma {:induction false} AttemptsSaturate(failures: nat)
    ensures AttemptsAfter(failures) == Min(failures, U32_MAX)
  {
    if failures > 0 {
      AttemptsSaturate(failures - 1);
    }
  }

  /** The intended base, without any bound on numbers. */
  function ExactBase(failures: nat, initial: nat, max: nat): nat {
    Min(initial * Power2(Min(failures, 16)), max)
  }

  /** Saturation and the shift's fallback never show: the base is the exact minimum. */
  lemma BaseExact(failures: nat, initial: Duration, max: Duration)
    ensures Base(AttemptsAfter(failures), initial, max) == ExactBase(failures, initial, max)
  {
    AttemptsSaturate(failures);
    assert Min(Min(failures, U32_MAX), 16) == Min(failures, 16);
  }

  lemma MinDoubles(x: nat, y: nat, max: nat)
    requires y == x || y == 2 * x
    ensures Min(x, max) <= Min(y, max) <= 2 * Min(x, max)
  {
  }

  lemma ExactBaseGrows(failures: nat, initial: nat, max: nat)
    ensures ExactBase(failures, initial, max) <= ExactBase(failures + 1, initial, max)
            <= 2 * ExactBase(failures, initial, max)
  {
    var p, q := Power2(Min(failures, 16)), Power2(Min(failures + 1, 16));
    assert q == p || q == 2 * p;
    ProductDoubles(initial, p, q);
    MinDoubles(initial * p, initial * q, max);
  }

  lemma ProductDoubles(initial: nat, p: nat, q: nat)
    requires q == p || q == 2 * p
    ensures initial * q == initial * p || initial * q == 2 * (initial * p)
  {
  }

  /** More failures never shorten the base, which is at most twice the one before. */
  lemma BaseGrows(failures: nat, initial: Duration, max: Duration, base: Duration, next: Duration)
    requires base == Base(AttemptsAfter(failures), initial, max)
    requires next == Base(AttemptsAfter(failures + 1), initial, max)
    ensures base <= next <= 2 * base
  {
    BaseExact(failures, initial, max);
    BaseExact(failures + 1, initial, max);
    ExactBaseGrows(failures, initial, max);
  }

  /** Whatever the seed, a delay lies between the base and a quarter more. */
  lemma DelayBounds(attempt: U32, initial: Duration, max: Duration, seed: U64)
    ensures var base := Base(attempt, initial, max);
            base <= ReconnectDelay(attempt, initial, max, seed) <= base + base / 4
  {
    var base := Base(attempt, initial, max);
    if JitterLimit(base) > 0 {
      assert seed % (JitterLimit(base) + 1) <= JitterLimit(base);
    }
  }

  lemma Unreduced(n: nat, m: nat)
    requires n < m
    ensures n % m == n
  {
  }

  lemma JitterReached(base: Duration, seed: U64)
    requires seed <= JitterLimit(base)
    ensures Jitter(base, seed) == seed
  {
    Unreduced(seed, JitterLimit(base) + 1);
  }

  /** Both bounds are reached, as far as durations and 64-bit seeds go. */
  lemma DelayBoundsTight(attempt: U32, initial: Duration, max: Duration)
    ensures var base := Base(attempt, initial, max);
            && ReconnectDelay(attempt, initial, max, 0) == base
            && exists seed: U64 ::
                 ReconnectDelay(attempt, initial, max, seed) == Saturated(base + Min(base / 4, U64_MAX))
  {
    var base := Base(attempt, initial, max);
    JitterReached(base, 0);
    JitterReached(base, JitterLimit(base));
    var seed: U64 := JitterLimit(base);
    assert ReconnectDelay(attempt, initial, max, seed) == Saturated(base + Min(base / 4, U64_MAX));
  }

  /** `rest` is what some whole turns of length `m` leave of `seed`. */
  predicate IsRest(seed: nat, turns: nat, m: nat, rest: nat) {
    seed == turns * m + rest && rest < m
  }

  lemma QuotientAndRest(seed: nat, m: nat)
    requires m > 0
    ensures IsRest(seed, seed / m, m, seed % m)
  {
  }

  lemma RestOfOne(seed: nat)
    ensures seed % 1 == 0
  {
  }

  lemma JitterIsRest(base: Duration, seed: U64)
    ensures Jitter(base, seed) == seed % (JitterLimit(base) + 1)
  {
    RestOfOne(seed);
  }

  /** One nanosecond more than a quarter of the base, which is cut to 64 bits. */
  function TurnLength(base: Duration): nat {
    var quarter := base / 4;
    if quarter <= 0xFFFF_FFFF_FFFF_FFFF then quarter + 1 else 0x1_0000_0000_0000_0000
  }

  lemma TurnsAreLimits(base: Duration)
    ensures TurnLength(base) == JitterLimit(base) + 1
  {
  }

  lemma RestIs(seed: nat, turns: nat, m: nat, rest: nat, jitter: nat)
    requires IsRest(seed, turns, m, rest) && jitter == rest
    ensures IsRest(seed, turns, m, jitter)
  {
  }

  /** The jitter is what whole turns leave of the seed, so all values up to a quarter come up alike. */
  lemma JitterExact(base: Duration, seed: U64) returns (turns: nat)
    ensures IsRest(seed, turns, TurnLength(base), Jitter(base, seed))
  {
    var m := TurnLength(base);
    TurnsAreLimits(base);
    JitterIsRest(base, seed);
    QuotientAndRest(seed, m);
    turns := seed / m;
    RestIs(seed, turns, m, seed % m, Jitter(base, seed));
  }

  /** From one failure to the next the delay can only fall by jitter: never below the earlier base. */
  lemma DelaysOverFailures(earlier: nat, later: nat, initial: Duration, max: Duration, seed: U64)
    requires earlier <= later
    ensures Base(AttemptsAfter(earlier), initial, max) <= ReconnectDelay(AttemptsAfter(later), initial, max, seed)
    ensures 4 * ReconnectDelay(AttemptsAfter(later), initial, max, seed) <= 5 * max
  {
    BasesGrow(earlier, later, initial, max);
    DelayBounds(AttemptsAfter(later), initial, max, seed);
  }

  lemma {:induction false} BasesGrow(earlier: nat, later: nat, initial: Duration, max: Duration)
    requires earlier <= later
    ensures Base(AttemptsAfter(earlier), initial, max) <= Base(AttemptsAfter(later), initial, max) <= max
    decreases later
  {
    if earlier < later {
      BasesGrow(earlier, later - 1, initial, max);
      var before, after := AttemptsAfter(later - 1), AttemptsAfter(later);
      BaseGrows(later - 1, initial, max, Base(before, initial, max), Base(after, initial, max));
    }
  }

  // -------------------------------------------------------------------- the monitor loop

  /** One round of a monitor: the events read before the connection failed, and the next seed. */
  datatype Round = Round(events: nat, seed: U64)

  /** The rounds without an event since the last event, or since the start, before the delay of round `i`. */
  function FailuresBefore(rounds: seq<Round>, i: nat): nat
    requires i < |rounds|
  {
    if i == 0 || rounds[i].events > 0 then 0 else FailuresBefore(rounds, i - 1) + 1
  }

  /** `delay` lies between the base for so many failures and a quarter more. */
  predicate Fits(delay: Duration, failures: nat, initial: Duration, max: Duration) {
    ExactBase(failures, initial, max) <= delay <= ExactBase(failures, initial, max) + ExactBase(failures, initial, max) / 4
  }

  lemma RoundDelay(failures: nat, initial: Duration, max: Duration, seed: U64)
    ensures Fits(ReconnectDelay(AttemptsAfter(failures), initial, max, seed), failures, initial, max)
  {
    BaseExact(failures, initial, max);
    DelayBounds(AttemptsAfter(failures), initial, max, seed);
  }

  /** One connection: every event read from it restarts the backoff; then it fails and the delay is taken. */
  method MonitorRound(backoff: WebSocketReconnectBackoff, round: Round, ghost failures: nat) returns (delay: Duration)
    requires backoff.attempt == AttemptsAfter(failures)
    modifies backoff
    ensures Fits(delay, if round.events > 0 then 0 else failures, backoff.initial, backoff.max)
    ensures backoff.attempt == AttemptsAfter((if round.events > 0 then 0 else failures) + 1)
  {
    for event := 0 to round.events
      invariant backoff.attempt == if event == 0 then AttemptsAfter(failures) else 0
    {
      backoff.Reset();
    }
    RoundDelay(if round.events > 0 then 0 else failures, backoff.initial, backoff.max, round.seed);
    delay := backoff.NextDelay(round.seed);
  }

  /** A delay depends on the failures since the last event alone. */
  method MonitorDelays(initial: Duration, max: Duration, rounds: seq<Round>) returns (delays: seq<Duration>)
    ensures |delays| == |rounds|
    ensures forall i :: 0 <= i < |rounds| ==> Fits(delays[i], FailuresBefore(rounds, i), initial, max)
  {
    var backoff := new WebSocketReconnectBackoff(initial, max);
    ghost var failures := 0;
    delays := [];
    for i := 0 to |rounds|
      invariant |delays| == i && fresh(backoff) && backoff.initial == initial && backoff.max == max
      invariant failures == if i == 0 then 0 else FailuresBefore(rounds, i - 1) + 1
      invariant backoff.attempt == AttemptsAfter(failures)
      invariant forall k :: 0 <= k < i ==> Fits(delays[k], FailuresBefore(rounds, k), initial, max)
    {
      var delay := MonitorRound(backoff, rounds[i], failures);
      failures := FailuresBefore(rounds, i) + 1;
      delays := delays + [delay];
    }
  }
}
