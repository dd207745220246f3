/**
 The token bucket of the RPC rate limiter: one 64-bit word packs the 32-bit
 refill stamp with the 32-bit token count, and the clock wraps every 2^32 ms.
 */
module RateLimiter {
  import opened Basics

  const INTERVAL_MS := 1000

  function Pack(lastRefillMs: nat, tokens: nat): nat {
    lastRefillMs * TWO_32 + tokens
  }

  function Unpack(word: nat): (nat, nat) {
    (word / TWO_32 % TWO_32, word % TWO_32)
  }

  lemma UnpackPack(lastRefillMs: nat, tokens: nat)
    requires lastRefillMs < TWO_32 && tokens < TWO_32
    ensures Pack(lastRefillMs, tokens) < TWO_64
    ensures Unpack(Pack(lastRefillMs, tokens)) == (lastRefillMs, tokens)
  {}

  /** `compute_refill`: multiply before dividing, in 128 bits, cast back to 64. */
  function ComputeRefill(elapsedMs: nat, maxTokens: nat): nat {
    (elapsedMs * maxTokens / INTERVAL_MS) % TWO_64
  }

  /** Milliseconds between two readings of the 32-bit clock. */
  function WrappingSub(now: nat, last: nat): nat
    requires now < TWO_32 && last < TWO_32
  {
    (now + TWO_32 - last) % TWO_32
  }

  /** Tokens to add at real time `clock` to a bucket stamped `last`; both casts truncate. */
  function Refill(clock: nat, last: nat, maxTokens: nat): nat
    requires last < TWO_32
  {
    ComputeRefill(WrappingSub(clock % TWO_32, last), maxTokens) % TWO_32
  }

  /** The closure of `fetch_update`: the word to install, or `None` when the bucket is empty. */
  function Grant(word: nat, clock: nat, maxTokens: nat): Option<nat> {
    var (last, tokens) := Unpack(word);
    var add := Refill(clock, last, maxTokens);
    var newTokens := if add > 0 then Min(Min(tokens + add, TWO_32 - 1), maxTokens) else tokens;
    if newTokens >= 1 then Some(Pack(if add > 0 then clock % TWO_32 else last, newTokens - 1)) else None
  }

  function InitialWord(maxTokens: nat): nat {
    Pack(0, maxTokens)
  }

  class Limiter {
    const unlimited: bool
    const maxTokens: nat
    var state: nat

    constructor (requestsPerSecond: nat)
      ensures unlimited == (requestsPerSecond == 0)
      ensures maxTokens == Min(requestsPerSecond, TWO_32 - 1)
      ensures state == InitialWord(maxTokens)
    {
      unlimited := requestsPerSecond == 0;
      maxTokens := Min(requestsPerSecond, TWO_32 - 1);
      state := InitialWord(Min(requestsPerSecond, TWO_32 - 1));
    }

    /**
     `acquire` without contention: `clock` lists the times at which the closure runs.
     The call returns at the first reading that finds a token and sleeps at the others.
     */
    method Acquire(clock: seq<nat>) returns (granted: bool, readings: nat)
      modifies this
      ensures unlimited ==> granted && readings == 0 && state == old(state)
      ensures !unlimited ==> readings <= |clock|
      ensures !unlimited && granted ==> 0 < readings && Grant(old(state), clock[readings - 1], maxTokens) == Some(state)
      ensures !unlimited && !granted ==> readings == |clock| && state == old(state)
      ensures !unlimited ==>
                forall k :: 0 <= k < readings - (if granted then 1 else 0) ==> Grant(old(state), clock[k], maxTokens) == None
    {
      granted, readings := unlimited, 0;
      while !granted && readings < |clock|
        invariant unlimited ==> granted && readings == 0
        invariant !unlimited ==> readings <= |clock|
        invariant !granted ==> state == old(state)
        invariant !unlimited && granted ==> 0 < readings && Grant(old(state), clock[readings - 1], maxTokens) == Some(state)
        invariant unlimited ==> state == old(state)
        invariant !unlimited ==>
                    forall k :: 0 <= k < readings - (if granted then 1 else 0) ==> Grant(old(state), clock[k], maxTokens) == None
      {
        var result := Grant(state, clock[readings], maxTokens);
        readings := readings + 1;
        if result.Some? {
          state := result.value;
          granted := true;
        }
      }
    }
  }

  // ---- The computed sleep ---------------------------------------------------

  /** Whole tokens that an elapsed time earns. */
  function Earned(elapsedMs: nat, maxTokens: nat): nat {
    elapsedMs * maxTokens / 1000
  }

  /** `(interval - remainder).div_ceil(max)`, with the product saturating at 64 bits. */
  function SleepMs(elapsedMs: nat, maxTokens: nat): nat
    requires maxTokens > 0
  {
    var n := Min(elapsedMs * maxTokens, TWO_64 - 1);
    Max((INTERVAL_MS - n % INTERVAL_MS + maxTokens - 1) / maxTokens, 1)
  }

  lemma CeilIsLeast(a: nat, m: nat, k: nat)
    requires m > 0
    ensures k * m >= a <==> k >= (a + m - 1) / m
  {
    var q := (a + m - 1) / m;
    assert q * m <= a + m - 1 < q * m + m;
    if k >= q {
      assert k * m >= q * m;
    } else {
      assert k + 1 <= q;
      assert (k + 1) * m <= q * m;
      assert (k + 1) * m == k * m + m;
    }
  }

  lemma Crossing(n: nat, step: nat)
    ensures (n + step) / 1000 > n / 1000 <==> step >= 1000 - n % 1000
  {}

  /** A refused thread sleeps for the least number of milliseconds after which the refill has grown. */
  lemma SleepIsLeast(elapsedMs: nat, maxTokens: nat, k: nat)
    requires elapsedMs < TWO_32 && 0 < maxTokens < TWO_32
    ensures Earned(elapsedMs + k, maxTokens) > Earned(elapsedMs, maxTokens) <==> k >= SleepMs(elapsedMs, maxTokens)
  {
    var n := elapsedMs * maxTokens;
    ProductFits(elapsedMs, maxTokens);
    assert (elapsedMs + k) * maxTokens == n + k * maxTokens;
    Crossing(n, k * maxTokens);
    CeilIsLeast(INTERVAL_MS - n % INTERVAL_MS, maxTokens, k);
    CeilIsLeast(INTERVAL_MS - n % INTERVAL_MS, maxTokens, 0);
  }

  lemma ProductFits(a: nat, b: nat)
    requires a < TWO_32 && b < TWO_32
    ensures a * b < TWO_64
  {
    ProductAtMost(a, b, TWO_32 - 1);
  }

  lemma ProductAtMost(a: nat, b: nat, m: nat)
    requires a <= m && b <= m
    ensures a * b <= m * m
  {
    assert a * b <= m * b;
    assert m * b <= m * m;
  }

  // ---- The bucket as a sequential machine -----------------------------------

  /** The bucket with its refill stamp in real, unwrapped milliseconds. */
  datatype Bucket = Bucket(stamp: nat, tokens: nat)

  function WordOf(b: Bucket): nat {
    Pack(b.stamp % TWO_32, b.tokens)
  }

  function Added(b: Bucket, clock: nat, maxTokens: nat): nat {
    Refill(clock, b.stamp % TWO_32, maxTokens)
  }

  function Take(b: Bucket, clock: nat, maxTokens: nat): Option<Bucket> {
    var add := Added(b, clock, maxTokens);
    var newTokens := if add > 0 then Min(b.tokens + add, maxTokens) else b.tokens;
    if newTokens >= 1 then Some(Bucket(if add > 0 then clock else b.stamp, newTokens - 1)) else None
  }

  /** The word-level closure computes exactly the bucket-level step. */
  lemma GrantIsTake(b: Bucket, clock: nat, maxTokens: nat)
    requires b.tokens <= maxTokens < TWO_32
    ensures Grant(WordOf(b), clock, maxTokens)
         == match Take(b, clock, maxTokens) case Some(b') => Some(WordOf(b')) case None => None
    ensures Take(b, clock, maxTokens).Some? ==> Take(b, clock, maxTokens).value.tokens < maxTokens
  {
    UnpackPack(b.stamp % TWO_32, b.tokens);
  }

  /** The bucket after granting at the given clock readings, from a full bucket at time 0. */
  function Replay(log: seq<nat>, maxTokens: nat): Option<Bucket> {
    if log == [] then Some(Bucket(0, maxTokens))
    else
      match Replay(log[..|log| - 1], maxTokens)
      case None => None
      case Some(b) => Take(b, log[|log| - 1], maxTokens)
  }

  predicate Monotone(log: seq<nat>) {
    forall i, j :: 0 <= i < j < |log| ==> log[i] <= log[j]
  }

  lemma WrapIsModulo(clock: nat, stamp: nat)
    requires stamp <= clock
    ensures WrappingSub(clock % TWO_32, stamp % TWO_32) == (clock - stamp) % TWO_32
  {}

  lemma ProductMonotone(a: nat, b: nat, m: nat)
    requires a <= b
    ensures a * m <= b * m
  {}

  /** Neither the wrapped clock nor the truncating casts can ever add more than the elapsed time allows. */
  lemma AddedIsEarned(b: Bucket, clock: nat, maxTokens: nat)
    requires b.stamp <= clock
    ensures 1000 * Added(b, clock, maxTokens) <= (clock - b.stamp) * maxTokens
  {
    WrapIsModulo(clock, b.stamp);
    var e := (clock - b.stamp) % TWO_32;
    assert e <= clock - b.stamp;
    ProductMonotone(e, clock - b.stamp, maxTokens);
    var f := e * maxTokens / INTERVAL_MS;
    assert Added(b, clock, maxTokens) <= f;
    assert 1000 * f <= e * maxTokens;
  }

  lemma Distribute(a: nat, b: nat, m: nat)
    requires a <= b
    ensures (b - a) * m == b * m - a * m
  {}

  lemma TakeBounds(b: Bucket, clock: nat, maxTokens: nat, n: nat)
    requires b.stamp <= clock && b.tokens <= maxTokens && Take(b, clock, maxTokens).Some?
    requires 1000 * (n + b.tokens) <= 1000 * maxTokens + b.stamp * maxTokens
    ensures var b' := Take(b, clock, maxTokens).value;
            && b'.tokens <= maxTokens && b'.stamp <= clock
            && 1000 * (n + 1 + b'.tokens) <= 1000 * maxTokens + b'.stamp * maxTokens
  {
    AddedIsEarned(b, clock, maxTokens);
    Distribute(b.stamp, clock, maxTokens);
  }

  lemma {:induction false} ReplayBounds(log: seq<nat>, maxTokens: nat)
    requires Monotone(log) && Replay(log, maxTokens).Some?
    ensures var b := Replay(log, maxTokens).value;
            && b.tokens <= maxTokens
            && (log == [] ==> b.stamp == 0) && (log != [] ==> b.stamp <= log[|log| - 1])
            && 1000 * (|log| + b.tokens) <= 1000 * maxTokens + b.stamp * maxTokens
  {
    if |log| == 0 {
      assert log == [];
    } else {
      var before, clock := log[..|log| - 1], log[|log| - 1];
      ReplayBounds(before, maxTokens);
      TakeBounds(Replay(before, maxTokens).value, clock, maxTokens, |before|);
    }
  }

  /** By time `t` at most `max + t * max / 1000` tokens have been granted, whatever wraps or truncates. */
  lemma RateIsBounded(log: seq<nat>, maxTokens: nat, t: nat)
    requires Monotone(log) && Replay(log, maxTokens).Some?
    requires forall k :: 0 <= k < |log| ==> log[k] <= t
    ensures 1000 * |log| <= 1000 * maxTokens + t * maxTokens
  {
    ReplayBounds(log, maxTokens);
    ProductMonotone(Replay(log, maxTokens).value.stamp, t, maxTokens);
  }

  lemma RefillGrants(b: Bucket, clock: nat, maxTokens: nat)
    requires 0 < maxTokens < TWO_32 && b.tokens <= maxTokens && Added(b, clock, maxTokens) > 0
    ensures Grant(WordOf(b), clock, maxTokens).Some?
  {
    GrantIsTake(b, clock, maxTokens);
  }

  /**
   A thread refused on bucket `b` that measures its elapsed time at `measured` and
   sleeps the computed time finds a token, unless the clock or a cast has wrapped.
   */
  lemma SleepSuffices(b: Bucket, measured: nat, retry: nat, maxTokens: nat)
    requires 0 < maxTokens < TWO_32 && b.tokens <= maxTokens && b.stamp <= measured <= retry
    requires retry - b.stamp < TWO_32 && Earned(retry - b.stamp, maxTokens) < TWO_32
    requires retry - measured >= SleepMs(measured - b.stamp, maxTokens)
    ensures Grant(WordOf(b), retry, maxTokens).Some?
  {
    var e, k := measured - b.stamp, retry - measured;
    SleepIsLeast(e, maxTokens, k);
    assert e + k == retry - b.stamp;
    AddedWhenNarrow(b, retry, maxTokens);
    RefillGrants(b, retry, maxTokens);
  }

  lemma AddedWhenNarrow(b: Bucket, clock: nat, maxTokens: nat)
    requires b.stamp <= clock && clock - b.stamp < TWO_32 && maxTokens < TWO_32
    requires Earned(clock - b.stamp, maxTokens) < TWO_32
    ensures Added(b, clock, maxTokens) == Earned(clock - b.stamp, maxTokens)
  {
    AddedValue(b, clock, maxTokens);
    FitsIn32(clock - b.stamp);
    FitsIn32(Earned(clock - b.stamp, maxTokens));
  }

  lemma FitsIn32(x: nat)
    requires x < TWO_32
    ensures x % TWO_32 == x
  {}

  // ---- Windows ----------------------------------------------------------------

  lemma MultipleDropsOut(f: nat, f': nat)
    requires f % TWO_32 == 0 && f <= f'
    ensures f' % TWO_32 <= f' - f
  {}

  lemma NarrowRefill(e: nat, maxTokens: nat)
    requires e < TWO_32 && maxTokens < TWO_32
    ensures ComputeRefill(e, maxTokens) == e * maxTokens / 1000
  {
    ProductFits(e, maxTokens);
  }

  lemma FloorGap(e: nat, d: nat, m: nat)
    ensures e * m / 1000 <= (e + d) * m / 1000
    ensures 1000 * ((e + d) * m / 1000 - e * m / 1000) < d * m + 1000
  {
    assert (e + d) * m == e * m + d * m;
    FloorGapOf(e * m, d * m);
  }

  lemma FloorGapOf(x: nat, y: nat)
    ensures x / 1000 <= (x + y) / 1000
    ensures 1000 * ((x + y) / 1000 - x / 1000) < y + 1000
  {}

  lemma FloorBelow(x: nat)
    ensures 1000 * (x / 1000) <= x
  {}

  lemma AddedValue(b: Bucket, clock: nat, maxTokens: nat)
    requires b.stamp <= clock && maxTokens < TWO_32
    ensures Added(b, clock, maxTokens) == Earned((clock - b.stamp) % TWO_32, maxTokens) % TWO_32
  {
    WrapIsModulo(clock, b.stamp);
    NarrowRefill((clock - b.stamp) % TWO_32, maxTokens);
  }

  lemma GapSameLap(e: nat, d: nat, m: nat)
    requires Earned(e, m) % TWO_32 == 0
    ensures 1000 * (Earned(e + d, m) % TWO_32) < d * m + 1000
  {
    FloorGap(e, d, m);
    MultipleDropsOut(Earned(e, m), Earned(e + d, m));
  }

  lemma GapNextLap(e': nat, d: nat, m: nat)
    requires e' <= d
    ensures 1000 * (Earned(e', m) % TWO_32) < d * m + 1000
  {
    ProductMonotone(e', d, m);
    FloorBelow(e' * m);
    ModuloAtMost(Earned(e', m));
  }

  lemma ModuloAtMost(x: nat)
    ensures x % TWO_32 <= x
  {}

  /** After a reading that adds nothing, a later one adds at most what the time between them earns, rounded up. */
  lemma AddedAfterNothing(b: Bucket, first: nat, second: nat, maxTokens: nat)
    requires b.stamp <= first <= second && maxTokens < TWO_32
    requires Added(b, first, maxTokens) == 0
    ensures 1000 * Added(b, second, maxTokens) < (second - first) * maxTokens + 1000
  {
    AddedValue(b, first, maxTokens);
    AddedValue(b, second, maxTokens);
    var x, d := first - b.stamp, second - first;
    assert second - b.stamp == x + d;
    if x % TWO_32 + d < TWO_32 {
      SameLap(x, d);
      GapSameLap(x % TWO_32, d, maxTokens);
    } else {
      NextLap(x, d);
      GapNextLap((x + d) % TWO_32, d, maxTokens);
    }
  }

  lemma SameLap(x: nat, d: nat)
    requires x % TWO_32 + d < TWO_32
    ensures (x + d) % TWO_32 == x % TWO_32 + d
  {}

  lemma NextLap(x: nat, d: nat)
    requires x % TWO_32 + d >= TWO_32
    ensures (x + d) % TWO_32 <= d
  {}

  /** State of a window that began at index `i`: not refilled since, or refilled at or after `t0`. */
  ghost predicate InWindow(start: Bucket, b: Bucket, n: nat, lastClock: nat, t0: nat, maxTokens: nat) {
    || (b.stamp == start.stamp && n + b.tokens == start.tokens
        && (n > 0 ==> t0 <= lastClock && start.stamp <= lastClock && Added(start, lastClock, maxTokens) == 0))
    || (t0 <= b.stamp <= lastClock && 1000 * (n + b.tokens) < 1000 * maxTokens + (b.stamp - t0) * maxTokens + 1000)
  }

  /** First grant of the window that refills. */
  lemma WindowOpens(start: Bucket, b: Bucket, n: nat, lastClock: nat, clock: nat, t0: nat, maxTokens: nat)
    requires maxTokens < TWO_32 && start.tokens <= maxTokens && t0 <= clock && start.stamp <= clock
    requires b.stamp == start.stamp && n + b.tokens == start.tokens
    requires n > 0 ==> t0 <= lastClock <= clock && start.stamp <= lastClock && Added(start, lastClock, maxTokens) == 0
    requires Added(b, clock, maxTokens) > 0 && Take(b, clock, maxTokens).Some?
    ensures var b' := Take(b, clock, maxTokens).value;
            1000 * (n + 1 + b'.tokens) < 1000 * maxTokens + (clock - t0) * maxTokens + 1000
  {
    ProductMonotone(0, clock - t0, maxTokens);
    if n > 0 {
      AddedSame(start, b, clock, maxTokens);
      AddedAfterNothing(start, lastClock, clock, maxTokens);
      ProductMonotone(clock - lastClock, clock - t0, maxTokens);
    }
  }

  /** Later refills of the window. */
  lemma WindowGoesOn(b: Bucket, n: nat, clock: nat, t0: nat, maxTokens: nat)
    requires t0 <= b.stamp <= clock && Added(b, clock, maxTokens) > 0 && Take(b, clock, maxTokens).Some?
    requires 1000 * (n + b.tokens) < 1000 * maxTokens + (b.stamp - t0) * maxTokens + 1000
    ensures var b' := Take(b, clock, maxTokens).value;
            1000 * (n + 1 + b'.tokens) < 1000 * maxTokens + (clock - t0) * maxTokens + 1000
  {
    AddedIsEarned(b, clock, maxTokens);
    Distribute(b.stamp, clock, maxTokens);
    Distribute(t0, b.stamp, maxTokens);
    Distribute(t0, clock, maxTokens);
  }

  lemma WindowStep(start: Bucket, b: Bucket, b': Bucket, n: nat, lastClock: nat, clock: nat, t0: nat, maxTokens: nat)
    requires maxTokens < TWO_32 && start.tokens <= maxTokens
    requires InWindow(start, b, n, lastClock, t0, maxTokens)
    requires Take(b, clock, maxTokens) == Some(b')
    requires t0 <= clock && b.stamp <= clock && start.stamp <= clock && (n > 0 ==> lastClock <= clock)
    requires n == 0 ==> b == start
    ensures InWindow(start, b', n + 1, clock, t0, maxTokens)
  {
    if Added(b, clock, maxTokens) > 0 {
      if b.stamp == start.stamp && n + b.tokens == start.tokens && (n > 0 ==> t0 <= lastClock && start.stamp <= lastClock && Added(start, lastClock, maxTokens) == 0) {
        WindowOpens(start, b, n, lastClock, clock, t0, maxTokens);
      } else {
        WindowGoesOn(b, n, clock, t0, maxTokens);
      }
    } else {
      AddedSame(start, b, clock, maxTokens);
    }
  }

  lemma AddedSame(a: Bucket, b: Bucket, clock: nat, maxTokens: nat)
    ensures a.stamp == b.stamp ==> Added(a, clock, maxTokens) == Added(b, clock, maxTokens)
  {}

  /** The bucket before grant `k`. */
  ghost function Before(log: seq<nat>, maxTokens: nat, k: nat): Bucket
    requires k <= |log|
  {
    Replay(log[..k], maxTokens).Or(Bucket(0, 0))
  }

  ghost function LastClock(log: seq<nat>, i: nat, j: nat): nat
    requires i <= j <= |log|
  {
    if j > i then log[j - 1] else 0
  }

  lemma BeforeBounds(log: seq<nat>, maxTokens: nat, k: nat)
    requires k <= |log| && Monotone(log) && Replay(log, maxTokens).Some?
    ensures Replay(log[..k], maxTokens) == Some(Before(log, maxTokens, k))
    ensures Before(log, maxTokens, k).tokens <= maxTokens
    ensures forall j :: k <= j < |log| ==> Before(log, maxTokens, k).stamp <= log[j]
    ensures k > 0 ==> Before(log, maxTokens, k).stamp <= log[k - 1]
  {
    ReplayPrefix(log, maxTokens, k);
    ReplayBounds(log[..k], maxTokens);
  }

  lemma BeforeNext(log: seq<nat>, maxTokens: nat, k: nat)
    requires k < |log| && Monotone(log) && Replay(log, maxTokens).Some?
    ensures Take(Before(log, maxTokens, k), log[k], maxTokens) == Some(Before(log, maxTokens, k + 1))
  {
    BeforeBounds(log, maxTokens, k);
    BeforeBounds(log, maxTokens, k + 1);
    assert log[..k + 1][..k] == log[..k];
  }

  /** Grants `i..j` have the shape of a window that began at `t0`. */
  ghost predicate WindowUpTo(log: seq<nat>, maxTokens: nat, i: nat, j: nat, t0: nat)
    requires i <= j <= |log|
  {
    InWindow(Before(log, maxTokens, i), Before(log, maxTokens, j), j - i, LastClock(log, i, j), t0, maxTokens)
  }

  lemma WindowNext(log: seq<nat>, maxTokens: nat, i: nat, j: nat, t0: nat)
    requires i <= j < |log| && t0 <= log[j] && WindowUpTo(log, maxTokens, i, j, t0)
    requires Monotone(log) && Replay(log, maxTokens).Some? && maxTokens < TWO_32
    ensures WindowUpTo(log, maxTokens, i, j + 1, t0)
  {
    BeforeBounds(log, maxTokens, i);
    BeforeBounds(log, maxTokens, j);
    BeforeNext(log, maxTokens, j);
    WindowStep(Before(log, maxTokens, i), Before(log, maxTokens, j), Before(log, maxTokens, j + 1), j - i,
               LastClock(log, i, j), log[j], t0, maxTokens);
    assert j - i + 1 == j + 1 - i;
  }

  lemma {:induction false} WindowInvariant(log: seq<nat>, maxTokens: nat, i: nat, j: nat, t0: nat)
    requires i <= j <= |log| && (forall k :: i <= k < j ==> t0 <= log[k])
    requires Monotone(log) && Replay(log, maxTokens).Some? && maxTokens < TWO_32
    ensures WindowUpTo(log, maxTokens, i, j, t0)
    decreases j
  {
    if j > i {
      WindowInvariant(log, maxTokens, i, j - 1, t0);
      WindowNext(log, maxTokens, i, j - 1, t0);
    }
  }

  lemma WindowCloses(start: Bucket, b: Bucket, n: nat, lastClock: nat, t0: nat, t1: nat, maxTokens: nat)
    requires InWindow(start, b, n, lastClock, t0, maxTokens) && start.tokens <= maxTokens
    requires t0 <= t1 && (n > 0 ==> b.stamp <= t1)
    ensures 1000 * n < 1000 * maxTokens + (t1 - t0) * maxTokens + 1000
  {
    ProductMonotone(0, t1 - t0, maxTokens);
    if n > 0 && t0 <= b.stamp {
      ProductMonotone(b.stamp - t0, t1 - t0, maxTokens);
    }
  }

  /** Grants `i..j` whose clocks lie in `[t0, t1]` number less than `max + (t1 - t0) * max / 1000 + 1`. */
  lemma WindowIsBounded(log: seq<nat>, maxTokens: nat, i: nat, j: nat, t0: nat, t1: nat)
    requires Monotone(log) && Replay(log, maxTokens).Some? && 0 < maxTokens < TWO_32
    requires i <= j <= |log| && t0 <= t1 && (forall k :: i <= k < j ==> t0 <= log[k] <= t1)
    ensures 1000 * (j - i) < 1000 * maxTokens + (t1 - t0) * maxTokens + 1000
  {
    WindowInvariant(log, maxTokens, i, j, t0);
    BeforeBounds(log, maxTokens, i);
    BeforeBounds(log, maxTokens, j);
    WindowCloses(Before(log, maxTokens, i), Before(log, maxTokens, j), j - i, LastClock(log, i, j), t0, t1, maxTokens);
  }

  lemma {:induction false} ReplayPrefix(log: seq<nat>, maxTokens: nat, j: nat)
    requires Replay(log, maxTokens).Some? && j <= |log|
    ensures Replay(log[..j], maxTokens).Some?
    decreases |log|
  {
    if j < |log| {
      ReplayPrefix(log[..|log| - 1], maxTokens, j);
      assert log[..|log| - 1][..j] == log[..j];
    } else {
      assert log[..j] == log;
    }
  }

  // ---- Earned time is kept ------------------------------------------------------------------

  /**
   The closure, on a bucket in real time: what the wrapped elapsed time earns, cut to 32 bits, is added up to the
   rate and stamped with the clock; when that is nothing, stamp and remaining tokens stay. Either way one token is taken.
   */
  lemma GrantExactly(b: Bucket, clock: nat, maxTokens: nat)
    requires b.stamp <= clock && b.tokens <= maxTokens && 0 < maxTokens < TWO_32
    ensures var add := Earned((clock - b.stamp) % 0x1_0000_0000, maxTokens) % 0x1_0000_0000;
            Grant((b.stamp % 0x1_0000_0000) * 0x1_0000_0000 + b.tokens, clock, maxTokens) ==
              if add > 0 then Some((clock % 0x1_0000_0000) * 0x1_0000_0000 + (Min(b.tokens + add, maxTokens) - 1))
              else if b.tokens > 0 then Some((b.stamp % 0x1_0000_0000) * 0x1_0000_0000 + (b.tokens - 1))
              else None
  {
    AddedValue(b, clock, maxTokens);
    GrantIsTake(b, clock, maxTokens);
  }

  /** A thread is refused exactly when the bucket is empty and the time since the stamp has not earned a token. */
  lemma RefusedIff(b: Bucket, clock: nat, maxTokens: nat)
    requires b.stamp <= clock && clock - b.stamp < TWO_32 && b.tokens <= maxTokens && 0 < maxTokens < TWO_32
    requires Earned(clock - b.stamp, maxTokens) < TWO_32
    ensures Grant(WordOf(b), clock, maxTokens) == None <==> b.tokens == 0 && (clock - b.stamp) * maxTokens < 1000
  {
    AddedWhenNarrow(b, clock, maxTokens);
    GrantIsTake(b, clock, maxTokens);
    NothingEarnedIff((clock - b.stamp) * maxTokens);
  }

  lemma NothingEarnedIff(x: nat)
    ensures x / 1000 == 0 <==> x < 1000
  {}

  /** No wrap, no truncation, and no more tokens than the bucket holds: nothing earned is cut off by this grant. */
  predicate Uncut(b: Bucket, clock: nat, maxTokens: nat) {
    && b.stamp <= clock && clock - b.stamp < TWO_32
    && Earned(clock - b.stamp, maxTokens) < TWO_32 && b.tokens + Earned(clock - b.stamp, maxTokens) <= maxTokens
  }

  predicate AllUncut(log: seq<nat>, maxTokens: nat) {
    log != [] ==>
      var before := Replay(log[..|log| - 1], maxTokens);
      AllUncut(log[..|log| - 1], maxTokens) && before.Some? && Uncut(before.value, log[|log| - 1], maxTokens)
  }

  /** How many of the grants moved the refill stamp. */
  function Refills(log: seq<nat>, maxTokens: nat): nat {
    if log == [] then 0
    else
      var before := Replay(log[..|log| - 1], maxTokens);
      Refills(log[..|log| - 1], maxTokens) + if before.Some? && Earned(Max(log[|log| - 1] - before.value.stamp, 0), maxTokens) > 0 then 1 else 0
  }

  lemma UncutTake(b: Bucket, clock: nat, maxTokens: nat, n: nat, refills: nat)
    requires b.tokens <= maxTokens && 0 < maxTokens < TWO_32 && Uncut(b, clock, maxTokens) && Take(b, clock, maxTokens).Some?
    requires 1000 * (n + b.tokens + refills) >= 1000 * maxTokens + b.stamp * maxTokens
    ensures var b' := Take(b, clock, maxTokens).value;
            1000 * (n + 1 + b'.tokens + refills + if Earned(clock - b.stamp, maxTokens) > 0 then 1 else 0) >= 1000 * maxTokens + b'.stamp * maxTokens
  {
    AddedWhenNarrow(b, clock, maxTokens);
    Distribute(b.stamp, clock, maxTokens);
    FloorLoss((clock - b.stamp) * maxTokens);
  }

  lemma FloorLoss(x: nat)
    ensures 1000 * (x / 1000) + 1000 > x
  {}

  /**
   The counterpart of the rate bound: while nothing is cut off, granted and remaining tokens make up all that was
   earned up to the stamp, short of less than one token for each refill.
   */
  lemma {:induction false} EarnedTimeIsKept(log: seq<nat>, maxTokens: nat)
    requires Monotone(log) && Replay(log, maxTokens).Some? && AllUncut(log, maxTokens) && 0 < maxTokens < TWO_32
    ensures var b := Replay(log, maxTokens).value;
            1000 * (|log| + b.tokens + Refills(log, maxTokens)) >= 1000 * maxTokens + b.stamp * maxTokens
  {
    if |log| == 0 {
      assert log == [];
    } else {
      var before, clock := log[..|log| - 1], log[|log| - 1];
      EarnedTimeIsKept(before, maxTokens);
      ReplayBounds(before, maxTokens);
      UncutTake(Replay(before, maxTokens).value, clock, maxTokens, |before|, Refills(before, maxTokens));
    }
  }
}
