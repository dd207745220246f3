/**
 Threads racing in `acquire`: each loads the packed word, runs the closure with
 a clock it reads afterwards, and installs the result by compare-and-swap. A
 failed exchange hands the thread the current word and it tries again.
 */
module RateLimiterRace {
  import opened Basics
  import opened RateLimiter

  /** Where a thread stands; `seen` is the number of grants made before it loaded `word`. */
  datatype Phase =
    | Outside
    | Loaded(word: nat, seen: nat)
    | Timed(word: nat, seen: nat, clock: nat)

  datatype Event =
    | Tick(ms: nat)
    | Load(t: nat)
    | ReadClock(t: nat)
    | Exchange(t: nat, spurious: bool)

  /**
   For each token handed out, in the order of the exchanges, `grants` lists the clock
   reading behind it and `exchanged` the time at which it was handed out.
   */
  datatype Race = Race(now: nat, word: nat, threads: seq<Phase>, grants: seq<nat>, exchanged: seq<nat>)

  function Start(threads: nat, maxTokens: nat): Race {
    Race(0, InitialWord(maxTokens), seq(threads, _ => Outside), [], [])
  }

  /** What the closure of `fetch_update` makes of a thread's own word and clock. */
  function Proposal(p: Phase, maxTokens: nat): Option<nat>
    requires p.Timed?
  {
    Grant(p.word, p.clock, maxTokens)
  }

  /** One atomic step. An event that does not fit its thread's phase changes nothing. */
  function Step(r: Race, e: Event, maxTokens: nat): Race {
    match e
    case Tick(ms) => r.(now := r.now + ms)
    case Load(t) =>
      if t < |r.threads| && r.threads[t].Outside? then r.(threads := r.threads[t := Loaded(r.word, |r.grants|)]) else r
    case ReadClock(t) =>
      if t < |r.threads| && r.threads[t].Loaded? then
        r.(threads := r.threads[t := Timed(r.threads[t].word, r.threads[t].seen, r.now)])
      else r
    case Exchange(t, spurious) =>
      if t < |r.threads| && r.threads[t].Timed? then
        match Proposal(r.threads[t], maxTokens) {
          case None => r.(threads := r.threads[t := Outside])
          case Some(next) =>
            if r.threads[t].word == r.word && !spurious then
              Race(r.now, next, r.threads[t := Outside], r.grants + [r.threads[t].clock], r.exchanged + [r.now])
            else
              r.(threads := r.threads[t := Loaded(r.word, |r.grants|)])
        }
      else r
  }

  function Execute(r: Race, events: seq<Event>, maxTokens: nat): Race
    decreases |events|
  {
    if events == [] then r else Step(Execute(r, events[..|events| - 1], maxTokens), events[|events| - 1], maxTokens)
  }

  predicate Succeeds(r: Race, e: Event, maxTokens: nat) {
    && e.Exchange? && !e.spurious && e.t < |r.threads| && r.threads[e.t].Timed?
    && Proposal(r.threads[e.t], maxTokens).Some? && r.threads[e.t].word == r.word
  }

  /** An exchange that succeeds although other exchanges succeeded since its thread loaded the word. */
  predicate Stale(r: Race, e: Event, maxTokens: nat) {
    Succeeds(r, e, maxTokens) && r.threads[e.t].seen < |r.grants|
  }

  predicate NeverStale(threads: nat, events: seq<Event>, maxTokens: nat) {
    forall k :: 0 <= k < |events| ==> !Stale(Execute(Start(threads, maxTokens), events[..k], maxTokens), events[k], maxTokens)
  }

  // ---- Runs without a stale exchange are sequential ---------------------------

  ghost predicate PhaseOk(r: Race, p: Phase, maxTokens: nat) {
    p.Outside? || (
      && p.seen <= |r.grants|
      && Replay(r.grants[..p.seen], maxTokens).Some?
      && p.word == WordOf(Replay(r.grants[..p.seen], maxTokens).value)
      && (p.Timed? ==> p.clock <= r.now && ReadAfter(r, p.seen, p.clock)))
  }

  /** The reading was taken after the first `n` exchanges. */
  predicate ReadAfter(r: Race, n: nat, clock: nat) {
    forall k :: 0 <= k < n && k < |r.exchanged| ==> r.exchanged[k] <= clock
  }

  /** Each reading lies between the exchange before it and its own. */
  predicate Timely(r: Race) {
    && |r.exchanged| == |r.grants|
    && (forall k :: 0 <= k < |r.grants| ==> r.grants[k] <= r.exchanged[k] <= r.now)
    && (forall j, k :: 0 <= j < k < |r.grants| ==> r.exchanged[j] <= r.grants[k])
  }

  ghost predicate Sequential(r: Race, maxTokens: nat) {
    Timely(r) && Replay(r.grants, maxTokens).Some? && r.word == WordOf(Replay(r.grants, maxTokens).value)
  }

  lemma TimelyIsMonotone(r: Race)
    requires Timely(r)
    ensures Monotone(r.grants)
  {
    forall j, k | 0 <= j < k < |r.grants| ensures r.grants[j] <= r.grants[k] {
      assert r.grants[j] <= r.exchanged[j] <= r.grants[k];
    }
  }

  ghost predicate Faithful(r: Race, maxTokens: nat) {
    && Sequential(r, maxTokens)
    && forall t :: 0 <= t < |r.threads| ==> PhaseOk(r, r.threads[t], maxTokens)
  }

  lemma OnePhaseChanges(r: Race, r': Race, t: nat, maxTokens: nat)
    requires Faithful(r, maxTokens) && t < |r.threads|
    requires r'.now == r.now && r'.word == r.word && r'.grants == r.grants && r'.exchanged == r.exchanged
    requires |r'.threads| == |r.threads| && r'.threads == r.threads[t := r'.threads[t]] && PhaseOk(r', r'.threads[t], maxTokens)
    ensures Faithful(r', maxTokens)
  {
    forall u | 0 <= u < |r'.threads| ensures PhaseOk(r', r'.threads[u], maxTokens) {
      if u != t {
        assert PhaseOk(r, r.threads[u], maxTokens);
      }
    }
  }

  lemma LaterKeepsPhase(r: Race, r': Race, p: Phase, maxTokens: nat)
    requires PhaseOk(r, p, maxTokens) && |r.exchanged| == |r.grants| && r.now <= r'.now
    requires r.grants <= r'.grants && r.exchanged <= r'.exchanged
    ensures PhaseOk(r', p, maxTokens)
  {
    if !p.Outside? {
      assert r'.grants[..p.seen] == r.grants[..p.seen];
    }
  }

  lemma LoadedIsOk(r: Race, maxTokens: nat)
    requires Faithful(r, maxTokens)
    ensures PhaseOk(r, Loaded(r.word, |r.grants|), maxTokens)
  {
    assert r.grants[..|r.grants|] == r.grants;
  }

  lemma SuccessExtendsLog(r: Race, e: Event, maxTokens: nat)
    requires Faithful(r, maxTokens) && maxTokens < TWO_32
    requires Succeeds(r, e, maxTokens) && !Stale(r, e, maxTokens)
    ensures Sequential(Step(r, e, maxTokens), maxTokens)
  {
    var p := r.threads[e.t];
    var r' := Step(r, e, maxTokens);
    assert PhaseOk(r, p, maxTokens);
    assert r'.grants[..|r'.grants| - 1] == r.grants;
    TimelyIsMonotone(r);
    ReplayBounds(r.grants, maxTokens);
    GrantIsTake(Replay(r.grants, maxTokens).value, p.clock, maxTokens);
  }

  lemma PhasesLater(r: Race, r': Race, maxTokens: nat)
    requires Faithful(r, maxTokens) && r.now <= r'.now && r.grants <= r'.grants && r.exchanged <= r'.exchanged
    requires |r'.threads| == |r.threads|
    requires forall t :: 0 <= t < |r.threads| ==> r'.threads[t].Outside? || r'.threads[t] == r.threads[t]
    ensures forall t :: 0 <= t < |r'.threads| ==> PhaseOk(r', r'.threads[t], maxTokens)
  {
    forall t | 0 <= t < |r'.threads| ensures PhaseOk(r', r'.threads[t], maxTokens) {
      assert PhaseOk(r, r.threads[t], maxTokens);
      LaterKeepsPhase(r, r', r.threads[t], maxTokens);
    }
  }

  lemma QuietStepKeepsFaithful(r: Race, e: Event, maxTokens: nat)
    requires Faithful(r, maxTokens) && !e.Tick? && !Succeeds(r, e, maxTokens) && Step(r, e, maxTokens) != r
    ensures Faithful(Step(r, e, maxTokens), maxTokens)
  {
    LoadedIsOk(r, maxTokens);
    assert PhaseOk(r, r.threads[e.t], maxTokens);
    OnePhaseChanges(r, Step(r, e, maxTokens), e.t, maxTokens);
  }

  lemma StepKeepsFaithful(r: Race, e: Event, maxTokens: nat)
    requires Faithful(r, maxTokens) && maxTokens < TWO_32 && !Stale(r, e, maxTokens)
    ensures Faithful(Step(r, e, maxTokens), maxTokens)
  {
    var r' := Step(r, e, maxTokens);
    if e.Tick? {
      PhasesLater(r, r', maxTokens);
    } else if Succeeds(r, e, maxTokens) {
      SuccessExtendsLog(r, e, maxTokens);
      PhasesLater(r, r', maxTokens);
    } else if r' != r {
      QuietStepKeepsFaithful(r, e, maxTokens);
    }
  }

  lemma {:induction false} RunIsFaithful(threads: nat, events: seq<Event>, maxTokens: nat)
    requires maxTokens < TWO_32 && NeverStale(threads, events, maxTokens)
    ensures Faithful(Execute(Start(threads, maxTokens), events, maxTokens), maxTokens)
    decreases |events|
  {
    if |events| == 0 {
      assert events == [];
    } else {
      var n := |events| - 1;
      var before := events[..n];
      forall k | 0 <= k < n
        ensures !Stale(Execute(Start(threads, maxTokens), before[..k], maxTokens), before[k], maxTokens)
      {
        assert before[..k] == events[..k];
        assert !Stale(Execute(Start(threads, maxTokens), events[..k], maxTokens), events[k], maxTokens);
      }
      RunIsFaithful(threads, before, maxTokens);
      assert !Stale(Execute(Start(threads, maxTokens), events[..n], maxTokens), events[n], maxTokens);
      StepKeepsFaithful(Execute(Start(threads, maxTokens), before, maxTokens), events[n], maxTokens);
    }
  }

  /**
   Without stale exchanges some thread always gets on: an exchange that fails with a token in hand, other than
   spuriously, fails exactly because another one succeeded since its thread loaded the word.
   */
  lemma FailureMeansProgress(r: Race, e: Event, maxTokens: nat)
    requires Faithful(r, maxTokens) && maxTokens < TWO_32 && e.Exchange? && !e.spurious && !Stale(r, e, maxTokens)
    requires e.t < |r.threads| && r.threads[e.t].Timed? && Proposal(r.threads[e.t], maxTokens).Some?
    ensures var r' := Step(r, e, maxTokens);
            if r.threads[e.t].seen == |r.grants| then
              r'.threads[e.t].Outside? && r'.grants == r.grants + [r.threads[e.t].clock] && r'.exchanged == r.exchanged + [r.now]
            else
              r.threads[e.t].seen < |r.grants| && r'.threads[e.t] == Loaded(r.word, |r.grants|)
              && r'.word == r.word && r'.grants == r.grants && r'.exchanged == r.exchanged
  {
    var p := r.threads[e.t];
    assert PhaseOk(r, p, maxTokens);
    if p.seen == |r.grants| {
      assert r.grants[..p.seen] == r.grants;
    }
  }

  /** A refused thread leaves everything as it is and may load again. */
  lemma RefusalLeaves(r: Race, t: nat, spurious: bool, maxTokens: nat)
    requires t < |r.threads| && r.threads[t].Timed? && Proposal(r.threads[t], maxTokens).None?
    ensures Step(r, Exchange(t, spurious), maxTokens) == r.(threads := r.threads[t := Outside])
  {}

  // ---- The rate in real time -----------------------------------------------------

  /** The first `j` tokens were handed out by time `t`. */
  predicate GrantedBy(r: Race, j: nat, t: nat) {
    j <= |r.exchanged| && forall k :: 0 <= k < j ==> r.exchanged[k] <= t
  }

  /** Tokens `i..j` were handed out in `[t0, t1]`. */
  predicate Within(r: Race, i: nat, j: nat, t0: nat, t1: nat) {
    i <= j <= |r.exchanged| && t0 <= t1 && forall k :: i <= k < j ==> t0 <= r.exchanged[k] <= t1
  }

  /** The first token of the window was decided on a reading taken before it. */
  predicate OpensLate(r: Race, i: nat, j: nat, t0: nat) {
    i < j && i < |r.grants| && r.grants[i] < t0
  }

  /**
   The rate the limiter is for: at most `max + t * max / 1000` tokens by any time `t`, and fewer
   than `max + (t1 - t0) * max / 1000 + 1` in any window, or one more when it opens late.
   */
  ghost predicate RateHolds(r: Race, maxTokens: nat) {
    && (forall j: nat, t: nat :: GrantedBy(r, j, t) ==> 1000 * j <= 1000 * maxTokens + t * maxTokens)
    && (forall i: nat, j: nat, t0: nat, t1: nat :: Within(r, i, j, t0, t1) ==>
          1000 * (j - i) < 1000 * maxTokens + (t1 - t0) * maxTokens + if OpensLate(r, i, j, t0) then 2000 else 1000)
  }

  lemma GrantedByBound(r: Race, maxTokens: nat, j: nat, t: nat)
    requires 0 < maxTokens < TWO_32 && Sequential(r, maxTokens) && GrantedBy(r, j, t)
    ensures 1000 * j <= 1000 * maxTokens + t * maxTokens
  {
    TimelyIsMonotone(r);
    ReplayPrefix(r.grants, maxTokens, j);
    forall k | 0 <= k < j ensures r.grants[..j][k] <= t {
      assert r.grants[k] <= r.exchanged[k];
    }
    RateIsBounded(r.grants[..j], maxTokens, t);
  }

  /** Every token of a window but the first was read after the first was handed out, so within the window. */
  lemma WindowBound(r: Race, maxTokens: nat, i: nat, j: nat, t0: nat, t1: nat)
    requires 0 < maxTokens < TWO_32 && Sequential(r, maxTokens) && Within(r, i, j, t0, t1)
    ensures 1000 * (j - i) < 1000 * maxTokens + (t1 - t0) * maxTokens + if OpensLate(r, i, j, t0) then 2000 else 1000
  {
    TimelyIsMonotone(r);
    forall k | i < k < j ensures t0 <= r.grants[k] <= t1 {
      assert t0 <= r.exchanged[i] <= r.grants[k] <= r.exchanged[k];
    }
    assert i < j ==> r.grants[i] <= r.exchanged[i];
    if OpensLate(r, i, j, t0) {
      WindowIsBounded(r.grants, maxTokens, i + 1, j, t0, t1);
    } else {
      WindowIsBounded(r.grants, maxTokens, i, j, t0, t1);
    }
  }

  lemma SequentialRate(r: Race, maxTokens: nat)
    requires 0 < maxTokens < TWO_32 && Sequential(r, maxTokens)
    ensures RateHolds(r, maxTokens)
  {
    forall j: nat, t: nat | GrantedBy(r, j, t) ensures 1000 * j <= 1000 * maxTokens + t * maxTokens {
      GrantedByBound(r, maxTokens, j, t);
    }
    forall i: nat, j: nat, t0: nat, t1: nat | Within(r, i, j, t0, t1)
      ensures 1000 * (j - i) < 1000 * maxTokens + (t1 - t0) * maxTokens + if OpensLate(r, i, j, t0) then 2000 else 1000
    {
      WindowBound(r, maxTokens, i, j, t0, t1);
    }
  }

  /** Any interleaving without a stale exchange, of any length, respects the rate. */
  lemma RaceIsBounded(threads: nat, events: seq<Event>, maxTokens: nat)
    requires 0 < maxTokens < TWO_32 && NeverStale(threads, events, maxTokens)
    ensures RateHolds(Execute(Start(threads, maxTokens), events, maxTokens), maxTokens)
  {
    RunIsFaithful(threads, events, maxTokens);
    SequentialRate(Execute(Start(threads, maxTokens), events, maxTokens), maxTokens);
  }

  // ---- A stale exchange needs the stamp to lap the clock ------------------------

  lemma TakeMovesOn(b: Bucket, clock: nat, maxTokens: nat)
    requires b.stamp <= clock && b.tokens <= maxTokens && Take(b, clock, maxTokens).Some?
    ensures var b' := Take(b, clock, maxTokens).value;
            b.stamp < b'.stamp || (b.stamp == b'.stamp && b'.tokens < b.tokens)
  {
    AddedIsEarned(b, clock, maxTokens);
  }

  /** Along a log the bucket either refills to a later stamp or loses tokens: it never recurs. */
  lemma {:induction false} BucketsAdvance(log: seq<nat>, i: nat, maxTokens: nat)
    requires Monotone(log) && Replay(log, maxTokens).Some? && i <= |log|
    ensures Replay(log[..i], maxTokens).Some?
    ensures var b, b' := Replay(log[..i], maxTokens).value, Replay(log, maxTokens).value;
            && b.stamp <= b'.stamp
            && (i < |log| && b.stamp == b'.stamp ==> b'.tokens < b.tokens)
    decreases |log|
  {
    var n := |log| - 1;
    if i == |log| {
      assert log[..i] == log;
    } else {
      assert log[..n][..i] == log[..i];
      BucketsAdvance(log[..n], i, maxTokens);
      ReplayBounds(log[..n], maxTokens);
      TakeMovesOn(Replay(log[..n], maxTokens).value, log[n], maxTokens);
    }
  }

  lemma EqualWords(b: Bucket, b': Bucket)
    requires WordOf(b) == WordOf(b') && b.tokens < TWO_32 && b'.tokens < TWO_32
    ensures b.tokens == b'.tokens && b.stamp % TWO_32 == b'.stamp % TWO_32
  {
    UnpackPack(b.stamp % TWO_32, b.tokens);
    UnpackPack(b'.stamp % TWO_32, b'.tokens);
  }

  lemma LapOrSame(a: nat, b: nat)
    requires a <= b && a % TWO_32 == b % TWO_32
    ensures a == b || a + TWO_32 <= b
  {}

  /**
   A successful exchange is stale exactly when the refill stamp has moved on by a
   whole lap of the 32-bit clock since the thread loaded the word.
   */
  lemma StaleIffLapped(r: Race, e: Event, maxTokens: nat)
    requires Faithful(r, maxTokens) && maxTokens < TWO_32 && Succeeds(r, e, maxTokens)
    ensures var seen := r.threads[e.t].seen;
            && seen <= |r.grants|
            && Replay(r.grants[..seen], maxTokens).Some?
            && Replay(r.grants, maxTokens).value.stamp <= r.now
            && (Stale(r, e, maxTokens) <==>
                Replay(r.grants[..seen], maxTokens).value.stamp + TWO_32 <= Replay(r.grants, maxTokens).value.stamp)
  {
    var p := r.threads[e.t];
    assert PhaseOk(r, p, maxTokens);
    TimelyIsMonotone(r);
    BucketsAdvance(r.grants, p.seen, maxTokens);
    ReplayBounds(r.grants, maxTokens);
    var early := r.grants[..p.seen];
    assert Monotone(early);
    ReplayBounds(early, maxTokens);
    var b, b' := Replay(early, maxTokens).value, Replay(r.grants, maxTokens).value;
    EqualWords(b, b');
    LapOrSame(b.stamp, b'.stamp);
    if p.seen == |r.grants| {
      assert early == r.grants;
    }
  }

  lemma NowNeverFalls(r: Race, e: Event, maxTokens: nat)
    ensures r.now <= Step(r, e, maxTokens).now
  {}

  lemma {:induction false} ClockBefore(r: Race, events: seq<Event>, k: nat, maxTokens: nat)
    requires k <= |events|
    ensures Execute(r, events[..k], maxTokens).now <= Execute(r, events, maxTokens).now
    decreases |events|
  {
    var n := |events| - 1;
    if k == |events| {
      assert events[..k] == events;
    } else {
      assert events[..n][..k] == events[..k];
      ClockBefore(r, events[..n], k, maxTokens);
      NowNeverFalls(Execute(r, events[..n], maxTokens), events[n], maxTokens);
    }
  }

  lemma NeverStaleExtends(threads: nat, events: seq<Event>, maxTokens: nat)
    requires |events| > 0 && NeverStale(threads, events[..|events| - 1], maxTokens)
    requires !Stale(Execute(Start(threads, maxTokens), events[..|events| - 1], maxTokens), events[|events| - 1], maxTokens)
    ensures NeverStale(threads, events, maxTokens)
  {
    var before := events[..|events| - 1];
    forall k | 0 <= k < |events|
      ensures !Stale(Execute(Start(threads, maxTokens), events[..k], maxTokens), events[k], maxTokens)
    {
      if k < |before| {
        assert before[..k] == events[..k] && before[k] == events[k];
      }
    }
  }

  lemma YoungStep(r: Race, e: Event, maxTokens: nat)
    requires Faithful(r, maxTokens) && maxTokens < TWO_32 && r.now < TWO_32
    ensures !Stale(r, e, maxTokens)
  {
    if Succeeds(r, e, maxTokens) {
      StaleIffLapped(r, e, maxTokens);
    }
  }

  /** Before the 32-bit clock has wrapped no exchange is stale. */
  lemma {:induction false} YoungRunsAreNeverStale(threads: nat, events: seq<Event>, maxTokens: nat)
    requires maxTokens < TWO_32 && Execute(Start(threads, maxTokens), events, maxTokens).now < TWO_32
    ensures NeverStale(threads, events, maxTokens)
    decreases |events|
  {
    if |events| > 0 {
      var n := |events| - 1;
      var before := events[..n];
      ClockBefore(Start(threads, maxTokens), events, n, maxTokens);
      YoungRunsAreNeverStale(threads, before, maxTokens);
      RunIsFaithful(threads, before, maxTokens);
      YoungStep(Execute(Start(threads, maxTokens), before, maxTokens), events[n], maxTokens);
      NeverStaleExtends(threads, events, maxTokens);
    }
  }

  /** For the first 2^32 milliseconds every interleaving of any number of threads respects the rate. */
  lemma RateHoldsBeforeWrap(threads: nat, events: seq<Event>, maxTokens: nat)
    requires 0 < maxTokens < TWO_32 && Execute(Start(threads, maxTokens), events, maxTokens).now < TWO_32
    ensures RateHolds(Execute(Start(threads, maxTokens), events, maxTokens), maxTokens)
  {
    YoungRunsAreNeverStale(threads, events, maxTokens);
    RaceIsBounded(threads, events, maxTokens);
  }

  // ---- A thread alone --------------------------------------------------------------

  /** The only thread there is has seen every grant since it loaded the word. */
  ghost predicate UpToDate(r: Race) {
    |r.threads| <= 1 && forall t :: 0 <= t < |r.threads| && !r.threads[t].Outside? ==> r.threads[t].seen == |r.grants|
  }

  lemma LoneThreadStep(r: Race, e: Event, maxTokens: nat)
    requires UpToDate(r)
    ensures UpToDate(Step(r, e, maxTokens)) && !Stale(r, e, maxTokens)
  {}

  lemma {:induction false} LoneThreadIsNeverStale(threads: nat, events: seq<Event>, maxTokens: nat)
    requires threads <= 1
    ensures UpToDate(Execute(Start(threads, maxTokens), events, maxTokens)) && NeverStale(threads, events, maxTokens)
    decreases |events|
  {
    if |events| == 0 {
      assert events == [];
    } else {
      var before := events[..|events| - 1];
      LoneThreadIsNeverStale(threads, before, maxTokens);
      LoneThreadStep(Execute(Start(threads, maxTokens), before, maxTokens), events[|events| - 1], maxTokens);
      NeverStaleExtends(threads, events, maxTokens);
    }
  }

  // ---- Reaching a state step by step --------------------------------------------------

  /** What matters of a race: the bucket behind the word, `n` tokens handed out at or after `since`, and thread 0. */
  datatype Snap = Snap(now: nat, bucket: Bucket, n: nat, since: nat, first: Phase)

  ghost predicate Shows(r: Race, s: Snap) {
    && r.now == s.now && r.word == WordOf(s.bucket) && |r.grants| == |r.exchanged| == s.n
    && |r.threads| > 0 && r.threads[0] == s.first && (|r.threads| > 1 ==> r.threads[1].Outside?)
    && forall k :: 0 <= k < |r.exchanged| ==> s.since <= r.exchanged[k] <= s.now
  }

  ghost predicate Reaches(threads: nat, maxTokens: nat, s: Snap) {
    exists events :: Shows(Execute(Start(threads, maxTokens), events, maxTokens), s)
                     && |Execute(Start(threads, maxTokens), events, maxTokens).threads| == threads
  }

  lemma StartShows(threads: nat, maxTokens: nat, since: nat)
    requires threads > 0
    ensures Reaches(threads, maxTokens, Snap(0, Bucket(0, maxTokens), 0, since, Outside))
  {
    assert Execute(Start(threads, maxTokens), [], maxTokens) == Start(threads, maxTokens);
  }

  lemma ExecuteMore(r: Race, events: seq<Event>, e: Event, maxTokens: nat)
    ensures Execute(r, events + [e], maxTokens) == Step(Execute(r, events, maxTokens), e, maxTokens)
  {
    assert (events + [e])[..|events|] == events;
  }

  /** One more event takes any state shown by `s` to one shown by `s'`. */
  lemma ReachStep(threads: nat, maxTokens: nat, s: Snap, e: Event, s': Snap)
    requires Reaches(threads, maxTokens, s)
    requires forall r :: Shows(r, s) && |r.threads| == threads ==> Shows(Step(r, e, maxTokens), s') && |Step(r, e, maxTokens).threads| == threads
    ensures Reaches(threads, maxTokens, s')
  {
    var events :| Shows(Execute(Start(threads, maxTokens), events, maxTokens), s)
                  && |Execute(Start(threads, maxTokens), events, maxTokens).threads| == threads;
    ExecuteMore(Start(threads, maxTokens), events, e, maxTokens);
  }

  lemma TickReaches(threads: nat, maxTokens: nat, s: Snap, ms: nat)
    requires Reaches(threads, maxTokens, s)
    ensures Reaches(threads, maxTokens, s.(now := s.now + ms))
  {
    ReachStep(threads, maxTokens, s, Tick(ms), s.(now := s.now + ms));
  }

  lemma LoadReaches(threads: nat, maxTokens: nat, s: Snap)
    requires Reaches(threads, maxTokens, s) && s.first.Outside?
    ensures Reaches(threads, maxTokens, s.(first := Loaded(WordOf(s.bucket), s.n)))
  {
    ReachStep(threads, maxTokens, s, Load(0), s.(first := Loaded(WordOf(s.bucket), s.n)));
  }

  lemma ReadReaches(threads: nat, maxTokens: nat, s: Snap)
    requires Reaches(threads, maxTokens, s) && s.first.Loaded?
    ensures Reaches(threads, maxTokens, s.(first := Timed(s.first.word, s.first.seen, s.now)))
  {
    ReachStep(threads, maxTokens, s, ReadClock(0), s.(first := Timed(s.first.word, s.first.seen, s.now)));
  }

  lemma ExchangeReaches(threads: nat, maxTokens: nat, s: Snap, next: Bucket)
    requires Reaches(threads, maxTokens, s) && s.first.Timed? && s.first.word == WordOf(s.bucket) && s.since <= s.now
    requires Grant(s.first.word, s.first.clock, maxTokens) == Some(WordOf(next))
    ensures Reaches(threads, maxTokens, s.(bucket := next, n := s.n + 1, first := Outside))
  {
    ReachStep(threads, maxTokens, s, Exchange(0, false), s.(bucket := next, n := s.n + 1, first := Outside));
  }

  /** Thread 0, when it is outside, or else thread 1 takes a token at once. */
  lemma TurnReaches(threads: nat, maxTokens: nat, s: Snap, next: Bucket)
    requires Reaches(threads, maxTokens, s) && (s.first.Outside? || threads > 1) && s.since <= s.now
    requires Grant(WordOf(s.bucket), s.now, maxTokens) == Some(WordOf(next))
    ensures Reaches(threads, maxTokens, s.(bucket := next, n := s.n + 1))
  {
    var s' := s.(bucket := next, n := s.n + 1);
    if s.first.Outside? {
      LoadReaches(threads, maxTokens, s);
      ReadReaches(threads, maxTokens, s.(first := Loaded(WordOf(s.bucket), s.n)));
      ExchangeReaches(threads, maxTokens, s.(first := Timed(WordOf(s.bucket), s.n, s.now)), next);
    } else {
      SecondThreadTurn(threads, maxTokens, s, next);
    }
  }

  lemma SecondThreadTurn(threads: nat, maxTokens: nat, s: Snap, next: Bucket)
    requires Reaches(threads, maxTokens, s) && threads > 1 && s.since <= s.now
    requires Grant(WordOf(s.bucket), s.now, maxTokens) == Some(WordOf(next))
    ensures Reaches(threads, maxTokens, s.(bucket := next, n := s.n + 1))
  {
    var start := Start(threads, maxTokens);
    var events :| Shows(Execute(start, events, maxTokens), s) && |Execute(start, events, maxTokens).threads| == threads;
    var r := Execute(start, events, maxTokens);
    var a := Step(r, Load(1), maxTokens);
    var b := Step(a, ReadClock(1), maxTokens);
    var c := Step(b, Exchange(1, false), maxTokens);
    ExecuteMore(start, events, Load(1), maxTokens);
    ExecuteMore(start, events + [Load(1)], ReadClock(1), maxTokens);
    ExecuteMore(start, events + [Load(1)] + [ReadClock(1)], Exchange(1, false), maxTokens);
    assert b.threads[1] == Timed(WordOf(s.bucket), s.n, s.now);
    assert Shows(c, s.(bucket := next, n := s.n + 1)) && |c.threads| == threads;
  }

  // ---- Draining the bucket --------------------------------------------------------------

  /** A bucket refilled this very millisecond gives one of its tokens and refills no more. */
  lemma SettledGrant(now: nat, tokens: nat, maxTokens: nat)
    requires 0 < tokens <= maxTokens < TWO_32
    ensures Grant(WordOf(Bucket(now, tokens)), now, maxTokens) == Some(WordOf(Bucket(now, tokens - 1)))
  {
    GrantIsTake(Bucket(now, tokens), now, maxTokens);
    AddedIsEarned(Bucket(now, tokens), now, maxTokens);
  }

  /** A bucket that has earned at least one token since its stamp is refilled, and gives one. */
  lemma RefilledGrant(b: Bucket, now: nat, maxTokens: nat)
    requires 0 < maxTokens < TWO_32 && b.tokens <= maxTokens && b.stamp <= now && now - b.stamp < TWO_32
    requires 0 < Earned(now - b.stamp, maxTokens) < TWO_32
    ensures Grant(WordOf(b), now, maxTokens)
         == Some(WordOf(Bucket(now, Min(b.tokens + Earned(now - b.stamp, maxTokens), maxTokens) - 1)))
  {
    AddedWhenNarrow(b, now, maxTokens);
    GrantIsTake(b, now, maxTokens);
  }

  lemma {:induction false} DrainReaches(threads: nat, maxTokens: nat, s: Snap)
    requires Reaches(threads, maxTokens, s) && (s.first.Outside? || threads > 1) && s.since <= s.now
    requires s.bucket.stamp == s.now && s.bucket.tokens <= maxTokens < TWO_32
    ensures Reaches(threads, maxTokens, s.(bucket := Bucket(s.now, 0), n := s.n + s.bucket.tokens))
    decreases s.bucket.tokens
  {
    var k := s.bucket.tokens;
    if k > 0 {
      var next := s.(bucket := Bucket(s.now, k - 1), n := s.n + 1);
      SettledGrant(s.now, k, maxTokens);
      assert s.bucket == Bucket(s.now, k);
      TurnReaches(threads, maxTokens, s, Bucket(s.now, k - 1));
      DrainReaches(threads, maxTokens, next);
      assert next.(bucket := Bucket(s.now, 0), n := next.n + (k - 1)) == s.(bucket := Bucket(s.now, 0), n := s.n + k);
    } else {
      assert s.(bucket := Bucket(s.now, 0), n := s.n + 0) == s;
    }
  }

  /** Everything a bucket holds after refilling now. */
  function Refilled(b: Bucket, now: nat, maxTokens: nat): nat
    requires b.stamp <= now
  {
    Min(b.tokens + Earned(now - b.stamp, maxTokens), maxTokens)
  }

  lemma RefillAndDrain(threads: nat, maxTokens: nat, s: Snap)
    requires Reaches(threads, maxTokens, s) && (s.first.Outside? || threads > 1) && s.since <= s.now
    requires 0 < maxTokens < TWO_32 && s.bucket.tokens <= maxTokens && s.bucket.stamp <= s.now && s.now - s.bucket.stamp < TWO_32
    requires 0 < Earned(s.now - s.bucket.stamp, maxTokens) < TWO_32
    ensures Reaches(threads, maxTokens, s.(bucket := Bucket(s.now, 0), n := s.n + Refilled(s.bucket, s.now, maxTokens)))
  {
    var k := Refilled(s.bucket, s.now, maxTokens);
    RefilledGrant(s.bucket, s.now, maxTokens);
    TurnReaches(threads, maxTokens, s, Bucket(s.now, k - 1));
    var next := s.(bucket := Bucket(s.now, k - 1), n := s.n + 1);
    DrainReaches(threads, maxTokens, next);
    assert next.(bucket := Bucket(s.now, 0), n := next.n + (k - 1)) == s.(bucket := Bucket(s.now, 0), n := s.n + k);
  }

  // ---- The extra token of a late window --------------------------------------------------

  lemma SecondEarnsAll(maxTokens: nat)
    ensures Earned(1000, maxTokens) == maxTokens
  {}

  /** A thread reads a full bucket at 0 and exchanges at `ms`, when a token has been earned again. */
  lemma BurstReaches(threads: nat, maxTokens: nat, ms: nat)
    requires threads > 0 && 0 < maxTokens < TWO_32 && ms < TWO_32 && 0 < Earned(ms, maxTokens) < TWO_32
    ensures Reaches(threads, maxTokens, Snap(ms, Bucket(ms, 0), 1 + maxTokens, ms, Outside))
  {
    var word := WordOf(Bucket(0, maxTokens));
    StartShows(threads, maxTokens, ms);
    LoadReaches(threads, maxTokens, Snap(0, Bucket(0, maxTokens), 0, ms, Outside));
    ReadReaches(threads, maxTokens, Snap(0, Bucket(0, maxTokens), 0, ms, Loaded(word, 0)));
    TickReaches(threads, maxTokens, Snap(0, Bucket(0, maxTokens), 0, ms, Timed(word, 0, 0)), ms);
    SettledGrant(0, maxTokens, maxTokens);
    ExchangeReaches(threads, maxTokens, Snap(ms, Bucket(0, maxTokens), 0, ms, Timed(word, 0, 0)), Bucket(0, maxTokens - 1));
    RefillAndDrain(threads, maxTokens, Snap(ms, Bucket(0, maxTokens - 1), 1, ms, Outside));
  }

  /** As soon as a token is earned, any rate can hand out `max + 1` tokens in one instant: the window's extra token is attained. */
  lemma InstantBurst(threads: nat, maxTokens: nat, ms: nat) returns (events: seq<Event>)
    requires threads > 0 && 0 < maxTokens < TWO_32 && ms <= 1000 && 0 < Earned(ms, maxTokens)
    ensures var r := Execute(Start(threads, maxTokens), events, maxTokens);
            && r.now == ms && |r.exchanged| == maxTokens + 1 && NeverStale(threads, events, maxTokens)
            && forall k :: 0 <= k < |r.exchanged| ==> r.exchanged[k] == ms
  {
    EarnedAtMost(ms, maxTokens);
    BurstReaches(threads, maxTokens, ms);
    var end := Snap(ms, Bucket(ms, 0), 1 + maxTokens, ms, Outside);
    events :| Shows(Execute(Start(threads, maxTokens), events, maxTokens), end);
    YoungRunsAreNeverStale(threads, events, maxTokens);
  }

  /** Every window meets the bound without the extra token. */
  ghost predicate StrictWindows(r: Race, maxTokens: nat) {
    forall i: nat, j: nat, t0: nat, t1: nat :: Within(r, i, j, t0, t1) ==>
      1000 * (j - i) < 1000 * maxTokens + (t1 - t0) * maxTokens + 1000
  }

  lemma EarlyWindow(r: Race, maxTokens: nat, i: nat, j: nat, t0: nat, t1: nat)
    requires 0 < maxTokens < TWO_32 && Sequential(r, maxTokens) && r.now * maxTokens < 1000 && Within(r, i, j, t0, t1)
    ensures 1000 * (j - i) < 1000 * maxTokens + (t1 - t0) * maxTokens + 1000
  {
    assert GrantedBy(r, |r.exchanged|, r.now);
    GrantedByBound(r, maxTokens, |r.exchanged|, r.now);
    ProductMonotone(0, t1 - t0, maxTokens);
  }

  lemma EarlyIsYoung(now: nat, maxTokens: nat)
    requires 0 < maxTokens && now * maxTokens < 1000
    ensures now < 1000
  {
    ProductMonotone(1, maxTokens, now);
  }

  /** Before the first token is earned, all grants together fit the bucket. */
  lemma EarlyWindowsAreStrict(threads: nat, events: seq<Event>, maxTokens: nat)
    requires 0 < maxTokens < TWO_32 && Execute(Start(threads, maxTokens), events, maxTokens).now * maxTokens < 1000
    ensures StrictWindows(Execute(Start(threads, maxTokens), events, maxTokens), maxTokens)
  {
    var r := Execute(Start(threads, maxTokens), events, maxTokens);
    EarlyIsYoung(r.now, maxTokens);
    YoungRunsAreNeverStale(threads, events, maxTokens);
    RunIsFaithful(threads, events, maxTokens);
    forall i: nat, j: nat, t0: nat, t1: nat | Within(r, i, j, t0, t1)
      ensures 1000 * (j - i) < 1000 * maxTokens + (t1 - t0) * maxTokens + 1000
    {
      EarlyWindow(r, maxTokens, i, j, t0, t1);
    }
  }

  lemma {:induction false} NobodyGrants(events: seq<Event>, maxTokens: nat)
    ensures var r := Execute(Start(0, maxTokens), events, maxTokens); r.threads == [] && r.exchanged == []
    decreases |events|
  {
    if |events| == 0 {
      assert events == [];
    } else {
      NobodyGrants(events[..|events| - 1], maxTokens);
    }
  }

  /** The burst at `ms` is a window of one instant that holds one token too many. */
  lemma BurstBreaksWindow(r: Race, maxTokens: nat, ms: nat)
    requires |r.exchanged| == maxTokens + 1 && forall k :: 0 <= k < |r.exchanged| ==> r.exchanged[k] == ms
    ensures !StrictWindows(r, maxTokens)
  {
    assert Within(r, 0, maxTokens + 1, ms, ms);
  }

  /** All windows of all runs ending by time `t` meet the strict bound exactly when no token can have been earned by then. */
  lemma StrictWindowsIff(threads: nat, maxTokens: nat, t: nat)
    requires 0 < maxTokens < TWO_32
    ensures (forall events :: Execute(Start(threads, maxTokens), events, maxTokens).now <= t
                              ==> StrictWindows(Execute(Start(threads, maxTokens), events, maxTokens), maxTokens))
       <==> threads == 0 || t * maxTokens < 1000
  {
    if threads == 0 || t * maxTokens < 1000 {
      forall events | Execute(Start(threads, maxTokens), events, maxTokens).now <= t
        ensures StrictWindows(Execute(Start(threads, maxTokens), events, maxTokens), maxTokens)
      {
        if threads == 0 {
          NobodyGrants(events, maxTokens);
        } else {
          ProductMonotone(Execute(Start(threads, maxTokens), events, maxTokens).now, t, maxTokens);
          EarlyWindowsAreStrict(threads, events, maxTokens);
        }
      }
    } else {
      var ms := Min(t, 1000);
      SecondEarnsAll(maxTokens);
      var events := InstantBurst(threads, maxTokens, ms);
      BurstBreaksWindow(Execute(Start(threads, maxTokens), events, maxTokens), maxTokens, ms);
    }
  }

  // ---- After a lap the rate can fail ---------------------------------------------------------

  function Times(n: nat, x: nat): nat {
    n * x
  }

  lemma TimesNext(n: nat, x: nat)
    ensures Times(n + 1, x) == Times(n, x) + x
  {}

  /** Thread 0 stalls on a word loaded at 0 while thread 1 drains the bucket once a second. */
  function Seconds(s: Snap, k: nat, maxTokens: nat): Snap {
    s.(now := s.now + 1000 * k, bucket := Bucket(s.now + 1000 * k, 0), n := s.n + Times(k, maxTokens))
  }

  lemma {:induction false} SecondsReach(threads: nat, maxTokens: nat, s: Snap, k: nat)
    requires threads > 1 && 0 < maxTokens < TWO_32 && Reaches(threads, maxTokens, s) && s.since <= s.now
    requires s.bucket == Bucket(s.now, 0)
    ensures Reaches(threads, maxTokens, Seconds(s, k, maxTokens))
  {
    if k == 0 {
      assert Seconds(s, 0, maxTokens) == s;
    } else {
      SecondsReach(threads, maxTokens, s, k - 1);
      var before := Seconds(s, k - 1, maxTokens);
      TickReaches(threads, maxTokens, before, 1000);
      SecondEarnsAll(maxTokens);
      RefillAndDrain(threads, maxTokens, before.(now := before.now + 1000));
      TimesNext(k - 1, maxTokens);
      assert Seconds(s, k, maxTokens)
          == before.(now := before.now + 1000, bucket := Bucket(before.now + 1000, 0), n := before.n + maxTokens);
    }
  }

  /** What 296 milliseconds earn, drained at 296 when it is a token at all. */
  lemma FirstDrains(threads: nat, maxTokens: nat, s: Snap) returns (b: Bucket)
    requires threads > 1 && 0 < maxTokens < TWO_32 && Reaches(threads, maxTokens, s)
    requires s.now == 0 && s.since == 0 && s.bucket == Bucket(0, 0)
    ensures b.tokens == 0 && b.stamp <= 296 && (b.stamp == 296 || (b.stamp == 0 && Earned(296, maxTokens) == 0))
    ensures Reaches(threads, maxTokens, s.(now := 296, bucket := b, n := s.n + Earned(296, maxTokens)))
  {
    TickReaches(threads, maxTokens, s, 296);
    var later := s.(now := 296);
    b := Bucket(0, 0);
    if Earned(296, maxTokens) == 0 {
      assert later.(bucket := b, n := s.n + 0) == later;
    } else {
      EarnedAtMost(296, maxTokens);
      RefillAndDrain(threads, maxTokens, later);
      b := Bucket(296, 0);
    }
  }

  lemma EarnedAtMost(ms: nat, maxTokens: nat)
    requires ms <= 1000
    ensures Earned(ms, maxTokens) <= maxTokens
  {
    ProductMonotone(ms, 1000, maxTokens);
  }

  /** By 1296 the bucket is full again, whether or not it was stamped at 296. */
  lemma FullBy1296(b: Bucket, maxTokens: nat)
    requires 0 < maxTokens < TWO_32
    requires b.tokens == 0 && (b.stamp == 296 || (b.stamp == 0 && Earned(296, maxTokens) == 0))
    ensures maxTokens <= Earned(1296 - b.stamp, maxTokens) < TWO_32 && Refilled(b, 1296, maxTokens) == maxTokens
  {
    SecondEarnsAll(maxTokens);
  }

  lemma LapSlack(maxTokens: nat)
    ensures 1000 * (maxTokens + Earned(296, maxTokens) + maxTokens + Times(4294966, maxTokens) + 1) > 1000 * maxTokens + TWO_32 * maxTokens
  {
    assert TWO_32 == 1000 * 4294967 + 296;
    FloorAbove(296 * maxTokens);
  }

  lemma FloorAbove(x: nat)
    ensures 1000 * (x / 1000) + 1000 > x
  {}

  /** Thread 0 loads the empty word at 0; thread 1 drains what there is at 296. */
  lemma StallReaches(threads: nat, maxTokens: nat) returns (b: Bucket)
    requires threads > 1 && 0 < maxTokens < TWO_32
    ensures b.tokens == 0 && (b.stamp == 296 || (b.stamp == 0 && Earned(296, maxTokens) == 0))
    ensures Reaches(threads, maxTokens, Snap(296, b, maxTokens + Earned(296, maxTokens), 0, Loaded(0, maxTokens)))
  {
    StartShows(threads, maxTokens, 0);
    DrainReaches(threads, maxTokens, Snap(0, Bucket(0, maxTokens), 0, 0, Outside));
    LoadReaches(threads, maxTokens, Snap(0, Bucket(0, 0), maxTokens, 0, Outside));
    b := FirstDrains(threads, maxTokens, Snap(0, Bucket(0, 0), maxTokens, 0, Loaded(0, maxTokens)));
  }

  /** Thread 0 reads the clock at 1000; thread 1 drains the full bucket at 1296. */
  lemma At1296Reaches(threads: nat, maxTokens: nat, b: Bucket, n: nat, seen: nat)
    requires threads > 1 && 0 < maxTokens < TWO_32
    requires b.tokens == 0 && (b.stamp == 296 || (b.stamp == 0 && Earned(296, maxTokens) == 0))
    requires Reaches(threads, maxTokens, Snap(296, b, n, 0, Loaded(0, seen)))
    ensures Reaches(threads, maxTokens, Snap(1296, Bucket(1296, 0), n + maxTokens, 0, Timed(0, seen, 1000)))
  {
    TickReaches(threads, maxTokens, Snap(296, b, n, 0, Loaded(0, seen)), 704);
    ReadReaches(threads, maxTokens, Snap(1000, b, n, 0, Loaded(0, seen)));
    TickReaches(threads, maxTokens, Snap(1000, b, n, 0, Timed(0, seen, 1000)), 296);
    FullBy1296(b, maxTokens);
    RefillAndDrain(threads, maxTokens, Snap(1296, b, n, 0, Timed(0, seen, 1000)));
  }

  /** The run just before the stale exchange: an empty bucket, and a thread that read its clock at 1000. */
  lemma LapReaches(threads: nat, maxTokens: nat, laps: nat)
    requires threads > 1 && 0 < maxTokens < TWO_32
    ensures Reaches(threads, maxTokens, BeforeLap(maxTokens, laps))
  {
    var b := StallReaches(threads, maxTokens);
    At1296Reaches(threads, maxTokens, b, maxTokens + Earned(296, maxTokens), maxTokens);
    SecondsReach(threads, maxTokens, BeforeLap(maxTokens, 0), laps);
  }

  function BeforeLap(maxTokens: nat, laps: nat): Snap {
    Seconds(Snap(1296, Bucket(1296, 0), maxTokens + Earned(296, maxTokens) + maxTokens, 0, Timed(0, maxTokens, 1000)), laps, maxTokens)
  }

  lemma WrappedWord(stamp: nat)
    requires stamp == TWO_32
    ensures WordOf(Bucket(stamp, 0)) == 0 && WordOf(Bucket(0, 0)) == 0
  {}

  function AfterLap(maxTokens: nat, laps: nat): Snap
    requires maxTokens > 0
  {
    BeforeLap(maxTokens, laps).(bucket := Bucket(1000, maxTokens - 1), n := BeforeLap(maxTokens, laps).n + 1, first := Outside)
  }

  /** The stalled thread's exchange succeeds: the word looks as it did when it was loaded. */
  lemma LapExchange(threads: nat, maxTokens: nat, laps: nat)
    requires threads > 1 && 0 < maxTokens < TWO_32 && laps == (TWO_32 - 1296) / 1000
    ensures Reaches(threads, maxTokens, AfterLap(maxTokens, laps))
  {
    LapReaches(threads, maxTokens, laps);
    var s := BeforeLap(maxTokens, laps);
    WrappedWord(s.now);
    SecondEarnsAll(maxTokens);
    RefilledGrant(Bucket(0, 0), 1000, maxTokens);
    ExchangeReaches(threads, maxTokens, s, Bucket(1000, maxTokens - 1));
  }

  lemma LapOverrun(r: Race, maxTokens: nat, laps: nat)
    requires 0 < maxTokens && laps == (TWO_32 - 1296) / 1000 && Shows(r, AfterLap(maxTokens, laps))
    ensures r.now == TWO_32 && !RateHolds(r, maxTokens)
  {
    LapSlack(maxTokens);
    assert GrantedBy(r, AfterLap(maxTokens, laps).n, r.now);
  }

  /** At every rate two threads can break the bound by 2^32 ms, with one exchange on a word that only looks unchanged. */
  lemma LapBreaksTheRate(threads: nat, maxTokens: nat) returns (events: seq<Event>)
    requires threads > 1 && 0 < maxTokens < TWO_32
    ensures Execute(Start(threads, maxTokens), events, maxTokens).now == TWO_32
    ensures !RateHolds(Execute(Start(threads, maxTokens), events, maxTokens), maxTokens)
  {
    var laps := (TWO_32 - 1296) / 1000;
    LapExchange(threads, maxTokens, laps);
    events :| Shows(Execute(Start(threads, maxTokens), events, maxTokens), AfterLap(maxTokens, laps));
    LapOverrun(Execute(Start(threads, maxTokens), events, maxTokens), maxTokens, laps);
  }

  /**
   The rate holds in every run of `threads` workers that ends by time `t`, exactly when there is
   at most one thread or the 32-bit clock has not wrapped by then.
   */
  lemma RateHoldsIff(threads: nat, maxTokens: nat, t: nat)
    requires 0 < maxTokens < TWO_32
    ensures (forall events :: Execute(Start(threads, maxTokens), events, maxTokens).now <= t
                              ==> RateHolds(Execute(Start(threads, maxTokens), events, maxTokens), maxTokens))
       <==> threads < 2 || t < TWO_32
  {
    if threads < 2 || t < TWO_32 {
      forall events | Execute(Start(threads, maxTokens), events, maxTokens).now <= t
        ensures RateHolds(Execute(Start(threads, maxTokens), events, maxTokens), maxTokens)
      {
        if threads < 2 {
          LoneThreadIsNeverStale(threads, events, maxTokens);
          RaceIsBounded(threads, events, maxTokens);
        } else {
          RateHoldsBeforeWrap(threads, events, maxTokens);
        }
      }
    } else {
      var events := LapBreaksTheRate(threads, maxTokens);
    }
  }
}
