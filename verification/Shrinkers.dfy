/** The two shrinkers as instances of the shrinking machine, and the worker loop they share. */
module Shrinkers {
  import opened Basics
  import opened Shrinking
  import opened StopFilters

  // ---- The tester's shrinker -----------------------------------------------------------

  /** One replayed transaction and the broken invariant it reported. */
  datatype Outcome = Outcome(result: TxResult, report: Option<string>)

  /** Deterministic replay on a clean chain; `None` is an execution error. */
  type Replay<!C> = seq<C> -> Option<seq<Outcome>>

  ghost predicate OnePerCall<C(!new)>(replay: Replay<C>) {
    forall calls :: replay(calls).Some? ==> |replay(calls).value| == |calls|
  }

  /** What a stop finding's id says about the last result of a replay. */
  predicate LastMatches(decoder: PanicDecoder, r: TxResult, id: string) {
    if REVERT <= id then MatchesRevertId(r, id) else MatchesPanicId(decoder, r, id)
  }

  function Reproduces<C>(replay: Replay<C>, decoder: PanicDecoder, id: string, calls: seq<C>): Verdict {
    if REVERT <= id || PANIC <= id then
      if calls == [] then Reject
      else
        match replay(calls)
        case None => Fail
        case Some(outcomes) =>
          if outcomes != [] && LastMatches(decoder, outcomes[|outcomes| - 1].result, id) then Accept else Reject
    else
      match replay(calls)
      case None => Fail
      case Some(outcomes) => if exists k :: 0 <= k < |outcomes| && outcomes[k].report == Some(id) then Accept else Reject
  }

  function TesterConfig<C>(replay: Replay<C>, decoder: PanicDecoder, id: string, seed: seq<C>, maxRuns: nat): Config<C> {
    Config(seed, maxRuns, 0, false, calls => Reproduces(replay, decoder, id, calls))
  }

  lemma EmptyNeverReproduces<C(!new)>(replay: Replay<C>, decoder: PanicDecoder, id: string)
    requires OnePerCall(replay)
    ensures !Reproduces(replay, decoder, id, []).Accept?
  {}

  /** However the workers interleave, a shrunk sequence still shows the finding it was shrunk for. */
  lemma TesterShrinkKeepsFinding<C(!new)>(
    replay: Replay<C>, decoder: PanicDecoder, id: string, seed: seq<C>, maxRuns: nat, threads: nat, events: seq<Event>)
    requires OnePerCall(replay)
    requires Execute(TesterConfig(replay, decoder, id, seed, maxRuns), Start(TesterConfig(replay, decoder, id, seed, maxRuns), threads), events).Some?
    ensures var cfg := TesterConfig(replay, decoder, id, seed, maxRuns);
            var s := Execute(cfg, Start(cfg, threads), events).value.current;
            s == seed
            || (0 < |s| < |seed| && Subsequence(s, seed) && replay(s).Some? && |replay(s).value| == |s|
                && if REVERT <= id || PANIC <= id then LastMatches(decoder, replay(s).value[|s| - 1].result, id)
                   else exists k :: 0 <= k < |s| && replay(s).value[k].report == Some(id))
  {
    var cfg := TesterConfig(replay, decoder, id, seed, maxRuns);
    EmptyNeverReproduces(replay, decoder, id);
    ShrinkIsSafe(cfg, threads, events);
  }

  /** A sequence accepted for a recorded revert ends in a failure that would be recorded under the very same id. */
  lemma ReproducedRevertHasSameId<C(!new)>(replay: Replay<C>, decoder: PanicDecoder, recorded: TxResult, calls: seq<C>)
    requires OnePerCall(replay) && !recorded.success
    ensures Reproduces(replay, decoder, RevertId(recorded), calls).Accept?
       <==> calls != [] && replay(calls).Some?
            && var last := replay(calls).value[|calls| - 1].result;
               !last.success && RevertId(last) == RevertId(recorded)
  {
    assert REVERT <= RevertId(recorded);
    if calls != [] && replay(calls).Some? {
      var last := replay(calls).value[|calls| - 1].result;
      if !last.success {
        RevertIdIdentifies(recorded, last);
      }
    }
  }

  lemma ReproducedPanicHasSameId<C(!new)>(replay: Replay<C>, decoder: PanicDecoder, recorded: TxResult, calls: seq<C>)
    requires OnePerCall(replay) && Panics(decoder, AnyPanic, recorded)
    ensures Reproduces(replay, decoder, PanicId(decoder, recorded), calls).Accept?
       <==> calls != [] && replay(calls).Some?
            && var last := replay(calls).value[|calls| - 1].result;
               !last.success && PanicId(decoder, last) == PanicId(decoder, recorded)
  {
    assert PANIC <= PanicId(decoder, recorded);
    assert PanicId(decoder, recorded)[0] == 'P' && REVERT[0] == 'R';
    if calls != [] && replay(calls).Some? {
      var last := replay(calls).value[|calls| - 1].result;
      if !last.success {
        PanicIdIdentifiesIff(decoder, recorded, last);
      }
    }
  }

  /** The outcome by itself shows the finding. */
  predicate Shows(decoder: PanicDecoder, id: string, o: Outcome) {
    if REVERT <= id || PANIC <= id then LastMatches(decoder, o.result, id) else o.report == Some(id)
  }

  predicate LastShows<C>(replay: Replay<C>, decoder: PanicDecoder, id: string, calls: seq<C>) {
    match replay(calls)
    case None => false
    case Some(outcomes) => outcomes != [] && Shows(decoder, id, outcomes[|outcomes| - 1])
  }

  /** Replays that report the id at the first of two calls and nowhere else. */
  function ReportsEarly<C>(id: string): Replay<C> {
    (calls: seq<C>) =>
      Some(seq(|calls|, k requires 0 <= k < |calls| =>
        Outcome(TxResult(true, None, false), if k == 0 && |calls| == 2 then Some(id) else None)))
  }

  /** Whatever is accepted for an id shows it in its last call, for every replay, exactly when the id is a stop finding's. */
  lemma AcceptedByLastCallIff<C(!new)>(call: C, decoder: PanicDecoder, id: string)
    ensures (forall replay: Replay<C>, calls :: OnePerCall(replay) && Reproduces(replay, decoder, id, calls).Accept?
                                                ==> LastShows(replay, decoder, id, calls))
       <==> REVERT <= id || PANIC <= id
  {
    if !(REVERT <= id || PANIC <= id) {
      var replay: Replay<C>, calls := ReportsEarly(id), [call, call];
      assert replay(calls).value[0].report == Some(id) && replay(calls).value[1].report == None;
      assert OnePerCall(replay) && Reproduces(replay, decoder, id, calls).Accept? && !LastShows(replay, decoder, id, calls);
    }
  }

  // ---- The max shrinker ------------------------------------------------------------------

  /** Replaying a candidate and reading the harness value after it. */
  datatype Measured = Broken | Reverted | Reads(value: int)

  function Reaches(m: Measured, target: int): Verdict {
    match m
    case Broken => Fail
    case Reverted => Reject
    case Reads(value) => if value >= target then Accept else Reject
  }

  function MaxConfig<C>(measure: seq<C> -> Measured, target: int, seed: seq<C>, maxRuns: nat): Config<C> {
    Config(seed, maxRuns, 1, true, calls => Reaches(measure(calls), target))
  }

  /** However the workers interleave, a shrunk sequence still reaches the target value. */
  lemma MaxShrinkKeepsValue<C(!new)>(
    measure: seq<C> -> Measured, target: int, seed: seq<C>, maxRuns: nat, threads: nat, events: seq<Event>)
    requires Execute(MaxConfig(measure, target, seed, maxRuns), Start(MaxConfig(measure, target, seed, maxRuns), threads), events).Some?
    ensures var cfg := MaxConfig(measure, target, seed, maxRuns);
            var s := Execute(cfg, Start(cfg, threads), events).value.current;
            s == seed || (0 < |s| < |seed| && Subsequence(s, seed) && measure(s).Reads? && measure(s).value >= target)
  {
    ShrinkIsSafe(MaxConfig(measure, target, seed, maxRuns), threads, events);
  }

  // ---- Nothing that shows the finding is turned away -----------------------------------------

  /** For a broken invariant: accepted exactly when the replay reports the id at some call, failing exactly on an execution error. */
  lemma BrokenInvariantVerdict<C(!new)>(replay: Replay<C>, decoder: PanicDecoder, id: string, calls: seq<C>)
    requires !("REVERT:" <= id) && !("PANIC:" <= id)
    ensures Reproduces(replay, decoder, id, calls)
         == match replay(calls)
            case None => Fail
            case Some(outcomes) => if exists k :: 0 <= k < |outcomes| && outcomes[k].report == Some(id) then Accept else Reject
  {}

  /** For a stop finding: only the last result counts, and the empty sequence is turned away unexecuted. */
  lemma StopFindingVerdict<C(!new)>(replay: Replay<C>, decoder: PanicDecoder, id: string, calls: seq<C>)
    requires "REVERT:" <= id || "PANIC:" <= id
    ensures Reproduces(replay, decoder, id, calls)
         == if calls == [] then Reject
            else
              match replay(calls)
              case None => Fail
              case Some(outcomes) =>
                if outcomes != []
                   && (if "REVERT:" <= id then MatchesRevertId(outcomes[|outcomes| - 1].result, id)
                       else MatchesPanicId(decoder, outcomes[|outcomes| - 1].result, id))
                then Accept else Reject
  {}

  /** Once all workers are done, no validated candidate whose replay reports the broken invariant at any call is shorter than the result. */
  lemma BrokenInvariantShrunkToShortest<C(!new)>(
    replay: Replay<C>, decoder: PanicDecoder, id: string, seed: seq<C>, maxRuns: nat, threads: nat, events: seq<Event>, s: seq<C>, k: nat)
    requires !("REVERT:" <= id) && !("PANIC:" <= id)
    requires Execute(TesterConfig(replay, decoder, id, seed, maxRuns), Start(TesterConfig(replay, decoder, id, seed, maxRuns), threads), events).Some?
    ensures var cfg := TesterConfig(replay, decoder, id, seed, maxRuns);
            var r := Execute(cfg, Start(cfg, threads), events).value;
            (forall t :: 0 <= t < |r.workers| ==> r.workers[t].Done?) && s in r.validated
            && replay(s).Some? && k < |replay(s).value| && replay(s).value[k].report == Some(id)
            ==> |r.current| <= |s|
  {
    ResultIsShortestAccepted(TesterConfig(replay, decoder, id, seed, maxRuns), threads, events);
  }

  /** Likewise for a recorded revert, and a validated candidate whose last result fails with the same id. */
  lemma RevertShrunkToShortest<C(!new)>(
    replay: Replay<C>, decoder: PanicDecoder, recorded: TxResult, seed: seq<C>, maxRuns: nat, threads: nat, events: seq<Event>, s: seq<C>)
    requires OnePerCall(replay) && !recorded.success
    requires Execute(TesterConfig(replay, decoder, RevertId(recorded), seed, maxRuns),
                     Start(TesterConfig(replay, decoder, RevertId(recorded), seed, maxRuns), threads), events).Some?
    ensures var cfg := TesterConfig(replay, decoder, RevertId(recorded), seed, maxRuns);
            var r := Execute(cfg, Start(cfg, threads), events).value;
            (forall t :: 0 <= t < |r.workers| ==> r.workers[t].Done?) && s in r.validated && s != [] && replay(s).Some?
            && !replay(s).value[|s| - 1].result.success && RevertId(replay(s).value[|s| - 1].result) == RevertId(recorded)
            ==> |r.current| <= |s|
  {
    ResultIsShortestAccepted(TesterConfig(replay, decoder, RevertId(recorded), seed, maxRuns), threads, events);
    ReproducedRevertHasSameId(replay, decoder, recorded, s);
  }

  /** A candidate of the max search is accepted exactly when it can be measured at the target or above. */
  lemma MaxVerdict<C(!new)>(measure: seq<C> -> Measured, target: int, seed: seq<C>, maxRuns: nat, s: seq<C>)
    ensures MaxConfig(measure, target, seed, maxRuns).verdict(s).Accept? <==> measure(s).Reads? && measure(s).value >= target
    ensures MaxConfig(measure, target, seed, maxRuns).verdict(s).Fail? <==> measure(s).Broken?
  {}

  /** The tester goes on until nothing is left, keeping empty candidates; the max search stops at one call and drops them. */
  lemma WhereShrinkersStop<C(!new)>(
    replay: Replay<C>, decoder: PanicDecoder, id: string, measure: seq<C> -> Measured, target: int, seed: seq<C>, maxRuns: nat,
    r: Shrink<C>, t: nat, start: nat, chunk: nat)
    requires t < |r.workers| && r.workers[t].Open? && start < |r.current| && 1 <= chunk <= |r.current|
    ensures var tester := TesterConfig(replay, decoder, id, seed, maxRuns);
            && tester.seed == seed && tester.maxRuns == maxRuns
            && Enabled(tester, r, Pick(t, start, chunk)) && Step(tester, r, Pick(t, start, chunk)).workers[t].Picked?
    ensures var max := MaxConfig(measure, target, seed, maxRuns);
            && max.seed == seed && max.maxRuns == maxRuns && Enabled(max, r, Pick(t, start, chunk))
            && (|r.current| == 1 <==> Step(max, r, Pick(t, start, chunk)).workers[t] == Done(Stopped))
            && (|r.current| > 1 && start == 0 && chunk == |r.current| <==> Step(max, r, Pick(t, start, chunk)).workers[t] == Ready)
  {}

  /** Once all workers are done, no validated candidate that measures the target or above is shorter than the result. */
  lemma MaxShrunkToShortest<C(!new)>(
    measure: seq<C> -> Measured, target: int, seed: seq<C>, maxRuns: nat, threads: nat, events: seq<Event>, s: seq<C>)
    requires Execute(MaxConfig(measure, target, seed, maxRuns), Start(MaxConfig(measure, target, seed, maxRuns), threads), events).Some?
    ensures var cfg := MaxConfig(measure, target, seed, maxRuns);
            var r := Execute(cfg, Start(cfg, threads), events).value;
            (forall t :: 0 <= t < |r.workers| ==> r.workers[t].Done?) && s in r.validated && measure(s).Reads? && measure(s).value >= target
            ==> |r.current| <= |s|
  {
    ResultIsShortestAccepted(MaxConfig(measure, target, seed, maxRuns), threads, events);
  }

  // ---- The worker loop --------------------------------------------------------------------

  /** One iteration's outcome of the clock and of the random generator. */
  datatype Draw = Draw(timedOut: bool, single: bool, chunk: nat, start: nat)

  function ChunkOf(d: Draw, len: nat): (r: nat)
    requires len > 0
    ensures 1 <= r <= len
    ensures d.single ==> r == 1
    ensures !d.single && d.chunk < len ==> r == d.chunk + 1
  {
    if d.single then 1 else 1 + d.chunk % len
  }

  /** The machine state of a worker that runs alone. */
  function Alone<C>(current: seq<C>, attempts: nat, worker: Worker<C>, validated: seq<seq<C>>, iterations: nat): Shrink<C> {
    Shrink(current, attempts, [worker], validated, iterations)
  }

  class SharedShrink<!C(==)> {
    var current: seq<C>
    var attempts: nat
    const maxRuns: nat

    constructor (seed: seq<C>, maxRuns: nat)
      ensures current == seed && attempts == 0 && this.maxRuns == maxRuns
    {
      this.current, this.attempts, this.maxRuns := seed, 0, maxRuns;
    }

    method Update(candidate: seq<C>) returns (accepted: bool)
      modifies this`current
      ensures accepted <==> |candidate| < |old(current)|
      ensures current == if accepted then candidate else old(current)
    {
      accepted := |candidate| < |current|;
      if accepted {
        current := candidate;
      }
    }

    method RecordAttempt() returns (remains: bool)
      modifies this`attempts
      ensures attempts == NextTicket(old(attempts))
      ensures remains <==> attempts <= maxRuns
    {
      attempts := (attempts + 1) % TWO_64;
      remains := attempts <= maxRuns;
    }

    predicate Exhausted()
      reads this
    {
      attempts >= maxRuns
    }

    /** The worker's machine state agrees with the shared fields. */
    ghost predicate Shows(end: Shrink<C>, worker: Worker<C>, iterations: nat)
      reads this
    {
      end == Alone(current, attempts, worker, end.validated, iterations)
    }

    /** The second half of an iteration: take a ticket, replay the candidate, and update. */
    method TryCandidate(cfg: Config<C>, candidate: seq<C>, ghost start: Shrink<C>, ghost before: seq<Event>, ghost at: Shrink<C>)
      returns (exit: Option<Exit>, ghost events: seq<Event>, ghost end: Shrink<C>)
      requires cfg.maxRuns == maxRuns && Shows(at, Picked(candidate), at.iterations) && Execute(cfg, start, before) == Some(at)
      modifies this`current, this`attempts
      ensures Execute(cfg, start, events) == Some(end)
      ensures Shows(end, if exit.Some? then Done(exit.value) else Ready, at.iterations)
    {
      exit := None;
      var remains := RecordAttempt();
      events, end := Grow(cfg, start, before, at, Ticket(0));
      if !remains {
        return Some(Refused), events, end;
      }
      events, end := Grow(cfg, start, events, end, Validate(0));
      match cfg.verdict(candidate) {
        case Fail => return Some(Failed), events, end;
        case Reject =>
        case Accept =>
          var _ := Update(candidate);
          events, end := Grow(cfg, start, events, end, Event.Update(0));
      }
    }

    /** One iteration of the loop. */
    method Iterate(cfg: Config<C>, d: Draw, ghost start: Shrink<C>, ghost before: seq<Event>, ghost at: Shrink<C>)
      returns (exit: Option<Exit>, ghost events: seq<Event>, ghost end: Shrink<C>)
      requires cfg.maxRuns == maxRuns && Shows(at, Ready, at.iterations) && Execute(cfg, start, before) == Some(at)
      modifies this`current, this`attempts
      ensures Execute(cfg, start, events) == Some(end)
      ensures Shows(end, if exit.Some? then Done(exit.value) else Ready, at.iterations + 1)
    {
      events, end := Grow(cfg, start, before, at, Check(0, d.timedOut));
      if Exhausted() || d.timedOut {
        return Some(Stopped), events, end;
      }
      var len := |current|;
      if len == 0 || len <= cfg.stopLen {
        events, end := Grow(cfg, start, events, end, Pick(0, 0, 1));
        return Some(Stopped), events, end;
      }
      var from, chunk := d.start % len, ChunkOf(d, len);
      events, end := Grow(cfg, start, events, end, Pick(0, from, chunk));
      var candidate := Without(current, from, Min(from + chunk, len));
      if cfg.skipEmpty && candidate == [] {
        return None, events, end;
      }
      exit, events, end := TryCandidate(cfg, candidate, start, events, end);
    }

    /** `shrink_worker`, run alone until it stops or the draws run out: a run of the machine with one worker. */
    method ShrinkWorker(cfg: Config<C>, draws: seq<Draw>) returns (exit: Option<Exit>, ghost events: seq<Event>, ghost end: Shrink<C>)
      requires cfg.maxRuns == maxRuns
      modifies this`current, this`attempts
      ensures Execute(cfg, Alone(old(current), old(attempts), Ready, [], 0), events) == Some(end)
      ensures Shows(end, if exit.Some? then Done(exit.value) else Ready, end.iterations)
      ensures exit.None? ==> end.iterations == |draws|
    {
      ghost var start := Alone(current, attempts, Ready, [], 0);
      exit, events, end := None, [], start;
      var i := 0;
      while i < |draws| && exit.None?
        invariant 0 <= i <= |draws|
        invariant Execute(cfg, start, events) == Some(end)
        invariant Shows(end, if exit.Some? then Done(exit.value) else Ready, i)
        decreases |draws| - i
      {
        exit, events, end := Iterate(cfg, draws[i], start, events, end);
        i := i + 1;
      }
    }
  }

  /** What shrinking returns after a run of its workers; a sequence of at most one call is minimal already. */
  function Shrunk<C>(cfg: Config<C>, threads: nat, events: seq<Event>): seq<C> {
    if |cfg.seed| <= 1 then cfg.seed
    else
      match Execute(cfg, Start(cfg, threads), events)
      case None => cfg.seed
      case Some(r) => r.current
  }

  /**
   However many workers race and however they interleave, shrinking returns the seed or a validated
   shorter subsequence, and once all have stopped nothing accepted is shorter.
   */
  lemma ShrunkIsSafe<C(!new)>(cfg: Config<C>, threads: nat, events: seq<Event>)
    requires Lawful(cfg) && Execute(cfg, Start(cfg, threads), events).Some?
    ensures var shrunk, r := Shrunk(cfg, threads, events), Execute(cfg, Start(cfg, threads), events).value;
            && (|cfg.seed| <= 1 ==> shrunk == cfg.seed)
            && (shrunk == cfg.seed || (0 < |shrunk| < |cfg.seed| && Subsequence(shrunk, cfg.seed) && cfg.verdict(shrunk).Accept?))
            && (|cfg.seed| > 1 && (forall t :: 0 <= t < |r.workers| ==> r.workers[t].Done?) ==>
                  forall s :: s in r.validated && cfg.verdict(s).Accept? ==> |shrunk| <= |s|)
  {
    ShrinkIsSafe(cfg, threads, events);
    ResultIsShortestAccepted(cfg, threads, events);
  }

  ghost method Grow<C>(cfg: Config<C>, start: Shrink<C>, events: seq<Event>, end: Shrink<C>, e: Event)
    returns (more: seq<Event>, next: Shrink<C>)
    requires Execute(cfg, start, events) == Some(end) && Enabled(cfg, end, e)
    ensures Execute(cfg, start, more) == Some(next) && next == Step(cfg, end, e)
  {
    more, next := events + [e], Step(cfg, end, e);
    ExecuteOne(cfg, start, events, e);
  }
}
