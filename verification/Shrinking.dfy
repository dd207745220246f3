/**
 Parallel shrinking: workers race on a shared current sequence and a ticket
 budget. One machine covers both shrinkers, which differ in where they stop,
 whether they skip empty candidates, and what makes a candidate acceptable.
 */
module Shrinking {
  import opened Basics

  datatype Verdict = Accept | Reject | Fail

  /** `verdict` is the deterministic replay of a candidate on a clean chain. */
  datatype Config<!C> = Config(
    seed: seq<C>,
    maxRuns: nat,
    stopLen: nat,
    skipEmpty: bool,
    verdict: seq<C> -> Verdict)

  /** How a worker ended: out of budget or work, refused a ticket, or on a replay error. */
  datatype Exit = Stopped | Refused | Failed

  datatype Worker<C> =
    | Ready
    | Open
    | Picked(candidate: seq<C>)
    | Validating(candidate: seq<C>)
    | Updating(candidate: seq<C>)
    | Done(exit: Exit)

  datatype Event =
    | Check(t: nat, timedOut: bool)
    | Pick(t: nat, start: nat, chunk: nat)
    | Ticket(t: nat)
    | Validate(t: nat)
    | Update(t: nat)

  /** `validated` logs the candidates replayed; `iterations` counts the loop iterations begun. */
  datatype Shrink<C> = Shrink(
    current: seq<C>,
    attempts: nat,
    workers: seq<Worker<C>>,
    validated: seq<seq<C>>,
    iterations: nat)

  function Start<C>(cfg: Config<C>, threads: nat): Shrink<C> {
    Shrink(cfg.seed, 0, seq(threads, _ => Ready), [], 0)
  }

  /** The sequence without the calls in `start..end`. */
  function Without<C>(s: seq<C>, start: nat, end: nat): seq<C>
    requires start <= end <= |s|
  {
    s[..start] + s[end..]
  }

  function Candidate<C>(s: seq<C>, start: nat, chunk: nat): seq<C>
    requires start < |s|
  {
    Without(s, start, Min(start + chunk, |s|))
  }

  /** The event fits the phase of its worker, and a pick is one the generator can draw. */
  predicate Enabled<C>(cfg: Config<C>, r: Shrink<C>, e: Event) {
    e.t < |r.workers| &&
    match e
    case Check(t, _) => r.workers[t].Ready?
    case Pick(t, start, chunk) =>
      r.workers[t].Open? && (|r.current| <= cfg.stopLen || (start < |r.current| && 1 <= chunk <= |r.current|))
    case Ticket(t) => r.workers[t].Picked?
    case Validate(t) => r.workers[t].Validating?
    case Update(t) => r.workers[t].Updating?
  }

  function Move<C>(r: Shrink<C>, t: nat, w: Worker<C>): Shrink<C>
    requires t < |r.workers|
  {
    r.(workers := r.workers[t := w])
  }

  function NextTicket(attempts: nat): nat {
    (attempts + 1) % TWO_64
  }

  /** One atomic step of one worker. */
  function Step<C>(cfg: Config<C>, r: Shrink<C>, e: Event): Shrink<C>
    requires Enabled(cfg, r, e)
  {
    match e
    case Check(t, timedOut) =>
      Move(r, t, if r.attempts >= cfg.maxRuns || timedOut then Done(Stopped) else Open).(iterations := r.iterations + 1)
    case Pick(t, start, chunk) =>
      if |r.current| <= cfg.stopLen || r.current == [] then Move(r, t, Done(Stopped))
      else
        var candidate := Candidate(r.current, start, chunk);
        Move(r, t, if cfg.skipEmpty && candidate == [] then Ready else Picked(candidate))
    case Ticket(t) =>
      var ticket := NextTicket(r.attempts);
      Move(r, t, if ticket <= cfg.maxRuns then Validating(r.workers[t].candidate) else Done(Refused)).(attempts := ticket)
    case Validate(t) =>
      var candidate := r.workers[t].candidate;
      Move(r, t, match cfg.verdict(candidate) case Accept => Updating(candidate) case Reject => Ready case Fail => Done(Failed))
        .(validated := r.validated + [candidate])
    case Update(t) =>
      var candidate := r.workers[t].candidate;
      Move(r, t, Ready).(current := if |candidate| < |r.current| then candidate else r.current)
  }

  /** A run of enabled events; `None` when one of them is not enabled. */
  function Execute<C>(cfg: Config<C>, r: Shrink<C>, events: seq<Event>): Option<Shrink<C>>
    decreases |events|
  {
    if events == [] then Some(r)
    else
      match Execute(cfg, r, events[..|events| - 1])
      case None => None
      case Some(before) => if Enabled(cfg, before, events[|events| - 1]) then Some(Step(cfg, before, events[|events| - 1])) else None
  }

  // ---- Subsequences -----------------------------------------------------------------

  /** `part` is what is left of `whole` after deleting calls. */
  ghost predicate Subsequence<C(!new)>(part: seq<C>, whole: seq<C>) {
    if part == [] then true
    else if whole == [] then false
    else if part[0] == whole[0] && Subsequence(part[1..], whole[1..]) then true
    else Subsequence(part, whole[1..])
  }

  lemma {:induction false} Transitive<C(!new)>(a: seq<C>, b: seq<C>, c: seq<C>)
    requires Subsequence(a, b) && Subsequence(b, c)
    ensures Subsequence(a, c)
    decreases |c|
  {
    if |a| > 0 {
      if b[0] == c[0] && Subsequence(b[1..], c[1..]) {
        if a[0] == b[0] && Subsequence(a[1..], b[1..]) {
          Transitive(a[1..], b[1..], c[1..]);
        } else {
          Transitive(a, b[1..], c[1..]);
        }
      } else {
        Transitive(a, b, c[1..]);
      }
    }
  }

  lemma {:induction false} Reflexive<C(!new)>(s: seq<C>)
    ensures Subsequence(s, s)
  {
    if |s| > 0 {
      Reflexive(s[1..]);
    }
  }

  lemma {:induction false} SuffixIsSubsequence<C(!new)>(s: seq<C>, n: nat)
    requires n <= |s|
    ensures Subsequence(s[n..], s)
  {
    if n == 0 {
      Reflexive(s);
      assert s[0..] == s;
    } else {
      SuffixIsSubsequence(s[1..], n - 1);
      assert s[1..][n - 1..] == s[n..];
    }
  }

  lemma {:induction false} WithoutIsSubsequence<C(!new)>(s: seq<C>, start: nat, end: nat)
    requires start <= end <= |s|
    ensures Subsequence(Without(s, start, end), s) && |Without(s, start, end)| == |s| - (end - start)
    ensures forall k :: 0 <= k < |Without(s, start, end)| ==> Without(s, start, end)[k] == s[if k < start then k else k + (end - start)]
  {
    if start == 0 {
      SuffixIsSubsequence(s, end);
      assert Without(s, 0, end) == s[end..];
    } else {
      WithoutIsSubsequence(s[1..], start - 1, end - 1);
      assert Without(s, start, end)[1..] == Without(s[1..], start - 1, end - 1);
    }
  }

  /** A pick deletes exactly the calls of its chunk, cut off at the end, from the current sequence. */
  lemma PickDeletesChunk<C(!new)>(cfg: Config<C>, r: Shrink<C>, t: nat, start: nat, chunk: nat)
    requires Enabled(cfg, r, Pick(t, start, chunk)) && |r.current| > cfg.stopLen && r.current != []
    ensures var w, len := Step(cfg, r, Pick(t, start, chunk)).workers[t], |r.current|;
            var end := if start + chunk < len then start + chunk else len;
            if cfg.skipEmpty && start == 0 && end == len then w == Ready
            else
              && w.Picked? && |w.candidate| == len - (end - start)
              && forall k :: 0 <= k < |w.candidate| ==> w.candidate[k] == r.current[if k < start then k else k + (end - start)]
  {
    WithoutIsSubsequence(r.current, start, Min(start + chunk, |r.current|));
  }

  /** A replay sends the worker on to its update, back to another try, or out; an update replaces exactly a longer sequence. */
  lemma ReplayDecides<C(!new)>(cfg: Config<C>, r: Shrink<C>, t: nat)
    ensures Enabled(cfg, r, Validate(t)) ==>
              var c, r' := r.workers[t].candidate, Step(cfg, r, Validate(t));
              && r'.validated == r.validated + [c] && r'.current == r.current && r'.attempts == r.attempts
              && (cfg.verdict(c).Accept? <==> r'.workers[t] == Updating(c))
              && (cfg.verdict(c).Reject? <==> r'.workers[t] == Ready)
              && (cfg.verdict(c).Fail? <==> r'.workers[t] == Done(Failed))
    ensures Enabled(cfg, r, Update(t)) ==>
              var c, r' := r.workers[t].candidate, Step(cfg, r, Update(t));
              && r'.workers[t] == Ready && r'.validated == r.validated && r'.attempts == r.attempts
              && r'.current == if |c| >= |r.current| then r.current else c
  {}

  /** A worker stops for good exactly when the budget is used up, time is out, or the sequence is short enough. */
  lemma StopsIff<C(!new)>(cfg: Config<C>, r: Shrink<C>, t: nat, timedOut: bool, start: nat, chunk: nat)
    ensures Enabled(cfg, r, Check(t, timedOut)) ==>
              (Step(cfg, r, Check(t, timedOut)).workers[t] == Done(Stopped) <==> timedOut || r.attempts >= cfg.maxRuns)
    ensures Enabled(cfg, r, Pick(t, start, chunk)) ==>
              (Step(cfg, r, Pick(t, start, chunk)).workers[t].Done? <==> |r.current| <= cfg.stopLen || |r.current| == 0)
  {}

  // ---- What the shared sequence can be -------------------------------------------------

  /** An empty candidate is never accepted. */
  predicate Lawful<C>(cfg: Config<C>) {
    cfg.skipEmpty || !cfg.verdict([]).Accept?
  }

  ghost predicate Proper<C(!new)>(cfg: Config<C>, s: seq<C>) {
    |s| < |cfg.seed| && Subsequence(s, cfg.seed) && (cfg.skipEmpty ==> s != [])
  }

  ghost predicate Accepted<C(!new)>(cfg: Config<C>, s: seq<C>) {
    Proper(cfg, s) && s != [] && cfg.verdict(s).Accept?
  }

  ghost predicate WorkerOk<C(!new)>(cfg: Config<C>, r: Shrink<C>, w: Worker<C>) {
    match w
    case Picked(c) => Proper(cfg, c)
    case Validating(c) => Proper(cfg, c)
    case Updating(c) => Accepted(cfg, c) && c in r.validated
    case _ => true
  }

  ghost predicate Safe<C(!new)>(cfg: Config<C>, r: Shrink<C>) {
    && (r.current == cfg.seed || (Accepted(cfg, r.current) && r.current in r.validated))
    && (forall t :: 0 <= t < |r.workers| ==> WorkerOk(cfg, r, r.workers[t]))
    && (forall k :: 0 <= k < |r.validated| ==> Proper(cfg, r.validated[k]))
  }

  lemma CandidateIsProper<C(!new)>(cfg: Config<C>, r: Shrink<C>, start: nat, chunk: nat)
    requires Safe(cfg, r) && start < |r.current| && chunk >= 1
    ensures var c := Candidate(r.current, start, chunk); (cfg.skipEmpty ==> c != []) ==> Proper(cfg, c)
  {
    WithoutIsSubsequence(r.current, start, Min(start + chunk, |r.current|));
    if r.current != cfg.seed {
      Transitive(Candidate(r.current, start, chunk), r.current, cfg.seed);
    }
  }

  lemma OtherWorkersStayOk<C(!new)>(cfg: Config<C>, r: Shrink<C>, r': Shrink<C>, t: nat)
    requires Safe(cfg, r) && t < |r.workers| && |r'.workers| == |r.workers| && r.validated <= r'.validated
    requires forall u :: 0 <= u < |r.workers| && u != t ==> r'.workers[u] == r.workers[u]
    requires WorkerOk(cfg, r', r'.workers[t])
    ensures forall u :: 0 <= u < |r'.workers| ==> WorkerOk(cfg, r', r'.workers[u])
  {
    forall u | 0 <= u < |r'.workers| ensures WorkerOk(cfg, r', r'.workers[u]) {
      if u != t {
        assert WorkerOk(cfg, r, r.workers[u]);
      }
    }
  }

  lemma StepIsSafe<C(!new)>(cfg: Config<C>, r: Shrink<C>, e: Event)
    requires Lawful(cfg) && Safe(cfg, r) && Enabled(cfg, r, e)
    ensures Safe(cfg, Step(cfg, r, e))
    ensures |Step(cfg, r, e).current| <= |r.current|
  {
    var r' := Step(cfg, r, e);
    assert WorkerOk(cfg, r, r.workers[e.t]);
    if e.Pick? && |r.current| > cfg.stopLen {
      CandidateIsProper(cfg, r, e.start, e.chunk);
    }
    if e.Validate? {
      assert r'.validated[|r.validated|] == r.workers[e.t].candidate;
    }
    OtherWorkersStayOk(cfg, r, r', e.t);
  }

  lemma {:induction false} RunIsSafe<C(!new)>(cfg: Config<C>, r: Shrink<C>, events: seq<Event>)
    requires Lawful(cfg) && Safe(cfg, r) && Execute(cfg, r, events).Some?
    ensures Safe(cfg, Execute(cfg, r, events).value)
    ensures |Execute(cfg, r, events).value.current| <= |r.current|
    decreases |events|
  {
    if |events| == 0 {
      assert events == [];
    } else {
      var n := |events| - 1;
      RunIsSafe(cfg, r, events[..n]);
      StepIsSafe(cfg, Execute(cfg, r, events[..n]).value, events[n]);
    }
  }

  /**
   In every interleaving the shared sequence is the seed, or a non-empty, strictly
   shorter subsequence of it that was itself validated and accepted.
   */
  lemma ShrinkIsSafe<C(!new)>(cfg: Config<C>, threads: nat, events: seq<Event>)
    requires Lawful(cfg) && Execute(cfg, Start(cfg, threads), events).Some?
    ensures var r := Execute(cfg, Start(cfg, threads), events).value;
            r.current == cfg.seed
            || (0 < |r.current| < |cfg.seed| && Subsequence(r.current, cfg.seed) && cfg.verdict(r.current).Accept?
                && r.current in r.validated)
  {
    RunIsSafe(cfg, Start(cfg, threads), events);
  }

  /** The shared length never grows as a run goes on. */
  lemma LengthNeverGrows<C(!new)>(cfg: Config<C>, threads: nat, events: seq<Event>, more: seq<Event>)
    requires Lawful(cfg) && Execute(cfg, Start(cfg, threads), events).Some?
    requires Execute(cfg, Execute(cfg, Start(cfg, threads), events).value, more).Some?
    ensures var r := Execute(cfg, Start(cfg, threads), events).value;
            |Execute(cfg, r, more).value.current| <= |r.current|
  {
    RunIsSafe(cfg, Start(cfg, threads), events);
    RunIsSafe(cfg, Execute(cfg, Start(cfg, threads), events).value, more);
  }

  // ---- Nothing shorter is forgotten ---------------------------------------------------

  ghost predicate Pending<C(!new)>(r: Shrink<C>, s: seq<C>) {
    exists t :: 0 <= t < |r.workers| && r.workers[t] == Updating(s)
  }

  ghost predicate Remembers<C(!new)>(cfg: Config<C>, r: Shrink<C>) {
    && |r.current| <= |cfg.seed|
    && forall k :: 0 <= k < |r.validated| && cfg.verdict(r.validated[k]).Accept?
         ==> |r.current| <= |r.validated[k]| || Pending(r, r.validated[k])
  }

  lemma StepRemembers<C(!new)>(cfg: Config<C>, r: Shrink<C>, e: Event)
    requires Remembers(cfg, r) && Enabled(cfg, r, e)
    ensures Remembers(cfg, Step(cfg, r, e))
  {
    var r' := Step(cfg, r, e);
    forall k | 0 <= k < |r'.validated| && cfg.verdict(r'.validated[k]).Accept?
      ensures |r'.current| <= |r'.validated[k]| || Pending(r', r'.validated[k])
    {
      var s := r'.validated[k];
      if k == |r.validated| {
        assert r'.workers[e.t] == Updating(s);
      } else if |r.current| > |s| {
        var t :| 0 <= t < |r.workers| && r.workers[t] == Updating(s);
        if t != e.t {
          assert r'.workers[t] == Updating(s);
        }
      }
    }
  }

  /** Once every worker is done, the result is no longer than any candidate that was ever accepted. */
  lemma {:induction false} ResultIsShortestAccepted<C(!new)>(cfg: Config<C>, threads: nat, events: seq<Event>)
    requires Execute(cfg, Start(cfg, threads), events).Some?
    ensures Remembers(cfg, Execute(cfg, Start(cfg, threads), events).value)
    ensures var r := Execute(cfg, Start(cfg, threads), events).value;
            (forall t :: 0 <= t < |r.workers| ==> r.workers[t].Done?) ==>
              forall s :: s in r.validated && cfg.verdict(s).Accept? ==> |r.current| <= |s|
    decreases |events|
  {
    if |events| > 0 {
      var n := |events| - 1;
      ResultIsShortestAccepted(cfg, threads, events[..n]);
      StepRemembers(cfg, Execute(cfg, Start(cfg, threads), events[..n]).value, events[n]);
    }
  }

  // ---- Budget and termination ---------------------------------------------------------

  /** Sum of a weight over the workers. */
  function Sum<C>(workers: seq<Worker<C>>, weight: Worker<C> -> nat): nat {
    if workers == [] then 0 else weight(workers[0]) + Sum(workers[1..], weight)
  }

  lemma {:induction false} SumUpdate<C>(workers: seq<Worker<C>>, weight: Worker<C> -> nat, t: nat, w: Worker<C>)
    requires t < |workers|
    ensures Sum(workers[t := w], weight) == Sum(workers, weight) - weight(workers[t]) + weight(w)
  {
    if t == 0 {
      assert workers[0 := w][1..] == workers[1..];
    } else {
      assert workers[t := w][1..] == workers[1..][t - 1 := w];
      SumUpdate(workers[1..], weight, t - 1, w);
    }
  }

  lemma {:induction false} SumAtMost<C>(workers: seq<Worker<C>>, weight: Worker<C> -> nat)
    requires forall t :: 0 <= t < |workers| ==> weight(workers[t]) <= 1
    ensures Sum(workers, weight) <= |workers|
  {
    if |workers| > 0 {
      SumAtMost(workers[1..], weight);
    }
  }

  /** A worker holding a ticket it has not spent. */
  function InFlight<C>(w: Worker<C>): nat {
    if w.Validating? then 1 else 0
  }

  function RefusedOnce<C>(w: Worker<C>): nat {
    if w == Done(Refused) then 1 else 0
  }

  /** A worker inside, or out of, an iteration that took no ticket from the budget. */
  function Unpaid<C>(w: Worker<C>): nat {
    match w
    case Open => 1
    case Picked(_) => 1
    case Done(exit) => if exit.Failed? then 0 else 1
    case _ => 0
  }

  /** The worker is past the ticket that used up the budget, and can only stop. */
  predicate Past<C>(w: Worker<C>) {
    w.Validating? || w.Updating? || w.Ready? || (w.Done? && !w.exit.Refused?)
  }

  ghost predicate Accounted<C(!new)>(cfg: Config<C>, r: Shrink<C>) {
    && |r.validated| + Sum(r.workers, InFlight) == Min(r.attempts, cfg.maxRuns)
    && r.attempts == Min(r.attempts, cfg.maxRuns) + Sum(r.workers, RefusedOnce)
    && (0 < cfg.maxRuns <= r.attempts ==> exists t :: 0 <= t < |r.workers| && Past(r.workers[t]))
    && (cfg.maxRuns == 0 ==> r.attempts == 0 && forall t :: 0 <= t < |r.workers| ==> r.workers[t].Ready? || r.workers[t].Done?)
    && (!cfg.skipEmpty ==> r.iterations == Min(r.attempts, cfg.maxRuns) + Sum(r.workers, Unpaid))
  }

  /** The counter cannot wrap: the budget leaves room for one ticket of every other worker. */
  predicate Fits<C>(cfg: Config<C>, threads: nat) {
    cfg.maxRuns == 0 || cfg.maxRuns + threads <= TWO_64
  }

  lemma {:induction false} SumBelow<C>(workers: seq<Worker<C>>, weight: Worker<C> -> nat, t: nat)
    requires t < |workers| && weight(workers[t]) == 0
    requires forall u :: 0 <= u < |workers| ==> weight(workers[u]) <= 1
    ensures Sum(workers, weight) <= |workers| - 1
  {
    if t == 0 {
      SumAtMost(workers[1..], weight);
    } else {
      SumBelow(workers[1..], weight, t - 1);
    }
  }

  lemma {:induction false} SumBelowTwo<C>(workers: seq<Worker<C>>, weight: Worker<C> -> nat, t: nat, u: nat)
    requires t < u < |workers| && weight(workers[t]) == 0 && weight(workers[u]) == 0
    requires forall v :: 0 <= v < |workers| ==> weight(workers[v]) <= 1
    ensures Sum(workers, weight) <= |workers| - 2
  {
    if t == 0 {
      SumBelow(workers[1..], weight, u - 1);
    } else {
      SumBelowTwo(workers[1..], weight, t - 1, u - 1);
    }
  }

  lemma SumMove<C>(cfg: Config<C>, r: Shrink<C>, e: Event, weight: Worker<C> -> nat)
    requires Enabled(cfg, r, e)
    ensures var r' := Step(cfg, r, e);
            |r'.workers| == |r.workers|
            && Sum(r'.workers, weight) == Sum(r.workers, weight) - weight(r.workers[e.t]) + weight(r'.workers[e.t])
  {
    SumUpdate(r.workers, weight, e.t, Step(cfg, r, e).workers[e.t]);
  }

  lemma TicketFits<C(!new)>(cfg: Config<C>, r: Shrink<C>, t: nat)
    requires Accounted(cfg, r) && Fits(cfg, |r.workers|) && t < |r.workers| && r.workers[t].Picked?
    ensures r.attempts + 1 < TWO_64 && NextTicket(r.attempts) == r.attempts + 1 && cfg.maxRuns > 0
  {
    assert cfg.maxRuns > 0;
    if r.attempts >= cfg.maxRuns {
      var u :| 0 <= u < |r.workers| && Past(r.workers[u]);
      assert u != t;
      SumBelowTwo(r.workers, RefusedOnce, if t < u then t else u, if t < u then u else t);
    }
  }

  lemma SomeonePast<C(!new)>(cfg: Config<C>, r: Shrink<C>, e: Event)
    requires Accounted(cfg, r) && Fits(cfg, |r.workers|) && Enabled(cfg, r, e)
    ensures var r' := Step(cfg, r, e);
            0 < cfg.maxRuns <= r'.attempts ==> exists t :: 0 <= t < |r'.workers| && Past(r'.workers[t])
  {
    var r' := Step(cfg, r, e);
    if e.Ticket? {
      TicketFits(cfg, r, e.t);
    }
    if 0 < cfg.maxRuns <= r'.attempts {
      if r.attempts < cfg.maxRuns {
        assert Past(r'.workers[e.t]);
      } else {
        var t :| 0 <= t < |r.workers| && Past(r.workers[t]);
        assert Past(r'.workers[t]);
      }
    }
  }

  lemma StepIsAccounted<C(!new)>(cfg: Config<C>, r: Shrink<C>, e: Event)
    requires Accounted(cfg, r) && Fits(cfg, |r.workers|) && Enabled(cfg, r, e)
    ensures Accounted(cfg, Step(cfg, r, e)) && |Step(cfg, r, e).workers| == |r.workers|
  {
    SumMove(cfg, r, e, InFlight);
    SumMove(cfg, r, e, RefusedOnce);
    SumMove(cfg, r, e, Unpaid);
    SomeonePast(cfg, r, e);
    if e.Ticket? {
      TicketFits(cfg, r, e.t);
    }
  }

  lemma {:induction false} AllReadySum<C>(workers: seq<Worker<C>>, weight: Worker<C> -> nat)
    requires forall t :: 0 <= t < |workers| ==> workers[t].Ready?
    requires weight(Ready) == 0
    ensures Sum(workers, weight) == 0
  {
    if |workers| > 0 {
      AllReadySum(workers[1..], weight);
    }
  }

  lemma {:induction false} RunIsAccounted<C(!new)>(cfg: Config<C>, threads: nat, events: seq<Event>)
    requires Fits(cfg, threads) && Execute(cfg, Start(cfg, threads), events).Some?
    ensures var r := Execute(cfg, Start(cfg, threads), events).value; Accounted(cfg, r) && |r.workers| == threads
    decreases |events|
  {
    if |events| == 0 {
      assert events == [];
      var workers := Start(cfg, threads).workers;
      AllReadySum(workers, InFlight);
      AllReadySum(workers, RefusedOnce);
      AllReadySum(workers, Unpaid);
    } else {
      var n := |events| - 1;
      RunIsAccounted(cfg, threads, events[..n]);
      StepIsAccounted(cfg, Execute(cfg, Start(cfg, threads), events[..n]).value, events[n]);
    }
  }

  /**
   At most `maxRuns` candidates are validated in any interleaving; without skipped
   candidates the workers begin at most `maxRuns` + threads iterations together.
   */
  lemma BudgetIsKept<C(!new)>(cfg: Config<C>, threads: nat, events: seq<Event>)
    requires Fits(cfg, threads) && Execute(cfg, Start(cfg, threads), events).Some?
    ensures var r := Execute(cfg, Start(cfg, threads), events).value;
            && |r.validated| <= cfg.maxRuns
            && (!cfg.skipEmpty ==> r.iterations <= cfg.maxRuns + threads)
            && ((forall t :: 0 <= t < |r.workers| ==> r.workers[t].Done?) ==> |r.validated| == Min(r.attempts, cfg.maxRuns))
  {
    RunIsAccounted(cfg, threads, events);
    var r := Execute(cfg, Start(cfg, threads), events).value;
    SumAtMost(r.workers, Unpaid);
    if forall t :: 0 <= t < |r.workers| ==> r.workers[t].Done? {
      NoneInFlight(r.workers);
    }
  }

  lemma {:induction false} NoneInFlight<C>(workers: seq<Worker<C>>)
    requires forall t :: 0 <= t < |workers| ==> workers[t].Done?
    ensures Sum(workers, InFlight) == 0
  {
    if |workers| > 0 {
      NoneInFlight(workers[1..]);
    }
  }

  /** Steps a worker may still take before it needs another ticket. */
  function Potential<C>(w: Worker<C>): nat {
    match w
    case Validating(_) => 5
    case Updating(_) => 4
    case Ready => 3
    case Open => 2
    case Picked(_) => 1
    case Done(_) => 0
  }

  function Measure<C>(cfg: Config<C>, r: Shrink<C>): nat {
    6 * (cfg.maxRuns - Min(r.attempts, cfg.maxRuns)) + Sum(r.workers, Potential)
  }

  /** The `continue` of a worker that drew an empty candidate. */
  predicate SkipsEmpty<C>(cfg: Config<C>, r: Shrink<C>, e: Event) {
    && Enabled(cfg, r, e) && e.Pick? && cfg.skipEmpty && |r.current| > cfg.stopLen && r.current != []
    && Candidate(r.current, e.start, e.chunk) == []
  }

  /** Every step uses up some of a finite measure, except exactly the skip of an empty candidate. */
  lemma ProgressIff<C(!new)>(cfg: Config<C>, r: Shrink<C>, e: Event)
    requires Accounted(cfg, r) && Fits(cfg, |r.workers|) && Enabled(cfg, r, e)
    ensures Measure(cfg, Step(cfg, r, e)) < Measure(cfg, r) <==> !SkipsEmpty(cfg, r, e)
  {
    SumMove(cfg, r, e, Potential);
    if e.Ticket? {
      TicketFits(cfg, r, e.t);
    }
  }

  lemma {:induction false} StartMeasure<C>(workers: seq<Worker<C>>)
    requires forall t :: 0 <= t < |workers| ==> workers[t].Ready?
    ensures Sum(workers, Potential) == 3 * |workers|
  {
    if |workers| > 0 {
      StartMeasure(workers[1..]);
    }
  }

  /** A shrinker that never skips takes at most six steps for a ticket and three for a worker: every schedule ends. */
  lemma {:induction false} EveryScheduleEnds<C(!new)>(cfg: Config<C>, threads: nat, events: seq<Event>)
    requires Fits(cfg, threads) && !cfg.skipEmpty && Execute(cfg, Start(cfg, threads), events).Some?
    ensures |events| + Measure(cfg, Execute(cfg, Start(cfg, threads), events).value) <= 6 * cfg.maxRuns + 3 * threads
    decreases |events|
  {
    if |events| == 0 {
      assert events == [];
      StartMeasure(Start(cfg, threads).workers);
    } else {
      var n := |events| - 1;
      EveryScheduleEnds(cfg, threads, events[..n]);
      RunIsAccounted(cfg, threads, events[..n]);
      ProgressIff(cfg, Execute(cfg, Start(cfg, threads), events[..n]).value, events[n]);
    }
  }

  /** A worker that is not done always has an enabled step: no schedule is stuck before all have stopped. */
  lemma NeverStuck<C>(cfg: Config<C>, r: Shrink<C>, t: nat)
    requires t < |r.workers|
    ensures (exists e: Event :: e.t == t && Enabled(cfg, r, e)) <==> !r.workers[t].Done?
  {
    if !r.workers[t].Done? {
      var e := match r.workers[t]
        case Ready => Check(t, false)
        case Open => Pick(t, 0, 1)
        case Picked(_) => Ticket(t)
        case Validating(_) => Validate(t)
        case Updating(_) => Update(t);
      assert e.t == t && Enabled(cfg, r, e);
    }
  }

  // ---- The max shrinker can spin ------------------------------------------------------

  /** `n` iterations that each draw the whole sequence as the chunk to delete. */
  function Spin(n: nat, len: nat): seq<Event> {
    if n == 0 then [] else Spin(n - 1, len) + [Check(0, false), Pick(0, 0, len)]
  }

  lemma ExecuteTwo<C>(cfg: Config<C>, r: Shrink<C>, events: seq<Event>, one: Event, two: Event)
    requires var at := Execute(cfg, r, events);
             at.Some? && Enabled(cfg, at.value, one) && Enabled(cfg, Step(cfg, at.value, one), two)
    ensures Execute(cfg, r, events + [one, two])
         == Some(Step(cfg, Step(cfg, Execute(cfg, r, events).value, one), two))
  {
    var all := events + [one, two];
    assert all[..|all| - 1] == events + [one];
    assert (events + [one])[..|events|] == events;
  }

  /** An iteration with an empty candidate takes no ticket, so any number of them may follow one another. */
  lemma {:induction false} MaxShrinkerMaySpin<C>(cfg: Config<C>, threads: nat, n: nat)
    requires CanSpin(cfg, threads)
    ensures Execute(cfg, Start(cfg, threads), Spin(n, |cfg.seed|)) == Some(Start(cfg, threads).(iterations := n))
    ensures |Spin(n, |cfg.seed|)| == 2 * n
  {
    if n > 0 {
      MaxShrinkerMaySpin(cfg, threads, n - 1);
      var r := Start(cfg, threads).(iterations := n - 1);
      var one, two := Check(0, false), Pick(0, 0, |cfg.seed|);
      assert Candidate(cfg.seed, 0, |cfg.seed|) == [];
      assert Step(cfg, Step(cfg, r, one), two).workers == Start(cfg, threads).workers;
      ExecuteTwo(cfg, Start(cfg, threads), Spin(n - 1, |cfg.seed|), one, two);
    }
  }

  /** A worker that skips empty candidates finds budget, and a sequence long enough to go on with. */
  predicate CanSpin<C>(cfg: Config<C>, threads: nat) {
    cfg.skipEmpty && threads > 0 && cfg.maxRuns > 0 && |cfg.seed| > cfg.stopLen && cfg.seed != []
  }

  /** Where no worker can spin, none ever skips. */
  ghost predicate NeverSkips<C(!new)>(cfg: Config<C>, r: Shrink<C>) {
    && (|r.current| <= |cfg.seed|)
    && (cfg.skipEmpty && cfg.maxRuns == 0 ==> forall t :: 0 <= t < |r.workers| ==> !r.workers[t].Open?)
  }

  lemma StepNeverSkips<C(!new)>(cfg: Config<C>, r: Shrink<C>, e: Event)
    requires Enabled(cfg, r, e) && NeverSkips(cfg, r) && !CanSpin(cfg, |r.workers|)
    ensures !SkipsEmpty(cfg, r, e) && NeverSkips(cfg, Step(cfg, r, e))
  {}

  lemma {:induction false} BoundedUnlessSpinning<C(!new)>(cfg: Config<C>, threads: nat, events: seq<Event>)
    requires Fits(cfg, threads) && !CanSpin(cfg, threads) && Execute(cfg, Start(cfg, threads), events).Some?
    ensures var r := Execute(cfg, Start(cfg, threads), events).value;
            NeverSkips(cfg, r) && |r.workers| == threads && |events| + Measure(cfg, r) <= 6 * cfg.maxRuns + 3 * threads
    decreases |events|
  {
    RunIsAccounted(cfg, threads, events);
    if |events| == 0 {
      assert events == [];
      StartMeasure(Start(cfg, threads).workers);
    } else {
      var n := |events| - 1;
      var r := Execute(cfg, Start(cfg, threads), events[..n]).value;
      BoundedUnlessSpinning(cfg, threads, events[..n]);
      RunIsAccounted(cfg, threads, events[..n]);
      StepNeverSkips(cfg, r, events[n]);
      ProgressIff(cfg, r, events[n]);
    }
  }

  ghost predicate BoundedBy<C(!new)>(cfg: Config<C>, threads: nat, bound: nat) {
    forall events :: Execute(cfg, Start(cfg, threads), events).Some? ==> |events| <= bound
  }

  /** The schedules of a shrinker have a common bound exactly when its workers cannot spin, which the tester's never can. */
  lemma EndsIffCannotSpin<C(!new)>(cfg: Config<C>, threads: nat)
    requires Fits(cfg, threads)
    ensures (exists bound: nat :: BoundedBy(cfg, threads, bound)) <==> !CanSpin(cfg, threads)
  {
    if CanSpin(cfg, threads) {
      forall bound: nat ensures !BoundedBy(cfg, threads, bound) {
        MaxShrinkerMaySpin(cfg, threads, bound + 1);
        assert |Spin(bound + 1, |cfg.seed|)| > bound;
      }
    } else {
      forall events | Execute(cfg, Start(cfg, threads), events).Some? ensures |events| <= 6 * cfg.maxRuns + 3 * threads {
        BoundedUnlessSpinning(cfg, threads, events);
      }
      assert BoundedBy(cfg, threads, 6 * cfg.maxRuns + 3 * threads);
    }
  }

  // ---- When the counter does not fit ----------------------------------------------------

  lemma ExecuteOne<C>(cfg: Config<C>, r: Shrink<C>, events: seq<Event>, e: Event)
    requires Execute(cfg, r, events).Some? && Enabled(cfg, Execute(cfg, r, events).value, e)
    ensures Execute(cfg, r, events + [e]) == Some(Step(cfg, Execute(cfg, r, events).value, e))
  {
    assert (events + [e])[..|events|] == events;
  }

  /** Every candidate that drops the first call is rejected, and there is one to try. */
  predicate Stubborn<C>(cfg: Config<C>) {
    |cfg.seed| > 1 && |cfg.seed| > cfg.stopLen && cfg.verdict(cfg.seed[1..]).Reject?
  }

  lemma DropsFirst<C>(cfg: Config<C>)
    requires Stubborn(cfg)
    ensures Candidate(cfg.seed, 0, 1) == cfg.seed[1..] && cfg.seed[1..] != []
  {}

  ghost predicate AfterRounds<C(!new)>(cfg: Config<C>, threads: nat, r: Shrink<C>, k: nat) {
    r.current == cfg.seed && r.attempts == k && r.workers == Start(cfg, threads).workers && |r.validated| == k
  }

  lemma OneRound<C(!new)>(cfg: Config<C>, threads: nat, r: Shrink<C>, events: seq<Event>, k: nat) returns (more: seq<Event>)
    requires Stubborn(cfg) && threads > 0 && k + 1 <= cfg.maxRuns < TWO_64
    requires Execute(cfg, r, events).Some? && AfterRounds(cfg, threads, Execute(cfg, r, events).value, k)
    ensures Execute(cfg, r, more).Some? && AfterRounds(cfg, threads, Execute(cfg, r, more).value, k + 1)
  {
    DropsFirst(cfg);
    ExecuteOne(cfg, r, events, Check(0, false));
    more := events + [Check(0, false)];
    ExecuteOne(cfg, r, more, Pick(0, 0, 1));
    more := more + [Pick(0, 0, 1)];
    ExecuteOne(cfg, r, more, Ticket(0));
    more := more + [Ticket(0)];
    ExecuteOne(cfg, r, more, Validate(0));
    more := more + [Validate(0)];
  }

  lemma {:induction false} ManyRounds<C(!new)>(cfg: Config<C>, threads: nat, k: nat) returns (events: seq<Event>)
    requires Stubborn(cfg) && threads > 0 && k <= cfg.maxRuns < TWO_64
    ensures var at := Execute(cfg, Start(cfg, threads), events); at.Some? && AfterRounds(cfg, threads, at.value, k)
  {
    if k == 0 {
      events := [];
    } else {
      events := ManyRounds(cfg, threads, k - 1);
      events := OneRound(cfg, threads, Start(cfg, threads), events, k - 1);
    }
  }

  /** The first `j` workers have picked a candidate; the last ticket of the budget is still to be taken. */
  ghost predicate AfterPicks<C(!new)>(cfg: Config<C>, threads: nat, r: Shrink<C>, j: nat)
    requires Stubborn(cfg)
  {
    && r.current == cfg.seed && r.attempts == cfg.maxRuns - 1 && |r.validated| == cfg.maxRuns - 1 && |r.workers| == threads
    && forall t :: 0 <= t < threads ==> r.workers[t] == if t < j then Picked(cfg.seed[1..]) else Ready
  }

  lemma {:induction false} ManyPicks<C(!new)>(cfg: Config<C>, threads: nat, j: nat) returns (events: seq<Event>)
    requires Stubborn(cfg) && j <= threads && threads > 0 && 0 < cfg.maxRuns < TWO_64
    ensures var at := Execute(cfg, Start(cfg, threads), events); at.Some? && AfterPicks(cfg, threads, at.value, j)
  {
    if j == 0 {
      events := ManyRounds(cfg, threads, cfg.maxRuns - 1);
    } else {
      events := ManyPicks(cfg, threads, j - 1);
      DropsFirst(cfg);
      ExecuteOne(cfg, Start(cfg, threads), events, Check(j - 1, false));
      events := events + [Check(j - 1, false)];
      ExecuteOne(cfg, Start(cfg, threads), events, Pick(j - 1, 0, 1));
      events := events + [Pick(j - 1, 0, 1)];
    }
  }

  /** Worker 0 holds the last ticket, and the counter has counted the refusals of workers `1..j`. */
  ghost predicate AfterTickets<C(!new)>(cfg: Config<C>, threads: nat, r: Shrink<C>, j: nat)
    requires Stubborn(cfg) && j > 0
  {
    && r.attempts == cfg.maxRuns - 1 + j && |r.validated| == cfg.maxRuns - 1 && |r.workers| == threads > 0
    && r.workers[0] == Validating(cfg.seed[1..])
    && forall t :: j <= t < threads ==> r.workers[t] == Picked(cfg.seed[1..])
  }

  lemma OneTicket<C(!new)>(cfg: Config<C>, threads: nat, r: Shrink<C>, j: nat)
    requires Stubborn(cfg) && 0 < j < threads && 0 < cfg.maxRuns && cfg.maxRuns + j < TWO_64
    requires AfterTickets(cfg, threads, r, j)
    ensures Enabled(cfg, r, Ticket(j)) && AfterTickets(cfg, threads, Step(cfg, r, Ticket(j)), j + 1)
  {}

  lemma {:induction false} ManyTickets<C(!new)>(cfg: Config<C>, threads: nat, j: nat) returns (events: seq<Event>)
    requires Stubborn(cfg) && 0 < j <= threads && 0 < cfg.maxRuns && cfg.maxRuns + j <= TWO_64
    ensures var at := Execute(cfg, Start(cfg, threads), events); at.Some? && AfterTickets(cfg, threads, at.value, j)
  {
    if j == 1 {
      events := ManyPicks(cfg, threads, threads);
      ExecuteOne(cfg, Start(cfg, threads), events, Ticket(0));
      events := events + [Ticket(0)];
    } else {
      events := ManyTickets(cfg, threads, j - 1);
      OneTicket(cfg, threads, Execute(cfg, Start(cfg, threads), events).value, j - 1);
      ExecuteOne(cfg, Start(cfg, threads), events, Ticket(j - 1));
      events := events + [Ticket(j - 1)];
    }
  }

  /** With a budget so large that the counter wraps, one candidate too many is validated. */
  lemma WrapBreaksBudget<C(!new)>(cfg: Config<C>, threads: nat)
    requires Stubborn(cfg) && cfg.maxRuns < TWO_64 && !Fits(cfg, threads)
    ensures exists events ::
              Execute(cfg, Start(cfg, threads), events).Some?
              && |Execute(cfg, Start(cfg, threads), events).value.validated| > cfg.maxRuns
  {
    var start, last := Start(cfg, threads), TWO_64 - cfg.maxRuns;
    var events := ManyTickets(cfg, threads, last);
    ExecuteOne(cfg, start, events, Ticket(last));
    events := events + [Ticket(last)];
    ExecuteOne(cfg, start, events, Validate(0));
    events := events + [Validate(0)];
    ExecuteOne(cfg, start, events, Validate(last));
    events := events + [Validate(last)];
  }

  /** No run of any shrinker with this budget and these threads validates more candidates than the budget. */
  ghost predicate BudgetHolds<C(!new)>(cfg: Config<C>, threads: nat) {
    forall events :: Execute(cfg, Start(cfg, threads), events).Some?
                     ==> |Execute(cfg, Start(cfg, threads), events).value.validated| <= cfg.maxRuns
  }

  /** A budget holds for every shrinker exactly when the counter leaves room for one ticket of every other worker. */
  lemma BudgetHoldsIff<C(!new)>(call: C, maxRuns: nat, threads: nat)
    requires maxRuns < TWO_64
    ensures (forall cfg: Config<C> :: cfg.maxRuns == maxRuns ==> BudgetHolds(cfg, threads))
       <==> maxRuns == 0 || maxRuns + threads <= TWO_64
  {
    if maxRuns == 0 || maxRuns + threads <= TWO_64 {
      forall cfg: Config<C>, events | cfg.maxRuns == maxRuns && Execute(cfg, Start(cfg, threads), events).Some?
        ensures |Execute(cfg, Start(cfg, threads), events).value.validated| <= cfg.maxRuns
      {
        BudgetIsKept(cfg, threads, events);
      }
    } else {
      var cfg: Config<C> := Config([call, call], maxRuns, 0, false, _ => Reject);
      WrapBreaksBudget(cfg, threads);
      assert !BudgetHolds(cfg, threads);
    }
  }
}
