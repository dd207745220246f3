/**
 The max search: workers extend memoized snapshots one call at a time, offer
 their last result to a shared best tracker and keep interesting prefixes in a
 shared corpus.
 */
module MaxSearch {
  import opened Basics
  import opened BestTracker
  import opened Corpus
  import opened DeltaRecords

  /** Reading the harness value: an error, a reverted call, or a value. Reading leaves the chain as it is. */
  datatype Reading = Broken | Reverted | Reads(value: U256)

  /** One deterministic call on a chain; `None` is an execution error. A batch is the fold of its calls. */
  datatype Setup<!C, !S> = Setup(
    initial: S,
    initialValue: U256,
    exec: (S, C) -> Option<S>,
    read: S -> Reading,
    maxCalls: nat,
    target: Option<U256>)

  function Replay<C, S>(x: Setup<C, S>, calls: seq<C>): Option<S> {
    if calls == [] then Some(x.initial)
    else
      match Replay(x, calls[..|calls| - 1])
      case None => None
      case Some(s) => x.exec(s, calls[|calls| - 1])
  }

  datatype Prefix<C, S> = Prefix(sequence: seq<C>, reading: Reading, chain: S, newEdges: nat, deltaActivity: nat, interesting: bool)

  /**
   A worker between the atomic steps of a run. `Signalling` lies between updating the
   tracker under its lock and storing the stop flag; a failed worker keeps what it held.
   */
  datatype Phase<C, S> =
    | Idle
    | Executing(executed: seq<C>, chain: S, previous: U256, pending: seq<C>, prefixes: seq<Prefix<C, S>>)
    | Signalling(prefixes: seq<Prefix<C, S>>, improved: bool, reached: bool)
    | Keeping(left: seq<Prefix<C, S>>, improved: bool)
    | Failed(lost: seq<Prefix<C, S>>)

  /** A prefix as it was measured, and whether coverage or delta records found it new. */
  datatype Trial<C, S> = Trial(prefix: Prefix<C, S>, novel: bool)

  /** `bestKnown` is the worker's own high-water mark; `measured` and `trials` log every value it has read and every prefix. */
  datatype Worker<C, S> = Worker(bestKnown: U256, phase: Phase<C, S>, measured: seq<U256>, trials: seq<Trial<C, S>>)

  datatype Search<C, S> = Search(
    best: Offer<C, S>,
    corpus: seq<Entry<C, S>>,
    stop: bool,
    workers: seq<Worker<C, S>>,
    considered: seq<Offer<C, S>>,
    offered: seq<Entry<C, S>>)

  /** Where a run takes its snapshot from. */
  datatype Base = FromBest | FromCorpus(draw: nat)

  datatype Event<C> =
    | StartFresh(t: nat, calls: seq<C>)
    | Extend(t: nat, base: Base, call: C, pos: nat)
    | Execute(t: nat, newEdges: nat, novel: bool)
    | Consider(t: nat)
    | StoreStop(t: nat)
    | Keep(t: nat)

  datatype Snapshot<C, S> = Snapshot(sequence: seq<C>, value: U256, chain: S)

  function Origin<C, S>(x: Setup<C, S>): Snapshot<C, S> {
    Snapshot([], x.initialValue, x.initial)
  }

  /** `best_base`: nothing while no sequence has improved the initial value. */
  function BestBase<C, S>(best: Offer<C, S>): Option<Snapshot<C, S>> {
    if best.chain.None? || best.sequence == [] then None
    else Some(Snapshot(best.sequence, best.value, best.chain.value))
  }

  function CorpusBase<C, S>(corpus: seq<Entry<C, S>>, draw: nat): Option<Snapshot<C, S>> {
    var k := Drawn(corpus, draw);
    if TotalWeight(corpus) % TWO_64 == 0 || k.None? || k.value >= |corpus| || corpus[k.value].chain.None? then None
    else Some(Snapshot(corpus[k.value].sequence, corpus[k.value].value, corpus[k.value].chain.value))
  }

  function BaseOf<C, S>(x: Setup<C, S>, r: Search<C, S>, base: Base): Snapshot<C, S> {
    (match base
     case FromBest => BestBase(r.best)
     case FromCorpus(draw) => CorpusBase(r.corpus, draw)).Or(Origin(x))
  }

  /** At the call limit one position is replaced and the whole sequence replayed; below it the call extends the snapshot. */
  function Extension<C, S>(x: Setup<C, S>, base: Snapshot<C, S>, call: C, pos: nat): Phase<C, S>
    requires pos < |base.sequence| || |base.sequence| < x.maxCalls
  {
    if |base.sequence| >= x.maxCalls then Executing([], x.initial, x.initialValue, base.sequence[pos := call], [])
    else Executing(base.sequence, base.chain, base.value, [call], [])
  }

  function Value(reading: Reading): U256 {
    if reading.Reads? then reading.value else 0
  }

  /** One call of a run, and the value measured after it. */
  function Ran<C, S>(x: Setup<C, S>, w: Worker<C, S>, newEdges: nat, novel: bool): Worker<C, S>
    requires w.phase.Executing? && w.phase.pending != []
  {
    var p := w.phase;
    match x.exec(p.chain, p.pending[0])
    case None => w.(phase := Failed(p.prefixes))
    case Some(chain) =>
      var reading := x.read(chain);
      if reading.Broken? then w.(phase := Failed(p.prefixes))
      else
        var executed := p.executed + [p.pending[0]];
        var value := Value(reading);
        var beats := value > w.bestKnown;
        var prefix := Prefix(executed, reading, chain, newEdges, Between(p.previous, value).Activity(), novel || beats);
        Worker(if beats then value else w.bestKnown,
               Executing(executed, chain, value, p.pending[1..], p.prefixes + [prefix]),
               if reading.Reads? then w.measured + [value] else w.measured,
               w.trials + [Trial(prefix, novel)])
  }

  function OfferOf<C, S>(p: Prefix<C, S>): Offer<C, S> {
    Offer(p.sequence, Value(p.reading), Some(p.chain))
  }

  function EntryOf<C, S>(p: Prefix<C, S>): Entry<C, S> {
    Entry(p.sequence, Value(p.reading), p.newEdges, p.deltaActivity, Some(p.chain))
  }

  predicate Enabled<C, S>(x: Setup<C, S>, r: Search<C, S>, e: Event<C>) {
    e.t < |r.workers| &&
    match e
    case StartFresh(t, calls) => r.workers[t].phase.Idle? && 1 <= |calls| <= Max(x.maxCalls, 1)
    case Extend(t, base, call, pos) =>
      var s := BaseOf(x, r, base);
      r.workers[t].phase.Idle? && (pos < |s.sequence| || |s.sequence| < x.maxCalls)
    case Execute(t, _, _) => r.workers[t].phase.Executing? && r.workers[t].phase.pending != []
    case Consider(t) => r.workers[t].phase.Executing? && r.workers[t].phase.pending == [] && r.workers[t].phase.prefixes != []
    case StoreStop(t) => r.workers[t].phase.Signalling?
    case Keep(t) => r.workers[t].phase.Keeping?
  }

  function Moved<C, S>(r: Search<C, S>, t: nat, phase: Phase<C, S>): Search<C, S>
    requires t < |r.workers|
  {
    r.(workers := r.workers[t := r.workers[t].(phase := phase)])
  }

  function Step<C, S>(x: Setup<C, S>, r: Search<C, S>, e: Event<C>): Search<C, S>
    requires Enabled(x, r, e)
  {
    match e
    case StartFresh(t, calls) => Moved(r, t, Executing([], x.initial, x.initialValue, calls, []))
    case Extend(t, base, call, pos) => Moved(r, t, Extension(x, BaseOf(x, r, base), call, pos))
    case Execute(t, newEdges, novel) => r.(workers := r.workers[t := Ran(x, r.workers[t], newEdges, novel)])
    case Consider(t) =>
      var prefixes := r.workers[t].phase.prefixes;
      var last := prefixes[|prefixes| - 1];
      if last.reading.Reads? then
        var offer := OfferOf(last);
        var improved := Better(r.best, offer);
        var reached := x.target.Some? && offer.value >= x.target.value;
        Moved(r, t, Signalling(prefixes, improved, reached))
          .(best := Considered(r.best, offer), considered := r.considered + [offer])
      else Moved(r, t, Keeping(prefixes, false))
    case StoreStop(t) =>
      var p := r.workers[t].phase;
      Moved(r, t, Keeping(p.prefixes, p.improved)).(stop := r.stop || (p.improved && p.reached))
    case Keep(t) =>
      var p := r.workers[t].phase;
      if p.left == [] then Moved(r, t, Idle)
      else
        var first := p.left[0];
        var keep := first.reading.Reads? && (p.improved || first.interesting);
        Moved(r, t, Keeping(p.left[1..], p.improved))
          .(corpus := if keep then Added(r.corpus, EntryOf(first)) else r.corpus,
            offered := if keep then r.offered + [EntryOf(first)] else r.offered)
  }

  function Run<C, S>(x: Setup<C, S>, r: Search<C, S>, events: seq<Event<C>>): Option<Search<C, S>>
    decreases |events|
  {
    if events == [] then Some(r)
    else
      match Run(x, r, events[..|events| - 1])
      case None => None
      case Some(before) => if Enabled(x, before, events[|events| - 1]) then Some(Step(x, before, events[|events| - 1])) else None
  }

  // ---- The memo agrees with replay --------------------------------------------------------

  /** The chain is what replaying the calls from the initial state gives, and reads this value there. */
  ghost predicate Memo<C(!new), S(!new)>(x: Setup<C, S>, calls: seq<C>, value: nat, chain: S) {
    && |calls| <= x.maxCalls && Replay(x, calls) == Some(chain)
    && x.read(chain).Reads? && x.read(chain).value == value
  }

  ghost predicate EntryOk<C(!new), S(!new)>(x: Setup<C, S>, e: Entry<C, S>) {
    |e.sequence| <= x.maxCalls && (e.chain.Some? ==> Memo(x, e.sequence, e.value, e.chain.value))
  }

  ghost predicate BestOk<C(!new), S(!new)>(x: Setup<C, S>, o: Offer<C, S>) {
    |o.sequence| <= x.maxCalls && (o.chain.Some? ==> Memo(x, o.sequence, o.value, o.chain.value))
  }

  ghost predicate PrefixOk<C(!new), S(!new)>(x: Setup<C, S>, p: Prefix<C, S>) {
    |p.sequence| <= x.maxCalls && Replay(x, p.sequence) == Some(p.chain) && p.reading == x.read(p.chain)
  }

  ghost predicate PhaseOk<C(!new), S(!new)>(x: Setup<C, S>, p: Phase<C, S>) {
    match p
    case Executing(executed, chain, _, pending, prefixes) =>
      && |executed| + |pending| <= x.maxCalls && Replay(x, executed) == Some(chain)
      && forall k :: 0 <= k < |prefixes| ==> PrefixOk(x, prefixes[k])
    case Signalling(prefixes, _, _) => forall k :: 0 <= k < |prefixes| ==> PrefixOk(x, prefixes[k])
    case Keeping(left, _) => forall k :: 0 <= k < |left| ==> PrefixOk(x, left[k])
    case _ => true
  }

  ghost predicate Inv<C(!new), S(!new)>(x: Setup<C, S>, r: Search<C, S>) {
    && BestOk(x, r.best)
    && (forall k :: 0 <= k < |r.corpus| ==> EntryOk(x, r.corpus[k]))
    && (forall t :: 0 <= t < |r.workers| ==> PhaseOk(x, r.workers[t].phase))
  }

  lemma BaseIsMemo<C(!new), S(!new)>(x: Setup<C, S>, r: Search<C, S>, base: Base)
    requires Inv(x, r)
    ensures var s := BaseOf(x, r, base); |s.sequence| <= x.maxCalls && Replay(x, s.sequence) == Some(s.chain)
  {}

  lemma RanIsOk<C(!new), S(!new)>(x: Setup<C, S>, w: Worker<C, S>, newEdges: nat, novel: bool)
    requires w.phase.Executing? && w.phase.pending != [] && PhaseOk(x, w.phase)
    ensures PhaseOk(x, Ran(x, w, newEdges, novel).phase)
  {
    var executed := w.phase.executed + [w.phase.pending[0]];
    assert executed[..|executed| - 1] == w.phase.executed;
  }

  lemma AddedEntries<C(!new), S(!new)>(x: Setup<C, S>, corpus: seq<Entry<C, S>>, e: Entry<C, S>)
    requires (forall k :: 0 <= k < |corpus| ==> EntryOk(x, corpus[k])) && EntryOk(x, e)
    ensures forall k :: 0 <= k < |Added(corpus, e)| ==> EntryOk(x, Added(corpus, e)[k])
  {
    WeakestIsLeast(corpus, MaxValue(corpus));
  }

  lemma OneWorkerMoved<C(!new), S(!new)>(x: Setup<C, S>, r: Search<C, S>, r': Search<C, S>, t: nat)
    requires Inv(x, r) && t < |r.workers| && |r'.workers| == |r.workers|
    requires forall u :: 0 <= u < |r.workers| && u != t ==> r'.workers[u] == r.workers[u]
    requires PhaseOk(x, r'.workers[t].phase) && BestOk(x, r'.best)
    requires forall k :: 0 <= k < |r'.corpus| ==> EntryOk(x, r'.corpus[k])
    ensures Inv(x, r')
  {
    forall u | 0 <= u < |r'.workers| ensures PhaseOk(x, r'.workers[u].phase) {
      if u != t {
        assert PhaseOk(x, r.workers[u].phase);
      }
    }
  }

  lemma StepKeepsMemo<C(!new), S(!new)>(x: Setup<C, S>, r: Search<C, S>, e: Event<C>)
    requires x.maxCalls >= 1 && Inv(x, r) && Enabled(x, r, e)
    ensures Inv(x, Step(x, r, e))
  {
    var r' := Step(x, r, e);
    assert PhaseOk(x, r.workers[e.t].phase);
    match e {
      case StartFresh(_, _) =>
      case Extend(_, base, _, _) => BaseIsMemo(x, r, base);
      case Execute(t, newEdges, novel) => RanIsOk(x, r.workers[t], newEdges, novel);
      case Consider(t) =>
        var prefixes := r.workers[t].phase.prefixes;
        assert PrefixOk(x, prefixes[|prefixes| - 1]);
      case StoreStop(_) =>
      case Keep(t) =>
        var left := r.workers[t].phase.left;
        if left != [] && left[0].reading.Reads? {
          assert PrefixOk(x, left[0]);
          AddedEntries(x, r.corpus, EntryOf(left[0]));
        }
    }
    OneWorkerMoved(x, r, r', e.t);
  }

  /** The fuzzer's start: a best seed, the loaded corpus, and idle workers. */
  ghost predicate Starts<C(!new), S(!new)>(x: Setup<C, S>, r: Search<C, S>) {
    && r.considered == [] && r.offered == [] && !r.stop
    && (x.target.Some? ==> r.best.value < x.target.value)
    && (forall t :: 0 <= t < |r.workers| ==> r.workers[t] == Worker(x.initialValue, Idle, [], []))
    && BestOk(x, r.best) && forall k :: 0 <= k < |r.corpus| ==> EntryOk(x, r.corpus[k])
  }

  predicate Reached<C, S>(x: Setup<C, S>, r: Search<C, S>) {
    x.target.Some? && r.best.value >= x.target.value
  }

  /** The worker has reached the target in the tracker and is about to store the stop flag. */
  predicate Raising<C, S>(w: Worker<C, S>) {
    w.phase.Signalling? && w.phase.improved && w.phase.reached
  }

  predicate SomeRaising<C, S>(r: Search<C, S>) {
    exists t :: 0 <= t < |r.workers| && Raising(r.workers[t])
  }

  /** The tracker is the winner of everything considered; it is at the target when the flag says so or is about to. */
  ghost predicate Tracks<C(!new), S(!new)>(x: Setup<C, S>, seed: Offer<C, S>, r: Search<C, S>) {
    r.best == BestAfter(seed, r.considered) && (Reached(x, r) <==> r.stop || SomeRaising(r))
  }

  lemma RaisingElsewhere<C(!new), S(!new)>(r: Search<C, S>, r': Search<C, S>, t: nat)
    requires t < |r.workers| && |r'.workers| == |r.workers|
    requires forall u :: 0 <= u < |r.workers| && u != t ==> r'.workers[u] == r.workers[u]
    requires Raising(r.workers[t]) == Raising(r'.workers[t])
    ensures SomeRaising(r') == SomeRaising(r)
  {
    if SomeRaising(r) {
      var u :| 0 <= u < |r.workers| && Raising(r.workers[u]);
      assert Raising(r'.workers[u]);
    }
    if SomeRaising(r') {
      var u :| 0 <= u < |r'.workers| && Raising(r'.workers[u]);
      assert Raising(r.workers[u]);
    }
  }

  lemma TrackerStep<C(!new), S(!new)>(x: Setup<C, S>, seed: Offer<C, S>, r: Search<C, S>, e: Event<C>)
    requires r.best == BestAfter(seed, r.considered) && Enabled(x, r, e)
    ensures Step(x, r, e).best == BestAfter(seed, Step(x, r, e).considered)
  {
    var r' := Step(x, r, e);
    if r'.considered != r.considered {
      assert r'.considered[..|r'.considered| - 1] == r.considered;
    }
  }

  lemma TargetStep<C(!new), S(!new)>(x: Setup<C, S>, r: Search<C, S>, e: Event<C>)
    requires Enabled(x, r, e) && !Raising(r.workers[e.t])
    ensures var r' := Step(x, r, e);
            && (Raising(r'.workers[e.t]) ==> Reached(x, r'))
            && (!Raising(r'.workers[e.t]) ==> (Reached(x, r') <==> Reached(x, r)) && (r'.stop <==> r.stop))
            && (r.stop && Reached(x, r) ==> r'.stop && Reached(x, r'))
  {}

  lemma StepTracks<C(!new), S(!new)>(x: Setup<C, S>, seed: Offer<C, S>, r: Search<C, S>, e: Event<C>)
    requires Tracks(x, seed, r) && Enabled(x, r, e)
    ensures Tracks(x, seed, Step(x, r, e))
  {
    var r' := Step(x, r, e);
    TrackerStep(x, seed, r, e);
    if Raising(r.workers[e.t]) {
      assert SomeRaising(r) && r'.stop && r'.best == r.best;
    } else {
      TargetStep(x, r, e);
      if Raising(r'.workers[e.t]) {
        assert SomeRaising(r');
      } else {
        RaisingElsewhere(r, r', e.t);
      }
    }
  }

  lemma {:induction false} RunInvariant<C(!new), S(!new)>(x: Setup<C, S>, r: Search<C, S>, events: seq<Event<C>>)
    requires x.maxCalls >= 1 && Starts(x, r) && Run(x, r, events).Some?
    ensures Inv(x, Run(x, r, events).value) && Tracks(x, r.best, Run(x, r, events).value)
    decreases |events|
  {
    if |events| == 0 {
      assert events == [];
    } else {
      var n := |events| - 1;
      RunInvariant(x, r, events[..n]);
      StepKeepsMemo(x, Run(x, r, events[..n]).value, events[n]);
      StepTracks(x, r.best, Run(x, r, events[..n]).value, events[n]);
    }
  }

  /**
   In every interleaving each replayed corpus entry and the best tracker hold the
   state and value that replaying their sequence gives, within the call limit.
   */
  lemma SearchKeepsMemo<C(!new), S(!new)>(x: Setup<C, S>, r: Search<C, S>, events: seq<Event<C>>)
    requires x.maxCalls >= 1 && Starts(x, r) && Run(x, r, events).Some?
    ensures var q := Run(x, r, events).value;
            && (forall k :: 0 <= k < |q.corpus| && q.corpus[k].chain.Some? ==>
                  Memo(x, q.corpus[k].sequence, q.corpus[k].value, q.corpus[k].chain.value))
            && (q.best.chain.Some? ==> Memo(x, q.best.sequence, q.best.value, q.best.chain.value))
            && |q.best.sequence| <= x.maxCalls
  {
    RunInvariant(x, r, events);
    var q := Run(x, r, events).value;
    forall k | 0 <= k < |q.corpus| && q.corpus[k].chain.Some?
      ensures Memo(x, q.corpus[k].sequence, q.corpus[k].value, q.corpus[k].chain.value)
    {
      assert EntryOk(x, q.corpus[k]);
    }
  }

  /**
   The best value is the maximum of the seed's and of every considered value, held by the
   earliest of the shortest such sequences. The stop flag is set only at the target; flag and
   target agree exactly when the flag is set or no worker is between tracker and flag.
   */
  lemma BestIsMaximum<C(!new), S(!new)>(x: Setup<C, S>, r: Search<C, S>, events: seq<Event<C>>)
    requires x.maxCalls >= 1 && Starts(x, r) && Run(x, r, events).Some?
    ensures var q := Run(x, r, events).value;
            && (exists b: nat :: Wins([r.best] + q.considered, b) && q.best == ([r.best] + q.considered)[b])
            && (q.stop ==> Reached(x, q))
            && ((q.stop <==> Reached(x, q)) <==> q.stop || !SomeRaising(q))
  {
    RunInvariant(x, r, events);
    var b := BestIsTheWinner(r.best, Run(x, r, events).value.considered);
  }

  // ---- No win is lost --------------------------------------------------------------------------

  predicate Carries<C, S>(p: Prefix<C, S>, value: nat) {
    p.reading.Reads? && p.reading.value >= value
  }

  /** The prefixes a worker has measured in its run and not yet offered to the corpus. */
  function Held<C, S>(p: Phase<C, S>): seq<Prefix<C, S>> {
    match p
    case Idle => []
    case Executing(_, _, _, _, prefixes) => prefixes
    case Signalling(prefixes, _, _) => prefixes
    case Keeping(left, _) => left
    case Failed(lost) => lost
  }

  /** A worker of a winning run that still has a prefix of this value to keep. */
  predicate WillKeep<C, S>(w: Worker<C, S>, value: nat) {
    && ((w.phase.Keeping? && w.phase.improved) || (w.phase.Signalling? && w.phase.improved))
    && exists k :: 0 <= k < |Held(w.phase)| && Carries(Held(w.phase)[k], value)
  }

  /** The best is still the seed, or the corpus holds its value, or is about to. */
  ghost predicate Secured<C(!new), S(!new)>(seed: Offer<C, S>, r: Search<C, S>) {
    || r.best == seed
    || r.best.value <= MaxValue(r.corpus)
    || exists t :: 0 <= t < |r.workers| && WillKeep(r.workers[t], r.best.value)
  }

  lemma KeepSecures<C(!new), S(!new)>(x: Setup<C, S>, r: Search<C, S>, t: nat, value: nat)
    requires Enabled(x, r, Keep(t)) && WillKeep(r.workers[t], value)
    ensures var r' := Step(x, r, Keep(t)); value <= MaxValue(r'.corpus) || WillKeep(r'.workers[t], value)
  {
    var p := r.workers[t].phase;
    var k :| 0 <= k < |p.left| && Carries(p.left[k], value);
    if k == 0 {
      AddKeepsBestValue(r.corpus, EntryOf(p.left[0]));
    } else {
      assert Held(Step(x, r, Keep(t)).workers[t].phase)[k - 1] == p.left[k];
    }
  }

  lemma SignalKeeps<C(!new), S(!new)>(x: Setup<C, S>, r: Search<C, S>, t: nat, value: nat)
    requires Enabled(x, r, StoreStop(t)) && WillKeep(r.workers[t], value)
    ensures WillKeep(Step(x, r, StoreStop(t)).workers[t], value)
  {
    var k :| 0 <= k < |Held(r.workers[t].phase)| && Carries(Held(r.workers[t].phase)[k], value);
    assert Carries(Held(Step(x, r, StoreStop(t)).workers[t].phase)[k], value);
  }

  lemma ConsiderSecures<C(!new), S(!new)>(x: Setup<C, S>, r: Search<C, S>, t: nat)
    requires Enabled(x, r, Consider(t))
    ensures var r' := Step(x, r, Consider(t)); r'.best == r.best || WillKeep(r'.workers[t], r'.best.value)
  {
    var prefixes := r.workers[t].phase.prefixes;
    var r' := Step(x, r, Consider(t));
    if r'.best != r.best {
      assert Carries(Held(r'.workers[t].phase)[|prefixes| - 1], r'.best.value);
    }
  }

  lemma CorpusNeverFalls<C(!new), S(!new)>(x: Setup<C, S>, r: Search<C, S>, e: Event<C>)
    requires Enabled(x, r, e)
    ensures MaxValue(r.corpus) <= MaxValue(Step(x, r, e).corpus)
  {
    if e.Keep? && r.workers[e.t].phase.left != [] {
      AddKeepsBestValue(r.corpus, EntryOf(r.workers[e.t].phase.left[0]));
    }
  }

  lemma StepSecures<C(!new), S(!new)>(x: Setup<C, S>, seed: Offer<C, S>, r: Search<C, S>, e: Event<C>)
    requires Secured(seed, r) && Enabled(x, r, e)
    ensures Secured(seed, Step(x, r, e))
  {
    var r' := Step(x, r, e);
    CorpusNeverFalls(x, r, e);
    if e.Consider? {
      ConsiderSecures(x, r, e.t);
    }
    if r'.best == r.best && r.best != seed && r.best.value > MaxValue(r.corpus) {
      var t :| 0 <= t < |r.workers| && WillKeep(r.workers[t], r.best.value);
      if t == e.t && e.Keep? {
        KeepSecures(x, r, t, r.best.value);
      } else if t == e.t {
        SignalKeeps(x, r, t, r.best.value);
      } else {
        assert WillKeep(r'.workers[t], r'.best.value);
      }
    }
  }

  /**
   Between a new best and its retention nothing can evict it for good: once no worker is
   signalling or keeping, the best is the seed or the corpus holds a value at least as high.
   */
  lemma {:induction false} WinsReachTheCorpus<C(!new), S(!new)>(x: Setup<C, S>, r: Search<C, S>, events: seq<Event<C>>)
    requires Run(x, r, events).Some?
    ensures Secured(r.best, Run(x, r, events).value)
    ensures var q := Run(x, r, events).value;
            (forall t :: 0 <= t < |q.workers| ==> !q.workers[t].phase.Keeping? && !q.workers[t].phase.Signalling?) ==> q.best == r.best || q.best.value <= MaxValue(q.corpus)
    decreases |events|
  {
    if |events| == 0 {
      assert events == [];
    } else {
      var n := |events| - 1;
      WinsReachTheCorpus(x, r, events[..n]);
      StepSecures(x, r.best, Run(x, r, events[..n]).value, events[n]);
    }
  }

  // ---- The worker's loop over its pending calls -----------------------------------------------

  /** What coverage and delta records say about one executed call. */
  datatype Signal = Signal(newEdges: nat, novel: bool)

  /** The machine's steps for a worker that executes one call per signal. */
  function RanAll<C, S>(x: Setup<C, S>, w: Worker<C, S>, signals: seq<Signal>): Worker<C, S>
    decreases |signals|
  {
    if signals == [] || !w.phase.Executing? || w.phase.pending == [] then w
    else RanAll(x, Ran(x, w, signals[0].newEdges, signals[0].novel), signals[1..])
  }

  /** One pass of the loop: execute the next call, measure the value, raise the mark, remember the prefix. */
  method ExecuteCall<C, S>(x: Setup<C, S>, w: Worker<C, S>, signal: Signal) returns (after: Worker<C, S>)
    requires w.phase.Executing? && w.phase.pending != []
    ensures after == Ran(x, w, signal.newEdges, signal.novel)
  {
    var p := w.phase;
    var chain := x.exec(p.chain, p.pending[0]);
    if chain.None? || x.read(chain.value).Broken? {
      return w.(phase := Failed(p.prefixes));
    }
    var executed := p.executed + [p.pending[0]];
    var reading := x.read(chain.value);
    var value := Value(reading);
    var best, measured := w.bestKnown, w.measured;
    if value > w.bestKnown {
      best := value;
    }
    if reading.Reads? {
      measured := measured + [value];
    }
    var prefix := Prefix(executed, reading, chain.value, signal.newEdges, Between(p.previous, value).Activity(),
                         signal.novel || value > w.bestKnown);
    after := Worker(best, Executing(executed, chain.value, value, p.pending[1..], p.prefixes + [prefix]), measured,
                    w.trials + [Trial(prefix, signal.novel)]);
  }

  /** The value a reading counts as: a reverted call counts as zero. */
  function Counted(p: Prefix): nat {
    if p.reading.Reads? then p.reading.value else 0
  }

  /**
   Prefix `k` of a run: its calls, the state they lead to from the base and what is read there, the new edges
   its signal reports, the weight of its step in value, and interesting exactly when its signal is novel or its
   value exceeds the worker's mark and every value before it.
   */
  ghost predicate Lawful<C(!new), S(!new)>(x: Setup<C, S>, base: Snapshot<C, S>, pending: seq<C>, mark: nat, signals: seq<Signal>,
                                           prefixes: seq<Prefix<C, S>>, k: nat)
    requires k < |prefixes| <= |pending| == |signals|
  {
    var p := prefixes[k];
    && p.sequence == base.sequence + pending[..k + 1]
    && x.exec(if k == 0 then base.chain else prefixes[k - 1].chain, pending[k]) == Some(p.chain)
    && p.reading == x.read(p.chain) && !p.reading.Broken?
    && p.newEdges == signals[k].newEdges
    && p.deltaActivity == Between(if k == 0 then base.value else Counted(prefixes[k - 1]), Counted(p)).Activity()
    && (p.interesting <==> signals[k].novel || (Counted(p) > mark && forall j :: 0 <= j < k ==> Counted(p) > Counted(prefixes[j])))
  }

  /** The mark and the counted values so far have `best` as their maximum. */
  ghost predicate HasMaximum<C(!new), S(!new)>(prefixes: seq<Prefix<C, S>>, mark: nat, best: nat) {
    && best >= mark && (forall j :: 0 <= j < |prefixes| ==> best >= Counted(prefixes[j]))
    && (best == mark || exists j :: 0 <= j < |prefixes| && best == Counted(prefixes[j]))
  }

  /** The calls so far went by the law, and the loop stands where they lead. */
  ghost predicate Standing<C(!new), S(!new)>(x: Setup<C, S>, base: Snapshot<C, S>, pending: seq<C>, mark: nat, signals: seq<Signal>, w: Worker<C, S>)
    requires w.phase.Executing? && |w.phase.prefixes| <= |pending| == |signals|
  {
    var prefixes, n := w.phase.prefixes, |w.phase.prefixes|;
    && w.phase.executed == base.sequence + pending[..n] && w.phase.pending == pending[n..]
    && w.phase.chain == (if n == 0 then base.chain else prefixes[n - 1].chain)
    && w.phase.previous == (if n == 0 then base.value else Counted(prefixes[n - 1]))
    && HasMaximum(prefixes, mark, w.bestKnown)
    && forall k :: 0 <= k < n ==> Lawful(x, base, pending, mark, signals, prefixes, k)
  }

  lemma LawfulStays<C(!new), S(!new)>(x: Setup<C, S>, base: Snapshot<C, S>, pending: seq<C>, mark: nat, signals: seq<Signal>,
                                      prefixes: seq<Prefix<C, S>>, p: Prefix<C, S>, k: nat)
    requires k < |prefixes| < |pending| == |signals| && Lawful(x, base, pending, mark, signals, prefixes, k)
    ensures Lawful(x, base, pending, mark, signals, prefixes + [p], k)
  {
    var more := prefixes + [p];
    assert more[k] == prefixes[k] && (k > 0 ==> more[k - 1] == prefixes[k - 1]);
    assert forall j :: 0 <= j < k ==> more[j] == prefixes[j];
  }

  lemma MaximumGrows<C(!new), S(!new)>(prefixes: seq<Prefix<C, S>>, p: Prefix<C, S>, mark: nat, best: nat)
    requires HasMaximum(prefixes, mark, best)
    ensures HasMaximum(prefixes + [p], mark, if Counted(p) > best then Counted(p) else best)
    ensures Counted(p) > best <==> Counted(p) > mark && forall j :: 0 <= j < |prefixes| ==> Counted(p) > Counted(prefixes[j])
  {
    var more := prefixes + [p];
    assert more[|prefixes|] == p;
    if best != mark {
      var j :| 0 <= j < |prefixes| && best == Counted(prefixes[j]);
      assert more[j] == prefixes[j];
    }
  }

  /** One more call keeps the law. */
  lemma StandingGrows<C(!new), S(!new)>(x: Setup<C, S>, base: Snapshot<C, S>, pending: seq<C>, mark: nat, signals: seq<Signal>, w: Worker<C, S>)
    requires w.phase.Executing? && |w.phase.prefixes| < |pending| == |signals| && Standing(x, base, pending, mark, signals, w)
    ensures var n := |w.phase.prefixes|;
            var w' := Ran(x, w, signals[n].newEdges, signals[n].novel);
            if w'.phase.Executing? then |w'.phase.prefixes| == n + 1 && Standing(x, base, pending, mark, signals, w')
            else w'.phase == Failed(w.phase.prefixes)
                 && (x.exec(w.phase.chain, pending[n]).None? || x.read(x.exec(w.phase.chain, pending[n]).value).Broken?)
  {
    var n := |w.phase.prefixes|;
    var w' := Ran(x, w, signals[n].newEdges, signals[n].novel);
    if w'.phase.Executing? {
      var prefixes, p := w.phase.prefixes, w'.phase.prefixes[n];
      assert w'.phase.prefixes == prefixes + [p];
      assert pending[..n + 1] == pending[..n] + [pending[n]] && pending[n..][1..] == pending[n + 1..];
      MaximumGrows(prefixes, p, mark, w.bestKnown);
      forall k | 0 <= k < n ensures Lawful(x, base, pending, mark, signals, prefixes + [p], k) {
        LawfulStays(x, base, pending, mark, signals, prefixes, p, k);
      }
      NewestIsLawful(x, base, pending, mark, signals, w);
    }
  }

  lemma NewestIsLawful<C(!new), S(!new)>(x: Setup<C, S>, base: Snapshot<C, S>, pending: seq<C>, mark: nat, signals: seq<Signal>, w: Worker<C, S>)
    requires w.phase.Executing? && |w.phase.prefixes| < |pending| == |signals| && Standing(x, base, pending, mark, signals, w)
    requires Ran(x, w, signals[|w.phase.prefixes|].newEdges, signals[|w.phase.prefixes|].novel).phase.Executing?
    ensures var n := |w.phase.prefixes|;
            var w' := Ran(x, w, signals[n].newEdges, signals[n].novel);
            |w'.phase.prefixes| == n + 1 && Lawful(x, base, pending, mark, signals, w'.phase.prefixes, n)
  {
    var prefixes, n := w.phase.prefixes, |w.phase.prefixes|;
    var more := Ran(x, w, signals[n].newEdges, signals[n].novel).phase.prefixes;
    var p := more[n];
    assert more == prefixes + [p] && pending[..n + 1] == pending[..n] + [pending[n]];
    assert forall j :: 0 <= j < n ==> more[j] == prefixes[j];
    MaximumGrows(prefixes, p, mark, w.bestKnown);
    assert p.interesting <==> signals[n].novel || Counted(p) > w.bestKnown;
  }

  /** Executes the pending calls in turn on one chain, measuring the value after each, and stops at the first error. */
  method ExecutePending<C(!new), S(!new)>(x: Setup<C, S>, base: Snapshot<C, S>, pending: seq<C>, idle: Worker<C, S>, signals: seq<Signal>)
    returns (w: Worker<C, S>)
    requires |signals| == |pending|
    ensures w == RanAll(x, idle.(phase := Executing(base.sequence, base.chain, base.value, pending, [])), signals)
    ensures (w.phase.Executing? && w.phase.pending == [] && |w.phase.prefixes| == |pending|) || (w.phase.Failed? && |w.phase.lost| < |pending|)
    ensures forall k :: 0 <= k < |Held(w.phase)| ==> Lawful(x, base, pending, idle.bestKnown, signals, Held(w.phase), k)
    ensures HasMaximum(Held(w.phase), idle.bestKnown, w.bestKnown)
    ensures w.phase.Failed? ==>
              var n, lost := |w.phase.lost|, w.phase.lost;
              var next := x.exec(if n == 0 then base.chain else lost[n - 1].chain, pending[n]);
              next.None? || x.read(next.value).Broken?
  {
    w := idle.(phase := Executing(base.sequence, base.chain, base.value, pending, []));
    ghost var start := w;
    assert signals[0..] == signals && pending[0..] == pending && base.sequence + pending[..0] == base.sequence;
    for i := 0 to |pending|
      invariant w.phase.Executing? && |w.phase.prefixes| == i
      invariant Standing(x, base, pending, idle.bestKnown, signals, w)
      invariant RanAll(x, start, signals) == RanAll(x, w, signals[i..])
    {
      assert signals[i..][1..] == signals[i + 1..];
      StandingGrows(x, base, pending, idle.bestKnown, signals, w);
      w := ExecuteCall(x, w, signals[i]);
      if w.phase.Failed? {
        return;
      }
    }
  }

  // ---- Splitting the budget ------------------------------------------------------------------

  function SplitRuns(runs: nat, threads: nat): seq<nat>
    requires threads > 0
  {
    seq(threads, i requires 0 <= i < threads => runs / threads + if i < runs % threads then 1 else 0)
  }

  function SumOf(s: seq<nat>): nat {
    if s == [] then 0 else SumOf(s[..|s| - 1]) + s[|s| - 1]
  }

  lemma {:induction false} SplitPrefix(runs: nat, threads: nat, n: nat)
    requires 0 < threads && n <= threads
    ensures SumOf(SplitRuns(runs, threads)[..n]) == n * (runs / threads) + Min(n, runs % threads)
  {
    if n > 0 {
      SplitPrefix(runs, threads, n - 1);
      assert SplitRuns(runs, threads)[..n][..n - 1] == SplitRuns(runs, threads)[..n - 1];
    }
  }

  /** The budgets add up to the runs and differ by at most one. */
  lemma SplitIsFair(runs: nat, threads: nat)
    requires threads > 0
    ensures SumOf(SplitRuns(runs, threads)) == runs
    ensures forall i, j :: 0 <= i < j < threads ==> 0 <= SplitRuns(runs, threads)[i] - SplitRuns(runs, threads)[j] <= 1
  {
    SplitPrefix(runs, threads, threads);
    assert SplitRuns(runs, threads)[..threads] == SplitRuns(runs, threads);
  }
}
