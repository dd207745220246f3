/**
 When the best tracker covers everything a worker has measured. Only the last prefix of a
 run is offered, so the answer lies in the call sequences a run from the initial state can execute.
 */
module BestReach {
  import opened Basics
  import opened BestTracker
  import opened Corpus
  import opened DeltaRecords
  import opened MaxSearch
  import opened MaxRetention

  /** What is measured after the calls on the initial state; a failing execution counts as a broken reading. */
  function ReadAfter<C, S>(x: Setup<C, S>, calls: seq<C>): Reading {
    match Replay(x, calls)
    case None => Broken
    case Some(s) => x.read(s)
  }

  /** Every non-empty prefix of the calls executes and can be measured. */
  ghost predicate Measurable<C(!new), S(!new)>(x: Setup<C, S>, calls: seq<C>) {
    forall k :: 1 <= k <= |calls| ==> !ReadAfter(x, calls[..k]).Broken?
  }

  /** A reading above the floor that the last one does not reach. */
  predicate Outdoes(inner: Reading, floor: nat, last: Reading) {
    inner.Reads? && inner.value > floor && (last.Reads? ==> last.value < inner.value)
  }

  /** A run of these calls measures a value above the floor at an inner prefix and ends below it. */
  ghost predicate Hides<C(!new), S(!new)>(x: Setup<C, S>, calls: seq<C>, floor: nat) {
    && 1 <= |calls| <= x.maxCalls && Measurable(x, calls)
    && exists k :: 1 <= k < |calls| && Outdoes(ReadAfter(x, calls[..k]), floor, ReadAfter(x, calls))
  }

  ghost predicate SomeHides<C(!new), S(!new)>(x: Setup<C, S>, floor: nat) {
    exists calls :: Hides(x, calls, floor)
  }

  predicate Idles<C, S>(q: Search<C, S>, t: nat) {
    t < |q.workers| && q.workers[t].phase.Idle?
  }

  /** The best is at least everything worker `t` has measured. */
  predicate Reaches<C, S>(q: Search<C, S>, t: nat)
    requires t < |q.workers|
  {
    forall v :: v in q.workers[t].measured ==> v <= q.best.value
  }

  // ---- Without a hiding sequence -------------------------------------------------------------

  /** The run has one prefix in all, or it began at the initial state and its prefixes are those of its calls. */
  ghost predicate Whole<C(!new), S(!new)>(p: Phase<C, S>)
    requires p.Executing?
  {
    || |p.prefixes| + |p.pending| == 1
    || (|p.prefixes| == |p.executed|
        && forall k :: 0 <= k < |p.prefixes| ==> p.prefixes[k].sequence == p.executed[..k + 1])
  }

  ghost predicate AllMeasured<C(!new), S(!new)>(prefixes: seq<Prefix<C, S>>) {
    forall k :: 0 <= k < |prefixes| ==> !prefixes[k].reading.Broken?
  }

  ghost predicate UnderOrHeld<C(!new), S(!new)>(measured: seq<U256>, best: nat, held: seq<Prefix<C, S>>) {
    forall v :: v in measured && v > best ==> Holds(held, v)
  }

  /** What a worker has measured is under the best, or is still to be offered with its run. */
  ghost predicate Tidy<C(!new), S(!new)>(w: Worker<C, S>, best: nat) {
    match w.phase
    case Executing(_, _, _, _, prefixes) => Whole(w.phase) && AllMeasured(prefixes) && UnderOrHeld(w.measured, best, prefixes)
    case Failed(_) => true
    case _ => forall v :: v in w.measured ==> v <= best
  }

  lemma TidyRises<C(!new), S(!new)>(w: Worker<C, S>, best: nat, higher: nat)
    requires Tidy(w, best) && best <= higher
    ensures Tidy(w, higher)
  {}

  lemma BestNeverFalls<C(!new), S(!new)>(x: Setup<C, S>, r: Search<C, S>, e: Event<C>)
    requires Enabled(x, r, e)
    ensures r.best.value <= Step(x, r, e).best.value
  {}

  lemma WholeGrows<C(!new), S(!new)>(x: Setup<C, S>, w: Worker<C, S>, newEdges: nat, novel: bool)
    requires w.phase.Executing? && w.phase.pending != [] && Whole(w.phase) && AllMeasured(w.phase.prefixes)
    ensures var p := Ran(x, w, newEdges, novel).phase; p.Executing? ==> Whole(p) && AllMeasured(p.prefixes)
  {
    var before, p := w.phase, Ran(x, w, newEdges, novel).phase;
    if p.Executing? && |before.prefixes| == |before.executed| && |before.prefixes| + |before.pending| != 1 {
      forall k | 0 <= k < |p.prefixes| ensures p.prefixes[k].sequence == p.executed[..k + 1] {
        if k < |before.prefixes| {
          assert p.executed[..k + 1] == before.executed[..k + 1];
        } else {
          assert p.executed[..k + 1] == p.executed;
        }
      }
    }
  }

  lemma HeldGrows<C(!new), S(!new)>(x: Setup<C, S>, w: Worker<C, S>, newEdges: nat, novel: bool, best: nat)
    requires w.phase.Executing? && w.phase.pending != [] && UnderOrHeld(w.measured, best, w.phase.prefixes)
    ensures var w' := Ran(x, w, newEdges, novel); w'.phase.Executing? ==> UnderOrHeld(w'.measured, best, w'.phase.prefixes)
  {
    var w' := Ran(x, w, newEdges, novel);
    if w'.phase.Executing? {
      var p := w'.phase.prefixes[|w.phase.prefixes|];
      forall v | v in w'.measured && v > best ensures Holds(w'.phase.prefixes, v) {
        HoldsOneMore(w.phase.prefixes, p, v);
      }
    }
  }

  /** The prefixes of a run from the initial state read what their calls read. */
  lemma PrefixReads<C(!new), S(!new)>(x: Setup<C, S>, p: Phase<C, S>, k: nat)
    requires p.Executing? && PhaseOk(x, p) && |p.prefixes| == |p.executed| && k < |p.prefixes|
    requires p.prefixes[k].sequence == p.executed[..k + 1]
    ensures ReadAfter(x, p.executed[..k + 1]) == p.prefixes[k].reading
  {
    assert PrefixOk(x, p.prefixes[k]);
  }

  lemma WholeRunIsMeasurable<C(!new), S(!new)>(x: Setup<C, S>, p: Phase<C, S>)
    requires p.Executing? && PhaseOk(x, p) && |p.prefixes| == |p.executed| && AllMeasured(p.prefixes)
    requires forall k :: 0 <= k < |p.prefixes| ==> p.prefixes[k].sequence == p.executed[..k + 1]
    ensures Measurable(x, p.executed)
  {
    forall k | 1 <= k <= |p.executed| ensures !ReadAfter(x, p.executed[..k]).Broken? {
      PrefixReads(x, p, k - 1);
    }
  }

  /** A finished run that hides nothing ends at least as high as any value above the floor that it holds. */
  lemma LastReaches<C(!new), S(!new)>(x: Setup<C, S>, p: Phase<C, S>, floor: nat, v: U256)
    requires p.Executing? && p.pending == [] && p.prefixes != [] && PhaseOk(x, p) && Whole(p) && AllMeasured(p.prefixes)
    requires !SomeHides(x, floor) && Holds(p.prefixes, v) && v > floor
    ensures var last := p.prefixes[|p.prefixes| - 1].reading; last.Reads? && v <= last.value
  {
    var n := |p.prefixes| - 1;
    var k :| 0 <= k < |p.prefixes| && p.prefixes[k].reading == Reads(v);
    if k < n {
      WholeRunIsMeasurable(x, p);
      PrefixReads(x, p, k);
      PrefixReads(x, p, n);
      assert p.executed[..n + 1] == p.executed;
      assert !Hides(x, p.executed, floor);
      assert !Outdoes(ReadAfter(x, p.executed[..k + 1]), floor, ReadAfter(x, p.executed));
    }
  }

  lemma ConsiderTidies<C(!new), S(!new)>(x: Setup<C, S>, r: Search<C, S>, t: nat, floor: nat)
    requires Enabled(x, r, Consider(t)) && Tidy(r.workers[t], r.best.value) && PhaseOk(x, r.workers[t].phase)
    requires !SomeHides(x, floor) && floor <= r.best.value
    ensures Tidy(Step(x, r, Consider(t)).workers[t], Step(x, r, Consider(t)).best.value)
  {
    var r' := Step(x, r, Consider(t));
    var w := r.workers[t];
    forall v | v in w.measured ensures v <= r'.best.value {
      if v > r.best.value {
        LastReaches(x, w.phase, floor, v);
      }
    }
  }

  lemma TidyStep<C(!new), S(!new)>(x: Setup<C, S>, r: Search<C, S>, e: Event<C>, floor: nat)
    requires Enabled(x, r, e) && Tidy(r.workers[e.t], r.best.value) && PhaseOk(x, r.workers[e.t].phase)
    requires !SomeHides(x, floor) && floor <= r.best.value
    ensures Tidy(Step(x, r, e).workers[e.t], Step(x, r, e).best.value)
  {
    match e
    case Execute(t, newEdges, novel) =>
      WholeGrows(x, r.workers[t], newEdges, novel);
      HeldGrows(x, r.workers[t], newEdges, novel, r.best.value);
    case Consider(t) => ConsiderTidies(x, r, t, floor);
    case _ =>
  }

  lemma {:induction false} RunTidies<C(!new), S(!new)>(x: Setup<C, S>, r: Search<C, S>, events: seq<Event<C>>, t: nat)
    requires x.maxCalls >= 1 && Starts(x, r) && Run(x, r, events).Some? && t < |r.workers| && !SomeHides(x, r.best.value)
    ensures var q := Run(x, r, events).value;
            |q.workers| == |r.workers| && r.best.value <= q.best.value && Tidy(q.workers[t], q.best.value)
    decreases |events|
  {
    if |events| == 0 {
      assert events == [];
    } else {
      var n := |events| - 1;
      var before := Run(x, r, events[..n]).value;
      RunTidies(x, r, events[..n], t);
      RunInvariant(x, r, events[..n]);
      WorkersStay(x, before, events[n]);
      BestNeverFalls(x, before, events[n]);
      assert PhaseOk(x, before.workers[t].phase);
      if t == events[n].t {
        TidyStep(x, before, events[n], r.best.value);
      } else {
        TidyRises(before.workers[t], before.best.value, Step(x, before, events[n]).best.value);
      }
    }
  }

  // ---- With one -------------------------------------------------------------------------------

  /** Worker 0 has executed the first `j` calls from the initial state and nothing else has happened. */
  ghost predicate After<C(!new), S(!new)>(x: Setup<C, S>, r: Search<C, S>, q: Search<C, S>, calls: seq<C>, j: nat)
    requires j <= |calls|
  {
    && q.best == r.best && q.stop == r.stop && |q.workers| == |r.workers| && |q.workers| > 0
    && var p := q.workers[0].phase;
       && p.Executing? && p.executed == calls[..j] && p.pending == calls[j..] && Replay(x, calls[..j]) == Some(p.chain)
       && |p.prefixes| == j && (j > 0 ==> p.prefixes[j - 1].reading == ReadAfter(x, calls[..j]))
       && forall k :: 1 <= k <= j && ReadAfter(x, calls[..k]).Reads? ==> ReadAfter(x, calls[..k]).value in q.workers[0].measured
  }

  lemma ExecuteNext<C(!new), S(!new)>(x: Setup<C, S>, r: Search<C, S>, q: Search<C, S>, calls: seq<C>, j: nat)
    requires j < |calls| && Measurable(x, calls) && After(x, r, q, calls, j)
    ensures Enabled(x, q, Execute(0, 0, false)) && After(x, r, Step(x, q, Execute(0, 0, false)), calls, j + 1)
  {
    assert calls[..j + 1][..j] == calls[..j] && calls[..j + 1] == calls[..j] + [calls[j]];
    assert !ReadAfter(x, calls[..j + 1]).Broken?;
    assert calls[j..][0] == calls[j] && calls[j..][1..] == calls[j + 1..];
  }

  lemma FreshStart<C(!new), S(!new)>(x: Setup<C, S>, r: Search<C, S>, calls: seq<C>)
    requires 1 <= |calls| <= x.maxCalls && |r.workers| > 0 && r.workers[0].phase.Idle?
    ensures Enabled(x, r, StartFresh(0, calls)) && After(x, r, Step(x, r, StartFresh(0, calls)), calls, 0)
  {
    assert calls[..0] == [] && calls[0..] == calls;
  }

  /** Some run ends with worker 0 after the first `j` calls. */
  ghost predicate CanExecute<C(!new), S(!new)>(x: Setup<C, S>, r: Search<C, S>, calls: seq<C>, j: nat, events: seq<Event<C>>)
    requires j <= |calls|
  {
    Run(x, r, events).Some? && After(x, r, Run(x, r, events).value, calls, j)
  }

  lemma OneMoreExecuted<C(!new), S(!new)>(x: Setup<C, S>, r: Search<C, S>, calls: seq<C>, j: nat, events: seq<Event<C>>)
    requires j < |calls| && Measurable(x, calls) && CanExecute(x, r, calls, j, events)
    ensures CanExecute(x, r, calls, j + 1, events + [Execute(0, 0, false)])
  {
    ExecuteNext(x, r, Run(x, r, events).value, calls, j);
    RunMore(x, r, events, Execute(0, 0, false));
  }

  lemma {:induction false} ExecuteCalls<C(!new), S(!new)>(x: Setup<C, S>, r: Search<C, S>, calls: seq<C>, j: nat) returns (events: seq<Event<C>>)
    requires 1 <= |calls| <= x.maxCalls && j <= |calls| && Measurable(x, calls) && |r.workers| > 0 && r.workers[0].phase.Idle?
    ensures CanExecute(x, r, calls, j, events)
  {
    if j == 0 {
      FreshStart(x, r, calls);
      assert Run(x, r, []) == Some(r);
      RunMore(x, r, [], StartFresh(0, calls));
      events := [] + [StartFresh(0, calls)];
    } else {
      events := ExecuteCalls(x, r, calls, j - 1);
      OneMoreExecuted(x, r, calls, j - 1, events);
      events := events + [Execute(0, 0, false)];
    }
  }

  /** Keeping every prefix ends the run and leaves the best as it is. */
  lemma {:induction false} KeepAll<C(!new), S(!new)>(x: Setup<C, S>, r: Search<C, S>, events: seq<Event<C>>, n: nat) returns (more: seq<Event<C>>)
    requires Run(x, r, events).Some?
    requires var q := Run(x, r, events).value; |q.workers| > 0 && q.workers[0].phase.Keeping? && |q.workers[0].phase.left| == n
    ensures Run(x, r, more).Some?
    ensures var q, q' := Run(x, r, events).value, Run(x, r, more).value;
            Idles(q', 0) && q'.best == q.best && q'.workers[0].measured == q.workers[0].measured
    decreases n
  {
    RunMore(x, r, events, Keep(0));
    more := events + [Keep(0)];
    if n > 0 {
      more := KeepAll(x, r, more, n - 1);
    }
  }

  /** Considering a run that ends below one of its values leaves the best below it too. */
  lemma HidingRunConsidered<C(!new), S(!new)>(x: Setup<C, S>, r: Search<C, S>, calls: seq<C>, v: nat) returns (events: seq<Event<C>>)
    requires 1 <= |calls| <= x.maxCalls && Measurable(x, calls) && |r.workers| > 0 && r.workers[0].phase.Idle?
    requires v > r.best.value && (ReadAfter(x, calls).Reads? ==> ReadAfter(x, calls).value < v)
    ensures Run(x, r, events).Some?
    ensures var q := Run(x, r, events).value;
            && |q.workers| > 0 && q.workers[0].phase.Keeping? && q.best.value < v
            && forall k :: 1 <= k <= |calls| && ReadAfter(x, calls[..k]).Reads? ==> ReadAfter(x, calls[..k]).value in q.workers[0].measured
  {
    events := ExecuteCalls(x, r, calls, |calls|);
    assert calls[..|calls|] == calls;
    RunMore(x, r, events, Consider(0));
    events := events + [Consider(0)];
    if ReadAfter(x, calls).Reads? {
      RunMore(x, r, events, StoreStop(0));
      events := events + [StoreStop(0)];
    }
  }

  lemma HidingRun<C(!new), S(!new)>(x: Setup<C, S>, r: Search<C, S>, calls: seq<C>) returns (events: seq<Event<C>>)
    requires |r.workers| > 0 && r.workers[0].phase.Idle? && Hides(x, calls, r.best.value)
    ensures Run(x, r, events).Some? && Idles(Run(x, r, events).value, 0) && !Reaches(Run(x, r, events).value, 0)
  {
    var k :| 1 <= k < |calls| && Outdoes(ReadAfter(x, calls[..k]), r.best.value, ReadAfter(x, calls));
    var v := ReadAfter(x, calls[..k]).value;
    events := HidingRunConsidered(x, r, calls, v);
    var q := Run(x, r, events).value;
    assert v in q.workers[0].measured;
    events := KeepAll(x, r, events, |q.workers[0].phase.left|);
  }

  /** After the run, the best is at least everything any idle worker has measured. */
  ghost predicate BestCovers<C(!new), S(!new)>(x: Setup<C, S>, r: Search<C, S>, events: seq<Event<C>>) {
    Run(x, r, events).Some? ==> forall t :: Idles(Run(x, r, events).value, t) ==> Reaches(Run(x, r, events).value, t)
  }

  /**
   In all interleavings the best is at least every value an idle worker has measured, exactly when no
   sequence within the call limit measures above the seed's value inside and ends below that.
   */
  lemma BestCoversMeasuredIff<C(!new), S(!new)>(x: Setup<C, S>, r: Search<C, S>)
    requires x.maxCalls >= 1 && Starts(x, r) && |r.workers| > 0
    ensures (forall events :: BestCovers(x, r, events)) <==> !SomeHides(x, r.best.value)
  {
    if SomeHides(x, r.best.value) {
      var calls :| Hides(x, calls, r.best.value);
      var events := HidingRun(x, r, calls);
      assert !BestCovers(x, r, events);
    } else {
      forall events ensures BestCovers(x, r, events) {
        if Run(x, r, events).Some? {
          forall t | Idles(Run(x, r, events).value, t) ensures Reaches(Run(x, r, events).value, t) {
            RunAccounts(x, r, events, 0);
            RunTidies(x, r, events, t);
          }
        }
      }
    }
  }

  // ---- Between the tracker and the flag ------------------------------------------------------

  /** A call that reads a value at the target puts the tracker there one step before the stop flag. */
  lemma FlagLagsTarget<C(!new), S(!new)>(x: Setup<C, S>, r: Search<C, S>, a: C) returns (events: seq<Event<C>>)
    requires x.maxCalls >= 1 && Starts(x, r) && |r.workers| > 0 && x.target.Some?
    requires ReadAfter(x, [a]).Reads? && ReadAfter(x, [a]).value >= x.target.value
    ensures Run(x, r, events).Some?
    ensures var q := Run(x, r, events).value; Reached(x, q) && !q.stop && SomeRaising(q)
    ensures Run(x, r, events + [StoreStop(0)]).Some? && Run(x, r, events + [StoreStop(0)]).value.stop
  {
    assert [a][..1] == [a];
    events := ExecuteCalls(x, r, [a], 1);
    RunMore(x, r, events, Consider(0));
    events := events + [Consider(0)];
    assert Raising(Run(x, r, events).value.workers[0]);
    RunMore(x, r, events, StoreStop(0));
  }
}
