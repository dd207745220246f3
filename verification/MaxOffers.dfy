/** Which measured prefixes the max search offers to its corpus, and what a run starts from. */
module MaxOffers {
  import opened Basics
  import opened BestTracker
  import opened Corpus
  import opened DeltaRecords
  import opened MaxSearch

  // ---- How a run starts ------------------------------------------------------------------

  /** A fresh run executes its calls from the initial state. */
  lemma FreshRunStarts<C(!new), S(!new)>(x: Setup<C, S>, r: Search<C, S>, t: nat, calls: seq<C>)
    requires Enabled(x, r, StartFresh(t, calls))
    ensures Step(x, r, StartFresh(t, calls)).workers[t].phase == Executing([], x.initial, x.initialValue, calls, [])
  {}

  /**
   A run on a snapshot executes one call on it, or at the call limit replaces one position and
   executes all calls from the initial state.
   */
  ghost predicate StartsOn<C(!new), S(!new)>(x: Setup<C, S>, s: Snapshot<C, S>, call: C, pos: nat, p: Phase<C, S>) {
    if |s.sequence| < x.maxCalls then p == Executing(s.sequence, s.chain, s.value, [call], [])
    else
      && p.Executing? && p.executed == [] && p.chain == x.initial && p.previous == x.initialValue && p.prefixes == []
      && |p.pending| == |s.sequence|
      && forall k :: 0 <= k < |s.sequence| ==> p.pending[k] == if k == pos then call else s.sequence[k]
  }

  /** A run on the best starts there, or at the initial state while the best has no calls or no snapshot. */
  lemma BestRunStarts<C(!new), S(!new)>(x: Setup<C, S>, r: Search<C, S>, t: nat, call: C, pos: nat)
    requires Enabled(x, r, Extend(t, FromBest, call, pos))
    ensures StartsOn(x,
                     if r.best.chain.Some? && r.best.sequence != [] then Snapshot(r.best.sequence, r.best.value, r.best.chain.value)
                     else Snapshot([], x.initialValue, x.initial),
                     call, pos, Step(x, r, Extend(t, FromBest, call, pos)).workers[t].phase)
  {}

  /** A run on the corpus starts at the entry whose weight interval holds the draw. */
  lemma CorpusRunStarts<C(!new), S(!new)>(x: Setup<C, S>, r: Search<C, S>, t: nat, draw: nat, call: C, pos: nat, k: nat)
    requires Enabled(x, r, Extend(t, FromCorpus(draw), call, pos)) && k < |r.corpus| && r.corpus[k].chain.Some?
    requires draw < TotalWeight(r.corpus) < TWO_64
    requires TotalWeight(r.corpus[..k]) <= draw < TotalWeight(r.corpus[..k]) + Weight(r.corpus[k])
    ensures StartsOn(x, Snapshot(r.corpus[k].sequence, r.corpus[k].value, r.corpus[k].chain.value), call, pos,
                     Step(x, r, Extend(t, FromCorpus(draw), call, pos)).workers[t].phase)
  {
    DrawnIff(r.corpus, draw, k);
    FitsInWord(TotalWeight(r.corpus));
  }

  /** A corpus without weight, as one without entries, starts the run at the initial state, whatever the draw. */
  lemma WeightlessRunStarts<C(!new), S(!new)>(x: Setup<C, S>, r: Search<C, S>, t: nat, draw: nat, call: C, pos: nat)
    requires Enabled(x, r, Extend(t, FromCorpus(draw), call, pos)) && TotalWeight(r.corpus) == 0
    ensures StartsOn(x, Snapshot([], x.initialValue, x.initial), call, pos,
                     Step(x, r, Extend(t, FromCorpus(draw), call, pos)).workers[t].phase)
  {}

  // ---- What a run offers --------------------------------------------------------------------

  /** The corpus entry that records a measured prefix. */
  function Recorded<C, S>(p: Prefix<C, S>): Entry<C, S>
    requires p.reading.Reads?
  {
    Entry(p.sequence, p.reading.value, p.newEdges, p.deltaActivity, Some(p.chain))
  }

  /** After a run has been considered, its next prefix is offered exactly when measured, and interesting or part of a win. */
  lemma KeepOffersIff<C(!new), S(!new)>(x: Setup<C, S>, r: Search<C, S>, t: nat)
    requires Enabled(x, r, Keep(t)) && r.workers[t].phase.left != []
    ensures var p, first := r.workers[t].phase, r.workers[t].phase.left[0];
            var r' := Step(x, r, Keep(t));
            && r'.workers[t].phase == Keeping(p.left[1..], p.improved)
            && if first.reading.Reads? && (p.improved || first.interesting) then
                 r'.offered == r.offered + [Recorded(first)] && r'.corpus == Added(r.corpus, Recorded(first))
               else r'.offered == r.offered && r'.corpus == r.corpus
  {}

  /** The last prefix is considered, with its own calls, value and state; a win is exactly what replaced the best. */
  lemma ConsiderOffersLast<C(!new), S(!new)>(x: Setup<C, S>, r: Search<C, S>, t: nat)
    requires Enabled(x, r, Consider(t))
    ensures var prefixes := r.workers[t].phase.prefixes;
            var last := prefixes[|prefixes| - 1];
            var r' := Step(x, r, Consider(t));
            if !last.reading.Reads? then r'.best == r.best && r'.workers[t].phase == Keeping(prefixes, false)
            else
              var offer := Offer(last.sequence, last.reading.value, Some(last.chain));
              var wins := offer.value > r.best.value
                          || (offer.value == r.best.value && r.best.sequence != [] && |offer.sequence| < |r.best.sequence|);
              && r'.best == (if wins then offer else r.best) && r'.considered == r.considered + [offer]
              && r'.workers[t].phase.Signalling? && r'.workers[t].phase.prefixes == prefixes && r'.workers[t].phase.improved == wins
  {}

  ghost predicate WasTried<C(!new), S(!new)>(w: Worker<C, S>, p: Prefix<C, S>) {
    exists k :: 0 <= k < |w.trials| && w.trials[k].prefix == p
  }

  /** A novel measured prefix is offered or still in hand. */
  ghost predicate TrialKept<C(!new), S(!new)>(trial: Trial<C, S>, held: seq<Prefix<C, S>>, offered: seq<Entry<C, S>>) {
    trial.novel ==>
      trial.prefix.interesting
      && (trial.prefix.reading.Reads? ==> Recorded(trial.prefix) in offered || trial.prefix in held)
  }

  ghost predicate HeldTried<C(!new), S(!new)>(w: Worker<C, S>) {
    forall p :: p in Held(w.phase) ==> WasTried(w, p)
  }

  ghost predicate Kept<C(!new), S(!new)>(w: Worker<C, S>, offered: seq<Entry<C, S>>) {
    (forall k :: 0 <= k < |w.trials| ==> TrialKept(w.trials[k], Held(w.phase), offered)) && HeldTried(w)
  }

  lemma KeptMore<C(!new), S(!new)>(w: Worker<C, S>, offered: seq<Entry<C, S>>, more: seq<Entry<C, S>>)
    requires Kept(w, offered) && offered <= more
    ensures Kept(w, more)
  {
    forall k | 0 <= k < |w.trials| ensures TrialKept(w.trials[k], Held(w.phase), more) {
      assert TrialKept(w.trials[k], Held(w.phase), offered);
    }
  }

  lemma KeptSame<C(!new), S(!new)>(w: Worker<C, S>, w': Worker<C, S>, offered: seq<Entry<C, S>>)
    requires Kept(w, offered) && w'.trials == w.trials && Held(w'.phase) == Held(w.phase)
    ensures Kept(w', offered)
  {
    forall p | p in Held(w'.phase) ensures WasTried(w', p) {
      assert WasTried(w, p);
    }
  }

  /** A worker that has tried one more prefix, and holds it. */
  lemma KeptOneMore<C(!new), S(!new)>(w: Worker<C, S>, w': Worker<C, S>, trial: Trial<C, S>, offered: seq<Entry<C, S>>)
    requires Kept(w, offered) && w'.trials == w.trials + [trial] && Held(w'.phase) == Held(w.phase) + [trial.prefix]
    requires trial.novel ==> trial.prefix.interesting
    ensures Kept(w', offered)
  {
    var n := |w.trials|;
    assert trial.prefix in Held(w'.phase) && w'.trials[n] == trial;
    forall k | 0 <= k < n + 1 ensures TrialKept(w'.trials[k], Held(w'.phase), offered) {
      if k < n {
        assert w'.trials[k] == w.trials[k] && TrialKept(w.trials[k], Held(w.phase), offered);
      }
    }
    forall q | q in Held(w'.phase) ensures WasTried(w', q) {
      if q != trial.prefix {
        assert WasTried(w, q);
        var k :| 0 <= k < n && w.trials[k].prefix == q;
        assert w'.trials[k].prefix == q;
      }
    }
  }

  lemma RanKept<C(!new), S(!new)>(x: Setup<C, S>, w: Worker<C, S>, newEdges: nat, novel: bool, offered: seq<Entry<C, S>>)
    requires w.phase.Executing? && w.phase.pending != [] && Kept(w, offered)
    ensures Kept(Ran(x, w, newEdges, novel), offered)
  {
    var w' := Ran(x, w, newEdges, novel);
    if w'.phase.Executing? {
      KeptOneMore(w, w', w'.trials[|w.trials|], offered);
    } else {
      KeptSame(w, w', offered);
    }
  }

  /** A worker that has let go of its first prefix, offered when it had to be. */
  lemma KeptOneLess<C(!new), S(!new)>(w: Worker<C, S>, w': Worker<C, S>, offered: seq<Entry<C, S>>, more: seq<Entry<C, S>>)
    requires Kept(w, offered) && offered <= more && Held(w.phase) != []
    requires w'.trials == w.trials && Held(w'.phase) == Held(w.phase)[1..]
    requires Held(w.phase)[0].reading.Reads? && Held(w.phase)[0].interesting ==> Recorded(Held(w.phase)[0]) in more
    ensures Kept(w', more)
  {
    var held := Held(w.phase);
    assert held == [held[0]] + held[1..];
    forall k | 0 <= k < |w.trials| ensures TrialKept(w'.trials[k], Held(w'.phase), more) {
      assert TrialKept(w.trials[k], held, offered);
    }
    forall q | q in Held(w'.phase) ensures WasTried(w', q) {
      assert q in held && WasTried(w, q);
    }
  }

  lemma PopKept<C(!new), S(!new)>(x: Setup<C, S>, r: Search<C, S>, t: nat)
    requires Enabled(x, r, Keep(t)) && r.workers[t].phase.left != [] && Kept(r.workers[t], r.offered)
    ensures Kept(Step(x, r, Keep(t)).workers[t], Step(x, r, Keep(t)).offered)
  {
    var r' := Step(x, r, Keep(t));
    var first := r.workers[t].phase.left[0];
    KeepOffersIff(x, r, t);
    if first.reading.Reads? && first.interesting {
      assert r'.offered[|r.offered|] == Recorded(first);
    }
    KeptOneLess(r.workers[t], r'.workers[t], r.offered, r'.offered);
  }

  lemma StepKept<C(!new), S(!new)>(x: Setup<C, S>, r: Search<C, S>, e: Event<C>, t: nat)
    requires Enabled(x, r, e) && t < |r.workers| && Kept(r.workers[t], r.offered)
    ensures |Step(x, r, e).workers| == |r.workers| && Kept(Step(x, r, e).workers[t], Step(x, r, e).offered)
  {
    var r' := Step(x, r, e);
    if t != e.t {
      assert r'.workers[t] == r.workers[t];
      KeptMore(r.workers[t], r.offered, r'.offered);
    } else if e.Execute? {
      RanKept(x, r.workers[t], e.newEdges, e.novel, r.offered);
    } else if e.Keep? && r.workers[t].phase.left != [] {
      PopKept(x, r, t);
    } else {
      KeptSame(r.workers[t], r'.workers[t], r.offered);
    }
  }

  lemma {:induction false} RunKept<C(!new), S(!new)>(x: Setup<C, S>, r: Search<C, S>, events: seq<Event<C>>, t: nat)
    requires Starts(x, r) && Run(x, r, events).Some? && t < |r.workers|
    ensures var q := Run(x, r, events).value; |q.workers| == |r.workers| && Kept(q.workers[t], q.offered)
    decreases |events|
  {
    if |events| == 0 {
      assert events == [];
    } else {
      var n := |events| - 1;
      RunKept(x, r, events[..n], t);
      StepKept(x, Run(x, r, events[..n]).value, events[n], t);
    }
  }

  /** A prefix of this entry has been measured by some worker. */
  ghost predicate Tried<C(!new), S(!new)>(q: Search<C, S>, e: Entry<C, S>) {
    exists t, k :: 0 <= t < |q.workers| && 0 <= k < |q.workers[t].trials|
                   && q.workers[t].trials[k].prefix.reading.Reads? && Recorded(q.workers[t].trials[k].prefix) == e
  }

  lemma TrialsStay<C(!new), S(!new)>(x: Setup<C, S>, r: Search<C, S>, e: Event<C>, entry: Entry<C, S>)
    requires Enabled(x, r, e) && Tried(r, entry)
    ensures Tried(Step(x, r, e), entry)
  {
    var r' := Step(x, r, e);
    var t, k :| 0 <= t < |r.workers| && 0 <= k < |r.workers[t].trials|
                && r.workers[t].trials[k].prefix.reading.Reads? && Recorded(r.workers[t].trials[k].prefix) == entry;
    assert r'.workers[t].trials[k] == r.workers[t].trials[k];
  }

  /** The corpus after the offers, from a given one. */
  function WithOffers<C, S>(corpus: seq<Entry<C, S>>, offered: seq<Entry<C, S>>): seq<Entry<C, S>> {
    if offered == [] then corpus else Added(WithOffers(corpus, offered[..|offered| - 1]), offered[|offered| - 1])
  }

  ghost predicate Sourced<C(!new), S(!new)>(start: seq<Entry<C, S>>, q: Search<C, S>) {
    q.corpus == WithOffers(start, q.offered) && forall e :: e in q.offered ==> Tried(q, e)
  }

  lemma HeldIsTried<C(!new), S(!new)>(r: Search<C, S>, t: nat, p: Prefix<C, S>)
    requires t < |r.workers| && HeldTried(r.workers[t]) && p in Held(r.workers[t].phase) && p.reading.Reads?
    ensures Tried(r, Recorded(p))
  {
    assert WasTried(r.workers[t], p);
    var k :| 0 <= k < |r.workers[t].trials| && r.workers[t].trials[k].prefix == p;
    assert r.workers[t].trials[k].prefix.reading.Reads? && Recorded(r.workers[t].trials[k].prefix) == Recorded(p);
  }

  lemma OffersOnlyTried<C(!new), S(!new)>(x: Setup<C, S>, r: Search<C, S>, e: Event<C>)
    requires Enabled(x, r, e) && HeldTried(r.workers[e.t])
    ensures var r' := Step(x, r, e);
            || (r'.offered == r.offered && r'.corpus == r.corpus)
            || exists entry :: Tried(r, entry) && r'.offered == r.offered + [entry] && r'.corpus == Added(r.corpus, entry)
  {
    if e.Keep? && r.workers[e.t].phase.left != [] {
      var first := r.workers[e.t].phase.left[0];
      KeepOffersIff(x, r, e.t);
      if first.reading.Reads? {
        HeldIsTried(r, e.t, first);
      }
    }
  }

  lemma StepSourced<C(!new), S(!new)>(x: Setup<C, S>, start: seq<Entry<C, S>>, r: Search<C, S>, e: Event<C>)
    requires Enabled(x, r, e) && Sourced(start, r) && HeldTried(r.workers[e.t])
    ensures Sourced(start, Step(x, r, e))
  {
    var r' := Step(x, r, e);
    OffersOnlyTried(x, r, e);
    forall entry | Tried(r, entry) ensures Tried(r', entry) {
      TrialsStay(x, r, e, entry);
    }
    if r'.offered != r.offered {
      assert r'.offered[..|r'.offered| - 1] == r.offered;
    }
  }

  lemma {:induction false} RunWorkers<C(!new), S(!new)>(x: Setup<C, S>, r: Search<C, S>, events: seq<Event<C>>)
    requires Run(x, r, events).Some?
    ensures |Run(x, r, events).value.workers| == |r.workers|
    decreases |events|
  {
    if |events| > 0 {
      RunWorkers(x, r, events[..|events| - 1]);
    }
  }

  lemma {:induction false} RunSourced<C(!new), S(!new)>(x: Setup<C, S>, r: Search<C, S>, events: seq<Event<C>>)
    requires Starts(x, r) && Run(x, r, events).Some?
    ensures Sourced(r.corpus, Run(x, r, events).value)
    decreases |events|
  {
    if |events| == 0 {
      assert events == [];
    } else {
      var n := |events| - 1;
      var before := Run(x, r, events[..n]).value;
      RunSourced(x, r, events[..n]);
      RunWorkers(x, r, events[..n]);
      RunKept(x, r, events[..n], events[n].t);
      StepSourced(x, r.corpus, before, events[n]);
    }
  }

  /**
   In every interleaving, once a worker is idle every prefix it measured with a novel signal has been offered
   to the corpus, as it was measured; the corpus is the loaded one after exactly the offers made, each of a prefix some worker tried.
   */
  lemma NovelPrefixesAreOffered<C(!new), S(!new)>(x: Setup<C, S>, r: Search<C, S>, events: seq<Event<C>>, t: nat, trial: Trial<C, S>)
    requires Starts(x, r) && Run(x, r, events).Some? && t < |r.workers|
    ensures var q := Run(x, r, events).value;
            && |q.workers| == |r.workers|
            && q.corpus == WithOffers(r.corpus, q.offered) && (forall e :: e in q.offered ==> Tried(q, e))
            && (q.workers[t].phase.Idle? && trial in q.workers[t].trials && trial.novel && trial.prefix.reading.Reads? ==>
                  Recorded(trial.prefix) in q.offered)
  {
    RunSourced(x, r, events);
    RunKept(x, r, events, t);
  }
}
