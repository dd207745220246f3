/** What the max search never loses: every measured value ends up under the corpus's highest, or in a failed run. */
module MaxRetention {
  import opened Basics
  import opened BestTracker
  import opened Corpus
  import opened DeltaRecords
  import opened MaxSearch

  /** The initial value, or the highest value the corpus holds. */
  function Floor<C, S>(x: Setup<C, S>, r: Search<C, S>): nat {
    Max(x.initialValue, MaxValue(r.corpus))
  }

  /** One of the first `n` held prefixes is interesting and was measured at no less than `value`. */
  predicate Vouched<C, S>(held: seq<Prefix<C, S>>, n: nat, value: nat) {
    exists j :: 0 <= j < n && j < |held| && held[j].interesting && Carries(held[j], value)
  }

  predicate CoveredAt<C, S>(held: seq<Prefix<C, S>>, k: nat, floor: nat)
    requires k < |held|
  {
    held[k].reading.Reads? && held[k].reading.value > floor ==> Vouched(held, k + 1, held[k].reading.value)
  }

  /** Every held value is covered by the floor or by an interesting prefix at or before it. */
  ghost predicate Covered<C(!new), S(!new)>(held: seq<Prefix<C, S>>, floor: nat) {
    forall k :: 0 <= k < |held| ==> CoveredAt(held, k, floor)
  }

  /** The worker's mark is covered by the floor or by an interesting prefix it holds. */
  ghost predicate MarkCovered<C(!new), S(!new)>(held: seq<Prefix<C, S>>, bestKnown: nat, floor: nat) {
    bestKnown > floor ==> Vouched(held, |held|, bestKnown)
  }

  predicate Holds<C, S>(held: seq<Prefix<C, S>>, value: U256) {
    exists k :: 0 <= k < |held| && held[k].reading == Reads(value)
  }

  /** What a worker has measured lies under the floor or in its hands. */
  ghost predicate Logged<C(!new), S(!new)>(held: seq<Prefix<C, S>>, measured: seq<U256>, floor: nat) {
    && (forall v :: v in measured && v > floor ==> Holds(held, v))
    && (forall v :: Holds(held, v) ==> v in measured)
  }

  ghost predicate Accounts<C(!new), S(!new)>(w: Worker<C, S>, floor: nat) {
    Covered(Held(w.phase), floor) && MarkCovered(Held(w.phase), w.bestKnown, floor) && Logged(Held(w.phase), w.measured, floor)
  }

  lemma CoveredRises<C(!new), S(!new)>(held: seq<Prefix<C, S>>, floor: nat, higher: nat)
    requires Covered(held, floor) && floor <= higher
    ensures Covered(held, higher)
  {
    forall k | 0 <= k < |held| ensures CoveredAt(held, k, higher) {
      assert CoveredAt(held, k, floor);
    }
  }

  lemma FloorRises<C(!new), S(!new)>(w: Worker<C, S>, floor: nat, higher: nat)
    requires Accounts(w, floor) && floor <= higher
    ensures Accounts(w, higher)
  {
    CoveredRises(Held(w.phase), floor, higher);
  }

  /** Only what a worker holds and knows matters, not the phase it is in. */
  lemma SameHeld<C(!new), S(!new)>(w: Worker<C, S>, w': Worker<C, S>, floor: nat)
    requires Accounts(w, floor) && Held(w'.phase) == Held(w.phase) && w'.bestKnown == w.bestKnown && w'.measured == w.measured
    ensures Accounts(w', floor)
  {}

  // ---- One more prefix ------------------------------------------------------------------------

  lemma StillVouched<C(!new), S(!new)>(held: seq<Prefix<C, S>>, p: Prefix<C, S>, n: nat, m: nat, value: nat, less: nat)
    requires Vouched(held, n, value) && less <= value && n <= m
    ensures Vouched(held + [p], m, less)
  {
    var j :| 0 <= j < n && j < |held| && held[j].interesting && Carries(held[j], value);
    assert (held + [p])[j] == held[j] && Carries((held + [p])[j], less);
  }

  lemma VouchesForItself<C(!new), S(!new)>(held: seq<Prefix<C, S>>, p: Prefix<C, S>)
    requires p.interesting && p.reading.Reads?
    ensures Vouched(held + [p], |held| + 1, p.reading.value)
  {
    assert (held + [p])[|held|] == p && Carries(p, p.reading.value);
  }

  lemma MarkOneMore<C(!new), S(!new)>(held: seq<Prefix<C, S>>, p: Prefix<C, S>, bestKnown: nat, floor: nat)
    requires MarkCovered(held, bestKnown, floor)
    requires p.reading.Reads? && p.reading.value > bestKnown ==> p.interesting
    ensures MarkCovered(held + [p], if p.reading.Reads? then Max(bestKnown, p.reading.value) else bestKnown, floor)
  {
    if p.reading.Reads? && p.reading.value > bestKnown {
      VouchesForItself(held, p);
    } else if bestKnown > floor {
      StillVouched(held, p, |held|, |held| + 1, bestKnown, bestKnown);
    }
  }

  lemma NewPrefixCovered<C(!new), S(!new)>(held: seq<Prefix<C, S>>, p: Prefix<C, S>, bestKnown: nat, floor: nat)
    requires MarkCovered(held, bestKnown, floor)
    requires p.reading.Reads? && p.reading.value > bestKnown ==> p.interesting
    ensures CoveredAt(held + [p], |held|, floor)
  {
    assert (held + [p])[|held|] == p;
    if p.reading.Reads? && p.reading.value > floor {
      if p.reading.value > bestKnown {
        VouchesForItself(held, p);
      } else {
        StillVouched(held, p, |held|, |held| + 1, bestKnown, p.reading.value);
      }
    }
  }

  lemma CoveredOneMore<C(!new), S(!new)>(held: seq<Prefix<C, S>>, p: Prefix<C, S>, bestKnown: nat, floor: nat)
    requires Covered(held, floor) && MarkCovered(held, bestKnown, floor)
    requires p.reading.Reads? && p.reading.value > bestKnown ==> p.interesting
    ensures Covered(held + [p], floor)
  {
    NewPrefixCovered(held, p, bestKnown, floor);
    forall k | 0 <= k < |held| ensures CoveredAt(held + [p], k, floor) {
      assert CoveredAt(held, k, floor) && (held + [p])[k] == held[k];
      if held[k].reading.Reads? && held[k].reading.value > floor {
        StillVouched(held, p, k + 1, k + 1, held[k].reading.value, held[k].reading.value);
      }
    }
  }

  lemma HoldsOneMore<C(!new), S(!new)>(held: seq<Prefix<C, S>>, p: Prefix<C, S>, v: U256)
    ensures Holds(held + [p], v) <==> Holds(held, v) || p.reading == Reads(v)
  {
    var more := held + [p];
    if Holds(held, v) {
      var k :| 0 <= k < |held| && held[k].reading == Reads(v);
      assert more[k].reading == Reads(v);
    }
    if p.reading == Reads(v) {
      assert more[|held|].reading == Reads(v);
    }
  }

  lemma LoggedOneMore<C(!new), S(!new)>(held: seq<Prefix<C, S>>, p: Prefix<C, S>, measured: seq<U256>, floor: nat)
    requires Logged(held, measured, floor)
    ensures Logged(held + [p], if p.reading.Reads? then measured + [p.reading.value] else measured, floor)
  {
    forall v ensures Holds(held + [p], v) <==> Holds(held, v) || p.reading == Reads(v) {
      HoldsOneMore(held, p, v);
    }
  }

  lemma RanAccounts<C(!new), S(!new)>(x: Setup<C, S>, w: Worker<C, S>, newEdges: nat, novel: bool, floor: nat)
    requires w.phase.Executing? && w.phase.pending != [] && Accounts(w, floor)
    ensures Accounts(Ran(x, w, newEdges, novel), floor)
  {
    var w' := Ran(x, w, newEdges, novel);
    if !w'.phase.Failed? {
      var held := w.phase.prefixes;
      var p := w'.phase.prefixes[|held|];
      CoveredOneMore(held, p, w.bestKnown, floor);
      MarkOneMore(held, p, w.bestKnown, floor);
      LoggedOneMore(held, p, w.measured, floor);
      assert Held(w'.phase) == held + [p];
    }
  }

  // ---- One prefix less --------------------------------------------------------------------------

  /** The first held prefix is dropped only with its value under the new floor. */
  lemma KeptIsUnderFloor<C(!new), S(!new)>(x: Setup<C, S>, r: Search<C, S>, t: nat)
    requires Enabled(x, r, Keep(t)) && r.workers[t].phase.left != [] && Covered(r.workers[t].phase.left, Floor(x, r))
    ensures var first := r.workers[t].phase.left[0];
            first.reading.Reads? ==> first.reading.value <= Floor(x, Step(x, r, Keep(t)))
  {
    var left := r.workers[t].phase.left;
    AddKeepsBestValue(r.corpus, EntryOf(left[0]));
    assert CoveredAt(left, 0, Floor(x, r));
  }

  predicate FirstUnder<C, S>(held: seq<Prefix<C, S>>, floor: nat) {
    held != [] && (held[0].reading.Reads? ==> held[0].reading.value <= floor)
  }

  lemma PopVouched<C(!new), S(!new)>(held: seq<Prefix<C, S>>, n: nat, value: nat, floor: nat)
    requires FirstUnder(held, floor) && n > 0 && Vouched(held, n, value) && value > floor
    ensures Vouched(held[1..], n - 1, value)
  {
    var j :| 0 <= j < n && j < |held| && held[j].interesting && Carries(held[j], value);
    assert held[1..][j - 1] == held[j];
  }

  lemma PopCovered<C(!new), S(!new)>(held: seq<Prefix<C, S>>, floor: nat)
    requires FirstUnder(held, floor) && Covered(held, floor)
    ensures Covered(held[1..], floor)
  {
    forall k | 0 <= k < |held| - 1 ensures CoveredAt(held[1..], k, floor) {
      assert CoveredAt(held, k + 1, floor) && held[1..][k] == held[k + 1];
      if held[k + 1].reading.Reads? && held[k + 1].reading.value > floor {
        PopVouched(held, k + 2, held[k + 1].reading.value, floor);
      }
    }
  }

  lemma PopLogged<C(!new), S(!new)>(held: seq<Prefix<C, S>>, measured: seq<U256>, floor: nat)
    requires FirstUnder(held, floor) && Logged(held, measured, floor)
    ensures Logged(held[1..], measured, floor)
  {
    forall v | v in measured && v > floor ensures Holds(held[1..], v) {
      var k :| 0 <= k < |held| && held[k].reading == Reads(v);
      assert held[1..][k - 1].reading == Reads(v);
    }
    forall v | Holds(held[1..], v) ensures v in measured {
      var k :| 0 <= k < |held[1..]| && held[1..][k].reading == Reads(v);
      assert held[k + 1].reading == Reads(v);
    }
  }

  lemma PopAccounts<C(!new), S(!new)>(w: Worker<C, S>, w': Worker<C, S>, floor: nat)
    requires Accounts(w, floor) && FirstUnder(Held(w.phase), floor) && Held(w'.phase) == Held(w.phase)[1..]
    requires w'.bestKnown == w.bestKnown && w'.measured == w.measured
    ensures Accounts(w', floor)
  {
    var held := Held(w.phase);
    PopCovered(held, floor);
    PopLogged(held, w.measured, floor);
    if w.bestKnown > floor {
      PopVouched(held, |held|, w.bestKnown, floor);
    }
  }

  // ---- Whole runs ----------------------------------------------------------------------------------

  lemma StepAccounts<C(!new), S(!new)>(x: Setup<C, S>, r: Search<C, S>, e: Event<C>)
    requires Enabled(x, r, e) && Accounts(r.workers[e.t], Floor(x, r))
    ensures Accounts(Step(x, r, e).workers[e.t], Floor(x, Step(x, r, e)))
  {
    var r' := Step(x, r, e);
    var w, w' := r.workers[e.t], r'.workers[e.t];
    CorpusNeverFalls(x, r, e);
    FloorRises(w, Floor(x, r), Floor(x, r'));
    if e.Execute? {
      RanAccounts(x, w, e.newEdges, e.novel, Floor(x, r'));
    } else if e.Keep? && w.phase.left != [] {
      KeptIsUnderFloor(x, r, e.t);
      PopAccounts(w, w', Floor(x, r'));
    } else {
      SameHeld(w, w', Floor(x, r'));
    }
  }

  lemma OtherAccounts<C(!new), S(!new)>(x: Setup<C, S>, r: Search<C, S>, e: Event<C>, t: nat)
    requires Enabled(x, r, e) && t < |r.workers| && t != e.t && Accounts(r.workers[t], Floor(x, r))
    ensures Accounts(Step(x, r, e).workers[t], Floor(x, Step(x, r, e)))
  {
    CorpusNeverFalls(x, r, e);
    FloorRises(r.workers[t], Floor(x, r), Floor(x, Step(x, r, e)));
    assert Step(x, r, e).workers[t] == r.workers[t];
  }

  lemma StartAccounts<C(!new), S(!new)>(x: Setup<C, S>, r: Search<C, S>, t: nat)
    requires Starts(x, r) && t < |r.workers|
    ensures Accounts(r.workers[t], Floor(x, r))
  {
    assert Held(r.workers[t].phase) == [];
  }

  lemma WorkersStay<C(!new), S(!new)>(x: Setup<C, S>, r: Search<C, S>, e: Event<C>)
    requires Enabled(x, r, e)
    ensures |Step(x, r, e).workers| == |r.workers|
  {}

  lemma {:induction false} RunAccounts<C(!new), S(!new)>(x: Setup<C, S>, r: Search<C, S>, events: seq<Event<C>>, t: nat)
    requires Starts(x, r) && Run(x, r, events).Some? && t < |r.workers|
    ensures |Run(x, r, events).value.workers| == |r.workers|
    ensures Accounts(Run(x, r, events).value.workers[t], Floor(x, Run(x, r, events).value))
    decreases |events|
  {
    if |events| == 0 {
      assert events == [];
      StartAccounts(x, r, t);
    } else {
      var n := |events| - 1;
      RunAccounts(x, r, events[..n], t);
      var before := Run(x, r, events[..n]).value;
      WorkersStay(x, before, events[n]);
      if t == events[n].t {
        StepAccounts(x, before, events[n]);
      } else {
        OtherAccounts(x, before, events[n], t);
      }
    }
  }

  /**
   In every interleaving, a value above the initial one and above everything in the corpus was
   measured by a worker exactly when the worker still holds it in its unfinished or failed run.
   So an idle worker has lost nothing, and a failed one has lost just what it held.
   */
  lemma NoMeasuredValueIsLost<C(!new), S(!new)>(x: Setup<C, S>, r: Search<C, S>, events: seq<Event<C>>, t: nat, v: U256)
    requires Starts(x, r) && Run(x, r, events).Some? && t < |r.workers|
    ensures var q := Run(x, r, events).value;
            && |q.workers| == |r.workers|
            && (v > Floor(x, q) ==> (v in q.workers[t].measured <==> Holds(Held(q.workers[t].phase), v)))
            && (q.workers[t].phase.Idle? && v in q.workers[t].measured && v > x.initialValue ==> v <= MaxValue(q.corpus))
  {
    RunAccounts(x, r, events, t);
  }

  lemma RunMore<C, S>(x: Setup<C, S>, r: Search<C, S>, events: seq<Event<C>>, e: Event<C>)
    requires Run(x, r, events).Some? && Enabled(x, Run(x, r, events).value, e)
    ensures Run(x, r, events + [e]) == Some(Step(x, Run(x, r, events).value, e))
  {
    assert (events + [e])[..|events|] == events;
  }

  /** A run of two calls, of which the first reads a high value and the second a low one, or fails. */
  ghost predicate HighThenLow<C(!new), S(!new)>(x: Setup<C, S>, r: Search<C, S>, a: C, b: C, high: U256) {
    && x.maxCalls >= 2 && |r.workers| > 0 && r.workers[0] == Worker(x.initialValue, Idle, [], [])
    && x.exec(x.initial, a).Some? && x.read(x.exec(x.initial, a).value) == Reads(high)
    && high > x.initialValue && r.best.value < high
    && match x.exec(x.exec(x.initial, a).value, b) {
         case None => true
         case Some(s) => x.read(s).Reads? && x.read(s).value < high
       }
  }

  lemma TwoCalls<C(!new), S(!new)>(x: Setup<C, S>, r: Search<C, S>, a: C, b: C, high: U256) returns (events: seq<Event<C>>)
    requires HighThenLow(x, r, a, b, high)
    ensures Run(x, r, events).Some?
    ensures var q := Run(x, r, events).value;
            && |q.workers| == |r.workers| && high in q.workers[0].measured && q.corpus == r.corpus && q.best == r.best
            && Held(q.workers[0].phase) != [] && Carries(Held(q.workers[0].phase)[0], high) && Held(q.workers[0].phase)[0].interesting
            && (if x.exec(x.exec(x.initial, a).value, b).None? then q.workers[0].phase.Failed?
                else q.workers[0].phase.Executing? && q.workers[0].phase.pending == [] && |q.workers[0].phase.prefixes| == 2
                     && q.workers[0].phase.prefixes[1].reading.Reads? && q.workers[0].phase.prefixes[1].reading.value < high)
  {
    var start, first := StartFresh(0, [a, b]), Execute(0, 0, false);
    assert Run(x, r, []) == Some(r);
    RunMore(x, r, [], start);
    RunMore(x, r, [] + [start], first);
    RunMore(x, r, [] + [start] + [first], first);
    events := [] + [start] + [first] + [first];
  }

  /** The best can stay below a value that was measured, as only the last prefix is offered to it. */
  lemma BestMissesPrefix<C(!new), S(!new)>(x: Setup<C, S>, r: Search<C, S>, a: C, b: C, high: U256) returns (events: seq<Event<C>>)
    requires HighThenLow(x, r, a, b, high) && x.exec(x.exec(x.initial, a).value, b).Some?
    ensures Run(x, r, events).Some?
    ensures var q := Run(x, r, events).value;
            |q.workers| == |r.workers| && high in q.workers[0].measured && q.workers[0].phase.Keeping? && q.best.value < high
  {
    events := TwoCalls(x, r, a, b, high);
    RunMore(x, r, events, Consider(0));
    events := events + [Consider(0)];
    RunMore(x, r, events, StoreStop(0));
    events := events + [StoreStop(0)];
  }

  /** A run that fails at its second call loses the first call's value, wherever it is above the corpus. */
  lemma FailedRunLosesValue<C(!new), S(!new)>(x: Setup<C, S>, r: Search<C, S>, a: C, b: C, high: U256) returns (events: seq<Event<C>>)
    requires HighThenLow(x, r, a, b, high) && x.exec(x.exec(x.initial, a).value, b).None? && high > MaxValue(r.corpus)
    ensures Run(x, r, events).Some?
    ensures var q := Run(x, r, events).value;
            && |q.workers| == |r.workers| && q.workers[0].phase.Failed?
            && high in q.workers[0].measured && high > MaxValue(q.corpus) && high > q.best.value
  {
    events := TwoCalls(x, r, a, b, high);
  }
}
