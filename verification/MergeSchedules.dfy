/**
 Any number of threads merge their local maps into one shared map. A schedule
 picks the thread that performs the next atomic operation.
 */
module MergeSchedules {
  import opened Basics
  import opened CoverageInspector
  import opened SharedCoverage

  datatype Thread = Thread(todo: seq<Op>, update: Update)

  datatype System = System(shared: Shared, threads: seq<Thread>)

  predicate CanStep(sys: System, t: nat) {
    t < |sys.threads| && sys.threads[t].todo != [] && Safe(sys.shared, sys.threads[t].todo[0])
  }

  /** Thread `t` performs its next atomic operation and adds what it returned to its update. */
  function StepThread(sys: System, t: nat): System
    requires CanStep(sys, t)
  {
    var th := sys.threads[t];
    var op := th.todo[0];
    System(Exec(sys.shared, op),
           sys.threads[t := Thread(th.todo[1..], Plus(th.update, Gain(sys.shared, op)))])
  }

  /** Runs a schedule; a thread that has returned (or would panic) does nothing. */
  function Run(sys: System, schedule: seq<nat>): System {
    if schedule == [] then sys
    else
      var before := Run(sys, schedule[..|schedule| - 1]);
      var t := schedule[|schedule| - 1];
      if CanStep(before, t) then StepThread(before, t) else before
  }

  ghost predicate Finished(sys: System) {
    forall t :: 0 <= t < |sys.threads| ==> sys.threads[t].todo == []
  }

  /** The updates returned (so far) by all merges together. */
  function Total(threads: seq<Thread>): Update {
    if threads == [] then NoUpdate
    else Plus(Total(threads[..|threads| - 1]), threads[|threads| - 1].update)
  }

  lemma {:induction false} TotalReplace(threads: seq<Thread>, i: nat, th: Thread, gain: Update)
    requires i < |threads| && th.update == Plus(threads[i].update, gain)
    ensures Total(threads[i := th]) == Plus(Total(threads), gain)
  {
    var n := |threads| - 1;
    if i < n {
      TotalReplace(threads[..n], i, th, gain);
      assert threads[i := th][..n] == threads[..n][i := th];
    } else {
      assert threads[i := th][..n] == threads[..n];
    }
  }

  // ---- Facts promised by the remaining operations -------------------------

  ghost predicate SaidBy(ops: seq<Op>, f: Fact) {
    exists k :: 0 <= k < |ops| && Says(ops[k], f)
  }

  lemma SaidByConcat(a: seq<Op>, b: seq<Op>, f: Fact)
    ensures SaidBy(a + b, f) <==> SaidBy(a, f) || SaidBy(b, f)
  {
    if SaidBy(a, f) {
      var k :| 0 <= k < |a| && Says(a[k], f);
      assert (a + b)[k] == a[k];
    }
    if SaidBy(b, f) {
      var k :| 0 <= k < |b| && Says(b[k], f);
      assert (a + b)[|a| + k] == b[k];
    }
  }

  /** Facts an operation relies on: its contract is open, its jump entry exists. */
  predicate Needs(op: Op, f: Fact) {
    op.id == f.id && ((OnContract(op) && f.Known?) || (op.MaxJump? && f.JumpKey? && f.marker == op.marker))
  }

  ghost predicate Ready(s: Shared, ops: seq<Op>) {
    forall k, f :: 0 <= k < |ops| && Needs(ops[k], f) ==> Holds(s, f) || SaidBy(ops[..k], f)
  }

  ghost predicate AllFit(shapes: Shapes, ops: seq<Op>) {
    forall k :: 0 <= k < |ops| ==> Fits(shapes, ops[k])
  }

  lemma ReadyHeadIsSafe(shapes: Shapes, s: Shared, ops: seq<Op>)
    requires WellShaped(shapes, s) && ops != [] && Ready(s, ops) && Fits(shapes, ops[0])
    ensures Safe(s, ops[0])
  {
    var none := ops[..0];
    if OnContract(ops[0]) {
      var known := Known(ops[0].id);
      assert Needs(ops[0], known);
      assert Holds(s, known) || SaidBy(none, known);
      if ops[0].MaxJump? {
        var key := JumpKey(ops[0].id, ops[0].marker);
        assert Needs(ops[0], key);
        assert Holds(s, key) || SaidBy(none, key);
      }
    }
  }

  lemma ReadyTail(shapes: Shapes, s: Shared, ops: seq<Op>)
    requires WellShaped(shapes, s) && ops != [] && Ready(s, ops) && Fits(shapes, ops[0]) && Safe(s, ops[0])
    ensures Ready(Exec(s, ops[0]), ops[1..])
  {
    ExecFacts(shapes, s, ops[0]);
    var rest := ops[1..];
    forall k, f | 0 <= k < |rest| && Needs(rest[k], f)
      ensures Holds(Exec(s, ops[0]), f) || SaidBy(rest[..k], f)
    {
      assert rest[k] == ops[k + 1];
      assert ops[..k + 1] == [ops[0]] + rest[..k];
      SaidByConcat([ops[0]], rest[..k], f);
    }
  }

  lemma ReadyMonotone(shapes: Shapes, s: Shared, op: Op, ops: seq<Op>)
    requires WellShaped(shapes, s) && Fits(shapes, op) && Safe(s, op) && Ready(s, ops)
    ensures Ready(Exec(s, op), ops)
  {
    ExecFacts(shapes, s, op);
  }

  // ---- The inductive invariant --------------------------------------------

  ghost predicate Orderly(shapes: Shapes, sys: System) {
    && WellShaped(shapes, sys.shared)
    && (forall t :: 0 <= t < |sys.threads| ==> AllFit(shapes, sys.threads[t].todo) && Ready(sys.shared, sys.threads[t].todo))
  }

  ghost predicate Balanced(sys: System) {
    var u := Total(sys.threads);
    && u.newEdges == |HitEdges(sys.shared)|
    && u.newJumpEdges == |JumpHits(sys.shared)|
    && |DepthPcs(sys.shared)| <= u.newDepths <= |DepthBits(sys.shared)|
    && |RevertedWords(sys.shared)| <= u.newReverts <= |RevertBits(sys.shared)|
  }

  lemma StepKeepsOrder(shapes: Shapes, sys: System, t: nat)
    requires Orderly(shapes, sys) && CanStep(sys, t)
    ensures Orderly(shapes, StepThread(sys, t))
  {
    var ops := sys.threads[t].todo;
    ExecKeepsShape(shapes, sys.shared, ops[0]);
    ReadyTail(shapes, sys.shared, ops);
    forall i | 0 <= i < |sys.threads| && i != t
      ensures Ready(Exec(sys.shared, ops[0]), sys.threads[i].todo)
    {
      ReadyMonotone(shapes, sys.shared, ops[0], sys.threads[i].todo);
    }
  }

  lemma StepKeepsBalance(shapes: Shapes, sys: System, t: nat)
    requires Orderly(shapes, sys) && Balanced(sys) && CanStep(sys, t)
    ensures Balanced(StepThread(sys, t))
  {
    var s, op := sys.shared, sys.threads[t].todo[0];
    EdgeGain(shapes, s, op);
    JumpGain(shapes, s, op);
    DepthGainAtMost(shapes, s, op);
    DepthGainAtLeast(shapes, s, op);
    RevertGainAtMost(shapes, s, op);
    RevertGainAtLeast(shapes, s, op);
    TotalReplace(sys.threads, t, StepThread(sys, t).threads[t], Gain(s, op));
  }

  /** In every reachable state no pending operation panics and the discovery counts balance. */
  lemma {:induction false} RunKeepsInvariant(shapes: Shapes, sys: System, schedule: seq<nat>)
    requires Orderly(shapes, sys) && Balanced(sys)
    ensures Orderly(shapes, Run(sys, schedule)) && Balanced(Run(sys, schedule))
    ensures |Run(sys, schedule).threads| == |sys.threads|
    ensures forall t: nat :: t < |sys.threads| && Run(sys, schedule).threads[t].todo != [] ==> CanStep(Run(sys, schedule), t)
  {
    if schedule != [] {
      var before := Run(sys, schedule[..|schedule| - 1]);
      RunKeepsInvariant(shapes, sys, schedule[..|schedule| - 1]);
      var t := schedule[|schedule| - 1];
      if CanStep(before, t) {
        StepKeepsOrder(shapes, before, t);
        StepKeepsBalance(shapes, before, t);
      }
    }
    var now := Run(sys, schedule);
    forall t: nat | t < |now.threads| && now.threads[t].todo != [] ensures CanStep(now, t) {
      ReadyHeadIsSafe(shapes, now.shared, now.threads[t].todo);
    }
  }

  // ---- Nothing is lost and nothing is invented ----------------------------

  /** Raw hits recorded plus raw hits still to be added, as a wrapping 64-bit counter. */
  function RawMass(sys: System, id: CoverageId, pc: nat): nat {
    (RawAt(sys.shared, id, pc) + TotalOwed(sys.threads, id, pc)) % TWO_64
  }

  ghost predicate Promised(threads: seq<Thread>, f: Fact) {
    exists t :: 0 <= t < |threads| && SaidBy(threads[t].todo, f)
  }

  /** Facts that hold already or are still promised by some thread. */
  ghost predicate Claimed(sys: System, f: Fact) {
    Holds(sys.shared, f) || Promised(sys.threads, f)
  }

  function Owed(ops: seq<Op>, id: CoverageId, pc: nat): nat {
    if ops == [] then 0
    else
      var op := ops[|ops| - 1];
      Owed(ops[..|ops| - 1], id, pc) + if op.AddRaw? && op.id == id && op.pc == pc then op.count else 0
  }

  lemma {:induction false} OwedConcat(a: seq<Op>, b: seq<Op>, id: CoverageId, pc: nat)
    ensures Owed(a + b, id, pc) == Owed(a, id, pc) + Owed(b, id, pc)
  {
    if b == [] {
      assert a + b == a;
    } else {
      OwedConcat(a, b[..|b| - 1], id, pc);
      assert (a + b)[..|a + b| - 1] == a + b[..|b| - 1];
    }
  }

  function TotalOwed(threads: seq<Thread>, id: CoverageId, pc: nat): nat {
    if threads == [] then 0
    else TotalOwed(threads[..|threads| - 1], id, pc) + Owed(threads[|threads| - 1].todo, id, pc)
  }

  lemma {:induction false} TotalOwedReplace(threads: seq<Thread>, i: nat, th: Thread, id: CoverageId, pc: nat)
    requires i < |threads|
    ensures TotalOwed(threads[i := th], id, pc) + Owed(threads[i].todo, id, pc)
         == TotalOwed(threads, id, pc) + Owed(th.todo, id, pc)
  {
    var n := |threads| - 1;
    if i < n {
      TotalOwedReplace(threads[..n], i, th, id, pc);
      assert threads[i := th][..n] == threads[..n][i := th];
    } else {
      assert threads[i := th][..n] == threads[..n];
    }
  }

  function RawAt(s: Shared, id: CoverageId, pc: nat): nat {
    if id in s.contracts && pc < |s.contracts[id].rawEdges| then s.contracts[id].rawEdges[pc] else 0
  }

  lemma PromisedReplace(threads: seq<Thread>, i: nat, th: Thread, f: Fact)
    requires i < |threads| && threads[i].todo != [] && th.todo == threads[i].todo[1..]
    ensures Promised(threads, f) <==> Says(threads[i].todo[0], f) || Promised(threads[i := th], f)
  {
    var ops := threads[i].todo;
    var after := threads[i := th];
    assert ops == [ops[0]] + ops[1..];
    SaidByConcat([ops[0]], ops[1..], f);
    assert [ops[0]][0] == ops[0];
    assert SaidBy([ops[0]], f) <==> Says(ops[0], f);
    if Promised(threads, f) && !Says(ops[0], f) {
      var t :| 0 <= t < |threads| && SaidBy(threads[t].todo, f);
      assert SaidBy(after[t].todo, f);
    }
    if Promised(after, f) {
      var t :| 0 <= t < |after| && SaidBy(after[t].todo, f);
      assert SaidBy(threads[t].todo, f);
    }
    if Says(ops[0], f) {
      assert SaidBy(threads[i].todo, f);
    }
  }

  lemma StepKeepsClaims(shapes: Shapes, sys: System, t: nat, f: Fact)
    requires Orderly(shapes, sys) && CanStep(sys, t)
    ensures Claimed(StepThread(sys, t), f) <==> Claimed(sys, f)
  {
    ExecFact(shapes, sys.shared, sys.threads[t].todo[0], f);
    PromisedReplace(sys.threads, t, StepThread(sys, t).threads[t], f);
  }

  lemma MassArithmetic(raw: nat, raw': nat, owed: nat, owed': nat, count: nat)
    requires (raw' == raw && count == 0) || raw' == (raw + count) % TWO_64
    requires owed == owed' + count
    ensures (raw' + owed') % TWO_64 == (raw + owed) % TWO_64
  {}

  lemma RawStep(shapes: Shapes, s: Shared, op: Op, id: CoverageId, pc: nat)
    requires WellShaped(shapes, s) && Fits(shapes, op) && Safe(s, op)
    ensures RawAt(Exec(s, op), id, pc)
         == if op.AddRaw? && op.id == id && op.pc == pc then (RawAt(s, id, pc) + op.count) % TWO_64 else RawAt(s, id, pc)
  {
    if op.id == id && OnContract(op) {
      var c := s.contracts[id];
      assert ExecIn(c, op).rawEdges == if op.AddRaw? then c.rawEdges[op.pc := (c.rawEdges[op.pc] + op.count) % TWO_64] else c.rawEdges;
    }
  }

  lemma OwedHead(ops: seq<Op>, id: CoverageId, pc: nat)
    requires ops != []
    ensures Owed(ops, id, pc) == Owed(ops[1..], id, pc)
                                 + if ops[0].AddRaw? && ops[0].id == id && ops[0].pc == pc then ops[0].count else 0
  {
    assert ops == [ops[0]] + ops[1..];
    OwedConcat([ops[0]], ops[1..], id, pc);
    assert [ops[0]][..0] == [];
  }

  /** What one step adds to a raw counter it takes from the owed total. */
  lemma RawMoves(shapes: Shapes, sys: System, t: nat, id: CoverageId, pc: nat) returns (count: nat)
    requires WellShaped(shapes, sys.shared) && CanStep(sys, t) && Fits(shapes, sys.threads[t].todo[0])
    ensures var raw, raw' := RawAt(sys.shared, id, pc), RawAt(StepThread(sys, t).shared, id, pc);
            (raw' == raw && count == 0) || raw' == (raw + count) % TWO_64
    ensures TotalOwed(sys.threads, id, pc) == TotalOwed(StepThread(sys, t).threads, id, pc) + count
  {
    var op, th := sys.threads[t].todo[0], StepThread(sys, t).threads[t];
    assert StepThread(sys, t).shared == Exec(sys.shared, op);
    assert th.todo == sys.threads[t].todo[1..] && StepThread(sys, t).threads == sys.threads[t := th];
    count := if op.AddRaw? && op.id == id && op.pc == pc then op.count else 0;
    RawStep(shapes, sys.shared, op, id, pc);
    OwedHead(sys.threads[t].todo, id, pc);
    TotalOwedReplace(sys.threads, t, th, id, pc);
  }

  lemma StepKeepsRaw(shapes: Shapes, sys: System, t: nat, id: CoverageId, pc: nat)
    requires WellShaped(shapes, sys.shared) && CanStep(sys, t) && Fits(shapes, sys.threads[t].todo[0])
    ensures RawMass(StepThread(sys, t), id, pc) == RawMass(sys, id, pc)
  {
    var count := RawMoves(shapes, sys, t, id, pc);
    var sys' := StepThread(sys, t);
    MassArithmetic(RawAt(sys.shared, id, pc), RawAt(sys'.shared, id, pc),
                   TotalOwed(sys.threads, id, pc), TotalOwed(sys'.threads, id, pc), count);
  }

  /** Whatever the schedule does, claims and owed raw counts stay what they were at the start. */
  lemma {:induction false} RunConserves(shapes: Shapes, sys: System, schedule: seq<nat>, f: Fact, id: CoverageId, pc: nat)
    requires Orderly(shapes, sys) && Balanced(sys)
    ensures Claimed(Run(sys, schedule), f) <==> Claimed(sys, f)
    ensures RawMass(Run(sys, schedule), id, pc) == RawMass(sys, id, pc)
  {
    if schedule != [] {
      var prefix := schedule[..|schedule| - 1];
      var t := schedule[|schedule| - 1];
      RunConserves(shapes, sys, prefix, f, id, pc);
      RunKeepsInvariant(shapes, sys, prefix);
      if CanStep(Run(sys, prefix), t) {
        StepKeepsClaims(shapes, Run(sys, prefix), t, f);
        StepKeepsRaw(shapes, Run(sys, prefix), t, id, pc);
      }
    }
  }

  // ---- Every merge can return -----------------------------------------------

  function Remaining(threads: seq<Thread>): nat {
    if threads == [] then 0 else Remaining(threads[..|threads| - 1]) + |threads[|threads| - 1].todo|
  }

  lemma {:induction false} RemainingReplace(threads: seq<Thread>, i: nat, th: Thread)
    requires i < |threads|
    ensures Remaining(threads[i := th]) + |threads[i].todo| == Remaining(threads) + |th.todo|
  {
    var n := |threads| - 1;
    if i < n {
      RemainingReplace(threads[..n], i, th);
      assert threads[i := th][..n] == threads[..n][i := th];
    } else {
      assert threads[i := th][..n] == threads[..n];
    }
  }

  /** Lock-freedom: from any reachable state some continuation of the schedule lets every merge return. */
  lemma {:induction false} SomeScheduleFinishes(shapes: Shapes, sys: System, prefix: seq<nat>) returns (schedule: seq<nat>)
    requires Orderly(shapes, sys) && Balanced(sys)
    ensures prefix <= schedule && Finished(Run(sys, schedule))
    decreases Remaining(Run(sys, prefix).threads)
  {
    var now := Run(sys, prefix);
    RunKeepsInvariant(shapes, sys, prefix);
    if Finished(now) {
      schedule := prefix;
    } else {
      var t: nat :| t < |now.threads| && now.threads[t].todo != [];
      var next := prefix + [t];
      assert next[..|prefix|] == prefix;
      assert CanStep(now, t);
      RemainingReplace(now.threads, t, StepThread(now, t).threads[t]);
      schedule := SomeScheduleFinishes(shapes, sys, next);
    }
  }
}
