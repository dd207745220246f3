/** The shared map as an object: the body of `merge`, statement by statement, and the counters. */
module CoverageMap {
  import opened Basics
  import opened CoverageInspector
  import opened SharedCoverage
  import opened MergeSchedules
  import opened MergePrograms
  import opened MergeResults

  /** The shared map together with the merging thread's update so far. */
  datatype Outcome = Outcome(shared: Shared, update: Update)

  function Then(o: Outcome, op: Op): Outcome {
    if Safe(o.shared, op) then Outcome(Exec(o.shared, op), Plus(o.update, Gain(o.shared, op))) else o
  }

  /** One thread running a list of operations without interference. */
  function Solo(o: Outcome, ops: seq<Op>): Outcome {
    if ops == [] then o
    else Then(Solo(o, ops[..|ops| - 1]), ops[|ops| - 1])
  }

  function Alone(s: Shared, ops: seq<Op>): Outcome {
    Solo(Outcome(s, NoUpdate), ops)
  }

  lemma SoloLast(o: Outcome, ops: seq<Op>, op: Op)
    ensures Solo(o, ops + [op]) == Then(Solo(o, ops), op)
  {
    assert (ops + [op])[..|ops|] == ops;
  }

  lemma SoloOne(o: Outcome, op: Op)
    ensures Solo(o, [op]) == Then(o, op)
  {
    SoloLast(o, [], op);
    assert [] + [op] == [op];
  }

  lemma SoloTwo(o: Outcome, ops: seq<Op>, one: Op, two: Op)
    ensures Solo(o, ops + [one, two]) == Then(Then(Solo(o, ops), one), two)
  {
    calc {
      Solo(o, ops + [one, two]);
      { assert ops + [one, two] == ops + [one] + [two]; }
      Solo(o, ops + [one] + [two]);
      { SoloLast(o, ops + [one], two); }
      Then(Solo(o, ops + [one]), two);
      { SoloLast(o, ops, one); }
      Then(Then(Solo(o, ops), one), two);
    }
  }

  lemma {:induction false} SoloConcat(o: Outcome, a: seq<Op>, b: seq<Op>)
    ensures Solo(o, a + b) == Solo(Solo(o, a), b)
  {
    if |b| == 0 {
      assert b == [] && a + b == a;
    } else {
      var b', op := b[..|b| - 1], b[|b| - 1];
      SoloConcat(o, a, b');
      SoloLast(o, a + b', op);
      assert a + b == a + b' + [op];
    }
  }

  // ---- An update is interesting exactly when the map learned something ------

  /** The facts that count as coverage: edges, depths, reverts and jumps of runtime contracts. */
  predicate Counted(f: Fact) {
    !f.id.Initcode? && (f.Hit? || f.DepthBit? || f.RevertBit? || f.JumpHit?)
  }

  ghost predicate Learned(s: Shared, t: Shared) {
    exists f :: Counted(f) && Holds(t, f) && !Holds(s, f)
  }

  lemma GainIsNews(shapes: Shapes, s: Shared, op: Op)
    requires WellShaped(shapes, s) && Fits(shapes, op) && Safe(s, op)
    ensures IsInteresting(Gain(s, op)) <==> exists f :: Counted(f) && Says(op, f) && !Holds(s, f)
  {
    match op
    case MaxEdge(id, pc, _) => assert Says(op, Hit(id, pc));
    case MaxJump(id, m, _) => assert Says(op, JumpHit(id, m));
    case OrDepth(id, pc, bits, _) =>
      if IsInteresting(Gain(s, op)) {
        var bit :| bit in bits - s.contracts[id].depths[pc];
        assert Says(op, DepthBit(id, pc, bit)) && !Holds(s, DepthBit(id, pc, bit));
      }
      if f :| Counted(f) && Says(op, f) && !Holds(s, f) {
        assert f.bit in bits - s.contracts[id].depths[pc];
      }
    case OrRevert(id, w, bits, _) =>
      if IsInteresting(Gain(s, op)) {
        var bit :| bit in bits - s.contracts[id].reverts[w];
        assert Says(op, RevertBit(id, w, bit)) && !Holds(s, RevertBit(id, w, bit));
      }
      if f :| Counted(f) && Says(op, f) && !Holds(s, f) {
        assert f.bit in bits - s.contracts[id].reverts[w];
      }
    case _ =>
  }

  /** Running ready operations alone never panics and adds exactly what they say. */
  lemma {:induction false} SoloFacts(shapes: Shapes, s: Shared, ops: seq<Op>)
    requires WellShaped(shapes, s) && AllFit(shapes, ops) && Ready(s, ops)
    ensures WellShaped(shapes, Alone(s, ops).shared)
    ensures forall f :: Holds(Alone(s, ops).shared, f) <==> Holds(s, f) || SaidBy(ops, f)
    ensures |ops| > 0 ==> Safe(Alone(s, ops[..|ops| - 1]).shared, ops[|ops| - 1])
  {
    if |ops| == 0 {
      assert ops == [];
    } else {
      var before, op := ops[..|ops| - 1], ops[|ops| - 1];
      PrefixIsReady(s, ops, |ops| - 1);
      SoloFacts(shapes, s, before);
      var t := Alone(s, before).shared;
      LastIsSafe(shapes, s, t, ops);
      ExecFacts(shapes, t, op);
      forall f ensures SaidBy(ops, f) <==> SaidBy(before, f) || Says(op, f) {
        assert ops == before + [op];
        SaidByConcat(before, [op], f);
        SaidBySingleton(op, f);
      }
    }
  }

  lemma PrefixIsReady(s: Shared, ops: seq<Op>, n: nat)
    requires Ready(s, ops) && n <= |ops|
    ensures Ready(s, ops[..n])
  {
    forall k, f | 0 <= k < n && Needs(ops[..n][k], f) ensures Holds(s, f) || SaidBy(ops[..n][..k], f) {
      assert ops[..n][..k] == ops[..k] && ops[..n][k] == ops[k];
    }
  }

  lemma LastIsSafe(shapes: Shapes, s: Shared, t: Shared, ops: seq<Op>)
    requires |ops| > 0 && Ready(s, ops) && AllFit(shapes, ops) && WellShaped(shapes, t)
    requires forall f :: Holds(t, f) <==> Holds(s, f) || SaidBy(ops[..|ops| - 1], f)
    ensures Safe(t, ops[|ops| - 1])
  {
    var op := ops[|ops| - 1];
    if OnContract(op) {
      assert Needs(op, Known(op.id));
      assert Holds(t, Known(op.id));
      if op.MaxJump? {
        assert Needs(op, JumpKey(op.id, op.marker));
        assert Holds(t, JumpKey(op.id, op.marker));
      }
    }
  }

  /** Running alone is the schedule that always picks the only thread. */
  lemma {:induction false} AloneIsOneThread(shapes: Shapes, s: Shared, ops: seq<Op>, k: nat)
    requires WellShaped(shapes, s) && AllFit(shapes, ops) && Ready(s, ops) && k <= |ops|
    ensures var end := Run(System(s, [Thread(ops, NoUpdate)]), seq(k, _ => 0));
            && |end.threads| == 1 && end.threads[0].todo == ops[k..]
            && Outcome(end.shared, end.threads[0].update) == Alone(s, ops[..k])
  {
    if k > 0 {
      var sys := System(s, [Thread(ops, NoUpdate)]);
      AloneIsOneThread(shapes, s, ops, k - 1);
      var schedule: seq<nat> := seq(k, _ => 0);
      assert schedule[..k - 1] == seq(k - 1, _ => 0);
      PrefixIsReady(s, ops, k);
      SoloFacts(shapes, s, ops[..k]);
      assert ops[..k][..k - 1] == ops[..k - 1];
    }
  }

  // ---- Among other merges -----------------------------------------------------

  /** Step `k` of the schedule was thread `t`'s, and the map gained runtime coverage in it. */
  ghost predicate Taught(sys: System, schedule: seq<nat>, t: nat, k: nat) {
    k < |schedule| && schedule[k] == t && Learned(Run(sys, schedule[..k]).shared, Run(sys, schedule[..k + 1]).shared)
  }

  ghost predicate EverTaught(sys: System, schedule: seq<nat>, t: nat) {
    exists k: nat :: Taught(sys, schedule, t, k)
  }

  lemma OneStepTeaches(shapes: Shapes, s: Shared, op: Op)
    requires WellShaped(shapes, s) && Fits(shapes, op) && Safe(s, op)
    ensures IsInteresting(Gain(s, op)) <==> Learned(s, Exec(s, op))
  {
    GainIsNews(shapes, s, op);
    ExecFacts(shapes, s, op);
    if f :| Counted(f) && Says(op, f) && !Holds(s, f) {
      assert Holds(Exec(s, op), f);
    }
  }

  lemma TaughtInPrefix(sys: System, schedule: seq<nat>, n: nat, t: nat, k: nat)
    requires k < n <= |schedule|
    ensures Taught(sys, schedule[..n], t, k) <==> Taught(sys, schedule, t, k)
  {
    assert schedule[..n][..k] == schedule[..k] && schedule[..n][..k + 1] == schedule[..k + 1];
  }

  lemma TaughtExtends(sys: System, schedule: seq<nat>, t: nat)
    requires |schedule| > 0
    ensures EverTaught(sys, schedule, t)
       <==> EverTaught(sys, schedule[..|schedule| - 1], t) || Taught(sys, schedule, t, |schedule| - 1)
  {
    var n := |schedule| - 1;
    if EverTaught(sys, schedule, t) {
      var k: nat :| Taught(sys, schedule, t, k);
      if k < n {
        TaughtInPrefix(sys, schedule, n, t, k);
      }
    }
    if EverTaught(sys, schedule[..n], t) {
      var k: nat :| Taught(sys, schedule[..n], t, k);
      TaughtInPrefix(sys, schedule, n, t, k);
    }
  }

  lemma LastStepTeaches(shapes: Shapes, sys: System, t: nat, u: nat)
    requires Orderly(shapes, sys) && t < |sys.threads| && CanStep(sys, u)
    ensures IsInteresting(StepThread(sys, u).threads[t].update)
       <==> IsInteresting(sys.threads[t].update) || (u == t && Learned(sys.shared, StepThread(sys, u).shared))
  {
    OneStepTeaches(shapes, sys.shared, sys.threads[u].todo[0]);
  }

  lemma {:induction false} UpdateSaysTaught(shapes: Shapes, sys: System, schedule: seq<nat>, t: nat)
    requires Orderly(shapes, sys) && Balanced(sys) && t < |sys.threads| && sys.threads[t].update == NoUpdate
    ensures t < |Run(sys, schedule).threads|
    ensures IsInteresting(Run(sys, schedule).threads[t].update) <==> EverTaught(sys, schedule, t)
  {
    if |schedule| == 0 {
      assert schedule == [];
    } else {
      var n := |schedule| - 1;
      var before := Run(sys, schedule[..n]);
      UpdateSaysTaught(shapes, sys, schedule[..n], t);
      RunKeepsInvariant(shapes, sys, schedule[..n]);
      TaughtExtends(sys, schedule, t);
      assert schedule[..n + 1] == schedule;
      if CanStep(before, schedule[n]) {
        LastStepTeaches(shapes, before, t, schedule[n]);
      }
    }
  }

  /** In any schedule of concurrent merges, one merge's update is interesting exactly when one of its own steps taught the map something. */
  lemma ThreadInterestingIffTaught(shapes: Shapes, locals: seq<seq<Item>>, schedule: seq<nat>, t: nat)
    requires LocalMaps(shapes, locals) && t < |locals|
    ensures t < |Run(Merging(shapes, locals), schedule).threads|
    ensures IsInteresting(Run(Merging(shapes, locals), schedule).threads[t].update)
       <==> EverTaught(Merging(shapes, locals), schedule, t)
  {
    MergingIsOrderly(shapes, locals);
    UpdateSaysTaught(shapes, Merging(shapes, locals), schedule, t);
  }

  // ---- The object -----------------------------------------------------------

  /** Contract `it` is present and its arrays have the sizes of the local ones. */
  predicate Opened(s: Shared, it: Item) {
    it.id in s.contracts &&
    var c := s.contracts[it.id];
    |c.edges| == |c.rawEdges| == |it.c.edges| && |c.depths| == |it.c.depths|
  }

  lemma StillOpened(s: Shared, it: Item)
    requires it.id in s.contracts ==> Opened(s, it)
    requires |it.c.depths| == DepthLen(|it.c.edges|)
    ensures Opened(Exec(s, Open(it.id, |it.c.edges|, it.c.isInitcode)), it)
  {}

  lemma SoloHeader(o: Outcome, it: Item)
    ensures var open := Then(o, Open(it.id, |it.c.edges|, it.c.isInitcode));
            Solo(o, Header(it)) == if it.c.bytecode == [] then open else Then(open, StoreCode(it.id, it.c.bytecode))
  {
    var open, store := Open(it.id, |it.c.edges|, it.c.isInitcode), StoreCode(it.id, it.c.bytecode);
    SoloOne(o, open);
    if it.c.bytecode != [] {
      SoloLast(o, [open], store);
      assert [open] + [store] == Header(it);
    } else {
      assert [open] + [] == [open];
      assert [open] == Header(it);
    }
  }

  /** The five phases of one contract, one after the other. */
  lemma SoloItem(o: Outcome, it: Item)
    requires Indexed(it)
    ensures var o1 := Solo(o, Header(it));
            var o2 := Solo(o1, EdgeOps(it, |it.c.hitPcs|));
            var o3 := Solo(o2, DepthOps(it, |it.c.hitDepths|));
            var o4 := Solo(o3, RevertOps(it, |it.c.hitReverts|));
            Solo(o, ItemOps(it)) == Solo(o4, JumpOps(it, |it.markers|))
  {
    var h, a, b, c, d := Header(it), EdgeOps(it, |it.c.hitPcs|), DepthOps(it, |it.c.hitDepths|),
                         RevertOps(it, |it.c.hitReverts|), JumpOps(it, |it.markers|);
    SoloConcat(o, h, a);
    SoloConcat(o, h + a, b);
    SoloConcat(o, h + a + b, c);
    SoloConcat(o, h + a + b + c, d);
  }

  lemma ItemKeepsShape(shapes: Shapes, o: Outcome, it: Item)
    requires WellShaped(shapes, o.shared) && ItemOk(it) && Indexed(it) && Agrees(shapes, it)
    ensures WellShaped(shapes, Solo(o, ItemOps(it)).shared)
  {
    ItemOpsFit(shapes, it);
    ItemOpsReady(o.shared, it);
    SoloFacts(shapes, o.shared, ItemOps(it));
    UpdateIsPassive(o, ItemOps(it));
  }

  /** The update never influences the shared map. */
  lemma {:induction false} UpdateIsPassive(o: Outcome, ops: seq<Op>)
    ensures Solo(o, ops).shared == Alone(o.shared, ops).shared
  {
    if |ops| == 0 {
      assert ops == [];
    } else {
      UpdateIsPassive(o, ops[..|ops| - 1]);
    }
  }

  lemma SoloEdge(o: Outcome, it: Item, k: nat)
    requires Indexed(it) && k < |it.c.hitPcs|
    ensures var pc, before := it.c.hitPcs[k], Solo(o, EdgeOps(it, k));
            Solo(o, EdgeOps(it, k + 1))
            == Then(Then(before, MaxEdge(it.id, pc, it.c.isInitcode)), AddRaw(it.id, pc, it.c.edges[pc]))
  {
    var pc := it.c.hitPcs[k];
    SoloTwo(o, EdgeOps(it, k), MaxEdge(it.id, pc, it.c.isInitcode), AddRaw(it.id, pc, it.c.edges[pc]));
  }

  lemma SoloJump(o: Outcome, it: Item, k: nat)
    requires Indexed(it) && k < |it.markers|
    ensures var m, before := it.markers[k], Solo(o, JumpOps(it, k));
            Solo(o, JumpOps(it, k + 1)) == if it.c.jumpEdges[m] == 0 then before
                                           else Then(Then(before, OpenJump(it.id, m)), MaxJump(it.id, m, it.c.isInitcode))
  {
    var m := it.markers[k];
    if it.c.jumpEdges[m] == 0 {
      assert JumpOps(it, k + 1) == JumpOps(it, k);
    } else {
      SoloTwo(o, JumpOps(it, k), OpenJump(it.id, m), MaxJump(it.id, m, it.c.isInitcode));
    }
  }

  class SharedCoverageMap {
    var inner: Shared

    constructor ()
      ensures inner == Empty
    {
      inner := Empty;
    }

    method MergeEdge(it: Item, pc: nat, update: Update) returns (update': Update)
      requires Opened(inner, it) && pc < |it.c.edges|
      modifies this
      ensures Opened(inner, it)
      ensures Outcome(inner, update')
           == Then(Then(Outcome(old(inner), update), MaxEdge(it.id, pc, it.c.isInitcode)), AddRaw(it.id, pc, it.c.edges[pc]))
    {
      var c := inner.contracts[it.id];
      var prev := c.edges[pc];
      inner := inner.(contracts := inner.contracts[it.id := c.(edges := c.edges[pc := Max(prev, 1)])]);
      c := inner.contracts[it.id];
      inner := inner.(contracts :=
        inner.contracts[it.id := c.(rawEdges := c.rawEdges[pc := (c.rawEdges[pc] + it.c.edges[pc]) % TWO_64])]);
      update' := if !it.c.isInitcode && prev == 0 then update.(newEdges := update.newEdges + 1) else update;
    }

    method MergeEdges(it: Item, update: Update) returns (update': Update)
      requires Opened(inner, it) && Indexed(it)
      modifies this
      ensures Opened(inner, it)
      ensures Outcome(inner, update') == Solo(Outcome(old(inner), update), EdgeOps(it, |it.c.hitPcs|))
    {
      update' := update;
      ghost var start := Outcome(inner, update);
      for k := 0 to |it.c.hitPcs|
        invariant Opened(inner, it)
        invariant Outcome(inner, update') == Solo(start, EdgeOps(it, k))
      {
        var pc := it.c.hitPcs[k];
        SoloEdge(start, it, k);
        update' := MergeEdge(it, pc, update');
      }
    }

    method MergeDepth(it: Item, pc: nat, update: Update) returns (update': Update)
      requires Opened(inner, it) && pc < |it.c.depths|
      modifies this
      ensures Opened(inner, it)
      ensures Outcome(inner, update') == Then(Outcome(old(inner), update), OrDepth(it.id, pc, it.c.depths[pc], it.c.isInitcode))
    {
      var c, localDepth := inner.contracts[it.id], it.c.depths[pc];
      var prev := c.depths[pc];
      inner := inner.(contracts := inner.contracts[it.id := c.(depths := c.depths[pc := prev + localDepth])]);
      var newBits := localDepth - prev;
      update' := if !it.c.isInitcode && newBits != {} then update.(newDepths := update.newDepths + 1) else update;
    }

    method MergeDepths(it: Item, update: Update) returns (update': Update)
      requires Opened(inner, it) && Indexed(it)
      modifies this
      ensures Opened(inner, it)
      ensures Outcome(inner, update') == Solo(Outcome(old(inner), update), DepthOps(it, |it.c.hitDepths|))
    {
      update' := update;
      ghost var start := Outcome(inner, update);
      for k := 0 to |it.c.hitDepths|
        invariant Opened(inner, it)
        invariant Outcome(inner, update') == Solo(start, DepthOps(it, k))
      {
        var pc := it.c.hitDepths[k];
        SoloLast(start, DepthOps(it, k), OrDepth(it.id, pc, it.c.depths[pc], it.c.isInitcode));
        update' := MergeDepth(it, pc, update');
      }
    }

    method MergeRevert(it: Item, w: nat, update: Update) returns (update': Update)
      requires Opened(inner, it) && w < |it.c.reverts|
      modifies this
      ensures Opened(inner, it)
      ensures Outcome(inner, update') == Then(Outcome(old(inner), update), OrRevert(it.id, w, it.c.reverts[w], it.c.isInitcode))
    {
      var c, localRev := inner.contracts[it.id], it.c.reverts[w];
      update' := update;
      if w >= |c.reverts| || localRev == {} {
        assert inner.contracts[it.id := c] == inner.contracts;
        return;
      }
      var prev := c.reverts[w];
      inner := inner.(contracts := inner.contracts[it.id := c.(reverts := c.reverts[w := prev + localRev])]);
      var newBits := localRev - prev;
      if !it.c.isInitcode && newBits != {} {
        update' := update.(newReverts := update.newReverts + 1);
      }
    }

    method MergeReverts(it: Item, update: Update) returns (update': Update)
      requires Opened(inner, it) && Indexed(it)
      modifies this
      ensures Opened(inner, it)
      ensures Outcome(inner, update') == Solo(Outcome(old(inner), update), RevertOps(it, |it.c.hitReverts|))
    {
      update' := update;
      ghost var start := Outcome(inner, update);
      for k := 0 to |it.c.hitReverts|
        invariant Opened(inner, it)
        invariant Outcome(inner, update') == Solo(start, RevertOps(it, k))
      {
        var w := it.c.hitReverts[k];
        SoloLast(start, RevertOps(it, k), OrRevert(it.id, w, it.c.reverts[w], it.c.isInitcode));
        update' := MergeRevert(it, w, update');
      }
    }

    method MergeJump(it: Item, m: nat, update: Update) returns (update': Update)
      requires Opened(inner, it)
      modifies this
      ensures Opened(inner, it)
      ensures Outcome(inner, update')
           == Then(Then(Outcome(old(inner), update), OpenJump(it.id, m)), MaxJump(it.id, m, it.c.isInitcode))
    {
      GetOrInsertJump(it.id, m);
      var c := inner.contracts[it.id];
      var prev := c.jumpEdges[m];
      inner := inner.(contracts := inner.contracts[it.id := c.(jumpEdges := c.jumpEdges[m := Max(prev, 1)])]);
      update' := if !it.c.isInitcode && prev == 0 then update.(newJumpEdges := update.newJumpEdges + 1) else update;
    }

    method GetOrInsertJump(id: CoverageId, m: nat)
      requires id in inner.contracts
      modifies this
      ensures inner == Exec(old(inner), OpenJump(id, m))
    {
      var c := inner.contracts[id];
      if m !in c.jumpEdges {
        inner := inner.(contracts := inner.contracts[id := c.(jumpEdges := c.jumpEdges[m := 0])]);
      } else {
        assert inner.contracts[id := c] == inner.contracts;
      }
    }

    method MergeJumps(it: Item, update: Update) returns (update': Update)
      requires Opened(inner, it) && Indexed(it)
      modifies this
      ensures Opened(inner, it)
      ensures Outcome(inner, update') == Solo(Outcome(old(inner), update), JumpOps(it, |it.markers|))
    {
      update' := update;
      ghost var start := Outcome(inner, update);
      for k := 0 to |it.markers|
        invariant Opened(inner, it)
        invariant Outcome(inner, update') == Solo(start, JumpOps(it, k))
      {
        var m := it.markers[k];
        SoloJump(start, it, k);
        if it.c.jumpEdges[m] != 0 {
          update' := MergeJump(it, m, update');
        }
      }
    }

    method OpenContract(it: Item, update: Update)
      requires it.id in inner.contracts ==> Opened(inner, it)
      requires |it.c.depths| == DepthLen(|it.c.edges|)
      modifies this
      ensures Opened(inner, it)
      ensures Outcome(inner, update) == Solo(Outcome(old(inner), update), Header(it))
    {
      SoloHeader(Outcome(inner, update), it);
      StillOpened(inner, it);
      if it.id !in inner.contracts {
        inner := inner.(contracts := inner.contracts[it.id := NewShared(|it.c.edges|, it.c.isInitcode)]);
      }
      if it.c.bytecode != [] && it.id !in inner.bytecodes {
        inner := inner.(bytecodes := inner.bytecodes[it.id := it.c.bytecode]);
      }
    }

    method MergeContract(ghost shapes: Shapes, it: Item, update: Update) returns (update': Update)
      requires WellShaped(shapes, inner) && ItemOk(it) && Indexed(it) && Agrees(shapes, it)
      modifies this
      ensures Outcome(inner, update') == Solo(Outcome(old(inner), update), ItemOps(it))
    {
      SoloItem(Outcome(inner, update), it);
      OpenContract(it, update);
      update' := MergeEdges(it, update);
      update' := MergeDepths(it, update');
      update' := MergeReverts(it, update');
      update' := MergeJumps(it, update');
    }

    /** `merge`: afterwards the map and the returned update are those of running the merge's program alone. */
    method Merge(ghost shapes: Shapes, items: seq<Item>) returns (update: Update)
      requires WellShaped(shapes, inner) && LocalMap(shapes, items)
      modifies this
      ensures Outcome(inner, update) == Alone(old(inner), Program(items))
      ensures WellShaped(shapes, inner)
    {
      update := NoUpdate;
      ghost var start := Outcome(inner, NoUpdate);
      for k := 0 to |items|
        invariant WellShaped(shapes, inner)
        invariant Outcome(inner, update) == Solo(start, Program(items[..k]))
      {
        assert items[k] in items;
        SoloConcat(start, Program(items[..k]), ItemOps(items[k]));
        assert items[..k + 1][..k] == items[..k];
        ItemKeepsShape(shapes, Outcome(inner, update), items[k]);
        update := MergeContract(shapes, items[k], update);
      }
      assert items[..|items|] == items;
    }

    // ---- Counters: folds over the contracts in any order --------------------

    method EdgeCount() returns (count: nat)
      ensures count == |HitEdges(inner)|
    {
      count := 0;
      var rest := inner.contracts.Keys;
      ghost var all := HitEdges(inner);
      NoIds(all);
      while rest != {}
        invariant rest <= inner.contracts.Keys
        invariant count == |OfIds(all, inner.contracts.Keys - rest)|
      {
        var id :| id in rest;
        var c := inner.contracts[id];
        ghost var done := inner.contracts.Keys - rest;
        SplitById(all, done, id);
        assert inner.contracts.Keys - (rest - {id}) == done + {id};
        rest := rest - {id};
        if !c.isInitcode {
          var hits := CountHits(id, c);
          assert OfIds(all, {id}) == set pc | 0 <= pc < |c.edges| && c.edges[pc] != 0 :: Hit(id, pc);
          count := count + hits;
        } else {
          assert OfIds(all, {id}) == {};
        }
      }
      assert OfIds(all, inner.contracts.Keys - rest) == all;
    }

    method JumpCount() returns (count: nat)
      ensures count == |JumpKeys(inner)|
    {
      count := 0;
      var rest := inner.contracts.Keys;
      ghost var all := JumpKeys(inner);
      NoIds(all);
      while rest != {}
        invariant rest <= inner.contracts.Keys
        invariant count == |OfIds(all, inner.contracts.Keys - rest)|
      {
        var id :| id in rest;
        var c := inner.contracts[id];
        ghost var done := inner.contracts.Keys - rest;
        SplitById(all, done, id);
        assert inner.contracts.Keys - (rest - {id}) == done + {id};
        rest := rest - {id};
        OwnJumpKeys(inner, id);
        if !c.isInitcode {
          count := count + |c.jumpEdges|;
        }
      }
      assert OfIds(all, inner.contracts.Keys - rest) == all;
    }

    method DepthCount() returns (count: nat)
      ensures count == |DepthBits(inner)|
    {
      count := 0;
      var rest := inner.contracts.Keys;
      ghost var all := DepthBits(inner);
      NoIds(all);
      while rest != {}
        invariant rest <= inner.contracts.Keys
        invariant count == |OfIds(all, inner.contracts.Keys - rest)|
      {
        var id :| id in rest;
        var c := inner.contracts[id];
        ghost var done := inner.contracts.Keys - rest;
        SplitById(all, done, id);
        assert inner.contracts.Keys - (rest - {id}) == done + {id};
        rest := rest - {id};
        if !c.isInitcode {
          var bits := CountBits(id, c);
          assert OfIds(all, {id}) == BitsBelow(id, c, |c.depths|);
          count := count + bits;
        } else {
          assert OfIds(all, {id}) == {};
        }
      }
      assert OfIds(all, inner.contracts.Keys - rest) == all;
    }
  }

  method CountHits(ghost id: CoverageId, c: Contract) returns (count: nat)
    ensures count == |set pc | 0 <= pc < |c.edges| && c.edges[pc] != 0 :: Hit(id, pc)|
  {
    count := 0;
    for pc := 0 to |c.edges|
      invariant count == |set p | 0 <= p < pc && c.edges[p] != 0 :: Hit(id, p)|
    {
      assert (set p | 0 <= p < pc + 1 && c.edges[p] != 0 :: Hit(id, p))
          == (set p | 0 <= p < pc && c.edges[p] != 0 :: Hit(id, p)) + if c.edges[pc] != 0 then {Hit(id, pc)} else {};
      if c.edges[pc] != 0 {
        count := count + 1;
      }
    }
  }

  ghost function BitsBelow(id: CoverageId, c: Contract, n: nat): set<Fact>
    requires n <= |c.depths|
  {
    set pc, bit | 0 <= pc < n && bit in c.depths[pc] :: DepthBit(id, pc, bit)
  }

  method CountBits(ghost id: CoverageId, c: Contract) returns (count: nat)
    ensures count == |BitsBelow(id, c, |c.depths|)|
  {
    count := 0;
    for pc := 0 to |c.depths|
      invariant count == |BitsBelow(id, c, pc)|
    {
      BitsOfWord(id, pc, c.depths[pc]);
      ghost var own := set bit | bit in c.depths[pc] :: DepthBit(id, pc, bit);
      assert BitsBelow(id, c, pc + 1) == BitsBelow(id, c, pc) + own;
      assert BitsBelow(id, c, pc) !! own;
      count := count + |c.depths[pc]|;
    }
  }

  ghost function OfIds(facts: set<Fact>, ids: set<CoverageId>): set<Fact> {
    set f | f in facts && f.id in ids
  }

  lemma NoIds(facts: set<Fact>)
    ensures forall ids: set<CoverageId> :: ids == {} ==> OfIds(facts, ids) == {}
  {}

  lemma SplitById(facts: set<Fact>, ids: set<CoverageId>, id: CoverageId)
    requires id !in ids
    ensures |OfIds(facts, ids + {id})| == |OfIds(facts, ids)| + |OfIds(facts, {id})|
  {
    assert OfIds(facts, ids + {id}) == OfIds(facts, ids) + OfIds(facts, {id});
    assert OfIds(facts, ids) !! OfIds(facts, {id});
  }

  lemma OwnJumpKeys(s: Shared, id: CoverageId)
    requires id in s.contracts
    ensures |OfIds(JumpKeys(s), {id})| == if s.contracts[id].isInitcode then 0 else |s.contracts[id].jumpEdges|
  {
    var c := s.contracts[id];
    if c.isInitcode {
      assert OfIds(JumpKeys(s), {id}) == {};
    } else {
      KeysOfMarkers(id, c.jumpEdges.Keys);
      assert OfIds(JumpKeys(s), {id}) == set m | m in c.jumpEdges.Keys :: JumpKey(id, m);
    }
  }

  lemma {:induction false} KeysOfMarkers(id: CoverageId, markers: set<nat>)
    ensures |set m | m in markers :: JumpKey(id, m)| == |markers|
    decreases markers
  {
    if markers != {} {
      var x :| x in markers;
      KeysOfMarkers(id, markers - {x});
      assert (set m | m in markers :: JumpKey(id, m)) == (set m | m in markers - {x} :: JumpKey(id, m)) + {JumpKey(id, x)};
    }
  }

  lemma {:induction false} BitsOfWord(id: CoverageId, pc: nat, bits: Bits)
    ensures |set bit | bit in bits :: DepthBit(id, pc, bit)| == |bits|
    decreases bits
  {
    if bits != {} {
      var x :| x in bits;
      BitsOfWord(id, pc, bits - {x});
      assert (set b | b in bits :: DepthBit(id, pc, b)) == (set b | b in bits - {x} :: DepthBit(id, pc, b)) + {DepthBit(id, pc, x)};
    }
  }
}
