/** The guarantees of concurrent merging, over every number of threads and every schedule. */
module MergeResults {
  import opened Basics
  import opened CoverageInspector
  import opened SharedCoverage
  import opened MergeSchedules
  import opened MergePrograms

  // ---- From the inspector to the merge --------------------------------------

  function CodeHash(id: CoverageId): nat {
    match id
    case Initcode(hash) => hash
    case Runtime(_, codehash) => codehash
  }

  /** Bytecode length and content are functions of the code hash. */
  ghost predicate HonestHashes(byHash: nat -> Shape, hooks: seq<Hook>) {
    forall k :: 0 <= k < |hooks| && hooks[k].InitializeInterp? ==>
      hooks[k].len == byHash(hooks[k].hash).len && hooks[k].original == byHash(hooks[k].hash).code
  }

  ghost function ShapesOf(byHash: nat -> Shape): Shapes {
    id => byHash(CodeHash(id))
  }

  ghost predicate SizedByHash(byHash: nat -> Shape, local: map<CoverageId, LocalContract>) {
    forall id :: id in local ==>
      |local[id].edges| == byHash(CodeHash(id)).len && local[id].bytecode == byHash(CodeHash(id)).code
  }

  lemma {:induction false} RunIsSizedByHash(byHash: nat -> Shape, m: Markers, hooks: seq<Hook>)
    requires HonestHashes(byHash, hooks)
    ensures SizedByHash(byHash, Inspected(m, hooks).local)
  {
    if hooks != [] {
      var before, h := hooks[..|hooks| - 1], hooks[|hooks| - 1];
      RunIsSizedByHash(byHash, m, before);
      HookWritesOneContract(m, Inspected(m, before), h);
    }
  }

  /** The merge iterates a local map's contracts, and each contract's markers, in some order. */
  ghost predicate Enumerates(items: seq<Item>, local: map<CoverageId, LocalContract>) {
    && (forall k :: 0 <= k < |items| ==> items[k].id in local && items[k].c == local[items[k].id])
    && (forall id :: id in local ==> exists k :: 0 <= k < |items| && items[k].id == id)
    && (forall j, k :: 0 <= j < k < |items| ==> items[j].id != items[k].id)
    && (forall k :: 0 <= k < |items| ==>
          Distinct(items[k].markers) && forall m: nat :: m in items[k].markers <==> m in items[k].c.jumpEdges)
  }

  /** Whatever an inspector recorded is a local map the merge handles. */
  lemma InspectorFeedsMerge(byHash: nat -> Shape, m: Markers, hooks: seq<Hook>, items: seq<Item>)
    requires HonestHashes(byHash, hooks) && Enumerates(items, Inspected(m, hooks).local)
    ensures LocalMap(ShapesOf(byHash), items)
  {
    RunIsValid(m, hooks);
    RunIsSizedByHash(byHash, m, hooks);
    forall it | it in items ensures ItemOk(it) && Indexed(it) && Agrees(ShapesOf(byHash), it) {
      var k :| 0 <= k < |items| && items[k] == it;
      assert Consistent(items[k].c);
      ConsistentIsIndexed(it);
    }
  }

  // ---- Starting state -------------------------------------------------------

  ghost predicate LocalMaps(shapes: Shapes, locals: seq<seq<Item>>) {
    forall t :: 0 <= t < |locals| ==> LocalMap(shapes, locals[t])
  }

  ghost function Merging(shapes: Shapes, locals: seq<seq<Item>>): System
    requires LocalMaps(shapes, locals)
  {
    System(Empty, seq(|locals|, t requires 0 <= t < |locals| => Thread(Program(locals[t]), NoUpdate)))
  }

  lemma {:induction false} NothingReturned(threads: seq<Thread>)
    requires forall t :: 0 <= t < |threads| ==> threads[t].update == NoUpdate
    ensures Total(threads) == NoUpdate
  {
    if |threads| == 0 {
      assert threads == [];
    } else {
      NothingReturned(threads[..|threads| - 1]);
    }
  }

  lemma MergingIsOrderly(shapes: Shapes, locals: seq<seq<Item>>)
    requires LocalMaps(shapes, locals)
    ensures Orderly(shapes, Merging(shapes, locals)) && Balanced(Merging(shapes, locals))
  {
    var sys := Merging(shapes, locals);
    forall t | 0 <= t < |locals| ensures AllFit(shapes, sys.threads[t].todo) && Ready(Empty, sys.threads[t].todo) {
      ProgramIsOrderly(shapes, Empty, locals[t]);
    }
    NothingReturned(sys.threads);
    assert HitEdges(Empty) == {} && JumpHits(Empty) == {} && DepthPcs(Empty) == {} && DepthBits(Empty) == {};
    assert RevertedWords(Empty) == {} && RevertBits(Empty) == {};
  }

  // ---- Main results ---------------------------------------------------------

  /** In no interleaving does an operation index out of bounds or miss its entry. */
  lemma MergeNeverPanics(shapes: Shapes, locals: seq<seq<Item>>, schedule: seq<nat>, t: nat)
    requires LocalMaps(shapes, locals) && t < |locals|
    ensures var now := Run(Merging(shapes, locals), schedule);
            |now.threads| == |locals| && (now.threads[t].todo != [] ==> CanStep(now, t))
  {
    MergingIsOrderly(shapes, locals);
    RunKeepsInvariant(shapes, Merging(shapes, locals), schedule);
  }

  ghost predicate FactOfSome(locals: seq<seq<Item>>, f: Fact) {
    exists t :: 0 <= t < |locals| && LocalFacts(locals[t], f)
  }

  function SumCounts(locals: seq<seq<Item>>, id: CoverageId, pc: nat): nat {
    if locals == [] then 0
    else SumCounts(locals[..|locals| - 1], id, pc) + LocalCounts(locals[|locals| - 1], id, pc)
  }

  lemma {:induction false} OwedAtStart(shapes: Shapes, locals: seq<seq<Item>>, threads: seq<Thread>, id: CoverageId, pc: nat)
    requires LocalMaps(shapes, locals) && |threads| == |locals|
    requires forall t :: 0 <= t < |threads| ==> threads[t].todo == Program(locals[t])
    ensures TotalOwed(threads, id, pc) == SumCounts(locals, id, pc)
  {
    if locals != [] {
      var n := |locals| - 1;
      OwedAtStart(shapes, locals[..n], threads[..n], id, pc);
      ProgramOwes(shapes, locals[n], id, pc);
    }
  }

  lemma {:induction false} NothingOwed(threads: seq<Thread>, id: CoverageId, pc: nat)
    requires forall t :: 0 <= t < |threads| ==> threads[t].todo == []
    ensures TotalOwed(threads, id, pc) == 0
  {
    if threads != [] {
      NothingOwed(threads[..|threads| - 1], id, pc);
    }
  }

  lemma AllPaid(sys: System, end: System, id: CoverageId, pc: nat)
    requires RawMass(end, id, pc) == RawMass(sys, id, pc)
    requires RawAt(sys.shared, id, pc) == 0 && TotalOwed(end.threads, id, pc) == 0
    requires RawAt(end.shared, id, pc) < TWO_64
    ensures RawAt(end.shared, id, pc) == TotalOwed(sys.threads, id, pc) % TWO_64
  {}

  /** With nothing owed any more, a raw counter holds everything owed at the start. */
  lemma MassAtEnds(shapes: Shapes, sys: System, schedule: seq<nat>, id: CoverageId, pc: nat)
    requires Orderly(shapes, sys) && Balanced(sys) && Finished(Run(sys, schedule)) && RawAt(sys.shared, id, pc) == 0
    ensures RawAt(Run(sys, schedule).shared, id, pc) == TotalOwed(sys.threads, id, pc) % TWO_64
  {
    var end := Run(sys, schedule);
    RunKeepsInvariant(shapes, sys, schedule);
    RunConserves(shapes, sys, schedule, Known(id), id, pc);
    NothingOwed(end.threads, id, pc);
    RawIsWord(shapes, end.shared, id, pc);
    AllPaid(sys, end, id, pc);
  }

  lemma FactsAtEnd(shapes: Shapes, locals: seq<seq<Item>>, schedule: seq<nat>, f: Fact)
    requires LocalMaps(shapes, locals) && Finished(Run(Merging(shapes, locals), schedule))
    ensures Holds(Run(Merging(shapes, locals), schedule).shared, f) <==> FactOfSome(locals, f)
  {
    var sys := Merging(shapes, locals);
    MergingIsOrderly(shapes, locals);
    RunConserves(shapes, sys, schedule, f, f.id, 0);
    assert !Promised(Run(sys, schedule).threads, f);
    forall t | 0 <= t < |locals| ensures SaidBy(sys.threads[t].todo, f) <==> LocalFacts(locals[t], f) {
      ProgramSays(shapes, locals[t], f);
    }
  }

  lemma CountsAtEnd(shapes: Shapes, locals: seq<seq<Item>>, schedule: seq<nat>, id: CoverageId, pc: nat)
    requires LocalMaps(shapes, locals) && Finished(Run(Merging(shapes, locals), schedule))
    ensures RawAt(Run(Merging(shapes, locals), schedule).shared, id, pc) == SumCounts(locals, id, pc) % TWO_64
  {
    var sys := Merging(shapes, locals);
    var end := Run(sys, schedule);
    MergingIsOrderly(shapes, locals);
    MassAtEnds(shapes, sys, schedule, id, pc);
    OwedAtStart(shapes, locals, sys.threads, id, pc);
  }

  /** Once every merge has returned, the shared map is the union of the local maps and the wrapping sum of their counts. */
  lemma MergedMapIsUnion(shapes: Shapes, locals: seq<seq<Item>>, schedule: seq<nat>)
    requires LocalMaps(shapes, locals) && Finished(Run(Merging(shapes, locals), schedule))
    ensures var s := Run(Merging(shapes, locals), schedule).shared;
            && (forall f :: Holds(s, f) <==> FactOfSome(locals, f))
            && (forall id, pc: nat :: RawAt(s, id, pc) == SumCounts(locals, id, pc) % TWO_64)
  {
    var s := Run(Merging(shapes, locals), schedule).shared;
    forall f ensures Holds(s, f) <==> FactOfSome(locals, f) {
      FactsAtEnd(shapes, locals, schedule, f);
    }
    forall id, pc: nat ensures RawAt(s, id, pc) == SumCounts(locals, id, pc) % TWO_64 {
      CountsAtEnd(shapes, locals, schedule, id, pc);
    }
  }

  lemma RawIsWord(shapes: Shapes, s: Shared, id: CoverageId, pc: nat)
    requires WellShaped(shapes, s)
    ensures RawAt(s, id, pc) < TWO_64
  {}

  /** A well-shaped map is determined by its facts and raw counts. */
  lemma FactsDetermineMap(shapes: Shapes, a: Shared, b: Shared)
    requires WellShaped(shapes, a) && WellShaped(shapes, b)
    requires forall f :: Holds(a, f) <==> Holds(b, f)
    requires forall id, pc: nat :: RawAt(a, id, pc) == RawAt(b, id, pc)
    ensures a == b
  {
    forall id ensures id in a.contracts <==> id in b.contracts {
      assert Holds(a, Known(id)) <==> Holds(b, Known(id));
    }
    forall id ensures id in a.bytecodes <==> id in b.bytecodes {
      assert Holds(a, CodeKnown(id)) <==> Holds(b, CodeKnown(id));
    }
    forall id | id in a.contracts ensures a.contracts[id] == b.contracts[id] {
      SameContract(shapes, a, b, id);
    }
    assert a.contracts == b.contracts && a.bytecodes == b.bytecodes;
  }

  lemma SameContract(shapes: Shapes, a: Shared, b: Shared, id: CoverageId)
    requires id in a.contracts && id in b.contracts
    requires ShapedContract(shapes, id, a.contracts[id]) && ShapedContract(shapes, id, b.contracts[id])
    requires forall f :: Holds(a, f) <==> Holds(b, f)
    requires forall pc: nat :: RawAt(a, id, pc) == RawAt(b, id, pc)
    ensures a.contracts[id] == b.contracts[id]
  {
    var c, d := a.contracts[id], b.contracts[id];
    forall pc: nat | pc < |c.edges| ensures c.edges[pc] == d.edges[pc] && c.rawEdges[pc] == d.rawEdges[pc] {
      assert Holds(a, Hit(id, pc)) <==> Holds(b, Hit(id, pc));
      assert RawAt(a, id, pc) == RawAt(b, id, pc);
    }
    forall pc: nat | pc < |c.depths| ensures c.depths[pc] == d.depths[pc] {
      forall bit: nat ensures bit in c.depths[pc] <==> bit in d.depths[pc] {
        assert Holds(a, DepthBit(id, pc, bit)) <==> Holds(b, DepthBit(id, pc, bit));
      }
    }
    forall w: nat | w < |c.reverts| ensures c.reverts[w] == d.reverts[w] {
      forall bit: nat ensures bit in c.reverts[w] <==> bit in d.reverts[w] {
        assert Holds(a, RevertBit(id, w, bit)) <==> Holds(b, RevertBit(id, w, bit));
      }
    }
    forall m: nat ensures m in c.jumpEdges <==> m in d.jumpEdges {
      assert Holds(a, JumpKey(id, m)) <==> Holds(b, JumpKey(id, m));
    }
    forall m: nat | m in c.jumpEdges ensures c.jumpEdges[m] == d.jumpEdges[m] {
      assert Holds(a, JumpHit(id, m)) <==> Holds(b, JumpHit(id, m));
    }
    assert c.edges == d.edges && c.rawEdges == d.rawEdges && c.depths == d.depths && c.reverts == d.reverts;
    assert c.jumpEdges == d.jumpEdges;
  }

  /** Every schedule that lets all merges return ends in the same shared map. */
  lemma SchedulesConfluent(shapes: Shapes, locals: seq<seq<Item>>, one: seq<nat>, other: seq<nat>)
    requires LocalMaps(shapes, locals)
    requires Finished(Run(Merging(shapes, locals), one)) && Finished(Run(Merging(shapes, locals), other))
    ensures Run(Merging(shapes, locals), one).shared == Run(Merging(shapes, locals), other).shared
  {
    var sys := Merging(shapes, locals);
    var a, b := Run(sys, one).shared, Run(sys, other).shared;
    MergingIsOrderly(shapes, locals);
    RunKeepsInvariant(shapes, sys, one);
    RunKeepsInvariant(shapes, sys, other);
    MergedMapIsUnion(shapes, locals, one);
    MergedMapIsUnion(shapes, locals, other);
    FactsDetermineMap(shapes, a, b);
  }

  /** Each edge and jump edge is credited to exactly one merge; depths and reverts at least per cell, at most per bit. */
  lemma DiscoveriesAddUp(shapes: Shapes, locals: seq<seq<Item>>, schedule: seq<nat>)
    requires LocalMaps(shapes, locals) && Finished(Run(Merging(shapes, locals), schedule))
    ensures var end := Run(Merging(shapes, locals), schedule);
            var u := Total(end.threads);
            && u.newEdges == |HitEdges(end.shared)|
            && u.newJumpEdges == |JumpKeys(end.shared)|
            && |DepthPcs(end.shared)| <= u.newDepths <= |DepthBits(end.shared)|
            && |RevertedWords(end.shared)| <= u.newReverts <= |RevertBits(end.shared)|
  {
    var sys := Merging(shapes, locals);
    var end := Run(sys, schedule);
    MergingIsOrderly(shapes, locals);
    RunKeepsInvariant(shapes, sys, schedule);
    CountedFacts(shapes, end.shared);
    forall id, m: nat ensures Holds(end.shared, JumpKey(id, m)) <==> Holds(end.shared, JumpHit(id, m)) {
      FactsAtEnd(shapes, locals, schedule, JumpKey(id, m));
      FactsAtEnd(shapes, locals, schedule, JumpHit(id, m));
      SameJumpFacts(locals, id, m);
    }
    SameSize(JumpKeys(end.shared), JumpHits(end.shared));
  }

  lemma SameJumpFacts(locals: seq<seq<Item>>, id: CoverageId, m: nat)
    ensures FactOfSome(locals, JumpKey(id, m)) <==> FactOfSome(locals, JumpHit(id, m))
  {
    forall items ensures LocalFacts(items, JumpKey(id, m)) <==> LocalFacts(items, JumpHit(id, m)) {
      forall it: Item ensures LocalFact(it, JumpKey(id, m)) <==> LocalFact(it, JumpHit(id, m)) {}
    }
  }

  function HitOf(key: Fact): Fact
    requires key.JumpKey?
  {
    JumpHit(key.id, key.marker)
  }

  lemma {:induction false} HitsOfKeys(keys: set<Fact>)
    requires forall x :: x in keys ==> x.JumpKey?
    ensures |set x | x in keys :: HitOf(x)| == |keys|
    decreases keys
  {
    if keys != {} {
      var x :| x in keys;
      HitsOfKeys(keys - {x});
      assert (set y | y in keys :: HitOf(y)) == (set y | y in keys - {x} :: HitOf(y)) + {HitOf(x)};
    }
  }

  /** Keys and hits pair up one to one. */
  lemma SameSize(keys: set<Fact>, hits: set<Fact>)
    requires forall x :: x in keys ==> x.JumpKey?
    requires forall x :: x in hits ==> x.JumpHit?
    requires forall id, m: nat :: JumpKey(id, m) in keys <==> JumpHit(id, m) in hits
    ensures |keys| == |hits|
  {
    HitsOfKeys(keys);
    var image := set x | x in keys :: HitOf(x);
    forall y ensures y in hits <==> y in image {
      if y in hits {
        assert y == HitOf(JumpKey(y.id, y.marker));
      }
    }
    assert hits == image;
  }
}
