/** What the program of one merge does, derived from the inspector's agreement of lists and arrays. */
module MergePrograms {
  import opened Basics
  import opened CoverageInspector
  import opened SharedCoverage
  import opened MergeSchedules

  /** The facts a local contract stands for, read off its dense arrays. */
  predicate LocalFact(it: Item, f: Fact) {
    f.id == it.id &&
    match f
    case Known(_) => true
    case CodeKnown(_) => it.c.bytecode != []
    case Hit(_, pc) => pc < |it.c.edges| && it.c.edges[pc] != 0
    case DepthBit(_, pc, bit) => pc < |it.c.depths| && bit in it.c.depths[pc]
    case RevertBit(_, word, bit) => word < |it.c.reverts| && bit in it.c.reverts[word]
    case JumpKey(_, marker) => marker in it.c.jumpEdges
    case JumpHit(_, marker) => marker in it.c.jumpEdges
  }

  function LocalCount(it: Item, id: CoverageId, pc: nat): nat {
    if it.id == id && pc < |it.c.edges| then it.c.edges[pc] else 0
  }

  /** The local map agrees with the shapes: length, flag and bytecode per id. */
  ghost predicate Agrees(shapes: Shapes, it: Item) {
    && |it.c.edges| == shapes(it.id).len
    && it.c.isInitcode == it.id.Initcode?
    && (it.c.bytecode == [] || it.c.bytecode == shapes(it.id).code)
  }

  // ---- Facts said -----------------------------------------------------------

  lemma SaidBySingleton(op: Op, f: Fact)
    ensures SaidBy([op], f) <==> Says(op, f)
  {
    assert [op][0] == op;
  }

  lemma {:induction false} EdgeOpsSay(it: Item, k: nat, f: Fact)
    requires Indexed(it) && k <= |it.c.hitPcs|
    ensures SaidBy(EdgeOps(it, k), f) <==> f.Hit? && f.id == it.id && f.pc in it.c.hitPcs[..k]
  {
    if k > 0 {
      EdgeOpsSay(it, k - 1, f);
      var pc := it.c.hitPcs[k - 1];
      var a, b := MaxEdge(it.id, pc, it.c.isInitcode), AddRaw(it.id, pc, it.c.edges[pc]);
      SaidByConcat(EdgeOps(it, k - 1), [a, b], f);
      SaidByConcat([a], [b], f);
      SaidBySingleton(a, f);
      SaidBySingleton(b, f);
      assert [a] + [b] == [a, b];
      assert it.c.hitPcs[..k] == it.c.hitPcs[..k - 1] + [pc];
    }
  }

  lemma {:induction false} DepthOpsSay(it: Item, k: nat, f: Fact)
    requires Indexed(it) && k <= |it.c.hitDepths|
    ensures SaidBy(DepthOps(it, k), f)
       <==> f.DepthBit? && f.id == it.id && f.pc in it.c.hitDepths[..k] && f.pc < |it.c.depths| && f.bit in it.c.depths[f.pc]
  {
    if k > 0 {
      DepthOpsSay(it, k - 1, f);
      var pc := it.c.hitDepths[k - 1];
      var a := OrDepth(it.id, pc, it.c.depths[pc], it.c.isInitcode);
      SaidByConcat(DepthOps(it, k - 1), [a], f);
      SaidBySingleton(a, f);
      assert it.c.hitDepths[..k] == it.c.hitDepths[..k - 1] + [pc];
    }
  }

  lemma {:induction false} RevertOpsSay(it: Item, k: nat, f: Fact)
    requires Indexed(it) && k <= |it.c.hitReverts|
    ensures SaidBy(RevertOps(it, k), f)
       <==> f.RevertBit? && f.id == it.id && f.word in it.c.hitReverts[..k] && f.word < |it.c.reverts| && f.bit in it.c.reverts[f.word]
  {
    if k > 0 {
      RevertOpsSay(it, k - 1, f);
      var w := it.c.hitReverts[k - 1];
      var a := OrRevert(it.id, w, it.c.reverts[w], it.c.isInitcode);
      SaidByConcat(RevertOps(it, k - 1), [a], f);
      SaidBySingleton(a, f);
      assert it.c.hitReverts[..k] == it.c.hitReverts[..k - 1] + [w];
    }
  }

  lemma {:induction false} JumpOpsSay(it: Item, k: nat, f: Fact)
    requires Indexed(it) && k <= |it.markers| && (forall m :: m in it.c.jumpEdges ==> it.c.jumpEdges[m] != 0)
    ensures SaidBy(JumpOps(it, k), f)
       <==> (f.JumpKey? || f.JumpHit?) && f.id == it.id && f.marker in it.markers[..k]
  {
    if k > 0 {
      JumpOpsSay(it, k - 1, f);
      var m := it.markers[k - 1];
      var a, b := OpenJump(it.id, m), MaxJump(it.id, m, it.c.isInitcode);
      SaidByConcat(JumpOps(it, k - 1), [a, b], f);
      SaidByConcat([a], [b], f);
      SaidBySingleton(a, f);
      SaidBySingleton(b, f);
      assert [a] + [b] == [a, b];
      assert it.markers[..k] == it.markers[..k - 1] + [m];
    }
  }

  lemma HeaderSays(it: Item, f: Fact)
    ensures SaidBy(Header(it), f) <==> f.id == it.id && (f.Known? || (f.CodeKnown? && it.c.bytecode != []))
  {
    var a, b := Open(it.id, |it.c.edges|, it.c.isInitcode), StoreCode(it.id, it.c.bytecode);
    SaidBySingleton(a, f);
    SaidBySingleton(b, f);
    SaidByConcat([a], [b], f);
    SaidByConcat([a], [], f);
  }

  /** The sparse lists reach exactly the non-zero cells of the dense arrays. */
  lemma ListsCoverArrays(it: Item, f: Fact)
    requires ItemOk(it) && f.id == it.id
    ensures f.Hit? ==> (f.pc in it.c.hitPcs <==> LocalFact(it, f))
    ensures f.DepthBit? ==> (f.pc in it.c.hitDepths && f.pc < |it.c.depths| && f.bit in it.c.depths[f.pc] <==> LocalFact(it, f))
    ensures f.RevertBit? ==> (f.word in it.c.hitReverts && f.word < |it.c.reverts| && f.bit in it.c.reverts[f.word] <==> LocalFact(it, f))
  {
    match f
    case Hit(_, pc) => assert f.pc in it.c.hitPcs <==> multiset(it.c.hitPcs)[f.pc] > 0;
    case DepthBit(_, pc, bit) =>
      assert f.pc in it.c.hitDepths <==> multiset(it.c.hitDepths)[f.pc] > 0;
      if LocalFact(it, f) {
        assert |it.c.depths[pc]| > 0;
      }
    case RevertBit(_, word, bit) => assert f.word in it.c.hitReverts <==> multiset(it.c.hitReverts)[f.word] > 0;
    case _ =>
  }

  lemma ItemOpsSay(it: Item, f: Fact)
    requires ItemOk(it) && Indexed(it)
    ensures SaidBy(ItemOps(it), f) <==> LocalFact(it, f)
  {
    var e, d, r, j := |it.c.hitPcs|, |it.c.hitDepths|, |it.c.hitReverts|, |it.markers|;
    var head := Header(it);
    SaidByConcat(head, EdgeOps(it, e), f);
    SaidByConcat(head + EdgeOps(it, e), DepthOps(it, d), f);
    SaidByConcat(head + EdgeOps(it, e) + DepthOps(it, d), RevertOps(it, r), f);
    SaidByConcat(head + EdgeOps(it, e) + DepthOps(it, d) + RevertOps(it, r), JumpOps(it, j), f);
    HeaderSays(it, f);
    EdgeOpsSay(it, e, f);
    DepthOpsSay(it, d, f);
    RevertOpsSay(it, r, f);
    JumpOpsSay(it, j, f);
    assert it.c.hitPcs[..e] == it.c.hitPcs && it.c.hitDepths[..d] == it.c.hitDepths;
    assert it.c.hitReverts[..r] == it.c.hitReverts && it.markers[..j] == it.markers;
    if f.id == it.id {
      ListsCoverArrays(it, f);
    }
  }

  // ---- Raw counts owed ------------------------------------------------------

  lemma {:induction false} OwesNothing(ops: seq<Op>, id: CoverageId, pc: nat)
    requires forall k :: 0 <= k < |ops| ==> ops[k].id != id || !ops[k].AddRaw?
    ensures Owed(ops, id, pc) == 0
  {
    if ops != [] {
      OwesNothing(ops[..|ops| - 1], id, pc);
    }
  }

  lemma PairOwes(it: Item, p: nat, pc: nat)
    requires p < |it.c.edges|
    ensures Owed([MaxEdge(it.id, p, it.c.isInitcode), AddRaw(it.id, p, it.c.edges[p])], it.id, pc)
         == if p == pc then it.c.edges[p] else 0
  {
    var a, b := MaxEdge(it.id, p, it.c.isInitcode), AddRaw(it.id, p, it.c.edges[p]);
    OwedHead([a, b], it.id, pc);
    OwedHead([b], it.id, pc);
    assert [a, b][1..] == [b] && [b][1..] == [];
  }

  function Times(n: nat, x: nat): nat {
    if n == 0 then 0 else Times(n - 1, x) + x
  }

  /** Every listing of a PC owes its raw count once. */
  lemma {:induction false} EdgeOpsOwe(it: Item, k: nat, pc: nat)
    requires Indexed(it) && k <= |it.c.hitPcs|
    ensures Owed(EdgeOps(it, k), it.id, pc) == Times(multiset(it.c.hitPcs[..k])[pc], LocalCount(it, it.id, pc))
  {
    if k > 0 {
      EdgeOpsOwe(it, k - 1, pc);
      var p := it.c.hitPcs[k - 1];
      OwedConcat(EdgeOps(it, k - 1), [MaxEdge(it.id, p, it.c.isInitcode), AddRaw(it.id, p, it.c.edges[p])], it.id, pc);
      PairOwes(it, p, pc);
      assert it.c.hitPcs[..k] == it.c.hitPcs[..k - 1] + [p];
    }
  }

  lemma {:induction false} PartsAreTagged(it: Item, e: nat, d: nat, r: nat, j: nat)
    requires Indexed(it)
    requires e <= |it.c.hitPcs| && d <= |it.c.hitDepths| && r <= |it.c.hitReverts| && j <= |it.markers|
    ensures forall k :: 0 <= k < |EdgeOps(it, e)| ==>
              EdgeOps(it, e)[k].id == it.id && (EdgeOps(it, e)[k].MaxEdge? || EdgeOps(it, e)[k].AddRaw?)
    ensures forall k :: 0 <= k < |DepthOps(it, d)| ==> DepthOps(it, d)[k].id == it.id && DepthOps(it, d)[k].OrDepth?
    ensures forall k :: 0 <= k < |RevertOps(it, r)| ==> RevertOps(it, r)[k].id == it.id && RevertOps(it, r)[k].OrRevert?
    ensures forall k :: 0 <= k < |JumpOps(it, j)| ==>
              JumpOps(it, j)[k].id == it.id && (JumpOps(it, j)[k].OpenJump? || JumpOps(it, j)[k].MaxJump?)
    decreases e + d + r + j
  {
    if e > 0 { PartsAreTagged(it, e - 1, 0, 0, 0); }
    if d > 0 { PartsAreTagged(it, 0, d - 1, 0, 0); }
    if r > 0 { PartsAreTagged(it, 0, 0, r - 1, 0); }
    if j > 0 { PartsAreTagged(it, 0, 0, 0, j - 1); }
  }

  lemma AllEdgeOpsOwe(it: Item, id: CoverageId, pc: nat)
    requires ItemOk(it) && Indexed(it)
    ensures Owed(EdgeOps(it, |it.c.hitPcs|), id, pc) == LocalCount(it, id, pc)
  {
    var e := |it.c.hitPcs|;
    if id == it.id {
      EdgeOpsOwe(it, e, pc);
      assert it.c.hitPcs[..e] == it.c.hitPcs;
      assert multiset(it.c.hitPcs)[pc] == if LocalCount(it, id, pc) != 0 then 1 else 0;
    } else {
      PartsAreTagged(it, e, 0, 0, 0);
      OwesNothing(EdgeOps(it, e), id, pc);
    }
  }

  lemma ItemOpsOwe(it: Item, id: CoverageId, pc: nat)
    requires ItemOk(it) && Indexed(it)
    ensures Owed(ItemOps(it), id, pc) == LocalCount(it, id, pc)
  {
    var e, d, r, j := |it.c.hitPcs|, |it.c.hitDepths|, |it.c.hitReverts|, |it.markers|;
    var tail := DepthOps(it, d) + RevertOps(it, r) + JumpOps(it, j);
    PartsAreTagged(it, 0, d, r, j);
    OwesNothing(Header(it), id, pc);
    OwesNothing(tail, id, pc);
    AllEdgeOpsOwe(it, id, pc);
    OwedConcat(Header(it), EdgeOps(it, e), id, pc);
    OwedConcat(Header(it) + EdgeOps(it, e), tail, id, pc);
    assert ItemOps(it) == Header(it) + EdgeOps(it, e) + tail;
  }

  // ---- Shapes and order -----------------------------------------------------

  lemma FitConcat(shapes: Shapes, a: seq<Op>, b: seq<Op>)
    requires AllFit(shapes, a) && AllFit(shapes, b)
    ensures AllFit(shapes, a + b)
  {}

  lemma {:induction false} EdgesFit(shapes: Shapes, it: Item, e: nat)
    requires Indexed(it) && Agrees(shapes, it) && e <= |it.c.hitPcs|
    ensures AllFit(shapes, EdgeOps(it, e))
  {
    if e > 0 { EdgesFit(shapes, it, e - 1); }
  }

  lemma {:induction false} DepthsFit(shapes: Shapes, it: Item, d: nat)
    requires Indexed(it) && Consistent(it.c) && Agrees(shapes, it) && d <= |it.c.hitDepths|
    ensures AllFit(shapes, DepthOps(it, d))
  {
    if d > 0 {
      DepthsFit(shapes, it, d - 1);
      var pc := it.c.hitDepths[d - 1];
      assert multiset(it.c.hitDepths)[pc] > 0;
      assert it.c.depths[pc] != {};
    }
  }

  lemma {:induction false} RevertsFit(shapes: Shapes, it: Item, r: nat)
    requires Indexed(it) && Consistent(it.c) && Agrees(shapes, it) && r <= |it.c.hitReverts|
    ensures AllFit(shapes, RevertOps(it, r))
  {
    if r > 0 { RevertsFit(shapes, it, r - 1); }
  }

  lemma {:induction false} JumpsFit(shapes: Shapes, it: Item, j: nat)
    requires Indexed(it) && Agrees(shapes, it) && j <= |it.markers|
    ensures AllFit(shapes, JumpOps(it, j))
  {
    if j > 0 { JumpsFit(shapes, it, j - 1); }
  }

  lemma ItemOpsFit(shapes: Shapes, it: Item)
    requires Indexed(it) && Consistent(it.c) && Agrees(shapes, it)
    ensures AllFit(shapes, ItemOps(it))
  {
    var e, d, r, j := |it.c.hitPcs|, |it.c.hitDepths|, |it.c.hitReverts|, |it.markers|;
    EdgesFit(shapes, it, e);
    DepthsFit(shapes, it, d);
    RevertsFit(shapes, it, r);
    JumpsFit(shapes, it, j);
    var head := Header(it);
    FitConcat(shapes, head, EdgeOps(it, e));
    FitConcat(shapes, head + EdgeOps(it, e), DepthOps(it, d));
    FitConcat(shapes, head + EdgeOps(it, e) + DepthOps(it, d), RevertOps(it, r));
    FitConcat(shapes, head + EdgeOps(it, e) + DepthOps(it, d) + RevertOps(it, r), JumpOps(it, j));
  }

  /** Every `MaxJump` directly follows the `OpenJump` of its marker. */
  ghost predicate Paired(ops: seq<Op>) {
    forall k :: 0 <= k < |ops| && ops[k].MaxJump? ==>
      k > 0 && ops[k - 1].OpenJump? && ops[k - 1].id == ops[k].id && ops[k - 1].marker == ops[k].marker
  }

  lemma {:induction false} JumpOpsPaired(it: Item, j: nat)
    requires Indexed(it) && j <= |it.markers|
    ensures Paired(JumpOps(it, j))
  {
    if j > 0 {
      JumpOpsPaired(it, j - 1);
      PartsAreTagged(it, 0, 0, 0, j - 1);
    }
  }

  lemma ItemOpsReady(s: Shared, it: Item)
    requires Indexed(it)
    ensures Ready(s, ItemOps(it))
  {
    var e, d, r, j := |it.c.hitPcs|, |it.c.hitDepths|, |it.c.hitReverts|, |it.markers|;
    PartsAreTagged(it, e, d, r, j);
    JumpOpsPaired(it, j);
    var ops := ItemOps(it);
    var front := Header(it) + EdgeOps(it, e) + DepthOps(it, d) + RevertOps(it, r);
    assert forall k :: 0 <= k < |front| ==> front[k].id == it.id && !front[k].MaxJump?;
    assert ops == front + JumpOps(it, j);
    assert Paired(ops);
    forall k, f | 0 <= k < |ops| && Needs(ops[k], f) ensures SaidBy(ops[..k], f) {
      if f.Known? {
        assert ops[0] == Open(it.id, |it.c.edges|, it.c.isInitcode);
        assert k > 0 && ops[k].id == it.id;
        assert Says(ops[..k][0], f);
      } else {
        assert Says(ops[..k][k - 1], f);
      }
    }
  }

  lemma ReadyConcat(s: Shared, a: seq<Op>, b: seq<Op>)
    requires Ready(s, a) && Ready(s, b)
    ensures Ready(s, a + b)
  {
    var ops := a + b;
    forall k, f | 0 <= k < |ops| && Needs(ops[k], f) ensures Holds(s, f) || SaidBy(ops[..k], f) {
      if k < |a| {
        assert ops[..k] == a[..k];
      } else {
        assert ops[..k] == a + b[..k - |a|];
        assert Needs(b[k - |a|], f);
        SaidByConcat(a, b[..k - |a|], f);
      }
    }
  }

  // ---- Whole programs -------------------------------------------------------

  ghost predicate LocalMap(shapes: Shapes, items: seq<Item>) {
    forall it :: it in items ==> ItemOk(it) && Indexed(it) && Agrees(shapes, it)
  }

  ghost predicate LocalFacts(items: seq<Item>, f: Fact) {
    exists it :: it in items && LocalFact(it, f)
  }

  function LocalCounts(items: seq<Item>, id: CoverageId, pc: nat): nat {
    if items == [] then 0
    else LocalCounts(items[..|items| - 1], id, pc) + LocalCount(items[|items| - 1], id, pc)
  }

  lemma {:induction false} ProgramSays(shapes: Shapes, items: seq<Item>, f: Fact)
    requires LocalMap(shapes, items)
    ensures SaidBy(Program(items), f) <==> LocalFacts(items, f)
  {
    if |items| == 0 {
      assert items == [];
    } else {
      var rest, it := items[..|items| - 1], items[|items| - 1];
      ProgramSays(shapes, rest, f);
      SaidByConcat(Program(rest), ItemOps(it), f);
      ItemOpsSay(it, f);
      assert items == rest + [it];
      assert LocalFacts(items, f) <==> LocalFacts(rest, f) || LocalFact(it, f);
    }
  }

  lemma {:induction false} ProgramOwes(shapes: Shapes, items: seq<Item>, id: CoverageId, pc: nat)
    requires LocalMap(shapes, items)
    ensures Owed(Program(items), id, pc) == LocalCounts(items, id, pc)
  {
    if |items| == 0 {
      assert items == [];
    } else {
      var rest, it := items[..|items| - 1], items[|items| - 1];
      ProgramOwes(shapes, rest, id, pc);
      OwedConcat(Program(rest), ItemOps(it), id, pc);
      ItemOpsOwe(it, id, pc);
    }
  }

  lemma {:induction false} ProgramIsOrderly(shapes: Shapes, s: Shared, items: seq<Item>)
    requires LocalMap(shapes, items)
    ensures AllFit(shapes, Program(items)) && Ready(s, Program(items))
  {
    if |items| == 0 {
      assert items == [];
    } else {
      var rest, it := items[..|items| - 1], items[|items| - 1];
      ProgramIsOrderly(shapes, s, rest);
      ItemOpsFit(shapes, it);
      FitConcat(shapes, Program(rest), ItemOps(it));
      ItemOpsReady(s, it);
      ReadyConcat(s, Program(rest), ItemOps(it));
    }
  }
}
