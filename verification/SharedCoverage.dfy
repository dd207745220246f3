/**
 The global coverage map. `merge` is a fixed program of atomic steps per
 thread; every step is one lock-free operation on the shared maps.
 */
module SharedCoverage {
  import opened Basics
  import opened CoverageInspector

  datatype Contract = Contract(
    edges: seq<nat>,
    rawEdges: seq<nat>,
    depths: seq<Bits>,
    reverts: seq<Bits>,
    jumpEdges: map<nat, nat>,
    isInitcode: bool)

  datatype Shared = Shared(contracts: map<CoverageId, Contract>, bytecodes: map<CoverageId, seq<nat>>)

  const Empty := Shared(map[], map[])

  function NewShared(len: nat, isInitcode: bool): Contract {
    Contract(seq(len, _ => 0), seq(len, _ => 0), seq(DepthLen(len), _ => {}),
             seq(RevertWords(len), _ => {}), map[], isInitcode)
  }

  datatype Update = Update(newEdges: nat, newDepths: nat, newReverts: nat, newJumpEdges: nat)

  const NoUpdate := Update(0, 0, 0, 0)

  function Plus(a: Update, b: Update): Update {
    Update(a.newEdges + b.newEdges, a.newDepths + b.newDepths,
           a.newReverts + b.newReverts, a.newJumpEdges + b.newJumpEdges)
  }

  predicate IsInteresting(u: Update) {
    u.newEdges > 0 || u.newDepths > 0 || u.newReverts > 0 || u.newJumpEdges > 0
  }

  /** The atomic operations of `merge`; `local` flags say whether the merging map calls the contract initcode. */
  datatype Op =
    | Open(id: CoverageId, len: nat, isInitcode: bool)
    | StoreCode(id: CoverageId, code: seq<nat>)
    | MaxEdge(id: CoverageId, pc: nat, isInitcode: bool)
    | AddRaw(id: CoverageId, pc: nat, count: nat)
    | OrDepth(id: CoverageId, pc: nat, bits: Bits, isInitcode: bool)
    | OrRevert(id: CoverageId, word: nat, bits: Bits, isInitcode: bool)
    | OpenJump(id: CoverageId, marker: nat)
    | MaxJump(id: CoverageId, marker: nat, isInitcode: bool)

  predicate OnContract(op: Op) {
    !op.Open? && !op.StoreCode?
  }

  predicate SafeIn(c: Contract, op: Op) {
    match op
    case MaxEdge(_, pc, _) => pc < |c.edges|
    case AddRaw(_, pc, _) => pc < |c.rawEdges|
    case OrDepth(_, pc, _, _) => pc < |c.depths|
    case MaxJump(_, marker, _) => marker in c.jumpEdges
    case _ => true
  }

  /** The operation neither indexes out of bounds nor touches a missing entry. */
  predicate Safe(s: Shared, op: Op) {
    OnContract(op) ==> op.id in s.contracts && SafeIn(s.contracts[op.id], op)
  }

  /** An operation on one contract's atomics. */
  function ExecIn(c: Contract, op: Op): Contract
    requires OnContract(op) && SafeIn(c, op)
  {
    match op
    case MaxEdge(_, pc, _) => c.(edges := c.edges[pc := Max(c.edges[pc], 1)])
    case AddRaw(_, pc, count) => c.(rawEdges := c.rawEdges[pc := (c.rawEdges[pc] + count) % TWO_64])
    case OrDepth(_, pc, bits, _) => c.(depths := c.depths[pc := c.depths[pc] + bits])
    case OrRevert(_, word, bits, _) =>
      if word >= |c.reverts| || bits == {} then c
      else c.(reverts := c.reverts[word := c.reverts[word] + bits])
    case OpenJump(_, marker) =>
      if marker in c.jumpEdges then c else c.(jumpEdges := c.jumpEdges[marker := 0])
    case MaxJump(_, marker, _) =>
      c.(jumpEdges := c.jumpEdges[marker := Max(c.jumpEdges[marker], 1)])
  }

  function Exec(s: Shared, op: Op): Shared
    requires Safe(s, op)
  {
    match op
    case Open(id, len, isInitcode) =>
      if id in s.contracts then s else s.(contracts := s.contracts[id := NewShared(len, isInitcode)])
    case StoreCode(id, code) =>
      if id in s.bytecodes then s else s.(bytecodes := s.bytecodes[id := code])
    case _ =>
      s.(contracts := s.contracts[op.id := ExecIn(s.contracts[op.id], op)])
  }

  function One(condition: bool): nat {
    if condition then 1 else 0
  }

  /** What the operation's return value adds to the merging thread's update. */
  function Gain(s: Shared, op: Op): Update
    requires Safe(s, op)
  {
    match op
    case MaxEdge(id, pc, isInitcode) =>
      NoUpdate.(newEdges := One(!isInitcode && s.contracts[id].edges[pc] == 0))
    case OrDepth(id, pc, bits, isInitcode) =>
      NoUpdate.(newDepths := One(!isInitcode && bits - s.contracts[id].depths[pc] != {}))
    case OrRevert(id, word, bits, isInitcode) =>
      NoUpdate.(newReverts := One(!isInitcode && word < |s.contracts[id].reverts|
                                  && bits - s.contracts[id].reverts[word] != {}))
    case MaxJump(id, marker, isInitcode) =>
      NoUpdate.(newJumpEdges := One(!isInitcode && s.contracts[id].jumpEdges[marker] == 0))
    case _ => NoUpdate
  }

  // ---- The program of one merge -------------------------------------------

  /** One contract of a local map, with the order in which its jump markers are iterated. */
  datatype Item = Item(id: CoverageId, c: LocalContract, markers: seq<nat>)

  /** A local contract the inspector produced, with an enumeration of its jump map. */
  ghost predicate ItemOk(it: Item) {
    && Consistent(it.c)
    && Distinct(it.markers)
    && (forall m: nat :: m in it.markers <==> m in it.c.jumpEdges)
  }

  /** The hit lists stay inside the arrays they index. */
  predicate Indexed(it: Item) {
    && (forall k :: 0 <= k < |it.c.hitPcs| ==> it.c.hitPcs[k] < |it.c.edges|)
    && (forall k :: 0 <= k < |it.c.hitDepths| ==> it.c.hitDepths[k] < |it.c.depths|)
    && (forall k :: 0 <= k < |it.c.hitReverts| ==> it.c.hitReverts[k] < |it.c.reverts|)
    && (forall k :: 0 <= k < |it.markers| ==> it.markers[k] in it.c.jumpEdges)
  }

  lemma ConsistentIsIndexed(it: Item)
    requires ItemOk(it)
    ensures Indexed(it)
  {
    forall k | 0 <= k < |it.c.hitPcs| ensures it.c.hitPcs[k] < |it.c.edges| {
      assert multiset(it.c.hitPcs)[it.c.hitPcs[k]] > 0;
    }
    forall k | 0 <= k < |it.c.hitDepths| ensures it.c.hitDepths[k] < |it.c.depths| {
      assert multiset(it.c.hitDepths)[it.c.hitDepths[k]] > 0;
    }
    forall k | 0 <= k < |it.c.hitReverts| ensures it.c.hitReverts[k] < |it.c.reverts| {
      assert multiset(it.c.hitReverts)[it.c.hitReverts[k]] > 0;
    }
  }

  function EdgeOps(it: Item, k: nat): seq<Op>
    requires Indexed(it) && k <= |it.c.hitPcs|
  {
    if k == 0 then []
    else
      var pc := it.c.hitPcs[k - 1];
      EdgeOps(it, k - 1) + [MaxEdge(it.id, pc, it.c.isInitcode), AddRaw(it.id, pc, it.c.edges[pc])]
  }

  function DepthOps(it: Item, k: nat): seq<Op>
    requires Indexed(it) && k <= |it.c.hitDepths|
  {
    if k == 0 then []
    else
      var pc := it.c.hitDepths[k - 1];
      DepthOps(it, k - 1) + [OrDepth(it.id, pc, it.c.depths[pc], it.c.isInitcode)]
  }

  function RevertOps(it: Item, k: nat): seq<Op>
    requires Indexed(it) && k <= |it.c.hitReverts|
  {
    if k == 0 then []
    else
      var w := it.c.hitReverts[k - 1];
      RevertOps(it, k - 1) + [OrRevert(it.id, w, it.c.reverts[w], it.c.isInitcode)]
  }

  function JumpOps(it: Item, k: nat): seq<Op>
    requires Indexed(it) && k <= |it.markers|
  {
    if k == 0 then []
    else
      var m := it.markers[k - 1];
      JumpOps(it, k - 1)
      + if it.c.jumpEdges[m] == 0 then [] else [OpenJump(it.id, m), MaxJump(it.id, m, it.c.isInitcode)]
  }

  function Header(it: Item): seq<Op> {
    [Open(it.id, |it.c.edges|, it.c.isInitcode)]
    + if it.c.bytecode == [] then [] else [StoreCode(it.id, it.c.bytecode)]
  }

  function ItemOps(it: Item): seq<Op>
    requires Indexed(it)
  {
    Header(it) + EdgeOps(it, |it.c.hitPcs|) + DepthOps(it, |it.c.hitDepths|)
    + RevertOps(it, |it.c.hitReverts|) + JumpOps(it, |it.markers|)
  }

  function Program(items: seq<Item>): seq<Op>
    requires forall it :: it in items ==> Indexed(it)
  {
    if items == [] then [] else Program(items[..|items| - 1]) + ItemOps(items[|items| - 1])
  }

  // ---- What the shared map knows ------------------------------------------

  /** What every local map agrees on for an id: bytecode length and bytecode. */
  datatype Shape = Shape(len: nat, code: seq<nat>)

  type Shapes = CoverageId -> Shape

  datatype Fact =
    | Known(id: CoverageId)
    | CodeKnown(id: CoverageId)
    | Hit(id: CoverageId, pc: nat)
    | DepthBit(id: CoverageId, pc: nat, bit: nat)
    | RevertBit(id: CoverageId, word: nat, bit: nat)
    | JumpKey(id: CoverageId, marker: nat)
    | JumpHit(id: CoverageId, marker: nat)

  predicate HoldsIn(c: Contract, f: Fact) {
    match f
    case Known(_) => true
    case CodeKnown(_) => false
    case Hit(_, pc) => pc < |c.edges| && c.edges[pc] != 0
    case DepthBit(_, pc, bit) => pc < |c.depths| && bit in c.depths[pc]
    case RevertBit(_, word, bit) => word < |c.reverts| && bit in c.reverts[word]
    case JumpKey(_, marker) => marker in c.jumpEdges
    case JumpHit(_, marker) => marker in c.jumpEdges && c.jumpEdges[marker] != 0
  }

  predicate Holds(s: Shared, f: Fact) {
    if f.CodeKnown? then f.id in s.bytecodes
    else f.id in s.contracts && HoldsIn(s.contracts[f.id], f)
  }

  /** The fact an operation establishes. */
  predicate Says(op: Op, f: Fact) {
    op.id == f.id &&
    match op
    case Open(_, _, _) => f.Known?
    case StoreCode(_, _) => f.CodeKnown?
    case MaxEdge(_, pc, _) => f.Hit? && f.pc == pc
    case AddRaw(_, _, _) => false
    case OrDepth(_, pc, bits, _) => f.DepthBit? && f.pc == pc && f.bit in bits
    case OrRevert(_, word, bits, _) => f.RevertBit? && f.word == word && f.bit in bits
    case OpenJump(_, marker) => f.JumpKey? && f.marker == marker
    case MaxJump(_, marker, _) => f.JumpHit? && f.marker == marker
  }

  ghost predicate ShapedContract(shapes: Shapes, id: CoverageId, c: Contract) {
    && |c.edges| == |c.rawEdges| == shapes(id).len
    && |c.depths| == DepthLen(shapes(id).len)
    && |c.reverts| == RevertWords(shapes(id).len)
    && c.isInitcode == id.Initcode?
    && (forall pc :: 0 <= pc < |c.edges| ==> c.edges[pc] <= 1 && c.rawEdges[pc] < TWO_64)
    && (forall m :: m in c.jumpEdges ==> c.jumpEdges[m] <= 1)
  }

  ghost predicate WellShaped(shapes: Shapes, s: Shared) {
    && (forall id :: id in s.contracts ==> ShapedContract(shapes, id, s.contracts[id]))
    && (forall id :: id in s.bytecodes ==> s.bytecodes[id] == shapes(id).code)
  }

  /** The operation belongs to a local map with the agreed shapes. */
  ghost predicate Fits(shapes: Shapes, op: Op) {
    match op
    case Open(id, len, isInitcode) => len == shapes(id).len && isInitcode == id.Initcode?
    case StoreCode(id, code) => code == shapes(id).code
    case MaxEdge(id, pc, isInitcode) => pc < shapes(id).len && isInitcode == id.Initcode?
    case AddRaw(id, pc, _) => pc < shapes(id).len
    case OrDepth(id, pc, bits, isInitcode) =>
      pc < DepthLen(shapes(id).len) && bits != {} && isInitcode == id.Initcode?
    case OrRevert(id, word, _, isInitcode) => word < RevertWords(shapes(id).len) && isInitcode == id.Initcode?
    case OpenJump(_, _) => true
    case MaxJump(id, _, isInitcode) => isInitcode == id.Initcode?
  }

  lemma ExecKeepsShape(shapes: Shapes, s: Shared, op: Op)
    requires WellShaped(shapes, s) && Fits(shapes, op) && Safe(s, op)
    ensures WellShaped(shapes, Exec(s, op))
  {
    if op.Open? && op.id !in s.contracts {
      assert ShapedContract(shapes, op.id, NewShared(op.len, op.isInitcode));
    }
  }

  lemma ExecInFact(shapes: Shapes, c: Contract, op: Op, f: Fact)
    requires ShapedContract(shapes, op.id, c) && Fits(shapes, op) && OnContract(op) && SafeIn(c, op)
    requires f.id == op.id && !f.CodeKnown?
    ensures HoldsIn(ExecIn(c, op), f) <==> HoldsIn(c, f) || Says(op, f)
  {}

  lemma NothingNew(len: nat, isInitcode: bool, f: Fact)
    ensures HoldsIn(NewShared(len, isInitcode), f) <==> f.Known?
  {}

  /** An operation makes its own fact true and changes no other fact. */
  lemma ExecFact(shapes: Shapes, s: Shared, op: Op, f: Fact)
    requires WellShaped(shapes, s) && Fits(shapes, op) && Safe(s, op)
    ensures Holds(Exec(s, op), f) <==> Holds(s, f) || Says(op, f)
  {
    if f.id == op.id && !f.CodeKnown? {
      if OnContract(op) {
        ExecInFact(shapes, s.contracts[op.id], op, f);
      } else if op.Open? {
        NothingNew(op.len, op.isInitcode, f);
      }
    }
  }

  // ---- The read-only counters ---------------------------------------------

  ghost function HitEdges(s: Shared): set<Fact> {
    set id, pc | id in s.contracts && !s.contracts[id].isInitcode
                 && 0 <= pc < |s.contracts[id].edges| && s.contracts[id].edges[pc] != 0 :: Hit(id, pc)
  }

  ghost function DepthBits(s: Shared): set<Fact> {
    set id, pc, bit | id in s.contracts && !s.contracts[id].isInitcode
                      && 0 <= pc < |s.contracts[id].depths| && bit in s.contracts[id].depths[pc] :: DepthBit(id, pc, bit)
  }

  /** PCs with at least one depth bit; bit 0 merely names the pair. */
  ghost function DepthPcs(s: Shared): set<Fact> {
    set id, pc | id in s.contracts && !s.contracts[id].isInitcode
                 && 0 <= pc < |s.contracts[id].depths| && s.contracts[id].depths[pc] != {} :: DepthBit(id, pc, 0)
  }

  ghost function RevertBits(s: Shared): set<Fact> {
    set id, w, bit | id in s.contracts && !s.contracts[id].isInitcode
                     && 0 <= w < |s.contracts[id].reverts| && bit in s.contracts[id].reverts[w] :: RevertBit(id, w, bit)
  }

  ghost function RevertedWords(s: Shared): set<Fact> {
    set id, w | id in s.contracts && !s.contracts[id].isInitcode
                && 0 <= w < |s.contracts[id].reverts| && s.contracts[id].reverts[w] != {} :: RevertBit(id, w, 0)
  }

  ghost function JumpKeys(s: Shared): set<Fact> {
    set id, m | id in s.contracts && !s.contracts[id].isInitcode && m in s.contracts[id].jumpEdges :: JumpKey(id, m)
  }

  ghost function JumpHits(s: Shared): set<Fact> {
    set id, m | id in s.contracts && !s.contracts[id].isInitcode && m in s.contracts[id].jumpEdges
                && s.contracts[id].jumpEdges[m] != 0 :: JumpHit(id, m)
  }

  lemma SubsetSize<T>(a: set<T>, b: set<T>)
    requires a <= b
    ensures |a| <= |b|
    ensures a != b ==> |a| < |b|
  {
    assert b == a + (b - a);
    assert a != b ==> b - a != {};
  }

  lemma AddOne<T>(a: set<T>, x: T)
    ensures |a + {x}| == |a| + if x in a then 0 else 1
  {
    assert x in a ==> a + {x} == a;
  }

  lemma ExecFacts(shapes: Shapes, s: Shared, op: Op)
    requires WellShaped(shapes, s) && Fits(shapes, op) && Safe(s, op)
    ensures WellShaped(shapes, Exec(s, op))
    ensures forall f :: Holds(Exec(s, op), f) <==> Holds(s, f) || Says(op, f)
  {
    ExecKeepsShape(shapes, s, op);
    forall f ensures Holds(Exec(s, op), f) <==> Holds(s, f) || Says(op, f) {
      ExecFact(shapes, s, op, f);
    }
  }

  /** The counted sets in terms of facts. */
  lemma CountedFacts(shapes: Shapes, s: Shared)
    requires WellShaped(shapes, s)
    ensures forall x :: x in HitEdges(s) <==> x.Hit? && !x.id.Initcode? && Holds(s, x)
    ensures forall x :: x in DepthBits(s) <==> x.DepthBit? && !x.id.Initcode? && Holds(s, x)
    ensures forall x :: x in RevertBits(s) <==> x.RevertBit? && !x.id.Initcode? && Holds(s, x)
    ensures forall x :: x in JumpKeys(s) <==> x.JumpKey? && !x.id.Initcode? && Holds(s, x)
    ensures forall x :: x in JumpHits(s) <==> x.JumpHit? && !x.id.Initcode? && Holds(s, x)
  {}

  lemma CountedEdges(shapes: Shapes, s: Shared)
    requires WellShaped(shapes, s)
    ensures forall x :: x in HitEdges(s) <==> x.Hit? && !x.id.Initcode? && Holds(s, x)
  {}

  lemma CountedJumps(shapes: Shapes, s: Shared)
    requires WellShaped(shapes, s)
    ensures forall x :: x in JumpHits(s) <==> x.JumpHit? && !x.id.Initcode? && Holds(s, x)
  {}

  /** The edge an operation marks in a runtime contract. */
  ghost function MarkedEdge(op: Op): set<Fact> {
    if op.MaxEdge? && !op.isInitcode then {Hit(op.id, op.pc)} else {}
  }

  ghost function MarkedJump(op: Op): set<Fact> {
    if op.MaxJump? && !op.isInitcode then {JumpHit(op.id, op.marker)} else {}
  }

  lemma EdgesGrow(shapes: Shapes, s: Shared, op: Op)
    requires WellShaped(shapes, s) && Fits(shapes, op) && Safe(s, op)
    ensures HitEdges(Exec(s, op)) == HitEdges(s) + MarkedEdge(op)
  {
    ExecFacts(shapes, s, op);
    CountedEdges(shapes, s);
    CountedEdges(shapes, Exec(s, op));
    forall x ensures x in HitEdges(Exec(s, op)) <==> x in HitEdges(s) || x in MarkedEdge(op) {
      assert Holds(Exec(s, op), x) <==> Holds(s, x) || Says(op, x);
    }
  }

  lemma JumpsGrow(shapes: Shapes, s: Shared, op: Op)
    requires WellShaped(shapes, s) && Fits(shapes, op) && Safe(s, op)
    ensures JumpHits(Exec(s, op)) == JumpHits(s) + MarkedJump(op)
  {
    ExecFacts(shapes, s, op);
    CountedJumps(shapes, s);
    CountedJumps(shapes, Exec(s, op));
    forall x ensures x in JumpHits(Exec(s, op)) <==> x in JumpHits(s) || x in MarkedJump(op) {
      assert Holds(Exec(s, op), x) <==> Holds(s, x) || Says(op, x);
    }
  }

  /** `fetch_max` reports a new edge exactly when the edge count grows. */
  lemma EdgeGain(shapes: Shapes, s: Shared, op: Op)
    requires WellShaped(shapes, s) && Fits(shapes, op) && Safe(s, op)
    ensures |HitEdges(Exec(s, op))| == |HitEdges(s)| + Gain(s, op).newEdges
  {
    EdgesGrow(shapes, s, op);
    CountedEdges(shapes, s);
    if op.MaxEdge? && !op.isInitcode {
      AddOne(HitEdges(s), Hit(op.id, op.pc));
    } else {
      assert HitEdges(s) + {} == HitEdges(s);
    }
  }

  lemma JumpGain(shapes: Shapes, s: Shared, op: Op)
    requires WellShaped(shapes, s) && Fits(shapes, op) && Safe(s, op)
    ensures |JumpHits(Exec(s, op))| == |JumpHits(s)| + Gain(s, op).newJumpEdges
  {
    JumpsGrow(shapes, s, op);
    CountedJumps(shapes, s);
    if op.MaxJump? && !op.isInitcode {
      AddOne(JumpHits(s), JumpHit(op.id, op.marker));
    } else {
      assert JumpHits(s) + {} == JumpHits(s);
    }
  }

  lemma DepthPcsGrow(shapes: Shapes, s: Shared, op: Op)
    requires WellShaped(shapes, s) && Fits(shapes, op) && Safe(s, op)
    ensures DepthPcs(Exec(s, op)) == DepthPcs(s) + if op.OrDepth? && !op.isInitcode then {DepthBit(op.id, op.pc, 0)} else {}
  {
    if op.Open? && op.id !in s.contracts {
      var c := NewShared(op.len, op.isInitcode);
      assert forall pc :: 0 <= pc < |c.depths| ==> c.depths[pc] == {};
    }
  }

  lemma RevertedWordsGrow(shapes: Shapes, s: Shared, op: Op)
    requires WellShaped(shapes, s) && Fits(shapes, op) && Safe(s, op)
    ensures RevertedWords(Exec(s, op)) == RevertedWords(s)
                                          + if op.OrRevert? && !op.isInitcode && op.bits != {} then {RevertBit(op.id, op.word, 0)} else {}
  {
    if op.Open? && op.id !in s.contracts {
      var c := NewShared(op.len, op.isInitcode);
      assert forall w :: 0 <= w < |c.reverts| ==> c.reverts[w] == {};
    }
  }

  /** `fetch_or` reports a new depth only when the depth count grows. */
  lemma DepthGainAtMost(shapes: Shapes, s: Shared, op: Op)
    requires WellShaped(shapes, s) && Fits(shapes, op) && Safe(s, op)
    ensures |DepthBits(Exec(s, op))| >= |DepthBits(s)| + Gain(s, op).newDepths
  {
    ExecFacts(shapes, s, op);
    CountedFacts(shapes, s);
    CountedFacts(shapes, Exec(s, op));
    SubsetSize(DepthBits(s), DepthBits(Exec(s, op)));
    if Gain(s, op).newDepths > 0 {
      var bit :| bit in op.bits - s.contracts[op.id].depths[op.pc];
      assert Says(op, DepthBit(op.id, op.pc, bit));
    }
  }

  /** ... and at least once for every PC that had no depth before. */
  lemma DepthGainAtLeast(shapes: Shapes, s: Shared, op: Op)
    requires WellShaped(shapes, s) && Fits(shapes, op) && Safe(s, op)
    ensures |DepthPcs(Exec(s, op))| <= |DepthPcs(s)| + Gain(s, op).newDepths
  {
    DepthPcsGrow(shapes, s, op);
    if op.OrDepth? && !op.isInitcode {
      AddOne(DepthPcs(s), DepthBit(op.id, op.pc, 0));
    }
  }

  lemma RevertGainAtMost(shapes: Shapes, s: Shared, op: Op)
    requires WellShaped(shapes, s) && Fits(shapes, op) && Safe(s, op)
    ensures |RevertBits(Exec(s, op))| >= |RevertBits(s)| + Gain(s, op).newReverts
  {
    ExecFacts(shapes, s, op);
    CountedFacts(shapes, s);
    CountedFacts(shapes, Exec(s, op));
    SubsetSize(RevertBits(s), RevertBits(Exec(s, op)));
    if Gain(s, op).newReverts > 0 {
      var bit :| bit in op.bits - s.contracts[op.id].reverts[op.word];
      assert Says(op, RevertBit(op.id, op.word, bit));
    }
  }

  lemma RevertGainAtLeast(shapes: Shapes, s: Shared, op: Op)
    requires WellShaped(shapes, s) && Fits(shapes, op) && Safe(s, op)
    ensures |RevertedWords(Exec(s, op))| <= |RevertedWords(s)| + Gain(s, op).newReverts
  {
    RevertedWordsGrow(shapes, s, op);
    if op.OrRevert? && !op.isInitcode {
      AddOne(RevertedWords(s), RevertBit(op.id, op.word, 0));
    }
  }
}
