/**
 The coverage inspector: hooks fill dense per-PC arrays together with sparse
 "hit" lists that spare the merge from scanning the arrays.
 */
module CoverageInspector {
  import opened Basics

  const DEPTH_TRACKED_PCS := 1024
  const JUMP := 0x56
  const JUMPI := 0x57

  datatype CoverageId = Initcode(hash: nat) | Runtime(address: nat, codehash: nat)

  // A 64-bit word read as the set of its one bits.
  type Bits = set<nat>

  datatype LocalContract = LocalContract(
    edges: seq<nat>,
    depths: seq<Bits>,
    reverts: seq<Bits>,
    jumpEdges: map<nat, nat>,
    hitPcs: seq<nat>,
    hitDepths: seq<nat>,
    hitReverts: seq<nat>,
    bytecode: seq<nat>,
    isInitcode: bool)

  function DepthLen(len: nat): nat {
    if len <= DEPTH_TRACKED_PCS then len else DEPTH_TRACKED_PCS
  }

  function RevertWords(len: nat): nat {
    (len + 63) / 64
  }

  function NewContract(len: nat, bytecode: seq<nat>, isInitcode: bool): LocalContract {
    LocalContract(
      seq(len, _ => 0), seq(DepthLen(len), _ => {}), seq(RevertWords(len), _ => {}),
      map[], [], [], [], bytecode, isInitcode)
  }

  /** What the interpreter tells the inspector. */
  datatype Hook =
    | InitializeInterp(hash: nat, len: nat, original: seq<nat>, address: nat)
    | Step(pc: nat, opcode: nat, operands: seq<nat>)
    | Call(callee: nat)
    | CallEnd(reverted: bool)
    | Create
    | CreateEnd(reverted: bool)

  /** The 64-bit edge encodings, kept abstract. */
  datatype Markers = Markers(edge: (nat, nat) -> nat, call: (nat, nat) -> nat)

  datatype State = State(
    local: map<CoverageId, LocalContract>,
    depth: nat,
    current: Option<CoverageId>,
    frames: seq<Option<CoverageId>>,
    lastPc: nat,
    isInitcode: bool)

  const Initial := State(map[], 0, None, [], 0, false)

  function Bump(jumps: map<nat, nat>, marker: nat): map<nat, nat> {
    jumps[marker := if marker in jumps then Min(jumps[marker] + 1, U8_MAX) else 1]
  }

  /** Destination of a taken branch; a one-word stack lets JUMPI read its own target as condition. */
  function TakenBranch(opcode: nat, operands: seq<nat>): Option<nat> {
    var n := |operands|;
    if opcode != JUMP && opcode != JUMPI then None
    else if n == 0 || operands[n - 1] >= TWO_64 then None
    else if opcode == JUMPI && operands[if n >= 2 then n - 2 else 0] == 0 then None
    else Some(operands[n - 1])
  }

  function RecordEdge(c: LocalContract, pc: nat): LocalContract {
    if pc < |c.edges| then
      c.(hitPcs := if c.edges[pc] == 0 then c.hitPcs + [pc] else c.hitPcs,
         edges := c.edges[pc := Min(c.edges[pc] + 1, U8_MAX)])
    else c
  }

  function RecordDepth(c: LocalContract, pc: nat, depth: nat): LocalContract {
    if pc < |c.depths| then
      var bit := if depth <= 63 then depth else 63;
      c.(hitDepths := if bit in c.depths[pc] then c.hitDepths else c.hitDepths + [pc],
         depths := c.depths[pc := c.depths[pc] + {bit}])
    else c
  }

  function RecordBranch(m: Markers, c: LocalContract, pc: nat, opcode: nat, operands: seq<nat>): LocalContract {
    match TakenBranch(opcode, operands)
    case Some(dst) => c.(jumpEdges := Bump(c.jumpEdges, m.edge(pc, dst)))
    case None => c
  }

  function RecordRevert(c: LocalContract, pc: nat): LocalContract {
    var word := pc / 64;
    if word < |c.reverts| then
      c.(hitReverts := if c.reverts[word] == {} then c.hitReverts + [word] else c.hitReverts,
         reverts := c.reverts[word := c.reverts[word] + {pc % 64}])
    else c
  }

  /** The contract the hooks currently write to. */
  predicate Tracking(s: State) {
    s.current.Some? && s.current.value in s.local
  }

  function AfterRevert(s: State, reverted: bool): State {
    if reverted && Tracking(s) then
      s.(local := s.local[s.current.value := RecordRevert(s.local[s.current.value], s.lastPc)])
    else s
  }

  function PopFrame(s: State): State {
    var n := |s.frames|;
    s.(depth := if s.depth == 0 then 0 else s.depth - 1,
       current := if n == 0 then None else s.frames[n - 1],
       frames := if n == 0 then [] else s.frames[..n - 1])
  }

  function PushFrame(s: State): State {
    s.(frames := s.frames + [s.current], depth := s.depth + 1)
  }

  function Apply(m: Markers, s: State, h: Hook): State {
    match h
    case InitializeInterp(hash, len, original, address) =>
      if hash == 0 || len == 0 then s
      else
        var id := if s.isInitcode then Initcode(hash) else Runtime(address, hash);
        s.(isInitcode := false,
           current := Some(id),
           local := if id in s.local then s.local
                    else s.local[id := NewContract(len, original, s.isInitcode)])
    case Step(pc, opcode, operands) =>
      var s' := s.(lastPc := pc);
      if !Tracking(s) then s'
      else
        var c := s.local[s.current.value];
        var c' := RecordBranch(m, RecordDepth(RecordEdge(c, pc), pc, s.depth), pc, opcode, operands);
        s'.(local := s.local[s.current.value := c'])
    case Call(callee) =>
      if !Tracking(s) then PushFrame(s)
      else
        var c := s.local[s.current.value];
        var c' := c.(jumpEdges := Bump(c.jumpEdges, m.call(s.lastPc, callee)));
        PushFrame(s.(local := s.local[s.current.value := c']))
    case CallEnd(reverted) => PopFrame(AfterRevert(s, reverted))
    case Create => PushFrame(s).(isInitcode := true)
    case CreateEnd(reverted) => PopFrame(AfterRevert(s, reverted)).(isInitcode := false)
  }

  function Inspected(m: Markers, hooks: seq<Hook>): State {
    if hooks == [] then Initial
    else Apply(m, Inspected(m, hooks[..|hooks| - 1]), hooks[|hooks| - 1])
  }

  /** The inspector object; `Apply` specifies every hook. */
  class Inspector {
    const markers: Markers
    var local: map<CoverageId, LocalContract>
    var currentCallDepth: nat
    var currentContract: Option<CoverageId>
    var contractStack: seq<Option<CoverageId>>
    var lastPc: nat
    var isInitcode: bool

    function View(): State
      reads this
    {
      State(local, currentCallDepth, currentContract, contractStack, lastPc, isInitcode)
    }

    constructor (markers: Markers)
      ensures View() == Initial && this.markers == markers
    {
      this.markers := markers;
      local, currentCallDepth, currentContract := map[], 0, None;
      contractStack, lastPc, isInitcode := [], 0, false;
    }

    method OnRevert()
      modifies this
      ensures View() == AfterRevert(old(View()), true)
    {
      if currentContract.None? || currentContract.value !in local {
        return;
      }
      var coverage := local[currentContract.value];
      var word, bit := lastPc / 64, lastPc % 64;
      if word < |coverage.reverts| {
        var prev := coverage.reverts[word];
        coverage := coverage.(reverts := coverage.reverts[word := prev + {bit}]);
        if prev == {} {
          coverage := coverage.(hitReverts := coverage.hitReverts + [word]);
        }
      }
      local := local[currentContract.value := coverage];
    }

    method OnInitializeInterp(hash: nat, len: nat, original: seq<nat>, address: nat)
      modifies this
      ensures View() == Apply(markers, old(View()), InitializeInterp(hash, len, original, address))
    {
      if hash != 0 && len != 0 {
        var wasInitcode := isInitcode;
        isInitcode := false;
        var id := if wasInitcode then Initcode(hash) else Runtime(address, hash);
        currentContract := Some(id);
        if id !in local {
          local := local[id := NewContract(len, original, wasInitcode)];
        }
      }
    }

    method OnStep(pc: nat, opcode: nat, operands: seq<nat>)
      modifies this
      ensures View() == Apply(markers, old(View()), Step(pc, opcode, operands))
    {
      lastPc := pc;
      if currentContract.None? || currentContract.value !in local {
        return;
      }
      var coverage := local[currentContract.value];
      if pc < |coverage.edges| {
        if coverage.edges[pc] == 0 {
          coverage := coverage.(hitPcs := coverage.hitPcs + [pc]);
        }
        coverage := coverage.(edges := coverage.edges[pc := Min(coverage.edges[pc] + 1, U8_MAX)]);
      }
      if pc < |coverage.depths| {
        var bit := if currentCallDepth <= 63 then currentCallDepth else 63;
        if bit !in coverage.depths[pc] {
          coverage := coverage.(hitDepths := coverage.hitDepths + [pc]);
        }
        coverage := coverage.(depths := coverage.depths[pc := coverage.depths[pc] + {bit}]);
      }
      var target := TakenBranch(opcode, operands);
      if target.Some? {
        coverage := coverage.(jumpEdges := Bump(coverage.jumpEdges, markers.edge(pc, target.value)));
      }
      local := local[currentContract.value := coverage];
    }

    method OnCall(callee: nat)
      modifies this
      ensures View() == Apply(markers, old(View()), Call(callee))
    {
      if currentContract.Some? && currentContract.value in local {
        var coverage := local[currentContract.value];
        var marker := markers.call(lastPc, callee);
        local := local[currentContract.value := coverage.(jumpEdges := Bump(coverage.jumpEdges, marker))];
      }
      contractStack := contractStack + [currentContract];
      currentCallDepth := currentCallDepth + 1;
    }

    method OnCallEnd(reverted: bool)
      modifies this
      ensures View() == Apply(markers, old(View()), CallEnd(reverted))
    {
      if reverted {
        OnRevert();
      }
      Leave();
    }

    method OnCreate()
      modifies this
      ensures View() == Apply(markers, old(View()), Create)
    {
      contractStack := contractStack + [currentContract];
      currentCallDepth := currentCallDepth + 1;
      isInitcode := true;
    }

    method OnCreateEnd(reverted: bool)
      modifies this
      ensures View() == Apply(markers, old(View()), CreateEnd(reverted))
    {
      if reverted {
        OnRevert();
      }
      Leave();
      isInitcode := false;
    }

    method Leave()
      modifies this
      ensures View() == PopFrame(old(View()))
    {
      currentCallDepth := if currentCallDepth == 0 then 0 else currentCallDepth - 1;
      var n := |contractStack|;
      if n == 0 {
        currentContract := None;
      } else {
        currentContract, contractStack := contractStack[n - 1], contractStack[..n - 1];
      }
    }
  }

  // ---- Dense arrays and sparse lists agree -------------------------------

  /** Every list entry is explained by the arrays, and the arrays by the list. */
  ghost predicate Consistent(c: LocalContract) {
    && |c.depths| == DepthLen(|c.edges|)
    && |c.reverts| == RevertWords(|c.edges|)
    && (forall pc: nat :: multiset(c.hitPcs)[pc] == if pc < |c.edges| && c.edges[pc] != 0 then 1 else 0)
    && (forall pc: nat :: multiset(c.hitDepths)[pc] == if pc < |c.depths| then |c.depths[pc]| else 0)
    && (forall w: nat :: multiset(c.hitReverts)[w] == if w < |c.reverts| && c.reverts[w] != {} then 1 else 0)
    && (forall m :: m in c.jumpEdges ==> 1 <= c.jumpEdges[m] <= U8_MAX)
    && (forall pc :: 0 <= pc < |c.edges| ==> c.edges[pc] <= U8_MAX)
  }

  ghost predicate Valid(local: map<CoverageId, LocalContract>) {
    forall id :: id in local ==> Consistent(local[id]) && local[id].isInitcode == id.Initcode?
  }

  lemma RecordEdgeKeeps(c: LocalContract, pc: nat)
    requires Consistent(c)
    ensures Consistent(RecordEdge(c, pc))
  {
    var c' := RecordEdge(c, pc);
    assert multiset(c.hitPcs + [pc]) == multiset(c.hitPcs) + multiset{pc};
  }

  lemma RecordDepthKeeps(c: LocalContract, pc: nat, depth: nat)
    requires Consistent(c)
    ensures Consistent(RecordDepth(c, pc, depth))
  {
    var bit := if depth <= 63 then depth else 63;
    var c' := RecordDepth(c, pc, depth);
    if pc < |c.depths| && bit !in c.depths[pc] {
      assert c'.hitDepths == c.hitDepths + [pc];
      assert multiset(c'.hitDepths) == multiset(c.hitDepths) + multiset{pc};
      assert |c.depths[pc] + {bit}| == |c.depths[pc]| + 1;
    } else if pc < |c.depths| {
      assert c.depths[pc] + {bit} == c.depths[pc];
      assert c'.depths == c.depths;
    }
  }

  lemma RecordRevertKeeps(c: LocalContract, pc: nat)
    requires Consistent(c)
    ensures Consistent(RecordRevert(c, pc))
  {
    var word: nat := pc / 64;
    assert multiset(c.hitReverts + [word]) == multiset(c.hitReverts) + multiset{word};
  }

  lemma StepKeepsConsistent(m: Markers, c: LocalContract, pc: nat, depth: nat, opcode: nat, operands: seq<nat>)
    requires Consistent(c)
    ensures Consistent(RecordBranch(m, RecordDepth(RecordEdge(c, pc), pc, depth), pc, opcode, operands))
  {
    RecordEdgeKeeps(c, pc);
    RecordDepthKeeps(RecordEdge(c, pc), pc, depth);
  }

  /** The map after a hook: unchanged, one entry rewritten, or one new entry. */
  lemma HookWritesOneContract(m: Markers, s: State, h: Hook)
    ensures !Tracking(s) && !h.InitializeInterp? ==> Apply(m, s, h).local == s.local
    ensures Tracking(s) && h.Create? ==> Apply(m, s, h).local == s.local
    ensures Tracking(s) && (h.CallEnd? || h.CreateEnd?) ==>
              Apply(m, s, h).local == if h.reverted then AfterRevert(s, true).local else s.local
  {}

  lemma PutKeepsValid(local: map<CoverageId, LocalContract>, id: CoverageId, c: LocalContract)
    requires Valid(local) && Consistent(c) && c.isInitcode == id.Initcode?
    ensures Valid(local[id := c])
  {}

  /** Every hook keeps every contract's arrays and lists in agreement. */
  lemma HookKeepsValid(m: Markers, s: State, h: Hook)
    requires Valid(s.local)
    ensures Valid(Apply(m, s, h).local)
  {
    HookWritesOneContract(m, s, h);
    if h.InitializeInterp? {
      var id := if s.isInitcode then Initcode(h.hash) else Runtime(h.address, h.hash);
      NewIsConsistent(h.len, h.original, s.isInitcode);
      PutKeepsValid(s.local, id, NewContract(h.len, h.original, s.isInitcode));
    } else if Tracking(s) {
      var id := s.current.value;
      var c := s.local[id];
      match h
      case Step(pc, opcode, operands) =>
        StepKeepsConsistent(m, c, pc, s.depth, opcode, operands);
        PutKeepsValid(s.local, id, RecordBranch(m, RecordDepth(RecordEdge(c, pc), pc, s.depth), pc, opcode, operands));
      case Call(callee) =>
        PutKeepsValid(s.local, id, c.(jumpEdges := Bump(c.jumpEdges, m.call(s.lastPc, callee))));
      case CallEnd(_) =>
        RecordRevertKeeps(c, s.lastPc);
        PutKeepsValid(s.local, id, RecordRevert(c, s.lastPc));
      case CreateEnd(_) =>
        RecordRevertKeeps(c, s.lastPc);
        PutKeepsValid(s.local, id, RecordRevert(c, s.lastPc));
      case Create =>
    }
  }

  lemma NewIsConsistent(len: nat, code: seq<nat>, isInitcode: bool)
    ensures Consistent(NewContract(len, code, isInitcode))
  {}

  /** After any hooks, each non-zero edge and revert word is listed once and each PC once per depth bit. */
  lemma {:induction false} RunIsValid(m: Markers, hooks: seq<Hook>)
    ensures Valid(Inspected(m, hooks).local)
  {
    if hooks != [] {
      RunIsValid(m, hooks[..|hooks| - 1]);
      HookKeepsValid(m, Inspected(m, hooks[..|hooks| - 1]), hooks[|hooks| - 1]);
    }
  }

  // ---- The arrays tally the history of hooks ------------------------------

  /** One recorded event; `id` is the contract that was executing. */
  datatype Sample =
    | Visit(id: CoverageId, pc: nat, bit: nat)
    | Reverted(id: CoverageId, pc: nat)
    | Jumped(id: CoverageId, marker: nat)

  function Branches(m: Markers, id: CoverageId, pc: nat, opcode: nat, operands: seq<nat>): seq<Sample> {
    match TakenBranch(opcode, operands)
    case Some(dst) => [Jumped(id, m.edge(pc, dst))]
    case None => []
  }

  /** The events a hook stands for in state `s`. */
  function Samples(m: Markers, s: State, h: Hook): seq<Sample> {
    if !Tracking(s) then []
    else
      var id := s.current.value;
      match h
      case Step(pc, opcode, operands) =>
        [Visit(id, pc, if s.depth <= 63 then s.depth else 63)] + Branches(m, id, pc, opcode, operands)
      case Call(callee) => [Jumped(id, m.call(s.lastPc, callee))]
      case CallEnd(true) => [Reverted(id, s.lastPc)]
      case CreateEnd(true) => [Reverted(id, s.lastPc)]
      case _ => []
  }

  function History(m: Markers, hooks: seq<Hook>): seq<Sample> {
    if hooks == [] then []
    else
      var before := hooks[..|hooks| - 1];
      History(m, before) + Samples(m, Inspected(m, before), hooks[|hooks| - 1])
  }

  function VisitCount(log: seq<Sample>, id: CoverageId, pc: nat): nat {
    if log == [] then 0
    else
      var x := log[|log| - 1];
      VisitCount(log[..|log| - 1], id, pc) + if x.Visit? && x.id == id && x.pc == pc then 1 else 0
  }

  ghost predicate EdgesTallied(log: seq<Sample>, id: CoverageId, c: LocalContract) {
    forall pc: nat :: pc < |c.edges| ==> c.edges[pc] == Min(VisitCount(log, id, pc), U8_MAX)
  }

  ghost predicate DepthsTallied(log: seq<Sample>, id: CoverageId, c: LocalContract) {
    && |c.depths| == DepthLen(|c.edges|)
    && forall pc: nat, bit :: pc < |c.depths| ==> (bit in c.depths[pc] <==> Visit(id, pc, bit) in log)
  }

  ghost predicate RevertsTallied(log: seq<Sample>, id: CoverageId, c: LocalContract) {
    && |c.reverts| == RevertWords(|c.edges|)
    && forall pc: nat :: pc / 64 < |c.reverts| ==> (pc % 64 in c.reverts[pc / 64] <==> Reverted(id, pc) in log)
  }

  ghost predicate JumpsTallied(log: seq<Sample>, id: CoverageId, c: LocalContract) {
    && (forall k: nat :: k in c.jumpEdges <==> Jumped(id, k) in log)
    && (forall k: nat :: k in c.jumpEdges ==> c.jumpEdges[k] == Min(multiset(log)[Jumped(id, k)], U8_MAX))
  }

  ghost predicate TalliedContract(log: seq<Sample>, id: CoverageId, c: LocalContract) {
    EdgesTallied(log, id, c) && DepthsTallied(log, id, c) && RevertsTallied(log, id, c) && JumpsTallied(log, id, c)
  }

  ghost predicate Tallied(log: seq<Sample>, local: map<CoverageId, LocalContract>) {
    && (forall x :: x in log ==> x.id in local)
    && (forall id :: id in local ==> TalliedContract(log, id, local[id]))
  }

  lemma VisitCountAppend(log: seq<Sample>, x: Sample, id: CoverageId, pc: nat)
    ensures VisitCount(log + [x], id, pc)
         == VisitCount(log, id, pc) + if x.Visit? && x.id == id && x.pc == pc then 1 else 0
  {
    assert (log + [x])[..|log|] == log;
  }

  lemma {:induction false} VisitCountAbsent(log: seq<Sample>, id: CoverageId, pc: nat)
    requires forall x :: x in log ==> x.id != id
    ensures VisitCount(log, id, pc) == 0
  {
    if log != [] {
      VisitCountAbsent(log[..|log| - 1], id, pc);
    }
  }

  /** Appending an event of another contract leaves a contract's tally alone. */
  lemma ForeignSample(log: seq<Sample>, x: Sample, id: CoverageId, c: LocalContract)
    requires TalliedContract(log, id, c) && x.id != id
    ensures TalliedContract(log + [x], id, c)
  {
    forall pc: nat ensures VisitCount(log + [x], id, pc) == VisitCount(log, id, pc) {
      VisitCountAppend(log, x, id, pc);
    }
    assert multiset(log + [x]) == multiset(log) + multiset{x};
  }

  lemma VisitEdgesTallied(log: seq<Sample>, id: CoverageId, c: LocalContract, pc: nat, bit: nat)
    requires EdgesTallied(log, id, c)
    ensures EdgesTallied(log + [Visit(id, pc, bit)], id, RecordEdge(c, pc))
  {
    forall p: nat
      ensures VisitCount(log + [Visit(id, pc, bit)], id, p) == VisitCount(log, id, p) + if p == pc then 1 else 0
    {
      VisitCountAppend(log, Visit(id, pc, bit), id, p);
    }
  }

  lemma VisitDepthsTallied(log: seq<Sample>, id: CoverageId, c: LocalContract, pc: nat, depth: nat)
    requires DepthsTallied(log, id, c)
    ensures DepthsTallied(log + [Visit(id, pc, if depth <= 63 then depth else 63)], id, RecordDepth(c, pc, depth))
  {}

  lemma VisitTallied(log: seq<Sample>, id: CoverageId, c: LocalContract, pc: nat, depth: nat)
    requires TalliedContract(log, id, c)
    ensures TalliedContract(log + [Visit(id, pc, if depth <= 63 then depth else 63)], id,
                            RecordDepth(RecordEdge(c, pc), pc, depth))
  {
    var x := Visit(id, pc, if depth <= 63 then depth else 63);
    VisitEdgesTallied(log, id, c, pc, x.bit);
    VisitDepthsTallied(log, id, RecordEdge(c, pc), pc, depth);
    assert multiset(log + [x]) == multiset(log) + multiset{x};
    assert RevertsTallied(log + [x], id, c) && JumpsTallied(log + [x], id, c);
  }

  lemma JumpTallied(log: seq<Sample>, id: CoverageId, c: LocalContract, marker: nat)
    requires TalliedContract(log, id, c)
    ensures TalliedContract(log + [Jumped(id, marker)], id, c.(jumpEdges := Bump(c.jumpEdges, marker)))
  {
    var x := Jumped(id, marker);
    forall p: nat ensures VisitCount(log + [x], id, p) == VisitCount(log, id, p) {
      VisitCountAppend(log, x, id, p);
    }
    assert multiset(log + [x]) == multiset(log) + multiset{x};
    assert marker !in c.jumpEdges ==> multiset(log)[x] == 0;
    assert forall k: nat :: k != marker ==> multiset(log + [x])[Jumped(id, k)] == multiset(log)[Jumped(id, k)];
  }

  lemma RevertTallied(log: seq<Sample>, id: CoverageId, c: LocalContract, pc: nat)
    requires TalliedContract(log, id, c)
    ensures TalliedContract(log + [Reverted(id, pc)], id, RecordRevert(c, pc))
  {
    var x := Reverted(id, pc);
    forall p: nat ensures VisitCount(log + [x], id, p) == VisitCount(log, id, p) {
      VisitCountAppend(log, x, id, p);
    }
    assert multiset(log + [x]) == multiset(log) + multiset{x};
    assert forall p: nat :: p == 64 * (p / 64) + p % 64;
  }

  /** Replacing one contract by its updated tally extends the whole map's tally. */
  lemma SampleTallied(log: seq<Sample>, x: Sample, local: map<CoverageId, LocalContract>, c: LocalContract)
    requires Tallied(log, local) && x.id in local
    requires TalliedContract(log + [x], x.id, c)
    ensures Tallied(log + [x], local[x.id := c])
  {
    forall id | id in local && id != x.id ensures TalliedContract(log + [x], id, local[id]) {
      ForeignSample(log, x, id, local[id]);
    }
  }

  lemma NewContractTallied(log: seq<Sample>, local: map<CoverageId, LocalContract>, id: CoverageId,
                           len: nat, code: seq<nat>, isInitcode: bool)
    requires Tallied(log, local) && id !in local
    ensures Tallied(log, local[id := NewContract(len, code, isInitcode)])
  {
    forall pc: nat ensures VisitCount(log, id, pc) == 0 {
      VisitCountAbsent(log, id, pc);
    }
  }

  lemma BranchKeepsTally(m: Markers, log: seq<Sample>, local: map<CoverageId, LocalContract>, id: CoverageId,
                         pc: nat, opcode: nat, operands: seq<nat>)
    requires Tallied(log, local) && id in local
    ensures Tallied(log + Branches(m, id, pc, opcode, operands),
                    local[id := RecordBranch(m, local[id], pc, opcode, operands)])
  {
    var target := TakenBranch(opcode, operands);
    if target.Some? {
      var jump := Jumped(id, m.edge(pc, target.value));
      JumpTallied(log, id, local[id], jump.marker);
      SampleTallied(log, jump, local, RecordBranch(m, local[id], pc, opcode, operands));
    } else {
      assert log + [] == log && local[id := local[id]] == local;
    }
  }

  lemma VisitKeepsTally(log: seq<Sample>, s: State, pc: nat)
    requires Tallied(log, s.local) && Tracking(s)
    ensures var id := s.current.value;
            Tallied(log + [Visit(id, pc, if s.depth <= 63 then s.depth else 63)],
                    s.local[id := RecordDepth(RecordEdge(s.local[id], pc), pc, s.depth)])
  {
    var id := s.current.value;
    VisitTallied(log, id, s.local[id], pc, s.depth);
    SampleTallied(log, Visit(id, pc, if s.depth <= 63 then s.depth else 63), s.local,
                  RecordDepth(RecordEdge(s.local[id], pc), pc, s.depth));
  }

  lemma AppendTwice<T>(a: seq<T>, b: seq<T>, c: seq<T>)
    ensures a + b + c == a + (b + c)
  {}

  lemma WriteTwice<K, V>(m: map<K, V>, k: K, v: V, w: V)
    ensures m[k := v][k := w] == m[k := w]
  {}

  lemma StepKeepsTally(m: Markers, log: seq<Sample>, s: State, pc: nat, opcode: nat, operands: seq<nat>)
    requires Tallied(log, s.local) && Tracking(s)
    ensures Tallied(log + Samples(m, s, Step(pc, opcode, operands)), Apply(m, s, Step(pc, opcode, operands)).local)
  {
    var id := s.current.value;
    var visit := [Visit(id, pc, if s.depth <= 63 then s.depth else 63)];
    var local1 := s.local[id := RecordDepth(RecordEdge(s.local[id], pc), pc, s.depth)];
    VisitKeepsTally(log, s, pc);
    BranchKeepsTally(m, log + visit, local1, id, pc, opcode, operands);
    AppendTwice(log, visit, Branches(m, id, pc, opcode, operands));
    WriteTwice(s.local, id, local1[id], RecordBranch(m, local1[id], pc, opcode, operands));
  }

  lemma CallKeepsTally(m: Markers, log: seq<Sample>, s: State, callee: nat)
    requires Tallied(log, s.local) && Tracking(s)
    ensures Tallied(log + Samples(m, s, Call(callee)), Apply(m, s, Call(callee)).local)
  {
    var id := s.current.value;
    var jump := Jumped(id, m.call(s.lastPc, callee));
    JumpTallied(log, id, s.local[id], jump.marker);
    SampleTallied(log, jump, s.local, s.local[id].(jumpEdges := Bump(s.local[id].jumpEdges, jump.marker)));
  }

  lemma EndKeepsTally(m: Markers, log: seq<Sample>, s: State, h: Hook)
    requires Tallied(log, s.local) && Tracking(s) && (h.CallEnd? || h.CreateEnd?)
    ensures Tallied(log + Samples(m, s, h), Apply(m, s, h).local)
  {
    var id := s.current.value;
    assert log + [] == log;
    RevertTallied(log, id, s.local[id], s.lastPc);
    SampleTallied(log, Reverted(id, s.lastPc), s.local, RecordRevert(s.local[id], s.lastPc));
  }

  lemma HookKeepsTally(m: Markers, log: seq<Sample>, s: State, h: Hook)
    requires Tallied(log, s.local)
    ensures Tallied(log + Samples(m, s, h), Apply(m, s, h).local)
  {
    assert log + [] == log;
    if h.InitializeInterp? {
      var id := if s.isInitcode then Initcode(h.hash) else Runtime(h.address, h.hash);
      if id !in s.local {
        NewContractTallied(log, s.local, id, h.len, h.original, s.isInitcode);
      }
    } else if Tracking(s) {
      match h
      case Step(pc, opcode, operands) => StepKeepsTally(m, log, s, pc, opcode, operands);
      case Call(callee) => CallKeepsTally(m, log, s, callee);
      case CallEnd(_) => EndKeepsTally(m, log, s, h);
      case CreateEnd(_) => EndKeepsTally(m, log, s, h);
      case Create =>
    }
  }

  /** Hit counts, depth sets, revert sets and jump counts are exactly what the hooks' history says. */
  lemma {:induction false} RunTalliesHistory(m: Markers, hooks: seq<Hook>)
    ensures Tallied(History(m, hooks), Inspected(m, hooks).local)
  {
    if hooks != [] {
      var before := hooks[..|hooks| - 1];
      RunTalliesHistory(m, before);
      HookKeepsTally(m, History(m, before), Inspected(m, before), hooks[|hooks| - 1]);
    }
  }

  // ---- Frames -------------------------------------------------------------

  function Opens(h: Hook): int {
    match h
    case Call(_) => 1
    case Create => 1
    case CallEnd(_) => -1
    case CreateEnd(_) => -1
    case _ => 0
  }

  function Height(hooks: seq<Hook>): int {
    if hooks == [] then 0 else Height(hooks[..|hooks| - 1]) + Opens(hooks[|hooks| - 1])
  }

  function RunFrom(m: Markers, s: State, hooks: seq<Hook>): State {
    if hooks == [] then s
    else Apply(m, RunFrom(m, s, hooks[..|hooks| - 1]), hooks[|hooks| - 1])
  }

  /** Hooks of one frame: opened by the first hook and closed by the last one only. */
  ghost predicate OneFrame(hooks: seq<Hook>) {
    && |hooks| >= 2
    && (forall k :: 0 < k < |hooks| ==> Height(hooks[..k]) > 0)
    && Height(hooks) == 0
  }

  lemma HookMovesFrames(m: Markers, s: State, h: Hook)
    ensures var t := Apply(m, s, h);
            && (Opens(h) == 1 ==> t.frames == s.frames + [s.current] && t.depth == s.depth + 1)
            && (Opens(h) == 0 ==> t.frames == s.frames && t.depth == s.depth)
            && (Opens(h) == -1 && |s.frames| > 0 && s.depth > 0 ==>
                  t.frames == s.frames[..|s.frames| - 1] && t.depth == s.depth - 1 && t.current == s.frames[|s.frames| - 1])
    ensures -1 <= Opens(h) <= 1
  {}

  lemma {:induction false} InsideFrame(m: Markers, s: State, hooks: seq<Hook>, k: nat)
    requires OneFrame(hooks) && 0 < k < |hooks|
    ensures var t := RunFrom(m, s, hooks[..k]);
            && t.depth == s.depth + Height(hooks[..k])
            && |t.frames| == |s.frames| + Height(hooks[..k])
            && t.frames[..|s.frames| + 1] == s.frames + [s.current]
  {
    assert hooks[..k][..k - 1] == hooks[..k - 1] && hooks[..k][k - 1] == hooks[k - 1];
    if k == 1 {
      assert hooks[..0] == [];
      HookMovesFrames(m, s, hooks[0]);
    } else {
      InsideFrame(m, s, hooks, k - 1);
      HookMovesFrames(m, RunFrom(m, s, hooks[..k - 1]), hooks[k - 1]);
      assert Height(hooks[..k]) > 0;
    }
  }

  lemma ClosingHook(m: Markers, u: State, h: Hook, s: State)
    requires Opens(h) == -1 && u.depth == s.depth + 1 && u.frames == s.frames + [s.current]
    ensures var t := Apply(m, u, h); t.depth == s.depth && t.current == s.current && t.frames == s.frames
  {
    HookMovesFrames(m, u, h);
  }

  lemma LastHookCloses(hooks: seq<Hook>)
    requires OneFrame(hooks)
    ensures Opens(hooks[|hooks| - 1]) == -1 && Height(hooks[..|hooks| - 1]) == 1
  {}

  /** However deep the calls inside it and whatever they revert, a frame gives back its caller's context. */
  lemma FrameRestoresCaller(m: Markers, s: State, hooks: seq<Hook>)
    requires OneFrame(hooks)
    ensures var t := RunFrom(m, s, hooks);
            t.depth == s.depth && t.current == s.current && t.frames == s.frames
  {
    var n := |hooks|;
    InsideFrame(m, s, hooks, n - 1);
    LastHookCloses(hooks);
    var u := RunFrom(m, s, hooks[..n - 1]);
    assert u.frames[..|s.frames| + 1] == u.frames;
    ClosingHook(m, u, hooks[n - 1], s);
  }

  // ---- What each hook records, spelled out ---------------------------------------------

  /**
   A JUMP, or a JUMPI whose condition is not zero, counts the edge to a destination that fits
   64 bits, up to 255; no other step touches the jump map, and no step touches another contract.
   */
  lemma StepRecordsJump(m: Markers, s: State, pc: nat, opcode: nat, rest: seq<nat>, cond: nat, dst: nat)
    requires Tracking(s)
    ensures var before := s.local[s.current.value].jumpEdges;
            var t := Apply(m, s, Step(pc, opcode, rest + [cond, dst]));
            && t.local.Keys == s.local.Keys
            && (forall id :: id in s.local && id != s.current.value ==> t.local[id] == s.local[id])
            && t.local[s.current.value].jumpEdges
               == if dst < 0x1_0000_0000_0000_0000 && (opcode == 0x56 || (opcode == 0x57 && cond != 0)) then
                    before[m.edge(pc, dst) := if m.edge(pc, dst) !in before then 1
                                              else if before[m.edge(pc, dst)] < 255 then before[m.edge(pc, dst)] + 1 else 255]
                  else before
  {
    var operands := rest + [cond, dst];
    assert operands[|operands| - 1] == dst && operands[|operands| - 2] == cond;
  }

  /** With one word on the stack JUMPI takes its own destination for the condition; with none nothing is recorded. */
  lemma ShortStackJump(m: Markers, s: State, pc: nat, opcode: nat, dst: nat)
    requires Tracking(s)
    ensures var before := s.local[s.current.value].jumpEdges;
            && Apply(m, s, Step(pc, opcode, [])).local[s.current.value].jumpEdges == before
            && Apply(m, s, Step(pc, opcode, [dst])).local[s.current.value].jumpEdges
               == if dst < 0x1_0000_0000_0000_0000 && (opcode == 0x56 || (opcode == 0x57 && dst != 0)) then
                    before[m.edge(pc, dst) := if m.edge(pc, dst) !in before then 1
                                              else if before[m.edge(pc, dst)] < 255 then before[m.edge(pc, dst)] + 1 else 255]
                  else before
  {}

  /** Entering code selects its map, under the code hash alone for initcode, and creates it blank when it is new. */
  lemma CodeEntered(m: Markers, s: State, hash: nat, len: nat, original: seq<nat>, address: nat)
    ensures var t := Apply(m, s, InitializeInterp(hash, len, original, address));
            var id := if s.isInitcode then Initcode(hash) else Runtime(address, hash);
            if hash == 0 || len == 0 then t == s
            else
              && t.current == Some(id) && !t.isInitcode && t.depth == s.depth && t.frames == s.frames && t.lastPc == s.lastPc
              && t.local.Keys == s.local.Keys + {id} && (forall k :: k in s.local ==> t.local[k] == s.local[k])
              && (id !in s.local ==>
                    var c := t.local[id];
                    && |c.edges| == len && (forall k :: 0 <= k < len ==> c.edges[k] == 0)
                    && |c.depths| == (if len <= 1024 then len else 1024) && (forall k :: 0 <= k < |c.depths| ==> c.depths[k] == {})
                    && |c.reverts| == (len + 63) / 64 && (forall k :: 0 <= k < |c.reverts| ==> c.reverts[k] == {})
                    && c.jumpEdges == map[] && c.hitPcs == [] && c.hitDepths == [] && c.hitReverts == []
                    && c.bytecode == original && c.isInitcode == s.isInitcode)
  {}

  /** PC of the last step, zero before any. */
  function LastStep(hooks: seq<Hook>): nat {
    if hooks == [] then 0
    else if hooks[|hooks| - 1].Step? then hooks[|hooks| - 1].pc
    else LastStep(hooks[..|hooks| - 1])
  }

  /** A create has begun whose code has not been entered yet, and which has not ended. */
  function AwaitsInitcode(hooks: seq<Hook>): bool {
    if hooks == [] then false
    else
      match hooks[|hooks| - 1]
      case Create => true
      case CreateEnd(_) => false
      case InitializeInterp(hash, len, _, _) => (hash == 0 || len == 0) && AwaitsInitcode(hooks[..|hooks| - 1])
      case _ => AwaitsInitcode(hooks[..|hooks| - 1])
  }

  lemma HookMovesContext(m: Markers, s: State, h: Hook)
    ensures Apply(m, s, h).lastPc == if h.Step? then h.pc else s.lastPc
    ensures Apply(m, s, h).isInitcode
         == match h
            case Create => true
            case CreateEnd(_) => false
            case InitializeInterp(hash, len, _, _) => (hash == 0 || len == 0) && s.isInitcode
            case _ => s.isInitcode
  {}

  /** Reverts and calls are filed under the last step's PC, and code is initcode exactly when a create awaits it. */
  lemma {:induction false} ContextFollowsHooks(m: Markers, hooks: seq<Hook>)
    ensures Inspected(m, hooks).lastPc == LastStep(hooks)
    ensures Inspected(m, hooks).isInitcode == AwaitsInitcode(hooks)
  {
    if |hooks| == 0 {
      assert hooks == [];
    } else {
      var before, h := hooks[..|hooks| - 1], hooks[|hooks| - 1];
      ContextFollowsHooks(m, before);
      HookMovesContext(m, Inspected(m, before), h);
    }
  }

  /** A step counts its PC up to 255 and sets the bit of the call depth, capped at 63, in the first 1024 PCs. */
  lemma StepRecordsVisit(m: Markers, s: State, pc: nat, opcode: nat, operands: seq<nat>)
    requires Tracking(s)
    ensures var c, c' := s.local[s.current.value], Apply(m, s, Step(pc, opcode, operands)).local[s.current.value];
            && |c'.edges| == |c.edges| && |c'.depths| == |c.depths| && c'.reverts == c.reverts
            && (forall k: nat :: k < |c.edges| ==>
                  c'.edges[k] == if k != pc then c.edges[k] else if c.edges[k] < 255 then c.edges[k] + 1 else 255)
            && (forall k: nat :: k < |c.depths| ==>
                  c'.depths[k] == if k != pc then c.depths[k] else c.depths[k] + {if s.depth < 63 then s.depth else 63})
  {}

  /** A reverting end sets the bit of the last PC in the contract that was executing; any other end records nothing. */
  lemma EndRecordsRevert(m: Markers, s: State, create: bool, reverted: bool)
    ensures var t := Apply(m, s, if create then CreateEnd(reverted) else CallEnd(reverted));
            if !reverted || s.current.None? || s.current.value !in s.local then t.local == s.local
            else
              var c := s.local[s.current.value];
              && t.local.Keys == s.local.Keys
              && (forall id :: id in s.local && id != s.current.value ==> t.local[id] == s.local[id])
              && var c' := t.local[s.current.value];
                 && c'.edges == c.edges && c'.depths == c.depths && c'.jumpEdges == c.jumpEdges && |c'.reverts| == |c.reverts|
                 && forall w: nat :: w < |c.reverts| ==>
                      c'.reverts[w] == if w == s.lastPc / 64 then c.reverts[w] + {s.lastPc % 64} else c.reverts[w]
  {}

  /** A call counts its marker, from the last PC, in the calling contract. */
  lemma CallRecordsEdge(m: Markers, s: State, callee: nat)
    ensures var t := Apply(m, s, Call(callee));
            if s.current.None? || s.current.value !in s.local then t.local == s.local
            else
              var c, marker := s.local[s.current.value], m.call(s.lastPc, callee);
              t.local == s.local[s.current.value := c.(jumpEdges := c.jumpEdges[marker :=
                if marker !in c.jumpEdges then 1 else if c.jumpEdges[marker] < 255 then c.jumpEdges[marker] + 1 else 255])]
  {}
}
