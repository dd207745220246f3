/** Reference closure, base contracts and override dispatch in the function-source inspector. */
module References {
  import opened Basics

  type Id = int

  /** Declaration id to the ids it points at; an id without an entry points at nothing. */
  type Graph = map<Id, seq<Id>>

  function Next(g: Graph, id: Id): seq<Id> {
    if id in g then g[id] else []
  }

  /** A walk along edges, first to last. */
  predicate IsPath(g: Graph, path: seq<Id>) {
    path != [] && forall k :: 0 <= k < |path| - 1 ==> path[k + 1] in Next(g, path[k])
  }

  ghost predicate Reachable(g: Graph, root: Id, id: Id) {
    exists path :: IsPath(g, path) && path[0] == root && path[|path| - 1] == id
  }

  lemma RootIsReachable(g: Graph, root: Id)
    ensures Reachable(g, root, root)
  {
    assert IsPath(g, [root]);
  }

  lemma ReachableExtends(g: Graph, root: Id, id: Id, next: Id)
    requires Reachable(g, root, id) && next in Next(g, id)
    ensures Reachable(g, root, next)
  {
    var path :| IsPath(g, path) && path[0] == root && path[|path| - 1] == id;
    assert IsPath(g, path + [next]);
  }

  lemma {:induction false} PathStaysInside(g: Graph, path: seq<Id>, inside: set<Id>)
    requires IsPath(g, path) && path[0] in inside
    requires forall id, next :: id in inside && next in Next(g, id) ==> next in inside
    ensures path[|path| - 1] in inside
    decreases |path|
  {
    if |path| > 1 {
      var n := |path| - 1;
      assert IsPath(g, path[..n]);
      PathStaysInside(g, path[..n], inside);
      assert path[n] in Next(g, path[n - 1]);
    }
  }

  /** A set that holds the root and is closed under edges holds everything reachable. */
  lemma ClosedHoldsReachable(g: Graph, root: Id, inside: set<Id>)
    requires root in inside
    requires forall id, next :: id in inside && next in Next(g, id) ==> next in inside
    ensures forall id :: Reachable(g, root, id) ==> id in inside
  {
    forall id | Reachable(g, root, id) ensures id in inside {
      var path :| IsPath(g, path) && path[0] == root && path[|path| - 1] == id;
      PathStaysInside(g, path, inside);
    }
  }

  function Universe(g: Graph, root: Id): set<Id> {
    {root} + set id, next | id in g && next in g[id] :: next
  }

  function ToSet(s: seq<Id>): set<Id> {
    set id | id in s
  }

  lemma ToSetGrows(s: seq<Id>, id: Id)
    ensures ToSet(s + [id]) == ToSet(s) + {id}
    ensures id in ToSet(s) <==> id in s
  {}

  /** Exactly the ids reachable from the root, each once, the root first. */
  ghost predicate Closure(g: Graph, root: Id, ids: seq<Id>) {
    && ids != [] && ids[0] == root && Distinct(ids)
    && forall id :: id in ids <==> Reachable(g, root, id)
  }

  ghost predicate Within(g: Graph, root: Id, ids: seq<Id>) {
    forall id :: id in ids ==> Reachable(g, root, id) && id in Universe(g, root)
  }

  lemma WithinStep(g: Graph, root: Id, ids: seq<Id>, after: seq<Id>, current: Id)
    requires Within(g, root, ids) && Reachable(g, root, current)
    requires forall id :: id in after ==> id in ids || id in Next(g, current)
    ensures Within(g, root, after)
  {
    forall id | id in after ensures Reachable(g, root, id) && id in Universe(g, root) {
      if id !in ids {
        ReachableExtends(g, root, current, id);
      }
    }
  }

  // ---- The reference closure -----------------------------------------------------------

  /** `declared` ids have a symbol; `references` is what each declaration's own source refers to. */
  datatype Index = Index(declared: set<Id>, contracts: set<Id>, references: Graph)

  function Filtered(ids: seq<Id>, keep: set<Id>): (r: seq<Id>)
    ensures forall id :: id in r <==> id in ids && id in keep
  {
    if ids == [] then []
    else
      var before := Filtered(ids[..|ids| - 1], keep);
      if ids[|ids| - 1] in keep then before + [ids[|ids| - 1]] else before
  }

  /** The edges the walk follows: none out of a contract, and none to an undeclared id. */
  function Expansion(index: Index): Graph {
    map id | id in index.references && id !in index.contracts :: Filtered(index.references[id], index.declared)
  }

  /** The walk goes from a declaration that is not a contract to what its source refers to and the index declares. */
  lemma ExpansionEdges(index: Index, id: Id, next: Id)
    ensures next in Next(Expansion(index), id)
       <==> id in index.references && id !in index.contracts && next in index.references[id] && next in index.declared
  {}

  /** A declaration that is not a contract refers to a declared id. */
  predicate Refers(index: Index, id: Id, next: Id) {
    id in index.references && id !in index.contracts && next in index.references[id] && next in index.declared
  }

  /** A chain of references, first to last. */
  predicate RefersAlong(index: Index, path: seq<Id>) {
    path != [] && forall k :: 0 <= k < |path| - 1 ==> Refers(index, path[k], path[k + 1])
  }

  lemma SamePaths(index: Index, path: seq<Id>)
    ensures IsPath(Expansion(index), path) <==> RefersAlong(index, path)
  {
    forall k | 0 <= k < |path| - 1 ensures path[k + 1] in Next(Expansion(index), path[k]) <==> Refers(index, path[k], path[k + 1]) {
      ExpansionEdges(index, path[k], path[k + 1]);
    }
  }

  /** What `resolve_recursive` lists, without the walk's own graph: the ids some chain of references leads to. */
  lemma ResolvedIffReferred(index: Index, root: Id, resolved: seq<Id>, id: Id)
    requires Closure(Expansion(index), root, resolved)
    ensures id in resolved <==> exists path :: RefersAlong(index, path) && path[0] == root && path[|path| - 1] == id
  {
    if Reachable(Expansion(index), root, id) {
      var path :| IsPath(Expansion(index), path) && path[0] == root && path[|path| - 1] == id;
      SamePaths(index, path);
    }
    if path :| RefersAlong(index, path) && path[0] == root && path[|path| - 1] == id {
      SamePaths(index, path);
    }
  }

  /** Every reference of a resolved declaration is resolved or still on the stack. */
  ghost predicate Pending(g: Graph, resolved: seq<Id>, stack: seq<Id>) {
    forall id, next :: id in resolved && next in Next(g, id) ==> next in resolved || next in stack
  }

  /** The loop of `resolve_recursive`: what has been resolved, and the stack still to visit. */
  ghost predicate Walking(g: Graph, root: Id, resolved: seq<Id>, stack: seq<Id>) {
    && Distinct(resolved) && (if resolved == [] then stack == [root] else resolved[0] == root)
    && Within(g, root, resolved) && Within(g, root, stack) && Pending(g, resolved, stack)
  }

  lemma WalkStarts(g: Graph, root: Id)
    ensures Walking(g, root, [], [root])
  {
    RootIsReachable(g, root);
  }

  lemma WalkSkips(g: Graph, root: Id, resolved: seq<Id>, stack: seq<Id>)
    requires stack != [] && Walking(g, root, resolved, stack) && stack[|stack| - 1] in resolved
    ensures Walking(g, root, resolved, stack[..|stack| - 1])
  {
    assert stack == stack[..|stack| - 1] + [stack[|stack| - 1]];
  }

  lemma PendingVisits(g: Graph, resolved: seq<Id>, stack: seq<Id>, id: Id)
    requires Pending(g, resolved, stack + [id])
    ensures Pending(g, resolved + [id], stack + Next(g, id))
  {
    assert forall x :: x in stack + [id] ==> x in stack + Next(g, id) || x in resolved + [id];
  }

  lemma WalkVisits(g: Graph, root: Id, resolved: seq<Id>, stack: seq<Id>)
    requires stack != [] && Walking(g, root, resolved, stack) && stack[|stack| - 1] !in resolved
    ensures var id := stack[|stack| - 1]; Walking(g, root, resolved + [id], stack[..|stack| - 1] + Next(g, id))
  {
    var id, left := stack[|stack| - 1], stack[..|stack| - 1];
    assert stack == left + [id];
    PendingVisits(g, resolved, left, id);
    WithinStep(g, root, stack, left + Next(g, id), id);
  }

  lemma VisitShrinks(g: Graph, root: Id, resolved: seq<Id>, stack: seq<Id>, all: set<Id>)
    requires stack != [] && Walking(g, root, resolved, stack) && stack[|stack| - 1] !in resolved && all == Universe(g, root)
    ensures |all - ToSet(resolved + [stack[|stack| - 1]])| < |all - ToSet(resolved)|
  {
    var id := stack[|stack| - 1];
    ToSetGrows(resolved, id);
    assert all - ToSet(resolved) == (all - ToSet(resolved + [id])) + {id};
  }

  lemma WalkEnds(g: Graph, root: Id, resolved: seq<Id>)
    requires Walking(g, root, resolved, [])
    ensures Closure(g, root, resolved)
  {
    ClosedHoldsReachable(g, root, ToSet(resolved));
  }

  /** Pushes the declared references of a declaration that is not a contract. */
  method PushReferences(index: Index, id: Id, stack: seq<Id>) returns (pushed: seq<Id>)
    ensures pushed == stack + Next(Expansion(index), id)
  {
    pushed := stack;
    if id !in index.contracts && id in index.references {
      var references := index.references[id];
      for i := 0 to |references|
        invariant pushed == stack + Filtered(references[..i], index.declared)
      {
        assert references[..i + 1][..i] == references[..i];
        if references[i] in index.declared {
          pushed := pushed + [references[i]];
        }
      }
      assert references[..|references|] == references;
    }
  }

  /** Terminates on every graph, cyclic or not. */
  method ResolveRecursive(index: Index, root: Id) returns (resolved: seq<Id>)
    ensures Closure(Expansion(index), root, resolved)
  {
    ghost var g := Expansion(index);
    ghost var all := Universe(g, root);
    resolved := [];
    var seen: set<Id> := {};
    var stack := [root];
    WalkStarts(g, root);
    while stack != []
      invariant seen == ToSet(resolved) && Walking(g, root, resolved, stack)
      decreases |all - ToSet(resolved)|, |stack|
    {
      var id := stack[|stack| - 1];
      ToSetGrows(resolved, id);
      if id in seen {
        WalkSkips(g, root, resolved, stack);
        stack := stack[..|stack| - 1];
      } else {
        WalkVisits(g, root, resolved, stack);
        VisitShrinks(g, root, resolved, stack, all);
        stack := PushReferences(index, id, stack[..|stack| - 1]);
        seen := seen + {id};
        resolved := resolved + [id];
      }
    }
    WalkEnds(g, root, resolved);
  }

  // ---- Base contracts ---------------------------------------------------------------------

  ghost predicate HasCause(bases: Graph, earlier: seq<Id>, base: Id) {
    exists id :: id in earlier && base in Next(bases, id)
  }

  /** Every listed contract after the first is a base of an earlier one. */
  ghost predicate Caused(bases: Graph, list: seq<Id>) {
    forall k :: 0 < k < |list| ==> HasCause(bases, list[..k], list[k])
  }

  ghost predicate Expanded(bases: Graph, list: seq<Id>, head: nat) {
    forall k, base :: 0 <= k < head && k < |list| && base in Next(bases, list[k]) ==> base in list
  }

  /** The loop of `ancestors`: every base of an expanded contract is listed, each because of an earlier one. */
  ghost predicate Climbing(bases: Graph, contract: Id, list: seq<Id>, head: nat) {
    && Distinct(list) && list != [] && list[0] == contract && head <= |list|
    && Within(bases, contract, list) && Expanded(bases, list, head) && Caused(bases, list)
  }

  lemma ListIsBounded(all: set<Id>, list: seq<Id>)
    requires Distinct(list) && forall id :: id in list ==> id in all
    ensures |list| <= |all|
  {
    DistinctSize(list);
    assert ToSet(list) <= all;
    SubsetSize(ToSet(list), all);
  }

  lemma SubsetSize(a: set<Id>, b: set<Id>)
    requires a <= b
    ensures |a| <= |b|
  {
    assert b == a + (b - a);
  }

  lemma {:induction false} DistinctSize(list: seq<Id>)
    requires Distinct(list)
    ensures |ToSet(list)| == |list|
  {
    if |list| > 0 {
      DistinctSize(list[..|list| - 1]);
      assert ToSet(list) == ToSet(list[..|list| - 1]) + {list[|list| - 1]};
    }
  }

  /** The list with those of `ids` appended that it does not hold yet. */
  function Listed(list: seq<Id>, ids: seq<Id>): seq<Id> {
    if ids == [] then list
    else
      var before := Listed(list, ids[..|ids| - 1]);
      if ids[|ids| - 1] in before then before else before + [ids[|ids| - 1]]
  }

  lemma {:induction false} ListedAppends(list: seq<Id>, ids: seq<Id>)
    requires Distinct(list)
    ensures list <= Listed(list, ids) && Distinct(Listed(list, ids))
    ensures forall id :: id in Listed(list, ids) <==> id in list || id in ids
    ensures forall k :: |list| <= k < |Listed(list, ids)| ==> Listed(list, ids)[k] in ids
  {
    if |ids| == 0 {
      assert ids == [];
    } else {
      ListedAppends(list, ids[..|ids| - 1]);
      assert ids == ids[..|ids| - 1] + [ids[|ids| - 1]];
    }
  }

  lemma CausedStep(bases: Graph, list: seq<Id>, after: seq<Id>, head: nat)
    requires Caused(bases, list) && head < |list| && list <= after
    requires forall k :: |list| <= k < |after| ==> after[k] in Next(bases, list[head])
    ensures Caused(bases, after)
  {
    forall k | 0 < k < |after| ensures HasCause(bases, after[..k], after[k]) {
      if k < |list| {
        assert after[..k] == list[..k];
      } else {
        assert after[..k][head] == list[head];
      }
    }
  }

  lemma ClimbStep(bases: Graph, contract: Id, list: seq<Id>, head: nat)
    requires Climbing(bases, contract, list, head) && head < |list|
    ensures var after := Listed(list, Next(bases, list[head]));
            Climbing(bases, contract, after, head + 1) && |after| <= |Universe(bases, contract)|
  {
    var after := Listed(list, Next(bases, list[head]));
    ListedAppends(list, Next(bases, list[head]));
    WithinStep(bases, contract, list, after, list[head]);
    CausedStep(bases, list, after, head);
    ListIsBounded(Universe(bases, contract), after);
  }

  lemma ClimbStarts(bases: Graph, contract: Id)
    ensures Climbing(bases, contract, [contract], 0)
  {
    RootIsReachable(bases, contract);
  }

  lemma ClimbEnds(bases: Graph, contract: Id, list: seq<Id>)
    requires Climbing(bases, contract, list, |list|)
    ensures Closure(bases, contract, list)
  {
    ClosedHoldsReachable(bases, contract, ToSet(list));
  }

  method AppendNew(list: seq<Id>, ids: seq<Id>, seen: set<Id>) returns (longer: seq<Id>, seen': set<Id>)
    requires seen == ToSet(list)
    ensures longer == Listed(list, ids) && seen' == ToSet(longer)
  {
    longer, seen' := list, seen;
    for i := 0 to |ids|
      invariant longer == Listed(list, ids[..i]) && seen' == ToSet(longer)
    {
      assert ids[..i + 1][..i] == ids[..i];
      if ids[i] !in seen' {
        seen' := seen' + {ids[i]};
        longer := longer + [ids[i]];
      }
    }
    assert ids[..|ids|] == ids;
  }

  /** Breadth first: each base comes after a contract that names it. */
  method Ancestors(bases: Graph, contract: Id) returns (list: seq<Id>)
    ensures Closure(bases, contract, list)
    ensures Caused(bases, list)
  {
    list := [contract];
    var seen := {contract};
    var head := 0;
    ClimbStarts(bases, contract);
    while head < |list|
      invariant seen == ToSet(list) && Climbing(bases, contract, list, head)
      decreases |Universe(bases, contract)| + 1 - head
    {
      ClimbStep(bases, contract, list, head);
      var current := list[head];
      head := head + 1;
      if current in bases {
        list, seen := AppendNew(list, bases[current], seen);
      }
    }
    ClimbEnds(bases, contract, list);
  }

  // ---- Override dispatch -----------------------------------------------------------------

  type Signature = (string, string)

  /** `contract` is the owner; `regular` excludes constructors, fallbacks and the like. */
  datatype Declaration = Declaration(
    contract: Option<Id>,
    signature: Signature,
    isFunction: bool,
    regular: bool,
    isPrivate: bool,
    implemented: bool,
    overridable: bool)

  datatype Symbols = Symbols(entries: map<Id, Declaration>, members: Graph, bases: Graph)

  datatype OverrideTable = OverrideTable(
    chain: set<Id>,
    mostDerived: map<Signature, Id>,
    dispatchable: set<(Id, Signature)>)

  /** Members take part in dispatch when they are regular, non-private functions. */
  predicate Dispatches(symbols: Symbols, id: Id) {
    id in symbols.entries && symbols.entries[id].isFunction && symbols.entries[id].regular && !symbols.entries[id].isPrivate
  }

  predicate Implements(symbols: Symbols, id: Id, signature: Signature) {
    Dispatches(symbols, id) && symbols.entries[id].implemented && symbols.entries[id].signature == signature
  }

  /** A contract of the chain with one of its members. */
  type Slot = (Id, Id)

  predicate Overridable(symbols: Symbols, id: Id, signature: Signature) {
    Dispatches(symbols, id) && symbols.entries[id].overridable && symbols.entries[id].signature == signature
  }

  /** The first member of the slots with a body for the signature. */
  function FirstImplementing(symbols: Symbols, slots: seq<Slot>, signature: Signature): Option<Id> {
    if slots == [] then None
    else
      var before := FirstImplementing(symbols, slots[..|slots| - 1], signature);
      if before.None? && Implements(symbols, slots[|slots| - 1].1, signature) then Some(slots[|slots| - 1].1) else before
  }

  function SlotsOf(contract: Id, members: seq<Id>): seq<Slot> {
    seq(|members|, i requires 0 <= i < |members| => (contract, members[i]))
  }

  /** The members of a list of contracts, in order, each with its contract. */
  function ChainSlots(symbols: Symbols, contracts: seq<Id>): seq<Slot> {
    if contracts == [] then []
    else ChainSlots(symbols, contracts[..|contracts| - 1]) + SlotsOf(contracts[|contracts| - 1], Next(symbols.members, contracts[|contracts| - 1]))
  }

  function WithMember(symbols: Symbols, table: OverrideTable, contract: Id, id: Id): OverrideTable {
    if !Dispatches(symbols, id) then table
    else
      var e := symbols.entries[id];
      table.(
        dispatchable := if e.overridable then table.dispatchable + {(contract, e.signature)} else table.dispatchable,
        mostDerived := if e.implemented && e.signature !in table.mostDerived then table.mostDerived[e.signature := id] else table.mostDerived)
  }

  function TableOf(symbols: Symbols, chain: set<Id>, slots: seq<Slot>): OverrideTable {
    if slots == [] then OverrideTable(chain, map[], {})
    else WithMember(symbols, TableOf(symbols, chain, slots[..|slots| - 1]), slots[|slots| - 1].0, slots[|slots| - 1].1)
  }

  lemma {:induction false} TableChain(symbols: Symbols, chain: set<Id>, more: set<Id>, slots: seq<Slot>)
    ensures TableOf(symbols, chain, slots).chain == chain
    ensures TableOf(symbols, chain, slots).(chain := more) == TableOf(symbols, more, slots)
  {
    if |slots| > 0 {
      TableChain(symbols, chain, more, slots[..|slots| - 1]);
    }
  }

  /** For each signature the table holds the first body along the slots. */
  lemma {:induction false} MostDerivedIsFirst(symbols: Symbols, chain: set<Id>, slots: seq<Slot>, signature: Signature)
    ensures var derived := TableOf(symbols, chain, slots).mostDerived;
            FirstImplementing(symbols, slots, signature) == if signature in derived then Some(derived[signature]) else None
  {
    if |slots| > 0 {
      MostDerivedIsFirst(symbols, chain, slots[..|slots| - 1], signature);
    }
  }

  /** The dispatchable pairs are exactly the overridable members of the slots. */
  lemma {:induction false} DispatchableIff(symbols: Symbols, chain: set<Id>, slots: seq<Slot>, contract: Id, signature: Signature)
    ensures (contract, signature) in TableOf(symbols, chain, slots).dispatchable
       <==> exists k :: 0 <= k < |slots| && slots[k].0 == contract && Overridable(symbols, slots[k].1, signature)
  {
    if |slots| > 0 {
      var n := |slots| - 1;
      DispatchableIff(symbols, chain, slots[..n], contract, signature);
      if (contract, signature) in TableOf(symbols, chain, slots[..n]).dispatchable {
        var k :| 0 <= k < n && slots[..n][k].0 == contract && Overridable(symbols, slots[..n][k].1, signature);
        assert slots[k].0 == contract;
      }
    }
  }

  /** The members of one contract of the chain, in declaration order. */
  method AddMembers(symbols: Symbols, before: OverrideTable, contract: Id, ghost slots: seq<Slot>) returns (table: OverrideTable)
    requires before == TableOf(symbols, before.chain, slots)
    ensures table == TableOf(symbols, before.chain, slots + SlotsOf(contract, Next(symbols.members, contract)))
  {
    table := before;
    var members := if contract in symbols.members then symbols.members[contract] else [];
    ghost var done := slots;
    for j := 0 to |members|
      invariant done == slots + SlotsOf(contract, members)[..j]
      invariant table == TableOf(symbols, before.chain, done)
    {
      assert (done + [(contract, members[j])])[..|done|] == done;
      table := WithMember(symbols, table, contract, members[j]);
      done := done + [(contract, members[j])];
    }
    assert done == slots + SlotsOf(contract, members);
  }

  /** The table of a chain of contracts. */
  function ChainTable(symbols: Symbols, chain: seq<Id>): OverrideTable {
    TableOf(symbols, ToSet(chain), ChainSlots(symbols, chain))
  }

  method AddContract(symbols: Symbols, before: OverrideTable, contract: Id, ghost done: seq<Id>) returns (table: OverrideTable)
    requires before == ChainTable(symbols, done)
    ensures table == ChainTable(symbols, done + [contract])
  {
    ToSetGrows(done, contract);
    TableChain(symbols, ToSet(done), ToSet(done + [contract]), ChainSlots(symbols, done));
    table := AddMembers(symbols, before.(chain := before.chain + {contract}), contract, ChainSlots(symbols, done));
    assert (done + [contract])[..|done|] == done;
  }

  method BuildTable(symbols: Symbols, chain: seq<Id>) returns (table: OverrideTable)
    ensures table == ChainTable(symbols, chain)
  {
    table := OverrideTable({}, map[], {});
    for i := 0 to |chain|
      invariant table == ChainTable(symbols, chain[..i])
    {
      table := AddContract(symbols, table, chain[i], chain[..i]);
      assert chain[..i + 1] == chain[..i] + [chain[i]];
    }
    assert chain[..|chain|] == chain;
  }

  /** `OverrideTable::build`; also returns the inheritance chain, in the order the table was filled. */
  method BuildOverrides(symbols: Symbols, contract: Id) returns (table: OverrideTable, chain: seq<Id>)
    ensures Closure(symbols.bases, contract, chain) && Caused(symbols.bases, chain)
    ensures table == ChainTable(symbols, chain)
  {
    chain := Ancestors(symbols.bases, contract);
    table := BuildTable(symbols, chain);
  }

  /** `redirect`: the most-derived override an unqualified call really reaches, if it is another declaration. */
  function Redirect(symbols: Symbols, table: OverrideTable, referenced: Id): Option<Id> {
    if referenced !in symbols.entries then None
    else
      var e := symbols.entries[referenced];
      if !e.isFunction || e.contract.None? || e.contract.value !in table.chain then None
      else if (e.contract.value, e.signature) !in table.dispatchable || e.signature !in table.mostDerived then None
      else if table.mostDerived[e.signature] == referenced then None
      else Some(table.mostDerived[e.signature])
  }

  /** Slot `k` is the first with a body for the signature; `k` is past the end when there is none. */
  ghost predicate FirstAt(symbols: Symbols, slots: seq<Slot>, signature: Signature, k: nat) {
    && k <= |slots| && (k < |slots| ==> Implements(symbols, slots[k].1, signature))
    && forall j :: 0 <= j < k ==> !Implements(symbols, slots[j].1, signature)
  }

  lemma {:induction false} FirstImplementingIsFirst(symbols: Symbols, slots: seq<Slot>, signature: Signature) returns (k: nat)
    ensures FirstAt(symbols, slots, signature, k)
    ensures FirstImplementing(symbols, slots, signature) == if k < |slots| then Some(slots[k].1) else None
  {
    if |slots| == 0 {
      k := 0;
    } else {
      var n := |slots| - 1;
      k := FirstImplementingIsFirst(symbols, slots[..n], signature);
      if k == n && !Implements(symbols, slots[n].1, signature) {
        k := |slots|;
      }
      forall j | 0 <= j < k ensures !Implements(symbols, slots[j].1, signature) {
        assert j < n ==> slots[..n][j] == slots[j];
      }
    }
  }

  /**
   A redirected call reaches another function with a body and the same signature, the
   first along the chain; redirecting again changes nothing.
   */
  lemma RedirectReachesMostDerived(symbols: Symbols, chain: seq<Id>, referenced: Id) returns (k: nat)
    requires Redirect(symbols, ChainTable(symbols, chain), referenced).Some?
    ensures var table, slots := ChainTable(symbols, chain), ChainSlots(symbols, chain);
            var best, signature := Redirect(symbols, table, referenced).value, symbols.entries[referenced].signature;
            && best != referenced && Implements(symbols, best, signature) && Redirect(symbols, table, best) == None
            && FirstAt(symbols, slots, signature, k) && k < |slots| && slots[k].1 == best
  {
    var slots, signature := ChainSlots(symbols, chain), symbols.entries[referenced].signature;
    MostDerivedIsFirst(symbols, ToSet(chain), slots, signature);
    k := FirstImplementingIsFirst(symbols, slots, signature);
  }

  lemma {:induction false} SlotsHoldMembers(symbols: Symbols, chain: seq<Id>, contract: Id, member: Id) returns (k: nat)
    requires contract in chain && member in Next(symbols.members, contract)
    ensures k < |ChainSlots(symbols, chain)| && ChainSlots(symbols, chain)[k] == (contract, member)
  {
    var n := |chain| - 1;
    if chain[n] == contract {
      var i :| 0 <= i < |Next(symbols.members, contract)| && Next(symbols.members, contract)[i] == member;
      k := |ChainSlots(symbols, chain[..n])| + i;
    } else {
      k := SlotsHoldMembers(symbols, chain[..n], contract, member);
    }
  }

  /** A call on an overridable function of the chain is left alone exactly when it is its own most-derived body, or no body exists. */
  lemma RedirectIff(symbols: Symbols, chain: seq<Id>, contract: Id, referenced: Id)
    requires contract in chain && referenced in Next(symbols.members, contract)
    requires Dispatches(symbols, referenced) && symbols.entries[referenced].overridable
    requires symbols.entries[referenced].contract == Some(contract)
    ensures var table := ChainTable(symbols, chain);
            var first := FirstImplementing(symbols, ChainSlots(symbols, chain), symbols.entries[referenced].signature);
            Redirect(symbols, table, referenced) == (if first == Some(referenced) then None else first)
  {
    var slots, signature := ChainSlots(symbols, chain), symbols.entries[referenced].signature;
    var k := SlotsHoldMembers(symbols, chain, contract, referenced);
    DispatchableIff(symbols, ToSet(chain), slots, contract, signature);
    assert Overridable(symbols, slots[k].1, signature);
    MostDerivedIsFirst(symbols, ToSet(chain), slots, signature);
    TableChain(symbols, ToSet(chain), ToSet(chain), slots);
  }

  /** A regular, non-private function of the index with this signature. */
  predicate Callable(symbols: Symbols, id: Id, signature: Signature) {
    && id in symbols.entries && symbols.entries[id].isFunction && symbols.entries[id].regular && !symbols.entries[id].isPrivate
    && symbols.entries[id].signature == signature
  }

  /** Slot `k` is the first along the chain with a body for the signature. */
  ghost predicate FirstBody(symbols: Symbols, slots: seq<Slot>, signature: Signature, k: nat) {
    && k < |slots| && Callable(symbols, slots[k].1, signature) && symbols.entries[slots[k].1].implemented
    && forall j :: 0 <= j < k ==> !(Callable(symbols, slots[j].1, signature) && symbols.entries[slots[j].1].implemented)
  }

  /** The contract declares an overridable function with this signature. */
  ghost predicate Declares(symbols: Symbols, contract: Id, signature: Signature) {
    exists m :: m in Next(symbols.members, contract) && Callable(symbols, m, signature) && symbols.entries[m].overridable
  }

  /** The slots of a chain list its contracts' members in order, and nothing else. */
  lemma {:induction false} ChainSlotsAre(symbols: Symbols, chain: seq<Id>, slot: Slot)
    ensures slot in ChainSlots(symbols, chain) <==> slot.0 in chain && slot.1 in Next(symbols.members, slot.0)
  {
    if |chain| > 0 {
      var n := |chain| - 1;
      ChainSlotsAre(symbols, chain[..n], slot);
      assert chain == chain[..n] + [chain[n]];
      var own := SlotsOf(chain[n], Next(symbols.members, chain[n]));
      assert slot in own <==> slot.0 == chain[n] && slot.1 in Next(symbols.members, chain[n]) by {
        if slot.0 == chain[n] && slot.1 in Next(symbols.members, chain[n]) {
          var i :| 0 <= i < |own| && Next(symbols.members, chain[n])[i] == slot.1;
          assert own[i] == slot;
        }
      }
    }
  }

  lemma DeclaresIff(symbols: Symbols, chain: seq<Id>, contract: Id, signature: Signature)
    requires contract in chain
    ensures (contract, signature) in ChainTable(symbols, chain).dispatchable <==> Declares(symbols, contract, signature)
  {
    var slots := ChainSlots(symbols, chain);
    DispatchableIff(symbols, ToSet(chain), slots, contract, signature);
    if (contract, signature) in ChainTable(symbols, chain).dispatchable {
      var k :| 0 <= k < |slots| && slots[k].0 == contract && Overridable(symbols, slots[k].1, signature);
      ChainSlotsAre(symbols, chain, slots[k]);
      assert Callable(symbols, slots[k].1, signature);
    }
    if Declares(symbols, contract, signature) {
      var m :| m in Next(symbols.members, contract) && Callable(symbols, m, signature) && symbols.entries[m].overridable;
      var k := SlotsHoldMembers(symbols, chain, contract, m);
      assert Overridable(symbols, slots[k].1, signature);
    }
  }

  /**
   A call is redirected exactly when it points at a function of a chain contract that declares an overridable function of
   that signature, and the first body along the chain is another declaration; it is redirected there.
   */
  lemma RedirectedIff(symbols: Symbols, chain: seq<Id>, referenced: Id, best: Id)
    ensures Redirect(symbols, ChainTable(symbols, chain), referenced) == Some(best)
       <==> && referenced in symbols.entries && symbols.entries[referenced].isFunction && best != referenced
            && symbols.entries[referenced].contract.Some? && symbols.entries[referenced].contract.value in chain
            && Declares(symbols, symbols.entries[referenced].contract.value, symbols.entries[referenced].signature)
            && IsFirstBody(symbols, ChainSlots(symbols, chain), symbols.entries[referenced].signature, best)
  {
    if referenced in symbols.entries && symbols.entries[referenced].contract.Some? {
      var slots, contract, signature := ChainSlots(symbols, chain), symbols.entries[referenced].contract.value, symbols.entries[referenced].signature;
      TableChain(symbols, ToSet(chain), ToSet(chain), slots);
      ToSetGrows(chain, contract);
      if contract in chain {
        DeclaresIff(symbols, chain, contract, signature);
      }
      MostDerivedIsFirst(symbols, ToSet(chain), slots, signature);
      FirstBodyIff(symbols, slots, signature, best);
    }
  }

  /** The first body along the chain belongs to this declaration. */
  ghost predicate IsFirstBody(symbols: Symbols, slots: seq<Slot>, signature: Signature, best: Id) {
    exists k: nat :: FirstBody(symbols, slots, signature, k) && slots[k].1 == best
  }

  lemma FirstBodyIff(symbols: Symbols, slots: seq<Slot>, signature: Signature, best: Id)
    ensures FirstImplementing(symbols, slots, signature) == Some(best) <==> IsFirstBody(symbols, slots, signature, best)
  {
    var first := FirstImplementingIsFirst(symbols, slots, signature);
    assert forall k :: 0 <= k < |slots| ==>
             (Implements(symbols, slots[k].1, signature) <==> Callable(symbols, slots[k].1, signature) && symbols.entries[slots[k].1].implemented);
    if first < |slots| {
      assert FirstBody(symbols, slots, signature, first);
    }
    if IsFirstBody(symbols, slots, signature, best) {
      var k: nat :| FirstBody(symbols, slots, signature, k) && slots[k].1 == best;
      assert k == first;
    }
  }
}
