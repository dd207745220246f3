/**
 The EVM database: a sandbox, or several forks of remote chains of which one is
 active. Each fork is a read-through overlay over what its endpoint serves;
 switching forks copies the local accounts into the fork switched to.
 */
module ForkDatabase {
  import opened Basics

  type Address = nat

  const DEPLOYER: Address := 1
  const VM: Address := 2

  datatype Info = Info(balance: nat, nonce: nat, code: nat)

  const EMPTY := Info(0, 0, 0)
  const COINBASE := Info(U256_LIMIT - 1, 0, 0)

  datatype Status = Existing | NotExisting | StorageCleared

  datatype Account = Account(info: Info, storage: map<nat, nat>, status: Status)

  type Overlay = map<Address, Account>

  datatype ForkKey = ForkKey(url: nat, block: nat)

  datatype Block = Block(number: nat, coinbase: Address)

  datatype Fork = Fork(db: Overlay, env: Block)

  datatype State =
    | Sandbox(cache: Overlay)
    | Multi(active: ForkKey, forks: map<ForkKey, Fork>)

  datatype World = World(state: State, registry: set<Address>)

  /** What the endpoints serve; a block is pinned, so the answers never change. */
  datatype Remote = Remote(info: (ForkKey, Address) -> Info, slot: (ForkKey, Address, nat) -> nat)

  /** How a transaction touched an account it commits. */
  datatype Touch = Plain | Created | Destroyed

  /** `up` says whether the endpoint answers; `block` is what it returns for the block asked for. */
  datatype Op =
    | ReadInfo(a: Address, up: bool)
    | ReadSlot(a: Address, s: nat, up: bool)
    | PutInfo(a: Address, info: Info)
    | PutSlot(a: Address, s: nat, v: nat, up: bool)
    | Commit(a: Address, touch: Touch, info: Info, slots: map<nat, nat>)
    | MarkLocal(a: Address)
    | Switch(key: ForkKey, block: Option<Block>)

  predicate Live(w: World) {
    w.state.Multi? ==> w.state.active in w.state.forks
  }

  function At(w: World): Option<ForkKey> {
    if w.state.Multi? then Some(w.state.active) else None
  }

  function ActiveDb(w: World): Overlay
    requires Live(w)
  {
    if w.state.Multi? then w.state.forks[w.state.active].db else w.state.cache
  }

  function WithActiveDb(w: World, db: Overlay): World
    requires Live(w)
  {
    if w.state.Multi? then
      var key := w.state.active;
      World(Multi(key, w.state.forks[key := Fork(db, w.state.forks[key].env)]), w.registry)
    else World(Sandbox(db), w.registry)
  }

  // ---- Reading ------------------------------------------------------------------

  /** True when no request is needed: the sandbox, or an address the registry knows. */
  predicate Offline(at: Option<ForkKey>, registry: set<Address>, a: Address) {
    at.None? || a in registry
  }

  function BaseInfo(rpc: Remote, at: Option<ForkKey>, registry: set<Address>, a: Address): Info {
    if Offline(at, registry, a) then EMPTY else rpc.info(at.value, a)
  }

  function BaseSlot(rpc: Remote, at: Option<ForkKey>, registry: set<Address>, a: Address, s: nat): nat {
    if Offline(at, registry, a) then 0 else rpc.slot(at.value, a, s)
  }

  function InfoIn(rpc: Remote, at: Option<ForkKey>, registry: set<Address>, db: Overlay, a: Address): Info {
    if a !in db then BaseInfo(rpc, at, registry, a)
    else if db[a].status.NotExisting? then EMPTY
    else db[a].info
  }

  function SlotIn(rpc: Remote, at: Option<ForkKey>, registry: set<Address>, db: Overlay, a: Address, s: nat): nat {
    if a in db && s in db[a].storage then db[a].storage[s]
    else if a in db && !db[a].status.Existing? then 0
    else BaseSlot(rpc, at, registry, a, s)
  }

  function InfoNow(rpc: Remote, w: World, a: Address): Info
    requires Live(w)
  {
    InfoIn(rpc, At(w), w.registry, ActiveDb(w), a)
  }

  function SlotNow(rpc: Remote, w: World, a: Address, s: nat): nat
    requires Live(w)
  {
    SlotIn(rpc, At(w), w.registry, ActiveDb(w), a, s)
  }

  /** A local account of a fork is fetched as absent; every other fetch finds an account. */
  function Fetched(rpc: Remote, at: Option<ForkKey>, registry: set<Address>, a: Address): Account {
    Account(BaseInfo(rpc, at, registry, a), map[], if at.Some? && a in registry then NotExisting else Existing)
  }

  function Load(rpc: Remote, at: Option<ForkKey>, registry: set<Address>, db: Overlay, a: Address, up: bool): Option<Overlay> {
    if a in db then Some(db)
    else if Offline(at, registry, a) || up then Some(db[a := Fetched(rpc, at, registry, a)])
    else None
  }

  /** The overlay after reading a slot, or `None` when the endpoint is needed and does not answer. */
  function LoadSlot(rpc: Remote, at: Option<ForkKey>, registry: set<Address>, db: Overlay, a: Address, s: nat, up: bool)
    : Option<Overlay>
  {
    if a in db && (s in db[a].storage || !db[a].status.Existing?) then Some(db)
    else
      match Load(rpc, at, registry, db, a, up)
      case None => None
      case Some(db') =>
        if !db'[a].status.Existing? then Some(db')
        else if Offline(at, registry, a) || up then
          Some(db'[a := db'[a].(storage := db'[a].storage[s := BaseSlot(rpc, at, registry, a, s)])])
        else None
  }

  // ---- Writing ------------------------------------------------------------------

  function SetInfo(db: Overlay, a: Address, info: Info): Overlay {
    if a in db then db[a := db[a].(info := info, status := if db[a].status.NotExisting? then Existing else db[a].status)]
    else db[a := Account(info, map[], Existing)]
  }

  function SetSlot(db: Overlay, a: Address, s: nat, v: nat): Overlay
    requires a in db
  {
    db[a := db[a].(storage := db[a].storage[s := v])]
  }

  function Committed(db: Overlay, a: Address, touch: Touch, info: Info, slots: map<nat, nat>): Overlay {
    var was := if a in db then db[a] else Account(EMPTY, map[], Existing);
    match touch
    case Destroyed => db[a := Account(EMPTY, map[], NotExisting)]
    case Created => db[a := Account(info, slots, StorageCleared)]
    case Plain =>
      db[a := Account(info, was.storage + slots, if was.status.StorageCleared? then StorageCleared else Existing)]
  }

  // ---- Switching ----------------------------------------------------------------

  predicate IsPersistent(a: Address, registry: set<Address>) {
    a == DEPLOYER || a == VM || a in registry
  }

  function Carried(db: Overlay, registry: set<Address>): Overlay {
    map a | a in db && IsPersistent(a, registry) :: db[a]
  }

  function Landed(target: Overlay, carried: Overlay, a: Address): Account
    requires a in carried
  {
    if a in target then
      Account(carried[a].info, target[a].storage + carried[a].storage,
              if target[a].status.NotExisting? then Existing else target[a].status)
    else Account(carried[a].info, carried[a].storage, Existing)
  }

  /** The target overlay with the carried accounts' info and slots on top; other slots of the target stay. */
  function Overlaid(target: Overlay, carried: Overlay): Overlay {
    target + map a | a in carried :: Landed(target, carried, a)
  }

  function NewOverlay(b: Block): Overlay {
    map[b.coinbase := Account(COINBASE, map[], Existing)]
  }

  predicate Reachable(key: ForkKey, block: Option<Block>) {
    block.Some? && block.value.number == key.block
  }

  /** The fork map after `key` has been selected or created with `carried` copied into it; `None` on an RPC error. */
  function Selected(forks: map<ForkKey, Fork>, key: ForkKey, block: Option<Block>, carried: Overlay): Option<map<ForkKey, Fork>> {
    if key in forks then Some(forks[key := Fork(Overlaid(forks[key].db, carried), forks[key].env)])
    else if Reachable(key, block) then Some(forks[key := Fork(Overlaid(NewOverlay(block.value), carried), block.value)])
    else None
  }

  function Switched(w: World, key: ForkKey, block: Option<Block>): World
    requires Live(w)
  {
    if w.state.Multi? then
      if w.state.active == key then w
      else
        match Selected(w.state.forks, key, block, Carried(ActiveDb(w), w.registry))
        case None => w
        case Some(forks) => World(Multi(key, forks), w.registry)
    else
      match Selected(map[], key, block, w.state.cache)
      case None => w
      case Some(forks) => World(Multi(key, forks), w.registry)
  }

  function Apply(rpc: Remote, w: World, op: Op): World
    requires Live(w)
  {
    var at, db := At(w), ActiveDb(w);
    match op
    case ReadInfo(a, up) => WithActiveDb(w, Load(rpc, at, w.registry, db, a, up).Or(db))
    case ReadSlot(a, s, up) => WithActiveDb(w, LoadSlot(rpc, at, w.registry, db, a, s, up).Or(db))
    case PutInfo(a, info) => WithActiveDb(w, SetInfo(db, a, info))
    case PutSlot(a, s, v, up) =>
      WithActiveDb(w, match Load(rpc, at, w.registry, db, a, up) case None => db case Some(db') => SetSlot(db', a, s, v))
    case Commit(a, touch, info, slots) => WithActiveDb(w, Committed(db, a, touch, info, slots))
    case MarkLocal(a) => World(w.state, w.registry + {a})
    case Switch(key, block) => Switched(w, key, block)
  }

  lemma StaysLive(rpc: Remote, w: World, op: Op)
    requires Live(w)
    ensures Live(Apply(rpc, w, op))
  {}

  function Run(rpc: Remote, w: World, ops: seq<Op>): (w': World)
    requires Live(w)
    ensures Live(w')
    decreases |ops|
  {
    if ops == [] then w
    else
      var before := Run(rpc, w, ops[..|ops| - 1]);
      StaysLive(rpc, before, ops[|ops| - 1]);
      Apply(rpc, before, ops[|ops| - 1])
  }

  // ---- One switch ---------------------------------------------------------------

  /** The overlay a switch to `key` starts from. */
  function Target(w: World, key: ForkKey, block: Option<Block>): Overlay {
    if w.state.Multi? && key in w.state.forks then w.state.forks[key].db
    else if block.Some? then NewOverlay(block.value)
    else map[]
  }

  /** The switch changes the active fork, rather than failing or finding it active already. */
  predicate Moves(w: World, key: ForkKey, block: Option<Block>) {
    if w.state.Multi? then key != w.state.active && (key in w.state.forks || Reachable(key, block))
    else Reachable(key, block)
  }

  /** The target caches a non-zero slot of `a` that the active overlay does not cache. */
  ghost predicate StaleSlot(active: Overlay, target: Overlay, a: Address) {
    exists s :: a in target && s in target[a].storage && target[a].storage[s] != 0 && !(a in active && s in active[a].storage)
  }

  /** The target caches a non-empty info for `a` and the active overlay caches none. */
  predicate StaleInfo(active: Overlay, target: Overlay, a: Address) {
    a in target && a !in active && !target[a].status.NotExisting? && target[a].info != EMPTY
  }

  ghost predicate SameReads(rpc: Remote, w: World, w': World, a: Address)
    requires Live(w) && Live(w')
  {
    InfoNow(rpc, w', a) == InfoNow(rpc, w, a) && forall s :: SlotNow(rpc, w', a, s) == SlotNow(rpc, w, a, s)
  }

  /** An absent account carries an empty info. */
  predicate WellFormed(db: Overlay) {
    forall a :: a in db && db[a].status.NotExisting? ==> db[a].info == EMPTY
  }

  /** The overlay of the fork a moving switch ends in. */
  lemma SwitchLands(w: World, key: ForkKey, block: Option<Block>)
    requires Live(w) && Moves(w, key, block)
    ensures var w' := Switched(w, key, block);
            && Live(w') && At(w') == Some(key) && w'.registry == w.registry
            && ActiveDb(w') == Overlaid(Target(w, key, block),
                                        if w.state.Multi? then Carried(ActiveDb(w), w.registry) else ActiveDb(w))
  {}

  /**
   A switch keeps every read of a local account exactly when the fork switched to
   holds nothing stale about it.
   */
  lemma SwitchPreservesIff(rpc: Remote, w: World, key: ForkKey, block: Option<Block>, a: Address)
    requires Live(w) && a in w.registry && Moves(w, key, block) && WellFormed(ActiveDb(w))
    ensures Live(Switched(w, key, block))
    ensures SameReads(rpc, w, Switched(w, key, block), a)
       <==> !StaleSlot(ActiveDb(w), Target(w, key, block), a) && !StaleInfo(ActiveDb(w), Target(w, key, block), a)
  {
    SwitchLands(w, key, block);
    var active, target, w' := ActiveDb(w), Target(w, key, block), Switched(w, key, block);
    if StaleSlot(active, target, a) {
      var s :| a in target && s in target[a].storage && target[a].storage[s] != 0 && !(a in active && s in active[a].storage);
      assert SlotNow(rpc, w', a, s) != SlotNow(rpc, w, a, s);
    } else {
      forall s ensures SlotNow(rpc, w', a, s) == SlotNow(rpc, w, a, s) {}
    }
  }

  // ---- Local accounts over whole runs -----------------------------------------------

  predicate Sound(w: World) {
    && Live(w)
    && (if w.state.Multi? then forall k :: k in w.state.forks ==> WellFormed(w.state.forks[k].db) else WellFormed(w.state.cache))
  }

  lemma StaysSound(rpc: Remote, w: World, op: Op)
    requires Sound(w)
    ensures Sound(Apply(rpc, w, op))
  {
    var w' := Apply(rpc, w, op);
    if op.Switch? {
      if Moves(w, op.key, op.block) {
        SwitchLands(w, op.key, op.block);
        assert WellFormed(Target(w, op.key, op.block));
        assert WellFormed(ActiveDb(w'));
      }
    } else {
      assert WellFormed(ActiveDb(w));
      assert WellFormed(ActiveDb(w'));
    }
  }

  /** Everything `db` caches about `a`, the active overlay caches too. */
  predicate Covered(active: Overlay, db: Overlay, a: Address) {
    a in db ==> a in active && db[a].storage.Keys <= active[a].storage.Keys
  }

  /** The cached slots of a local account in inactive forks are among those of the active one. */
  predicate Tame(w: World, a: Address) {
    && Live(w) && a in w.registry
    && (w.state.Multi? ==> forall k :: k in w.state.forks ==> Covered(w.state.forks[w.state.active].db, w.state.forks[k].db, a))
  }

  /** The account was registered before any fork cached it. */
  lemma RegisteredEarly(w: World, a: Address)
    requires Live(w) && a in w.registry
    requires w.state.Multi? ==> forall k :: k in w.state.forks ==> a !in w.state.forks[k].db
    ensures Tame(w, a)
  {}

  /** A commit that re-creates or destroys `a` while an inactive fork still caches a slot the commit drops. */
  predicate Clears(w: World, op: Op, a: Address)
    requires Live(w)
  {
    && op.Commit? && op.a == a && w.state.Multi?
    && !forall k :: k in w.state.forks && k != w.state.active
                ==> Covered(Committed(ActiveDb(w), a, op.touch, op.info, op.slots), w.state.forks[k].db, a)
  }

  /** The op creates a fork of a block whose coinbase is `a`, of which the active overlay holds nothing. */
  predicate Seeds(w: World, op: Op, a: Address)
    requires Live(w)
  {
    && op.Switch? && Moves(w, op.key, op.block) && !(w.state.Multi? && op.key in w.state.forks)
    && op.block.value.coinbase == a && a !in ActiveDb(w)
  }

  lemma WritesOnlyAdd(rpc: Remote, w: World, op: Op, a: Address)
    requires Live(w) && !op.Switch? && !op.Commit?
    ensures Covered(ActiveDb(Apply(rpc, w, op)), ActiveDb(w), a)
  {}

  lemma TameSwitch(w: World, key: ForkKey, block: Option<Block>, a: Address)
    requires Tame(w, a) && w.state.Multi? && Moves(w, key, block)
    ensures Tame(Switched(w, key, block), a)
  {
    var w' := Switched(w, key, block);
    SwitchLands(w, key, block);
    assert Covered(ActiveDb(w'), ActiveDb(w), a);
    forall k | k in w'.state.forks ensures Covered(ActiveDb(w'), w'.state.forks[k].db, a) {
      if k != key {
        assert w'.state.forks[k] == w.state.forks[k];
        assert Covered(ActiveDb(w), w.state.forks[k].db, a);
      }
    }
  }

  lemma TameStep(rpc: Remote, w: World, op: Op, a: Address)
    requires Tame(w, a) && !Clears(w, op, a)
    ensures Tame(Apply(rpc, w, op), a)
  {
    var w' := Apply(rpc, w, op);
    if op.Switch? {
      if w.state.Multi? && Moves(w, op.key, op.block) {
        TameSwitch(w, op.key, op.block, a);
      }
    } else if w.state.Multi? {
      if !op.Commit? {
        WritesOnlyAdd(rpc, w, op, a);
      }
      forall k | k in w'.state.forks ensures Covered(ActiveDb(w'), w'.state.forks[k].db, a) {
        if k != w.state.active {
          assert Covered(ActiveDb(w), w.state.forks[k].db, a);
        }
      }
    }
  }

  predicate NeverClears(rpc: Remote, w: World, ops: seq<Op>, a: Address)
    requires Live(w)
  {
    forall k :: 0 <= k < |ops| ==> !Clears(Run(rpc, w, ops[..k]), ops[k], a)
  }

  predicate NeverSeeds(rpc: Remote, w: World, ops: seq<Op>, a: Address)
    requires Live(w)
  {
    forall k :: 0 <= k < |ops| ==> !Seeds(Run(rpc, w, ops[..k]), ops[k], a)
  }

  lemma PrefixQuiet(rpc: Remote, w: World, ops: seq<Op>, n: nat, a: Address)
    requires Live(w) && n <= |ops|
    ensures NeverClears(rpc, w, ops, a) ==> NeverClears(rpc, w, ops[..n], a)
    ensures NeverSeeds(rpc, w, ops, a) ==> NeverSeeds(rpc, w, ops[..n], a)
  {
    forall k | 0 <= k < n ensures ops[..n][..k] == ops[..k] {}
  }

  lemma {:induction false} RunStaysTame(rpc: Remote, w: World, ops: seq<Op>, a: Address)
    requires Sound(w) && Tame(w, a) && NeverClears(rpc, w, ops, a)
    ensures Sound(Run(rpc, w, ops)) && Tame(Run(rpc, w, ops), a)
    decreases |ops|
  {
    if |ops| == 0 {
      assert ops == [];
    } else {
      var n := |ops| - 1;
      PrefixQuiet(rpc, w, ops, n, a);
      RunStaysTame(rpc, w, ops[..n], a);
      StaysSound(rpc, Run(rpc, w, ops[..n]), ops[n]);
      TameStep(rpc, Run(rpc, w, ops[..n]), ops[n], a);
    }
  }

  lemma TameSwitchReads(rpc: Remote, w: World, key: ForkKey, block: Option<Block>, a: Address)
    requires Sound(w) && Tame(w, a)
    ensures SameReads(rpc, w, Apply(rpc, w, Switch(key, block)), a) <==> !Seeds(w, Switch(key, block), a)
  {
    if Moves(w, key, block) {
      SwitchPreservesIff(rpc, w, key, block, a);
      if w.state.Multi? && key in w.state.forks {
        assert Covered(ActiveDb(w), w.state.forks[key].db, a);
      }
    }
  }

  /** The op is a switch that moves to a fork holding something stale about `a`. */
  ghost predicate MeetsStale(w: World, op: Op, a: Address)
    requires Live(w)
  {
    && op.Switch? && Moves(w, op.key, op.block)
    && (StaleSlot(ActiveDb(w), Target(w, op.key, op.block), a) || StaleInfo(ActiveDb(w), Target(w, op.key, op.block), a))
  }

  ghost predicate NeverMeetsStale(rpc: Remote, w: World, ops: seq<Op>, a: Address)
    requires Live(w)
  {
    forall k :: 0 <= k < |ops| ==> !MeetsStale(Run(rpc, w, ops[..k]), ops[k], a)
  }

  lemma SwitchReads(rpc: Remote, w: World, op: Op, a: Address)
    requires Sound(w) && a in w.registry && op.Switch?
    ensures SameReads(rpc, w, Apply(rpc, w, op), a) <==> !MeetsStale(w, op, a)
  {
    if Moves(w, op.key, op.block) {
      SwitchPreservesIff(rpc, w, op.key, op.block, a);
    }
  }

  lemma {:induction false} RunStaysSound(rpc: Remote, w: World, ops: seq<Op>, a: Address)
    requires Sound(w) && a in w.registry
    ensures Sound(Run(rpc, w, ops)) && a in Run(rpc, w, ops).registry
    decreases |ops|
  {
    if |ops| == 0 {
      assert ops == [];
    } else {
      var n := |ops| - 1;
      RunStaysSound(rpc, w, ops[..n], a);
      StaysSound(rpc, Run(rpc, w, ops[..n]), ops[n]);
      RegistryGrows(rpc, Run(rpc, w, ops[..n]), ops[n]);
    }
  }

  /** Over any run, every switch keeps all reads of a local account exactly when none moves to a fork holding something stale about it. */
  lemma EverySwitchPreservesIff(rpc: Remote, w: World, ops: seq<Op>, a: Address)
    requires Sound(w) && a in w.registry
    ensures (forall k :: 0 <= k < |ops| && ops[k].Switch? ==> SameReads(rpc, Run(rpc, w, ops[..k]), Run(rpc, w, ops[..k + 1]), a))
       <==> NeverMeetsStale(rpc, w, ops, a)
  {
    forall k | 0 <= k < |ops| && ops[k].Switch?
      ensures SameReads(rpc, Run(rpc, w, ops[..k]), Run(rpc, w, ops[..k + 1]), a) <==> !MeetsStale(Run(rpc, w, ops[..k]), ops[k], a)
    {
      RunStaysSound(rpc, w, ops[..k], a);
      SwitchReads(rpc, Run(rpc, w, ops[..k]), ops[k], a);
      assert ops[..k + 1][..k] == ops[..k];
    }
    if forall k :: 0 <= k < |ops| && ops[k].Switch? ==> SameReads(rpc, Run(rpc, w, ops[..k]), Run(rpc, w, ops[..k + 1]), a) {
      forall k | 0 <= k < |ops| ensures !MeetsStale(Run(rpc, w, ops[..k]), ops[k], a) {
        if ops[k].Switch? {
          assert SameReads(rpc, Run(rpc, w, ops[..k]), Run(rpc, w, ops[..k + 1]), a);
        }
      }
    }
  }

  /**
   An account registered before any fork cached it, and never destroyed or re-created while another
   fork caches its slots, meets something stale exactly when a created fork seeds it as coinbase.
   */
  lemma TameMeetsStaleIff(rpc: Remote, w: World, ops: seq<Op>, a: Address)
    requires Sound(w) && Tame(w, a) && NeverClears(rpc, w, ops, a)
    ensures NeverMeetsStale(rpc, w, ops, a) <==> NeverSeeds(rpc, w, ops, a)
  {
    forall k | 0 <= k < |ops|
      ensures MeetsStale(Run(rpc, w, ops[..k]), ops[k], a) <==> Seeds(Run(rpc, w, ops[..k]), ops[k], a)
    {
      PrefixQuiet(rpc, w, ops, k, a);
      RunStaysTame(rpc, w, ops[..k], a);
      if ops[k].Switch? {
        TameSwitchReads(rpc, Run(rpc, w, ops[..k]), ops[k].key, ops[k].block, a);
        SwitchReads(rpc, Run(rpc, w, ops[..k]), ops[k], a);
      }
    }
  }

  /** What one op makes of the info of `a`, whichever fork is active. */
  function InfoStep(op: Op, a: Address, current: Info): Info {
    match op
    case PutInfo(b, info) => if b == a then info else current
    case Commit(b, touch, info, _) => if b != a then current else if touch.Destroyed? then EMPTY else info
    case _ => current
  }

  function SlotStep(op: Op, a: Address, s: nat, current: nat): nat {
    match op
    case PutSlot(b, t, v, _) => if b == a && t == s then v else current
    case Commit(b, touch, _, slots) =>
      if b != a then current
      else if touch.Destroyed? then 0
      else if s in slots then slots[s]
      else if touch.Created? then 0
      else current
    case _ => current
  }

  function InfoAfter(ops: seq<Op>, a: Address, start: Info): Info {
    if ops == [] then start else InfoStep(ops[|ops| - 1], a, InfoAfter(ops[..|ops| - 1], a, start))
  }

  function SlotAfter(ops: seq<Op>, a: Address, s: nat, start: nat): nat {
    if ops == [] then start else SlotStep(ops[|ops| - 1], a, s, SlotAfter(ops[..|ops| - 1], a, s, start))
  }

  lemma WriteReadsBack(rpc: Remote, w: World, op: Op, a: Address, s: nat)
    requires Sound(w) && a in w.registry && !op.Switch?
    ensures InfoNow(rpc, Apply(rpc, w, op), a) == InfoStep(op, a, InfoNow(rpc, w, a))
    ensures SlotNow(rpc, Apply(rpc, w, op), a, s) == SlotStep(op, a, s, SlotNow(rpc, w, a, s))
  {}

  /** The account reads as last written: its info and every slot. */
  ghost predicate AsWritten(rpc: Remote, w: World, ops: seq<Op>, a: Address)
    requires Live(w)
  {
    && InfoNow(rpc, Run(rpc, w, ops), a) == InfoAfter(ops, a, InfoNow(rpc, w, a))
    && forall s: nat :: SlotNow(rpc, Run(rpc, w, ops), a, s) == SlotAfter(ops, a, s, SlotNow(rpc, w, a, s))
  }

  /** From a point where the account reads as written, the next op keeps that exactly when it meets nothing stale. */
  lemma StepAsWritten(rpc: Remote, w: World, ops: seq<Op>, a: Address)
    requires Sound(w) && a in w.registry && |ops| > 0 && AsWritten(rpc, w, ops[..|ops| - 1], a)
    ensures AsWritten(rpc, w, ops, a) <==> !MeetsStale(Run(rpc, w, ops[..|ops| - 1]), ops[|ops| - 1], a)
  {
    var before, op := ops[..|ops| - 1], ops[|ops| - 1];
    var was := Run(rpc, w, before);
    RunStaysSound(rpc, w, before, a);
    if op.Switch? {
      SwitchReads(rpc, was, op, a);
      assert AsWritten(rpc, w, ops, a) <==> SameReads(rpc, was, Run(rpc, w, ops), a);
    } else {
      forall s: nat ensures SlotNow(rpc, Run(rpc, w, ops), a, s) == SlotAfter(ops, a, s, SlotNow(rpc, w, a, s)) {
        WriteReadsBack(rpc, was, op, a, s);
      }
      WriteReadsBack(rpc, was, op, a, 0);
    }
  }

  /** The account reads as written after every op of the run. */
  ghost predicate AlwaysAsWritten(rpc: Remote, w: World, ops: seq<Op>, a: Address)
    requires Live(w)
  {
    forall k :: 0 <= k <= |ops| ==> AsWritten(rpc, w, ops[..k], a)
  }

  lemma AlwaysExtends(rpc: Remote, w: World, ops: seq<Op>, a: Address)
    requires Live(w) && |ops| > 0
    ensures AlwaysAsWritten(rpc, w, ops, a) <==> AlwaysAsWritten(rpc, w, ops[..|ops| - 1], a) && AsWritten(rpc, w, ops, a)
    ensures AlwaysAsWritten(rpc, w, ops[..|ops| - 1], a) ==> AsWritten(rpc, w, ops[..|ops| - 1], a)
  {
    var n := |ops| - 1;
    assert forall k :: 0 <= k <= n ==> ops[..n][..k] == ops[..k];
    assert ops[..n + 1] == ops && ops[..n][..n] == ops[..n];
    if AlwaysAsWritten(rpc, w, ops, a) {
      assert AsWritten(rpc, w, ops[..n + 1], a);
      forall k | 0 <= k <= n ensures AsWritten(rpc, w, ops[..n][..k], a) {
        assert AsWritten(rpc, w, ops[..k], a);
      }
    }
    if AlwaysAsWritten(rpc, w, ops[..n], a) {
      assert AsWritten(rpc, w, ops[..n][..n], a);
      forall k | 0 <= k <= n ensures AsWritten(rpc, w, ops[..k], a) {
        assert AsWritten(rpc, w, ops[..n][..k], a);
      }
    }
  }

  lemma NeverMeetsExtends(rpc: Remote, w: World, ops: seq<Op>, a: Address)
    requires Live(w) && |ops| > 0
    ensures NeverMeetsStale(rpc, w, ops, a)
       <==> NeverMeetsStale(rpc, w, ops[..|ops| - 1], a) && !MeetsStale(Run(rpc, w, ops[..|ops| - 1]), ops[|ops| - 1], a)
  {
    var n := |ops| - 1;
    assert forall k :: 0 <= k <= n ==> ops[..n][..k] == ops[..k];
    if NeverMeetsStale(rpc, w, ops[..n], a) && !MeetsStale(Run(rpc, w, ops[..n]), ops[n], a) {
      forall k | 0 <= k < |ops| ensures !MeetsStale(Run(rpc, w, ops[..k]), ops[k], a) {
        if k < n {
          assert !MeetsStale(Run(rpc, w, ops[..n][..k]), ops[..n][k], a);
        }
      }
    }
  }

  /**
   Harness state survives a run of reads, writes, commits and switches: a local account reads as last
   written at every point, as though there were one database, exactly when no switch meets something stale.
   */
  lemma {:induction false} HarnessStateSurvives(rpc: Remote, w: World, ops: seq<Op>, a: Address)
    requires Sound(w) && a in w.registry
    ensures AlwaysAsWritten(rpc, w, ops, a) <==> NeverMeetsStale(rpc, w, ops, a)
    decreases |ops|
  {
    if |ops| == 0 {
      assert ops[..0] == [];
    } else {
      HarnessStateSurvives(rpc, w, ops[..|ops| - 1], a);
      AlwaysExtends(rpc, w, ops, a);
      NeverMeetsExtends(rpc, w, ops, a);
      if AsWritten(rpc, w, ops[..|ops| - 1], a) {
        StepAsWritten(rpc, w, ops, a);
      }
    }
  }

  /** So it survives every run of an early registered account that no fork seeds and no other fork's slots outlive. */
  lemma QuietRunsSurvive(rpc: Remote, w: World, ops: seq<Op>, a: Address)
    requires Sound(w) && Tame(w, a) && NeverClears(rpc, w, ops, a) && NeverSeeds(rpc, w, ops, a)
    ensures AsWritten(rpc, w, ops, a)
  {
    TameMeetsStaleIff(rpc, w, ops, a);
    HarnessStateSurvives(rpc, w, ops, a);
    assert ops[..|ops|] == ops && AsWritten(rpc, w, ops[..|ops|], a);
  }

  // ---- Every other account ------------------------------------------------------------

  function ForkInfo(rpc: Remote, w: World, k: ForkKey, a: Address): Info
    requires w.state.Multi? && k in w.state.forks
  {
    InfoIn(rpc, Some(k), w.registry, w.state.forks[k].db, a)
  }

  function ForkSlot(rpc: Remote, w: World, k: ForkKey, a: Address, s: nat): nat
    requires w.state.Multi? && k in w.state.forks
  {
    SlotIn(rpc, Some(k), w.registry, w.state.forks[k].db, a, s)
  }

  predicate Writes(op: Op, a: Address) {
    (op.PutInfo? || op.PutSlot? || op.Commit?) && op.a == a
  }

  /** Caching what an endpoint serves never changes what any fork reads. */
  lemma ReadsAreTransparent(rpc: Remote, w: World, op: Op, a: Address, s: nat)
    requires Sound(w) && (op.ReadInfo? || op.ReadSlot?)
    ensures InfoNow(rpc, Apply(rpc, w, op), a) == InfoNow(rpc, w, a)
    ensures SlotNow(rpc, Apply(rpc, w, op), a, s) == SlotNow(rpc, w, a, s)
    ensures w.state.Multi? ==>
              Apply(rpc, w, op).state.Multi?
              && forall k :: k in w.state.forks && k != w.state.active ==>
                   k in Apply(rpc, w, op).state.forks && Apply(rpc, w, op).state.forks[k] == w.state.forks[k]
  {}

  lemma IsolationStep(rpc: Remote, w: World, op: Op, k: ForkKey, a: Address, s: nat)
    requires Sound(w) && w.state.Multi? && k in w.state.forks && !IsPersistent(a, Apply(rpc, w, op).registry)
    requires Writes(op, a) ==> w.state.active != k
    ensures var w' := Apply(rpc, w, op);
            && w'.state.Multi? && k in w'.state.forks
            && ForkInfo(rpc, w', k, a) == ForkInfo(rpc, w, k, a) && ForkSlot(rpc, w', k, a, s) == ForkSlot(rpc, w, k, a, s)
  {
    if w.state.active == k && (op.ReadInfo? || op.ReadSlot?) {
      ReadsAreTransparent(rpc, w, op, a, s);
    }
  }

  lemma RegistryGrows(rpc: Remote, w: World, op: Op)
    requires Live(w)
    ensures w.registry <= Apply(rpc, w, op).registry
  {}

  /** While `k` is active, `ops` leave `a` alone. */
  predicate Spares(rpc: Remote, w: World, ops: seq<Op>, k: ForkKey, a: Address)
    requires Live(w)
  {
    forall i :: 0 <= i < |ops| && Writes(ops[i], a) ==> At(Run(rpc, w, ops[..i])) != Some(k)
  }

  /**
   A remote account of fork `k` reads back unchanged after any run, whatever was
   written to it on other forks.
   */
  lemma {:induction false} ForksAreIsolated(rpc: Remote, w: World, ops: seq<Op>, k: ForkKey, a: Address, s: nat)
    requires Sound(w) && w.state.Multi? && k in w.state.forks
    requires !IsPersistent(a, Run(rpc, w, ops).registry) && Spares(rpc, w, ops, k, a)
    ensures var w' := Run(rpc, w, ops);
            && Sound(w') && w'.state.Multi? && k in w'.state.forks
            && ForkInfo(rpc, w', k, a) == ForkInfo(rpc, w, k, a) && ForkSlot(rpc, w', k, a, s) == ForkSlot(rpc, w, k, a, s)
    decreases |ops|
  {
    if |ops| == 0 {
      assert ops == [];
    } else {
      var n := |ops| - 1;
      var before := Run(rpc, w, ops[..n]);
      RegistryGrows(rpc, before, ops[n]);
      forall i | 0 <= i < n && Writes(ops[..n][i], a) ensures At(Run(rpc, w, ops[..n][..i])) != Some(k) {
        assert ops[..n][..i] == ops[..i];
      }
      ForksAreIsolated(rpc, w, ops[..n], k, a, s);
      StaysSound(rpc, before, ops[n]);
      IsolationStep(rpc, before, ops[n], k, a, s);
    }
  }

  // ---- Where the promise fails ------------------------------------------------------

  /** A created fork overwrites the empty balance of a local account that is its block's coinbase. */
  lemma CoinbaseIsSeeded(rpc: Remote, w: World, key: ForkKey, block: Option<Block>, a: Address)
    requires Sound(w) && Tame(w, a) && Seeds(w, Switch(key, block), a)
    ensures InfoNow(rpc, w, a) == EMPTY && InfoNow(rpc, Switched(w, key, block), a) == COINBASE
  {
    SwitchLands(w, key, block);
  }

  /**
   A slot cleared on one fork comes back on another: leave for fork `key`, destroy the
   account there, and return.
   */
  lemma ClearedSlotReturns(rpc: Remote, w: World, key: ForkKey, block: Option<Block>, a: Address, s: nat)
    requires Sound(w) && w.state.Multi? && a in w.registry && Moves(w, key, block)
    requires a in ActiveDb(w) && s in ActiveDb(w)[a].storage
    ensures var away := Apply(rpc, w, Switch(key, block));
            var gone := Apply(rpc, away, Commit(a, Destroyed, EMPTY, map[]));
            var back := Apply(rpc, gone, Switch(w.state.active, None));
            SlotNow(rpc, gone, a, s) == 0 && SlotNow(rpc, back, a, s) == SlotNow(rpc, w, a, s)
  {
    SwitchLands(w, key, block);
    var away := Apply(rpc, w, Switch(key, block));
    var gone := Apply(rpc, away, Commit(a, Destroyed, EMPTY, map[]));
    assert gone.state.forks[w.state.active] == w.state.forks[w.state.active];
    SwitchLands(gone, w.state.active, None);
  }
}
