/** What reads, writes and switches of the fork database give, spelled out against the endpoints and the blocks. */
module ForkReads {
  import opened Basics
  import opened ForkDatabase

  // ---- Reads that reach an endpoint ---------------------------------------------------------

  /** An address that is copied into every fork switched to. */
  predicate Shared(a: Address, registry: set<Address>) {
    a == 1 || a == 2 || a in registry
  }

  lemma CreatedForkServes(rpc: Remote, w: World, key: ForkKey, block: Block, a: Address, s: nat)
    requires Sound(w) && block.number == key.block && block.coinbase != a && !Shared(a, w.registry)
    requires if w.state.Multi? then key !in w.state.forks else a !in w.state.cache
    ensures var w' := Apply(rpc, w, Switch(key, Some(block)));
            && Sound(w') && w'.state.Multi? && key in w'.state.forks && w'.registry == w.registry
            && ForkInfo(rpc, w', key, a) == rpc.info(key, a) && ForkSlot(rpc, w', key, a, s) == rpc.slot(key, a, s)
  {
    StaysSound(rpc, w, Switch(key, Some(block)));
  }

  /**
   On a fork, an account that is not shared, was not written while that fork was active and is not the
   coinbase it was created with reads exactly what the endpoint serves for that fork, after any run.
   */
  lemma RemoteReadsAreServed(rpc: Remote, w: World, key: ForkKey, block: Block, ops: seq<Op>, a: Address, s: nat)
    requires Sound(w) && block.number == key.block && block.coinbase != a
    requires if w.state.Multi? then key !in w.state.forks else a !in w.state.cache
    requires !Shared(a, Run(rpc, Apply(rpc, w, Switch(key, Some(block))), ops).registry)
    requires Spares(rpc, Apply(rpc, w, Switch(key, Some(block))), ops, key, a)
    ensures var w' := Run(rpc, Apply(rpc, w, Switch(key, Some(block))), ops);
            && w'.state.Multi? && key in w'.state.forks
            && ForkInfo(rpc, w', key, a) == rpc.info(key, a) && ForkSlot(rpc, w', key, a, s) == rpc.slot(key, a, s)
            && (w'.state.active == key ==> InfoNow(rpc, w', a) == rpc.info(key, a) && SlotNow(rpc, w', a, s) == rpc.slot(key, a, s))
  {
    var created := Apply(rpc, w, Switch(key, Some(block)));
    RegistryOnlyGrows(rpc, created, ops);
    CreatedForkServes(rpc, w, key, block, a, s);
    ForksAreIsolated(rpc, created, ops, key, a, s);
  }

  lemma {:induction false} RegistryOnlyGrows(rpc: Remote, w: World, ops: seq<Op>)
    requires Live(w)
    ensures w.registry <= Run(rpc, w, ops).registry
    decreases |ops|
  {
    if |ops| > 0 {
      RegistryOnlyGrows(rpc, w, ops[..|ops| - 1]);
      RegistryGrows(rpc, Run(rpc, w, ops[..|ops| - 1]), ops[|ops| - 1]);
    }
  }

  /** What an endpoint has answered is not asked again: the account, and a slot of an account it knows, stay cached. */
  lemma ReadsAreCached(rpc: Remote, w: World, a: Address, s: nat)
    requires Sound(w)
    ensures a in ActiveDb(Apply(rpc, w, ReadInfo(a, true)))
    ensures var db := ActiveDb(Apply(rpc, w, ReadSlot(a, s, true)));
            a in db && (s in db[a].storage || !db[a].status.Existing?)
    ensures !Offline(At(w), w.registry, a) && a !in ActiveDb(w) ==>
              var db := ActiveDb(Apply(rpc, w, ReadSlot(a, s, true)));
              db[a].info == rpc.info(w.state.active, a) && db[a].storage == map[s := rpc.slot(w.state.active, a, s)]
    ensures !Offline(At(w), w.registry, a) && a !in ActiveDb(w) ==>
              Apply(rpc, w, ReadInfo(a, false)) == w && Apply(rpc, w, ReadSlot(a, s, false)) == w
  {}

  /** Local addresses, and everything in the sandbox, read as empty where nothing is cached. */
  lemma LocalReadsAreEmpty(rpc: Remote, w: World, a: Address, s: nat)
    requires Live(w) && (w.state.Sandbox? || a in w.registry) && a !in ActiveDb(w)
    ensures InfoNow(rpc, w, a) == Info(0, 0, 0) && SlotNow(rpc, w, a, s) == 0
  {}

  // ---- Writes on the active fork --------------------------------------------------------------

  /** The account is not the remains of a destroyed remote account. */
  predicate Plainly(w: World, a: Address)
    requires Live(w)
  {
    a in ActiveDb(w) && ActiveDb(w)[a].status.NotExisting? ==> w.state.Sandbox? || a in w.registry
  }

  /** Setting an account's info replaces just that. */
  lemma InfoReadsBack(rpc: Remote, w: World, a: Address, info: Info, b: Address, s: nat)
    requires Sound(w) && Plainly(w, a)
    ensures var w' := Apply(rpc, w, PutInfo(a, info));
            && InfoNow(rpc, w', b) == (if b == a then info else InfoNow(rpc, w, b))
            && SlotNow(rpc, w', b, s) == SlotNow(rpc, w, b, s)
  {}

  /** Setting a slot replaces just that, unless the account must be fetched from an endpoint that is down. */
  lemma SlotReadsBack(rpc: Remote, w: World, a: Address, t: nat, v: nat, up: bool, b: Address, s: nat)
    requires Sound(w)
    ensures var w' := Apply(rpc, w, PutSlot(a, t, v, up));
            var ok := up || w.state.Sandbox? || a in w.registry || a in ActiveDb(w);
            && InfoNow(rpc, w', b) == InfoNow(rpc, w, b)
            && SlotNow(rpc, w', b, s) == (if ok && b == a && s == t then v else SlotNow(rpc, w, b, s))
            && (!ok ==> w' == w)
  {}

  /** A plain commit writes the info and the slots it names; a creation also clears the others; a destruction clears all. */
  lemma CommitReadsBack(rpc: Remote, w: World, a: Address, touch: Touch, info: Info, slots: map<nat, nat>, b: Address, s: nat)
    requires Sound(w) && Plainly(w, a)
    ensures var w' := Apply(rpc, w, Commit(a, touch, info, slots));
            && InfoNow(rpc, w', b) == (if b != a then InfoNow(rpc, w, b) else if touch.Destroyed? then Info(0, 0, 0) else info)
            && SlotNow(rpc, w', b, s) == if b != a then SlotNow(rpc, w, b, s)
                                         else if touch.Destroyed? then 0
                                         else if s in slots then slots[s]
                                         else if touch.Created? then 0
                                         else SlotNow(rpc, w, b, s)
  {}

  const MAX_BALANCE := 0x1_0000_0000_0000_0000_0000_0000_0000_0000_0000_0000_0000_0000_0000_0000_0000_0000 - 1

  // ---- Switches --------------------------------------------------------------------------------

  /** Which fork a switch ends in: the one active already, an existing one, or a new one when its block is served. */
  lemma SwitchOutcome(w: World, key: ForkKey, block: Option<Block>)
    requires Live(w)
    ensures var w' := Switched(w, key, block);
            var known := w.state.Multi? && key in w.state.forks;
            var served := block.Some? && block.value.number == key.block;
            && Live(w') && w'.registry == w.registry
            && (w.state.Multi? && w.state.active == key ==> w' == w)
            && (!known && !served ==> w' == w)
            && (known || served ==>
                  && w'.state.Multi? && w'.state.active == key
                  && w'.state.forks.Keys == (if w.state.Multi? then w.state.forks.Keys else {}) + {key}
                  && w'.state.forks[key].env == if known then w.state.forks[key].env else block.value)
            && (forall k :: w.state.Multi? && k in w.state.forks && k != key ==>
                  w'.state.Multi? && k in w'.state.forks && w'.state.forks[k] == w.state.forks[k])
  {}

  /** A switch that moves carries the shared accounts: their info, and every slot they have cached. */
  lemma SwitchCarries(w: World, key: ForkKey, block: Option<Block>, a: Address)
    requires Live(w) && w.state.Multi? && key != w.state.active && Shared(a, w.registry) && a in w.state.forks[w.state.active].db
    requires key in w.state.forks || (block.Some? && block.value.number == key.block)
    ensures var source, target := w.state.forks[w.state.active].db, ActiveDb(Switched(w, key, block));
            && a in target && target[a].info == source[a].info
            && forall s :: s in source[a].storage ==> s in target[a].storage && target[a].storage[s] == source[a].storage[s]
  {}

  /** Nothing else is carried: any other account is in the fork switched to as it was there, or seeded as coinbase. */
  lemma SwitchLeavesOthers(w: World, key: ForkKey, block: Option<Block>, a: Address)
    requires Live(w) && w.state.Multi? && key != w.state.active && !Shared(a, w.registry)
    requires key in w.state.forks || (block.Some? && block.value.number == key.block)
    ensures var target := ActiveDb(Switched(w, key, block));
            if key in w.state.forks then
              (a in target <==> a in w.state.forks[key].db) && (a in target ==> target[a] == w.state.forks[key].db[a])
            else
              (a in target <==> a == block.value.coinbase)
              && (a in target ==> target[a] == Account(Info(MAX_BALANCE, 0, 0), map[], Existing))
  {}

  /** The first fork takes every account the sandbox has cached. */
  lemma FirstForkTakesAll(w: World, key: ForkKey, block: Block, a: Address)
    requires Live(w) && w.state.Sandbox? && block.number == key.block && a in w.state.cache
    ensures var target := ActiveDb(Switched(w, key, Some(block)));
            a in target && target[a].info == w.state.cache[a].info && target[a].storage == w.state.cache[a].storage
  {
    var target := ActiveDb(Switched(w, key, Some(block)));
    assert map[] + w.state.cache[a].storage == w.state.cache[a].storage;
  }

  /** Marking an address local changes the registry, by just that, and nothing else. */
  lemma MarkedLocal(rpc: Remote, w: World, a: Address)
    requires Live(w)
    ensures Apply(rpc, w, MarkLocal(a)).registry == w.registry + {a} && Apply(rpc, w, MarkLocal(a)).state == w.state
  {}

  // ---- Environments -----------------------------------------------------------------------------

  /** Every fork holds the environment of the block it is pinned to. */
  predicate Pinned(w: World) {
    w.state.Multi? ==> forall k :: k in w.state.forks ==> w.state.forks[k].env.number == k.block
  }

  lemma EnvStep(rpc: Remote, w: World, op: Op, k: ForkKey)
    requires Live(w) && Pinned(w)
    ensures Pinned(Apply(rpc, w, op))
    ensures w.state.Multi? && k in w.state.forks ==>
              Apply(rpc, w, op).state.Multi? && k in Apply(rpc, w, op).state.forks
              && Apply(rpc, w, op).state.forks[k].env == w.state.forks[k].env
  {
    if op.Switch? {
      SwitchOutcome(w, op.key, op.block);
    }
  }

  /** Through any run, forks stay, and keep the environment they were created with, of the block asked for. */
  lemma {:induction false} EnvironmentsStay(rpc: Remote, w: World, ops: seq<Op>, k: ForkKey)
    requires Live(w) && Pinned(w)
    ensures Pinned(Run(rpc, w, ops))
    ensures w.state.Multi? && k in w.state.forks ==>
              Run(rpc, w, ops).state.Multi? && k in Run(rpc, w, ops).state.forks
              && Run(rpc, w, ops).state.forks[k].env == w.state.forks[k].env
    decreases |ops|
  {
    if |ops| > 0 {
      EnvironmentsStay(rpc, w, ops[..|ops| - 1], k);
      EnvStep(rpc, Run(rpc, w, ops[..|ops| - 1]), ops[|ops| - 1], k);
    }
  }
}
