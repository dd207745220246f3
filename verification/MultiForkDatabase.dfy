/** The database as the object the EVM holds: its methods collect, copy and switch in place. */
module MultiForkDatabase {
  import opened Basics
  import opened ForkDatabase

  /** Cached account info plus storage slots to copy across forks. */
  datatype PersistentAccount = PersistentAccount(a: Address, info: Info, storage: seq<(nat, nat)>)

  function PutAll(m: map<nat, nat>, pairs: seq<(nat, nat)>): map<nat, nat> {
    if pairs == [] then m else PutAll(m, pairs[..|pairs| - 1])[pairs[|pairs| - 1].0 := pairs[|pairs| - 1].1]
  }

  lemma {:induction false} PutAllIsMerge(m: map<nat, nat>, pairs: seq<(nat, nat)>)
    ensures PutAll(m, pairs) == m + PutAll(map[], pairs)
  {
    if |pairs| == 0 {
      assert pairs == [];
    } else {
      PutAllIsMerge(m, pairs[..|pairs| - 1]);
    }
  }

  /** `ps` holds each account of `c` once, with its info and slots; the order is the hash map's. */
  ghost predicate Lists(ps: seq<PersistentAccount>, c: Overlay) {
    && Distinct(Addresses(ps))
    && (forall a :: a in c <==> a in Addresses(ps))
    && (forall i :: 0 <= i < |ps| ==> ps[i].a in c && ps[i].info == c[ps[i].a].info && PutAll(map[], ps[i].storage) == c[ps[i].a].storage)
  }

  function Addresses(ps: seq<PersistentAccount>): (r: seq<Address>)
    ensures |r| == |ps|
  {
    seq(|ps|, i requires 0 <= i < |ps| => ps[i].a)
  }

  method CollectSlots(m: map<nat, nat>) returns (pairs: seq<(nat, nat)>)
    ensures PutAll(map[], pairs) == m
  {
    pairs := [];
    var keys := m.Keys;
    while keys != {}
      invariant keys <= m.Keys
      invariant PutAll(map[], pairs) == map k | k in m && k !in keys :: m[k]
      decreases keys
    {
      var k :| k in keys;
      pairs := pairs + [(k, m[k])];
      assert pairs[..|pairs| - 1] + [(k, m[k])] == pairs;
      keys := keys - {k};
    }
    assert m == map k | k in m :: m[k];
  }

  method CollectCached(db: Overlay) returns (ps: seq<PersistentAccount>)
    ensures Lists(ps, db)
  {
    ps := [];
    var keys := db.Keys;
    while keys != {}
      invariant keys <= db.Keys
      invariant Lists(ps, map a | a in db && a !in keys :: db[a])
      decreases keys
    {
      var a :| a in keys;
      var storage := CollectSlots(db[a].storage);
      ps := ps + [PersistentAccount(a, db[a].info, storage)];
      keys := keys - {a};
      assert a in Addresses(ps) by { assert Addresses(ps)[|ps| - 1] == a; }
      ListsMore(ps, map b | b in db && b !in keys :: db[b], a);
    }
    assert db == map a | a in db :: db[a];
  }

  /** One more account at the end of the list. */
  lemma ListsMore(ps: seq<PersistentAccount>, c: Overlay, a: Address)
    requires |ps| > 0 && Lists(ps[..|ps| - 1], c - {a}) && a in c && ps[|ps| - 1].a == a
    requires ps[|ps| - 1].info == c[a].info && PutAll(map[], ps[|ps| - 1].storage) == c[a].storage
    ensures Lists(ps, c)
  {
    var n := |ps| - 1;
    assert Addresses(ps) == Addresses(ps[..n]) + [a];
    forall i | 0 <= i < n ensures ps[i].a in c && ps[i].info == c[ps[i].a].info && PutAll(map[], ps[i].storage) == c[ps[i].a].storage {
      assert ps[..n][i] == ps[i];
    }
  }

  method CollectPersistent(db: Overlay, registry: set<Address>) returns (ps: seq<PersistentAccount>)
    ensures Lists(ps, Carried(db, registry))
  {
    ps := [];
    var keys := db.Keys;
    while keys != {}
      invariant keys <= db.Keys
      invariant Lists(ps, Carried(map a | a in db && a !in keys :: db[a], registry))
      decreases keys
    {
      var a :| a in keys;
      ghost var done := Carried(map b | b in db && b !in keys :: db[b], registry);
      keys := keys - {a};
      ghost var next := Carried(map b | b in db && b !in keys :: db[b], registry);
      assert next - {a} == done;
      if IsPersistent(a, registry) {
        var storage := CollectSlots(db[a].storage);
        ghost var was := ps;
        ps := ps + [PersistentAccount(a, db[a].info, storage)];
        assert ps[..|ps| - 1] == was;
        ListsMore(ps, next, a);
      } else {
        assert next == done;
      }
    }
    assert db == map a | a in db :: db[a];
  }

  /** The part of `c` that the first `i` entries of the list stand for. */
  ghost function Part(ps: seq<PersistentAccount>, c: Overlay, i: nat): Overlay
    requires i <= |ps|
  {
    map a | a in c && a in Addresses(ps)[..i] :: c[a]
  }

  function Copied(db: Overlay, p: PersistentAccount, n: nat): Overlay
    requires n <= |p.storage|
  {
    var withInfo := SetInfo(db, p.a, p.info);
    withInfo[p.a := withInfo[p.a].(storage := PutAll(withInfo[p.a].storage, p.storage[..n]))]
  }

  lemma CopiedIsLanded(db: Overlay, p: PersistentAccount, c: Overlay, target: Overlay)
    requires p.a in c && p.info == c[p.a].info && PutAll(map[], p.storage) == c[p.a].storage
    requires p.a in db <==> p.a in target
    requires p.a in db ==> db[p.a] == target[p.a]
    ensures Copied(db, p, |p.storage|) == db[p.a := Landed(target, c, p.a)]
  {
    assert p.storage[..|p.storage|] == p.storage;
    PutAllIsMerge(SetInfo(db, p.a, p.info)[p.a].storage, p.storage);
    assert map[] + c[p.a].storage == c[p.a].storage;
    assert Copied(db, p, |p.storage|)[p.a] == Landed(target, c, p.a);
  }

  lemma PartGrows(ps: seq<PersistentAccount>, c: Overlay, i: nat)
    requires Lists(ps, c) && i < |ps|
    ensures ps[i].a in c && ps[i].a !in Part(ps, c, i)
    ensures Part(ps, c, i + 1) == Part(ps, c, i)[ps[i].a := c[ps[i].a]]
  {
    var addresses := Addresses(ps);
    assert addresses[i] == ps[i].a && addresses[..i + 1] == addresses[..i] + [ps[i].a];
  }

  lemma OverlaidGrows(target: Overlay, part: Overlay, a: Address, account: Account)
    requires a !in part
    ensures Overlaid(target, part[a := account]) == Overlaid(target, part)[a := Landed(target, part[a := account], a)]
  {}

  lemma OneMoreCopied(ps: seq<PersistentAccount>, c: Overlay, i: nat, target: Overlay)
    requires Lists(ps, c) && i < |ps|
    ensures Copied(Overlaid(target, Part(ps, c, i)), ps[i], |ps[i].storage|) == Overlaid(target, Part(ps, c, i + 1))
  {
    PartGrows(ps, c, i);
    OverlaidGrows(target, Part(ps, c, i), ps[i].a, c[ps[i].a]);
    CopiedIsLanded(Overlaid(target, Part(ps, c, i)), ps[i], Part(ps, c, i + 1), target);
  }

  method CopyAccount(target: Overlay, p: PersistentAccount) returns (db: Overlay)
    ensures db == Copied(target, p, |p.storage|)
  {
    db := SetInfo(target, p.a, p.info);
    ghost var withInfo := db;
    assert withInfo[p.a].(storage := withInfo[p.a].storage) == withInfo[p.a];
    for j := 0 to |p.storage|
      invariant db == Copied(target, p, j)
    {
      db := SetSlot(db, p.a, p.storage[j].0, p.storage[j].1);
      assert p.storage[..j + 1][..j] == p.storage[..j];
    }
  }

  /** `apply_persistent`: the result does not depend on the order of the list. */
  method ApplyPersistent(target: Overlay, ps: seq<PersistentAccount>, ghost c: Overlay) returns (db: Overlay)
    requires Lists(ps, c)
    ensures db == Overlaid(target, c)
  {
    db := target;
    assert Part(ps, c, 0) == map[];
    for i := 0 to |ps|
      invariant db == Overlaid(target, Part(ps, c, i))
    {
      db := CopyAccount(db, ps[i]);
      OneMoreCopied(ps, c, i, target);
    }
    assert Part(ps, c, |ps|) == c;
  }

  predicate CachesSlot(db: Overlay, a: Address, s: nat) {
    a in db && (s in db[a].storage || !db[a].status.Existing?)
  }

  class Database {
    var state: State
    var registry: set<Address>

    function View(): World
      reads this
    {
      World(state, registry)
    }

    /** An empty chain: the deployer and the cheatcode contract are local from the start. */
    constructor (deployer: Info, vm: Info)
      ensures View() == World(Sandbox(map[DEPLOYER := Account(deployer, map[], Existing), VM := Account(vm, map[], Existing)]),
                              {DEPLOYER, VM})
      ensures Sound(View()) && Tame(View(), DEPLOYER) && Tame(View(), VM)
    {
      state := Sandbox(map[DEPLOYER := Account(deployer, map[], Existing), VM := Account(vm, map[], Existing)]);
      registry := {DEPLOYER, VM};
    }

    /** Creates or selects a fork; on an RPC error nothing changes. */
    method Fork(key: ForkKey, block: Option<Block>) returns (env: Option<Block>)
      requires Live(View())
      modifies this`state
      ensures View() == Switched(old(View()), key, block)
      ensures Live(View())
      ensures env.Some? <==> At(View()) == Some(key)
      ensures env.Some? ==> env.value == state.forks[key].env
    {
      match state
      case Multi(active, forks) =>
        if active == key && key in forks {
          return Some(forks[key].env);
        }
        var selected := SelectOrCreate(key, block);
        env := if selected then Some(state.forks[state.active].env) else None;
      case Sandbox(cache) =>
        var persistent := CollectCached(cache);
        var forks := CreateFork(map[], key, block, persistent, cache);
        if forks.None? {
          return None;
        }
        state := Multi(key, forks.value);
        env := Some(forks.value[key].env);
    }

    method SelectOrCreate(key: ForkKey, block: Option<Block>) returns (ok: bool)
      requires Live(View()) && state.Multi? && state.active != key
      modifies this`state
      ensures View() == Switched(old(View()), key, block)
      ensures ok <==> Moves(old(View()), key, block)
    {
      var forks := state.forks;
      ghost var carried := Carried(forks[state.active].db, registry);
      var persistent := CollectPersistent(forks[state.active].db, registry);
      if key in forks {
        var db := ApplyPersistent(forks[key].db, persistent, carried);
        state := Multi(key, forks[key := ForkDatabase.Fork(db, forks[key].env)]);
        return true;
      }
      var created := CreateFork(forks, key, block, persistent, carried);
      if created.Some? {
        state := Multi(key, created.value);
      }
      ok := created.Some?;
    }

    method CreateFork(forks: map<ForkKey, Fork>, key: ForkKey, block: Option<Block>, persistent: seq<PersistentAccount>, ghost c: Overlay)
      returns (created: Option<map<ForkKey, Fork>>)
      requires key !in forks && Lists(persistent, c)
      ensures created == Selected(forks, key, block, c)
    {
      if block.None? || block.value.number != key.block {
        return None;
      }
      var db := map[block.value.coinbase := Account(COINBASE, map[], Existing)];
      db := ApplyPersistent(db, persistent, c);
      created := Some(forks[key := ForkDatabase.Fork(db, block.value)]);
    }

    method MarkLocal(rpc: Remote, a: Address)
      requires Live(View())
      modifies this`registry
      ensures registry == old(registry) + {a} && View() == Apply(rpc, old(View()), Op.MarkLocal(a))
    {
      registry := registry + {a};
    }

    method SetActiveDb(db: Overlay)
      requires Live(View())
      modifies this`state
      ensures View() == WithActiveDb(old(View()), db)
    {
      match state
      case Sandbox(_) => state := Sandbox(db);
      case Multi(active, forks) => state := Multi(active, forks[active := ForkDatabase.Fork(db, forks[active].env)]);
    }

    /** Reads through the overlay, caching what was fetched; fails only when an uncached remote account's endpoint is down. */
    method ReadInfo(rpc: Remote, a: Address, up: bool) returns (info: Option<Info>)
      requires Live(View())
      modifies this`state
      ensures View() == Apply(rpc, old(View()), Op.ReadInfo(a, up))
      ensures info == if a in old(ActiveDb(View())) || Offline(old(At(View())), registry, a) || up
                      then Some(InfoNow(rpc, old(View()), a)) else None
      ensures a !in old(ActiveDb(View())) && (old(state).Sandbox? || a in registry) ==> info == Some(Info(0, 0, 0))
      ensures a !in old(ActiveDb(View())) && old(state).Multi? && a !in registry ==>
                info == if up then Some(rpc.info(old(state).active, a)) else None
    {
      var at, db := At(View()), ActiveDb(View());
      if a !in db {
        if !Offline(at, registry, a) && !up {
          SetActiveDb(db);
          return None;
        }
        db := db[a := Fetched(rpc, at, registry, a)];
      }
      SetActiveDb(db);
      info := Some(if db[a].status.NotExisting? then EMPTY else db[a].info);
    }

    method ReadSlot(rpc: Remote, a: Address, s: nat, up: bool) returns (value: Option<nat>)
      requires Live(View())
      modifies this`state
      ensures View() == Apply(rpc, old(View()), Op.ReadSlot(a, s, up))
      ensures value.Some? ==> value.value == SlotNow(rpc, old(View()), a, s)
      ensures !CachesSlot(old(ActiveDb(View())), a, s) && (old(state).Sandbox? || a in registry) ==> value == Some(0)
      ensures !CachesSlot(old(ActiveDb(View())), a, s) && old(state).Multi? && a !in registry ==>
                value == if up then Some(rpc.slot(old(state).active, a, s)) else None
      ensures value.Some? <==> up || Offline(old(At(View())), registry, a) || CachesSlot(old(ActiveDb(View())), a, s)
    {
      var at, db := At(View()), ActiveDb(View());
      ghost var was := db;
      var reachable := Offline(at, registry, a) || up;
      if a in db && s in db[a].storage {
        value := Some(db[a].storage[s]);
      } else if a in db && !db[a].status.Existing? {
        value := Some(0);
      } else if !reachable {
        value := None;
      } else {
        var account := if a in db then db[a] else Fetched(rpc, at, registry, a);
        if account.status.Existing? {
          value := Some(BaseSlot(rpc, at, registry, a, s));
          db := db[a := account.(storage := account.storage[s := value.value])];
        } else {
          value := Some(0);
          db := db[a := account];
        }
      }
      assert db == LoadSlot(rpc, at, registry, was, a, s, up).Or(was);
      SetActiveDb(db);
    }

    method InsertInfo(rpc: Remote, a: Address, info: Info)
      requires Live(View())
      modifies this`state
      ensures View() == Apply(rpc, old(View()), PutInfo(a, info))
      ensures InfoNow(rpc, View(), a) == info
    {
      SetActiveDb(SetInfo(ActiveDb(View()), a, info));
    }

    method InsertStorage(rpc: Remote, a: Address, s: nat, v: nat, up: bool) returns (ok: bool)
      requires Live(View())
      modifies this`state
      ensures View() == Apply(rpc, old(View()), PutSlot(a, s, v, up))
      ensures ok ==> SlotNow(rpc, View(), a, s) == v
      ensures ok <==> up || Offline(old(At(View())), registry, a) || a in old(ActiveDb(View()))
    {
      var loaded := Load(rpc, At(View()), registry, ActiveDb(View()), a, up);
      SetActiveDb(if loaded.Some? then SetSlot(loaded.value, a, s, v) else ActiveDb(View()));
      ok := loaded.Some?;
    }
  }
}
