/**
 The per-client registries g_memoryAllocator and g_memoryRegion: what connecting
 sets up, what disconnecting releases, and what late completions do in between.
 */
module MemRegistry {
  import opened Machine

  type Client = Ptr

  /** OckRpcMrInfo; the region's address is that of the pool it was registered for. */
  datatype MrInfo = MrInfo(mr: Ptr, pool: Ptr)

  /**
   `pools`, `managers` and `mrs` are the pool memory, allocators and memory regions
   created and not yet released, `open` the channels connected and not closed; `misuse`
   counts releases of anything else.
   */
  datatype Registry = Registry(
    allocators: map<Client, Ptr>,
    regions: map<Client, MrInfo>,
    pools: set<Ptr>,
    managers: set<Ptr>,
    mrs: set<Ptr>,
    open: set<Client>,
    misuse: nat)

  const EMPTY := Registry(map[], map[], {}, {}, {}, {}, 0)

  /** What the configuration and the library answer while a connection is set up. */
  datatype Setup =
    | NoPool          // OckRpcSetAllocatorOption found a pool size of 0
    | BadOptions      // OckRpcSetAllocatorOption failed
    | WithPool(
        pool: Ptr,               // memory from malloc
        manager: Option<Ptr>,    // Net_MemoryAllocatorCreate
        mr: Option<Ptr>,         // Service_RegisterAssignMemoryRegion
        infoOk: bool,            // Service_GetMemoryRegionInfo
        keyOk: bool)             // Net_MemoryAllocatorSetMrKey

  predicate Completes(setup: Setup) {
    setup.WithPool? && setup.manager.Some? && setup.mr.Some? && setup.infoOk && setup.keyOk
  }

  /** OckRpcPrepareMemAllocator; the flag is false when connecting fails. */
  function Prepare(r: Registry, client: Client, setup: Setup): (Registry, bool) {
    match setup
    case NoPool => (r, true)
    case BadOptions => (r, false)
    case WithPool(pool, manager, mr, infoOk, keyOk) =>
      var r1 := r.(pools := r.pools + {pool});
      if manager.None? then (r1, false)
      else
        var r2 := r1.(managers := r1.managers + {manager.value});
        if mr.None? then (r2, false)
        else
          var r3 := r2.(mrs := r2.mrs + {mr.value});
          if !infoOk || !keyOk then (r3, false)
          else
            (r3.(
               allocators := if client in r3.allocators then r3.allocators
                             else r3.allocators[client := manager.value],
               regions := if client in r3.regions then r3.regions
                          else r3.regions[client := MrInfo(mr.value, pool)]),
             true)
  }

  /**
   OckRpcClientConnectWithCfg from the answer of Service_Connect on. When the allocator
   cannot be prepared the channel stays open.
   */
  function Connect(r: Registry, client: Client, setup: Setup): (Registry, bool) {
    Prepare(r.(open := r.open + {client}), client, setup)
  }

  /** Any use of `g_memoryAllocator[client]` by an allocation or a free. */
  function Touch(r: Registry, client: Client): Registry {
    if client in r.allocators then r else r.(allocators := r.allocators[client := 0])
  }

  /**
   Net_MemoryAllocatorDestroy. It answers the null allocator with an error only, and may
   fail on any other (`destroyed` is false).
   */
  function DestroyManager(r: Registry, manager: Ptr, destroyed: bool): Registry {
    if manager in r.managers then (if destroyed then r.(managers := r.managers - {manager}) else r)
    else if manager == 0 then r
    else r.(misuse := r.misuse + 1)
  }

  function ReleaseRegion(r: Registry, info: MrInfo): Registry {
    var r1 := if info.pool in r.pools then r.(pools := r.pools - {info.pool}) else r.(misuse := r.misuse + 1);
    if info.mr in r1.mrs then r1.(mrs := r1.mrs - {info.mr}) else r1.(misuse := r1.misuse + 1)
  }

  /** OckRpcClientDisconnect: a failing destruction is only logged. */
  function Disconnect(r: Registry, client: Client, destroyed: bool): Registry {
    var r1 := if client in r.allocators
              then DestroyManager(r, r.allocators[client], destroyed).(allocators := r.allocators - {client}) else r;
    var r2 := if client in r1.regions
              then ReleaseRegion(r1, r1.regions[client]).(regions := r1.regions - {client}) else r1;
    r2.(open := r2.open - {client})
  }

  datatype Event =
    | Connected(client: Client, setup: Setup)
    | Touched(client: Client)
    | Disconnected(client: Client, destroyed: bool)

  function Apply(r: Registry, e: Event): Registry {
    match e
    case Connected(client, setup) => Connect(r, client, setup).0
    case Touched(client) => Touch(r, client)
    case Disconnected(client, destroyed) => Disconnect(r, client, destroyed)
  }

  /** malloc and the library answer with nonzero things not in use. */
  predicate Fresh(r: Registry, e: Event) {
    e.Connected? && e.setup.WithPool? ==>
      && e.setup.pool != 0 && e.setup.pool !in r.pools
      && (e.setup.manager.Some? ==> e.setup.manager.value != 0 && e.setup.manager.value !in r.managers)
      && (e.setup.mr.Some? ==> e.setup.mr.value != 0 && e.setup.mr.value !in r.mrs)
  }

  function Replay(r: Registry, events: seq<Event>): Registry {
    if events == [] then r else Apply(Replay(r, events[..|events| - 1]), events[|events| - 1])
  }

  predicate AllFresh(r: Registry, events: seq<Event>) {
    events == [] ||
    (AllFresh(r, events[..|events| - 1]) && Fresh(Replay(r, events[..|events| - 1]), events[|events| - 1]))
  }

  /** Every client with a region has an allocator; an entry without a region is null; allocators are not shared. */
  ghost predicate AllocatorsInv(allocators: map<Client, Ptr>, withRegion: set<Client>, managers: set<Ptr>) {
    && 0 !in managers
    && withRegion <= allocators.Keys
    && (forall c :: c in allocators && c !in withRegion ==> allocators[c] == 0)
    && (forall c :: c in allocators && allocators[c] != 0 ==> allocators[c] in managers)
    && (forall c, d :: c in allocators && d in allocators && c != d && allocators[c] != 0 ==>
          allocators[c] != allocators[d])
  }

  ghost predicate RegionsInv(regions: map<Client, MrInfo>, pools: set<Ptr>, mrs: set<Ptr>) {
    && 0 !in pools && 0 !in mrs
    && (forall c :: c in regions ==> regions[c].pool in pools && regions[c].mr in mrs)
    && (forall c, d :: c in regions && d in regions && c != d ==>
          regions[c].pool != regions[d].pool && regions[c].mr != regions[d].mr)
  }

  ghost predicate Inv(r: Registry) {
    && r.misuse == 0
    && AllocatorsInv(r.allocators, r.regions.Keys, r.managers)
    && RegionsInv(r.regions, r.pools, r.mrs)
  }

  lemma ConnectInv(r: Registry, client: Client, setup: Setup)
    requires Inv(r) && Fresh(r, Connected(client, setup))
    ensures Inv(Prepare(r, client, setup).0)
  {
    if Completes(setup) {
      CompleteInv(r, client, setup);
    } else {
      var r' := Prepare(r, client, setup).0;
      assert r'.allocators == r.allocators && r'.regions == r.regions;
      assert r.pools <= r'.pools && r.managers <= r'.managers && r.mrs <= r'.mrs;
    }
  }

  lemma CompleteInv(r: Registry, client: Client, setup: Setup)
    requires Inv(r) && Fresh(r, Connected(client, setup)) && Completes(setup)
    ensures Inv(Prepare(r, client, setup).0)
  {
    var r' := Prepare(r, client, setup).0;
    AllocatorsGrow(r.allocators, r.regions.Keys, r.managers, client, setup.manager.value);
    RegionsGrow(r.regions, r.pools, r.mrs, client, setup.mr.value, setup.pool);
    assert r'.regions.Keys == r.regions.Keys + {client};
  }

  lemma AllocatorsGrow(allocators: map<Client, Ptr>, withRegion: set<Client>, managers: set<Ptr>,
                       client: Client, manager: Ptr)
    requires AllocatorsInv(allocators, withRegion, managers) && manager != 0 && manager !in managers
    ensures AllocatorsInv(if client in allocators then allocators else allocators[client := manager],
                          withRegion + {client}, managers + {manager})
  {
  }

  lemma RegionsGrow(regions: map<Client, MrInfo>, pools: set<Ptr>, mrs: set<Ptr>, client: Client, mr: Ptr, pool: Ptr)
    requires RegionsInv(regions, pools, mrs) && pool != 0 && pool !in pools && mr != 0 && mr !in mrs
    ensures RegionsInv(if client in regions then regions else regions[client := MrInfo(mr, pool)],
                       pools + {pool}, mrs + {mr})
  {
  }

  /** The allocator a disconnect destroys, if any. */
  function Destroyed(r: Registry, client: Client, destroyed: bool): set<Ptr> {
    if destroyed && client in r.allocators then {r.allocators[client]} else {}
  }

  lemma DisconnectInv(r: Registry, client: Client, destroyed: bool)
    requires Inv(r)
    ensures var r' := Disconnect(r, client, destroyed);
      && Inv(r')
      && r'.allocators == r.allocators - {client} && r'.regions == r.regions - {client}
      && r'.managers == r.managers - Destroyed(r, client, destroyed)
      && r'.pools == r.pools - (if client in r.regions then {r.regions[client].pool} else {})
      && r'.mrs == r.mrs - (if client in r.regions then {r.regions[client].mr} else {})
      && r'.open == r.open - {client}
  {
    var r1 := if client in r.allocators
              then DestroyManager(r, r.allocators[client], destroyed).(allocators := r.allocators - {client}) else r;
    assert r1.regions == r.regions && r1.pools == r.pools && r1.mrs == r.mrs && r1.misuse == 0;
    var r' := Disconnect(r, client, destroyed);
    assert r'.allocators == r1.allocators && r'.managers == r1.managers;
    assert r'.misuse == 0;
  }

  lemma ApplyInv(r: Registry, e: Event)
    requires Inv(r) && Fresh(r, e)
    ensures Inv(Apply(r, e))
  {
    match e
    case Connected(client, setup) => ConnectInv(r.(open := r.open + {client}), client, setup);
    case Touched(_) =>
    case Disconnected(client, destroyed) => DisconnectInv(r, client, destroyed);
  }

  /** Over every run: regions have allocators, bare allocator entries are null, nothing is released twice. */
  lemma {:induction false} ReplayInv(r: Registry, events: seq<Event>)
    requires Inv(r) && AllFresh(r, events)
    ensures Inv(Replay(r, events))
  {
    if events != [] {
      var front := events[..|events| - 1];
      ReplayInv(r, front);
      ApplyInv(Replay(r, front), events[|events| - 1]);
    }
  }

  // From connecting to disconnecting

  /** The client's entries hold just what this setup created, and all of it is unreleased. */
  ghost predicate Holds(r: Registry, client: Client, setup: Setup)
    requires Completes(setup)
  {
    && client in r.allocators && r.allocators[client] == setup.manager.value
    && client in r.regions && r.regions[client] == MrInfo(setup.mr.value, setup.pool)
    && setup.manager.value in r.managers && setup.pool in r.pools && setup.mr.value in r.mrs
    && client in r.open
  }

  /**
   A completed setup ends up in both registries exactly when the client had no
   allocator entry before. A null entry left by a late use of the client is enough to
   keep the new allocator out of the registry.
   */
  lemma ConnectHoldsIff(r: Registry, client: Client, setup: Setup)
    requires Inv(r) && Fresh(r, Connected(client, setup)) && Completes(setup)
    ensures Connect(r, client, setup).1
    ensures Holds(Connect(r, client, setup).0, client, setup) <==> client !in r.allocators
  {
  }

  /**
   Every way to connect: whether it succeeds, and each thing it leaves. The channel stays
   open even when it fails, and so does everything made before the failure.
   */
  lemma ConnectExact(r: Registry, client: Client, setup: Setup)
    ensures var (r', ok) := Connect(r, client, setup);
      var full := setup.WithPool? && setup.manager.Some? && setup.mr.Some? && setup.infoOk && setup.keyOk;
      && (ok <==> setup.NoPool? || full)
      && r'.open == r.open + {client} && r'.misuse == r.misuse
      && r'.pools == r.pools + (if setup.WithPool? then {setup.pool} else {})
      && r'.managers == r.managers + (if setup.WithPool? && setup.manager.Some? then {setup.manager.value} else {})
      && r'.mrs == r.mrs +
         (if setup.WithPool? && setup.manager.Some? && setup.mr.Some? then {setup.mr.value} else {})
      && r'.allocators == (if full && client !in r.allocators then r.allocators[client := setup.manager.value]
                           else r.allocators)
      && r'.regions == (if full && client !in r.regions then r.regions[client := MrInfo(setup.mr.value, setup.pool)]
                        else r.regions)
  {
  }

  predicate NoDisconnect(events: seq<Event>, client: Client) {
    forall i :: 0 <= i < |events| && events[i].Disconnected? ==> events[i].client != client
  }

  lemma {:induction false} HoldsUntilDisconnect(r: Registry, client: Client, setup: Setup, events: seq<Event>)
    requires Inv(r) && Completes(setup) && Holds(r, client, setup)
    requires AllFresh(r, events) && NoDisconnect(events, client)
    ensures Holds(Replay(r, events), client, setup)
  {
    if events != [] {
      var front, last := events[..|events| - 1], events[|events| - 1];
      HoldsUntilDisconnect(r, client, setup, front);
      ReplayInv(r, front);
      HoldsStep(Replay(r, front), client, setup, last);
    }
  }

  lemma HoldsStep(r: Registry, client: Client, setup: Setup, e: Event)
    requires Inv(r) && Completes(setup) && Holds(r, client, setup)
    requires Fresh(r, e) && (e.Disconnected? ==> e.client != client)
    ensures Holds(Apply(r, e), client, setup)
  {
    if e.Disconnected? {
      DisconnectInv(r, e.client, e.destroyed);
    }
  }

  /**
   A client connected without a stale entry, whatever happens to it and others until it
   disconnects: its allocator, pool memory and region are all unreleased right up to the
   disconnect, which releases each of them and nothing else and closes the channel; only
   the allocator stays if its destruction fails.
   */
  lemma ReleasedOnce(r: Registry, client: Client, setup: Setup, events: seq<Event>, destroyed: bool)
    requires Inv(r) && Fresh(r, Connected(client, setup)) && Completes(setup) && client !in r.allocators
    requires AllFresh(Connect(r, client, setup).0, events) && NoDisconnect(events, client)
    ensures var before := Replay(Connect(r, client, setup).0, events);
      var after := Disconnect(before, client, destroyed);
      && setup.manager.value in before.managers && setup.pool in before.pools && setup.mr.value in before.mrs
      && after.managers == before.managers - (if destroyed then {setup.manager.value} else {})
      && after.pools == before.pools - {setup.pool}
      && after.mrs == before.mrs - {setup.mr.value}
      && client in before.open && after.open == before.open - {client}
      && after.misuse == 0
  {
    ConnectInv(r.(open := r.open + {client}), client, setup);
    ConnectHoldsIff(r, client, setup);
    var r1 := Connect(r, client, setup).0;
    HoldsUntilDisconnect(r1, client, setup, events);
    ReplayInv(r1, events);
    DisconnectInv(Replay(r1, events), client, destroyed);
  }

  // What no disconnect will ever release

  function Orphans(r: Registry): (set<Ptr>, set<Ptr>, set<Ptr>) {
    (r.pools - (set c | c in r.regions :: r.regions[c].pool),
     r.managers - (set c | c in r.allocators :: r.allocators[c]),
     r.mrs - (set c | c in r.regions :: r.regions[c].mr))
  }

  /** What a connect, or a disconnect that cannot destroy the allocator, leaves behind that no entry names. */
  function Lost(r: Registry, e: Event): (set<Ptr>, set<Ptr>, set<Ptr>) {
    if e.Disconnected? then
      ({},
       if !e.destroyed && e.client in r.allocators && r.allocators[e.client] != 0 then {r.allocators[e.client]} else {},
       {})
    else if !e.Connected? || !e.setup.WithPool? then ({}, {}, {})
    else
      var done := Completes(e.setup);
      (if done && e.client !in r.regions then {} else {e.setup.pool},
       if e.setup.manager.None? || (done && e.client !in r.allocators) then {} else {e.setup.manager.value},
       if e.setup.manager.None? || e.setup.mr.None? || (done && e.client !in r.regions) then {} else {e.setup.mr.value})
  }

  /** The ledger of orphans: each event adds exactly what it loses. */
  lemma OrphanLedger(r: Registry, e: Event)
    requires Inv(r) && Fresh(r, e)
    ensures Orphans(Apply(r, e)).0 == Orphans(r).0 + Lost(r, e).0
    ensures Orphans(Apply(r, e)).1 == Orphans(r).1 + Lost(r, e).1
    ensures Orphans(Apply(r, e)).2 == Orphans(r).2 + Lost(r, e).2
  {
    match e
    case Connected(client, setup) =>
      ConnectLedger(r.(open := r.open + {client}), client, setup);
    case Touched(client) => TouchLedger(r, client);
    case Disconnected(client, destroyed) => DisconnectLedger(r, client, destroyed);
  }

  lemma TouchLedger(r: Registry, client: Client)
    requires Inv(r)
    ensures Orphans(Touch(r, client)) == Orphans(r)
  {
    var r' := Touch(r, client);
    forall p | p in r.managers
      ensures (exists c :: c in r'.allocators && r'.allocators[c] == p)
         <==> (exists c :: c in r.allocators && r.allocators[c] == p)
    {
      if c :| c in r.allocators && r.allocators[c] == p {
        assert c in r'.allocators && r'.allocators[c] == p;
      }
    }
    assert Orphans(r').1 == Orphans(r).1;
  }

  lemma ConnectLedger(r: Registry, client: Client, setup: Setup)
    requires Inv(r) && Fresh(r, Connected(client, setup))
    ensures var r', lost := Prepare(r, client, setup).0, Lost(r, Connected(client, setup));
      && Orphans(r').0 == Orphans(r).0 + lost.0
      && Orphans(r').1 == Orphans(r).1 + lost.1
      && Orphans(r').2 == Orphans(r).2 + lost.2
  {
    if setup.WithPool? && Completes(setup) {
      CompleteLedger(r, client, setup);
    } else if setup.WithPool? {
      BrokenLedger(r, client, setup);
    }
  }

  lemma CompleteLedger(r: Registry, client: Client, setup: Setup)
    requires Inv(r) && Fresh(r, Connected(client, setup)) && Completes(setup)
    ensures var r', lost := Prepare(r, client, setup).0, Lost(r, Connected(client, setup));
      && Orphans(r').0 == Orphans(r).0 + lost.0
      && Orphans(r').1 == Orphans(r).1 + lost.1
      && Orphans(r').2 == Orphans(r).2 + lost.2
  {
    var r' := Prepare(r, client, setup).0;
    assert client in r'.allocators && client in r'.regions;
    assert forall c :: c in r.allocators ==> c in r'.allocators && r'.allocators[c] == r.allocators[c];
    assert forall c :: c in r.regions ==> c in r'.regions && r'.regions[c] == r.regions[c];
  }

  lemma BrokenLedger(r: Registry, client: Client, setup: Setup)
    requires Inv(r) && Fresh(r, Connected(client, setup)) && setup.WithPool? && !Completes(setup)
    ensures var r', lost := Prepare(r, client, setup).0, Lost(r, Connected(client, setup));
      && Orphans(r').0 == Orphans(r).0 + lost.0
      && Orphans(r').1 == Orphans(r).1 + lost.1
      && Orphans(r').2 == Orphans(r).2 + lost.2
  {
    var r' := Prepare(r, client, setup).0;
    assert r'.allocators == r.allocators && r'.regions == r.regions;
  }

  lemma DisconnectLedger(r: Registry, client: Client, destroyed: bool)
    requires Inv(r)
    ensures var r', lost := Disconnect(r, client, destroyed), Lost(r, Disconnected(client, destroyed));
      && Orphans(r').0 == Orphans(r).0 + lost.0
      && Orphans(r').1 == Orphans(r).1 + lost.1
      && Orphans(r').2 == Orphans(r).2 + lost.2
  {
    var r' := Disconnect(r, client, destroyed);
    DisconnectInv(r, client, destroyed);
    assert r'.allocators == r.allocators - {client} && r'.regions == r.regions - {client};
    OrphanManagersKept(r, r', client, destroyed);
    OrphanRegionsKept(r, r', client);
  }

  lemma OrphanManagersKept(r: Registry, r': Registry, client: Client, destroyed: bool)
    requires Inv(r) && r'.allocators == r.allocators - {client}
    requires r'.managers == r.managers - Destroyed(r, client, destroyed)
    ensures Orphans(r').1 == Orphans(r).1 + Lost(r, Disconnected(client, destroyed)).1
  {
    forall p | p in r.managers
      ensures p in Orphans(r').1 <==> p in Orphans(r).1 || p in Lost(r, Disconnected(client, destroyed)).1
    {
      if c :| c in r.allocators && r.allocators[c] == p && c != client {
        assert c in r'.allocators && r'.allocators[c] == p;
      }
    }
  }

  lemma OrphanRegionsKept(r: Registry, r': Registry, client: Client)
    requires Inv(r) && r'.regions == r.regions - {client}
    requires r'.pools == r.pools - (if client in r.regions then {r.regions[client].pool} else {})
    requires r'.mrs == r.mrs - (if client in r.regions then {r.regions[client].mr} else {})
    ensures Orphans(r').0 == Orphans(r).0 && Orphans(r').2 == Orphans(r).2
  {
    forall p
      ensures p in Orphans(r').0 <==> p in Orphans(r).0
    {
      if c :| c in r.regions && r.regions[c].pool == p && c != client {
        assert c in r'.regions && r'.regions[c].pool == p;
      }
    }
    forall p
      ensures p in Orphans(r').2 <==> p in Orphans(r).2
    {
      if c :| c in r.regions && r.regions[c].mr == p && c != client {
        assert c in r'.regions && r'.regions[c].mr == p;
      }
    }
  }

  // The registries as the program updates them

  class Tables {
    var g_memoryAllocator: map<Client, Ptr>
    var g_memoryRegion: map<Client, MrInfo>
    // the library's and malloc's own books
    var pools: set<Ptr>
    var managers: set<Ptr>
    var mrs: set<Ptr>
    var open: set<Client>
    var misuse: nat

    ghost function View(): Registry
      reads this
    {
      Registry(g_memoryAllocator, g_memoryRegion, pools, managers, mrs, open, misuse)
    }

    constructor ()
      ensures View() == EMPTY
    {
      g_memoryAllocator, g_memoryRegion := map[], map[];
      pools, managers, mrs, open, misuse := {}, {}, {}, {}, 0;
    }

    method ClientConnect(client: Client, setup: Setup) returns (ok: bool)
      modifies this
      ensures (View(), ok) == Connect(old(View()), client, setup)
    {
      open := open + {client};
      ok := PrepareMemAllocator(client, setup);
    }

    method PrepareMemAllocator(client: Client, setup: Setup) returns (ok: bool)
      modifies this
      ensures (View(), ok) == Prepare(old(View()), client, setup)
    {
      if setup.NoPool? {
        return true;
      }
      if setup.BadOptions? {
        return false;
      }
      pools := pools + {setup.pool};
      if setup.manager.None? {
        return false;
      }
      managers := managers + {setup.manager.value};
      if setup.mr.None? {
        return false;
      }
      mrs := mrs + {setup.mr.value};
      if !setup.infoOk || !setup.keyOk {
        return false;
      }
      if client !in g_memoryAllocator {
        g_memoryAllocator := g_memoryAllocator[client := setup.manager.value];
      }
      if client !in g_memoryRegion {
        g_memoryRegion := g_memoryRegion[client := MrInfo(setup.mr.value, setup.pool)];
      }
      return true;
    }

    /** The lookup behind OckRpcMemAlloc and OckRpcMemFree. */
    method AllocatorOf(client: Client) returns (manager: Ptr)
      modifies this`g_memoryAllocator
      ensures View() == Touch(old(View()), client)
      ensures manager == if client in old(g_memoryAllocator) then old(g_memoryAllocator)[client] else 0
      ensures client in g_memoryAllocator && manager == g_memoryAllocator[client]
      ensures g_memoryAllocator - {client} == old(g_memoryAllocator) - {client}
    {
      if client !in g_memoryAllocator {
        g_memoryAllocator := g_memoryAllocator[client := 0];
      }
      manager := g_memoryAllocator[client];
    }

    method ClientDisconnect(client: Client, destroyed: bool)
      modifies this
      ensures View() == Disconnect(old(View()), client, destroyed)
    {
      if client in g_memoryAllocator {
        var manager := g_memoryAllocator[client];
        if manager in managers {
          if destroyed {
            managers := managers - {manager};
          }
        } else if manager != 0 {
          misuse := misuse + 1;
        }
        g_memoryAllocator := g_memoryAllocator - {client};
      }
      if client in g_memoryRegion {
        var info := g_memoryRegion[client];
        if info.pool in pools {
          pools := pools - {info.pool};
        } else {
          misuse := misuse + 1;
        }
        if info.mr in mrs {
          mrs := mrs - {info.mr};
        } else {
          misuse := misuse + 1;
        }
        g_memoryRegion := g_memoryRegion - {client};
      }
      open := open - {client};
    }
  }
}
