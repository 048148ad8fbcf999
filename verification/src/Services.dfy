/**
 The service and handler registries: OckRpcServerCreateWithCfg, OckRpcServerDestroy,
 OckRpcServerAddService and the dispatch in OckRpcReceiveHandle.
 */
module Services {
  import opened Machine

  type Handle = nat
  /** A function pointer; 0 is null. */
  type Handler = nat

  const MAX_NAME_LEN := 64
  const MAX_MESSAGE_ID := 1000
  const SERVER_NAME := "server.create.name"
  const COMMUNICATION_TYPE := "server.create.type"
  const DEFAULT_NAME := "service"

  datatype Status = Ok | Err | InvalidParam

  /** OckRpcService */
  datatype Service = Service(id: u16, handler: Handler)

  /**
   `alive` are the handles the library has created and not destroyed; the others are
   g_serviceMap, g_handleMap, g_connectionType, and g_options with g_tlsFunc.
   */
  datatype Registry = Registry(
    services: map<string, Handle>,
    handlers: map<i16, Handler>,
    alive: set<Handle>,
    connection: Connection,
    settings: Settings)

  datatype Connection = Rdma | Tcp

  /** Of g_options the segment size, of g_tlsFunc the certificate callback; both are shared by all servers. */
  datatype Settings = Settings(segSize: u32, getCert: Ptr)

  const NO_SETTINGS := Settings(0, 0)
  const EMPTY_REGISTRY := Registry(map[], map[], {}, Rdma, NO_SETTINGS)

  function NameFor(config: map<string, string>): string {
    if SERVER_NAME in config then config[SERVER_NAME] else DEFAULT_NAME
  }

  predicate TypeAccepted(config: map<string, string>) {
    COMMUNICATION_TYPE in config ==> config[COMMUNICATION_TYPE] == "TCP" || config[COMMUNICATION_TYPE] == "RDMA"
  }

  predicate Registered(r: Registry, server: Handle) {
    server in r.services.Values
  }

  /** OckRpcCreateServer; `created` is what Service_Create answers. */
  function CreateServer(r: Registry, config: map<string, string>, created: Option<Handle>): (Registry, Status) {
    var name := NameFor(config);
    if |name| > MAX_NAME_LEN || !TypeAccepted(config) then (r, InvalidParam)
    else
      var connection := if COMMUNICATION_TYPE !in config then r.connection
                        else if config[COMMUNICATION_TYPE] == "TCP" then Tcp else Rdma;
      if created.None? then (r.(connection := connection), Err)
      else
        var services := if name in r.services then r.services else r.services[name := created.value];
        (r.(services := services, alive := r.alive + {created.value}, connection := connection), Ok)
  }

  /** The name std::find_if stops at for a registered handle. */
  ghost function FoundName(r: Registry, server: Handle): (name: string)
    requires Registered(r, server)
    ensures name in r.services && r.services[name] == server
  {
    var name :| name in r.services && r.services[name] == server;
    name
  }

  /** OckRpcServerDestroy; `destroyed` tells whether Service_Destroy succeeds. */
  ghost function Destroy(r: Registry, server: Handle, destroyed: bool): Registry {
    if !Registered(r, server) || !destroyed then r
    else
      r.(services := r.services - {FoundName(r, server)}, alive := r.alive - {server}, settings := NO_SETTINGS)
  }

  /**
   OckRpcServerCreateWithCfg after its null checks. `settings` is what the two option
   functions leave, whether they succeed or not. When they do not, the new server is
   destroyed again.
   */
  ghost function CreateWithCfg(r: Registry, config: map<string, string>, created: Option<Handle>,
                               settings: Settings, optionsOk: bool, destroyed: bool): (Registry, Status)
  {
    var (r0, status) := CreateServer(r, config, created);
    var r1 := r0.(settings := settings);
    if status != Ok then (r0, status)
    else if optionsOk then (r1, Ok)
    else (Destroy(r1, created.value, destroyed), InvalidParam)
  }

  /** The checks of OckRpcServerAddService. */
  predicate Accepts(r: Registry, server: Handle, service: Option<Service>) {
    Registered(r, server) && service.Some? && service.value.id < MAX_MESSAGE_ID && service.value.handler != 0
  }

  /** OckRpcServerAddService; a null service is None. */
  function AddService(r: Registry, server: Handle, service: Option<Service>): (Registry, Status) {
    if Accepts(r, server, service) then
      (r.(handlers := r.handlers[ToI16(service.value.id) := service.value.handler]), Ok)
    else (r, InvalidParam)
  }

  function Lookup(handlers: map<i16, Handler>, msgId: u16): Option<Handler> {
    var key := ToI16(msgId);
    if key in handlers then Some(handlers[key]) else None
  }

  // The registries as the program updates them

  class Tables {
    var g_serviceMap: map<string, Handle>
    var g_handleMap: map<i16, Handler>
    var g_connectionType: Connection
    var settings: Settings
    ghost var alive: set<Handle>

    ghost function View(): Registry
      reads this
    {
      Registry(g_serviceMap, g_handleMap, alive, g_connectionType, settings)
    }

    constructor ()
      ensures View() == EMPTY_REGISTRY
    {
      g_serviceMap, g_handleMap, alive := map[], map[], {};
      g_connectionType, settings := Rdma, NO_SETTINGS;
    }

    method CreateServerEntry(config: map<string, string>, created: Option<Handle>) returns (status: Status)
      modifies this
      ensures (View(), status) == CreateServer(old(View()), config, created)
    {
      var serviceName := "service";
      if SERVER_NAME in config {
        serviceName := config[SERVER_NAME];
      }
      if |serviceName| > MAX_NAME_LEN {
        return InvalidParam;
      }
      if COMMUNICATION_TYPE in config {
        var t := config[COMMUNICATION_TYPE];
        if t == "TCP" {
          g_connectionType := Tcp;
        } else if t == "RDMA" {
          g_connectionType := Rdma;
        } else {
          return InvalidParam;
        }
      }
      if created.None? {
        return Err;
      }
      alive := alive + {created.value};
      if serviceName !in g_serviceMap {
        g_serviceMap := g_serviceMap[serviceName := created.value];
      }
      return Ok;
    }

    method ServerDestroy(server: Handle, destroyed: bool)
      requires Inv(View())
      modifies this
      ensures View() == Destroy(old(View()), server, destroyed)
    {
      if server in g_serviceMap.Values && destroyed {
        var name :| name in g_serviceMap && g_serviceMap[name] == server;
        assert name == FoundName(View(), server);
        g_serviceMap := g_serviceMap - {name};
        alive := alive - {server};
        settings := NO_SETTINGS;
      }
    }

    method ServerCreateWithCfg(config: map<string, string>, created: Option<Handle>,
                               left: Settings, optionsOk: bool, destroyed: bool) returns (status: Status)
      requires Inv(View()) && FreshAnswer(View(), created)
      modifies this
      ensures (View(), status) == CreateWithCfg(old(View()), config, created, left, optionsOk, destroyed)
    {
      CreateServerInv(View(), config, created);
      status := CreateServerEntry(config, created);
      if status == Ok {
        settings := left;
      }
      if status == Ok && !optionsOk {
        ServerDestroy(created.value, destroyed);
        status := InvalidParam;
      }
    }

    method ServerAddService(server: Handle, service: Option<Service>) returns (status: Status)
      modifies this
      ensures (View(), status) == AddService(old(View()), server, service)
    {
      if server !in g_serviceMap.Values {
        return InvalidParam;
      }
      if service.None? || service.value.id >= MAX_MESSAGE_ID || service.value.handler == 0 {
        return InvalidParam;
      }
      g_handleMap := g_handleMap[ToI16(service.value.id) := service.value.handler];
      return Ok;
    }
  }

  // Every run

  ghost predicate Inv(r: Registry) {
    && (forall name :: name in r.services ==> |name| <= MAX_NAME_LEN && r.services[name] in r.alive)
    && (forall m, n :: m in r.services && n in r.services && r.services[m] == r.services[n] ==> m == n)
    && (forall key :: key in r.handlers ==> 0 <= key < MAX_MESSAGE_ID && r.handlers[key] != 0)
  }

  /** The library does not answer a new server with a handle that is still in use. */
  predicate FreshAnswer(r: Registry, created: Option<Handle>) {
    created.Some? ==> created.value !in r.alive
  }

  datatype Event =
    | Create(config: map<string, string>, created: Option<Handle>, left: Settings, optionsOk: bool, destroyed: bool)
    | Remove(server: Handle, destroyed: bool)
    | Add(server: Handle, service: Option<Service>)

  ghost function Apply(r: Registry, e: Event): Registry {
    match e
    case Create(config, created, left, optionsOk, destroyed) =>
      CreateWithCfg(r, config, created, left, optionsOk, destroyed).0
    case Remove(server, destroyed) => Destroy(r, server, destroyed)
    case Add(server, service) => AddService(r, server, service).0
  }

  ghost predicate Admissible(r: Registry, e: Event) {
    e.Create? ==> FreshAnswer(r, e.created)
  }

  ghost function Replay(r: Registry, events: seq<Event>): Registry {
    if events == [] then r else Apply(Replay(r, events[..|events| - 1]), events[|events| - 1])
  }

  ghost predicate AllAdmissible(r: Registry, events: seq<Event>) {
    events == [] ||
    (AllAdmissible(r, events[..|events| - 1])
     && Admissible(Replay(r, events[..|events| - 1]), events[|events| - 1]))
  }

  lemma CreateServerInv(r: Registry, config: map<string, string>, created: Option<Handle>)
    requires Inv(r) && FreshAnswer(r, created)
    ensures Inv(CreateServer(r, config, created).0)
  {
    assert |DEFAULT_NAME| == 7;
  }

  lemma DestroyExact(r: Registry, server: Handle, destroyed: bool)
    requires Inv(r)
    ensures var r' := Destroy(r, server, destroyed);
      && Inv(r')
      && r'.handlers == r.handlers
      && r'.services == (if destroyed then map n | n in r.services && r.services[n] != server :: r.services[n]
                         else r.services)
      && r'.alive == (if destroyed && Registered(r, server) then r.alive - {server} else r.alive)
      && r'.connection == r.connection
      && r'.settings == (if destroyed && Registered(r, server) then NO_SETTINGS else r.settings)
  {
    var r' := Destroy(r, server, destroyed);
    if Registered(r, server) && destroyed {
      assert FoundName(r, server) in r.services;
      assert forall n :: n in r'.services <==> n in r.services && r.services[n] != server;
    } else if destroyed {
      assert forall n :: n in r.services ==> r.services[n] in r.services.Values;
    }
  }

  lemma ApplyInv(r: Registry, e: Event)
    requires Inv(r) && Admissible(r, e)
    ensures Inv(Apply(r, e))
  {
    match e
    case Create(config, created, left, optionsOk, destroyed) => CreateWithCfgInv(r, e);
    case Remove(server, destroyed) => DestroyExact(r, server, destroyed);
    case Add(_, _) =>
  }

  lemma CreateWithCfgInv(r: Registry, e: Event)
    requires Inv(r) && e.Create? && FreshAnswer(r, e.created)
    ensures Inv(CreateWithCfg(r, e.config, e.created, e.left, e.optionsOk, e.destroyed).0)
  {
    CreateServerInv(r, e.config, e.created);
    if e.created.Some? {
      DestroyExact(CreateServer(r, e.config, e.created).0.(settings := e.left), e.created.value, e.destroyed);
    }
  }

  lemma {:induction false} ReplayInv(r: Registry, events: seq<Event>)
    requires Inv(r) && AllAdmissible(r, events)
    ensures Inv(Replay(r, events))
  {
    if events != [] {
      ReplayInv(r, events[..|events| - 1]);
      ApplyInv(Replay(r, events[..|events| - 1]), events[|events| - 1]);
    }
  }

  /**
   A creation that fails on its options leaves g_serviceMap as it was. The server it
   created is gone too exactly when its name was free: under a taken name it was
   never entered, so the cleanup does not find it. The settings the other servers run
   with are not restored: they are reset, or left as the failed creation has them.
   */
  lemma FailedCreateRestores(r: Registry, config: map<string, string>, created: Option<Handle>, left: Settings)
    requires Inv(r) && FreshAnswer(r, created)
    ensures var r' := CreateWithCfg(r, config, created, left, false, true).0;
      var reached := created.Some? && |NameFor(config)| <= MAX_NAME_LEN && TypeAccepted(config);
      && r'.services == r.services && r'.handlers == r.handlers
      && (r'.alive == r.alive <==> !reached || NameFor(config) !in r.services)
      && r'.settings == if !reached then r.settings else if NameFor(config) in r.services then left else NO_SETTINGS
  {
    if CreateServer(r, config, created).1 == Ok {
      var r1 := CreateServer(r, config, created).0.(settings := left);
      CreateServerInv(r, config, created);
      DestroyExact(r1, created.value, true);
      EnteredIff(r, config, created.value);
      assert Registered(r1, created.value) <==> Registered(CreateServer(r, config, created).0, created.value);
    }
  }

  /** A new server is entered exactly when its name is free; taking it out again restores the map. */
  lemma EnteredIff(r: Registry, config: map<string, string>, server: Handle)
    requires Inv(r) && server !in r.alive && CreateServer(r, config, Some(server)).1 == Ok
    ensures var r1 := CreateServer(r, config, Some(server)).0;
      && (Registered(r1, server) <==> NameFor(config) !in r.services)
      && (map n | n in r1.services && r1.services[n] != server :: r1.services[n]) == r.services
  {
    var name, r1 := NameFor(config), CreateServer(r, config, Some(server)).0;
    if name !in r.services {
      assert r1.services[name] == server;
    }
  }

  /** The name a configuration gives its server. */
  function ServerName(config: map<string, string>): string {
    if "server.create.name" in config then config["server.create.name"] else "service"
  }

  /** The connection type the configuration asks for, if it may be used at all. */
  predicate Usable(config: map<string, string>) {
    && |ServerName(config)| <= 64
    && ("server.create.type" in config ==> config["server.create.type"] in ["TCP", "RDMA"])
  }

  /** The service map after `server` was created: the first server under a name keeps it. */
  function FirstWins(services: map<string, Handle>, name: string, server: Handle): map<string, Handle> {
    if name in services then services else services[name := server]
  }

  /**
   What a creation answers and leaves, from the configuration and the library's answers
   alone. The connection type is set before the library is asked, and stays set when it
   refuses.
   */
  lemma CreateExact(r: Registry, config: map<string, string>, created: Option<Handle>,
                    left: Settings, optionsOk: bool, destroyed: bool)
    requires Inv(r) && FreshAnswer(r, created)
    ensures var (r', status) := CreateWithCfg(r, config, created, left, optionsOk, destroyed);
      && (status == Ok <==> Usable(config) && created.Some? && optionsOk)
      && (status == Err <==> Usable(config) && created.None?)
      && r'.handlers == r.handlers
      && r'.connection == (if !Usable(config) || "server.create.type" !in config then r.connection
                           else if config["server.create.type"] == "TCP" then Tcp else Rdma)
      && (created.None? || !Usable(config) ==> r' == r.(connection := r'.connection))
      && (created.Some? && Usable(config) && (optionsOk || !destroyed) ==>
            && r'.settings == left && r'.alive == r.alive + {created.value}
            && r'.services == FirstWins(r.services, ServerName(config), created.value))
  {
    CreateTypes(r, config, created);
    if created.Some? && Usable(config) && !optionsOk {
      var r1 := CreateServer(r, config, created).0.(settings := left);
      CreateServerInv(r, config, created);
      DestroyExact(r1, created.value, destroyed);
    }
  }

  lemma CreateTypes(r: Registry, config: map<string, string>, created: Option<Handle>)
    ensures Usable(config) <==> |NameFor(config)| <= MAX_NAME_LEN && TypeAccepted(config)
    ensures NameFor(config) == ServerName(config)
    ensures CreateServer(r, config, created).0.connection ==
      if !Usable(config) || "server.create.type" !in config then r.connection
      else if config["server.create.type"] == "TCP" then Tcp else Rdma
  {
  }

  /**
   A server created under a name already taken is reported as created, yet no later
   run can register a handler with it or destroy it.
   */
  lemma {:induction false} ShadowedForever(r: Registry, server: Handle, events: seq<Event>)
    requires Inv(r) && server in r.alive && !Registered(r, server) && AllAdmissible(r, events)
    ensures var r' := Replay(r, events);
      && server in r'.alive && !Registered(r', server)
      && forall service :: AddService(r', server, service) == (r', InvalidParam)
  {
    if events != [] {
      var front, last := events[..|events| - 1], events[|events| - 1];
      ShadowedForever(r, server, front);
      ReplayInv(r, front);
      ShadowedStep(Replay(r, front), server, last);
    }
  }

  lemma ShadowedStep(r: Registry, server: Handle, e: Event)
    requires Inv(r) && server in r.alive && !Registered(r, server) && Admissible(r, e)
    ensures server in Apply(r, e).alive && !Registered(Apply(r, e), server)
  {
    match e
    case Create(config, created, left, optionsOk, destroyed) =>
      if CreateServer(r, config, created).1 == Ok {
        ShadowedByCreate(r, server, config, created.value, left, destroyed);
      }
    case Remove(s, destroyed) => DestroyExact(r, s, destroyed);
    case Add(_, _) =>
  }

  lemma ShadowedByCreate(r: Registry, server: Handle, config: map<string, string>, created: Handle,
                         left: Settings, destroyed: bool)
    requires Inv(r) && server in r.alive && !Registered(r, server) && created !in r.alive
    requires CreateServer(r, config, Some(created)).1 == Ok
    ensures var r1 := CreateServer(r, config, Some(created)).0.(settings := left);
      && server in r1.alive && !Registered(r1, server)
      && server in Destroy(r1, created, destroyed).alive && !Registered(Destroy(r1, created, destroyed), server)
  {
    CreateServerInv(r, config, Some(created));
    DestroyExact(CreateServer(r, config, Some(created)).0.(settings := left), created, destroyed);
  }

  lemma CreateUnderTakenName(r: Registry, config: map<string, string>, server: Handle, left: Settings)
    requires Inv(r) && server !in r.alive && NameFor(config) in r.services && TypeAccepted(config)
    ensures var (r', status) := CreateWithCfg(r, config, Some(server), left, true, true);
      status == Ok && server in r'.alive && !Registered(r', server)
  {
  }

  // Dispatch

  /** No id of 1000 or more narrows onto a key the registration check lets in. */
  lemma NarrowKey(msgId: u16, id: u16)
    requires id < MAX_MESSAGE_ID
    ensures ToI16(msgId) == ToI16(id) <==> msgId == id
    ensures ToI16(id) == id
  {
  }

  /** The registration names a server in the map, an id below 1000 and a handler. */
  predicate Registers(r: Registry, server: Handle, service: Option<Service>) {
    && (exists n :: n in r.services && r.services[n] == server)
    && service.Some? && service.value.id < 1000 && service.value.handler != 0
  }

  /** A registration is taken up exactly in that case, also for an id that has a handler, and then replaces it. */
  lemma AddServiceExact(r: Registry, server: Handle, service: Option<Service>)
    ensures var (r', status) := AddService(r, server, service);
      && status == (if Registers(r, server, service) then Ok else InvalidParam)
      && (Registers(r, server, service) ==>
            && Lookup(r'.handlers, service.value.id) == Some(service.value.handler)
            && (forall id :: id != service.value.id ==> Lookup(r'.handlers, id) == Lookup(r.handlers, id))
            && r' == r.(handlers := r'.handlers))
      && (!Registers(r, server, service) ==> r' == r)
  {
    assert server in r.services.Values <==> exists n :: n in r.services && r.services[n] == server;
    if Registers(r, server, service) {
      forall id: u16 | id != service.value.id
        ensures ToI16(id) != ToI16(service.value.id)
      {
        NarrowKey(id, service.value.id);
      }
    }
  }

  /** The handler of the last accepted registration for an id, read off the history backwards. */
  ghost function LastAccepted(r: Registry, events: seq<Event>, msgId: u16): Option<Handler> {
    if events == [] then None
    else
      var front, last := events[..|events| - 1], events[|events| - 1];
      if last.Add? && Registers(Replay(r, front), last.server, last.service) && last.service.value.id == msgId
      then Some(last.service.value.handler)
      else LastAccepted(r, front, msgId)
  }

  /** After any history, an incoming id meets the last accepted registration for it and nothing else. */
  lemma {:induction false} DispatchFollowsLog(events: seq<Event>, msgId: u16)
    ensures Lookup(Replay(EMPTY_REGISTRY, events).handlers, msgId) == LastAccepted(EMPTY_REGISTRY, events, msgId)
  {
    if events != [] {
      var front, last := events[..|events| - 1], events[|events| - 1];
      DispatchFollowsLog(front, msgId);
      var r := Replay(EMPTY_REGISTRY, front);
      if last.Add? {
        AddServiceExact(r, last.server, last.service);
      } else {
        assert Apply(r, last).handlers == r.handlers;
      }
    }
  }
}
