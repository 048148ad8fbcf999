/**
 The asynchronous completion protocol over one client's pool: any number of
 requests, each in its own phase, whose steps interleave in any order with each
 other and with the completions the library delivers.

 One step makes at most one call into the allocator, the channel or malloc/free of
 a shared object, together with the private work around it.
 */
module Protocol {
  import opened Machine
  import opened Pool
  import opened PackMachine
  import opened PackInvariant

  /** The identity of one API call. */
  type Tid = nat

  /** A record field: memory from malloc holds no value until it is assigned. */
  datatype Field<+T> = Unset | Set(value: T)

  /** AsyncCbInfo */
  datatype Record = Record(
    cb: Field<Ptr>,
    arg: Field<Ptr>,
    client: Field<Ptr>,
    rsp: Field<Ptr>,
    reqAddr: Field<Ptr>,
    reqCnt: Field<nat>)

  /** The asynchronous entry points that pack no blocks. */
  datatype Plain =
    | TwoSided(done: Done, rsp: Ptr)    // OckRpcCallASync, OckRpcClientCallRndv, OckRpcClientCallRndvIov
    | OneSided(done: Done)              // OckRpcRead, OckRpcReadSgl, OckRpcWrite, OckRpcWriteSgl
    | Reply(orNull: Option<Done>)       // OckRpcServerReply, OckRpcServerReplyRndv; done may be null

  /** The Service_Context of a completion. */
  datatype Completion = Completion(
    getters: bool,    // Service_GetResult and Service_GetContextType succeed
    oneSided: bool,   // the type is SERVICE_ONE_SIDE
    result: int,
    reply: Bytes)

  /** One invocation of the user's OckRpcDoneCallback. */
  datatype DoneCall = DoneCall(t: Tid, cb: Ptr, arg: Ptr, status: int, response: Option<Bytes>)

  datatype End =
    | NotSent         // the entry point returned an error; the channel has nothing
    | Ran             // the user's callback was invoked
    | GettersFailed   // the completion's getters failed and the user's callback was not invoked
    | NullCallback    // there was no callback to invoke
    | Faulted         // undefined behaviour

  datatype Task =
    | Packing(call: Call)                              // OckRpcClientCallWithParam; also its synchronous end
    | SglRecord(call: Call, rec: Ptr)                  // OckRpcCallAsyncSgl, before the address array
    | SglReady(call: Call, rec: Ptr, arr: Ptr)         // before the post
    | SglFlying(call: Call, rec: Ptr, arr: Ptr)        // accepted, not delivered
    | PlainStart(plain: Plain)
    | PlainReady(plain: Plain, rec: Ptr)
    | PlainFlying(plain: Plain, rec: Ptr)
    | Draining(copy: Record, next: nat, k: Completion) // OckRpcCallbackFunc after it freed the record
    | Ended(end: End)

  datatype Sys = Sys(
    client: Ptr,
    heap: Heap,
    records: map<Ptr, Record>,
    arrays: map<Ptr, seq<Addr>>,
    tasks: map<Tid, Task>,
    // what the caller asked for and what the library answered, kept for reference
    asked: map<Tid, Option<Done>>,
    delivered: map<Tid, Completion>,
    log: seq<DoneCall>,
    faults: nat)   // uses of an unset field, frees of an object not live, calls through null

  datatype Event =
    | StartCall(t: Tid, req: Request)
    | StartPlain(t: Tid, plain: Plain)
    | Work(t: Tid, wish: Addr)
    | SyncDone(t: Tid, ok: bool)
    | AllocRecord(t: Tid, p: Ptr)
    | AllocArray(t: Tid, p: Ptr)
    | Post(t: Tid, accepted: bool)
    | Deliver(t: Tid, k: Completion)
    | Drain(t: Tid)

  /** malloc answers an unused nonzero address; any other `p` stands for a failure. */
  predicate MallocOk(s: Sys, p: Ptr) {
    p != 0 && p !in s.records && p !in s.arrays
  }

  function Move(s: Sys, t: Tid, task: Task): Sys {
    s.(tasks := s.tasks[t := task])
  }

  /** Undefined behaviour is counted; the request goes no further. */
  function Fault(s: Sys, t: Tid): Sys {
    Move(s, t, Ended(Faulted)).(faults := s.faults + 1)
  }

  function FreeRecord(s: Sys, p: Ptr): Sys {
    if p in s.records then s.(records := s.records - {p}) else s.(faults := s.faults + 1)
  }

  function FreeArray(s: Sys, p: Ptr): Sys {
    if p in s.arrays then s.(arrays := s.arrays - {p}) else s.(faults := s.faults + 1)
  }

  // What each poster writes into its record

  function PlainDone(plain: Plain): Option<Done> {
    match plain
    case TwoSided(done, _) => Some(done)
    case OneSided(done) => Some(done)
    case Reply(done) => done
  }

  function PlainRecord(plain: Plain): Record {
    match plain
    case TwoSided(done, rsp) => Record(Set(done.cb), Set(done.arg), Unset, Set(rsp), Set(0), Set(0))
    case OneSided(done) => Record(Set(done.cb), Set(done.arg), Unset, Unset, Unset, Unset)
    case Reply(Some(done)) => Record(Set(done.cb), Set(done.arg), Unset, Unset, Unset, Unset)
    case Reply(None) => Record(Set(0), Set(0), Unset, Unset, Unset, Unset)
  }

  /** OckRpcCallAsyncSgl fills the record in two goes, around the malloc of the address array. */
  function SglRecordEarly(client: Ptr, done: Done, sgl: Sgl): Record {
    Record(Set(done.cb), Set(done.arg), Set(client), Unset, Set(0), Set(sgl.iovCount))
  }

  function SglRecordLate(r: Record, arr: Ptr, rsp: Ptr): Record {
    r.(reqAddr := Set(arr), rsp := Set(rsp))
  }

  function AddrSeq(sgl: Sgl): seq<Addr> {
    seq(if sgl.iovCount <= MAX_IOV_COUNT then sgl.iovCount else MAX_IOV_COUNT,
        i requires 0 <= i < MAX_IOV_COUNT => sgl.iov[i].lAddress)
  }

  // The entry points

  function StepWork(s: Sys, t: Tid, call: Call, wish: Addr): Sys {
    if !WellFormed(call) then s
    else
      var (call', heap') := CallStep(call, s.heap, wish);
      Move(s, t, Packing(call')).(heap := heap')
  }

  function StepSyncDone(s: Sys, t: Tid, call: Call, ok: bool): Sys {
    if call.pc.Packed? && call.req.done.None?
    then Move(s, t, Packing(call.(pc := FreeSent(0, ok)))) else s
  }

  function StepAllocRecord(s: Sys, t: Tid, call: Call, p: Ptr): Sys {
    if !call.pc.Packed? || call.req.done.None? then s
    else if !MallocOk(s, p) then Move(s, t, Ended(NotSent))
    else
      Move(s, t, SglRecord(call, p)).(
        records := s.records[p := SglRecordEarly(s.client, call.req.done.value, call.sgl)])
  }

  function StepAllocArray(s: Sys, t: Tid, call: Call, rec: Ptr, p: Ptr): Sys {
    if rec !in s.records then Fault(s, t)
    else if !MallocOk(s, p) then FreeRecord(Move(s, t, Ended(NotSent)), rec)
    else
      Move(s, t, SglReady(call, rec, p)).(
        arrays := s.arrays[p := AddrSeq(call.sgl)],
        records := s.records[rec := SglRecordLate(s.records[rec], p, call.req.rsp)])
  }

  function StepPostSgl(s: Sys, t: Tid, call: Call, rec: Ptr, arr: Ptr, accepted: bool): Sys {
    if accepted then Move(s, t, SglFlying(call, rec, arr))
    else if rec !in s.records || s.records[rec].reqAddr.Unset? then Fault(s, t)
    else FreeRecord(FreeArray(Move(s, t, Ended(NotSent)), s.records[rec].reqAddr.value), rec)
  }

  function StepAllocPlain(s: Sys, t: Tid, plain: Plain, p: Ptr): Sys {
    if !MallocOk(s, p) then Move(s, t, Ended(NotSent))
    else Move(s, t, PlainReady(plain, p)).(records := s.records[p := PlainRecord(plain)])
  }

  function StepPostPlain(s: Sys, t: Tid, plain: Plain, rec: Ptr, accepted: bool): Sys {
    if accepted then Move(s, t, PlainFlying(plain, rec))
    else FreeRecord(Move(s, t, Ended(NotSent)), rec)
  }

  // The callbacks

  function Arrive(s: Sys, t: Tid, k: Completion): Sys {
    s.(delivered := s.delivered[t := k])
  }

  /** Invoking the user's callback with what the record says. */
  function Invoke(s: Sys, t: Tid, r: Record, status: int, response: Option<Bytes>): Sys {
    if r.cb.Unset? || r.arg.Unset? || r.cb.value == 0 then Fault(s, t)
    else Move(s, t, Ended(Ran)).(log := s.log + [DoneCall(t, r.cb.value, r.arg.value, status, response)])
  }

  /** ResponseCallBack: a failing getter leaves the status at OCK_RPC_OK. */
  function StepResponse(s: Sys, t: Tid, rec: Ptr, k: Completion): Sys {
    if rec !in s.records || s.records[rec].cb.Unset? then Fault(s, t)
    else
      var r := s.records[rec];
      if r.cb.value == 0 then FreeRecord(Move(s, t, Ended(NullCallback)), rec)
      else FreeRecord(Invoke(s, t, r, if k.getters then k.result else 0, None), rec)
  }

  /**
   OckRpcCallbackFunc up to the free of the record. Copying a field is not yet a use
   of it: the code copies `client` for every poster and looks at it only to free
   request blocks.
   */
  function StepCallback(s: Sys, t: Tid, rec: Ptr, k: Completion): Sys {
    if rec !in s.records then Fault(s, t)
    else
      var r := s.records[rec];
      if !k.getters then FreeRecord(Move(s, t, Ended(GettersFailed)), rec)
      else if k.oneSided then FreeRecord(Invoke(s, t, r, k.result, None), rec)
      else FreeRecord(Move(s, t, Draining(r, 0, k)), rec)
  }

  /** After the blocks: the response, then the user's callback unless it is null. */
  function Finish(s: Sys, t: Tid, r: Record, k: Completion): Sys {
    if r.rsp.Unset? || r.cb.Unset? then Fault(s, t)
    else if r.cb.value == 0 then Move(s, t, Ended(NullCallback))
    else Invoke(s, t, r, k.result, if r.rsp.value == 0 then None else Some(k.reply))
  }

  /** One round of the loop over reqAddr, or what follows it. */
  function StepDrain(s: Sys, t: Tid, r: Record, next: nat, k: Completion): Sys {
    if r.reqAddr.Unset? then Fault(s, t)
    else if r.reqAddr.value == 0 then Finish(s, t, r, k)
    else
      var arr := r.reqAddr.value;
      if r.reqCnt.Unset? || r.client.Unset? || arr !in s.arrays then Fault(s, t)
      else if next >= r.reqCnt.value then Finish(FreeArray(s, arr), t, r, k)
      else if next >= |s.arrays[arr]| then Fault(s, t)
      else Move(s, t, Draining(r, next + 1, k)).(heap := s.heap.Free(s.arrays[arr][next]))
  }

  /**
   One event. A call that fails the parameter checks, and an event that does not match
   its task's phase, do nothing.
   */
  function Step(s: Sys, e: Event): Sys {
    match e
    case StartCall(t, req) =>
      if t in s.tasks || !Prechecked(req) then s
      else Move(s, t, Packing(Start(req))).(asked := s.asked[t := req.done])
    case StartPlain(t, plain) =>
      if t in s.tasks then s else Move(s, t, PlainStart(plain)).(asked := s.asked[t := PlainDone(plain)])
    case _ =>
      if e.t !in s.tasks then s else StepTask(s, e, s.tasks[e.t])
  }

  function StepTask(s: Sys, e: Event, task: Task): Sys {
    match (e, task)
    case (Work(t, wish), Packing(call)) => StepWork(s, t, call, wish)
    case (SyncDone(t, ok), Packing(call)) => StepSyncDone(s, t, call, ok)
    case (AllocRecord(t, p), Packing(call)) => StepAllocRecord(s, t, call, p)
    case (AllocRecord(t, p), PlainStart(plain)) => StepAllocPlain(s, t, plain, p)
    case (AllocArray(t, p), SglRecord(call, rec)) => StepAllocArray(s, t, call, rec, p)
    case (Post(t, accepted), SglReady(call, rec, arr)) => StepPostSgl(s, t, call, rec, arr, accepted)
    case (Post(t, accepted), PlainReady(plain, rec)) => StepPostPlain(s, t, plain, rec, accepted)
    case (Deliver(t, k), SglFlying(_, rec, _)) => StepCallback(Arrive(s, t, k), t, rec, k)
    case (Deliver(t, k), PlainFlying(plain, rec)) =>
      if plain.Reply? then StepResponse(Arrive(s, t, k), t, rec, k) else StepCallback(Arrive(s, t, k), t, rec, k)
    case (Drain(t), Draining(r, next, k)) => StepDrain(s, t, r, next, k)
    case _ => s
  }

  function Exec(s: Sys, events: seq<Event>): Sys {
    if events == [] then s else Step(Exec(s, events[..|events| - 1]), events[|events| - 1])
  }

  /**
   What the callers and the library owe: the calls that pass the parameter checks are
   safe ones, a one-sided request names a callback, and a completion is of type
   SERVICE_ONE_SIDE exactly for a one-sided request.
   */
  predicate Honest(s: Sys, e: Event) {
    match e
    case StartCall(_, req) => Prechecked(req) ==> SafeReq(req)
    case StartPlain(_, plain) => plain.OneSided? ==> plain.done.cb != 0
    case Deliver(t, k) =>
      t in s.tasks ==>
        (s.tasks[t].SglFlying? ==> !k.oneSided)
        && (s.tasks[t].PlainFlying? ==> (k.oneSided <==> s.tasks[t].plain.OneSided?))
    case _ => true
  }

  predicate AllHonest(s: Sys, events: seq<Event>) {
    events == [] ||
    (AllHonest(s, events[..|events| - 1]) && Honest(Exec(s, events[..|events| - 1]), events[|events| - 1]))
  }

  // Who holds what

  function Rest(addrs: seq<Addr>, next: nat): set<Addr> {
    set i: nat | next <= i < |addrs| :: addrs[i]
  }

  /** The blocks a request has still to release. */
  function Blocks(s: Sys, task: Task): set<Addr> {
    match task
    case Packing(call) => Held(call)
    case SglRecord(call, _) => Addrs(call.sgl, 0)
    case SglReady(call, _, _) => Addrs(call.sgl, 0)
    case SglFlying(call, _, _) => Addrs(call.sgl, 0)
    case Draining(r, next, _) =>
      if r.reqAddr.Set? && r.reqAddr.value != 0 && r.reqAddr.value in s.arrays && next <= |s.arrays[r.reqAddr.value]|
      then Rest(s.arrays[r.reqAddr.value], next) else {}
    case _ => {}
  }

  /** The record a request has still to free. */
  function Recs(task: Task): set<Ptr> {
    match task
    case SglRecord(_, rec) => {rec}
    case SglReady(_, rec, _) => {rec}
    case SglFlying(_, rec, _) => {rec}
    case PlainReady(_, rec) => {rec}
    case PlainFlying(_, rec) => {rec}
    case _ => {}
  }

  /** The address array a request has still to free. */
  function Arrs(task: Task): set<Ptr> {
    match task
    case SglReady(_, _, arr) => {arr}
    case SglFlying(_, _, arr) => {arr}
    case Draining(r, _, _) => if r.reqAddr.Set? && r.reqAddr.value != 0 then {r.reqAddr.value} else {}
    case _ => {}
  }

  function AllBlocks(s: Sys): set<Addr> {
    set t, a | t in s.tasks && a in Blocks(s, s.tasks[t]) :: a
  }

  /** The live blocks no request will release. */
  function Unowned(s: Sys): set<Addr> {
    s.heap.live.Keys - AllBlocks(s)
  }

  /**
   The blocks an event gives up for good. Only four kinds of event do: SetReqInfo
   failing for more than three messages, a record or array that cannot be
   allocated, a post the channel rejects, and a completion whose getters fail.
   */
  function Abandoned(s: Sys, e: Event): set<Addr> {
    if e.StartCall? || e.StartPlain? || e.t !in s.tasks then {}
    else
      match (e, s.tasks[e.t])
      case (Work(_, _), Packing(call)) => Forgotten(call)
      case (AllocRecord(_, p), Packing(call)) =>
        if call.pc.Packed? && call.req.done.Some? && !MallocOk(s, p) then Addrs(call.sgl, 0) else {}
      case (AllocArray(_, p), SglRecord(call, _)) => if MallocOk(s, p) then {} else Addrs(call.sgl, 0)
      case (Post(_, accepted), SglReady(call, _, _)) => if accepted then {} else Addrs(call.sgl, 0)
      case (Deliver(_, k), SglFlying(call, _, _)) => if k.getters then {} else Addrs(call.sgl, 0)
      case _ => {}
  }
}
