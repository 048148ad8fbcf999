/**
 A client disconnected while its requests are under way: the registries of MemRegistry and
 the requests of Protocol together. Disconnecting frees the pool memory under whatever
 blocks are still in use; from then on every allocator call of the client finds the null
 entry of g_memoryAllocator, so that allocations are refused and frees do nothing.
 */
module Teardown {
  import opened Machine
  import opened Pool
  import opened PackMachine
  import opened Protocol
  import opened ProtocolInvariant
  import opened ProtocolRuns
  import M = MemRegistry

  /**
   `pending` are the requests to which the allocator has answered a block they have not
   written yet: the write follows the answer without any lock. `uses` counts the reads and
   writes of the pool's memory after its release.
   */
  datatype Joint = Joint(client: M.Client, sys: Sys, reg: M.Registry, pending: set<Tid>, uses: nat)

  datatype JointEvent =
    | Do(e: Event)               // a step of one of the client's requests
    | Write(t: Tid)              // a request writes the block it was answered last
    | Transmit(t: Tid)           // the channel reads the blocks of an accepted request
    | Elsewhere(other: M.Event)  // what other clients do to the registries

  /** The client's allocator entry is there and not null. */
  predicate Connected(j: Joint) {
    j.client in j.reg.allocators && j.reg.allocators[j.client] != 0
  }

  /** The step looks the client's allocator up, to allocate or to free. */
  predicate CallsAllocator(s: Sys, e: Event) {
    (e.Work? || e.Drain?) && e.t in s.tasks &&
    match (e, s.tasks[e.t])
    case (Work(_, _), Packing(call)) =>
      (match call.pc
       case Header => true
       case Block(_) => true
       case Undo(_, left) => left > 0
       case FreeHeader => true
       case FreeAll(k) => k < MAX_IOV_COUNT
       case FreeSent(k, _) => k < call.sgl.iovCount
       case _ => false)
    case (Drain(_), Draining(r, next, _)) =>
      r.reqAddr.Set? && r.reqAddr.value != 0 && r.reqCnt.Set? && next < r.reqCnt.value
    case _ => false
  }

  /** memcpy_s with this source and capacity writes at least one byte, be it to clear. */
  predicate Touches(m: Message, capacity: nat) {
    InRange(capacity) && (m.NullData? || 0 < m.Len())
  }

  /** The step is answered a block that will be written. */
  predicate GetsBlock(s: Sys, e: Event) {
    e.Work? && e.t in s.tasks && s.tasks[e.t].Packing? && WellFormed(s.tasks[e.t].call) &&
    var call := s.tasks[e.t].call;
    match call.pc
    case Header => s.heap.CanPlace(HEADER_SIZE, e.wish)
    case Block(i) => s.heap.CanPlace(BlockSize(call.req, i), e.wish) && Touches(call.req.msgs[i], call.req.seg)
    case _ => false
  }

  function RoomLeft(call: Call): u32 {
    ToU32(call.req.seg - call.sgl.iov[3].size)
  }

  /** The step touches memory of blocks it got before: an appending copy, or a post that makes the channel read them. */
  predicate UsesBlocks(s: Sys, e: Event) {
    (e.Work? || e.SyncDone? || e.Post?) && e.t in s.tasks &&
    match (e, s.tasks[e.t])
    case (Work(_, _), Packing(call)) =>
      call.pc.Append? && call.pc.i < |call.req.msgs| && Touches(call.req.msgs[call.pc.i], RoomLeft(call))
    case (SyncDone(_, _), Packing(call)) => call.pc.Packed? && call.req.done.None?
    case (Post(_, accepted), SglReady(_, _, _)) => accepted
    case _ => false
  }

  /** The same step when the allocator is gone. */
  function Refused(e: Event): Event {
    if e.Work? then Work(e.t, 0) else e
  }

  /** A request that has a write to do does nothing else before it. */
  function StepDo(j: Joint, e: Event): Joint {
    var reg := if CallsAllocator(j.sys, e) then M.Touch(j.reg, j.client) else j.reg;
    if e.t in j.pending then j
    else if Connected(j) then
      j.(sys := Step(j.sys, e), reg := reg, pending := j.pending + if GetsBlock(j.sys, e) then {e.t} else {})
    else
      j.(sys := Step(j.sys, Refused(e)).(heap := j.sys.heap), reg := reg,
         uses := j.uses + if UsesBlocks(j.sys, e) then 1 else 0)
  }

  function StepJoint(j: Joint, e: JointEvent): Joint {
    match e
    case Do(d) => StepDo(j, d)
    case Write(t) =>
      if t !in j.pending then j
      else j.(pending := j.pending - {t}, uses := j.uses + if Connected(j) then 0 else 1)
    case Transmit(t) =>
      if !Connected(j) && t in j.sys.tasks && j.sys.tasks[t].SglFlying? then j.(uses := j.uses + 1) else j
    case Elsewhere(d) => if d.client == j.client then j else j.(reg := M.Apply(j.reg, d))
  }

  function ExecJoint(j: Joint, events: seq<JointEvent>): Joint
    decreases |events|
  {
    if events == [] then j else ExecJoint(StepJoint(j, events[0]), events[1..])
  }

  predicate HonestJoint(j: Joint, events: seq<JointEvent>)
    decreases |events|
  {
    events == [] || (HonestEvent(j, events[0]) && HonestJoint(StepJoint(j, events[0]), events[1..]))
  }

  predicate HonestEvent(j: Joint, e: JointEvent) {
    match e
    case Do(d) => Honest(j.sys, d)
    case Elsewhere(d) => M.Fresh(j.reg, d)
    case _ => true
  }

  /** OckRpcClientDisconnect, whatever is under way. */
  function Close(j: Joint, destroyed: bool): Joint {
    j.(reg := M.Disconnect(j.reg, j.client, destroyed))
  }

  /**
   The request's blocks will still be read or written: it is past its last block and not
   yet delivered, and not about to have its next append refused for want of room.
   */
  predicate NeedsPool(task: Task) {
    match task
    case Packing(call) =>
      call.pc.Packed? || (call.pc.Append? && (call.pc.i >= |call.req.msgs| || InRange(RoomLeft(call))))
    case SglRecord(_, _) => true
    case SglReady(_, _, _) => true
    case SglFlying(_, _, _) => true
    case _ => false
  }

  predicate NoneNeedsPool(s: Sys) {
    forall t :: t in s.tasks ==> !NeedsPool(s.tasks[t])
  }

  /** Nobody has a block to write or to have read. */
  predicate Settled(j: Joint) {
    NoneNeedsPool(j.sys) && j.pending == {}
  }

  // Up to the disconnect

  /** The client is connected, with what `setup` created, and its requests are in order. */
  ghost predicate InOrder(j: Joint, setup: M.Setup)
    requires M.Completes(setup)
  {
    j.sys.client == j.client && Inv(j.sys) && M.Inv(j.reg) && M.Holds(j.reg, j.client, setup)
  }

  lemma HeldIsConnected(j: Joint, setup: M.Setup)
    requires M.Completes(setup) && M.Inv(j.reg) && M.Holds(j.reg, j.client, setup)
    ensures Connected(j) && M.Touch(j.reg, j.client) == j.reg
  {
  }

  lemma DoKeepsOrder(j: Joint, setup: M.Setup, e: Event)
    requires M.Completes(setup) && InOrder(j, setup) && Honest(j.sys, e)
    ensures InOrder(StepDo(j, e), setup)
  {
    HeldIsConnected(j, setup);
    StepKeeps(j.sys, e);
    KeepsClient(j.sys, e);
  }

  lemma KeepsClient(s: Sys, e: Event)
    requires Inv(s) && Honest(s, e)
    ensures Step(s, e).client == s.client
  {
    if !e.StartCall? && !e.StartPlain? && e.t in s.tasks {
      TaskStepEffect(s, e);
    }
  }

  lemma ElsewhereKeepsOrder(j: Joint, setup: M.Setup, e: M.Event)
    requires M.Completes(setup) && M.Inv(j.reg) && M.Holds(j.reg, j.client, setup)
    requires M.Fresh(j.reg, e) && e.client != j.client
    ensures M.Inv(M.Apply(j.reg, e)) && M.Holds(M.Apply(j.reg, e), j.client, setup)
  {
    M.ApplyInv(j.reg, e);
    M.HoldsStep(j.reg, j.client, setup, e);
  }

  lemma {:induction false} RunKeepsOrder(j: Joint, setup: M.Setup, events: seq<JointEvent>)
    requires M.Completes(setup) && InOrder(j, setup) && HonestJoint(j, events)
    ensures InOrder(ExecJoint(j, events), setup)
    decreases |events|
  {
    if events != [] {
      match events[0] {
        case Do(d) => DoKeepsOrder(j, setup, d);
        case Elsewhere(d) =>
          if d.client != j.client {
            ElsewhereKeepsOrder(j, setup, d);
          }
        case _ =>
      }
      RunKeepsOrder(StepJoint(j, events[0]), setup, events[1..]);
    }
  }

  // What a step does on each side of the disconnect

  /**
   While the client is connected, a request has a block to write exactly from the step that
   makes its block live, unless it is a message's and memcpy_s will write nothing to it.
   */
  lemma BlockGetsPending(j: Joint, t: Tid, call: Call, wish: Addr)
    requires Connected(j) && j.sys.heap.Valid() && t !in j.pending
    requires t in j.sys.tasks && j.sys.tasks[t] == Packing(call) && WellFormed(call)
    ensures var j' := StepJoint(j, Do(Work(t, wish)));
      && (t in j'.pending <==>
            && j'.sys.heap.live.Keys - j.sys.heap.live.Keys == {wish}
            && (call.pc.Block? ==>
                  var m := call.req.msgs[call.pc.i];
                  0 < call.req.seg <= 0x7FFF_FFFF && (m.NullData? || 0 < |m.bytes|)))
      && j'.pending - {t} == j.pending && j'.uses == j.uses
  {
    assert Step(j.sys, Work(t, wish)) == StepWork(j.sys, t, call, wish);
    LiveByStep(call, j.sys.heap, wish);
  }

  lemma LiveByStep(c: Call, h: Heap, wish: Addr)
    requires WellFormed(c) && h.Valid()
    ensures CallStep(c, h, wish).1.live.Keys - h.live.Keys == {wish} <==>
      || (c.pc.Header? && h.CanPlace(HEADER_SIZE, wish))
      || (c.pc.Block? && h.CanPlace(BlockSize(c.req, c.pc.i), wish))
  {
    var live, live' := h.live.Keys, CallStep(c, h, wish).1.live.Keys;
    if c.pc.Header? && h.CanPlace(HEADER_SIZE, wish) {
      assert live' == live + {wish};
    } else if c.pc.Block? && h.CanPlace(BlockSize(c.req, c.pc.i), wish) {
      assert live' == live + {wish};
    } else {
      assert live' <= live;
      assert wish !in live' - live;
    }
  }

  /**
   A call begun, or a round of a callback made, after the disconnect leaves a null entry
   for the client, and with it the next connection of the same client completes without
   its allocator or region entered.
   */
  lemma LateUseShadows(j: Joint, e: Event, setup: M.Setup)
    requires j.client !in j.reg.allocators && M.Inv(j.reg) && e.t !in j.pending && e.t in j.sys.tasks
    requires M.Completes(setup) && M.Fresh(j.reg, M.Connected(j.client, setup))
    requires match (e, j.sys.tasks[e.t])
             case (Work(_, _), Packing(call)) => call.pc.Header? || call.pc.Block?
             case (Drain(_), Draining(r, next, _)) =>
               r.reqAddr.Set? && r.reqAddr.value != 0 && r.reqCnt.Set? && next < r.reqCnt.value
             case _ => false
    ensures var j' := StepJoint(j, Do(e));
      && j'.reg.allocators == j.reg.allocators[j.client := 0] && j'.sys.heap == j.sys.heap
      && M.Connect(j'.reg, j.client, setup).1
      && M.Connect(j'.reg, j.client, setup).0.allocators[j.client] == 0
      && !M.Holds(M.Connect(j'.reg, j.client, setup).0, j.client, setup)
  {
  }

  // Nobody needs the pool: nobody will

  lemma RefusedNeedsNothing(c: Call, h: Heap)
    requires WellFormed(c) && !NeedsPool(Packing(c))
    ensures !NeedsPool(Packing(CallStep(c, h, 0).0))
  {
  }

  lemma WorkNeedsNothing(s: Sys, t: Tid)
    requires NoneNeedsPool(s)
    ensures NoneNeedsPool(Step(s, Work(t, 0)))
  {
    if t in s.tasks && s.tasks[t].Packing? && WellFormed(s.tasks[t].call) {
      RefusedNeedsNothing(s.tasks[t].call, s.heap);
      assert Step(s, Work(t, 0)) == StepWork(s, t, s.tasks[t].call, 0);
    } else {
      assert Step(s, Work(t, 0)) == s;
    }
  }

  lemma CallbackNeedsNothing(s: Sys, t: Tid, rec: Ptr, k: Completion)
    ensures var s' := StepCallback(Arrive(s, t, k), t, rec, k);
      t in s'.tasks && s'.tasks == s.tasks[t := s'.tasks[t]] && !NeedsPool(s'.tasks[t])
  {
    if rec in s.records {
      InvokeNeedsNothing(Arrive(s, t, k), t, s.records[rec], k.result, None);
    }
  }

  lemma ResponseNeedsNothing(s: Sys, t: Tid, rec: Ptr, k: Completion)
    ensures var s' := StepResponse(Arrive(s, t, k), t, rec, k);
      t in s'.tasks && s'.tasks == s.tasks[t := s'.tasks[t]] && !NeedsPool(s'.tasks[t])
  {
    if rec in s.records {
      InvokeNeedsNothing(Arrive(s, t, k), t, s.records[rec], if k.getters then k.result else 0, None);
    }
  }

  lemma InvokeNeedsNothing(s: Sys, t: Tid, r: Record, status: int, response: Option<Bytes>)
    ensures var s' := Invoke(s, t, r, status, response);
      t in s'.tasks && s'.tasks == s.tasks[t := s'.tasks[t]] && !NeedsPool(s'.tasks[t])
  {
  }

  lemma FinishNeedsNothing(s: Sys, t: Tid, r: Record, k: Completion)
    ensures var s' := Finish(s, t, r, k);
      t in s'.tasks && s'.tasks == s.tasks[t := s'.tasks[t]] && !NeedsPool(s'.tasks[t])
  {
    if r.rsp.Set? {
      InvokeNeedsNothing(s, t, r, k.result, if r.rsp.value == 0 then None else Some(k.reply));
    }
  }

  lemma DrainNeedsNothing(s: Sys, t: Tid, r: Record, next: nat, k: Completion)
    ensures var s' := StepDrain(s, t, r, next, k);
      t in s'.tasks && s'.tasks == s.tasks[t := s'.tasks[t]] && !NeedsPool(s'.tasks[t])
  {
    if r.reqAddr.Set? && r.reqAddr.value == 0 {
      FinishNeedsNothing(s, t, r, k);
    } else if r.reqAddr.Set? {
      BlockDrainNeedsNothing(s, t, r, next, k);
    }
  }

  lemma BlockDrainNeedsNothing(s: Sys, t: Tid, r: Record, next: nat, k: Completion)
    requires r.reqAddr.Set? && r.reqAddr.value != 0
    ensures var s' := StepDrain(s, t, r, next, k);
      t in s'.tasks && s'.tasks == s.tasks[t := s'.tasks[t]] && !NeedsPool(s'.tasks[t])
  {
    if r.reqAddr.value in s.arrays && r.reqCnt.Set? && next >= r.reqCnt.value {
      FinishNeedsNothing(s.(arrays := s.arrays - {r.reqAddr.value}), t, r, k);
    }
  }

  lemma PlainNeedsNothing(s: Sys, e: Event)
    requires e.t in s.tasks && NoneNeedsPool(s) && (e.AllocRecord? || e.AllocArray? || e.Post? || e.SyncDone?)
    ensures NoneNeedsPool(Step(s, e))
  {
    match (e, s.tasks[e.t])
    case (AllocRecord(t, p), PlainStart(plain)) => assert Step(s, e) == StepAllocPlain(s, t, plain, p);
    case (Post(t, accepted), PlainReady(plain, rec)) => assert Step(s, e) == StepPostPlain(s, t, plain, rec, accepted);
    case _ =>
  }

  lemma StepNeedsNothing(s: Sys, e: Event)
    requires NoneNeedsPool(s)
    ensures NoneNeedsPool(Step(s, Refused(e)))
  {
    if e.Work? {
      WorkNeedsNothing(s, e.t);
    } else if e.t in s.tasks && e.Drain? && s.tasks[e.t].Draining? {
      var Draining(r, next, k) := s.tasks[e.t];
      DrainNeedsNothing(s, e.t, r, next, k);
    } else if e.t in s.tasks && e.Deliver? && s.tasks[e.t].PlainFlying? {
      CallbackNeedsNothing(s, e.t, s.tasks[e.t].rec, e.k);
      ResponseNeedsNothing(s, e.t, s.tasks[e.t].rec, e.k);
    } else if e.t in s.tasks && (e.AllocRecord? || e.AllocArray? || e.Post? || e.SyncDone?) {
      PlainNeedsNothing(s, e);
    }
  }

  /** After the disconnect: no allocator, and none of the requests needs the pool. */
  predicate Over(j: Joint, uses: nat) {
    !Connected(j) && Settled(j) && j.uses == uses
  }

  lemma ElsewhereKeepsOut(j: Joint, e: M.Event)
    requires !Connected(j) && e.client != j.client
    ensures !Connected(j.(reg := M.Apply(j.reg, e)))
  {
  }

  lemma StepStaysOver(j: Joint, e: JointEvent, uses: nat)
    requires Over(j, uses)
    ensures Over(StepJoint(j, e), uses)
  {
    match e
    case Do(d) => DoStaysOver(j, d, uses);
    case Write(_) =>
    case Transmit(_) =>
    case Elsewhere(d) =>
      if d.client != j.client {
        ElsewhereKeepsOut(j, d);
      }
  }

  lemma DoStaysOver(j: Joint, e: Event, uses: nat)
    requires Over(j, uses)
    ensures Over(StepDo(j, e), uses)
  {
    StepNeedsNothing(j.sys, e);
    assert !UsesBlocks(j.sys, e);
  }

  lemma {:induction false} RunStaysOver(j: Joint, events: seq<JointEvent>, uses: nat)
    requires Over(j, uses)
    ensures Over(ExecJoint(j, events), uses)
    decreases |events|
  {
    if events != [] {
      StepStaysOver(j, events[0], uses);
      RunStaysOver(StepJoint(j, events[0]), events[1..], uses);
    }
  }

  // Somebody needs the pool: somebody may use it

  lemma {:induction false} Above(addrs: set<Ptr>) returns (p: Ptr)
    ensures p > 0 && forall a :: a in addrs ==> a < p
    decreases |addrs|
  {
    if addrs == {} {
      p := 1;
    } else {
      var a :| a in addrs;
      var q := Above(addrs - {a});
      p := if a < q then q else a + 1;
      forall b | b in addrs
        ensures b < p
      {
        assert b == a || b in addrs - {a};
      }
    }
  }

  lemma FreshPtr(s: Sys) returns (p: Ptr)
    ensures MallocOk(s, p)
  {
    p := Above(s.records.Keys + s.arrays.Keys);
    assert p in s.records ==> p in s.records.Keys + s.arrays.Keys;
    assert p in s.arrays ==> p in s.records.Keys + s.arrays.Keys;
  }

  lemma ExecTwo(j: Joint, e: JointEvent, rest: seq<JointEvent>)
    ensures ExecJoint(j, [e] + rest) == ExecJoint(StepJoint(j, e), rest)
  {
    assert ([e] + rest)[1..] == rest;
  }

  lemma ExecOne(j: Joint, e: JointEvent)
    ensures ExecJoint(j, [e]) == StepJoint(j, e)
  {
    assert [e][1..] == [];
  }

  /** Task `t` can go on after the disconnect: it has no write to do first. */
  predicate Free(j: Joint, t: Tid) {
    !Connected(j) && t !in j.pending && t in j.sys.tasks
  }

  lemma UseReady(j: Joint, t: Tid) returns (events: seq<JointEvent>)
    requires Free(j, t) && j.sys.tasks[t].SglReady?
    ensures ExecJoint(j, events).uses > j.uses
  {
    events := [Do(Post(t, true))];
    ExecOne(j, events[0]);
  }

  lemma UseRecord(j: Joint, t: Tid) returns (events: seq<JointEvent>)
    requires Free(j, t) && j.sys.tasks[t].SglRecord? && j.sys.tasks[t].rec in j.sys.records
    ensures ExecJoint(j, events).uses > j.uses
  {
    var p := FreshPtr(j.sys);
    var e := Do(AllocArray(t, p));
    var SglRecord(call, rec) := j.sys.tasks[t];
    assert Step(j.sys, AllocArray(t, p)) == StepAllocArray(j.sys, t, call, rec, p);
    var rest := UseReady(StepJoint(j, e), t);
    ExecTwo(j, e, rest);
    events := [e] + rest;
  }

  lemma UsePacked(j: Joint, t: Tid) returns (events: seq<JointEvent>)
    requires Free(j, t) && j.sys.tasks[t].Packing? && j.sys.tasks[t].call.pc.Packed?
    ensures ExecJoint(j, events).uses > j.uses
  {
    var call := j.sys.tasks[t].call;
    if call.req.done.None? {
      events := [Do(SyncDone(t, true))];
      ExecOne(j, events[0]);
    } else {
      var p := FreshPtr(j.sys);
      var e := Do(AllocRecord(t, p));
      assert Step(j.sys, AllocRecord(t, p)) == StepAllocRecord(j.sys, t, call, p);
      var rest := UseRecord(StepJoint(j, e), t);
      ExecTwo(j, e, rest);
      events := [e] + rest;
    }
  }

  /** Empty messages are passed over; the first one that is not, or the post, touches the blocks. */
  lemma {:induction false} UseAppend(j: Joint, t: Tid) returns (events: seq<JointEvent>)
    requires Free(j, t) && j.sys.tasks[t].Packing? && NeedsPool(j.sys.tasks[t])
    requires j.sys.tasks[t].call.pc.Append? && WellFormed(j.sys.tasks[t].call)
    ensures ExecJoint(j, events).uses > j.uses
    decreases |j.sys.tasks[t].call.req.msgs| - j.sys.tasks[t].call.pc.i
  {
    var call := j.sys.tasks[t].call;
    var e := Do(Work(t, 0));
    assert Step(j.sys, Work(t, 0)) == StepWork(j.sys, t, call, 0);
    if call.pc.i == |call.req.msgs| {
      var rest := UsePacked(StepJoint(j, e), t);
      ExecTwo(j, e, rest);
      events := [e] + rest;
    } else if Touches(call.req.msgs[call.pc.i], RoomLeft(call)) {
      events := [e];
      ExecOne(j, e);
    } else {
      EmptyAppend(call, j.sys.heap);
      var rest := UseAppend(StepJoint(j, e), t);
      ExecTwo(j, e, rest);
      events := [e] + rest;
    }
  }

  lemma EmptyAppend(c: Call, h: Heap)
    requires WellFormed(c) && c.pc.Append? && c.pc.i < |c.req.msgs| && InRange(RoomLeft(c))
    requires !Touches(c.req.msgs[c.pc.i], RoomLeft(c))
    ensures var c' := CallStep(c, h, 0).0;
      c'.pc == Append(c.pc.i + 1) && c'.req == c.req && RoomLeft(c') == RoomLeft(c)
  {
  }

  lemma UseFlying(j: Joint, t: Tid) returns (events: seq<JointEvent>)
    requires Free(j, t) && j.sys.tasks[t].SglFlying?
    ensures ExecJoint(j, events).uses > j.uses
  {
    events := [Transmit(t)];
    ExecOne(j, events[0]);
  }

  lemma UseAfter(j: Joint, t: Tid, done: Option<Done>) returns (events: seq<JointEvent>)
    requires Free(j, t) && NeedsPool(j.sys.tasks[t]) && TaskInv(j.sys, t, j.sys.tasks[t], done)
    ensures ExecJoint(j, events).uses > j.uses
  {
    match j.sys.tasks[t]
    case Packing(call) =>
      if call.pc.Packed? {
        events := UsePacked(j, t);
      } else {
        events := UseAppend(j, t);
      }
    case SglRecord(_, _) => events := UseRecord(j, t);
    case SglReady(_, _, _) => events := UseReady(j, t);
    case SglFlying(_, _, _) => events := UseFlying(j, t);
  }

  lemma UseUnsettled(j: Joint) returns (events: seq<JointEvent>)
    requires !Connected(j) && Inv(j.sys) && !Settled(j)
    ensures ExecJoint(j, events).uses > j.uses
  {
    if j.pending != {} {
      var t :| t in j.pending;
      events := [Write(t)];
      ExecOne(j, events[0]);
    } else {
      var t :| t in j.sys.tasks && NeedsPool(j.sys.tasks[t]);
      events := UseAfter(j, t, j.sys.asked[t]);
    }
  }

  /**
   A client disconnected at any moment of any run: that releases its pool, and the pool is
   not used any more exactly when, at that moment, no request has a block to write and none
   is past its last block and undelivered.
   */
  lemma DisconnectSafeIff(j: Joint, setup: M.Setup, before: seq<JointEvent>, destroyed: bool)
    requires M.Completes(setup) && InOrder(j, setup) && HonestJoint(j, before)
    ensures var j1 := ExecJoint(j, before);
      var j2 := Close(j1, destroyed);
      && setup.pool in j1.reg.pools && setup.pool !in j2.reg.pools
      && (Settled(j1) <==> forall after: seq<JointEvent> :: ExecJoint(j2, after).uses == j2.uses)
  {
    var j1 := ExecJoint(j, before);
    var j2 := Close(j1, destroyed);
    RunKeepsOrder(j, setup, before);
    M.DisconnectInv(j1.reg, j1.client, destroyed);
    SameClient(j, before);
    if Settled(j1) {
      forall after: seq<JointEvent>
        ensures ExecJoint(j2, after).uses == j2.uses
      {
        RunStaysOver(j2, after, j2.uses);
      }
    } else {
      var after := UseUnsettled(j2);
      assert ExecJoint(j2, after).uses != j2.uses;
    }
  }

  lemma {:induction false} SameClient(j: Joint, events: seq<JointEvent>)
    ensures ExecJoint(j, events).client == j.client
    decreases |events|
  {
    if events != [] {
      SameClient(StepJoint(j, events[0]), events[1..]);
    }
  }
}
