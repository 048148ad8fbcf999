/** One request of the protocol run on its own, until it ends or is with the channel. */
module Solo {
  import opened Machine
  import opened Pool
  import opened PackMachine
  import opened PackOutcome
  import opened Protocol
  import opened ProtocolInvariant
  import opened ProtocolRuns

  /** What the allocator, malloc and the channel answer to one request. */
  datatype Answers = Answers(wishes: Wishes, syncOk: bool, rec: Ptr, arr: Ptr, accepted: bool)

  function NextEvent(t: Tid, task: Task, ans: Answers): Option<Event> {
    match task
    case Packing(call) =>
      if call.pc.Packed? then
        if call.req.done.None? then Some(SyncDone(t, ans.syncOk)) else Some(AllocRecord(t, ans.rec))
      else if Halted(call.pc) then None
      else Some(Work(t, WishFor(call.pc, ans.wishes)))
    case SglRecord(_, _) => Some(AllocArray(t, ans.arr))
    case SglReady(_, _, _) => Some(Post(t, ans.accepted))
    case PlainStart(_) => Some(AllocRecord(t, ans.rec))
    case PlainReady(_, _) => Some(Post(t, ans.accepted))
    case Draining(_, _, _) => Some(Drain(t))
    case _ => None
  }

  predicate Ready(s: Sys, t: Tid) {
    t in s.tasks && (s.tasks[t].Packing? ==> WellFormed(s.tasks[t].call))
  }

  function Rank(task: Task): nat {
    match task
    case Packing(call) =>
      if call.pc.FreeSent? then 1
      else if call.pc.Packed? then 4
      else if Halted(call.pc) then 0
      else 5 + Stage(call.pc)
    case SglRecord(_, _) => 3
    case SglReady(_, _, _) => 2
    case PlainStart(_) => 3
    case PlainReady(_, _) => 2
    case Draining(_, _, _) => 1
    case _ => 0
  }

  function Left(task: Task): nat
    requires task.Packing? ==> WellFormed(task.call)
  {
    match task
    case Packing(call) => Remaining(call)
    case Draining(r, next, _) => if r.reqCnt.Set? && next <= r.reqCnt.value then r.reqCnt.value - next else 0
    case _ => 0
  }

  /** `s'` is a later stage of task `t` than `s`. */
  predicate Later(s: Sys, s': Sys, t: Tid) {
    && Ready(s, t) && Ready(s', t)
    && (Rank(s'.tasks[t]) < Rank(s.tasks[t])
        || (Rank(s'.tasks[t]) == Rank(s.tasks[t]) && Left(s'.tasks[t]) < Left(s.tasks[t])))
  }

  predicate Stopped(task: Task) {
    task.SglFlying? || task.PlainFlying? || task.Ended?
    || (task.Packing? && (task.call.pc.Failed? || task.call.pc.Freed?))
  }

  /** The request's next step, whatever it is. */
  function Advance(s: Sys, t: Tid, ans: Answers): Sys
    requires Ready(s, t)
  {
    match s.tasks[t]
    case Packing(call) => AdvancePacking(s, t, call, ans)
    case SglRecord(call, rec) => StepAllocArray(s, t, call, rec, ans.arr)
    case SglReady(call, rec, arr) => StepPostSgl(s, t, call, rec, arr, ans.accepted)
    case PlainStart(plain) => StepAllocPlain(s, t, plain, ans.rec)
    case PlainReady(plain, rec) => StepPostPlain(s, t, plain, rec, ans.accepted)
    case Draining(r, next, k) => StepDrain(s, t, r, next, k)
    case _ => s
  }

  function AdvancePacking(s: Sys, t: Tid, call: Call, ans: Answers): Sys {
    if !call.pc.Packed? then StepWork(s, t, call, WishFor(call.pc, ans.wishes))
    else if call.req.done.None? then StepSyncDone(s, t, call, ans.syncOk)
    else StepAllocRecord(s, t, call, ans.rec)
  }

  lemma AdvanceIsStep(s: Sys, t: Tid, ans: Answers)
    requires Ready(s, t) && !Stopped(s.tasks[t])
    ensures NextEvent(t, s.tasks[t], ans).Some?
    ensures Advance(s, t, ans) == Step(s, NextEvent(t, s.tasks[t], ans).value)
  {
    var e := NextEvent(t, s.tasks[t], ans).value;
    assert Step(s, e) == StepTask(s, e, s.tasks[t]);
  }

  lemma AdvanceLater(s: Sys, t: Tid, ans: Answers)
    requires Ready(s, t) && !Stopped(s.tasks[t])
    ensures Later(s, Advance(s, t, ans), t)
  {
    match s.tasks[t]
    case Packing(call) => PackingLater(s, t, call, ans);
    case SglRecord(call, rec) => ArrayLater(s, t, call, rec, ans.arr);
    case SglReady(call, rec, arr) => PostLater(s, t, call, rec, arr, ans.accepted);
    case Draining(r, next, k) => DrainLater(s, t, r, next, k);
    case _ =>
  }

  lemma PackingLater(s: Sys, t: Tid, call: Call, ans: Answers)
    requires Ready(s, t) && s.tasks[t] == Packing(call) && !Stopped(s.tasks[t])
    ensures Later(s, AdvancePacking(s, t, call, ans), t)
  {
    if !call.pc.Packed? {
      WorkLowersRank(call, s.heap, WishFor(call.pc, ans.wishes));
    }
  }

  lemma ArrayLater(s: Sys, t: Tid, call: Call, rec: Ptr, p: Ptr)
    requires t in s.tasks && s.tasks[t] == SglRecord(call, rec)
    ensures Later(s, StepAllocArray(s, t, call, rec, p), t)
  {
    assert FreeRecord(Move(s, t, Ended(NotSent)), rec).tasks == s.tasks[t := Ended(NotSent)];
  }

  lemma PostLater(s: Sys, t: Tid, call: Call, rec: Ptr, arr: Ptr, accepted: bool)
    requires t in s.tasks && s.tasks[t] == SglReady(call, rec, arr)
    ensures Later(s, StepPostSgl(s, t, call, rec, arr, accepted), t)
  {
    if !accepted && rec in s.records && s.records[rec].reqAddr.Set? {
      FreesKeepTasks(Move(s, t, Ended(NotSent)), s.records[rec].reqAddr.value, rec);
    }
  }

  lemma FreesKeepTasks(s: Sys, arr: Ptr, rec: Ptr)
    ensures FreeRecord(FreeArray(s, arr), rec).tasks == s.tasks
  {
  }

  lemma InvokeEnds(s: Sys, t: Tid, r: Record, status: int, response: Option<Bytes>)
    ensures var s' := Invoke(s, t, r, status, response); t in s'.tasks && s'.tasks[t].Ended?
  {
  }

  lemma FinishEnds(s: Sys, t: Tid, r: Record, k: Completion)
    ensures var s' := Finish(s, t, r, k); t in s'.tasks && s'.tasks[t].Ended?
  {
    if r.rsp.Set? {
      InvokeEnds(s, t, r, k.result, if r.rsp.value == 0 then None else Some(k.reply));
    }
  }

  lemma DrainLater(s: Sys, t: Tid, r: Record, next: nat, k: Completion)
    requires t in s.tasks && s.tasks[t] == Draining(r, next, k)
    ensures Later(s, StepDrain(s, t, r, next, k), t)
  {
    if r.reqAddr.Set? && r.reqAddr.value == 0 {
      FinishEnds(s, t, r, k);
    } else if r.reqAddr.Set? {
      DrainBlockLater(s, t, r, next, k);
    }
  }

  lemma DrainBlockLater(s: Sys, t: Tid, r: Record, next: nat, k: Completion)
    requires t in s.tasks && s.tasks[t] == Draining(r, next, k) && r.reqAddr.Set? && r.reqAddr.value != 0
    ensures Later(s, StepDrain(s, t, r, next, k), t)
  {
    FinishEnds(FreeArray(s, r.reqAddr.value), t, r, k);
  }

  lemma WorkLowersRank(c: Call, h: Heap, wish: Addr)
    requires WellFormed(c) && !Halted(c.pc)
    ensures var c' := CallStep(c, h, wish).0;
      && (Stage(c'.pc) < Stage(c.pc) || (Stage(c'.pc) == Stage(c.pc) && Remaining(c') < Remaining(c)))
      && (c.pc.FreeSent? ==> c'.pc.FreeSent? || c'.pc.Freed?)
      && (!c.pc.FreeSent? ==> !c'.pc.FreeSent?)
  {
  }

  function Alone(s: Sys, t: Tid, ans: Answers): Sys
    requires Ready(s, t)
    decreases Rank(s.tasks[t]), Left(s.tasks[t])
  {
    if Stopped(s.tasks[t]) then s
    else
      AdvanceLater(s, t, ans);
      Alone(Advance(s, t, ans), t, ans)
  }

  /** What Alone reaches is what the protocol reaches by some run of the request's own events. */
  lemma {:induction false} AloneIsRun(s: Sys, t: Tid, ans: Answers) returns (events: seq<Event>)
    requires Ready(s, t)
    ensures Exec(s, events) == Alone(s, t, ans)
    ensures forall i :: 0 <= i < |events| ==>
      events[i].t == t && !events[i].StartCall? && !events[i].StartPlain? && !events[i].Deliver?
    decreases Rank(s.tasks[t]), Left(s.tasks[t])
  {
    if Stopped(s.tasks[t]) {
      events := [];
    } else {
      AdvanceLater(s, t, ans);
      AdvanceIsStep(s, t, ans);
      var e := NextEvent(t, s.tasks[t], ans).value;
      var rest := AloneIsRun(Step(s, e), t, ans);
      ExecFirst(s, e, rest);
      events := [e] + rest;
    }
  }

  lemma {:induction false} ExecFirst(s: Sys, e: Event, rest: seq<Event>)
    ensures Exec(s, [e] + rest) == Exec(Step(s, e), rest)
    decreases |rest|
  {
    if rest == [] {
      assert [e] + rest == [e];
      assert [e][..0] == [];
      assert Exec(s, []) == s;
    } else {
      ExecFirst(s, e, rest[..|rest| - 1]);
      assert ([e] + rest)[..|rest|] == [e] + rest[..|rest| - 1];
    }
  }

  /** On its own, too, a request keeps everything the protocol keeps. */
  lemma AloneKeeps(s: Sys, t: Tid, ans: Answers)
    requires Ready(s, t) && Inv(s)
    ensures Inv(Alone(s, t, ans))
  {
    var events := AloneIsRun(s, t, ans);
    OwnEventsHonest(s, events);
    RunKeeps(s, events);
  }

  lemma {:induction false} OwnEventsHonest(s: Sys, events: seq<Event>)
    requires forall i :: 0 <= i < |events| ==> !events[i].StartCall? && !events[i].StartPlain? && !events[i].Deliver?
    ensures AllHonest(s, events)
  {
    if events != [] {
      OwnEventsHonest(s, events[..|events| - 1]);
    }
  }

  // The stages one by one

  lemma AloneStops(s: Sys, t: Tid, ans: Answers)
    requires Ready(s, t) && Stopped(s.tasks[t])
    ensures Alone(s, t, ans) == s
  {
  }

  lemma AloneNext(s: Sys, t: Tid, ans: Answers, s': Sys)
    requires Ready(s, t) && !Stopped(s.tasks[t]) && s' == Advance(s, t, ans)
    ensures Ready(s', t) && Alone(s, t, ans) == Alone(s', t, ans)
  {
    AdvanceLater(s, t, ans);
  }

  lemma AloneRecord(s: Sys, t: Tid, ans: Answers, call: Call)
    requires t in s.tasks && s.tasks[t] == Packing(call) && call.pc.Packed? && call.req.done.Some? && WellFormed(call)
    ensures var s' := StepAllocRecord(s, t, call, ans.rec);
      Ready(s, t) && Ready(s', t) && Alone(s, t, ans) == Alone(s', t, ans)
  {
    AloneNext(s, t, ans, StepAllocRecord(s, t, call, ans.rec));
  }

  lemma AloneSync(s: Sys, t: Tid, ans: Answers, call: Call)
    requires Ready(s, t) && s.tasks[t] == Packing(call) && call.pc.Packed? && call.req.done.None?
    ensures var s' := Move(s, t, Packing(call.(pc := FreeSent(0, ans.syncOk))));
      Ready(s', t) && Alone(s, t, ans) == Alone(s', t, ans)
  {
    AloneNext(s, t, ans, StepSyncDone(s, t, call, ans.syncOk));
  }

  lemma AloneWork(s: Sys, t: Tid, ans: Answers, call: Call)
    requires Ready(s, t) && s.tasks[t] == Packing(call) && !Halted(call.pc)
    ensures var (call', heap') := CallStep(call, s.heap, WishFor(call.pc, ans.wishes));
      var s' := Move(s, t, Packing(call')).(heap := heap');
      Ready(s', t) && Alone(s, t, ans) == Alone(s', t, ans)
  {
    AloneNext(s, t, ans, StepWork(s, t, call, WishFor(call.pc, ans.wishes)));
  }

  /** Packing, and the release after a synchronous call, are the packing machine's own run. */
  lemma {:induction false} AloneRuns(s: Sys, t: Tid, ans: Answers, c: Call)
    requires Ready(s, t) && s.tasks[t] == Packing(c)
    ensures var (c', h') := Run(c, s.heap, ans.wishes);
      var s' := Move(s, t, Packing(c')).(heap := h');
      Ready(s', t) && Alone(s, t, ans) == Alone(s', t, ans)
    decreases Stage(c.pc), Remaining(c)
  {
    if Halted(c.pc) {
      assert Move(s, t, Packing(c)).(heap := s.heap) == s;
    } else {
      var wish := WishFor(c.pc, ans.wishes);
      var (c1, h1) := CallStep(c, s.heap, wish);
      var s1 := Move(s, t, Packing(c1)).(heap := h1);
      AloneWork(s, t, ans, c);
      WorkLowersRank(c, s.heap, wish);
      RunOnce(c, s.heap, ans.wishes);
      AloneRuns(s1, t, ans, c1);
      var (c', h') := Run(c, s.heap, ans.wishes);
      MoveAgain(s, t, Packing(c1), Packing(c'), h1, h');
    }
  }

  lemma MoveAgain(s: Sys, t: Tid, first: Task, second: Task, h1: Heap, h2: Heap)
    ensures Move(Move(s, t, first).(heap := h1), t, second).(heap := h2) == Move(s, t, second).(heap := h2)
  {
  }

  lemma MoveStart(s: Sys, t: Tid, req: Request, task: Task, h: Heap)
    requires t !in s.tasks && Prechecked(req)
    ensures Move(Step(s, StartCall(t, req)), t, task).(heap := h)
         == s.(tasks := s.tasks[t := task], asked := s.asked[t := req.done], heap := h)
  {
  }

  /** The heap after the first `n` addresses are freed in turn. */
  function FreeFirst(h: Heap, addrs: seq<Addr>, n: nat): Heap
    requires n <= |addrs|
  {
    if n == 0 then h else FreeFirst(h, addrs, n - 1).Free(addrs[n - 1])
  }

  /** Task `t` of `s` after `n` rounds over the addresses in `arr`. */
  function Drained(s: Sys, t: Tid, r: Record, k: Completion, arr: Ptr, n: nat): Sys
    requires arr in s.arrays && n <= |s.arrays[arr]|
  {
    s.(tasks := s.tasks[t := Draining(r, n, k)], heap := FreeFirst(s.heap, s.arrays[arr], n))
  }

  lemma DrainedNext(s: Sys, t: Tid, r: Record, k: Completion, arr: Ptr, n: nat)
    requires r.reqAddr == Set(arr) && arr != 0 && arr in s.arrays && r.reqCnt == Set(|s.arrays[arr]|) && r.client.Set?
    requires n < |s.arrays[arr]|
    ensures StepDrain(Drained(s, t, r, k, arr, n), t, r, n, k) == Drained(s, t, r, k, arr, n + 1)
  {
  }

  lemma DrainedNone(s: Sys, t: Tid, r: Record, k: Completion, arr: Ptr)
    requires t in s.tasks && s.tasks[t] == Draining(r, 0, k) && arr in s.arrays
    ensures Drained(s, t, r, k, arr, 0) == s
  {
  }

  /** The loop of OckRpcCallbackFunc over the request's blocks. */
  lemma {:induction false} AloneDrains(s: Sys, t: Tid, ans: Answers, r: Record, k: Completion, arr: Ptr, n: nat)
    requires t in s.tasks && s.tasks[t] == Draining(r, 0, k)
    requires r.reqAddr == Set(arr) && arr != 0 && arr in s.arrays && r.reqCnt == Set(|s.arrays[arr]|) && r.client.Set?
    requires n <= |s.arrays[arr]|
    ensures Ready(Drained(s, t, r, k, arr, n), t) && Alone(s, t, ans) == Alone(Drained(s, t, r, k, arr, n), t, ans)
  {
    if n == 0 {
      DrainedNone(s, t, r, k, arr);
    } else {
      AloneDrains(s, t, ans, r, k, arr, n - 1);
      DrainedNext(s, t, r, k, arr, n - 1);
      AloneNext(Drained(s, t, r, k, arr, n - 1), t, ans, Drained(s, t, r, k, arr, n));
    }
  }
}
