/** Each event, one by one, has the effect the invariant needs. */
module ProtocolSteps {
  import opened Machine
  import opened Pool
  import opened PackMachine
  import opened PackInvariant
  import opened PackOutcome
  import opened Protocol
  import opened ProtocolInvariant

  lemma HeapSelf(h: Heap, mine: set<Addr>)
    requires h.Valid() && mine <= h.live.Keys
    ensures Frame(h, h, mine, mine) && Frame(h, h, mine, {} + mine) && Frame(h, h, mine, mine + {})
  {
    assert {} + mine == mine == mine + {};
  }

  /** A task that ends: it frees its record, frees or forgets its array, and forgets its blocks. */
  lemma EndEffect(s: Sys, s': Sys, t: Tid, end: End)
    requires s.heap.Valid() && t in s.tasks && t in s.asked && t in s'.asked
    requires Blocks(s, s.tasks[t]) <= s.heap.live.Keys
    requires s' == s.(tasks := s.tasks[t := Ended(end)], records := s.records - Recs(s.tasks[t]),
                      arrays := s'.arrays, delivered := s'.delivered, log := s'.log)
    requires s'.arrays == s.arrays || s'.arrays == s.arrays - Arrs(s.tasks[t])
    requires forall u :: u != t && u in s.delivered ==> u in s'.delivered && s'.delivered[u] == s.delivered[u]
    requires TaskInv(s, t, Ended(end), s.asked[t])
    ensures Effect(s, s', t, Blocks(s, s.tasks[t]))
  {
    var mine := Blocks(s, s.tasks[t]);
    assert Blocks(s', TaskOf(s', t)) + mine == mine;
  }

  /** A task that goes on with what it holds. */
  lemma MoveEffect(s: Sys, t: Tid, task: Task)
    requires s.heap.Valid() && t in s.tasks && t in s.asked
    requires Blocks(s, task) == Blocks(s, s.tasks[t]) <= s.heap.live.Keys
    requires Recs(task) == Recs(s.tasks[t]) <= s.records.Keys && Arrs(task) == Arrs(s.tasks[t])
    requires TaskInv(s, t, task, s.asked[t]) && !task.Draining? && !task.Ended? && !s.tasks[t].Ended?
    ensures Effect(s, Move(s, t, task), t, {}) && LogEffect(s, Move(s, t, task), t)
  {
    HeapSelf(s.heap, Blocks(s, task));
  }

  /** The same when nothing moves at all. */
  lemma StayEffect(s: Sys, t: Tid)
    requires s.heap.Valid() && t in s.tasks && t in s.asked
    requires TaskInv(s, t, s.tasks[t], s.asked[t]) && !s.tasks[t].Draining? && !s.tasks[t].Ended?
    ensures Effect(s, s, t, {}) && LogEffect(s, s, t)
  {
    HoldingsExist(s, t, s.tasks[t], s.asked[t]);
    MoveEffect(s, t, s.tasks[t]);
    assert Move(s, t, s.tasks[t]) == s;
  }

  /** A task that gets a record. */
  lemma NewRecordEffect(s: Sys, t: Tid, task: Task, p: Ptr, r: Record)
    requires s.heap.Valid() && t in s.tasks && t in s.asked && p !in s.records
    requires Blocks(s, task) == Blocks(s, s.tasks[t]) <= s.heap.live.Keys
    requires Recs(s.tasks[t]) == {} && Recs(task) == {p} && Arrs(task) == Arrs(s.tasks[t]) == {}
    requires !task.Draining? && !task.Ended? && !s.tasks[t].Ended?
    requires TaskInv(Move(s, t, task).(records := s.records[p := r]), t, task, s.asked[t])
    ensures var s' := Move(s, t, task).(records := s.records[p := r]);
      Effect(s, s', t, {}) && LogEffect(s, s', t)
  {
    HeapSelf(s.heap, Blocks(s, task));
  }

  /** A task that gets an address array and changes its record. */
  lemma NewArrayEffect(s: Sys, t: Tid, task: Task, rec: Ptr, r: Record, p: Ptr, addrs: seq<Addr>)
    requires s.heap.Valid() && t in s.tasks && t in s.asked && rec in s.records && p !in s.arrays
    requires Blocks(s, task) == Blocks(s, s.tasks[t]) <= s.heap.live.Keys
    requires Recs(s.tasks[t]) == Recs(task) == {rec} && Arrs(s.tasks[t]) == {} && Arrs(task) == {p}
    requires !task.Draining? && !task.Ended? && !s.tasks[t].Ended?
    requires TaskInv(Move(s, t, task).(arrays := s.arrays[p := addrs], records := s.records[rec := r]),
                     t, task, s.asked[t])
    ensures var s' := Move(s, t, task).(arrays := s.arrays[p := addrs], records := s.records[rec := r]);
      Effect(s, s', t, {}) && LogEffect(s, s', t)
  {
    HeapSelf(s.heap, Blocks(s, task));
  }

  lemma StartEffect(s: Sys, t: Tid, task: Task, done: Option<Done>)
    requires s.heap.Valid() && t !in s.tasks && t !in s.asked
    requires (task.Packing? && task.call.sgl == EMPTY_SGL && task.call.pc.Header?) || task.PlainStart?
    requires TaskInv(s, t, task, done)
    ensures var s' := Move(s, t, task).(asked := s.asked[t := done]);
      Effect(s, s', t, {}) && LogEffect(s, s', t)
  {
    HeapSelf(s.heap, {});
  }

  lemma WorkEffect(s: Sys, t: Tid, call: Call, wish: Addr)
    requires s.heap.Valid() && t in s.tasks && s.tasks[t] == Packing(call) && t in s.asked
    requires TaskInv(s, t, s.tasks[t], s.asked[t])
    ensures var s' := StepWork(s, t, call, wish);
      Effect(s, s', t, Forgotten(call)) && LogEffect(s, s', t)
  {
    SafeIsHarmless(call, s.heap);
    StepGood(call, s.heap, wish);
  }

  lemma SyncDoneEffect(s: Sys, t: Tid, call: Call, ok: bool)
    requires s.heap.Valid() && t in s.tasks && s.tasks[t] == Packing(call) && t in s.asked
    requires TaskInv(s, t, s.tasks[t], s.asked[t])
    ensures var s' := StepSyncDone(s, t, call, ok);
      Effect(s, s', t, {}) && LogEffect(s, s', t)
  {
    if call.pc.Packed? && call.req.done.None? {
      ReleaseReady(call, s.heap, ok);
      HeldLive(call, s.heap);
      MoveEffect(s, t, Packing(call.(pc := FreeSent(0, ok))));
    } else {
      StayEffect(s, t);
    }
  }

  lemma AllocRecordEffect(s: Sys, t: Tid, call: Call, p: Ptr)
    requires s.heap.Valid() && t in s.tasks && s.tasks[t] == Packing(call) && t in s.asked
    requires TaskInv(s, t, s.tasks[t], s.asked[t])
    ensures var s' := StepAllocRecord(s, t, call, p);
      Effect(s, s', t, Abandoned(s, AllocRecord(t, p))) && LogEffect(s, s', t)
  {
    if !call.pc.Packed? || call.req.done.None? {
      StayEffect(s, t);
    } else if MallocOk(s, p) {
      RecordedEffect(s, t, call, p);
    } else {
      HeldLive(call, s.heap);
      EndEffect(s, Move(s, t, Ended(NotSent)), t, NotSent);
    }
  }

  lemma RecordedEffect(s: Sys, t: Tid, call: Call, p: Ptr)
    requires s.heap.Valid() && t in s.tasks && s.tasks[t] == Packing(call) && t in s.asked
    requires TaskInv(s, t, s.tasks[t], s.asked[t])
    requires call.pc.Packed? && call.req.done.Some? && MallocOk(s, p)
    ensures var s' := StepAllocRecord(s, t, call, p);
      Effect(s, s', t, {}) && LogEffect(s, s', t)
  {
    HeldLive(call, s.heap);
    NewRecordEffect(s, t, SglRecord(call, p), p, SglRecordEarly(s.client, call.req.done.value, call.sgl));
  }

  lemma AllocArrayEffect(s: Sys, t: Tid, call: Call, rec: Ptr, p: Ptr)
    requires s.heap.Valid() && t in s.tasks && s.tasks[t] == SglRecord(call, rec) && t in s.asked
    requires TaskInv(s, t, s.tasks[t], s.asked[t])
    ensures var s' := StepAllocArray(s, t, call, rec, p);
      Effect(s, s', t, Abandoned(s, AllocArray(t, p))) && LogEffect(s, s', t)
  {
    if MallocOk(s, p) {
      ArrayedEffect(s, t, call, rec, p);
    } else {
      HeldLive(call, s.heap);
      EndEffect(s, StepAllocArray(s, t, call, rec, p), t, NotSent);
    }
  }

  lemma ArrayedEffect(s: Sys, t: Tid, call: Call, rec: Ptr, p: Ptr)
    requires s.heap.Valid() && t in s.tasks && s.tasks[t] == SglRecord(call, rec) && t in s.asked
    requires TaskInv(s, t, s.tasks[t], s.asked[t]) && MallocOk(s, p)
    ensures var s' := StepAllocArray(s, t, call, rec, p);
      Effect(s, s', t, {}) && LogEffect(s, s', t)
  {
    HeldLive(call, s.heap);
    var r := SglRecordLate(s.records[rec], p, call.req.rsp);
    NewArrayEffect(s, t, SglReady(call, rec, p), rec, r, p, AddrSeq(call.sgl));
  }

  lemma PostSglEffect(s: Sys, t: Tid, call: Call, rec: Ptr, arr: Ptr, accepted: bool)
    requires s.heap.Valid() && t in s.tasks && s.tasks[t] == SglReady(call, rec, arr) && t in s.asked
    requires TaskInv(s, t, s.tasks[t], s.asked[t])
    ensures var s' := StepPostSgl(s, t, call, rec, arr, accepted);
      Effect(s, s', t, Abandoned(s, Post(t, accepted))) && LogEffect(s, s', t)
  {
    HeldLive(call, s.heap);
    if accepted {
      MoveEffect(s, t, SglFlying(call, rec, arr));
    } else {
      EndEffect(s, StepPostSgl(s, t, call, rec, arr, accepted), t, NotSent);
    }
  }

  lemma AllocPlainEffect(s: Sys, t: Tid, plain: Plain, p: Ptr)
    requires s.heap.Valid() && t in s.tasks && s.tasks[t] == PlainStart(plain) && t in s.asked
    requires TaskInv(s, t, s.tasks[t], s.asked[t])
    ensures var s' := StepAllocPlain(s, t, plain, p);
      Effect(s, s', t, {}) && LogEffect(s, s', t)
  {
    if MallocOk(s, p) {
      NewRecordEffect(s, t, PlainReady(plain, p), p, PlainRecord(plain));
    } else {
      HeapSelf(s.heap, {});
      EndEffect(s, Move(s, t, Ended(NotSent)), t, NotSent);
    }
  }

  lemma PostPlainEffect(s: Sys, t: Tid, plain: Plain, rec: Ptr, accepted: bool)
    requires s.heap.Valid() && t in s.tasks && s.tasks[t] == PlainReady(plain, rec) && t in s.asked
    requires TaskInv(s, t, s.tasks[t], s.asked[t])
    ensures var s' := StepPostPlain(s, t, plain, rec, accepted);
      Effect(s, s', t, {}) && LogEffect(s, s', t)
  {
    HeapSelf(s.heap, {});
    if accepted {
      MoveEffect(s, t, PlainFlying(plain, rec));
    } else {
      EndEffect(s, StepPostPlain(s, t, plain, rec, accepted), t, NotSent);
    }
  }

  /** Appending to the log: the witness LogEffect asks for. */
  lemma InvokeLogs(s: Sys, t: Tid, r: Record, status: int, response: Option<Bytes>, done: Done)
    requires r.cb == Set(done.cb) && r.arg == Set(done.arg) && done.cb != 0
    ensures Invoke(s, t, r, status, response)
         == Move(s, t, Ended(Ran)).(log := s.log + [DoneCall(t, done.cb, done.arg, status, response)])
  {
  }

  lemma DeliverSglEffect(s: Sys, t: Tid, call: Call, rec: Ptr, arr: Ptr, k: Completion)
    requires s.heap.Valid() && t in s.tasks && s.tasks[t] == SglFlying(call, rec, arr) && t in s.asked
    requires TaskInv(s, t, s.tasks[t], s.asked[t]) && !k.oneSided
    ensures var s' := StepCallback(Arrive(s, t, k), t, rec, k);
      Effect(s, s', t, Abandoned(s, Deliver(t, k))) && LogEffect(s, s', t)
  {
    HeldLive(call, s.heap);
    if k.getters {
      DrainStartEffect(s, t, call, rec, arr, k);
    } else {
      EndEffect(s, StepCallback(Arrive(s, t, k), t, rec, k), t, GettersFailed);
    }
  }

  lemma DrainStartEffect(s: Sys, t: Tid, call: Call, rec: Ptr, arr: Ptr, k: Completion)
    requires s.heap.Valid() && t in s.tasks && s.tasks[t] == SglFlying(call, rec, arr) && t in s.asked
    requires TaskInv(s, t, s.tasks[t], s.asked[t]) && !k.oneSided && k.getters
    ensures var s' := StepCallback(Arrive(s, t, k), t, rec, k);
      Effect(s, s', t, {}) && LogEffect(s, s', t)
  {
    HeldLive(call, s.heap);
    HeapSelf(s.heap, Held(call));
    AddrSeqFacts(call, s.heap);
    var s' := StepCallback(Arrive(s, t, k), t, rec, k);
    assert s' == s.(tasks := s.tasks[t := Draining(s.records[rec], 0, k)], records := s.records - {rec},
                    delivered := s.delivered[t := k]);
    assert Blocks(s', TaskOf(s', t)) == Addrs(call.sgl, 0);
  }

  /** OckRpcCallbackFunc up to the free of the record, case by case. */
  lemma CallbackCases(s: Sys, t: Tid, rec: Ptr, k: Completion)
    requires rec in s.records && s.records[rec].cb.Set? && s.records[rec].arg.Set?
    requires t in s.tasks && (s.tasks[t].SglFlying? || (s.tasks[t].PlainFlying? && !s.tasks[t].plain.Reply?))
    requires rec == s.tasks[t].rec
    ensures var r := s.records[rec];
      var freed := s.(records := s.records - {rec}, delivered := s.delivered[t := k]);
      Step(s, Deliver(t, k)) ==
        if !k.getters then freed.(tasks := s.tasks[t := Ended(GettersFailed)])
        else if !k.oneSided then freed.(tasks := s.tasks[t := Draining(r, 0, k)])
        else if r.cb.value == 0 then freed.(tasks := s.tasks[t := Ended(Faulted)], faults := s.faults + 1)
        else freed.(tasks := s.tasks[t := Ended(Ran)],
                    log := s.log + [DoneCall(t, r.cb.value, r.arg.value, k.result, None)])
  {
    assert Step(s, Deliver(t, k)) == StepCallback(Arrive(s, t, k), t, rec, k);
  }

  /** A two-sided completion of a record that has its array field set: what the rounds need holds. */
  lemma DrainReady(s: Sys, t: Tid, task: Task, done: Option<Done>, s': Sys)
    requires TaskInv(s, t, task, done)
    requires task.SglFlying? || (task.PlainFlying? && !task.plain.Reply?)
    requires s'.client == s.client && s'.heap == s.heap && s'.arrays == s.arrays
    ensures done.Some?
    ensures s.records[task.rec].reqAddr.Set? ==> DrainInv(s', s.records[task.rec], 0, done.value)
  {
    if task.SglFlying? {
      AddrSeqFacts(task.call, s.heap);
    }
  }

  lemma AddrSeqFacts(call: Call, h: Heap)
    requires CallInv(call, h) && call.pc.Packed?
    ensures Rest(AddrSeq(call.sgl), 0) == Addrs(call.sgl, 0)
    ensures |AddrSeq(call.sgl)| == call.sgl.iovCount
    ensures ToFree(h, AddrSeq(call.sgl), 0)
  {
    var addrs := AddrSeq(call.sgl);
    AddrsLive(call.req, call.sgl, h, SetCount(call.req) + 1, |call.req.msgs|);
    forall i: nat | i < |addrs|
      ensures addrs[i] == call.sgl.iov[i].lAddress
    {
    }
  }

  lemma DeliverPlainEffect(s: Sys, t: Tid, plain: Plain, rec: Ptr, k: Completion)
    requires s.heap.Valid() && t in s.tasks && s.tasks[t] == PlainFlying(plain, rec) && t in s.asked
    requires TaskInv(s, t, s.tasks[t], s.asked[t]) && !plain.Reply? && (k.oneSided <==> plain.OneSided?)
    ensures var s' := StepCallback(Arrive(s, t, k), t, rec, k);
      Effect(s, s', t, {}) && LogEffect(s, s', t)
  {
    HeapSelf(s.heap, {});
    var s' := StepCallback(Arrive(s, t, k), t, rec, k);
    if !k.getters {
      EndEffect(s, s', t, GettersFailed);
    } else if k.oneSided {
      InvokeLogs(Arrive(s, t, k), t, s.records[rec], k.result, None, plain.done);
      EndEffect(s, s', t, Ran);
    } else {
      PlainDrainStarts(s, t, plain, rec, k);
    }
  }

  lemma PlainDrainStarts(s: Sys, t: Tid, plain: Plain, rec: Ptr, k: Completion)
    requires s.heap.Valid() && t in s.tasks && s.tasks[t] == PlainFlying(plain, rec) && t in s.asked
    requires TaskInv(s, t, s.tasks[t], s.asked[t]) && plain.TwoSided? && !k.oneSided && k.getters
    ensures var s' := StepCallback(Arrive(s, t, k), t, rec, k);
      Effect(s, s', t, {}) && LogEffect(s, s', t)
  {
    HeapSelf(s.heap, {});
    var s' := StepCallback(Arrive(s, t, k), t, rec, k);
    assert s' == s.(tasks := s.tasks[t := Draining(s.records[rec], 0, k)], records := s.records - {rec},
                    delivered := s.delivered[t := k]);
  }

  lemma ResponseEffect(s: Sys, t: Tid, plain: Plain, rec: Ptr, k: Completion)
    requires s.heap.Valid() && t in s.tasks && s.tasks[t] == PlainFlying(plain, rec) && t in s.asked
    requires TaskInv(s, t, s.tasks[t], s.asked[t]) && plain.Reply?
    ensures var s' := StepResponse(Arrive(s, t, k), t, rec, k);
      Effect(s, s', t, {}) && LogEffect(s, s', t)
  {
    if plain.orNull.Some? && plain.orNull.value.cb != 0 {
      ResponseRanEffect(s, t, plain, rec, k);
    } else {
      ResponseSkips(s, t, plain, rec, k);
      EndEffect(s, StepResponse(Arrive(s, t, k), t, rec, k), t, NullCallback);
    }
  }

  lemma ResponseRanEffect(s: Sys, t: Tid, plain: Plain, rec: Ptr, k: Completion)
    requires s.heap.Valid() && t in s.tasks && s.tasks[t] == PlainFlying(plain, rec) && t in s.asked
    requires TaskInv(s, t, s.tasks[t], s.asked[t]) && plain.Reply? && plain.orNull.Some? && plain.orNull.value.cb != 0
    ensures var s' := StepResponse(Arrive(s, t, k), t, rec, k);
      Effect(s, s', t, {}) && LogEffect(s, s', t)
  {
    ResponseRuns(s, t, plain, rec, k);
    EndEffect(s, StepResponse(Arrive(s, t, k), t, rec, k), t, Ran);
  }

  lemma ResponseRuns(s: Sys, t: Tid, plain: Plain, rec: Ptr, k: Completion)
    requires t in s.tasks && s.tasks[t] == PlainFlying(plain, rec) && t in s.asked
    requires TaskInv(s, t, s.tasks[t], s.asked[t]) && plain.Reply? && plain.orNull.Some? && plain.orNull.value.cb != 0
    ensures var d := DoneCall(t, plain.orNull.value.cb, plain.orNull.value.arg, StatusOf(k), None);
      StepResponse(Arrive(s, t, k), t, rec, k)
      == s.(tasks := s.tasks[t := Ended(Ran)], records := s.records - {rec},
            delivered := s.delivered[t := k], log := s.log + [d])
  {
    InvokeLogs(Arrive(s, t, k), t, s.records[rec], StatusOf(k), None, plain.orNull.value);
  }

  lemma ResponseSkips(s: Sys, t: Tid, plain: Plain, rec: Ptr, k: Completion)
    requires t in s.tasks && s.tasks[t] == PlainFlying(plain, rec) && t in s.asked
    requires TaskInv(s, t, s.tasks[t], s.asked[t]) && plain.Reply? && (plain.orNull.None? || plain.orNull.value.cb == 0)
    ensures StepResponse(Arrive(s, t, k), t, rec, k)
      == s.(tasks := s.tasks[t := Ended(NullCallback)], records := s.records - {rec}, delivered := s.delivered[t := k])
  {
  }

  lemma FinishEffect(s: Sys, t: Tid, r: Record, k: Completion, done: Done)
    requires r.cb == Set(done.cb) && r.arg == Set(done.arg) && r.rsp.Set?
    ensures var s' := Finish(s, t, r, k);
      var response := if r.rsp.value == 0 then None else Some(k.reply);
      s' == if done.cb == 0 then Move(s, t, Ended(NullCallback))
            else Move(s, t, Ended(Ran)).(log := s.log + [DoneCall(t, done.cb, done.arg, k.result, response)])
  {
    if done.cb != 0 {
      InvokeLogs(s, t, r, k.result, if r.rsp.value == 0 then None else Some(k.reply), done);
    }
  }

  lemma RestFirst(h: Heap, addrs: seq<Addr>, next: nat)
    requires h.Valid() && next < |addrs| && ToFree(h, addrs, next)
    ensures Rest(addrs, next) <= h.live.Keys && addrs[next] in Rest(addrs, next)
    ensures Frame(h, h.Free(addrs[next]), Rest(addrs, next), Rest(addrs, next + 1) + {})
    ensures ToFree(h.Free(addrs[next]), addrs, next + 1)
  {
    var a := addrs[next];
    assert Rest(addrs, next) == Rest(addrs, next + 1) + {a};
    assert a !in Rest(addrs, next + 1);
    FreeFrame(h, a, Rest(addrs, next));
    assert Rest(addrs, next) - {a} == Rest(addrs, next + 1) == Rest(addrs, next + 1) + {};
  }

  lemma DrainOneEffect(s: Sys, t: Tid, r: Record, next: nat, k: Completion)
    requires s.heap.Valid() && t in s.tasks && s.tasks[t] == Draining(r, next, k) && t in s.asked
    requires TaskInv(s, t, s.tasks[t], s.asked[t])
    requires r.reqAddr.value != 0 && next < r.reqCnt.value
    ensures var s' := StepDrain(s, t, r, next, k);
      Effect(s, s', t, {}) && LogEffect(s, s', t)
  {
    RestFirst(s.heap, s.arrays[r.reqAddr.value], next);
  }

  lemma DrainLastEffect(s: Sys, t: Tid, r: Record, next: nat, k: Completion)
    requires s.heap.Valid() && t in s.tasks && s.tasks[t] == Draining(r, next, k) && t in s.asked
    requires TaskInv(s, t, s.tasks[t], s.asked[t])
    requires r.reqAddr.value != 0 ==> next >= r.reqCnt.value
    ensures var s' := StepDrain(s, t, r, next, k);
      Effect(s, s', t, {}) && LogEffect(s, s', t)
  {
    assert Blocks(s, s.tasks[t]) == {};
    var s' := StepDrain(s, t, r, next, k);
    var done := s.asked[t].value;
    FinishEffect(if r.reqAddr.value == 0 then s else FreeArray(s, r.reqAddr.value), t, r, k, done);
    EndEffect(s, s', t, if done.cb == 0 then NullCallback else Ran);
  }
}
