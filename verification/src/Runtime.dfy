/**
 The asynchronous entry points and the completion callbacks as they run: records
 and address arrays allocated, filled, handed to the channel and freed in place.

 Each method is proved to do what the protocol does for its request when no other
 request interferes; its own progress is kept in the ghost field `tasks`.
 */
module Runtime {
  import opened Machine
  import opened Pool
  import opened PackMachine
  import opened PackOutcome
  import opened PackContract
  import opened Pack
  import opened Protocol
  import opened ProtocolInvariant
  import opened ProtocolSteps
  import opened Solo

  datatype Status = Ok | Err | InvalidParam

  class Hcom {
    const client: Ptr
    const pool: Allocator
    // the AsyncCbInfo records and reqAddr arrays malloc has handed out
    var records: map<Ptr, Record>
    var arrays: map<Ptr, seq<Addr>>
    // the user's callbacks, as invoked
    var log: seq<DoneCall>

    ghost var tasks: map<Tid, Task>
    ghost var asked: map<Tid, Option<Done>>
    ghost var delivered: map<Tid, Completion>
    ghost var faults: nat

    ghost function View(): Sys
      reads this, pool, pool.mem
    {
      Sys(client, pool.View(), records, arrays, tasks, asked, delivered, log, faults)
    }

    constructor (client: Ptr, pool: Allocator)
      ensures this.pool == pool && View() == Sys(client, pool.View(), map[], map[], map[], map[], map[], [], 0)
    {
      this.client, this.pool := client, pool;
      records, arrays, log := map[], map[], [];
      tasks, asked, delivered, faults := map[], map[], map[], 0;
    }

    /** malloc answers an unused nonzero address. */
    predicate Unused(p: Ptr)
      reads this
    {
      p != 0 && p !in records && p !in arrays
    }

    /** Both mallocs of a scatter-gather call answer, the second with an address of its own. */
    ghost predicate MallocsAnswer(ans: Answers)
      reads this
    {
      && ans.rec != 0 && ans.rec !in records && ans.rec !in arrays
      && ans.arr != 0 && ans.arr !in records && ans.arr !in arrays && ans.arr != ans.rec
    }

    // The scatter-gather call

    method ClientCallWithParam(ghost t: Tid, msgId: u16, msgs: Option<seq<Message>>, seg: u32,
                               rsp: Ptr, done: Option<Done>, ans: Answers) returns (status: Status)
      requires t !in tasks && View().heap.Valid()
      modifies this, pool, pool.mem
      ensures status.InvalidParam? <==>
        || msgs.None? || |msgs.value| == 0 || |msgs.value| > 8
        || exists i :: 0 <= i < |msgs.value| && msgs.value[i].Len() > seg
      ensures status.InvalidParam? ==> View() == old(View())
      ensures !status.InvalidParam? ==>
        var req := Request(msgId, msgs.value, seg, rsp, done);
        && (status.Ok? <==>
              && AllPlaced(old(pool.View()), WantedSizes(req), ans.wishes, 0) && AllCopied(req)
              && if done.None? then ans.syncOk else old(MallocsAnswer(ans)) && ans.accepted)
        && (status.Ok? && done.Some? ==>
              records.Keys == old(records).Keys + {ans.rec} && arrays.Keys == old(arrays).Keys + {ans.arr})
        && (!status.Ok? || done.None? ==> records == old(records) && arrays == old(arrays))
      ensures !status.InvalidParam? ==>
        View() == Alone(Step(old(View()), StartCall(t, Request(msgId, msgs.value, seg, rsp, done))), t, ans)
    {
      if msgs.None? || |msgs.value| > MAX_CALL_COUNT || |msgs.value| <= 0 {
        return InvalidParam;
      }
      var req := Request(msgId, msgs.value, seg, rsp, done);
      var i := 0;
      while i < |req.msgs|
        invariant i <= |req.msgs|
        invariant forall j :: 0 <= j < i ==> req.msgs[j].Len() <= seg
      {
        if req.msgs[i].Len() > seg {
          return InvalidParam;
        }
        i := i + 1;
      }
      assert Prechecked(req);
      status := PackAndSend(t, req, ans);
    }

    method PackAndSend(ghost t: Tid, req: Request, ans: Answers) returns (status: Status)
      requires t !in tasks && View().heap.Valid() && Prechecked(req)
      modifies this, pool, pool.mem
      ensures View() == Alone(Step(old(View()), StartCall(t, req)), t, ans)
      ensures t in tasks && !status.InvalidParam?
      ensures status.Ok? <==> tasks[t].SglFlying? || (tasks[t].Packing? && tasks[t].call.pc == Freed(true))
      ensures status.Ok? <==>
        && AllPlaced(old(pool.View()), WantedSizes(req), ans.wishes, 0) && AllCopied(req)
        && if req.done.None? then ans.syncOk else old(MallocsAnswer(ans)) && ans.accepted
      ensures status.Ok? && req.done.Some? ==>
        records.Keys == old(records).Keys + {ans.rec} && arrays.Keys == old(arrays).Keys + {ans.arr}
      ensures !status.Ok? || req.done.None? ==> records == old(records) && arrays == old(arrays)
    {
      ghost var s0 := Step(View(), StartCall(t, req));
      var sgl := new SglRequest();
      var packed := PackTask(t, req, sgl, ans);
      AloneRuns(s0, t, ans, Start(req));
      if !packed {
        AloneStops(View(), t, ans);
        return Err;
      }
      if req.done.None? {
        status := SendSync(t, req, sgl, ans);
      } else {
        status := CallAsyncSgl(t, req, sgl, ans);
      }
    }

    method PackTask(ghost t: Tid, req: Request, sgl: SglRequest, ans: Answers) returns (packed: bool)
      requires t !in tasks && pool.View().Valid() && Prechecked(req)
      requires sgl.Valid() && sgl.View() == EMPTY_SGL
      modifies this`tasks, this`asked, pool, pool.mem, sgl, sgl.iov
      ensures t in tasks && tasks[t] == Packing(Call(req, sgl.View(), if packed then Packed else Failed))
      ensures packed <==> AllPlaced(old(pool.View()), WantedSizes(req), ans.wishes, 0) && AllCopied(req)
      ensures packed ==> sgl.iovCount <= MAX_IOV_COUNT
      ensures (Call(req, sgl.View(), if packed then Packed else Failed), pool.View())
           == Run(Start(req), old(pool.View()), ans.wishes)
      ensures View() == Move(Step(old(View()), StartCall(t, req)), t, tasks[t]).(heap := pool.View())
    {
      ghost var s0 := View();
      packed := PackBlocks(req, sgl, ans);
      tasks := tasks[t := Packing(Call(req, sgl.View(), if packed then Packed else Failed))];
      asked := asked[t := req.done];
      MoveStart(s0, t, req, tasks[t], pool.View());
    }

    method PackBlocks(req: Request, sgl: SglRequest, ans: Answers) returns (packed: bool)
      requires pool.View().Valid() && Prechecked(req)
      requires sgl.Valid() && sgl.View() == EMPTY_SGL
      modifies pool, pool.mem, sgl, sgl.iov
      ensures packed <==> AllPlaced(old(pool.View()), WantedSizes(req), ans.wishes, 0) && AllCopied(req)
      ensures packed ==> sgl.iovCount <= MAX_IOV_COUNT
      ensures (Call(req, sgl.View(), if packed then Packed else Failed), pool.View())
           == Run(Start(req), old(pool.View()), ans.wishes)
    {
      packed := PackReqInfo(pool, req, sgl, ans.wishes);
    }

    /** OckRpcCallSyncSgl and the release of the blocks whatever it answers. */
    method SendSync(ghost t: Tid, ghost req: Request, sgl: SglRequest, ans: Answers) returns (status: Status)
      requires sgl.Valid() && sgl.iovCount <= MAX_IOV_COUNT && 1 <= |req.msgs|
      requires t in tasks && tasks[t] == Packing(Call(req, sgl.View(), Packed)) && req.done.None?
      modifies this`tasks, pool`live, pool`badFrees
      ensures Ready(old(View()), t) && View() == Alone(old(View()), t, ans)
      ensures t in tasks && tasks[t] == Packing(Call(req, sgl.View(), Freed(ans.syncOk)))
      ensures status == if ans.syncOk then Ok else Err
    {
      ghost var s, call := View(), Call(req, sgl.View(), FreeSent(0, ans.syncOk));
      ghost var s1 := Move(s, t, Packing(call));
      FreeSentBlocks(pool, req, sgl, ans.syncOk, ans.wishes);
      tasks := tasks[t := Packing(Call(req, sgl.View(), Freed(ans.syncOk)))];
      AloneSync(s, t, ans, Call(req, sgl.View(), Packed));
      AloneRuns(s1, t, ans, call);
      assert View() == Move(s1, t, tasks[t]).(heap := pool.View());
      AloneStops(View(), t, ans);
      status := if ans.syncOk then Ok else Err;
    }

    method CallAsyncSgl(ghost t: Tid, req: Request, sgl: SglRequest, ans: Answers) returns (status: Status)
      requires sgl.Valid() && sgl.iovCount <= MAX_IOV_COUNT && 1 <= |req.msgs|
      requires t in tasks && tasks[t] == Packing(Call(req, sgl.View(), Packed)) && req.done.Some?
      modifies this`tasks, this`records, this`arrays
      ensures Ready(old(View()), t) && View() == Alone(old(View()), t, ans)
      ensures t in tasks && (if status.Ok? then tasks[t].SglFlying? else status.Err? && tasks[t] == Ended(NotSent))
      ensures status.Ok? <==> old(MallocsAnswer(ans)) && ans.accepted
      ensures status.Ok? ==>
        records.Keys == old(records).Keys + {ans.rec} && arrays.Keys == old(arrays).Keys + {ans.arr}
      ensures !status.Ok? ==> records == old(records) && arrays == old(arrays)
    {
      var ok := RecordFor(t, req, sgl, ans);
      if !ok {
        return Err;
      }
      status := ArrayAndPost(t, req, sgl, ans);
    }

    method RecordFor(ghost t: Tid, req: Request, sgl: SglRequest, ans: Answers) returns (ok: bool)
      requires sgl.Valid() && sgl.iovCount <= MAX_IOV_COUNT && 1 <= |req.msgs|
      requires t in tasks && tasks[t] == Packing(Call(req, sgl.View(), Packed)) && req.done.Some?
      modifies this`tasks, this`records
      ensures t in tasks && tasks[t] == if ok then SglRecord(Call(req, sgl.View(), Packed), ans.rec) else Ended(NotSent)
      ensures Ready(old(View()), t) && Ready(View(), t) && Alone(View(), t, ans) == Alone(old(View()), t, ans)
      ensures ok <==> ans.rec != 0 && ans.rec !in old(records) && ans.rec !in arrays
      ensures ok ==> ans.rec in records && records - {ans.rec} == old(records)
      ensures !ok ==> records == old(records) && View() == Alone(View(), t, ans)
    {
      AloneRecord(View(), t, ans, Call(req, sgl.View(), Packed));
      ok := MallocRecord(t, req, sgl, ans);
      if !ok {
        AloneStops(View(), t, ans);
      }
    }

    /** The first half of OckRpcCallAsyncSgl: the record, with every field but the array and the response. */
    method MallocRecord(ghost t: Tid, req: Request, sgl: SglRequest, ans: Answers) returns (ok: bool)
      requires sgl.Valid()
      requires t in tasks && tasks[t] == Packing(Call(req, sgl.View(), Packed)) && req.done.Some?
      modifies this`tasks, this`records
      ensures View() == StepAllocRecord(old(View()), t, Call(req, sgl.View(), Packed), ans.rec)
      ensures t in tasks && tasks[t] == if ok then SglRecord(Call(req, sgl.View(), Packed), ans.rec) else Ended(NotSent)
      ensures ok <==> ans.rec != 0 && ans.rec !in old(records) && ans.rec !in arrays
      ensures ok ==> ans.rec in records && records - {ans.rec} == old(records)
      ensures !ok ==> records == old(records)
    {
      var cbInfo := ans.rec;
      if !Unused(cbInfo) {
        tasks := tasks[t := Ended(NotSent)];
        return false;
      }
      var r := Record(Unset, Unset, Set(client), Unset, Unset, Unset);
      r := r.(cb := Set(req.done.value.cb), arg := Set(req.done.value.arg));
      r := r.(reqCnt := Set(sgl.iovCount), reqAddr := Set(0));
      records := records[cbInfo := r];
      tasks := tasks[t := SglRecord(Call(req, sgl.View(), Packed), cbInfo)];
      return true;
    }

    /** The second half: the address array, the response and the post. */
    method ArrayAndPost(ghost t: Tid, req: Request, sgl: SglRequest, ans: Answers) returns (status: Status)
      requires sgl.Valid() && sgl.iovCount <= MAX_IOV_COUNT
      requires t in tasks && tasks[t] == SglRecord(Call(req, sgl.View(), Packed), ans.rec) && ans.rec in records
      modifies this`tasks, this`records, this`arrays
      ensures View() == Alone(old(View()), t, ans)
      ensures t in tasks && (if status.Ok? then tasks[t].SglFlying? else status.Err? && tasks[t] == Ended(NotSent))
      ensures status.Ok? <==> ans.arr != 0 && ans.arr !in old(records) && ans.arr !in old(arrays) && ans.accepted
      ensures status.Ok? ==> records.Keys == old(records).Keys && arrays.Keys == old(arrays).Keys + {ans.arr}
      ensures !status.Ok? ==> records == old(records) - {ans.rec} && arrays == old(arrays)
    {
      ghost var call := Call(req, sgl.View(), Packed);
      AloneNext(View(), t, ans, StepAllocArray(View(), t, call, ans.rec, ans.arr));
      var ok := MallocArray(t, req, sgl, ans);
      if ok {
        AloneNext(View(), t, ans, StepPostSgl(View(), t, call, ans.rec, ans.arr, ans.accepted));
        ok := PostSgl(t, call, ans);
      }
      AloneStops(View(), t, ans);
      status := if ok then Ok else Err;
    }

    method MallocArray(ghost t: Tid, req: Request, sgl: SglRequest, ans: Answers) returns (ok: bool)
      requires sgl.Valid() && sgl.iovCount <= MAX_IOV_COUNT
      requires t in tasks && tasks[t] == SglRecord(Call(req, sgl.View(), Packed), ans.rec) && ans.rec in records
      modifies this`tasks, this`records, this`arrays
      ensures View() == StepAllocArray(old(View()), t, Call(req, sgl.View(), Packed), ans.rec, ans.arr)
      ensures t in tasks && tasks[t] ==
        if ok then SglReady(Call(req, sgl.View(), Packed), ans.rec, ans.arr) else Ended(NotSent)
      ensures ok <==> ans.arr != 0 && ans.arr !in old(records) && ans.arr !in old(arrays)
      ensures ok ==> records.Keys == old(records).Keys && records - {ans.rec} == old(records) - {ans.rec}
      ensures !ok ==> records == old(records) - {ans.rec}
      ensures arrays == if ok then old(arrays)[ans.arr := arrays[ans.arr]] else old(arrays)
      ensures ok ==> |arrays[ans.arr]| == sgl.iovCount
      ensures ok ==> forall k :: 0 <= k < sgl.iovCount ==> arrays[ans.arr][k] == sgl.iov[k].lAddress
      ensures ok ==> ans.rec in records && records[ans.rec].reqAddr == Set(ans.arr) && ans.arr in arrays
    {
      var cbInfo, reqAddr := ans.rec, ans.arr;
      if !Unused(reqAddr) {
        records := records - {cbInfo};
        tasks := tasks[t := Ended(NotSent)];
        return false;
      }
      var addrs := CopyAddresses(sgl);
      arrays := arrays[reqAddr := addrs];
      var r := records[cbInfo].(reqAddr := Set(reqAddr));
      r := r.(rsp := Set(req.rsp));
      records := records[cbInfo := r];
      tasks := tasks[t := SglReady(Call(req, sgl.View(), Packed), cbInfo, reqAddr)];
      return true;
    }

    method PostSgl(ghost t: Tid, ghost call: Call, ans: Answers) returns (ok: bool)
      requires t in tasks && tasks[t] == SglReady(call, ans.rec, ans.arr)
      requires ans.rec in records && records[ans.rec].reqAddr == Set(ans.arr) && ans.arr in arrays
      modifies this`tasks, this`records, this`arrays
      ensures View() == StepPostSgl(old(View()), t, call, ans.rec, ans.arr, ans.accepted)
      ensures t in tasks && tasks[t] == if ok then SglFlying(call, ans.rec, ans.arr) else Ended(NotSent)
      ensures ok <==> ans.accepted
      ensures records == if ok then old(records) else old(records) - {ans.rec}
      ensures arrays == if ok then old(arrays) else old(arrays) - {ans.arr}
    {
      var cbInfo := ans.rec;
      if !ans.accepted {
        arrays := arrays - {records[cbInfo].reqAddr.value};
        records := records - {cbInfo};
        tasks := tasks[t := Ended(NotSent)];
        return false;
      }
      tasks := tasks[t := SglFlying(call, cbInfo, ans.arr)];
      return true;
    }

    method CopyAddresses(sgl: SglRequest) returns (addrs: seq<Addr>)
      requires sgl.Valid() && sgl.iovCount <= MAX_IOV_COUNT
      ensures addrs == AddrSeq(sgl.View())
    {
      addrs := [];
      var i := 0;
      while i < sgl.iovCount
        invariant i <= sgl.iovCount && |addrs| == i
        invariant forall j :: 0 <= j < i ==> addrs[j] == sgl.View().iov[j].lAddress
      {
        addrs := addrs + [sgl.iov[i].lAddress];
        i := i + 1;
      }
    }

    // The other asynchronous entry points

    /** Allocate a record, fill the fields this entry point fills, post, and free it if the post is rejected. */
    method PostPlain(ghost t: Tid, plain: Plain, ans: Answers) returns (status: Status)
      requires t !in tasks
      modifies this`tasks, this`asked, this`records
      ensures View() == Alone(Step(old(View()), StartPlain(t, plain)), t, ans)
      ensures t in tasks && (if status.Ok? then tasks[t].PlainFlying? else status.Err? && tasks[t] == Ended(NotSent))
      ensures status.Ok? <==> ans.rec != 0 && ans.rec !in old(records) && ans.rec !in arrays && ans.accepted
      ensures status.Ok? ==> ans.rec in records && records - {ans.rec} == old(records)
      ensures !status.Ok? ==> records == old(records)
    {
      tasks := tasks[t := PlainStart(plain)];
      asked := asked[t := PlainDone(plain)];
      AloneNext(View(), t, ans, StepAllocPlain(View(), t, plain, ans.rec));
      var ok := MallocPlain(t, plain, ans);
      if ok {
        AloneNext(View(), t, ans, StepPostPlain(View(), t, plain, ans.rec, ans.accepted));
        ok := SubmitPlain(t, plain, ans);
      }
      AloneStops(View(), t, ans);
      status := if ok then Ok else Err;
    }

    method MallocPlain(ghost t: Tid, plain: Plain, ans: Answers) returns (ok: bool)
      requires t in tasks && tasks[t] == PlainStart(plain)
      modifies this`tasks, this`records
      ensures View() == StepAllocPlain(old(View()), t, plain, ans.rec)
      ensures t in tasks && tasks[t] == if ok then PlainReady(plain, ans.rec) else Ended(NotSent)
      ensures ok <==> ans.rec != 0 && ans.rec !in old(records) && ans.rec !in arrays
      ensures ok ==> ans.rec in records && records - {ans.rec} == old(records)
      ensures !ok ==> records == old(records)
    {
      var cbInfo := ans.rec;
      if !Unused(cbInfo) {
        tasks := tasks[t := Ended(NotSent)];
        return false;
      }
      var r := Record(Unset, Unset, Unset, Unset, Unset, Unset);
      match plain {
        case TwoSided(done, rsp) =>
          r := r.(cb := Set(done.cb), arg := Set(done.arg));
          r := r.(reqAddr := Set(0), reqCnt := Set(0), rsp := Set(rsp));
        case OneSided(done) =>
          r := r.(cb := Set(done.cb), arg := Set(done.arg));
        case Reply(orNull) =>
          if orNull.Some? {
            r := r.(cb := Set(orNull.value.cb), arg := Set(orNull.value.arg));
          } else {
            r := r.(cb := Set(0), arg := Set(0));
          }
      }
      assert r == PlainRecord(plain);
      records := records[cbInfo := r];
      tasks := tasks[t := PlainReady(plain, cbInfo)];
      return true;
    }

    method SubmitPlain(ghost t: Tid, ghost plain: Plain, ans: Answers) returns (ok: bool)
      requires t in tasks && tasks[t] == PlainReady(plain, ans.rec) && ans.rec in records
      modifies this`tasks, this`records
      ensures View() == StepPostPlain(old(View()), t, plain, ans.rec, ans.accepted)
      ensures t in tasks && tasks[t] == if ok then PlainFlying(plain, ans.rec) else Ended(NotSent)
      ensures ok <==> ans.accepted
      ensures records == if ok then old(records) else old(records) - {ans.rec}
    {
      var cbInfo := ans.rec;
      if !ans.accepted {
        records := records - {cbInfo};
        tasks := tasks[t := Ended(NotSent)];
        return false;
      }
      tasks := tasks[t := PlainFlying(plain, cbInfo)];
      return true;
    }

    // The callbacks

    /**
     OckRpcCallbackFunc on the record of an accepted request, for any completion. Where
     the code would use an unset field or call a null pointer, the method counts a fault
     and goes no further.
     */
    method CallbackFunc(t: Tid, arg: Ptr, k: Completion, ghost ans: Answers)
      requires t in tasks && t in asked && TaskInv(View(), t, tasks[t], asked[t])
      requires (tasks[t].SglFlying? || (tasks[t].PlainFlying? && !tasks[t].plain.Reply?)) && arg == tasks[t].rec
      modifies this, pool`live, pool`badFrees
      ensures Ready(Step(old(View()), Deliver(t, k)), t)
      ensures View() == Alone(Step(old(View()), Deliver(t, k)), t, ans)
    {
      var cbInfo := records[arg];
      var twoSided := Arrival(t, arg, k);
      if twoSided {
        DrainAll(t, cbInfo, k, ans);
      } else {
        AloneStops(View(), t, ans);
      }
    }

    /** OckRpcCallbackFunc up to the free of the record. */
    method Arrival(t: Tid, arg: Ptr, k: Completion) returns (twoSided: bool)
      requires t in tasks && t in asked && TaskInv(View(), t, tasks[t], asked[t])
      requires (tasks[t].SglFlying? || (tasks[t].PlainFlying? && !tasks[t].plain.Reply?)) && arg == tasks[t].rec
      modifies this
      ensures View() == Step(old(View()), Deliver(t, k))
      ensures t in tasks && (!twoSided ==> tasks[t].Ended?)
      ensures twoSided ==>
        && tasks[t] == Draining(old(records)[arg], 0, k) && t in asked && asked[t].Some?
        && (old(records)[arg].reqAddr.Set? ==> DrainInv(View(), old(records)[arg], 0, asked[t].value))
    {
      ghost var s := View();
      CallbackCases(s, t, arg, k);
      var cbInfo := records[arg];
      delivered := delivered[t := k];
      twoSided := k.getters && !k.oneSided;
      if !k.getters {
        records := records - {arg};
        tasks := tasks[t := Ended(GettersFailed)];
      } else if k.oneSided {
        if cbInfo.cb.value == 0 {
          tasks, faults := tasks[t := Ended(Faulted)], faults + 1;
        } else {
          log := log + [DoneCall(t, cbInfo.cb.value, cbInfo.arg.value, k.result, None)];
          tasks := tasks[t := Ended(Ran)];
        }
        records := records - {arg};
      } else {
        records := records - {arg};
        tasks := tasks[t := Draining(cbInfo, 0, k)];
        DrainReady(s, t, s.tasks[t], s.asked[t], View());
      }
    }

    /** The rest of OckRpcCallbackFunc: the request's blocks, then the response and the user's callback. */
    method DrainAll(t: Tid, cbInfo: Record, k: Completion, ghost ans: Answers)
      requires t in tasks && tasks[t] == Draining(cbInfo, 0, k) && t in asked && asked[t].Some?
      requires cbInfo.reqAddr.Set? ==> DrainInv(View(), cbInfo, 0, asked[t].value)
      modifies this`tasks, this`arrays, this`log, this`faults, pool`live, pool`badFrees
      ensures View() == Alone(old(View()), t, ans)
    {
      if cbInfo.reqAddr.Unset? {
        AloneNext(View(), t, ans, Fault(View(), t));
        tasks, faults := tasks[t := Ended(Faulted)], faults + 1;
        AloneStops(View(), t, ans);
        return;
      }
      ghost var n := 0;
      var reqAddr := cbInfo.reqAddr.value;
      if reqAddr != 0 {
        n := |arrays[reqAddr]|;
        AloneDrains(View(), t, ans, cbInfo, k, reqAddr, n);
        FreeBlocks(arrays[reqAddr], cbInfo.reqCnt.value);
        tasks := tasks[t := Draining(cbInfo, n, k)];
      }
      AloneNext(View(), t, ans, StepDrain(View(), t, cbInfo, n, k));
      FinishDrain(t, cbInfo, n, k, asked[t].value);
      AloneStops(View(), t, ans);
    }

    method FreeBlocks(reqAddr: seq<Addr>, reqCnt: nat)
      requires reqCnt <= |reqAddr|
      modifies pool`live, pool`badFrees
      ensures pool.View() == FreeFirst(old(pool.View()), reqAddr, reqCnt)
    {
      var i := 0;
      while i < reqCnt
        invariant i <= reqCnt
        invariant pool.View() == FreeFirst(old(pool.View()), reqAddr, i)
      {
        pool.Free(reqAddr[i]);
        i := i + 1;
      }
    }

    method FinishDrain(t: Tid, cbInfo: Record, ghost i: nat, k: Completion, ghost done: Done)
      requires t in tasks && tasks[t] == Draining(cbInfo, i, k)
      requires cbInfo.cb == Set(done.cb) && cbInfo.arg == Set(done.arg) && cbInfo.rsp.Set? && cbInfo.reqAddr.Set?
      requires cbInfo.reqAddr.value != 0 ==>
        cbInfo.reqAddr.value in arrays && cbInfo.reqCnt.Set? && cbInfo.client.Set? && i == cbInfo.reqCnt.value
      modifies this`tasks, this`arrays, this`log
      ensures View() == StepDrain(old(View()), t, cbInfo, i, k)
      ensures t in tasks && tasks[t].Ended?
    {
      ghost var s := View();
      if cbInfo.reqAddr.value != 0 {
        arrays := arrays - {cbInfo.reqAddr.value};
      }
      FinishEffect(View(), t, cbInfo, k, done);
      var response := if cbInfo.rsp.value != 0 then Some(k.reply) else None;
      if cbInfo.cb.value == 0 {
        tasks := tasks[t := Ended(NullCallback)];
      } else {
        log := log + [DoneCall(t, cbInfo.cb.value, cbInfo.arg.value, k.result, response)];
        tasks := tasks[t := Ended(Ran)];
      }
    }

    /** Run by the library for a reply: report the outcome if a callback was given, free the record. */
    method ResponseCallBack(t: Tid, arg: Ptr, k: Completion)
      requires t in tasks && t in asked && TaskInv(View(), t, tasks[t], asked[t])
      requires tasks[t].PlainFlying? && tasks[t].plain.Reply? && arg == tasks[t].rec
      modifies this
      ensures View() == Step(old(View()), Deliver(t, k))
      ensures faults == old(faults) && arg !in records
    {
      ghost var s := View();
      var cbInfo := records[arg];
      delivered := delivered[t := k];
      tasks := tasks[t := Ended(NullCallback)];
      if cbInfo.cb.value == 0 {
        ResponseSkips(s, t, s.tasks[t].plain, arg, k);
      } else {
        ResponseRuns(s, t, s.tasks[t].plain, arg, k);
        var result := 0;
        if k.getters {
          result := k.result;
        }
        log := log + [DoneCall(t, cbInfo.cb.value, cbInfo.arg.value, result, None)];
        tasks := tasks[t := Ended(Ran)];
      }
      records := records - {arg};
    }
  }
}
