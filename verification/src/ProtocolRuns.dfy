/** What holds in every run: safety, the ledger of blocks, and one completion per request. */
module ProtocolRuns {
  import opened Machine
  import Services
  import opened Pool
  import opened PackMachine
  import opened PackInvariant
  import opened PackOutcome
  import opened Dispatch
  import opened Protocol
  import opened ProtocolInvariant
  import opened ProtocolSteps

  // Events and runs

  /** The request's step does nothing, or has the effect the invariant needs. */
  ghost predicate Harmless(s: Sys, e: Event) {
    e.t in s.tasks &&
    var s' := StepTask(s, e, s.tasks[e.t]);
    (s' == s && Abandoned(s, e) == {}) || (Effect(s, s', e.t, Abandoned(s, e)) && LogEffect(s, s', e.t))
  }

  lemma TaskStepEffect(s: Sys, e: Event)
    requires Inv(s) && Honest(s, e) && !e.StartCall? && !e.StartPlain? && e.t in s.tasks
    ensures Harmless(s, e)
  {
    assert TaskInv(s, e.t, s.tasks[e.t], s.asked[e.t]);
    match e
    case Deliver(t, k) => DeliverHarmless(s, t, k);
    case Drain(t) => DrainHarmless(s, t);
    case _ => SendHarmless(s, e);
  }

  lemma SendHarmless(s: Sys, e: Event)
    requires !e.StartCall? && !e.StartPlain? && !e.Deliver? && !e.Drain?
    requires s.heap.Valid() && e.t in s.tasks && e.t in s.asked && TaskInv(s, e.t, s.tasks[e.t], s.asked[e.t])
    ensures Harmless(s, e)
  {
    var t := e.t;
    match (e, s.tasks[t])
    case (Work(_, wish), Packing(call)) => WorkEffect(s, t, call, wish);
    case (SyncDone(_, ok), Packing(call)) => SyncDoneEffect(s, t, call, ok);
    case (AllocRecord(_, p), Packing(call)) => AllocRecordEffect(s, t, call, p);
    case (AllocRecord(_, p), PlainStart(plain)) => AllocPlainEffect(s, t, plain, p);
    case (AllocArray(_, p), SglRecord(call, rec)) => AllocArrayEffect(s, t, call, rec, p);
    case (Post(_, accepted), SglReady(call, rec, arr)) => PostSglEffect(s, t, call, rec, arr, accepted);
    case (Post(_, accepted), PlainReady(plain, rec)) => PostPlainEffect(s, t, plain, rec, accepted);
    case _ =>
  }

  lemma DeliverHarmless(s: Sys, t: Tid, k: Completion)
    requires s.heap.Valid() && t in s.tasks && t in s.asked && TaskInv(s, t, s.tasks[t], s.asked[t])
    requires Honest(s, Deliver(t, k))
    ensures Harmless(s, Deliver(t, k))
  {
    match s.tasks[t]
    case SglFlying(call, rec, arr) => DeliverSglEffect(s, t, call, rec, arr, k);
    case PlainFlying(plain, rec) =>
      if plain.Reply? {
        ResponseEffect(s, t, plain, rec, k);
      } else {
        DeliverPlainEffect(s, t, plain, rec, k);
      }
    case _ =>
  }

  lemma DrainHarmless(s: Sys, t: Tid)
    requires s.heap.Valid() && t in s.tasks && t in s.asked && TaskInv(s, t, s.tasks[t], s.asked[t])
    ensures Harmless(s, Drain(t))
  {
    match s.tasks[t]
    case Draining(r, next, k) =>
      if r.reqAddr.value != 0 && next < r.reqCnt.value {
        DrainOneEffect(s, t, r, next, k);
      } else {
        DrainLastEffect(s, t, r, next, k);
      }
    case _ =>
  }

  /**
   Every event of every interleaving keeps the invariant, leaves the blocks nobody
   owns as they are, and adds to them exactly the blocks it abandons.
   */
  lemma StepKeeps(s: Sys, e: Event)
    requires Inv(s) && Honest(s, e)
    ensures Inv(Step(s, e))
    ensures Unowned(Step(s, e)) == Unowned(s) + Abandoned(s, e) && Unowned(s) !! Abandoned(s, e)
    ensures forall a :: a in Unowned(s) ==> Untouched(s.heap, Step(s, e).heap, a)
  {
    if e.StartCall? || e.StartPlain? {
      StartKeeps(s, e);
    } else if e.t in s.tasks {
      TaskStepEffect(s, e);
      if Step(s, e) == s && Abandoned(s, e) == {} {
        SelfUntouched(s);
      } else {
        EffectKeeps(s, Step(s, e), e.t, Abandoned(s, e));
      }
    } else {
      SelfUntouched(s);
    }
  }

  lemma SelfUntouched(s: Sys)
    requires Inv(s)
    ensures forall a :: a in Unowned(s) ==> Untouched(s.heap, s.heap, a)
  {
  }

  lemma StartKeeps(s: Sys, e: Event)
    requires Inv(s) && Honest(s, e) && (e.StartCall? || e.StartPlain?)
    ensures Inv(Step(s, e)) && Unowned(Step(s, e)) == Unowned(s)
    ensures forall a :: a in Unowned(s) ==> Untouched(s.heap, Step(s, e).heap, a)
  {
    if e.t in s.tasks || (e.StartCall? && !Prechecked(e.req)) {
      SelfUntouched(s);
    } else {
      StartHarmless(s, e);
      EffectKeeps(s, Step(s, e), e.t, {});
    }
  }

  lemma StartHarmless(s: Sys, e: Event)
    requires s.heap.Valid() && Honest(s, e) && (e.StartCall? || e.StartPlain?) && e.t !in s.tasks && e.t !in s.asked
    requires e.StartCall? ==> Prechecked(e.req)
    ensures Effect(s, Step(s, e), e.t, {}) && LogEffect(s, Step(s, e), e.t)
  {
    if e.StartCall? {
      StartEffect(s, e.t, Packing(Start(e.req)), e.req.done);
    } else {
      StartEffect(s, e.t, PlainStart(e.plain), PlainDone(e.plain));
    }
  }

  /** A step frees only blocks its own request holds, and leaves every other block's place and bytes alone. */
  lemma FreesOwnOnly(s: Sys, e: Event)
    requires Inv(s) && Honest(s, e)
    ensures var s' := Step(s, e);
      && s.heap.live.Keys - s'.heap.live.Keys <= Blocks(s, TaskOf(s, e.t))
      && s'.heap.badFrees == 0
      && forall a :: a in s.heap.live && a !in Blocks(s, TaskOf(s, e.t)) ==> Untouched(s.heap, s'.heap, a)
  {
    if e.StartCall? || e.StartPlain? {
      StartsLeaveHeap(s, e);
    } else if e.t in s.tasks {
      TaskStepEffect(s, e);
      if Step(s, e) != s {
        EffectFrees(s, Step(s, e), e.t, Abandoned(s, e));
      }
    }
  }

  lemma StartsLeaveHeap(s: Sys, e: Event)
    requires e.StartCall? || e.StartPlain?
    ensures Step(s, e).heap == s.heap
  {
  }

  lemma EffectFrees(s: Sys, s': Sys, t: Tid, lost: set<Addr>)
    requires Effect(s, s', t, lost)
    ensures s.heap.live.Keys - s'.heap.live.Keys <= Blocks(s, TaskOf(s, t))
    ensures s'.heap.badFrees == s.heap.badFrees
    ensures forall a :: a in s.heap.live && a !in Blocks(s, TaskOf(s, t)) ==> Untouched(s.heap, s'.heap, a)
  {
  }

  lemma TaskKept(s: Sys, events: seq<Event>, t: Tid)
    requires Inv(s) && AllHonest(s, events) && t in Exec(s, events).tasks
    ensures var s' := Exec(s, events);
      t in s'.asked && TaskInv(s', t, s'.tasks[t], s'.asked[t])
  {
    RunKeeps(s, events);
  }

  /** The blocks given up over a run. */
  function GivenUp(s: Sys, events: seq<Event>): set<Addr> {
    if events == [] then {}
    else
      var front := events[..|events| - 1];
      GivenUp(s, front) + Abandoned(Exec(s, front), events[|events| - 1])
  }

  /**
   Safety and conservation over all runs. No free ever hits a block that is not live,
   no copy leaves its block, no unset field is used and nothing is freed twice, because
   the counters of such events stay at 0; and the live blocks that no request owns are
   the initial ones, untouched, and the ones given up.
   */
  lemma {:induction false} RunKeeps(s: Sys, events: seq<Event>)
    requires Inv(s) && AllHonest(s, events)
    ensures Inv(Exec(s, events))
    ensures Unowned(Exec(s, events)) == Unowned(s) + GivenUp(s, events)
    ensures forall a :: a in Unowned(s) ==> Untouched(s.heap, Exec(s, events).heap, a)
  {
    if events == [] {
      forall a | a in Unowned(s)
        ensures Untouched(s.heap, s.heap, a)
      {
      }
    } else {
      var front, last := events[..|events| - 1], events[|events| - 1];
      RunKeeps(s, front);
      var s1 := Exec(s, front);
      StepKeeps(s1, last);
      forall a | a in Unowned(s)
        ensures Untouched(s.heap, Step(s1, last).heap, a)
      {
        assert Untouched(s.heap, s1.heap, a);
        assert a in Unowned(s1);
        assert Untouched(s1.heap, Step(s1, last).heap, a);
      }
    }
  }

  /** The blocks of any two requests are live and apart, and no misuse has happened. */
  lemma OwnershipSafe(s: Sys, events: seq<Event>)
    requires Inv(s) && AllHonest(s, events)
    ensures var s' := Exec(s, events);
      && s'.heap.badFrees == 0 && s'.heap.wildWrites == 0 && s'.faults == 0
      && (forall t :: t in s'.tasks ==> Blocks(s', s'.tasks[t]) <= s'.heap.live.Keys)
      && (forall t, u :: t in s'.tasks && u in s'.tasks && t != u ==>
            Blocks(s', s'.tasks[t]) !! Blocks(s', s'.tasks[u]))
  {
    RunKeeps(s, events);
    var s' := Exec(s, events);
    forall t | t in s'.tasks
      ensures Blocks(s', s'.tasks[t]) <= s'.heap.live.Keys
    {
      HoldingsExist(s', t, s'.tasks[t], s'.asked[t]);
    }
    forall t, u | t in s'.tasks && u in s'.tasks && t != u
      ensures Blocks(s', s'.tasks[t]) !! Blocks(s', s'.tasks[u])
    {
      assert Apart2(s', s'.tasks[t], s'.tasks[u]);
    }
  }

  // Conservation

  /** Nothing was refused after packing: mallocs answered, posts accepted, getters sound, no pack exception. */
  predicate Clean(s: Sys, e: Event) {
    e.StartCall? || e.StartPlain? || e.t !in s.tasks ||
    match (e, s.tasks[e.t])
    case (Work(_, _), Packing(call)) => !(call.pc.FreeHeader? && call.sgl.iovCount >= 2)
    case (AllocRecord(_, p), Packing(_)) => MallocOk(s, p)
    case (AllocArray(_, p), SglRecord(_, _)) => MallocOk(s, p)
    case (Post(_, accepted), SglReady(_, _, _)) => accepted
    case (Deliver(_, k), SglFlying(_, _, _)) => k.getters
    case _ => true
  }

  predicate AllClean(s: Sys, events: seq<Event>) {
    events == [] ||
    (AllClean(s, events[..|events| - 1]) && Clean(Exec(s, events[..|events| - 1]), events[|events| - 1]))
  }

  /** No request holds a block any more. */
  predicate Quiet(s: Sys) {
    forall t :: t in s.tasks ==>
      s.tasks[t].Ended? || (s.tasks[t].Packing? && (s.tasks[t].call.pc.Failed? || s.tasks[t].call.pc.Freed?))
  }

  lemma {:induction false} CleanGivesUpNothing(s: Sys, events: seq<Event>)
    requires AllClean(s, events)
    ensures GivenUp(s, events) == {}
  {
    if events != [] {
      CleanGivesUpNothing(s, events[..|events| - 1]);
    }
  }

  /** In a clean run the live blocks are the initial ones and those of the requests under way. */
  lemma CleanRunConserves(s: Sys, events: seq<Event>)
    requires Inv(s) && s.tasks == map[] && AllHonest(s, events) && AllClean(s, events)
    ensures var s' := Exec(s, events);
      && s'.heap.live.Keys == s.heap.live.Keys + AllBlocks(s')
      && s.heap.live.Keys !! AllBlocks(s')
      && (Quiet(s') ==> s'.heap.live == s.heap.live)
  {
    RunKeeps(s, events);
    CleanGivesUpNothing(s, events);
    BlocksAreLive(Exec(s, events));
    assert AllBlocks(s) == {};
    OnlyOwners(s, Exec(s, events));
  }

  lemma OnlyOwners(s: Sys, s': Sys)
    requires Unowned(s') == s.heap.live.Keys && AllBlocks(s') <= s'.heap.live.Keys
    requires forall a :: a in s.heap.live.Keys ==> a in s.heap.live && Untouched(s.heap, s'.heap, a)
    ensures s'.heap.live.Keys == s.heap.live.Keys + AllBlocks(s')
    ensures s.heap.live.Keys !! AllBlocks(s')
    ensures Quiet(s') ==> s'.heap.live == s.heap.live
  {
    if Quiet(s') {
      QuietHoldsNothing(s');
      SameLive(s.heap, s'.heap);
    }
  }

  lemma QuietHoldsNothing(s: Sys)
    requires Quiet(s)
    ensures AllBlocks(s) == {}
  {
  }

  lemma SameLive(h: Heap, h': Heap)
    requires h'.live.Keys == h.live.Keys
    requires forall a :: a in h.live.Keys ==> Untouched(h, h', a)
    ensures h'.live == h.live
  {
    forall a | a in h.live
      ensures a in h'.live && h'.live[a] == h.live[a]
    {
      assert Untouched(h, h', a);
    }
  }

  lemma BlocksAreLive(s: Sys)
    requires Inv(s)
    ensures AllBlocks(s) <= s.heap.live.Keys
  {
    forall a | a in AllBlocks(s)
      ensures a in s.heap.live
    {
      OwnersOf(s, a);
      var t :| t in s.tasks && a in Blocks(s, s.tasks[t]);
      HoldingsExist(s, t, s.tasks[t], s.asked[t]);
    }
  }

  // Completion

  /** The number of times the user's callback ran for a call. */
  function Runs(log: seq<DoneCall>, t: Tid): nat {
    if log == [] then 0
    else Runs(log[..|log| - 1], t) + if log[|log| - 1].t == t then 1 else 0
  }

  lemma {:induction false} RunsZero(log: seq<DoneCall>, t: Tid)
    requires forall i :: 0 <= i < |log| ==> log[i].t != t
    ensures Runs(log, t) == 0
  {
    if log != [] {
      RunsZero(log[..|log| - 1], t);
    }
  }

  lemma {:induction false} RunsOnce(log: seq<DoneCall>, t: Tid)
    requires exists i :: 0 <= i < |log| && log[i].t == t
    requires forall i, j :: 0 <= i < j < |log| ==> log[i].t != log[j].t
    ensures Runs(log, t) == 1
  {
    var front := log[..|log| - 1];
    if log[|log| - 1].t == t {
      forall i | 0 <= i < |front|
        ensures front[i].t != t
      {
        assert log[i].t != log[|log| - 1].t;
      }
      RunsZero(front, t);
    } else {
      var i :| 0 <= i < |log| && log[i].t == t;
      assert front[i].t == t;
      RunsOnce(front, t);
    }
  }

  /**
   Over every run, a call's callback has run exactly once if the call ended that way
   and not at all otherwise; and a delivered completion ends without it only when the
   getters failed or the caller gave no callback.
   */
  lemma DoneRunsOnce(s: Sys, events: seq<Event>, t: Tid)
    requires Inv(s) && AllHonest(s, events) && t in Exec(s, events).tasks
    ensures var s' := Exec(s, events);
      && t in s'.asked
      && Runs(s'.log, t) == (if s'.tasks[t] == Ended(Ran) then 1 else 0)
      && (s'.tasks[t] == Ended(NullCallback) ==> s'.asked[t].None? || s'.asked[t].value.cb == 0)
      && s'.tasks[t] != Ended(Faulted)
      && (forall i :: 0 <= i < |s'.log| && s'.log[i].t == t ==>
            && t in s'.delivered
            && s'.asked[t] == Some(Done(s'.log[i].cb, s'.log[i].arg))
            && s'.log[i].status == StatusOf(s'.delivered[t]))
  {
    RunKeeps(s, events);
    var s' := Exec(s, events);
    assert TaskInv(s', t, s'.tasks[t], s'.asked[t]);
    if s'.tasks[t] == Ended(Ran) {
      RunsOnce(s'.log, t);
    } else {
      RunsZero(s'.log, t);
    }
  }

  /** The live records are those in a poster's hands and those accepted and not yet delivered, one each. */
  lemma RecordsExact(s: Sys, events: seq<Event>, p: Ptr)
    requires Inv(s) && AllHonest(s, events)
    ensures var s' := Exec(s, events);
      && (p in s'.records <==> exists t :: t in s'.tasks && p in Recs(s'.tasks[t]))
      && (forall t, u :: t in s'.tasks && u in s'.tasks && p in Recs(s'.tasks[t]) && p in Recs(s'.tasks[u]) ==> t == u)
  {
    RunKeeps(s, events);
    RecordsOwned(Exec(s, events), p);
  }

  lemma RecordsOwned(s: Sys, p: Ptr)
    requires Inv(s)
    ensures p in s.records <==> exists t :: t in s.tasks && p in Recs(s.tasks[t])
    ensures forall t, u :: t in s.tasks && u in s.tasks && p in Recs(s.tasks[t]) && p in Recs(s.tasks[u]) ==> t == u
  {
    forall t | t in s.tasks && p in Recs(s.tasks[t])
      ensures p in s.records
    {
      HoldingsExist(s, t, s.tasks[t], s.asked[t]);
    }
    forall t, u | t in s.tasks && u in s.tasks && t != u
      ensures Recs(s.tasks[t]) !! Recs(s.tasks[u])
    {
      assert Apart2(s, s.tasks[t], s.tasks[u]);
    }
  }

  /**
   Typestate, for any completion the library might present for a post without blocks: the
   consumer misuses the record of a one-sided or two-sided post exactly when its getters succeed and it
   either takes the two-sided branch for a one-sided record, or takes the one-sided
   branch with no callback to call.
   */
  lemma MisuseIff(s: Sys, t: Tid, plain: Plain, rec: Ptr, k: Completion)
    requires t in s.tasks && s.tasks[t] == PlainFlying(plain, rec) && !plain.Reply?
    requires rec in s.records && s.records[rec] == PlainRecord(plain)
    ensures var s' := Step(Step(s, Deliver(t, k)), Drain(t));
      s'.faults == s.faults <==>
        !(k.getters && (if k.oneSided then plain.done.cb == 0 else plain.OneSided?))
  {
    var s1 := Step(s, Deliver(t, k));
    assert s1 == StepCallback(Arrive(s, t, k), t, rec, k);
    if k.getters && !k.oneSided {
      DrainPlain(s1, t, plain, k);
    } else {
      assert s1.tasks[t].Ended?;
      assert Step(s1, Drain(t)) == s1;
    }
  }

  lemma DrainPlain(s: Sys, t: Tid, plain: Plain, k: Completion)
    requires t in s.tasks && s.tasks[t] == Draining(PlainRecord(plain), 0, k) && !plain.Reply?
    ensures Step(s, Drain(t)).faults == s.faults <==> plain.TwoSided?
  {
    var r := PlainRecord(plain);
    assert Step(s, Drain(t)) == StepDrain(s, t, r, 0, k);
    if plain.TwoSided? {
      FinishEffect(s, t, r, k, plain.done);
    }
  }

  /**
   The same for the record of a scatter-gather post. A completion whose getters fail or
   whose type is one-sided gives up the address array and the blocks; any other leaves
   the callback with a record whose rounds misuse nothing.
   */
  lemma SglMisuseIff(s: Sys, t: Tid, call: Call, rec: Ptr, arr: Ptr, k: Completion)
    requires s.heap.Valid() && t in s.tasks && s.tasks[t] == SglFlying(call, rec, arr) && t in s.asked
    requires TaskInv(s, t, s.tasks[t], s.asked[t])
    ensures var s' := Step(s, Deliver(t, k));
      && t in s'.tasks && t in s'.asked
      && (s'.faults == s.faults <==> !(k.getters && k.oneSided && call.req.done.value.cb == 0))
      && (if k.getters && !k.oneSided then s'.tasks[t].Draining? && TaskInv(s', t, s'.tasks[t], s'.asked[t])
          else s'.tasks[t].Ended? && arr in s'.arrays && s'.heap == s.heap && Addrs(call.sgl, 0) <= s'.heap.live.Keys)
  {
    assert Step(s, Deliver(t, k)) == StepCallback(Arrive(s, t, k), t, rec, k);
    HeldLive(call, s.heap);
    if k.getters && !k.oneSided {
      DrainStartEffect(s, t, call, rec, arr, k);
    } else if k.getters && call.req.done.value.cb != 0 {
      InvokeLogs(Arrive(s, t, k), t, s.records[rec], k.result, None, call.req.done.value);
    }
  }

  // What is on the wire

  /** The call behind a task whose request is packed and not yet released. */
  function PackedCall(task: Task): Option<Call> {
    match task
    case Packing(call) => if call.pc.Packed? then Some(call) else None
    case SglRecord(call, _) => Some(call)
    case SglReady(call, _, _) => Some(call)
    case SglFlying(call, _, _) => Some(call)
    case _ => None
  }

  /**
   Whatever else runs, from the moment a request is packed until its completion is
   delivered its blocks read as the header and the messages, so a channel reading
   them at any time makes the peer run the handler on the concatenated messages.
   */
  lemma WireIntact(s: Sys, events: seq<Event>, t: Tid, handlers: map<i16, Services.Handler>)
    requires Inv(s) && AllHonest(s, events)
    requires t in Exec(s, events).tasks && PackedCall(Exec(s, events).tasks[t]).Some?
    ensures var s' := Exec(s, events);
      var call := PackedCall(s'.tasks[t]).value;
      && Gather(s'.heap, call.sgl) == EncodeHeader(call.req.msgId) + Concat(call.req.msgs)
      && Receive(handlers, ScatterWire(s'.heap, call.sgl)) == ToHandler(handlers, call.req.msgId, Concat(call.req.msgs))
  {
    TaskKept(s, events, t);
    var s' := Exec(s, events);
    WireNow(s', t, s'.tasks[t], s'.asked[t], handlers);
  }

  lemma WireNow(s: Sys, t: Tid, task: Task, done: Option<Done>, handlers: map<i16, Services.Handler>)
    requires TaskInv(s, t, task, done) && PackedCall(task).Some?
    ensures var call := PackedCall(task).value;
      && Gather(s.heap, call.sgl) == EncodeHeader(call.req.msgId) + Concat(call.req.msgs)
      && Receive(handlers, ScatterWire(s.heap, call.sgl)) == ToHandler(handlers, call.req.msgId, Concat(call.req.msgs))
  {
    var call := PackedCall(task).value;
    WireImage(call, s.heap);
    PackedIsReceived(handlers, call, s.heap);
  }

  /** Every narrowing of a length is exact, and the append loop neither underflows nor overflows. */
  predicate ExactArithmetic(call: Call) {
    && (forall i :: 0 <= i < |call.req.msgs| ==> ToU32(call.req.msgs[i].Len()) == call.req.msgs[i].Len())
    && (call.pc.Append? && call.pc.i < |call.req.msgs| ==>
          var m, last := call.req.msgs[call.pc.i], call.sgl.iov[3];
          && ToU32(call.req.seg - last.size) == call.req.seg - last.size
          && (m.Len() <= call.req.seg - last.size ==> ToU32(last.size + m.Len()) == last.size + m.Len()))
  }

  lemma ArithmeticExact(s: Sys, events: seq<Event>, t: Tid)
    requires Inv(s) && AllHonest(s, events) && t in Exec(s, events).tasks && Exec(s, events).tasks[t].Packing?
    ensures ExactArithmetic(Exec(s, events).tasks[t].call)
  {
    TaskKept(s, events, t);
    var s' := Exec(s, events);
    TaskExact(s', t, s'.tasks[t], s'.asked[t]);
  }

  lemma TaskExact(s: Sys, t: Tid, task: Task, done: Option<Done>)
    requires TaskInv(s, t, task, done) && task.Packing?
    ensures ExactArithmetic(task.call)
  {
    if task.call.pc.Append? && task.call.pc.i < |task.call.req.msgs| {
      AppendExact(task.call, s.heap);
    }
  }

  /** A pool with nothing under way. */
  lemma InitialInv(client: Ptr, heap: Heap)
    requires heap.Valid() && heap.badFrees == 0 && heap.wildWrites == 0
    ensures Inv(Sys(client, heap, map[], map[], map[], map[], map[], [], 0))
  {
  }
}
