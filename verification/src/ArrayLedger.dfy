/** The address arrays malloc has handed out, over all runs. */
module ArrayLedger {
  import opened Machine
  import opened Pool
  import opened PackMachine
  import opened Protocol
  import opened ProtocolInvariant
  import opened ProtocolSteps
  import opened ProtocolRuns

  function AllArrays(s: Sys): set<Ptr> {
    set t, p | t in s.tasks && p in Arrs(s.tasks[t]) :: p
  }

  /** The arrays no request will free. */
  function UnownedArrays(s: Sys): set<Ptr> {
    s.arrays.Keys - AllArrays(s)
  }

  /** The array an event gives up: only the completion of a scatter-gather request with failing getters does. */
  function AbandonedArrays(s: Sys, e: Event): set<Ptr> {
    if e.Deliver? && e.t in s.tasks && s.tasks[e.t].SglFlying? && !e.k.getters then {s.tasks[e.t].arr} else {}
  }

  function GivenUpArrays(s: Sys, events: seq<Event>): set<Ptr> {
    if events == [] then {}
    else
      var front := events[..|events| - 1];
      GivenUpArrays(s, front) + AbandonedArrays(Exec(s, front), events[|events| - 1])
  }

  /** What a step of task `t` does to the arrays. */
  ghost predicate ArrayEffect(s: Sys, s': Sys, t: Tid, lost: set<Ptr>) {
    && s'.arrays.Keys == (s.arrays.Keys - Arrs(TaskOf(s, t))) + Arrs(TaskOf(s', t)) + lost
    && Arrs(TaskOf(s', t)) !! (s.arrays.Keys - Arrs(TaskOf(s, t)))
    && Arrs(TaskOf(s', t)) !! lost && lost <= Arrs(TaskOf(s, t))
  }

  lemma FinishArrays(s: Sys, t: Tid, r: Record, k: Completion, done: Done)
    requires r.cb == Set(done.cb) && r.arg == Set(done.arg) && r.rsp.Set?
    ensures var s' := Finish(s, t, r, k); s'.arrays == s.arrays && t in s'.tasks && s'.tasks[t].Ended?
  {
    FinishEffect(s, t, r, k, done);
  }

  lemma DrainArrays(s: Sys, t: Tid, r: Record, next: nat, k: Completion, done: Done)
    requires t in s.tasks && s.tasks[t] == Draining(r, next, k) && DrainInv(s, r, next, done)
    ensures ArrayEffect(s, StepDrain(s, t, r, next, k), t, {})
  {
    if r.reqAddr.value == 0 {
      FinishArrays(s, t, r, k, done);
    } else if next >= r.reqCnt.value {
      FinishArrays(FreeArray(s, r.reqAddr.value), t, r, k, done);
    }
  }

  lemma DeliverSglArrays(s: Sys, t: Tid, call: Call, rec: Ptr, arr: Ptr, k: Completion)
    requires t in s.tasks && s.tasks[t] == SglFlying(call, rec, arr) && t in s.asked
    requires TaskInv(s, t, s.tasks[t], s.asked[t]) && !k.oneSided
    ensures ArrayEffect(s, StepCallback(Arrive(s, t, k), t, rec, k), t, if k.getters then {} else {arr})
  {
  }

  lemma DeliverPlainArrays(s: Sys, t: Tid, plain: Plain, rec: Ptr, k: Completion)
    requires t in s.tasks && s.tasks[t] == PlainFlying(plain, rec) && t in s.asked
    requires TaskInv(s, t, s.tasks[t], s.asked[t]) && (plain.Reply? || (k.oneSided <==> plain.OneSided?))
    ensures ArrayEffect(s, Step(s, Deliver(t, k)), t, {})
  {
    if plain.Reply? {
      if plain.orNull.Some? && plain.orNull.value.cb != 0 {
        ResponseRuns(s, t, plain, rec, k);
      } else {
        ResponseSkips(s, t, plain, rec, k);
      }
    } else if k.getters && k.oneSided {
      InvokeLogs(Arrive(s, t, k), t, s.records[rec], k.result, None, plain.done);
    }
  }

  lemma WorkArrays(s: Sys, t: Tid, wish: Addr)
    requires t in s.tasks && Arrs(s.tasks[t]) <= s.arrays.Keys
    ensures ArrayEffect(s, Step(s, Work(t, wish)), t, {})
  {
    if s.tasks[t].Packing? {
      assert Step(s, Work(t, wish)) == StepWork(s, t, s.tasks[t].call, wish);
    } else {
      assert Step(s, Work(t, wish)) == s;
    }
  }

  lemma SyncArrays(s: Sys, t: Tid, ok: bool)
    requires t in s.tasks && Arrs(s.tasks[t]) <= s.arrays.Keys
    ensures ArrayEffect(s, Step(s, SyncDone(t, ok)), t, {})
  {
    if s.tasks[t].Packing? {
      assert Step(s, SyncDone(t, ok)) == StepSyncDone(s, t, s.tasks[t].call, ok);
    } else {
      assert Step(s, SyncDone(t, ok)) == s;
    }
  }

  lemma RecordArrays(s: Sys, t: Tid, p: Ptr)
    requires t in s.tasks && Arrs(s.tasks[t]) <= s.arrays.Keys
    ensures ArrayEffect(s, Step(s, AllocRecord(t, p)), t, {})
  {
    match s.tasks[t]
    case Packing(call) => SglRecordArrays(s, t, call, p);
    case PlainStart(plain) => PlainRecordArrays(s, t, plain, p);
    case _ =>
  }

  lemma SglRecordArrays(s: Sys, t: Tid, call: Call, p: Ptr)
    requires t in s.tasks && s.tasks[t] == Packing(call)
    ensures ArrayEffect(s, StepAllocRecord(s, t, call, p), t, {})
  {
  }

  lemma PlainRecordArrays(s: Sys, t: Tid, plain: Plain, p: Ptr)
    requires t in s.tasks && s.tasks[t] == PlainStart(plain)
    ensures ArrayEffect(s, StepAllocPlain(s, t, plain, p), t, {})
  {
  }

  lemma AllocArrays(s: Sys, t: Tid, p: Ptr, done: Option<Done>)
    requires t in s.tasks && Arrs(s.tasks[t]) <= s.arrays.Keys && TaskInv(s, t, s.tasks[t], done)
    ensures ArrayEffect(s, Step(s, AllocArray(t, p)), t, {})
  {
    if s.tasks[t].SglRecord? {
      SglArrayArrays(s, t, s.tasks[t].call, s.tasks[t].rec, p);
    }
  }

  lemma SglArrayArrays(s: Sys, t: Tid, call: Call, rec: Ptr, p: Ptr)
    requires t in s.tasks && s.tasks[t] == SglRecord(call, rec) && rec in s.records
    ensures ArrayEffect(s, StepAllocArray(s, t, call, rec, p), t, {})
  {
  }

  lemma PostArrays(s: Sys, t: Tid, accepted: bool, done: Option<Done>)
    requires t in s.tasks && Arrs(s.tasks[t]) <= s.arrays.Keys && TaskInv(s, t, s.tasks[t], done)
    ensures ArrayEffect(s, Step(s, Post(t, accepted)), t, {})
  {
    match s.tasks[t]
    case SglReady(call, rec, arr) => SglPostArrays(s, t, call, rec, arr, accepted);
    case PlainReady(plain, rec) => PlainPostArrays(s, t, plain, rec, accepted);
    case _ =>
  }

  lemma SglPostArrays(s: Sys, t: Tid, call: Call, rec: Ptr, arr: Ptr, accepted: bool)
    requires t in s.tasks && s.tasks[t] == SglReady(call, rec, arr) && arr in s.arrays
    requires rec in s.records && s.records[rec].reqAddr == Set(arr)
    ensures ArrayEffect(s, StepPostSgl(s, t, call, rec, arr, accepted), t, {})
  {
  }

  lemma PlainPostArrays(s: Sys, t: Tid, plain: Plain, rec: Ptr, accepted: bool)
    requires t in s.tasks && s.tasks[t] == PlainReady(plain, rec)
    ensures ArrayEffect(s, StepPostPlain(s, t, plain, rec, accepted), t, {})
  {
  }

  lemma DeliverArrays(s: Sys, t: Tid, k: Completion)
    requires t in s.tasks && t in s.asked && TaskInv(s, t, s.tasks[t], s.asked[t])
    requires Honest(s, Deliver(t, k)) && Arrs(s.tasks[t]) <= s.arrays.Keys
    ensures ArrayEffect(s, Step(s, Deliver(t, k)), t, AbandonedArrays(s, Deliver(t, k)))
  {
    match s.tasks[t]
    case SglFlying(call, rec, arr) => DeliverSglArrays(s, t, call, rec, arr, k);
    case PlainFlying(plain, rec) => DeliverPlainArrays(s, t, plain, rec, k);
    case _ =>
  }

  lemma RoundArrays(s: Sys, t: Tid, done: Option<Done>)
    requires t in s.tasks && Arrs(s.tasks[t]) <= s.arrays.Keys && TaskInv(s, t, s.tasks[t], done)
    ensures ArrayEffect(s, Step(s, Drain(t)), t, {})
  {
    if s.tasks[t].Draining? {
      var Draining(r, next, k) := s.tasks[t];
      DrainArrays(s, t, r, next, k, done.value);
      assert Step(s, Drain(t)) == StepDrain(s, t, r, next, k);
    } else {
      assert Step(s, Drain(t)) == s;
    }
  }

  lemma TaskArrays(s: Sys, e: Event)
    requires Honest(s, e) && !e.StartCall? && !e.StartPlain?
    requires e.t in s.tasks && e.t in s.asked && TaskInv(s, e.t, s.tasks[e.t], s.asked[e.t])
    ensures ArrayEffect(s, Step(s, e), e.t, AbandonedArrays(s, e))
  {
    HoldingsExist(s, e.t, s.tasks[e.t], s.asked[e.t]);
    match e
    case Work(t, wish) => WorkArrays(s, t, wish);
    case SyncDone(t, ok) => SyncArrays(s, t, ok);
    case AllocRecord(t, p) => RecordArrays(s, t, p);
    case AllocArray(t, p) => AllocArrays(s, t, p, s.asked[t]);
    case Post(t, accepted) => PostArrays(s, t, accepted, s.asked[t]);
    case Deliver(t, k) => DeliverArrays(s, t, k);
    case Drain(t) => RoundArrays(s, t, s.asked[t]);
  }

  /** Every array a task holds exists, and no two tasks hold the same. */
  ghost predicate ArraysHeld(s: Sys) {
    && (forall t :: t in s.tasks ==> Arrs(s.tasks[t]) <= s.arrays.Keys)
    && (forall t, u :: t in s.tasks && u in s.tasks && t != u ==> Arrs(s.tasks[t]) !! Arrs(s.tasks[u]))
  }

  lemma InvHoldsArrays(s: Sys)
    requires Inv(s)
    ensures ArraysHeld(s)
  {
    forall t | t in s.tasks
      ensures Arrs(s.tasks[t]) <= s.arrays.Keys
    {
      HoldingsExist(s, t, s.tasks[t], s.asked[t]);
    }
    forall t, u | t in s.tasks && u in s.tasks && t != u
      ensures Arrs(s.tasks[t]) !! Arrs(s.tasks[u])
    {
      assert Apart2(s, s.tasks[t], s.tasks[u]);
    }
  }

  /** Array `p` belongs to a task other than `t`. */
  ghost predicate ArrayElsewhere(s: Sys, t: Tid, p: Ptr) {
    exists u :: u in s.tasks && u != t && p in Arrs(s.tasks[u])
  }

  lemma ArraysSplit(s: Sys, t: Tid, p: Ptr)
    ensures p in AllArrays(s) <==> ArrayElsewhere(s, t, p) || p in Arrs(TaskOf(s, t))
  {
    if p in Arrs(TaskOf(s, t)) {
      assert t in s.tasks && p in Arrs(s.tasks[t]);
    }
  }

  lemma NotMine(s: Sys, t: Tid, p: Ptr)
    requires ArraysHeld(s) && ArrayElsewhere(s, t, p)
    ensures p in s.arrays && p !in Arrs(TaskOf(s, t))
  {
    var u :| u in s.tasks && u != t && p in Arrs(s.tasks[u]);
    assert p in Arrs(s.tasks[u]) && Arrs(s.tasks[u]) <= s.arrays.Keys;
  }

  /** Only task `t` differs. */
  ghost predicate Moved(s: Sys, s': Sys, t: Tid) {
    s'.tasks == s.tasks || (t in s'.tasks && s'.tasks == s.tasks[t := s'.tasks[t]])
  }

  lemma SameElsewhere(s: Sys, s': Sys, t: Tid, p: Ptr)
    requires Moved(s, s', t)
    ensures ArrayElsewhere(s', t, p) <==> ArrayElsewhere(s, t, p)
  {
    if ArrayElsewhere(s', t, p) {
      var u :| u in s'.tasks && u != t && p in Arrs(s'.tasks[u]);
      assert u in s.tasks && p in Arrs(s.tasks[u]);
    }
    if ArrayElsewhere(s, t, p) {
      var u :| u in s.tasks && u != t && p in Arrs(s.tasks[u]);
      assert u in s'.tasks && p in Arrs(s'.tasks[u]);
    }
  }

  lemma ArraysBalance(s: Sys, s': Sys, t: Tid, lost: set<Ptr>)
    requires ArraysHeld(s) && ArraysHeld(s') && Moved(s, s', t) && ArrayEffect(s, s', t, lost)
    ensures UnownedArrays(s') == UnownedArrays(s) + lost && UnownedArrays(s) !! lost
  {
    forall p
      ensures p in UnownedArrays(s') <==> p in UnownedArrays(s) || p in lost
      ensures !(p in UnownedArrays(s) && p in lost)
    {
      ArraysSplit(s, t, p);
      ArraysSplit(s', t, p);
      SameElsewhere(s, s', t, p);
      assert p in s'.arrays.Keys <==>
        (p in s.arrays.Keys && p !in Arrs(TaskOf(s, t))) || p in Arrs(TaskOf(s', t)) || p in lost;
      if ArrayElsewhere(s, t, p) {
        NotMine(s, t, p);
        NotMine(s', t, p);
      } else if p in Arrs(TaskOf(s, t)) {
        assert t in s.tasks;
      }
    }
  }

  /** A step adds to the arrays without an owner exactly the one it abandons. */
  lemma StepArrayLedger(s: Sys, e: Event)
    requires Inv(s) && Honest(s, e)
    ensures UnownedArrays(Step(s, e)) == UnownedArrays(s) + AbandonedArrays(s, e)
    ensures UnownedArrays(s) !! AbandonedArrays(s, e)
  {
    if e.StartCall? || e.StartPlain? || e.t in s.tasks {
      StepHoldsArrays(s, e);
      StepMoves(s, e);
      StepArrays(s, e);
      ArraysBalance(s, Step(s, e), e.t, AbandonedArrays(s, e));
    }
  }

  lemma StepHoldsArrays(s: Sys, e: Event)
    requires Inv(s) && Honest(s, e)
    ensures ArraysHeld(s) && ArraysHeld(Step(s, e))
  {
    StepKeeps(s, e);
    InvHoldsArrays(s);
    InvHoldsArrays(Step(s, e));
  }

  lemma StepArrays(s: Sys, e: Event)
    requires Inv(s) && Honest(s, e) && (e.StartCall? || e.StartPlain? || e.t in s.tasks)
    ensures ArrayEffect(s, Step(s, e), e.t, AbandonedArrays(s, e))
  {
    if e.StartCall? || e.StartPlain? {
      InvHoldsArrays(s);
      StartArrays(s, e);
    } else {
      TaskArrays(s, e);
    }
  }

  lemma StartArrays(s: Sys, e: Event)
    requires (e.StartCall? || e.StartPlain?) && ArraysHeld(s)
    ensures ArrayEffect(s, Step(s, e), e.t, {})
  {
  }

  lemma StepMoves(s: Sys, e: Event)
    requires Inv(s) && Honest(s, e)
    ensures Moved(s, Step(s, e), e.t)
  {
    if e.StartCall? || e.StartPlain? {
      StartMoves(s, e);
    } else if e.t in s.tasks {
      TaskStepEffect(s, e);
      TaskMoves(s, e);
    }
  }

  lemma StartMoves(s: Sys, e: Event)
    requires e.StartCall? || e.StartPlain?
    ensures Moved(s, Step(s, e), e.t)
  {
  }

  lemma TaskMoves(s: Sys, e: Event)
    requires !e.StartCall? && !e.StartPlain? && Harmless(s, e)
    ensures Moved(s, Step(s, e), e.t)
  {
    if Step(s, e) != s {
      EffectMoves(s, Step(s, e), e.t, Abandoned(s, e));
    }
  }

  lemma EffectMoves(s: Sys, s': Sys, t: Tid, lost: set<nat>)
    requires Effect(s, s', t, lost)
    ensures Moved(s, s', t)
  {
  }

  /** Over every run the arrays without an owner are the initial ones and those given up by failing getters. */
  lemma {:induction false} RunArrayLedger(s: Sys, events: seq<Event>)
    requires Inv(s) && AllHonest(s, events)
    ensures UnownedArrays(Exec(s, events)) == UnownedArrays(s) + GivenUpArrays(s, events)
  {
    if events != [] {
      var front, last := events[..|events| - 1], events[|events| - 1];
      RunArrayLedger(s, front);
      RunKeeps(s, front);
      StepArrayLedger(Exec(s, front), last);
    }
  }
}
