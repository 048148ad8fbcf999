/** What every step of the protocol keeps, whichever request it belongs to. */
module ProtocolInvariant {
  import opened Machine
  import opened Pool
  import opened PackMachine
  import opened PackInvariant
  import opened Protocol

  ghost predicate SglInv(s: Sys, call: Call, done: Option<Done>) {
    call.pc.Packed? && CallInv(call, s.heap) && SafeReq(call.req) && done.Some? && call.req.done == done
  }

  /** The record and the address array of a request about to be posted or accepted. */
  ghost predicate SglOwned(s: Sys, call: Call, rec: Ptr, arr: Ptr, done: Done) {
    && rec in s.records
    && s.records[rec] == SglRecordLate(SglRecordEarly(s.client, done, call.sgl), arr, call.req.rsp)
    && arr != 0 && arr in s.arrays && s.arrays[arr] == AddrSeq(call.sgl)
  }

  ghost predicate PlainInv(plain: Plain, done: Option<Done>) {
    PlainDone(plain) == done && (plain.OneSided? ==> plain.done.cb != 0)
  }

  /** The addresses from `next` on are live blocks, each listed once. */
  ghost predicate ToFree(heap: Heap, addrs: seq<Addr>, next: nat) {
    && next <= |addrs|
    && (forall i :: next <= i < |addrs| ==> addrs[i] in heap.live)
    && (forall i, j :: next <= i < j < |addrs| ==> addrs[i] != addrs[j])
  }

  ghost predicate DrainInv(s: Sys, r: Record, next: nat, done: Done) {
    && r.cb == Set(done.cb) && r.arg == Set(done.arg) && r.rsp.Set?
    && ((r.reqAddr == Set(0) && next == 0)
        || (&& r.client == Set(s.client)
            && r.reqAddr.Set? && r.reqAddr.value != 0 && r.reqAddr.value in s.arrays
            && r.reqCnt == Set(|s.arrays[r.reqAddr.value]|)
            && ToFree(s.heap, s.arrays[r.reqAddr.value], next)))
  }

  ghost predicate TaskInv(s: Sys, t: Tid, task: Task, done: Option<Done>) {
    match task
    case Packing(call) => CallInv(call, s.heap) && SafeReq(call.req) && call.req.done == done
    case SglRecord(call, rec) =>
      && SglInv(s, call, done)
      && rec in s.records && s.records[rec] == SglRecordEarly(s.client, done.value, call.sgl)
    case SglReady(call, rec, arr) => SglInv(s, call, done) && SglOwned(s, call, rec, arr, done.value)
    case SglFlying(call, rec, arr) => SglInv(s, call, done) && SglOwned(s, call, rec, arr, done.value)
    case PlainStart(plain) => PlainInv(plain, done)
    case PlainReady(plain, rec) => PlainInv(plain, done) && rec in s.records && s.records[rec] == PlainRecord(plain)
    case PlainFlying(plain, rec) => PlainInv(plain, done) && rec in s.records && s.records[rec] == PlainRecord(plain)
    case Draining(r, next, k) =>
      done.Some? && DrainInv(s, r, next, done.value) && t in s.delivered && s.delivered[t] == k && k.getters
    case Ended(end) =>
      && end != Faulted
      && (end == Ran ==> done.Some? && done.value.cb != 0)
      && (end == NullCallback ==> done.None? || done.value.cb == 0)
  }

  /** Where a call stands; one that has not started counts as ended. */
  function TaskOf(s: Sys, t: Tid): Task {
    if t in s.tasks then s.tasks[t] else Ended(NotSent)
  }

  ghost predicate Separate(s: Sys) {
    forall t, u :: t in s.tasks && u in s.tasks && t != u ==> Apart2(s, s.tasks[t], s.tasks[u])
  }

  ghost predicate Apart2(s: Sys, a: Task, b: Task) {
    Blocks(s, a) !! Blocks(s, b) && Recs(a) !! Recs(b) && Arrs(a) !! Arrs(b)
  }

  /** The status a completion stands for: OCK_RPC_OK when it cannot be read. */
  function StatusOf(k: Completion): int {
    if k.getters then k.result else 0
  }

  /** A log entry repeats what the caller asked for and what the library delivered. */
  ghost predicate Faithful(d: DoneCall, asked: Option<Done>, k: Completion) {
    && asked == Some(Done(d.cb, d.arg))
    && d.status == StatusOf(k)
    && (d.response.Some? ==> d.response.value == k.reply)
  }

  /** The log names each call at most once, with what was asked and delivered. */
  ghost predicate LogInv(s: Sys) {
    && (forall i :: 0 <= i < |s.log| ==>
          && s.log[i].t in s.tasks && s.tasks[s.log[i].t] == Ended(Ran)
          && s.log[i].t in s.asked && s.log[i].t in s.delivered
          && Faithful(s.log[i], s.asked[s.log[i].t], s.delivered[s.log[i].t]))
    && (forall i, j :: 0 <= i < j < |s.log| ==> s.log[i].t != s.log[j].t)
    && (forall t :: t in s.tasks && s.tasks[t] == Ended(Ran) ==> exists i :: 0 <= i < |s.log| && s.log[i].t == t)
  }

  ghost predicate Inv(s: Sys) {
    && s.heap.Valid() && s.heap.badFrees == 0 && s.heap.wildWrites == 0 && s.faults == 0
    && s.asked.Keys == s.tasks.Keys
    && (forall t :: t in s.tasks ==> TaskInv(s, t, s.tasks[t], s.asked[t]))
    && Separate(s)
    && (forall p :: p in s.records ==> exists t :: t in s.tasks && p in Recs(s.tasks[t]))
    && LogInv(s)
  }

  // One step, seen from outside its own task

  /**
   Between `s` and `s'` only task `t` moved: it touched its own blocks, record and
   array, took over fresh ones and gave up the blocks `lost`.
   */
  ghost predicate Effect(s: Sys, s': Sys, t: Tid, lost: set<Addr>) {
    var before, after := TaskOf(s, t), TaskOf(s', t);
    && s'.client == s.client
    && t in s'.tasks && s'.tasks == s.tasks[t := after]
    && t in s'.asked && s'.asked == s.asked[t := s'.asked[t]]
    && Blocks(s', after) !! lost
    && Frame(s.heap, s'.heap, Blocks(s, before), Blocks(s', after) + lost)
    && s'.heap.badFrees == s.heap.badFrees && s'.heap.wildWrites == s.heap.wildWrites
    && s'.faults == s.faults
    && (forall u :: u != t && u in s.delivered ==> u in s'.delivered && s'.delivered[u] == s.delivered[u])
    && TaskInv(s', t, after, s'.asked[t])
    && (forall p :: p in s.records && p !in Recs(before) ==> p in s'.records && s'.records[p] == s.records[p])
    && s'.records.Keys == (s.records.Keys - Recs(before)) + Recs(after)
    && Recs(after) !! (s.records.Keys - Recs(before))
    && (forall p :: p in s.arrays && p !in Arrs(before) ==> p in s'.arrays && s'.arrays[p] == s.arrays[p])
    && Arrs(after) !! (s.arrays.Keys - Arrs(before))
  }

  /** The log is untouched, or got one entry for `t`, which thereby ended. */
  ghost predicate LogEffect(s: Sys, s': Sys, t: Tid) {
    var after := TaskOf(s', t);
    && TaskOf(s, t) != Ended(Ran)
    && t in s'.asked && (t in s.tasks ==> s'.asked == s.asked)
    && if after == Ended(Ran) then
         && t in s'.delivered
         && exists d: DoneCall :: s'.log == s.log + [d] && d.t == t && Faithful(d, s'.asked[t], s'.delivered[t])
       else s'.log == s.log
  }

  /** What a task holds exists. */
  lemma HoldingsExist(s: Sys, t: Tid, task: Task, done: Option<Done>)
    requires TaskInv(s, t, task, done)
    ensures Blocks(s, task) <= s.heap.live.Keys && Recs(task) <= s.records.Keys && Arrs(task) <= s.arrays.Keys
  {
    match task
    case Packing(call) => HeldLive(call, s.heap);
    case SglRecord(call, _) => HeldLive(call, s.heap);
    case SglReady(call, _, _) => HeldLive(call, s.heap);
    case SglFlying(call, _, _) => HeldLive(call, s.heap);
    case _ =>
  }

  /** A step that stays off a task's holdings keeps its invariant. */
  lemma TaskInvFramed(s: Sys, s': Sys, t: Tid, task: Task, done: Option<Done>, mine: set<Addr>, mine': set<Addr>)
    requires s'.client == s.client && s.heap.Valid() && Frame(s.heap, s'.heap, mine, mine')
    requires TaskInv(s, t, task, done) && Blocks(s, task) !! mine
    requires t in s.delivered ==> t in s'.delivered && s'.delivered[t] == s.delivered[t]
    requires forall p :: p in Recs(task) ==> p in s.records && p in s'.records && s'.records[p] == s.records[p]
    requires forall p :: p in Arrs(task) ==> p in s.arrays && p in s'.arrays && s'.arrays[p] == s.arrays[p]
    ensures TaskInv(s', t, task, done) && Blocks(s', task) == Blocks(s, task)
  {
    match task
    case Packing(call) => CallInvFramed(call, s.heap, s'.heap, mine, mine');
    case SglRecord(call, _) => CallInvFramed(call, s.heap, s'.heap, mine, mine');
    case SglReady(call, _, _) => CallInvFramed(call, s.heap, s'.heap, mine, mine');
    case SglFlying(call, _, _) => CallInvFramed(call, s.heap, s'.heap, mine, mine');
    case Draining(r, next, _) => DrainFramed(s, s', r, next, done.value, mine, mine');
    case _ =>
  }

  lemma DrainFramed(s: Sys, s': Sys, r: Record, next: nat, done: Done, mine: set<Addr>, mine': set<Addr>)
    requires s'.client == s.client && Frame(s.heap, s'.heap, mine, mine')
    requires DrainInv(s, r, next, done)
    requires r.reqAddr.value != 0 ==>
      r.reqAddr.value in s'.arrays && s'.arrays[r.reqAddr.value] == s.arrays[r.reqAddr.value]
    requires r.reqAddr.value != 0 ==> Rest(s.arrays[r.reqAddr.value], next) !! mine
    ensures DrainInv(s', r, next, done)
  {
    if r.reqAddr.value != 0 {
      var addrs := s.arrays[r.reqAddr.value];
      forall i | next <= i < |addrs|
        ensures addrs[i] in s'.heap.live
      {
        assert addrs[i] in Rest(addrs, next);
        assert Untouched(s.heap, s'.heap, addrs[i]);
      }
    }
  }

  // Two tasks

  lemma SetsApart(all: set<nat>, mine: set<nat>, mine': set<nat>, theirs: set<nat>)
    requires theirs <= all && theirs !! mine && mine' !! (all - mine)
    ensures theirs !! mine'
  {
  }

  /** What task `u`, other than the mover `t`, keeps through the step. */
  ghost predicate Bystander(s: Sys, s': Sys, t: Tid, u: Tid, lost: set<Addr>)
    requires t in s'.tasks && u in s.tasks && u in s.asked
  {
    var task := s.tasks[u];
    && TaskInv(s', u, task, s.asked[u])
    && Blocks(s', task) == Blocks(s, task)
    && Blocks(s, task) !! lost
    && Apart2(s', task, s'.tasks[t])
  }

  lemma Undisturbed(s: Sys, s': Sys, t: Tid, u: Tid, lost: set<Addr>)
    requires Effect(s, s', t, lost)
    requires u in s.tasks && u != t && u in s.asked
    requires s.heap.Valid() && TaskInv(s, u, s.tasks[u], s.asked[u])
    requires Apart2(s, s.tasks[u], TaskOf(s, t))
    ensures Bystander(s, s', t, u, lost)
  {
    var task, before, after := s.tasks[u], TaskOf(s, t), TaskOf(s', t);
    HoldingsExist(s, u, task, s.asked[u]);
    TaskInvFramed(s, s', u, task, s.asked[u], Blocks(s, before), Blocks(s', after) + lost);
    SetsApart(s.heap.live.Keys, Blocks(s, before), Blocks(s', after) + lost, Blocks(s, task));
    SetsApart(s.records.Keys, Recs(before), Recs(after), Recs(task));
    SetsApart(s.arrays.Keys, Arrs(before), Arrs(after), Arrs(task));
  }

  lemma ApartFromMover(s: Sys, t: Tid, u: Tid)
    requires Separate(s) && u in s.tasks && u != t
    ensures Apart2(s, s.tasks[u], TaskOf(s, t))
  {
  }

  lemma AllUndisturbed(s: Sys, s': Sys, t: Tid, lost: set<Addr>)
    requires s.heap.Valid() && Separate(s) && s.asked.Keys == s.tasks.Keys && Effect(s, s', t, lost)
    requires forall u :: u in s.tasks ==> TaskInv(s, u, s.tasks[u], s.asked[u])
    ensures forall u :: u in s.tasks && u != t ==> Bystander(s, s', t, u, lost)
  {
    forall u | u in s.tasks && u != t
      ensures Bystander(s, s', t, u, lost)
    {
      ApartFromMover(s, t, u);
      Undisturbed(s, s', t, u, lost);
    }
  }

  lemma SeparateKept(s: Sys, s': Sys, t: Tid, lost: set<Addr>)
    requires s'.tasks == s.tasks[t := TaskOf(s', t)] && t in s'.tasks
    requires s.asked.Keys == s.tasks.Keys
    requires Separate(s)
    requires forall u :: u in s.tasks && u != t ==> Bystander(s, s', t, u, lost)
    ensures Separate(s')
  {
    forall u, v | u in s'.tasks && v in s'.tasks && u != v
      ensures Apart2(s', s'.tasks[u], s'.tasks[v])
    {
      if u == t {
        assert Bystander(s, s', t, v, lost);
      } else if v == t {
        assert Bystander(s, s', t, u, lost);
      } else {
        assert Bystander(s, s', t, u, lost) && Bystander(s, s', t, v, lost);
        assert Apart2(s, s.tasks[u], s.tasks[v]);
      }
    }
  }

  lemma LogKept(s: Sys, s': Sys, t: Tid)
    requires LogInv(s) && LogEffect(s, s', t)
    requires forall u :: u != t && u in s.delivered ==> u in s'.delivered && s'.delivered[u] == s.delivered[u]
    requires s'.tasks == s.tasks[t := TaskOf(s', t)] && t in s'.tasks
    requires t in s'.asked && s'.asked == s.asked[t := s'.asked[t]] && s.asked.Keys == s.tasks.Keys
    ensures LogInv(s')
  {
    forall u | u in s'.tasks && s'.tasks[u] == Ended(Ran)
      ensures exists i :: 0 <= i < |s'.log| && s'.log[i].t == u
    {
      if u == t {
        assert s'.log[|s'.log| - 1].t == t;
      } else {
        var i :| 0 <= i < |s.log| && s.log[i].t == u;
        assert s'.log[i].t == u;
      }
    }
  }

  lemma RecordsKept(s: Sys, s': Sys, t: Tid)
    requires s'.tasks == s.tasks[t := TaskOf(s', t)] && t in s'.tasks
    requires forall p :: p in s.records ==> exists u :: u in s.tasks && p in Recs(s.tasks[u])
    requires s'.records.Keys == (s.records.Keys - Recs(TaskOf(s, t))) + Recs(TaskOf(s', t))
    ensures forall p :: p in s'.records ==> exists u :: u in s'.tasks && p in Recs(s'.tasks[u])
  {
    forall p | p in s'.records
      ensures exists u :: u in s'.tasks && p in Recs(s'.tasks[u])
    {
      if p in Recs(TaskOf(s', t)) {
        assert t in s'.tasks && p in Recs(s'.tasks[t]);
      } else {
        var u :| u in s.tasks && p in Recs(s.tasks[u]);
        assert u in s'.tasks && p in Recs(s'.tasks[u]);
      }
    }
  }

  // The ledger

  lemma OwnersOf(s: Sys, a: Addr)
    ensures a in AllBlocks(s) <==> exists t :: t in s.tasks && a in Blocks(s, s.tasks[t])
  {
  }

  /** Address `a` belongs to a task other than `t`. */
  ghost predicate OwnedElsewhere(s: Sys, t: Tid, a: Addr) {
    exists u :: u in s.tasks && u != t && a in Blocks(s, s.tasks[u])
  }

  lemma OwnersSplit(s: Sys, t: Tid, a: Addr)
    ensures a in AllBlocks(s) <==> OwnedElsewhere(s, t, a) || a in Blocks(s, TaskOf(s, t))
  {
    if a in Blocks(s, TaskOf(s, t)) {
      assert t in s.tasks && a in Blocks(s, s.tasks[t]);
    }
  }

  lemma ElsewhereKept(s: Sys, s': Sys, t: Tid, lost: set<Addr>, a: Addr)
    requires s'.tasks == s.tasks[t := TaskOf(s', t)] && t in s'.tasks && s.asked.Keys == s.tasks.Keys
    requires forall u :: u in s.tasks && u != t ==> Bystander(s, s', t, u, lost)
    ensures OwnedElsewhere(s', t, a) <==> OwnedElsewhere(s, t, a)
    ensures OwnedElsewhere(s, t, a) ==> a !in lost && a !in Blocks(s', s'.tasks[t])
  {
    if OwnedElsewhere(s, t, a) {
      var u :| u in s.tasks && u != t && a in Blocks(s, s.tasks[u]);
      assert Bystander(s, s', t, u, lost);
      assert u in s'.tasks && a in Blocks(s', s'.tasks[u]);
    }
    if OwnedElsewhere(s', t, a) {
      var u :| u in s'.tasks && u != t && a in Blocks(s', s'.tasks[u]);
      assert Bystander(s, s', t, u, lost);
      assert u in s.tasks && a in Blocks(s, s.tasks[u]);
    }
  }

  lemma LedgerBalances(s: Sys, s': Sys, t: Tid, lost: set<Addr>)
    requires s'.tasks == s.tasks[t := TaskOf(s', t)] && t in s'.tasks && s.asked.Keys == s.tasks.Keys
    requires Frame(s.heap, s'.heap, Blocks(s, TaskOf(s, t)), Blocks(s', TaskOf(s', t)) + lost)
    requires Blocks(s', TaskOf(s', t)) !! lost
    requires Blocks(s, TaskOf(s, t)) <= s.heap.live.Keys
    requires forall u :: u in s.tasks && u != t ==> Bystander(s, s', t, u, lost)
    requires forall a :: OwnedElsewhere(s, t, a) ==> a !in Blocks(s, TaskOf(s, t)) && a in s.heap.live
    ensures Unowned(s') == Unowned(s) + lost && Unowned(s) !! lost
    ensures forall a :: a in Unowned(s) ==> Untouched(s.heap, s'.heap, a)
  {
    forall a
      ensures a in Unowned(s') <==> a in Unowned(s) || a in lost
      ensures !(a in Unowned(s) && a in lost)
    {
      OwnersSplit(s, t, a);
      OwnersSplit(s', t, a);
      ElsewhereKept(s, s', t, lost, a);
    }
    forall a | a in Unowned(s)
      ensures Untouched(s.heap, s'.heap, a)
    {
      OwnersSplit(s, t, a);
    }
  }

  lemma Owned(s: Sys, t: Tid)
    requires Separate(s) && s.asked.Keys == s.tasks.Keys
    requires forall u :: u in s.tasks ==> TaskInv(s, u, s.tasks[u], s.asked[u])
    ensures Blocks(s, TaskOf(s, t)) <= s.heap.live.Keys
    ensures forall a :: OwnedElsewhere(s, t, a) ==> a !in Blocks(s, TaskOf(s, t)) && a in s.heap.live
  {
    if t in s.tasks {
      HoldingsExist(s, t, s.tasks[t], s.asked[t]);
    }
    forall a | OwnedElsewhere(s, t, a)
      ensures a !in Blocks(s, TaskOf(s, t)) && a in s.heap.live
    {
      var u :| u in s.tasks && u != t && a in Blocks(s, s.tasks[u]);
      OwnedByOther(s, t, u, a);
    }
  }

  lemma OwnedByOther(s: Sys, t: Tid, u: Tid, a: Addr)
    requires Separate(s) && u in s.tasks && u != t && u in s.asked && TaskInv(s, u, s.tasks[u], s.asked[u])
    requires a in Blocks(s, s.tasks[u])
    ensures a !in Blocks(s, TaskOf(s, t)) && a in s.heap.live
  {
    HoldingsExist(s, u, s.tasks[u], s.asked[u]);
    ApartFromMover(s, t, u);
  }

  lemma TasksKept(s: Sys, s': Sys, t: Tid, lost: set<Addr>)
    requires t in s'.tasks && s'.tasks == s.tasks[t := s'.tasks[t]] && s.asked.Keys == s.tasks.Keys
    requires t in s'.asked && s'.asked == s.asked[t := s'.asked[t]]
    requires TaskInv(s', t, s'.tasks[t], s'.asked[t])
    requires forall u :: u in s.tasks && u != t ==> Bystander(s, s', t, u, lost)
    ensures s'.asked.Keys == s'.tasks.Keys
    ensures forall u :: u in s'.tasks ==> TaskInv(s', u, s'.tasks[u], s'.asked[u])
  {
    forall u | u in s'.tasks
      ensures TaskInv(s', u, s'.tasks[u], s'.asked[u])
    {
      assert u != t ==> Bystander(s, s', t, u, lost);
    }
  }

  lemma EffectInv(s: Sys, s': Sys, t: Tid, lost: set<Addr>)
    requires Inv(s) && Effect(s, s', t, lost) && LogEffect(s, s', t)
    ensures Inv(s')
  {
    AllUndisturbed(s, s', t, lost);
    TasksKept(s, s', t, lost);
    SeparateKept(s, s', t, lost);
    RecordsKept(s, s', t);
    LogKept(s, s', t);
  }

  /** A step with this effect keeps the whole invariant, and the ledger of unowned blocks balances. */
  lemma EffectKeeps(s: Sys, s': Sys, t: Tid, lost: set<Addr>)
    requires Inv(s) && Effect(s, s', t, lost) && LogEffect(s, s', t)
    ensures Inv(s')
    ensures Unowned(s') == Unowned(s) + lost && Unowned(s) !! lost
    ensures forall a :: a in Unowned(s) ==> Untouched(s.heap, s'.heap, a)
  {
    EffectInv(s, s', t, lost);
    AllUndisturbed(s, s', t, lost);
    Owned(s, t);
    LedgerBalances(s, s', t, lost);
  }
}
