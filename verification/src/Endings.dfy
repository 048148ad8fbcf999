/** How every accepted request ends, in whatever order the library and other callers go on. */
module Endings {
  import opened Machine
  import opened Pool
  import opened PackMachine
  import opened Protocol
  import opened ProtocolInvariant
  import opened ProtocolSteps
  import opened ProtocolRuns

  /** The rounds OckRpcCallbackFunc has still to make for a delivered completion. */
  function DrainsLeft(task: Task): nat {
    match task
    case Draining(r, next, _) =>
      1 + if r.reqAddr.Set? && r.reqAddr.value != 0 && r.reqCnt.Set? && next <= r.reqCnt.value
          then r.reqCnt.value - next else 0
    case _ => 0
  }

  function Drains(events: seq<Event>, t: Tid): nat {
    if events == [] then 0
    else Drains(events[..|events| - 1], t) + if events[|events| - 1] == Drain(t) then 1 else 0
  }

  function AskedOf(s: Sys, t: Tid): Option<Done> {
    if t in s.asked then s.asked[t] else None
  }

  /** The request is with the channel: accepted and not delivered. */
  predicate Flying(s: Sys, t: Tid) {
    TaskOf(s, t).SglFlying? || TaskOf(s, t).PlainFlying?
  }

  function EndOfCallback(asked: Option<Done>): End {
    if asked.None? || asked.value.cb == 0 then NullCallback else Ran
  }

  /** How a request ends once completion `k` has been delivered for it. */
  function EndFor(task: Task, asked: Option<Done>, k: Completion): End {
    if !k.getters && !(task.PlainFlying? && task.plain.Reply?) then GettersFailed else EndOfCallback(asked)
  }

  /** The response a request is given: the reply, if it named a place for one. */
  function ResponseFor(task: Task, k: Completion): Option<Bytes> {
    match task
    case SglFlying(call, _, _) => if call.req.rsp == 0 then None else Some(k.reply)
    case PlainFlying(TwoSided(_, rsp), _) => if rsp == 0 then None else Some(k.reply)
    case _ => None
  }

  /** What the user's callback must be told. */
  function ReportFor(t: Tid, task: Task, asked: Option<Done>, k: Completion): DoneCall {
    var done := if asked.Some? then asked.value else Done(0, 0);
    DoneCall(t, done.cb, done.arg, StatusOf(k), ResponseFor(task, k))
  }

  /** What the callback is told by a completion under way. */
  function ReportOf(t: Tid, r: Record, k: Completion): DoneCall
    requires r.cb.Set? && r.arg.Set? && r.rsp.Set?
  {
    DoneCall(t, r.cb.value, r.arg.value, k.result, if r.rsp.value == 0 then None else Some(k.reply))
  }

  /** A request under delivery that will end as `end`, by then with `report` made if its callback runs. */
  predicate Heading(s: Sys, t: Tid, end: End, report: DoneCall) {
    match TaskOf(s, t)
    case Ended(e) => e == end && (end == Ran ==> report in s.log)
    case Draining(r, _, k) =>
      && end == EndOfCallback(AskedOf(s, t))
      && r.cb.Set? && r.arg.Set? && r.rsp.Set? && report == ReportOf(t, r, k)
    case _ => false
  }

  // Events that leave the request where it is

  lemma EffectMovesOne(s: Sys, s': Sys, t: Tid, lost: set<Addr>, u: Tid)
    requires Effect(s, s', t, lost) && LogEffect(s, s', t) && u != t
    ensures forall d :: d in s.log ==> d in s'.log
    ensures TaskOf(s', u) == TaskOf(s, u) && AskedOf(s', u) == AskedOf(s, u)
    ensures u in s'.tasks <==> u in s.tasks
  {
  }

  lemma StartMovesOne(s: Sys, e: Event, u: Tid)
    requires (e.StartCall? || e.StartPlain?) && u != e.t
    ensures Step(s, e).log == s.log
    ensures TaskOf(Step(s, e), u) == TaskOf(s, u) && AskedOf(Step(s, e), u) == AskedOf(s, u)
    ensures u in Step(s, e).tasks <==> u in s.tasks
  {
  }

  lemma MovesOne(s: Sys, e: Event, u: Tid)
    requires Inv(s) && Honest(s, e) && u != e.t
    ensures forall d :: d in s.log ==> d in Step(s, e).log
    ensures TaskOf(Step(s, e), u) == TaskOf(s, u) && AskedOf(Step(s, e), u) == AskedOf(s, u)
    ensures u in Step(s, e).tasks <==> u in s.tasks
  {
    if e.StartCall? || e.StartPlain? {
      StartMovesOne(s, e, u);
    } else if e.t in s.tasks {
      TaskStepEffect(s, e);
      if Step(s, e) != s {
        EffectMovesOne(s, Step(s, e), e.t, Abandoned(s, e), u);
      }
    }
  }

  lemma OutOfPhase(s: Sys, e: Event)
    requires e.t in s.tasks && (s.tasks[e.t].Draining? || s.tasks[e.t].Ended?) && e != Drain(e.t)
    ensures Step(s, e) == s
  {
  }

  lemma OthersDoNotMove(s: Sys, e: Event, t: Tid, end: End, report: DoneCall)
    requires Inv(s) && Honest(s, e) && t in s.tasks && Heading(s, t, end, report) && e != Drain(t)
    ensures t in Step(s, e).tasks && Heading(Step(s, e), t, end, report) && TaskOf(Step(s, e), t) == TaskOf(s, t)
  {
    if e.t == t {
      OutOfPhase(s, e);
    } else {
      MovesOne(s, e, t);
    }
  }

  // The rounds of the callback

  lemma DrainRound(s: Sys, t: Tid, r: Record, next: nat, k: Completion, done: Done)
    requires t in s.tasks && s.tasks[t] == Draining(r, next, k) && DrainInv(s, r, next, done)
    ensures var s' := StepDrain(s, t, r, next, k);
      && s'.asked == s.asked && t in s'.tasks
      && s'.tasks[t] == (if DrainsLeft(s.tasks[t]) == 1 then Ended(EndOfCallback(Some(done)))
                        else Draining(r, next + 1, k))
      && s'.log == if DrainsLeft(s.tasks[t]) == 1 && done.cb != 0 then s.log + [ReportOf(t, r, k)] else s.log
  {
    if DrainsLeft(s.tasks[t]) == 1 {
      FinishEffect(if r.reqAddr.value == 0 then s else FreeArray(s, r.reqAddr.value), t, r, k, done);
    }
  }

  lemma DrainMoves(s: Sys, t: Tid, end: End, report: DoneCall)
    requires t in s.tasks && t in s.asked && TaskInv(s, t, s.tasks[t], s.asked[t]) && Heading(s, t, end, report)
    ensures var s' := Step(s, Drain(t));
      && t in s'.tasks && Heading(s', t, end, report)
      && DrainsLeft(TaskOf(s', t)) == if DrainsLeft(TaskOf(s, t)) == 0 then 0 else DrainsLeft(TaskOf(s, t)) - 1
  {
    if s.tasks[t].Draining? {
      var Draining(r, next, k) := s.tasks[t];
      assert Step(s, Drain(t)) == StepDrain(s, t, r, next, k);
      DrainRound(s, t, r, next, k, s.asked[t].value);
    } else {
      assert Step(s, Drain(t)) == s;
    }
  }

  /** Any run in which the callback gets its rounds brings the request to its end. */
  lemma {:induction false} DrainsFinish(s: Sys, events: seq<Event>, t: Tid, end: End, report: DoneCall)
    requires Inv(s) && AllHonest(s, events) && t in s.tasks && Heading(s, t, end, report)
    ensures var s' := Exec(s, events);
      && t in s'.tasks && Heading(s', t, end, report)
      && DrainsLeft(TaskOf(s', t)) ==
         if Drains(events, t) < DrainsLeft(TaskOf(s, t)) then DrainsLeft(TaskOf(s, t)) - Drains(events, t) else 0
  {
    if events != [] {
      var front, last := events[..|events| - 1], events[|events| - 1];
      DrainsFinish(s, front, t, end, report);
      if last == Drain(t) {
        TaskKept(s, front, t);
        DrainMoves(Exec(s, front), t, end, report);
      } else {
        RunKeeps(s, front);
        OthersDoNotMove(Exec(s, front), last, t, end, report);
      }
    }
  }

  // Delivery

  lemma DeliverSglHeads(s: Sys, t: Tid, call: Call, rec: Ptr, arr: Ptr, k: Completion)
    requires t in s.tasks && s.tasks[t] == SglFlying(call, rec, arr) && t in s.asked
    requires TaskInv(s, t, s.tasks[t], s.asked[t]) && !k.oneSided
    ensures var s' := StepCallback(Arrive(s, t, k), t, rec, k);
      && t in s'.tasks
      && Heading(s', t, EndFor(s.tasks[t], s.asked[t], k), ReportFor(t, s.tasks[t], s.asked[t], k))
  {
  }

  lemma DeliverPlainHeads(s: Sys, t: Tid, plain: Plain, rec: Ptr, k: Completion)
    requires t in s.tasks && s.tasks[t] == PlainFlying(plain, rec) && t in s.asked
    requires TaskInv(s, t, s.tasks[t], s.asked[t]) && !plain.Reply? && (k.oneSided <==> plain.OneSided?)
    ensures var s' := StepCallback(Arrive(s, t, k), t, rec, k);
      && t in s'.tasks
      && Heading(s', t, EndFor(s.tasks[t], s.asked[t], k), ReportFor(t, s.tasks[t], s.asked[t], k))
  {
    if k.getters && k.oneSided {
      InvokeLogs(Arrive(s, t, k), t, s.records[rec], k.result, None, plain.done);
    }
  }

  lemma ReplyHeads(s: Sys, t: Tid, plain: Plain, rec: Ptr, k: Completion)
    requires t in s.tasks && s.tasks[t] == PlainFlying(plain, rec) && t in s.asked
    requires TaskInv(s, t, s.tasks[t], s.asked[t]) && plain.Reply?
    ensures var s' := StepResponse(Arrive(s, t, k), t, rec, k);
      && t in s'.tasks
      && Heading(s', t, EndFor(s.tasks[t], s.asked[t], k), ReportFor(t, s.tasks[t], s.asked[t], k))
  {
    if plain.orNull.Some? && plain.orNull.value.cb != 0 {
      ResponseRuns(s, t, plain, rec, k);
    }
  }

  lemma DeliverHeads(s: Sys, t: Tid, k: Completion)
    requires t in s.tasks && t in s.asked && TaskInv(s, t, s.tasks[t], s.asked[t])
    requires Flying(s, t) && Honest(s, Deliver(t, k))
    ensures t in Step(s, Deliver(t, k)).tasks
    ensures Heading(Step(s, Deliver(t, k)), t,
                    EndFor(s.tasks[t], s.asked[t], k), ReportFor(t, s.tasks[t], s.asked[t], k))
  {
    match s.tasks[t]
    case SglFlying(call, rec, arr) => DeliverSglHeads(s, t, call, rec, arr, k);
    case PlainFlying(plain, rec) =>
      if plain.Reply? {
        ReplyHeads(s, t, plain, rec, k);
      } else {
        DeliverPlainHeads(s, t, plain, rec, k);
      }
    case _ =>
  }

  lemma EndRuns(s: Sys, events: seq<Event>, t: Tid, end: End, report: DoneCall)
    requires Inv(s) && AllHonest(s, events)
    requires t in Exec(s, events).tasks && Heading(Exec(s, events), t, end, report)
    requires DrainsLeft(TaskOf(Exec(s, events), t)) == 0
    ensures end == Ran ==> report in Exec(s, events).log
    ensures TaskOf(Exec(s, events), t) == Ended(end)
    ensures Runs(Exec(s, events).log, t) == if end == Ran then 1 else 0
  {
    DoneRunsOnce(s, events, t);
  }

  lemma {:induction false} RunSplits(s: Sys, before: seq<Event>, after: seq<Event>)
    ensures Exec(s, before + after) == Exec(Exec(s, before), after)
    ensures AllHonest(s, before + after) <==> AllHonest(s, before) && AllHonest(Exec(s, before), after)
    decreases |after|
  {
    if after == [] {
      assert before + after == before;
    } else {
      var front := after[..|after| - 1];
      assert (before + after)[..|before + after| - 1] == before + front;
      RunSplits(s, before, front);
    }
  }

  lemma RunSplitsAt(s: Sys, before: seq<Event>, e: Event, after: seq<Event>)
    requires AllHonest(s, before + [e] + after)
    ensures AllHonest(s, before) && Honest(Exec(s, before), e) && AllHonest(Step(Exec(s, before), e), after)
    ensures Exec(s, before + [e] + after) == Exec(Step(Exec(s, before), e), after)
  {
    RunSplits(s, before + [e], after);
    assert (before + [e])[..|before|] == before;
  }

  lemma DeliveredHeads(s: Sys, t: Tid, k: Completion)
    requires Inv(s) && Flying(s, t) && Honest(s, Deliver(t, k))
    ensures var s1 := Step(s, Deliver(t, k));
      && Inv(s1) && t in s1.tasks
      && Heading(s1, t, EndFor(TaskOf(s, t), AskedOf(s, t), k), ReportFor(t, TaskOf(s, t), AskedOf(s, t), k))
  {
    assert t in s.tasks && t in s.asked && TaskInv(s, t, s.tasks[t], s.asked[t]);
    StepKeeps(s, Deliver(t, k));
    DeliverHeads(s, t, k);
  }

  /**
   A request the channel accepted and completes, at any point of any run: once the
   callback has made its rounds, interleaved with anything else, the request has ended in
   the one way the completion determines, and the user's callback has run exactly once,
   with the status and response of that completion, or, for failing getters or no
   callback, not at all.
   */
  lemma CompletionReached(s: Sys, before: seq<Event>, t: Tid, k: Completion, after: seq<Event>)
    requires Inv(s) && AllHonest(s, before + [Deliver(t, k)] + after)
    ensures var sent := Exec(s, before);
      var s' := Exec(s, before + [Deliver(t, k)] + after);
      var end := EndFor(TaskOf(sent, t), AskedOf(sent, t), k);
      Flying(sent, t) && DrainsLeft(TaskOf(Step(sent, Deliver(t, k)), t)) <= Drains(after, t) ==>
        && TaskOf(s', t) == Ended(end)
        && Runs(s'.log, t) == (if end == Ran then 1 else 0)
        && (end == Ran ==> ReportFor(t, TaskOf(sent, t), AskedOf(sent, t), k) in s'.log)
  {
    RunSplitsAt(s, before, Deliver(t, k), after);
    RunKeeps(s, before);
    var sent := Exec(s, before);
    var s1 := Step(sent, Deliver(t, k));
    if Flying(sent, t) && DrainsLeft(TaskOf(s1, t)) <= Drains(after, t) {
      var end := EndFor(TaskOf(sent, t), AskedOf(sent, t), k);
      var report := ReportFor(t, TaskOf(sent, t), AskedOf(sent, t), k);
      DeliveredHeads(sent, t, k);
      DrainsFinish(s1, after, t, end, report);
      EndRuns(s1, after, t, end, report);
    }
  }
}
