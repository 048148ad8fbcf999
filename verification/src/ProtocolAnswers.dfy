/**
 What each answer of malloc and of the channel does to a request under way, whoever
 else holds blocks, records and arrays at the time: where the request goes, what it
 still holds, and that nothing of anybody else's changes.
 */
module ProtocolAnswers {
  import opened Machine
  import opened Pool
  import opened PackMachine
  import opened PackInvariant
  import opened Protocol
  import opened ProtocolInvariant
  import opened ProtocolRuns

  /** malloc gave an address that is not null and not in use. */
  predicate Answered(s: Sys, p: Ptr) {
    p != 0 && p !in s.records && p !in s.arrays
  }

  /** Task `t` is now `task`; the pool, the callbacks run and everything asked and delivered are as they were. */
  predicate OnlyMoved(s: Sys, s': Sys, t: Tid, task: Task) {
    && s'.tasks == s.tasks[t := task]
    && s'.client == s.client && s'.heap == s.heap && s'.log == s.log && s'.faults == s.faults
    && s'.asked == s.asked && s'.delivered == s.delivered
  }

  /** `m'` is `m` with an entry for `p` if `there`, and apart from `p` the same. */
  predicate Entered<V(==)>(m: map<Ptr, V>, m': map<Ptr, V>, p: Ptr, there: bool) {
    m'.Keys == (if there then m.Keys + {p} else m.Keys) && m' - {p} == m - {p}
  }

  predicate Lists(addrs: seq<Addr>, sgl: Sgl) {
    |addrs| == sgl.iovCount <= 4 && forall k :: 0 <= k < |addrs| ==> addrs[k] == sgl.iov[k].lAddress
  }

  lemma Enters<V>(m: map<Ptr, V>, p: Ptr, v: V)
    ensures Entered(m, m[p := v], p, true) && Entered(m, m, p, false)
  {
  }

  // What a call starts with

  /** A checked call is taken up with the caller's request and callback; one that fails the checks is not. */
  lemma StartCallExact(s: Sys, t: Tid, req: Request)
    requires t !in s.tasks
    ensures var s' := Step(s, StartCall(t, req));
      if 1 <= |req.msgs| <= 8 && forall i :: 0 <= i < |req.msgs| ==> req.msgs[i].Len() <= req.seg
      then t in s'.tasks && s'.tasks[t].Packing? && s'.tasks[t].call.req == req && s'.asked == s.asked[t := req.done]
      else s' == s
  {
    assert Prechecked(req) <==>
      1 <= |req.msgs| <= 8 && forall i :: 0 <= i < |req.msgs| ==> req.msgs[i].Len() <= req.seg;
  }

  lemma StartPlainExact(s: Sys, t: Tid, plain: Plain)
    requires t !in s.tasks
    ensures var s' := Step(s, StartPlain(t, plain));
      && OnlyMoved(s, s'.(asked := s.asked), t, PlainStart(plain))
      && s'.records == s.records && s'.arrays == s.arrays
      && s'.asked == s.asked[t := if plain.Reply? then plain.orNull else Some(plain.done)]
  {
  }

  // The mallocs

  /** Exactly an answered malloc takes the request on; otherwise it ends, its record freed if it had one. */
  ghost predicate MallocDone(s: Sys, s': Sys, t: Tid, p: Ptr)
    requires t in s.tasks
  {
    var ok := Answered(s, p);
    match s.tasks[t]
    case PlainStart(plain) =>
      && OnlyMoved(s, s', t, if ok then PlainReady(plain, p) else Ended(NotSent))
      && Entered(s.records, s'.records, p, ok) && s'.arrays == s.arrays
    case Packing(call) => call.pc.Packed? && call.req.done.Some? ==>
      && OnlyMoved(s, s', t, if ok then SglRecord(call, p) else Ended(NotSent))
      && Entered(s.records, s'.records, p, ok) && s'.arrays == s.arrays
      && (ok ==> s'.records[p].client == Set(s.client))
    case SglRecord(call, rec) =>
      && OnlyMoved(s, s', t, if ok then SglReady(call, rec, p) else Ended(NotSent))
      && rec in s.records && s'.records - {rec} == s.records - {rec} && (rec in s'.records <==> ok)
      && Entered(s.arrays, s'.arrays, p, ok)
      && (ok ==> s'.records[rec].client == s.records[rec].client && Lists(s'.arrays[p], call.sgl))
    case _ => true
  }

  lemma PlainMalloc(s: Sys, t: Tid, plain: Plain, p: Ptr)
    requires t in s.tasks && s.tasks[t] == PlainStart(plain)
    ensures MallocDone(s, Step(s, AllocRecord(t, p)), t, p)
  {
    assert Step(s, AllocRecord(t, p)) == StepAllocPlain(s, t, plain, p);
    Enters(s.records, p, PlainRecord(plain));
  }

  lemma SglRecordMalloc(s: Sys, t: Tid, call: Call, p: Ptr)
    requires t in s.tasks && s.tasks[t] == Packing(call)
    ensures MallocDone(s, Step(s, AllocRecord(t, p)), t, p)
  {
    assert Step(s, AllocRecord(t, p)) == StepAllocRecord(s, t, call, p);
    if call.pc.Packed? && call.req.done.Some? {
      Enters(s.records, p, SglRecordEarly(s.client, call.req.done.value, call.sgl));
    }
  }

  lemma SglArrayGot(s: Sys, t: Tid, call: Call, rec: Ptr, p: Ptr)
    requires t in s.tasks && s.tasks[t] == SglRecord(call, rec) && Answered(s, p)
    requires rec in s.records && call.sgl.iovCount <= 4
    ensures MallocDone(s, StepAllocArray(s, t, call, rec, p), t, p)
  {
    Enters(s.arrays, p, AddrSeq(call.sgl));
  }

  lemma SglArrayRefused(s: Sys, t: Tid, call: Call, rec: Ptr, p: Ptr)
    requires t in s.tasks && s.tasks[t] == SglRecord(call, rec) && !Answered(s, p) && rec in s.records
    ensures MallocDone(s, StepAllocArray(s, t, call, rec, p), t, p)
  {
  }

  lemma SglArrayMalloc(s: Sys, t: Tid, call: Call, rec: Ptr, p: Ptr)
    requires t in s.tasks && t in s.asked && TaskInv(s, t, s.tasks[t], s.asked[t])
    requires s.tasks[t] == SglRecord(call, rec)
    ensures MallocDone(s, Step(s, AllocArray(t, p)), t, p)
  {
    assert Step(s, AllocArray(t, p)) == StepAllocArray(s, t, call, rec, p);
    if Answered(s, p) {
      SglArrayGot(s, t, call, rec, p);
    } else {
      SglArrayRefused(s, t, call, rec, p);
    }
  }

  lemma MallocAnswered(s: Sys, events: seq<Event>, t: Tid, p: Ptr)
    requires Inv(s) && AllHonest(s, events) && t in Exec(s, events).tasks
    ensures var now := Exec(s, events);
      MallocDone(now, Step(now, if now.tasks[t].SglRecord? then AllocArray(t, p) else AllocRecord(t, p)), t, p)
  {
    TaskKept(s, events, t);
    var now := Exec(s, events);
    match now.tasks[t]
    case PlainStart(plain) => PlainMalloc(now, t, plain, p);
    case Packing(call) => SglRecordMalloc(now, t, call, p);
    case SglRecord(call, rec) => SglArrayMalloc(now, t, call, rec, p);
    case _ =>
  }

  // The posts

  /**
   Exactly an accepted post is with the channel, its record and array kept for the
   callback; a rejected one has freed them.
   */
  ghost predicate PostDone(s: Sys, s': Sys, t: Tid, accepted: bool)
    requires t in s.tasks
  {
    match s.tasks[t]
    case PlainReady(plain, rec) =>
      && OnlyMoved(s, s', t, if accepted then PlainFlying(plain, rec) else Ended(NotSent))
      && rec in s.records && s'.records == (if accepted then s.records else s.records - {rec})
      && s'.arrays == s.arrays
    case SglReady(call, rec, arr) =>
      && OnlyMoved(s, s', t, if accepted then SglFlying(call, rec, arr) else Ended(NotSent))
      && rec in s.records && s'.records == (if accepted then s.records else s.records - {rec})
      && arr in s.arrays && s'.arrays == (if accepted then s.arrays else s.arrays - {arr})
    case _ => s' == s
  }

  lemma PlainPost(s: Sys, t: Tid, plain: Plain, rec: Ptr, accepted: bool)
    requires t in s.tasks && t in s.asked && TaskInv(s, t, s.tasks[t], s.asked[t])
    requires s.tasks[t] == PlainReady(plain, rec)
    ensures PostDone(s, Step(s, Post(t, accepted)), t, accepted)
  {
    assert Step(s, Post(t, accepted)) == StepPostPlain(s, t, plain, rec, accepted);
  }

  lemma SglPost(s: Sys, t: Tid, call: Call, rec: Ptr, arr: Ptr, accepted: bool)
    requires t in s.tasks && t in s.asked && TaskInv(s, t, s.tasks[t], s.asked[t])
    requires s.tasks[t] == SglReady(call, rec, arr)
    ensures PostDone(s, Step(s, Post(t, accepted)), t, accepted)
  {
    assert Step(s, Post(t, accepted)) == StepPostSgl(s, t, call, rec, arr, accepted);
  }

  lemma PostAnswered(s: Sys, events: seq<Event>, t: Tid, accepted: bool)
    requires Inv(s) && AllHonest(s, events) && t in Exec(s, events).tasks
    ensures PostDone(Exec(s, events), Step(Exec(s, events), Post(t, accepted)), t, accepted)
  {
    TaskKept(s, events, t);
    var now := Exec(s, events);
    match now.tasks[t]
    case PlainReady(plain, rec) => PlainPost(now, t, plain, rec, accepted);
    case SglReady(call, rec, arr) => SglPost(now, t, call, rec, arr, accepted);
    case _ =>
  }
}
