/** Safety over runs, with the condition on requests exact. */
module SafeRuns {
  import opened Pool
  import opened PackMachine
  import opened PackOutcome
  import opened Protocol
  import opened ProtocolInvariant
  import opened ProtocolRuns
  import opened SafeRequests
  import opened Solo

  /** What a caller may do although it should not: make this call, or this post. */
  datatype Odd = OddCall(req: Request) | OddPost(plain: Plain)

  /** It should after all. */
  predicate Fine(odd: Odd) {
    match odd
    case OddCall(req) => Prechecked(req) ==> SafeReq(req)
    case OddPost(plain) => plain.OneSided? ==> plain.done.cb != 0
  }

  /** Every event is as it should be, except for the odd one, which may come any number of times. */
  predicate HonestBut(s: Sys, events: seq<Event>, odd: Odd) {
    events == [] ||
    (HonestBut(s, events[..|events| - 1], odd)
     && MayHappen(Exec(s, events[..|events| - 1]), events[|events| - 1], odd))
  }

  predicate MayHappen(s: Sys, e: Event, odd: Odd) {
    Honest(s, e)
    || match odd
       case OddCall(req) => e.StartCall? && e.req == req
       case OddPost(plain) => e.StartPlain? && e.plain == plain
  }

  /** No misuse has happened, and every request's blocks are live and its own. */
  ghost predicate Sound(s: Sys) {
    && s.heap.badFrees == 0 && s.heap.wildWrites == 0 && s.faults == 0
    && (forall t :: t in s.tasks ==> Blocks(s, s.tasks[t]) <= s.heap.live.Keys)
    && (forall t, u :: t in s.tasks && u in s.tasks && t != u ==> Blocks(s, s.tasks[t]) !! Blocks(s, s.tasks[u]))
  }

  lemma {:induction false} SafeMakesHonest(s: Sys, events: seq<Event>, odd: Odd)
    requires HonestBut(s, events, odd) && Fine(odd)
    ensures AllHonest(s, events)
  {
    if events != [] {
      SafeMakesHonest(s, events[..|events| - 1], odd);
    }
  }

  lemma {:induction false} OwnEventsHonestBut(s: Sys, events: seq<Event>, odd: Odd)
    requires AllHonest(s, events)
    ensures HonestBut(s, events, odd)
  {
    if events != [] {
      OwnEventsHonestBut(s, events[..|events| - 1], odd);
    }
  }

  lemma {:induction false} HonestButFirst(s: Sys, e: Event, rest: seq<Event>, odd: Odd)
    requires MayHappen(s, e, odd)
    requires HonestBut(Step(s, e), rest, odd)
    ensures HonestBut(s, [e] + rest, odd)
    decreases |rest|
  {
    var all := [e] + rest;
    if rest == [] {
      assert all[..0] == [];
      assert all[0] == e && Exec(s, []) == s;
    } else {
      var front, last := rest[..|rest| - 1], rest[|rest| - 1];
      HonestButFirst(s, e, front, odd);
      ExecFirst(s, e, front);
      assert all[..|rest|] == [e] + front && all[|rest|] == last;
    }
  }

  /** An idle client with a pool that holds everything the request asks for. */
  function RoomyIdle(req: Request): Sys {
    Sys(1, RoomyPool(req), map[], map[], map[], map[], map[], [], 0)
  }

  lemma UnsafeMisuses(req: Request)
    requires Prechecked(req) && !SafeReq(req)
    ensures var h', wishes := Run(Start(req), RoomyPool(req), RoomyWishes(req)).1, RoomyWishes(req);
      h'.badFrees + h'.wildWrites > 0
    ensures Run(Start(req), RoomyPool(req), RoomyWishes(req)).0.pc.Failed?
  {
    RoomyTrouble(req);
    SafeByFirstRefused(req);
    PackResult(req, RoomyPool(req), RoomyWishes(req));
  }

  /** For every unsafe request there is a run, of that one call and nothing else, with a bad free or a wild clearing. */
  lemma UnsafeRun(req: Request) returns (events: seq<Event>)
    requires Prechecked(req) && !SafeReq(req)
    ensures Inv(RoomyIdle(req)) && HonestBut(RoomyIdle(req), events, OddCall(req))
    ensures var s' := Exec(RoomyIdle(req), events); s'.heap.badFrees + s'.heap.wildWrites > 0
  {
    var s := RoomyIdle(req);
    RoomyTrouble(req);
    InitialInv(1, RoomyPool(req));
    var e := StartCall(0, req);
    var s1 := Step(s, e);
    var ans := Answers(RoomyWishes(req), true, 0, 0, true);
    var rest := AloneIsRun(s1, 0, ans);
    AloneRuns(s1, 0, ans, Start(req));
    UnsafeMisuses(req);
    var (c', h') := Run(Start(req), RoomyPool(req), RoomyWishes(req));
    AloneStops(Move(s1, 0, Packing(c')).(heap := h'), 0, ans);
    OwnEventsHonest(s1, rest);
    OwnEventsHonestBut(s1, rest, OddCall(req));
    HonestButFirst(s, e, rest, OddCall(req));
    ExecFirst(s, e, rest);
    events := [e] + rest;
  }

  lemma FineIsSound(s: Sys, events: seq<Event>, odd: Odd)
    requires Fine(odd) && Inv(s) && HonestBut(s, events, odd)
    ensures Sound(Exec(s, events))
  {
    SafeMakesHonest(s, events, odd);
    OwnershipSafe(s, events);
  }

  /**
   The condition on requests is exact: a request is safe if and only if no run, from any
   state the invariant allows and with everything else as it should be, comes to a bad
   free, a write outside a block, the use of an unset field, or a request whose blocks
   are not live or not its own.
   */
  lemma SafeReqIff(req: Request)
    requires Prechecked(req)
    ensures SafeReq(req) <==>
      forall s: Sys, events: seq<Event> :: Inv(s) && HonestBut(s, events, OddCall(req)) ==> Sound(Exec(s, events))
  {
    if SafeReq(req) {
      forall s: Sys, events: seq<Event> | Inv(s) && HonestBut(s, events, OddCall(req))
        ensures Sound(Exec(s, events))
      {
        FineIsSound(s, events, OddCall(req));
      }
    } else {
      var events := UnsafeRun(req);
      assert !Sound(Exec(RoomyIdle(req), events));
    }
  }

  // Posts without blocks

  const IDLE := Sys(1, Heap(1, [], map[], 0, 0, 0), map[], map[], map[], map[], map[], [], 0)

  const POSTED := [AllocRecord(0, 1), Post(0, true)]
  const ONE_SIDED := Deliver(0, Completion(true, true, 0, []))

  lemma TwoEvents(s: Sys, e1: Event, e2: Event, rest: seq<Event>, odd: Odd)
    requires MayHappen(s, e1, odd) && MayHappen(Step(s, e1), e2, odd) && HonestBut(Step(Step(s, e1), e2), rest, odd)
    ensures HonestBut(s, [e1] + ([e2] + rest), odd)
    ensures Exec(s, [e1] + ([e2] + rest)) == Exec(Step(Step(s, e1), e2), rest)
  {
    HonestButFirst(Step(s, e1), e2, rest, odd);
    HonestButFirst(s, e1, [e2] + rest, odd);
    ExecFirst(Step(s, e1), e2, rest);
    ExecFirst(s, e1, [e2] + rest);
  }

  lemma NullPostAccepted(done: Done) returns (s: Sys)
    ensures s == Step(Step(IDLE, StartPlain(0, OneSided(done))), POSTED[0])
    ensures s.tasks == map[0 := PlainReady(OneSided(done), 1)] && s.records == map[1 := PlainRecord(OneSided(done))]
    ensures s.faults == 0
  {
    var s1 := Step(IDLE, StartPlain(0, OneSided(done)));
    s := Step(s1, POSTED[0]);
    assert s == StepAllocPlain(s1, 0, OneSided(done), 1);
  }

  lemma NullPostFaults(s: Sys, done: Done)
    requires done.cb == 0 && s.faults == 0
    requires s.tasks == map[0 := PlainReady(OneSided(done), 1)] && s.records == map[1 := PlainRecord(OneSided(done))]
    ensures Step(Step(s, POSTED[1]), ONE_SIDED).faults == 1
    ensures MayHappen(Step(s, POSTED[1]), ONE_SIDED, OddPost(OneSided(done)))
  {
    var s' := Step(s, POSTED[1]);
    assert s' == StepPostPlain(s, 0, OneSided(done), 1, true);
    assert Step(s', ONE_SIDED) == StepCallback(Arrive(s', 0, ONE_SIDED.k), 0, 1, ONE_SIDED.k);
  }

  /** A one-sided post without a callback, completed as such, calls the null pointer. */
  lemma NullPostRun(done: Done) returns (events: seq<Event>)
    requires done.cb == 0
    ensures Inv(IDLE) && HonestBut(IDLE, events, OddPost(OneSided(done)))
    ensures Exec(IDLE, events).faults == 1
  {
    var odd := OddPost(OneSided(done));
    InitialInv(1, IDLE.heap);
    var s := NullPostAccepted(done);
    NullPostFaults(s, done);
    TwoEvents(s, POSTED[1], ONE_SIDED, [], odd);
    TwoEvents(IDLE, StartPlain(0, OneSided(done)), POSTED[0], [POSTED[1]] + ([ONE_SIDED] + []), odd);
    events := [StartPlain(0, OneSided(done))] + ([POSTED[0]] + ([POSTED[1]] + ([ONE_SIDED] + [])));
  }

  /**
   Likewise a post without blocks is harmless in every run if and only if it is two-sided,
   a reply, or has a callback.
   */
  lemma SafePostIff(plain: Plain)
    ensures (plain.OneSided? ==> plain.done.cb != 0) <==>
      forall s: Sys, events: seq<Event> :: Inv(s) && HonestBut(s, events, OddPost(plain)) ==> Sound(Exec(s, events))
  {
    if plain.OneSided? && plain.done.cb == 0 {
      var events := NullPostRun(plain.done);
      assert !Sound(Exec(IDLE, events));
    } else {
      forall s: Sys, events: seq<Event> | Inv(s) && HonestBut(s, events, OddPost(plain))
        ensures Sound(Exec(s, events))
      {
        FineIsSound(s, events, OddPost(plain));
      }
    }
  }
}
