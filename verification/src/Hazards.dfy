/** Why the ownership results ask for safe requests: what one null message can do to another request. */
module Hazards {
  import opened Machine
  import opened Pool
  import opened PackMachine
  import opened PackInvariant
  import opened Protocol

  /** A pool of 16 bytes at address 1. */
  const POOL := Heap(1, seq(16, _ => 0), map[], 7, 0, 0)
  const IDLE := Sys(100, POOL, map[], map[], map[], map[], map[], [], 0)
  const BROKEN := Request(1, [Data([1]), NullData(1)], 1, 0, None)
  const HEALTHY := Request(2, [Data([2])], 1, 0, None)

  /**
   The broken request has its last block at 4 when the copy of its null message is
   refused; the rollback loop frees that block, the healthy request's header is placed
   there, and the loop's second round frees it again.
   */
  const INTERLEAVING := [
    StartCall(0, BROKEN), Work(0, 1), Work(0, 3), Work(0, 4), Work(0, 0),
    StartCall(1, HEALTHY), Work(1, 4), Work(0, 0)
  ]

  function BrokenSgl(): Sgl {
    EMPTY_SGL.Put(0, Iov(1, 7, 2)).Put(1, Iov(3, 7, 1))
  }

  lemma WorkIs(s: Sys, t: Tid, call: Call, wish: Addr)
    requires t in s.tasks && s.tasks[t] == Packing(call) && WellFormed(call)
    ensures var (call', heap') := CallStep(call, s.heap, wish);
      Step(s, Work(t, wish)) == s.(tasks := s.tasks[t := Packing(call')], heap := heap')
  {
    assert Step(s, Work(t, wish)) == StepWork(s, t, call, wish);
  }

  lemma HeaderPlacedAt(req: Request, h: Heap, a: Addr)
    requires 1 <= |req.msgs| && h.CanPlace(HEADER_SIZE, a)
    ensures var (c, h') := CallStep(Start(req), h, a);
      && c == Call(req, EMPTY_SGL.Put(0, Iov(a, h.key, HEADER_SIZE)), Block(0))
      && h'.live == h.live[a := HEADER_SIZE] && h'.base == h.base && |h'.mem| == |h.mem|
      && h'.badFrees == h.badFrees && h'.key == h.key
  {
  }

  /** The broken call, step by step, up to its rollback. */
  lemma BrokenFails() returns (s: Sys)
    ensures s == Step(Step(Step(Step(IDLE, INTERLEAVING[0]), INTERLEAVING[1]), INTERLEAVING[2]), INTERLEAVING[3])
    ensures s.tasks == map[0 := Packing(Call(BROKEN, BrokenSgl(), Undo(4, 2)))]
    ensures s.heap.live == map[1 := 2, 3 := 1, 4 := 1] && s.heap.base == 1 && |s.heap.mem| == 16
    ensures s.heap.badFrees == 0 && s.heap.key == 7
  {
    var s2 := BrokenStarts();
    var s3 := FirstPlaced(s2);
    s := SecondRefused(s3);
  }

  lemma FirstPlaced(s: Sys) returns (s': Sys)
    requires s.tasks == map[0 := Packing(Call(BROKEN, EMPTY_SGL.Put(0, Iov(1, 7, 2)), Block(0)))]
    requires s.heap.live == map[1 := 2] && s.heap.base == 1 && |s.heap.mem| == 16
    requires s.heap.badFrees == 0 && s.heap.key == 7
    ensures s' == Step(s, INTERLEAVING[2])
    ensures s'.tasks == map[0 := Packing(Call(BROKEN, BrokenSgl(), Block(1)))]
    ensures s'.heap.live == map[1 := 2, 3 := 1] && s'.heap.base == 1 && |s'.heap.mem| == 16
    ensures s'.heap.badFrees == 0 && s'.heap.key == 7
  {
    var c := Call(BROKEN, EMPTY_SGL.Put(0, Iov(1, 7, 2)), Block(0));
    var h' := FirstBlock(c, s.heap);
    WorkIs(s, 0, c, 3);
    s' := Step(s, INTERLEAVING[2]);
  }

  lemma SecondRefused(s: Sys) returns (s': Sys)
    requires s.tasks == map[0 := Packing(Call(BROKEN, BrokenSgl(), Block(1)))]
    requires s.heap.live == map[1 := 2, 3 := 1] && s.heap.base == 1 && |s.heap.mem| == 16
    requires s.heap.badFrees == 0 && s.heap.key == 7
    ensures s' == Step(s, INTERLEAVING[3])
    ensures s'.tasks == map[0 := Packing(Call(BROKEN, BrokenSgl(), Undo(4, 2)))]
    ensures s'.heap.live == map[1 := 2, 3 := 1, 4 := 1] && s'.heap.base == 1 && |s'.heap.mem| == 16
    ensures s'.heap.badFrees == 0 && s'.heap.key == 7
  {
    SecondBlock(s.heap);
    WorkIs(s, 0, Call(BROKEN, BrokenSgl(), Block(1)), 4);
    s' := Step(s, INTERLEAVING[3]);
  }

  lemma BrokenStarts() returns (s: Sys)
    ensures s == Step(Step(IDLE, INTERLEAVING[0]), INTERLEAVING[1])
    ensures s.tasks == map[0 := Packing(Call(BROKEN, EMPTY_SGL.Put(0, Iov(1, 7, 2)), Block(0)))]
    ensures s.heap.live == map[1 := 2] && s.heap.base == 1 && |s.heap.mem| == 16
    ensures s.heap.badFrees == 0 && s.heap.key == 7
  {
    var s1 := Step(IDLE, INTERLEAVING[0]);
    HeaderPlacedAt(BROKEN, POOL, 1);
    WorkIs(s1, 0, Start(BROKEN), 1);
    s := Step(s1, INTERLEAVING[1]);
  }

  lemma FirstBlock(c: Call, h: Heap) returns (h': Heap)
    requires c == Call(BROKEN, EMPTY_SGL.Put(0, Iov(1, 7, 2)), Block(0))
    requires h.live == map[1 := 2] && h.base == 1 && |h.mem| == 16 && h.badFrees == 0 && h.key == 7
    ensures CallStep(c, h, 3) == (Call(BROKEN, BrokenSgl(), Block(1)), h')
    ensures h'.live == map[1 := 2, 3 := 1] && h'.base == 1 && |h'.mem| == 16 && h'.badFrees == 0 && h'.key == 7
  {
    assert h.CanPlace(1, 3);
    h' := CallStep(c, h, 3).1;
  }

  lemma SecondBlock(h: Heap)
    requires h.live == map[1 := 2, 3 := 1] && h.base == 1 && |h.mem| == 16
    ensures CallStep(Call(BROKEN, BrokenSgl(), Block(1)), h, 4)
         == (Call(BROKEN, BrokenSgl(), Undo(4, 2)), h.(live := map[1 := 2, 3 := 1, 4 := 1]).Zero(4, 1))
  {
    assert h.CanPlace(1, 4);
  }

  /**
   In the end the healthy request still owns the block at 4, which is no longer live,
   and the allocator has not answered any free with an error.
   */
  lemma RollbackFreesAnothersBlock() returns (s: Sys)
    ensures s == Exec(IDLE, INTERLEAVING)
    ensures Prechecked(BROKEN) && Prechecked(HEALTHY) && AllData(HEALTHY.msgs)
    ensures 1 in s.tasks && 4 in Blocks(s, s.tasks[1]) && 4 !in s.heap.live
    ensures s.heap.badFrees == 0
  {
    var s4 := BrokenFails();
    var s5 := FirstRound(s4);
    var s6 := HealthyStarts(s5);
    var s7 := HealthyPlaces(s6);
    s := SecondRound(s7);
    ExecEight();
  }

  lemma FirstRound(s: Sys) returns (s': Sys)
    requires s.tasks == map[0 := Packing(Call(BROKEN, BrokenSgl(), Undo(4, 2)))]
    requires s.heap.live == map[1 := 2, 3 := 1, 4 := 1] && s.heap.base == 1 && |s.heap.mem| == 16
    requires s.heap.badFrees == 0
    ensures s' == Step(s, INTERLEAVING[4])
    ensures s'.tasks == map[0 := Packing(Call(BROKEN, BrokenSgl(), Undo(4, 1)))]
    ensures s'.heap.live == map[1 := 2, 3 := 1] && s'.heap.base == 1 && |s'.heap.mem| == 16
    ensures s'.heap.badFrees == 0
  {
    WorkIs(s, 0, Call(BROKEN, BrokenSgl(), Undo(4, 2)), 0);
    s' := Step(s, INTERLEAVING[4]);
  }

  lemma HealthyStarts(s: Sys) returns (s': Sys)
    requires s.tasks == map[0 := Packing(Call(BROKEN, BrokenSgl(), Undo(4, 1)))]
    ensures s' == Step(s, INTERLEAVING[5])
    ensures s'.tasks == map[0 := Packing(Call(BROKEN, BrokenSgl(), Undo(4, 1))), 1 := Packing(Start(HEALTHY))]
    ensures s'.heap == s.heap
  {
    s' := Step(s, INTERLEAVING[5]);
  }

  lemma SecondRound(s: Sys) returns (s': Sys)
    requires 0 in s.tasks && s.tasks[0] == Packing(Call(BROKEN, BrokenSgl(), Undo(4, 1)))
    requires 1 in s.tasks && 4 in Blocks(s, s.tasks[1]) && s.tasks[1].Packing?
    requires 4 in s.heap.live && s.heap.badFrees == 0
    ensures s' == Step(s, INTERLEAVING[7])
    ensures 1 in s'.tasks && 4 in Blocks(s', s'.tasks[1]) && 4 !in s'.heap.live
    ensures s'.heap.badFrees == 0
  {
    WorkIs(s, 0, Call(BROKEN, BrokenSgl(), Undo(4, 1)), 0);
    s' := Step(s, INTERLEAVING[7]);
  }

  lemma HealthyPlaces(s: Sys) returns (s': Sys)
    requires s.tasks == map[0 := Packing(Call(BROKEN, BrokenSgl(), Undo(4, 1))), 1 := Packing(Start(HEALTHY))]
    requires s.heap.live == map[1 := 2, 3 := 1] && s.heap.base == 1 && |s.heap.mem| == 16
    requires s.heap.badFrees == 0
    ensures s' == Step(s, INTERLEAVING[6])
    ensures 0 in s'.tasks && s'.tasks[0] == s.tasks[0]
    ensures 1 in s'.tasks && 4 in Blocks(s', s'.tasks[1]) && s'.tasks[1].Packing?
    ensures 4 in s'.heap.live && s'.heap.badFrees == 0
  {
    assert s.heap.CanPlace(2, 4);
    HeaderPlacedAt(HEALTHY, s.heap, 4);
    WorkIs(s, 1, Start(HEALTHY), 4);
    s' := Step(s, INTERLEAVING[6]);
    var call := Call(HEALTHY, EMPTY_SGL.Put(0, Iov(4, s.heap.key, 2)), Block(0));
    assert s'.tasks[1] == Packing(call);
    assert call.sgl.iov[0].lAddress in Held(call);
  }

  lemma ExecEight()
    ensures Exec(IDLE, INTERLEAVING) ==
      Step(Step(Step(Step(Step(Step(Step(Step(IDLE, INTERLEAVING[0]), INTERLEAVING[1]), INTERLEAVING[2]),
        INTERLEAVING[3]), INTERLEAVING[4]), INTERLEAVING[5]), INTERLEAVING[6]), INTERLEAVING[7])
  {
    ExecPrefix(8);
    ExecPrefix(7);
    ExecPrefix(6);
    ExecPrefix(5);
    ExecPrefix(4);
    ExecPrefix(3);
    ExecPrefix(2);
    ExecPrefix(1);
    assert INTERLEAVING[..8] == INTERLEAVING;
    assert Exec(IDLE, INTERLEAVING[..0]) == IDLE;
  }

  lemma ExecPrefix(n: nat)
    requires 0 < n <= 8
    ensures Exec(IDLE, INTERLEAVING[..n]) == Step(Exec(IDLE, INTERLEAVING[..n - 1]), INTERLEAVING[n - 1])
  {
    assert INTERLEAVING[..n][..n - 1] == INTERLEAVING[..n - 1];
  }
}
