/**
 What PackReqInfo does when no other caller interferes, for every request that
 passes the parameter checks, null message pointers included.
 */
module PackOutcome {
  import opened Machine
  import opened Pool
  import opened PackMachine
  import opened PackInvariant

  // The wire image

  /** The entries of a packed request, read in order, are the header and the messages. */
  lemma WireImage(c: Call, h: Heap)
    requires CallInv(c, h) && c.pc.Packed?
    ensures c.sgl.iovCount == 1 + SetCount(c.req)
    ensures Gather(h, c.sgl) == EncodeHeader(c.req.msgId) + Concat(c.req.msgs)
    ensures |Gather(h, c.sgl)| == HEADER_SIZE + TotalLen(c.req.msgs)
  {
    var msgs, n := c.req.msgs, SetCount(c.req);
    if n < 3 {
      GatherBlocks(c.req, c.sgl, h, n);
      assert msgs[..n] == msgs;
    } else {
      GatherBlocks(c.req, c.sgl, h, 2);
      GatherLast(c.req, c.sgl, h);
    }
    ConcatLen(msgs);
  }

  lemma GatherLast(req: Request, sgl: Sgl, h: Heap)
    requires SetCount(req) == 3 && Recorded(req, sgl, h, 4, |req.msgs|)
    requires GatherFirst(h, sgl, 3) == EncodeHeader(req.msgId) + Concat(req.msgs[..2])
    ensures GatherFirst(h, sgl, 4) == EncodeHeader(req.msgId) + Concat(req.msgs)
  {
    var msgs := req.msgs;
    var last := h.Read(sgl.iov[3].lAddress, sgl.iov[3].size);
    var head, front, back := EncodeHeader(req.msgId), Concat(msgs[..2]), Concat(msgs[2..]);
    assert last == back by {
      assert GoodEntry(req, sgl, h, 3, |msgs|);
      assert msgs[2..|msgs|] == msgs[2..];
    }
    assert Concat(msgs) == front + back by {
      ConcatAppend(msgs[..2], msgs[2..]);
      assert msgs[..2] + msgs[2..] == msgs;
    }
    GatherNext(h, sgl, 3);
    Associative(head, front, back);
  }

  lemma GatherNext(h: Heap, sgl: Sgl, n: nat)
    requires n < MAX_IOV_COUNT
    ensures GatherFirst(h, sgl, n + 1) == GatherFirst(h, sgl, n) + h.Read(sgl.iov[n].lAddress, sgl.iov[n].size)
  {
  }

  lemma Associative(a: Bytes, b: Bytes, c: Bytes)
    ensures (a + b) + c == a + (b + c)
  {
  }

  lemma {:induction false} GatherBlocks(req: Request, sgl: Sgl, h: Heap, j: nat)
    requires 1 <= |req.msgs| && Recorded(req, sgl, h, SetCount(req) + 1, |req.msgs|)
    requires j <= 2 && j <= SetCount(req)
    ensures GatherFirst(h, sgl, j + 1) == EncodeHeader(req.msgId) + Concat(req.msgs[..j])
  {
    GatherNext(h, sgl, j);
    EntryReads(req, sgl, h, j);
    if j == 0 {
      assert GatherFirst(h, sgl, 0) == [];
    } else {
      GatherBlocks(req, sgl, h, j - 1);
      PrefixConcat(req.msgs, j);
      Associative(EncodeHeader(req.msgId), Concat(req.msgs[..j - 1]), req.msgs[j - 1].Body());
    }
  }

  lemma EntryReads(req: Request, sgl: Sgl, h: Heap, j: nat)
    requires 1 <= |req.msgs| && Recorded(req, sgl, h, SetCount(req) + 1, |req.msgs|)
    requires j <= 2 && j <= SetCount(req)
    ensures h.Read(sgl.iov[j].lAddress, sgl.iov[j].size)
         == if j == 0 then EncodeHeader(req.msgId) else req.msgs[j - 1].Body()
  {
    assert GoodEntry(req, sgl, h, j, |req.msgs|);
  }

  lemma PrefixConcat(msgs: seq<Message>, j: nat)
    requires 0 < j <= |msgs|
    ensures Concat(msgs[..j]) == Concat(msgs[..j - 1]) + msgs[j - 1].Body()
  {
    ConcatTail(msgs[..j]);
    assert msgs[..j][..j - 1] == msgs[..j - 1];
  }

  // Where packing stops

  /** The first thing that goes wrong while the blocks are being set up. */
  datatype Trouble =
    | Smooth
    | Refused(k: nat)   // the allocation of block k
    | NoCopy(k: nat)    // block k was allocated, and the copy into it refused

  function TroubleFrom(h: Heap, req: Request, wishes: Wishes, k: nat): (t: Trouble)
    requires k <= SetCount(req) + 1
    ensures !t.Smooth? ==> k <= t.k <= SetCount(req)
    decreases SetCount(req) + 1 - k
  {
    if k == SetCount(req) + 1 then Smooth
    else if !h.CanPlace(Room(req, k), wishes[k]) then Refused(k)
    else if k > 0 && !CopyFits(req.msgs[k - 1], req.seg) then NoCopy(k)
    else TroubleFrom(h.Allocate(Room(req, k), wishes[k]).0, req, wishes, k + 1)
  }

  lemma {:induction false} TroubleSame(h: Heap, h': Heap, req: Request, wishes: Wishes, k: nat)
    requires k <= SetCount(req) + 1
    requires h'.base == h.base && |h'.mem| == |h.mem| && h'.live == h.live
    ensures TroubleFrom(h', req, wishes, k) == TroubleFrom(h, req, wishes, k)
    decreases SetCount(req) + 1 - k
  {
    if k <= SetCount(req) && h.CanPlace(Room(req, k), wishes[k]) {
      TroubleSame(h.Allocate(Room(req, k), wishes[k]).0, h'.Allocate(Room(req, k), wishes[k]).0, req, wishes, k + 1);
    }
  }

  /** The messages behind the third fit into what the last block has left. */
  predicate TailFits(req: Request) {
    |req.msgs| <= 3 || (AllData(req.msgs[3..]) && FitsInTurn(req.msgs[2..], req.seg))
  }

  /** All of them fit, and there is still room before the last one is copied, be it empty. */
  predicate FitsInTurn(msgs: seq<Message>, room: nat) {
    msgs == [] || (TotalLen(msgs) <= room && TotalLen(msgs[..|msgs| - 1]) < room)
  }

  ghost predicate Placed(sgl: Sgl, wishes: Wishes) {
    forall j :: 0 <= j < sgl.iovCount && j < MAX_IOV_COUNT ==> sgl.iov[j].lAddress == wishes[j]
  }

  ghost predicate SameCounts(h: Heap, h': Heap) {
    h'.badFrees == h.badFrees && h'.wildWrites == h.wildWrites
  }

  lemma RunOnce(c: Call, h: Heap, wishes: Wishes)
    requires WellFormed(c) && !Halted(c.pc)
    ensures var (c', h') := CallStep(c, h, WishFor(c.pc, wishes)); Run(c, h, wishes) == Run(c', h', wishes)
  {
  }

  /** Blocks `k` and up go through: the call reaches the end of SetReqInfo. */
  lemma {:induction false} RunSmooth(c: Call, h: Heap, wishes: Wishes) returns (c': Call, h': Heap)
    requires h.Valid() && CallInv(c, h) && c.pc.Block? && Placed(c.sgl, wishes)
    requires TroubleFrom(h, c.req, wishes, c.pc.i + 1).Smooth?
    ensures WellFormed(c') && Run(c, h, wishes) == Run(c', h', wishes)
    ensures h'.Valid() && CallInv(c', h') && c'.req == c.req && c'.pc == AfterBlocks(c.req)
    ensures Frame(h, h', Held(c), Held(c')) && SameCounts(h, h')
    decreases SetCount(c.req) - c.pc.i
  {
    var c1, h1 := SmoothStep(c, h, wishes);
    if c.pc.i + 1 == SetCount(c.req) {
      c', h' := c1, h1;
    } else {
      c', h' := RunSmooth(c1, h1, wishes);
      FrameTransitive(h, h1, h', Held(c), Held(c1), Held(c'));
    }
  }

  lemma SmoothStep(c: Call, h: Heap, wishes: Wishes) returns (c1: Call, h1: Heap)
    requires h.Valid() && CallInv(c, h) && c.pc.Block? && Placed(c.sgl, wishes)
    requires TroubleFrom(h, c.req, wishes, c.pc.i + 1).Smooth?
    ensures (c1, h1) == CallStep(c, h, wishes[c.pc.i + 1])
    ensures WellFormed(c1) && Run(c, h, wishes) == Run(c1, h1, wishes)
    ensures h1.Valid() && CallInv(c1, h1) && c1.req == c.req
    ensures Frame(h, h1, Held(c), Held(c1)) && SameCounts(h, h1)
    ensures if c.pc.i + 1 == SetCount(c.req) then c1.pc == AfterBlocks(c.req)
            else c1.pc == Block(c.pc.i + 1) && Placed(c1.sgl, wishes)
                 && TroubleFrom(h1, c.req, wishes, c.pc.i + 2).Smooth?
  {
    RunOnce(c, h, wishes);
    if c.pc.i + 1 == SetCount(c.req) {
      c1, h1 := LastPlaced(c, h, wishes);
    } else {
      c1, h1 := PlacedStep(c, h, wishes);
    }
  }

  lemma LastPlaced(c: Call, h: Heap, wishes: Wishes) returns (c': Call, h': Heap)
    requires h.Valid() && CallInv(c, h) && c.pc.Block? && !MeetsRefusal(c)
    requires h.CanPlace(BlockSize(c.req, c.pc.i), wishes[c.pc.i + 1])
    requires c.pc.i + 1 == SetCount(c.req)
    ensures (c', h') == CallStep(c, h, wishes[c.pc.i + 1])
    ensures h'.Valid() && CallInv(c', h') && c'.req == c.req && c'.pc == AfterBlocks(c.req)
    ensures Frame(h, h', Held(c), Held(c')) && SameCounts(h, h')
  {
    var wish := wishes[c.pc.i + 1];
    BlockPlaced(c, h, wish);
    c', h' := CallStep(c, h, wish).0, CallStep(c, h, wish).1;
    PlainFrame(c, h, c', h');
  }

  lemma PlacedStep(c: Call, h: Heap, wishes: Wishes) returns (c': Call, h': Heap)
    requires h.Valid() && CallInv(c, h) && c.pc.Block? && Placed(c.sgl, wishes) && !MeetsRefusal(c)
    requires h.CanPlace(BlockSize(c.req, c.pc.i), wishes[c.pc.i + 1])
    requires c.pc.i + 1 < SetCount(c.req)
    ensures (c', h') == CallStep(c, h, wishes[c.pc.i + 1])
    ensures h'.Valid() && CallInv(c', h') && c'.req == c.req
    ensures c'.pc == Block(c.pc.i + 1) && Placed(c'.sgl, wishes)
    ensures Frame(h, h', Held(c), Held(c')) && SameCounts(h, h')
    ensures TroubleFrom(h', c.req, wishes, c.pc.i + 2) == TroubleFrom(h, c.req, wishes, c.pc.i + 1)
  {
    var i := c.pc.i;
    BlockPlaced(c, h, wishes[i + 1]);
    c', h' := CallStep(c, h, wishes[i + 1]).0, CallStep(c, h, wishes[i + 1]).1;
    PlainFrame(c, h, c', h');
    NextPlaced(c, h, wishes);
    NextTrouble(c, h, wishes);
  }

  lemma NextPlaced(c: Call, h: Heap, wishes: Wishes)
    requires WellFormed(c) && c.pc.Block? && !MeetsRefusal(c) && c.sgl.iovCount == c.pc.i + 1 && Placed(c.sgl, wishes)
    requires h.CanPlace(BlockSize(c.req, c.pc.i), wishes[c.pc.i + 1]) && c.req.msgs[c.pc.i].Len() <= c.req.seg
    ensures Placed(CallStep(c, h, wishes[c.pc.i + 1]).0.sgl, wishes)
  {
    var i, m, a := c.pc.i, c.req.msgs[c.pc.i], wishes[c.pc.i + 1];
    assert CallStep(c, h, a).0.sgl == c.sgl.Put(i + 1, Iov(a, h.key, ToU32(m.Len())));
  }

  lemma NextTrouble(c: Call, h: Heap, wishes: Wishes)
    requires WellFormed(c) && c.pc.Block? && !MeetsRefusal(c)
    requires h.CanPlace(BlockSize(c.req, c.pc.i), wishes[c.pc.i + 1]) && c.req.msgs[c.pc.i].Len() <= c.req.seg
    ensures TroubleFrom(CallStep(c, h, wishes[c.pc.i + 1]).1, c.req, wishes, c.pc.i + 2)
         == TroubleFrom(h, c.req, wishes, c.pc.i + 1)
  {
    var i, m, a := c.pc.i, c.req.msgs[c.pc.i], wishes[c.pc.i + 1];
    var h1 := h.Allocate(BlockSize(c.req, i), a).0;
    assert CallStep(c, h, a).1 == h1.Write(a, 0, m.bytes);
    TroubleSame(h1, CallStep(c, h, a).1, c.req, wishes, i + 2);
  }

  /** The clearing of a refused copy runs past its block, which is shorter than a segment. */
  predicate WildClear(req: Request, t: Trouble) {
    t.NoCopy? && 1 <= t.k <= SetCount(req) && InRange(req.seg) && Room(req, t.k) < req.seg
  }

  /** The pool at the start of the call with the bytes a wild clearing will hit already set to 0. */
  function Damaged(req: Request, h: Heap, wishes: Wishes, t: Trouble): Heap {
    if WildClear(req, t) && t.k < MAX_IOV_COUNT
    then h.Zero(wishes[t.k], req.seg).(wildWrites := h.wildWrites + 1) else h
  }

  /** The blocks the call holds when trouble `t` has stopped it. */
  function HeldAt(sgl: Sgl, wishes: Wishes, t: Trouble): set<Addr> {
    if t.NoCopy? && t.k < MAX_IOV_COUNT then Addrs(sgl, 0) + {wishes[t.k]} else Addrs(sgl, 0)
  }

  /** SetReqInfo has met trouble `t` and is about to roll back; `mine` were held in `h0`. */
  ghost predicate AtTrouble(c: Call, h: Heap, wishes: Wishes, t: Trouble, h0: Heap, mine: set<Addr>) {
    && h.Valid() && !t.Smooth? && 1 <= t.k <= SetCount(c.req)
    && Placed(c.sgl, wishes) && c.sgl.iovCount == t.k && Standing(c.sgl, h, 0)
    && c.pc == (if t.Refused? then Undo(0, t.k - 1) else Undo(wishes[t.k], t.k))
    && (t.NoCopy? ==> wishes[t.k] != 0 && wishes[t.k] !in Addrs(c.sgl, 0))
    && Frame(h0, h, mine, HeldAt(c.sgl, wishes, t))
    && SameCounts(h0, h)
  }

  /** Block `k` is the one that stops SetReqInfo, with the blocks before it recorded. */
  lemma {:induction false} RunToTrouble(c: Call, h: Heap, wishes: Wishes) returns (c': Call, h': Heap)
    requires h.Valid() && CallInv(c, h) && c.pc.Block? && Placed(c.sgl, wishes)
    requires !TroubleFrom(h, c.req, wishes, c.pc.i + 1).Smooth?
    ensures WellFormed(c') && Run(c, h, wishes) == Run(c', h', wishes)
    ensures c'.req == c.req
    ensures var t := TroubleFrom(h, c.req, wishes, c.pc.i + 1);
      AtTrouble(c', h', wishes, t, Damaged(c.req, h, wishes, t), Held(c))
    decreases SetCount(c.req) - c.pc.i
  {
    var stopped, c1, h1 := TroubleStep(c, h, wishes);
    if stopped {
      c', h' := c1, h1;
    } else {
      c', h' := RunToTrouble(c1, h1, wishes);
      TroubleSince(c', h', wishes, TroubleFrom(h, c.req, wishes, c.pc.i + 1), h, h1, Held(c), Held(c1));
    }
  }

  lemma TroubleStep(c: Call, h: Heap, wishes: Wishes) returns (stopped: bool, c1: Call, h1: Heap)
    requires h.Valid() && CallInv(c, h) && c.pc.Block? && Placed(c.sgl, wishes)
    requires !TroubleFrom(h, c.req, wishes, c.pc.i + 1).Smooth?
    ensures WellFormed(c1) && Run(c, h, wishes) == Run(c1, h1, wishes) && c1.req == c.req
    ensures stopped ==>
      var t := TroubleFrom(h, c.req, wishes, c.pc.i + 1);
      AtTrouble(c1, h1, wishes, t, Damaged(c.req, h, wishes, t), Held(c))
    ensures !stopped ==>
      && h1.Valid() && CallInv(c1, h1) && Placed(c1.sgl, wishes)
      && c1.pc == Block(c.pc.i + 1) && c.pc.i + 1 < SetCount(c.req)
      && Frame(h, h1, Held(c), Held(c1)) && SameCounts(h, h1)
      && TroubleFrom(h1, c.req, wishes, c.pc.i + 2) == TroubleFrom(h, c.req, wishes, c.pc.i + 1)
  {
    var i := c.pc.i;
    RunOnce(c, h, wishes);
    if !h.CanPlace(BlockSize(c.req, i), wishes[i + 1]) {
      stopped := true;
      c1, h1 := StopAtRefusal(c, h, wishes);
    } else if MeetsRefusal(c) {
      stopped := true;
      c1, h1 := StopAtCopy(c, h, wishes);
    } else {
      stopped := false;
      c1, h1 := PlacedStep(c, h, wishes);
    }
  }

  lemma TroubleSince(c: Call, h: Heap, wishes: Wishes, t: Trouble,
                     h0: Heap, h1: Heap, mine0: set<Addr>, mine1: set<Addr>)
    requires AtTrouble(c, h, wishes, t, Damaged(c.req, h1, wishes, t), mine1)
    requires Frame(h0, h1, mine0, mine1) && SameCounts(h0, h1)
    ensures AtTrouble(c, h, wishes, t, Damaged(c.req, h0, wishes, t), mine0)
  {
    DamagedFrame(c.req, h0, h1, wishes, t, mine0, mine1);
    FrameTransitive(Damaged(c.req, h0, wishes, t), Damaged(c.req, h1, wishes, t), h,
                    mine0, mine1, HeldAt(c.sgl, wishes, t));
  }

  lemma DamagedFrame(req: Request, h: Heap, h': Heap, wishes: Wishes, t: Trouble, mine: set<Addr>, mine': set<Addr>)
    requires Frame(h, h', mine, mine') && SameCounts(h, h')
    ensures Frame(Damaged(req, h, wishes, t), Damaged(req, h', wishes, t), mine, mine')
    ensures SameCounts(Damaged(req, h, wishes, t), Damaged(req, h', wishes, t))
  {
    if WildClear(req, t) && t.k < MAX_IOV_COUNT {
      ZeroFrame(h, h', mine, mine', wishes[t.k], req.seg);
      OnlyCounted(h.Zero(wishes[t.k], req.seg), h'.Zero(wishes[t.k], req.seg), mine, mine',
                  h.wildWrites + 1, h'.badFrees, h'.wildWrites + 1);
    }
  }

  lemma StopAtRefusal(c: Call, h: Heap, wishes: Wishes) returns (c': Call, h': Heap)
    requires h.Valid() && CallInv(c, h) && c.pc.Block? && Placed(c.sgl, wishes)
    requires !h.CanPlace(BlockSize(c.req, c.pc.i), wishes[c.pc.i + 1])
    ensures CallStep(c, h, wishes[c.pc.i + 1]) == (c', h') && c'.req == c.req
    ensures AtTrouble(c', h', wishes, Refused(c.pc.i + 1), h, Held(c))
  {
    c', h' := c.(pc := Undo(0, c.pc.i)), h;
    AddrsLive(c.req, c.sgl, h, c.pc.i + 1, c.pc.i);
    FrameSelf(h, Held(c));
  }

  lemma StopAtCopy(c: Call, h: Heap, wishes: Wishes) returns (c': Call, h': Heap)
    requires h.Valid() && CallInv(c, h) && MeetsRefusal(c) && Placed(c.sgl, wishes)
    requires h.CanPlace(BlockSize(c.req, c.pc.i), wishes[c.pc.i + 1])
    ensures CallStep(c, h, wishes[c.pc.i + 1]) == (c', h') && c'.req == c.req
    ensures AtTrouble(c', h', wishes, NoCopy(c.pc.i + 1), Damaged(c.req, h, wishes, NoCopy(c.pc.i + 1)), Held(c))
  {
    var i := c.pc.i;
    var a := wishes[i + 1];
    var h0 := Damaged(c.req, h, wishes, NoCopy(i + 1));
    c' := c.(pc := Undo(a, i + 1));
    h' := ClearedBlock(c.req, h, wishes, i);
    AddrsLive(c.req, c.sgl, h, i + 1, i);
    assert Standing(c.sgl, h0, 0);
    StandingFramed(c.sgl, h0, h', 0, {}, {a});
    FrameAdd(h0, h', {}, {a}, Addrs(c.sgl, 0));
  }

  /** A block allocated and cleared for a null message, seen from the pool with the same bytes cleared. */
  lemma ClearedBlock(req: Request, h: Heap, wishes: Wishes, i: nat) returns (h': Heap)
    requires h.Valid() && i < SetCount(req) && h.CanPlace(BlockSize(req, i), wishes[i + 1])
    requires BlockSize(req, i) <= req.seg
    ensures h' == h.Allocate(BlockSize(req, i), wishes[i + 1]).0.Clear(wishes[i + 1], 0, req.seg)
    ensures var h0 := Damaged(req, h, wishes, NoCopy(i + 1));
      Frame(h0, h', {}, {wishes[i + 1]}) && SameCounts(h0, h')
  {
    var size, a := BlockSize(req, i), wishes[i + 1];
    var h1 := h.Allocate(size, a).0;
    h' := h1.Clear(a, 0, req.seg);
    AllocateFrame(h, size, a);
    if !InRange(req.seg) {
      assert h' == h1;
    } else if size < req.seg {
      assert !h1.Inside(a, 0, req.seg);
      DamagedFrame(req, h, h1, wishes, NoCopy(i + 1), {}, {a});
      assert h' == Damaged(req, h1, wishes, NoCopy(i + 1));
    } else {
      ClearFrame(h1, a, 0, req.seg);
      FrameTransitive(h, h1, h', {}, {a}, {a});
    }
  }

  // The append loop

  lemma {:induction false} TotalLenAppend(xs: seq<Message>, ys: seq<Message>)
    ensures TotalLen(xs + ys) == TotalLen(xs) + TotalLen(ys)
    decreases |ys|
  {
    if ys == [] {
      assert xs + ys == xs;
    } else {
      var front := ys[..|ys| - 1];
      assert (xs + ys)[..|xs + ys| - 1] == xs + front;
      TotalLenAppend(xs, front);
    }
  }

  lemma TotalLenFirst(ms: seq<Message>)
    requires ms != []
    ensures TotalLen(ms) == ms[0].Len() + TotalLen(ms[1..])
  {
    TotalLenAppend([ms[0]], ms[1..]);
    assert [ms[0]] + ms[1..] == ms;
    assert [ms[0]][..0] == [];
  }

  /** What the append loop still has to copy has data and fits. */
  predicate RestFits(c: Call)
    requires WellFormed(c) && c.pc.Append?
  {
    && AllData(c.req.msgs[c.pc.i..])
    && c.sgl.iov[3].size <= c.req.seg && FitsInTurn(c.req.msgs[c.pc.i..], c.req.seg - c.sgl.iov[3].size)
  }

  /** Whether messages fit in turn is decided one by one. */
  lemma TurnStep(msgs: seq<Message>, room: nat)
    requires msgs != []
    ensures FitsInTurn(msgs, room) <==>
      0 < room && msgs[0].Len() <= room && FitsInTurn(msgs[1..], room - msgs[0].Len())
  {
    TotalLenFirst(msgs);
    if |msgs| == 1 {
      assert msgs[..0] == [] && msgs[1..] == [];
    } else {
      TotalLenFirst(msgs[..|msgs| - 1]);
      assert msgs[..|msgs| - 1][1..] == msgs[1..][..|msgs| - 2];
    }
  }

  lemma RestStep(msgs: seq<Message>, i: nat, room: nat)
    requires i < |msgs|
    ensures FitsInTurn(msgs[i..], room) <==>
      0 < room && msgs[i].Len() <= room && FitsInTurn(msgs[i + 1..], room - msgs[i].Len())
    ensures AllData(msgs[i..]) <==> msgs[i].Data? && AllData(msgs[i + 1..])
  {
    var rest := msgs[i..];
    TurnStep(rest, room);
    assert rest[1..] == msgs[i + 1..];
    if msgs[i].Data? && AllData(msgs[i + 1..]) {
      forall j | 0 <= j < |rest|
        ensures rest[j].Data?
      {
        assert j > 0 ==> rest[j] == msgs[i + 1..][j - 1];
      }
    }
  }

  /** The append loop finishes exactly when every message left has data and all of it fits. */
  lemma {:induction false} RunAppends(c: Call, h: Heap, wishes: Wishes) returns (c': Call, h': Heap)
    requires h.Valid() && CallInv(c, h) && c.pc.Append?
    ensures WellFormed(c') && Run(c, h, wishes) == Run(c', h', wishes)
    ensures h'.Valid() && CallInv(c', h') && c'.req == c.req
    ensures Frame(h, h', Held(c), Held(c')) && SameCounts(h, h')
    ensures c'.pc == if RestFits(c) then Packed else FreeAll(0)
    decreases |c.req.msgs| - c.pc.i
  {
    var i := c.pc.i;
    AppendGood(c, h);
    var (c1, h1) := CallStep(c, h, 0);
    PlainFrame(c, h, c1, h1);
    RunOnce(c, h, wishes);
    AppendEdge(c, h);
    if c1.pc.Append? {
      c', h' := RunAppends(c1, h1, wishes);
      FrameTransitive(h, h1, h', Held(c), Held(c1), Held(c'));
    } else {
      c', h' := c1, h1;
    }
  }

  /** One round of the append loop decides or hands on whether the rest fits. */
  lemma AppendEdge(c: Call, h: Heap)
    requires h.Valid() && CallInv(c, h) && c.pc.Append?
    ensures var c1 := CallStep(c, h, 0).0;
      && (c1.pc.Append? ==> c1.pc.i == c.pc.i + 1 && (RestFits(c1) <==> RestFits(c)))
      && (!c1.pc.Append? ==> c1.pc == if RestFits(c) then Packed else FreeAll(0))
  {
    if c.pc.i < |c.req.msgs| {
      AppendRound(c, h);
    } else {
      AppendExactEnd(c, h);
      assert c.req.msgs[c.pc.i..] == [];
    }
  }

  lemma AppendRound(c: Call, h: Heap)
    requires h.Valid() && CallInv(c, h) && c.pc.Append? && c.pc.i < |c.req.msgs|
    ensures var c1 := CallStep(c, h, 0).0;
      && c.sgl.iov[3].size <= c.req.seg
      && (if CopyFits(c.req.msgs[c.pc.i], c.req.seg - c.sgl.iov[3].size)
          then c1.pc == Append(c.pc.i + 1) && (RestFits(c1) <==> RestFits(c))
          else c1.pc == FreeAll(0) && !RestFits(c))
  {
    InSegment(c, h);
    var room := c.req.seg - c.sgl.iov[3].size;
    RestStep(c.req.msgs, c.pc.i, room);
    if CopyFits(c.req.msgs[c.pc.i], room) {
      AppendShape(c, h);
    } else {
      RefusedShape(c, h);
    }
  }

  lemma RefusedShape(c: Call, h: Heap)
    requires WellFormed(c) && c.pc.Append? && c.pc.i < |c.req.msgs| && c.sgl.iov[3].size <= c.req.seg
    requires !CopyFits(c.req.msgs[c.pc.i], c.req.seg - c.sgl.iov[3].size)
    ensures CallStep(c, h, 0).0 == c.(pc := FreeAll(0))
  {
  }

  /** A call in its append loop has a segment size that memcpy_s accepts. */
  lemma InSegment(c: Call, h: Heap)
    requires CallInv(c, h) && c.pc.Append?
    ensures InRange(c.req.seg) && c.sgl.iov[3].size <= c.req.seg
  {
    AppendExactEnd(c, h);
  }

  lemma AppendExactEnd(c: Call, h: Heap)
    requires CallInv(c, h) && c.pc.Append?
    ensures c.sgl.iov[3].size == |Concat(c.req.msgs[2..c.pc.i])| <= c.req.seg
  {
    assert GoodEntry(c.req, c.sgl, h, 3, c.pc.i);
  }

  // The rollbacks

  lemma {:induction false} RunFreeAll(c: Call, h: Heap, wishes: Wishes) returns (h': Heap)
    requires h.Valid() && CallInv(c, h) && c.pc.FreeAll?
    ensures Run(c, h, wishes) == (c.(pc := Failed), h')
    ensures Frame(h, h', Held(c), {}) && SameCounts(h, h')
    decreases MAX_IOV_COUNT - c.pc.k
  {
    FreeAllGood(c, h);
    var (c1, h1) := CallStep(c, h, 0);
    assert WishFor(c.pc, wishes) == 0;
    if c.pc.k == MAX_IOV_COUNT {
      h' := h1;
    } else {
      h' := RunFreeAll(c1, h1, wishes);
      FrameTransitive(h, h1, h', Held(c), Held(c1), {});
    }
  }

  /** The release after a synchronous call frees every block the request holds, each once. */
  lemma {:induction false} RunFreeSent(c: Call, h: Heap, wishes: Wishes) returns (h': Heap)
    requires h.Valid() && CallInv(c, h) && c.pc.FreeSent?
    ensures Run(c, h, wishes) == (c.(pc := Freed(c.pc.ok)), h')
    ensures Frame(h, h', Held(c), {}) && SameCounts(h, h')
    decreases MAX_IOV_COUNT - c.pc.k
  {
    FreeSentGood(c, h);
    var (c1, h1) := CallStep(c, h, 0);
    assert WishFor(c.pc, wishes) == 0;
    if c1.pc.Freed? {
      h' := h1;
    } else {
      h' := RunFreeSent(c1, h1, wishes);
      FrameTransitive(h, h1, h', Held(c), Held(c1), {});
    }
  }

  /** The rollback loop of SetReqInfo frees one address `left` times over. */
  function FreeTimes(h: Heap, a: Addr, left: nat): Heap {
    if left == 0 || a == 0 then h
    else if a in h.live then h.Free(a).(badFrees := h.badFrees + left - 1)
    else h.(badFrees := h.badFrees + left)
  }

  lemma {:induction false} RunUndo(c: Call, h: Heap, wishes: Wishes)
    requires h.Valid() && WellFormed(c) && c.pc.Undo?
    ensures Run(c, h, wishes) == Run(c.(pc := AfterUndo(c.req)), FreeTimes(h, c.pc.a, c.pc.left), wishes)
    decreases c.pc.left
  {
    var Undo(a, left) := c.pc;
    if left > 0 {
      assert 0 !in h.live;
      assert h.Free(a).Valid();
      RunUndo(c.(pc := Undo(a, left - 1)), h.Free(a), wishes);
      assert FreeTimes(h, a, left) == FreeTimes(h.Free(a), a, left - 1);
    }
  }

  /** The blocks a failed call leaves allocated: those of messages 0 to k-2 in a list of more than three. */
  function Leaked(req: Request, wishes: Wishes, t: Trouble): set<Addr> {
    if |req.msgs| > 3 && !t.Smooth? then set j: nat | 1 <= j < t.k && j < MAX_IOV_COUNT :: wishes[j] else {}
  }

  /** The frees of a block already released: all but the first when a copied message is null. */
  function DoubleFrees(t: Trouble): nat {
    if t.NoCopy? && t.k > 0 then t.k - 1 else 0
  }

  lemma RunRollback(c: Call, h: Heap, wishes: Wishes, t: Trouble, h0: Heap) returns (h': Heap)
    requires Prechecked(c.req) && AtTrouble(c, h, wishes, t, h0, {})
    ensures Run(c, h, wishes).0.pc == Failed && Run(c, h, wishes).1 == h'
    ensures Frame(h0, h', {}, Leaked(c.req, wishes, t))
    ensures h'.badFrees == h0.badFrees + DoubleFrees(t) && h'.wildWrites == h0.wildWrites
  {
    RunUndo(c, h, wishes);
    var h1 := UndoLoop(c, h, wishes, t, h0);
    var c1 := c.(pc := AfterUndo(c.req));
    if |c.req.msgs| > 3 {
      FreeEntry(c.sgl, h1, 0);
      h' := h1.Free(c.sgl.iov[0].lAddress);
      FrameTransitive(h0, h1, h', {}, Addrs(c.sgl, 0), Addrs(c.sgl, 1));
      LeakedIsRest(c, wishes, t);
      RunOnce(c1, h1, wishes);
    } else {
      h' := RunFreeAll(c1, h1, wishes);
      FrameTransitive(h0, h1, h', {}, Addrs(c.sgl, 0), {});
    }
  }

  /** After the rollback loop the recorded blocks are all that is left. */
  lemma UndoLoop(c: Call, h: Heap, wishes: Wishes, t: Trouble, h0: Heap) returns (h1: Heap)
    requires AtTrouble(c, h, wishes, t, h0, {})
    ensures h1 == FreeTimes(h, c.pc.a, c.pc.left) && h1.Valid()
    ensures Frame(h0, h1, {}, Addrs(c.sgl, 0)) && Standing(c.sgl, h1, 0)
    ensures h1.badFrees == h0.badFrees + DoubleFrees(t) && h1.wildWrites == h0.wildWrites
  {
    h1 := FreeTimes(h, c.pc.a, c.pc.left);
    var rest := Addrs(c.sgl, 0);
    if t.NoCopy? {
      FreeTwice(c.sgl, h, wishes[t.k], t.k);
      FrameTransitive(h0, h, h1, {}, rest + {wishes[t.k]}, rest);
    }
  }

  /** The first of `times` frees releases block `a`; the others only count as errors. */
  lemma FreeTwice(sgl: Sgl, h: Heap, a: Addr, times: nat)
    requires h.Valid() && Standing(sgl, h, 0) && 0 < times
    requires a != 0 && a in h.live && a !in Addrs(sgl, 0) && Addrs(sgl, 0) <= h.live.Keys
    ensures var h1 := FreeTimes(h, a, times);
      && h1.Valid() && Standing(sgl, h1, 0)
      && Frame(h, h1, Addrs(sgl, 0) + {a}, Addrs(sgl, 0))
      && h1.badFrees == h.badFrees + times - 1 && h1.wildWrites == h.wildWrites
  {
    var rest := Addrs(sgl, 0);
    FreeTimesOnce(h, a, times);
    FreeFrame(h, a, rest + {a});
    assert rest + {a} - {a} == rest;
    StandingWithout(sgl, h, a);
    OnlyCounted(h, h.Free(a), rest + {a}, rest, h.wildWrites, h.badFrees + times - 1, h.wildWrites);
  }

  lemma FreeTimesOnce(h: Heap, a: Addr, times: nat)
    requires a != 0 && a in h.live && 0 < times
    ensures FreeTimes(h, a, times) == h.Free(a).(badFrees := h.badFrees + times - 1)
  {
  }

  /** The counters are no part of what a frame says. */
  lemma OnlyCounted(h: Heap, h': Heap, mine: set<Addr>, mine': set<Addr>,
                    wildBefore: nat, badFrees: nat, wildWrites: nat)
    requires Frame(h, h', mine, mine')
    ensures Frame(h.(wildWrites := wildBefore), h'.(badFrees := badFrees, wildWrites := wildWrites), mine, mine')
  {
    var h1, h2 := h.(wildWrites := wildBefore), h'.(badFrees := badFrees, wildWrites := wildWrites);
    forall a | a in h1.live && a !in mine
      ensures Untouched(h1, h2, a)
    {
      assert Untouched(h, h', a);
    }
  }

  lemma LeakedIsRest(c: Call, wishes: Wishes, t: Trouble)
    requires |c.req.msgs| > 3 && !t.Smooth? && c.sgl.iovCount == t.k <= 3 && Placed(c.sgl, wishes)
    ensures Addrs(c.sgl, 1) == Leaked(c.req, wishes, t)
  {
    forall a | a in Leaked(c.req, wishes, t)
      ensures a in Addrs(c.sgl, 1)
    {
      var j: nat :| 1 <= j < t.k && j < MAX_IOV_COUNT && a == wishes[j];
      assert c.sgl.iov[j].lAddress == a;
    }
  }

  // The results

  predicate Succeeds(h: Heap, req: Request, wishes: Wishes) {
    TroubleFrom(h, req, wishes, 0).Smooth? && TailFits(req)
  }

  /**
   PackReqInfo, exactly: when it succeeds, what it then owns, and what a failure
   leaves behind. Every other block is untouched, except for the bytes behind a null
   message's short block when the refused copy clears them.
   */
  lemma PackResult(req: Request, h: Heap, wishes: Wishes)
    requires h.Valid() && Prechecked(req)
    ensures var (c', h') := Run(Start(req), h, wishes);
      var t := TroubleFrom(h, req, wishes, 0);
      && c'.req == req
      && h'.wildWrites == h.wildWrites + (if WildClear(req, t) then 1 else 0)
      && h'.badFrees == h.badFrees + DoubleFrees(t)
      && (if Succeeds(h, req, wishes) then
            c'.pc == Packed && CallInv(c', h') && Frame(h, h', {}, Held(c'))
          else
            c'.pc == Failed && Frame(Damaged(req, h, wishes, t), h', {}, Leaked(req, wishes, t)))
  {
    RunOnce(Start(req), h, wishes);
    if h.CanPlace(HEADER_SIZE, wishes[0]) {
      var c1, h1 := HeaderPlaced(req, h, wishes);
      if TroubleFrom(h, req, wishes, 0).Smooth? {
        SmoothResult(req, h, c1, h1, wishes);
      } else {
        TroubleResult(req, h, c1, h1, wishes);
      }
    } else {
      var c1 := Start(req).(pc := Failed);
      assert CallStep(Start(req), h, wishes[0]) == (c1, h);
      assert Run(c1, h, wishes) == (c1, h);
      assert Leaked(req, wishes, Refused(0)) == {};
      FrameSelf(h, {});
    }
  }

  lemma HeaderPlaced(req: Request, h: Heap, wishes: Wishes) returns (c1: Call, h1: Heap)
    requires h.Valid() && Prechecked(req) && h.CanPlace(HEADER_SIZE, wishes[0])
    ensures CallStep(Start(req), h, wishes[0]) == (c1, h1)
    ensures h1.Valid() && CallInv(c1, h1) && c1.pc == Block(0) && c1.req == req && Placed(c1.sgl, wishes)
    ensures Frame(h, h1, {}, Held(c1)) && SameCounts(h, h1)
    ensures TroubleFrom(h1, req, wishes, 1) == TroubleFrom(h, req, wishes, 0)
  {
    var c := Start(req);
    HeaderGood(c, h, wishes[0]);
    c1, h1 := CallStep(c, h, wishes[0]).0, CallStep(c, h, wishes[0]).1;
    PlainFrame(c, h, c1, h1);
    TroubleSame(h.Allocate(HEADER_SIZE, wishes[0]).0, h1, req, wishes, 1);
  }

  lemma TroubleResult(req: Request, h: Heap, c: Call, h1: Heap, wishes: Wishes)
    requires h.Valid() && h1.Valid() && CallInv(c, h1) && c.pc == Block(0) && c.req == req && Placed(c.sgl, wishes)
    requires Frame(h, h1, {}, Held(c)) && SameCounts(h, h1)
    requires !TroubleFrom(h1, req, wishes, 1).Smooth?
    ensures var (c', h') := Run(c, h1, wishes);
      var t := TroubleFrom(h1, req, wishes, 1);
      && c'.req == req && c'.pc == Failed
      && Frame(Damaged(req, h, wishes, t), h', {}, Leaked(req, wishes, t))
      && h'.wildWrites == h.wildWrites + (if WildClear(req, t) then 1 else 0)
      && h'.badFrees == h.badFrees + DoubleFrees(t)
  {
    var t := TroubleFrom(h1, req, wishes, 1);
    var c2, h2 := RunToTrouble(c, h1, wishes);
    TroubleSince(c2, h2, wishes, t, h, h1, {}, Held(c));
    var h' := RunRollback(c2, h2, wishes, t, Damaged(req, h, wishes, t));
    RunKeepsRequest(c2, h2, wishes);
  }

  lemma SmoothResult(req: Request, h: Heap, c: Call, h1: Heap, wishes: Wishes)
    requires h.Valid() && h1.Valid() && CallInv(c, h1) && c.pc == Block(0) && c.req == req && Placed(c.sgl, wishes)
    requires Frame(h, h1, {}, Held(c)) && SameCounts(h, h1)
    requires TroubleFrom(h1, req, wishes, 1).Smooth?
    ensures var (c', h') := Run(c, h1, wishes);
      && c'.req == req && SameCounts(h, h')
      && (if TailFits(req) then c'.pc == Packed && CallInv(c', h') && Frame(h, h', {}, Held(c'))
          else c'.pc == Failed && Frame(h, h', {}, {}))
  {
    var c2, h2 := RunSmooth(c, h1, wishes);
    FrameTransitive(h, h1, h2, {}, Held(c), Held(c2));
    if |req.msgs| > 3 {
      var c3, h3 := RunAppends(c2, h2, wishes);
      FrameTransitive(h, h2, h3, {}, Held(c2), Held(c3));
      TailSize(c2, h2);
      if !TailFits(req) {
        var h4 := RunFreeAll(c3, h3, wishes);
        FrameTransitive(h, h3, h4, {}, Held(c3), {});
      }
    }
  }

  lemma TailSize(c: Call, h: Heap)
    requires CallInv(c, h) && c.pc == Append(3)
    ensures RestFits(c) <==> TailFits(c.req)
  {
    var msgs := c.req.msgs;
    AppendExactEnd(c, h);
    ConcatLen(msgs[2..3]);
    assert msgs[2..3] == [msgs[2]] && [msgs[2]][..0] == [];
    RestStep(msgs, 2, c.req.seg);
  }

  lemma {:induction false} RunKeepsRequest(c: Call, h: Heap, wishes: Wishes)
    requires WellFormed(c)
    ensures Run(c, h, wishes).0.req == c.req
    decreases Stage(c.pc), Remaining(c)
  {
    if !Halted(c.pc) {
      var (c1, h1) := CallStep(c, h, WishFor(c.pc, wishes));
      RunKeepsRequest(c1, h1, wishes);
    }
  }

  /**
   With every allocation answered and data everywhere, only the segment size and an
   overfull last block can stop a call.
   */
  lemma PackSucceedsIff(req: Request, h: Heap, wishes: Wishes)
    requires h.Valid() && Prechecked(req) && AllData(req.msgs)
    requires !TroubleFrom(h, req, wishes, 0).Refused?
    ensures Run(Start(req), h, wishes).0.pc.Packed? <==>
      InRange(req.seg) && (|req.msgs| <= 3 || FitsInTurn(req.msgs[2..], req.seg))
  {
    PackResult(req, h, wishes);
    RangeDecides(req, h, wishes, 0);
  }

  lemma {:induction false} RangeDecides(req: Request, h: Heap, wishes: Wishes, k: nat)
    requires k <= SetCount(req) + 1 && Prechecked(req) && AllData(req.msgs)
    ensures InRange(req.seg) ==> !TroubleFrom(h, req, wishes, k).NoCopy?
    ensures !InRange(req.seg) && k <= SetCount(req) ==> !TroubleFrom(h, req, wishes, k).Smooth?
    decreases SetCount(req) + 1 - k
  {
    if k <= SetCount(req) && h.CanPlace(Room(req, k), wishes[k]) {
      RangeDecides(req, h.Allocate(Room(req, k), wishes[k]).0, wishes, k + 1);
    }
  }

  /**
   A failed call restores the allocator unless SetReqInfo stopped at the second or third
   of more than three messages.
   */
  lemma FailureRestoresIff(req: Request, h: Heap, wishes: Wishes)
    requires h.Valid() && Prechecked(req)
    requires Run(Start(req), h, wishes).0.pc.Failed?
    ensures var t := TroubleFrom(h, req, wishes, 0);
      var h' := Run(Start(req), h, wishes).1;
      && (h'.live == h.live <==> !(|req.msgs| > 3 && !t.Smooth? && 2 <= t.k))
      && h'.live.Keys - h.live.Keys == Leaked(req, wishes, t)
      && |Leaked(req, wishes, t)| == if |req.msgs| > 3 && !t.Smooth? && 2 <= t.k then t.k - 1 else 0
  {
    PackResult(req, h, wishes);
    var t := TroubleFrom(h, req, wishes, 0);
    NewBlocks(Damaged(req, h, wishes, t), Run(Start(req), h, wishes).1, Leaked(req, wishes, t));
    if |req.msgs| > 3 && !t.Smooth? {
      DistinctWishes(req, h, wishes, t);
    } else {
      assert Leaked(req, wishes, t) == {};
    }
  }

  lemma NewBlocks(h: Heap, h': Heap, new': set<Addr>)
    requires Frame(h, h', {}, new')
    ensures h'.live.Keys - h.live.Keys == new'
    ensures h'.live == h.live <==> |new'| == 0
  {
    forall a | a in h.live
      ensures a in h'.live && h'.live[a] == h.live[a]
    {
      assert Untouched(h, h', a);
    }
    if new' != {} {
      var a :| a in new';
      assert a in h'.live.Keys && a !in h.live.Keys;
    }
  }

  /** The blocks placed before trouble are all at different addresses. */
  lemma DistinctWishes(req: Request, h: Heap, wishes: Wishes, t: Trouble)
    requires |req.msgs| > 3 && t == TroubleFrom(h, req, wishes, 0) && !t.Smooth?
    ensures |Leaked(req, wishes, t)| == if 2 <= t.k then t.k - 1 else 0
  {
    var leaked := Leaked(req, wishes, t);
    if t.k <= 1 {
      assert leaked == {};
    } else if t.k == 2 {
      assert leaked == {wishes[1]};
    } else {
      var h1 := h.Allocate(Room(req, 0), wishes[0]).0;
      var h2 := h1.Allocate(Room(req, 1), wishes[1]).0;
      assert TroubleFrom(h, req, wishes, 0) == TroubleFrom(h1, req, wishes, 1);
      assert TroubleFrom(h1, req, wishes, 1) == TroubleFrom(h2, req, wishes, 2);
      assert h2.CanPlace(Room(req, 2), wishes[2]);
      assert wishes[1] != wishes[2];
      assert leaked == {wishes[1], wishes[2]};
    }
  }

  /** A synchronous call that packs leaves the allocator as it found it, whatever the channel answered. */
  lemma SyncCallRestores(req: Request, h: Heap, wishes: Wishes, ok: bool)
    requires h.Valid() && Prechecked(req) && Succeeds(h, req, wishes)
    ensures var (c1, h1) := Run(Start(req), h, wishes);
      var (c2, h2) := Run(c1.(pc := FreeSent(0, ok)), h1, wishes);
      c2.pc == Freed(ok) && h2.live == h.live && h2.badFrees == h.badFrees && h2.wildWrites == h.wildWrites
  {
    PackResult(req, h, wishes);
    var (c1, h1) := Run(Start(req), h, wishes);
    SuccessCounts(req, h, wishes);
    ReleaseReady(c1, h1, ok);
    var h2 := RunFreeSent(c1.(pc := FreeSent(0, ok)), h1, wishes);
    FrameTransitive(h, h1, h2, {}, Held(c1), {});
    NewBlocks(h, h2, {});
  }

  lemma ReleaseReady(c: Call, h: Heap, ok: bool)
    requires CallInv(c, h) && c.pc.Packed?
    ensures CallInv(c.(pc := FreeSent(0, ok)), h) && Held(c.(pc := FreeSent(0, ok))) == Held(c)
  {
    AddrsLive(c.req, c.sgl, h, SetCount(c.req) + 1, |c.req.msgs|);
  }

  lemma SuccessCounts(req: Request, h: Heap, wishes: Wishes)
    requires Succeeds(h, req, wishes)
    ensures DoubleFrees(TroubleFrom(h, req, wishes, 0)) == 0
  {
  }

  /**
   A block is freed twice exactly when the copy of the second or third message is refused
   with its block allocated.
   */
  lemma DoubleFreeIff(req: Request, h: Heap, wishes: Wishes)
    requires h.Valid() && Prechecked(req)
    ensures var t := TroubleFrom(h, req, wishes, 0);
      Run(Start(req), h, wishes).1.badFrees == h.badFrees <==> !(t.NoCopy? && 2 <= t.k)
  {
    PackResult(req, h, wishes);
  }
}
