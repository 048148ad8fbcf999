/**
 A segment size that changes under a call. g_options is shared by all servers and read
 anew by every iteration: creating another server writes the default and then its own
 configured size into it, destroying one resets it to 0.
 */
module SegmentSize {
  import opened Machine
  import opened Pool
  import opened PackMachine
  import opened PackInvariant
  import opened PackOutcome
  import opened SafeRequests

  /**
   An append under the size `seg` in force runs past the last block, which was allocated
   under `c.req.seg`.
   */
  predicate Overruns(c: Call, seg: u32)
    requires c.pc.Append? && c.pc.i < |c.req.msgs|
  {
    var m, held := c.req.msgs[c.pc.i], c.sgl.iov[3].size;
    c.req.seg < seg <= held + MEMCPY_LIMIT && !(m.Data? && held + m.Len() <= c.req.seg)
  }

  lemma LastBlock(c: Call, h: Heap)
    requires CallInv(c, h) && c.pc.Append? && c.pc.i < |c.req.msgs|
    ensures var last := c.sgl.iov[3];
      && last.size == |Concat(c.req.msgs[2..c.pc.i])| <= c.req.seg <= MEMCPY_LIMIT
      && last.lAddress in h.live && h.live[last.lAddress] == c.req.seg
  {
    assert GoodEntry(c.req, c.sgl, h, 3, c.pc.i);
  }

  /** The remaining capacity is exact exactly when the size in force is not below what the last block holds. */
  lemma CapacityExactIff(c: Call, h: Heap, seg: u32)
    requires CallInv(c, h) && c.pc.Append? && c.pc.i < |c.req.msgs|
    ensures ToU32(seg - c.sgl.iov[3].size) == seg - c.sgl.iov[3].size <==> |Concat(c.req.msgs[2..c.pc.i])| <= seg
  {
    LastBlock(c, h);
  }

  /** A capacity that wraps is far above what memcpy_s accepts. */
  lemma WrappedOutOfRange(held: nat, seg: nat)
    requires seg < held <= MEMCPY_LIMIT
    ensures !InRange(ToU32(seg - held))
  {
    assert ToU32(seg - held) == 0x1_0000_0000 + seg - held;
  }

  /** An append leaves its block exactly when it overruns, under every size that may be in force. */
  lemma AppendUnderIff(c: Call, h: Heap, seg: u32)
    requires h.Valid() && CallInv(c, h) && c.pc.Append? && c.pc.i < |c.req.msgs|
    ensures AppendUnder(c, h, seg).1.wildWrites > h.wildWrites <==> Overruns(c, seg)
  {
    var m, last := c.req.msgs[c.pc.i], c.sgl.iov[3];
    LastBlock(c, h);
    if seg < last.size {
      WrappedOutOfRange(last.size, seg);
    } else {
      assert ToU32(seg - last.size) == seg - last.size;
    }
  }

  /** An append that does not overrun keeps all that an append under an unchanged size keeps. */
  lemma AppendUnderGood(c: Call, h: Heap, seg: u32)
    requires h.Valid() && CallInv(c, h) && c.pc.Append? && c.pc.i < |c.req.msgs|
    ensures var (c', h') := AppendUnder(c, h, seg); GoodStep(c, h, c', h') <==> !Overruns(c, seg)
  {
    AppendUnderIff(c, h, seg);
    if !Overruns(c, seg) {
      LastBlock(c, h);
      var m, held := c.req.msgs[c.pc.i], c.sgl.iov[3].size;
      if CopyFits(m, ToU32(seg - held)) {
        AppendedUnder(c, h, seg);
      } else {
        RefusedUnder(c, h, seg);
      }
    }
  }

  lemma AppendedUnder(c: Call, h: Heap, seg: u32)
    requires h.Valid() && CallInv(c, h) && c.pc.Append? && c.pc.i < |c.req.msgs|
    requires !Overruns(c, seg) && CopyFits(c.req.msgs[c.pc.i], ToU32(seg - c.sgl.iov[3].size))
    ensures var (c', h') := AppendUnder(c, h, seg); GoodStep(c, h, c', h')
  {
    var m, last := c.req.msgs[c.pc.i], c.sgl.iov[3];
    LastBlock(c, h);
    InsideBlock(last.size, m.Len(), c.req.seg, seg);
    AppendUnderShape(c, h, seg);
    Appended(c, h);
  }

  lemma Appended(c: Call, h: Heap)
    requires h.Valid() && CallInv(c, h) && c.pc.Append? && c.pc.i < |c.req.msgs| && c.req.msgs[c.pc.i].Data?
    requires c.sgl.iov[3].size + c.req.msgs[c.pc.i].Len() <= c.req.seg
    ensures var m, last := c.req.msgs[c.pc.i], c.sgl.iov[3];
      var sgl' := c.sgl.(iov := c.sgl.iov[3 := last.(size := last.size + m.Len())]);
      GoodStep(c, h, Call(c.req, sgl', Append(c.pc.i + 1)), h.Write(last.lAddress, last.size, m.bytes))
  {
    var m, last := c.req.msgs[c.pc.i], c.sgl.iov[3];
    var sgl' := c.sgl.(iov := c.sgl.iov[3 := last.(size := last.size + m.Len())]);
    AppendBytes(c, h, c.pc.i);
    MakesGood(c, h, Call(c.req, sgl', Append(c.pc.i + 1)), h.Write(last.lAddress, last.size, m.bytes));
  }

  /** An accepted length that does not overrun ends inside the block. */
  lemma InsideBlock(held: nat, len: nat, room: nat, seg: u32)
    requires held <= room <= MEMCPY_LIMIT && InRange(ToU32(seg - held)) && len <= ToU32(seg - held)
    requires !(room < seg <= held + MEMCPY_LIMIT && held + len > room)
    ensures held + len <= room
  {
  }

  lemma AppendUnderShape(c: Call, h: Heap, seg: u32)
    requires WellFormed(c) && c.pc.Append? && c.pc.i < |c.req.msgs|
    requires CopyFits(c.req.msgs[c.pc.i], ToU32(seg - c.sgl.iov[3].size))
    requires c.sgl.iov[3].size + c.req.msgs[c.pc.i].Len() <= c.req.seg
    ensures var m, last := c.req.msgs[c.pc.i], c.sgl.iov[3];
      AppendUnder(c, h, seg) ==
        (Call(c.req, c.sgl.(iov := c.sgl.iov[3 := last.(size := last.size + m.Len())]), Append(c.pc.i + 1)),
         h.Write(last.lAddress, last.size, m.bytes))
  {
  }

  lemma RefusedUnder(c: Call, h: Heap, seg: u32)
    requires h.Valid() && CallInv(c, h) && c.pc.Append? && c.pc.i < |c.req.msgs|
    requires !Overruns(c, seg) && !CopyFits(c.req.msgs[c.pc.i], ToU32(seg - c.sgl.iov[3].size))
    ensures var (c', h') := AppendUnder(c, h, seg); GoodStep(c, h, c', h')
  {
    var last, capacity := c.sgl.iov[3], ToU32(seg - c.sgl.iov[3].size);
    LastBlock(c, h);
    assert AppendUnder(c, h, seg) == (c.(pc := FreeAll(0)), h.Clear(last.lAddress, last.size, capacity));
    if InRange(capacity) {
      ClearsInside(c.req.msgs[c.pc.i], last.size, c.req.seg, seg);
      ClearedLast(c, h, capacity);
    } else {
      ClearedLast(c, h, 0);
    }
  }

  /** A refusal that does not overrun clears inside the block. */
  lemma ClearsInside(m: Message, held: nat, room: nat, seg: u32)
    requires held <= room <= MEMCPY_LIMIT && InRange(ToU32(seg - held)) && !CopyFits(m, ToU32(seg - held))
    requires !(room < seg <= held + MEMCPY_LIMIT && !(m.Data? && held + m.Len() <= room))
    ensures held + ToU32(seg - held) <= room
  {
  }

  /** After a reset to 0 every append is refused without touching the pool. */
  lemma ResetRefuses(c: Call, h: Heap)
    requires h.Valid() && CallInv(c, h) && c.pc.Append? && c.pc.i < |c.req.msgs|
    ensures AppendUnder(c, h, 0) == (c.(pc := FreeAll(0)), h)
  {
    LastBlock(c, h);
    if 0 < c.sgl.iov[3].size {
      WrappedOutOfRange(c.sgl.iov[3].size, 0);
    }
  }

  /**
   The loop of SetReqInfo reads the size twice: for the block of the last message, here
   `size` bytes, and as the capacity of the copy, `seg`. A placed block is overrun exactly
   when a copy that is made is longer than it, or a clearing is.
   */
  lemma BlockUnderIff(c: Call, h: Heap, wish: Addr, size: u32, seg: u32)
    requires h.Valid() && WellFormed(c) && Prechecked(c.req) && c.pc.Block? && h.CanPlace(size, wish)
    ensures var m := c.req.msgs[c.pc.i];
      BlockUnder(c, h, wish, size, seg).1.wildWrites > h.wildWrites <==>
        InRange(seg) && size < if m.Data? && m.Len() <= seg then m.Len() else seg
  {
    var h1 := h.Allocate(size, wish).0;
    assert h1.live[wish] == size;
  }

  // A size that grows

  /** The call after `n` steps of its own. */
  function After(c: Call, h: Heap, wishes: Wishes, n: nat): (r: (Call, Heap))
    requires WellFormed(c)
    ensures WellFormed(r.0)
    decreases n
  {
    if n == 0 then (c, h)
    else
      var (c1, h1) := CallStep(c, h, WishFor(c.pc, wishes));
      After(c1, h1, wishes, n - 1)
  }

  /** The blocks not yet set up take one step each. */
  lemma {:induction false} BlocksTakeSteps(c: Call, h: Heap, wishes: Wishes)
    requires h.Valid() && CallInv(c, h) && c.pc.Block? && Placed(c.sgl, wishes)
    requires TroubleFrom(h, c.req, wishes, c.pc.i + 1).Smooth?
    ensures var (c', h') := After(c, h, wishes, SetCount(c.req) - c.pc.i);
      h'.Valid() && CallInv(c', h') && c'.pc == AfterBlocks(c.req) && c'.req == c.req
    decreases SetCount(c.req) - c.pc.i
  {
    var c1, h1 := SmoothStep(c, h, wishes);
    AfterNext(c, h, wishes, c1, h1, SetCount(c.req) - c.pc.i);
    if c.pc.i + 1 < SetCount(c.req) {
      BlocksTakeSteps(c1, h1, wishes);
    }
  }

  lemma AfterNext(c: Call, h: Heap, wishes: Wishes, c1: Call, h1: Heap, n: nat)
    requires WellFormed(c) && 0 < n && (c1, h1) == CallStep(c, h, WishFor(c.pc, wishes))
    ensures After(c, h, wishes, n) == After(c1, h1, wishes, n - 1)
    ensures n == 1 ==> After(c, h, wishes, n) == (c1, h1)
  {
    assert n == 1 ==> After(c1, h1, wishes, 0) == (c1, h1);
  }

  /** In the roomy pool a call of more than three messages with data comes to its append loop in four steps. */
  lemma ReachesAppend(req: Request)
    requires Prechecked(req) && |req.msgs| > 3 && AllData(req.msgs) && InRange(req.seg)
    ensures var (c, h) := After(Start(req), RoomyPool(req), RoomyWishes(req), 4);
      h.Valid() && CallInv(c, h) && c.pc == Append(3) && c.req == req
  {
    var h0, wishes := RoomyPool(req), RoomyWishes(req);
    RoomyTrouble(req);
    assert FirstRefused(req, 0) == SetCount(req);
    var c1, h1 := HeaderPlaced(req, h0, wishes);
    assert After(Start(req), h0, wishes, 4) == After(c1, h1, wishes, 3);
    BlocksTakeSteps(c1, h1, wishes);
  }

  /**
   For every request with data whose third and fourth message do not fit into one segment
   together, which is refused under an unchanged size: if the size grows before the fourth
   message is appended, that message runs past its block.
   */
  lemma GrowthOverruns(req: Request, seg: u32)
    requires Prechecked(req) && |req.msgs| > 3 && AllData(req.msgs) && InRange(req.seg)
    requires req.msgs[2].Len() + req.msgs[3].Len() > req.seg && req.seg < seg <= MEMCPY_LIMIT
    ensures var (c, h) := After(Start(req), RoomyPool(req), RoomyWishes(req), 4);
      && c.pc == Append(3)
      && AppendStep(c, h).0.pc == FreeAll(0)
      && AppendUnder(c, h, seg).1.wildWrites > h.wildWrites
  {
    ReachesAppend(req);
    var (c, h) := After(Start(req), RoomyPool(req), RoomyWishes(req), 4);
    FourthRefused(c, h);
    AppendUnderIff(c, h, seg);
  }

  lemma FourthRefused(c: Call, h: Heap)
    requires h.Valid() && CallInv(c, h) && c.pc == Append(3) && |c.req.msgs| > 3 && AllData(c.req.msgs)
    requires c.req.msgs[2].Len() + c.req.msgs[3].Len() > c.req.seg
    ensures c.sgl.iov[3].size == c.req.msgs[2].Len()
    ensures AppendStep(c, h).0.pc == FreeAll(0)
  {
    LastBlock(c, h);
    assert c.req.msgs[2..3] == [c.req.msgs[2]];
    ConcatOne(c.req.msgs[2]);
  }

  /** Four short messages, a segment size of 4, and another server created with the default of 65536. */
  const SHORT := Request(1, [Data([1]), Data([2]), Data([3, 4]), Data([5, 6, 7])], 4, 0, None)

  lemma DefaultOverrunsShort()
    ensures Prechecked(SHORT) && SafeReq(SHORT)
    ensures var (c, h) := After(Start(SHORT), RoomyPool(SHORT), RoomyWishes(SHORT), 4);
      c.pc == Append(3) && AppendUnder(c, h, 65536).1.wildWrites > h.wildWrites
  {
    GrowthOverruns(SHORT, 65536);
  }
}
