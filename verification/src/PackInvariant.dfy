/** What every step of a packing call keeps, and what it does to the pool. */
module PackInvariant {
  import opened Machine
  import opened Pool
  import opened PackMachine

  /** The bytes entry `k` must hold once the first `i` messages are packed. */
  ghost function Part(req: Request, k: nat, i: nat): Bytes
    requires k <= i <= |req.msgs|
  {
    if k == 0 then EncodeHeader(req.msgId)
    else if k == 3 then Concat(req.msgs[2..i])
    else req.msgs[k - 1].Body()
  }

  /** The size of the block behind entry `k`. */
  function Room(req: Request, k: nat): nat
    requires k <= SetCount(req)
  {
    if k == 0 then HEADER_SIZE else BlockSize(req, k - 1)
  }

  ghost predicate GoodEntry(req: Request, sgl: Sgl, h: Heap, k: nat, i: nat)
    requires k <= SetCount(req) && k <= i <= |req.msgs|
  {
    var e := sgl.iov[k];
    && e.lAddress in h.live && h.live[e.lAddress] == Room(req, k)
    && e.lKey == h.key
    && e.size == |Part(req, k, i)| <= Room(req, k)
    && h.Read(e.lAddress, e.size) == Part(req, k, i)
  }

  ghost predicate Distinct(sgl: Sgl, from: nat) {
    forall j, k :: from <= j < k < sgl.iovCount && k < MAX_IOV_COUNT ==> sgl.iov[j].lAddress != sgl.iov[k].lAddress
  }

  ghost predicate RestEmpty(sgl: Sgl) {
    forall k :: sgl.iovCount <= k < MAX_IOV_COUNT ==> sgl.iov[k] == EMPTY_IOV
  }

  /** `m` entries are filled and hold the header and the first `i` messages. */
  ghost predicate Recorded(req: Request, sgl: Sgl, h: Heap, m: nat, i: nat)
    requires m <= SetCount(req) + 1 && m <= i + 1 && i <= |req.msgs|
  {
    && sgl.iovCount == m
    && (forall j :: 0 <= j < i ==> req.msgs[j].Data?)
    && (0 < i ==> InRange(req.seg))
    && (forall k :: 0 <= k < m ==> GoodEntry(req, sgl, h, k, i))
    && Distinct(sgl, 0)
    && RestEmpty(sgl)
  }

  /** The entries from `from` on still name live blocks, each its own. */
  ghost predicate Standing(sgl: Sgl, h: Heap, from: nat) {
    && sgl.iovCount <= MAX_IOV_COUNT
    && (forall k :: from <= k < sgl.iovCount ==> sgl.iov[k].lAddress in h.live)
    && Distinct(sgl, from)
    && RestEmpty(sgl)
  }

  ghost predicate CallInv(c: Call, h: Heap) {
    && Prechecked(c.req)
    && WellFormed(c)
    && match c.pc
       case Header => c.sgl == EMPTY_SGL
       case Block(i) => Recorded(c.req, c.sgl, h, i + 1, i)
       case Append(i) => |c.req.msgs| > 3 && Recorded(c.req, c.sgl, h, 4, i)
       case Packed => Recorded(c.req, c.sgl, h, SetCount(c.req) + 1, |c.req.msgs|)
       case Undo(a, left) =>
         && 1 <= c.sgl.iovCount <= SetCount(c.req) && Standing(c.sgl, h, 0)
         && (a == 0 || left == 0 || (left == 1 && a in h.live && a !in Addrs(c.sgl, 0)))
       case FreeHeader => |c.req.msgs| > 3 && 1 <= c.sgl.iovCount <= 3 && Standing(c.sgl, h, 0)
       case FreeAll(k) => Standing(c.sgl, h, k)
       case FreeSent(k, _) => Standing(c.sgl, h, k)
       case Failed => true
       case Freed(_) => true
  }

  /** The addresses of the entries `from` and up. */
  function Addrs(sgl: Sgl, from: nat): set<Addr> {
    set k: nat | from <= k < MAX_IOV_COUNT && k < sgl.iovCount :: sgl.iov[k].lAddress
  }

  /** The blocks the call still has to release, itself or through its request. */
  function Held(c: Call): set<Addr> {
    match c.pc
    case Header => {}
    case Failed => {}
    case Freed(_) => {}
    case FreeAll(k) => Addrs(c.sgl, k)
    case FreeSent(k, _) => Addrs(c.sgl, k)
    case Undo(a, left) => Addrs(c.sgl, 0) + if a != 0 && left > 0 then {a} else {}
    case _ => Addrs(c.sgl, 0)
  }

  /** The data blocks PackReqInfo forgets when SetReqInfo fails for more than three messages. */
  function Forgotten(c: Call): set<Addr> {
    if c.pc.FreeHeader? then Addrs(c.sgl, 1) else {}
  }

  /** SetReqInfo at a message whose copy will be refused. */
  predicate MeetsRefusal(c: Call) {
    c.pc.Block? && c.pc.i < |c.req.msgs| && !CopyFits(c.req.msgs[c.pc.i], c.req.seg)
  }

  /**
   The step after which a rollback loop frees its block more than once, or the clearing
   of a refused copy runs past its block.
   */
  predicate Harmful(c: Call) {
    MeetsRefusal(c) && (c.pc.i > 0 || (InRange(c.req.seg) && BlockSize(c.req, c.pc.i) < c.req.seg))
  }

  lemma SafeIsHarmless(c: Call, h: Heap)
    requires CallInv(c, h) && SafeReq(c.req)
    ensures !Harmful(c)
  {
  }

  // Facts about the packed bytes

  lemma ConcatTail(xs: seq<Message>)
    requires xs != []
    ensures Concat(xs) == Concat(xs[..|xs| - 1]) + xs[|xs| - 1].Body()
  {
  }

  lemma {:induction false} ConcatAppend(xs: seq<Message>, ys: seq<Message>)
    ensures Concat(xs + ys) == Concat(xs) + Concat(ys)
    decreases |ys|
  {
    if ys == [] {
      assert xs + ys == xs;
    } else {
      var front, last := ys[..|ys| - 1], ys[|ys| - 1];
      assert (xs + ys)[..|xs + ys| - 1] == xs + front;
      ConcatAppend(xs, front);
      ConcatTail(xs + ys);
      ConcatTail(ys);
      assert (Concat(xs) + Concat(front)) + last.Body() == Concat(xs) + (Concat(front) + last.Body());
    }
  }

  lemma {:induction false} ConcatLen(xs: seq<Message>)
    requires AllData(xs)
    ensures |Concat(xs)| == TotalLen(xs)
  {
    if xs != [] {
      ConcatLen(xs[..|xs| - 1]);
    }
  }

  lemma ConcatOne(m: Message)
    ensures Concat([m]) == m.Body()
  {
    assert [m][..0] == [];
  }

  // The steps

  lemma AddrsOfPut(sgl: Sgl, k: nat, e: Iov)
    requires k == sgl.iovCount < MAX_IOV_COUNT
    ensures Addrs(sgl.Put(k, e), 0) == Addrs(sgl, 0) + {e.lAddress}
  {
    var s := sgl.Put(k, e);
    forall j: nat | j < k
      ensures s.iov[j] == sgl.iov[j]
    {
    }
    assert s.iov[k].lAddress in Addrs(s, 0);
  }

  lemma AddrsLive(req: Request, sgl: Sgl, h: Heap, m: nat, i: nat)
    requires m <= SetCount(req) + 1 && m <= i + 1 && i <= |req.msgs|
    requires Recorded(req, sgl, h, m, i)
    ensures Addrs(sgl, 0) <= h.live.Keys
    ensures Standing(sgl, h, 0)
  {
    forall a | a in Addrs(sgl, 0)
      ensures a in h.live
    {
      var k: nat :| k < MAX_IOV_COUNT && k < sgl.iovCount && a == sgl.iov[k].lAddress;
      assert GoodEntry(req, sgl, h, k, i);
    }
    forall k | 0 <= k < sgl.iovCount
      ensures sgl.iov[k].lAddress in h.live
    {
      assert GoodEntry(req, sgl, h, k, i);
    }
  }

  /** A step of another owner leaves a call's blocks and their contents alone. */
  lemma GoodEntryFramed(req: Request, sgl: Sgl, h: Heap, h': Heap, k: nat, i: nat)
    requires k <= SetCount(req) && k <= i <= |req.msgs|
    requires h.Valid() && h'.Valid() && h'.base == h.base && |h'.mem| == |h.mem| && h'.key == h.key
    requires GoodEntry(req, sgl, h, k, i)
    requires Untouched(h, h', sgl.iov[k].lAddress)
    ensures GoodEntry(req, sgl, h', k, i)
  {
    PrefixUntouched(h, h', sgl.iov[k].lAddress, sgl.iov[k].size);
  }

  lemma RecordedFramed(req: Request, sgl: Sgl, h: Heap, h': Heap, m: nat, i: nat, mine: set<Addr>, mine': set<Addr>)
    requires m <= SetCount(req) + 1 && m <= i + 1 && i <= |req.msgs|
    requires h.Valid() && Frame(h, h', mine, mine') && Addrs(sgl, 0) !! mine
    requires Recorded(req, sgl, h, m, i)
    ensures Recorded(req, sgl, h', m, i)
  {
    forall k | 0 <= k < m
      ensures GoodEntry(req, sgl, h', k, i)
    {
      assert GoodEntry(req, sgl, h, k, i);
      assert sgl.iov[k].lAddress in Addrs(sgl, 0);
      assert Untouched(h, h', sgl.iov[k].lAddress);
      GoodEntryFramed(req, sgl, h, h', k, i);
    }
  }

  lemma StandingFramed(sgl: Sgl, h: Heap, h': Heap, from: nat, mine: set<Addr>, mine': set<Addr>)
    requires Frame(h, h', mine, mine') && Addrs(sgl, from) !! mine
    requires Standing(sgl, h, from)
    ensures Standing(sgl, h', from)
  {
    forall k | from <= k < sgl.iovCount
      ensures sgl.iov[k].lAddress in h'.live
    {
      assert sgl.iov[k].lAddress in Addrs(sgl, from);
      assert Untouched(h, h', sgl.iov[k].lAddress);
    }
  }

  lemma CallInvFramed(c: Call, h: Heap, h': Heap, mine: set<Addr>, mine': set<Addr>)
    requires h.Valid() && Frame(h, h', mine, mine') && Held(c) !! mine
    requires CallInv(c, h)
    ensures CallInv(c, h')
  {
    match c.pc
    case Block(i) => RecordedFramed(c.req, c.sgl, h, h', i + 1, i, mine, mine');
    case Append(i) => RecordedFramed(c.req, c.sgl, h, h', 4, i, mine, mine');
    case Packed => RecordedFramed(c.req, c.sgl, h, h', SetCount(c.req) + 1, |c.req.msgs|, mine, mine');
    case Undo(a, left) =>
      StandingFramed(c.sgl, h, h', 0, mine, mine');
      assert a != 0 && left > 0 ==> a in Held(c);
    case FreeHeader => StandingFramed(c.sgl, h, h', 0, mine, mine');
    case FreeAll(k) => StandingFramed(c.sgl, h, h', k, mine, mine');
    case FreeSent(k, _) => StandingFramed(c.sgl, h, h', k, mine, mine');
    case _ =>
  }

  lemma HeldLive(c: Call, h: Heap)
    requires CallInv(c, h)
    ensures Held(c) <= h.live.Keys
  {
    match c.pc
    case Block(i) => AddrsLive(c.req, c.sgl, h, i + 1, i);
    case Append(i) => AddrsLive(c.req, c.sgl, h, 4, i);
    case Packed => AddrsLive(c.req, c.sgl, h, SetCount(c.req) + 1, |c.req.msgs|);
    case _ =>
  }

  /** What one step of a call does to the pool and to its own obligations. */
  ghost predicate GoodStep(c: Call, h: Heap, c': Call, h': Heap) {
    && CallInv(c', h')
    && c'.req == c.req
    && Held(c') !! Forgotten(c)
    && Frame(h, h', Held(c), Held(c') + Forgotten(c))
    && h'.badFrees == h.badFrees && h'.wildWrites == h.wildWrites
  }

  lemma PlainFrame(c: Call, h: Heap, c': Call, h': Heap)
    requires GoodStep(c, h, c', h') && !c.pc.FreeHeader?
    ensures Frame(h, h', Held(c), Held(c'))
  {
    assert Held(c') + {} == Held(c');
  }

  /** What is left to show when a step gives up nothing. */
  lemma MakesGood(c: Call, h: Heap, c': Call, h': Heap)
    requires CallInv(c', h') && c'.req == c.req && !c.pc.FreeHeader?
    requires Frame(h, h', Held(c), Held(c'))
    requires h'.badFrees == h.badFrees && h'.wildWrites == h.wildWrites
    ensures GoodStep(c, h, c', h')
  {
    assert Held(c') + {} == Held(c');
  }

  /** Allocating a block, filling it and recording it as entry `k`. */
  lemma RecordBlock(c: Call, h: Heap, k: nat, wish: Addr, bytes: Bytes, pc': Pc)
    requires h.Valid() && Prechecked(c.req) && WellFormed(c)
    requires k <= SetCount(c.req)
    requires k > 0 ==> Recorded(c.req, c.sgl, h, k, k - 1) && CopyFits(c.req.msgs[k - 1], c.req.seg)
    requires k == 0 ==> c.sgl == EMPTY_SGL
    requires h.CanPlace(Room(c.req, k), wish)
    requires bytes == Part(c.req, k, k) && |bytes| <= Room(c.req, k)
    ensures var (h1, a) := h.Allocate(Room(c.req, k), wish);
      var c' := c.(sgl := c.sgl.Put(k, Iov(a, h.key, |bytes|)), pc := pc');
      var h' := h1.Write(a, 0, bytes);
      && Recorded(c'.req, c'.sgl, h', k + 1, k)
      && Frame(h, h', Addrs(c.sgl, 0), Addrs(c'.sgl, 0))
      && h'.badFrees == h.badFrees && h'.wildWrites == h.wildWrites
  {
    var (h1, a) := h.Allocate(Room(c.req, k), wish);
    var c' := c.(sgl := c.sgl.Put(k, Iov(a, h.key, |bytes|)), pc := pc');
    var h' := h1.Write(a, 0, bytes);
    AllocateFrame(h, Room(c.req, k), wish);
    WriteFrame(h1, a, 0, bytes);
    assert h1.Read(a, 0) == [];
    FrameTransitive(h, h1, h', {}, {a}, {a});
    if k > 0 {
      AddrsLive(c.req, c.sgl, h, k, k - 1);
    }
    AddrsOfPut(c.sgl, k, Iov(a, h.key, |bytes|));
    forall j | 0 <= j < k + 1
      ensures GoodEntry(c'.req, c'.sgl, h', j, k)
    {
      if j < k {
        assert GoodEntry(c.req, c.sgl, h, j, k - 1);
        assert Part(c.req, j, k) == Part(c.req, j, k - 1);
        assert Untouched(h, h', c.sgl.iov[j].lAddress);
        GoodEntryFramed(c.req, c.sgl, h, h', j, k - 1);
      } else {
        assert h'.Read(a, |bytes|) == bytes;
      }
    }
    assert Recorded(c'.req, c'.sgl, h', k + 1, k);
    forall x | x in h.live && x !in Addrs(c.sgl, 0)
      ensures Untouched(h, h', x)
    {
    }
  }

  lemma HeaderGood(c: Call, h: Heap, wish: Addr)
    requires h.Valid() && CallInv(c, h) && c.pc.Header?
    ensures var (c', h') := CallStep(c, h, wish); GoodStep(c, h, c', h')
  {
    if h.CanPlace(HEADER_SIZE, wish) {
      RecordBlock(c, h, 0, wish, EncodeHeader(c.req.msgId), Block(0));
      assert Addrs(c.sgl, 0) == {};
    }
  }

  /** A call that has just recorded message `i - 1` is where the next step expects it. */
  lemma RecordedInv(c: Call, h: Heap, i: nat)
    requires Prechecked(c.req) && 1 <= i <= SetCount(c.req)
    requires Recorded(c.req, c.sgl, h, i + 1, i)
    requires c.pc == if i == SetCount(c.req) then AfterBlocks(c.req) else Block(i)
    ensures CallInv(c, h) && Held(c) == Addrs(c.sgl, 0)
  {
  }

  lemma BlockGood(c: Call, h: Heap, wish: Addr)
    requires h.Valid() && CallInv(c, h) && c.pc.Block?
    requires !(Harmful(c) && h.CanPlace(BlockSize(c.req, c.pc.i), wish))
    ensures var (c', h') := CallStep(c, h, wish); GoodStep(c, h, c', h')
  {
    var i := c.pc.i;
    AddrsLive(c.req, c.sgl, h, i + 1, i);
    if !h.CanPlace(BlockSize(c.req, i), wish) {
      assert CallStep(c, h, wish) == (c.(pc := Undo(0, i)), h);
      FrameSelf(h, Held(c));
    } else if MeetsRefusal(c) {
      FirstRefusedGood(c, h, wish);
    } else {
      BlockPlaced(c, h, wish);
    }
  }

  /**
   A refused first copy into a block of a whole segment, or under a segment size out of
   range: the block is cleared or not, and the rollback will free it once.
   */
  lemma FirstRefusedGood(c: Call, h: Heap, wish: Addr)
    requires h.Valid() && CallInv(c, h) && MeetsRefusal(c) && !Harmful(c)
    requires h.CanPlace(BlockSize(c.req, c.pc.i), wish)
    ensures var (c', h') := CallStep(c, h, wish); GoodStep(c, h, c', h')
  {
    var size := BlockSize(c.req, 0);
    var h1 := h.Allocate(size, wish).0;
    var h' := h1.Clear(wish, 0, c.req.seg);
    var rest := Addrs(c.sgl, 0);
    AddrsLive(c.req, c.sgl, h, 1, 0);
    AllocateFrame(h, size, wish);
    if InRange(c.req.seg) {
      ClearFrame(h1, wish, 0, c.req.seg);
      FrameTransitive(h, h1, h', {}, {wish}, {wish});
    }
    StandingFramed(c.sgl, h, h', 0, {}, {wish});
    FrameAdd(h, h', {}, {wish}, rest);
    assert CallStep(c, h, wish) == (c.(pc := Undo(wish, 1)), h');
  }

  /** A step that leaves some of its owner's blocks alone may also be said to keep them. */
  lemma FrameAdd(h: Heap, h': Heap, mine: set<Addr>, mine': set<Addr>, more: set<Addr>)
    requires Frame(h, h', mine, mine') && more <= h.live.Keys && more !! mine && more !! mine'
    ensures Frame(h, h', more + mine, more + mine')
    ensures mine == {} ==> Frame(h, h', more, more + mine')
  {
    assert mine == {} ==> more + mine == more;
  }

  lemma BlockPlaced(c: Call, h: Heap, wish: Addr)
    requires h.Valid() && CallInv(c, h) && c.pc.Block? && !MeetsRefusal(c)
    requires h.CanPlace(BlockSize(c.req, c.pc.i), wish)
    ensures var (c', h') := CallStep(c, h, wish);
      && GoodStep(c, h, c', h')
      && c'.pc == (if c.pc.i + 1 == SetCount(c.req) then AfterBlocks(c.req) else Block(c.pc.i + 1))
  {
    var i := c.pc.i;
    var pc' := if i + 1 == SetCount(c.req) then AfterBlocks(c.req) else Block(i + 1);
    OwnPart(c.req, i);
    RecordBlock(c, h, i + 1, wish, c.req.msgs[i].bytes, pc');
    BlockShape(c, h, wish, pc');
    var (c', h') := CallStep(c, h, wish);
    RecordedInv(c', h', i + 1);
    MakesGood(c, h, c', h');
  }

  /** A message that gets a block of its own is what its entry must hold. */
  lemma OwnPart(req: Request, i: nat)
    requires i < SetCount(req)
    ensures Part(req, i + 1, i + 1) == req.msgs[i].Body()
  {
    if i == 2 {
      assert req.msgs[2..3] == [req.msgs[2]];
      ConcatOne(req.msgs[2]);
    }
  }

  lemma BlockShape(c: Call, h: Heap, wish: Addr, pc': Pc)
    requires WellFormed(c) && Prechecked(c.req) && c.pc.Block? && !MeetsRefusal(c)
    requires h.CanPlace(BlockSize(c.req, c.pc.i), wish)
    requires pc' == if c.pc.i + 1 == SetCount(c.req) then AfterBlocks(c.req) else Block(c.pc.i + 1)
    ensures var i, m := c.pc.i, c.req.msgs[c.pc.i];
      CallStep(c, h, wish) ==
        (c.(sgl := c.sgl.Put(i + 1, Iov(wish, h.key, |m.bytes|)), pc := pc'),
         h.Allocate(BlockSize(c.req, i), wish).0.Write(wish, 0, m.bytes))
  {
    assert c.req.msgs[c.pc.i].Len() <= c.req.seg;
  }

  /** Appending message `i` behind what the last block already holds. */
  lemma AppendBytes(c: Call, h: Heap, i: nat)
    requires h.Valid() && Prechecked(c.req) && 3 <= i < |c.req.msgs|
    requires Recorded(c.req, c.sgl, h, 4, i) && c.req.msgs[i].Data?
    requires c.sgl.iov[3].size + c.req.msgs[i].Len() <= c.req.seg
    ensures var last := c.sgl.iov[3];
      var m := c.req.msgs[i];
      var sgl' := c.sgl.(iov := c.sgl.iov[3 := last.(size := last.size + m.Len())]);
      var h' := h.Write(last.lAddress, last.size, m.bytes);
      && Recorded(c.req, sgl', h', 4, i + 1)
      && Addrs(sgl', 0) == Addrs(c.sgl, 0)
      && Frame(h, h', Addrs(c.sgl, 0), Addrs(c.sgl, 0))
      && h'.badFrees == h.badFrees && h'.wildWrites == h.wildWrites
  {
    var m, last := c.req.msgs[i], c.sgl.iov[3];
    AppendEntries(c.req, c.sgl, h, i, i + 1);
    AppendFrame(c.req, c.sgl, h, i);
    SameAddrs(c.sgl, c.sgl.(iov := c.sgl.iov[3 := last.(size := last.size + m.Len())]));
  }

  lemma AppendFrame(req: Request, sgl: Sgl, h: Heap, i: nat)
    requires h.Valid() && 3 <= i < |req.msgs| && Recorded(req, sgl, h, 4, i) && req.msgs[i].Data?
    requires sgl.iov[3].size + req.msgs[i].Len() <= req.seg
    ensures var h' := h.Write(sgl.iov[3].lAddress, sgl.iov[3].size, req.msgs[i].bytes);
      && Frame(h, h', Addrs(sgl, 0), Addrs(sgl, 0))
      && h'.badFrees == h.badFrees && h'.wildWrites == h.wildWrites
  {
    var m, last := req.msgs[i], sgl.iov[3];
    AddrsLive(req, sgl, h, 4, i);
    assert GoodEntry(req, sgl, h, 3, i);
    assert last.lAddress in Addrs(sgl, 0);
    WriteFrame(h, last.lAddress, last.size, m.bytes);
    FrameWiden(h, h.Write(last.lAddress, last.size, m.bytes), {last.lAddress}, Addrs(sgl, 0));
  }

  lemma SameAddrs(sgl: Sgl, sgl': Sgl)
    requires sgl'.iovCount == sgl.iovCount
    requires forall k: nat :: k < MAX_IOV_COUNT ==> sgl'.iov[k].lAddress == sgl.iov[k].lAddress
    ensures Addrs(sgl', 0) == Addrs(sgl, 0)
  {
  }

  lemma AppendEntries(req: Request, sgl: Sgl, h: Heap, i: nat, next: nat)
    requires h.Valid() && Prechecked(req) && 3 <= i < next == i + 1 <= |req.msgs|
    requires Recorded(req, sgl, h, 4, i) && req.msgs[i].Data?
    requires sgl.iov[3].size + req.msgs[i].Len() <= req.seg
    ensures var last := sgl.iov[3];
      var m := req.msgs[i];
      var sgl' := sgl.(iov := sgl.iov[3 := last.(size := last.size + m.Len())]);
      var h' := h.Write(last.lAddress, last.size, m.bytes);
      Recorded(req, sgl', h', 4, next)
  {
    var m, last := req.msgs[i], sgl.iov[3];
    var sgl' := sgl.(iov := sgl.iov[3 := last.(size := last.size + m.Len())]);
    var h' := h.Write(last.lAddress, last.size, m.bytes);
    assert GoodEntry(req, sgl, h, 3, i);
    WriteFrame(h, last.lAddress, last.size, m.bytes);
    assert req.msgs[2..next][..i - 2] == req.msgs[2..i];
    assert Part(req, 3, next) == Part(req, 3, i) + m.bytes;
    forall k: nat | k < 4
      ensures GoodEntry(req, sgl', h', k, next)
    {
      assert GoodEntry(req, sgl, h, k, i);
      if k < 3 {
        assert sgl.iov[k].lAddress != last.lAddress;
        assert Untouched(h, h', sgl.iov[k].lAddress);
        GoodEntryFramed(req, sgl, h, h', k, i);
      }
    }
    assert forall k: nat | k < 4 :: sgl'.iov[k].lAddress == sgl.iov[k].lAddress;
    assert Distinct(sgl', 0);
    assert forall j | 0 <= j < next :: req.msgs[j].Data?;
  }

  lemma AppendGood(c: Call, h: Heap)
    requires h.Valid() && CallInv(c, h) && c.pc.Append?
    ensures var (c', h') := CallStep(c, h, 0); GoodStep(c, h, c', h')
  {
    var i := c.pc.i;
    AddrsLive(c.req, c.sgl, h, 4, i);
    if i == |c.req.msgs| {
      FrameSelf(h, Held(c));
    } else {
      AppendExact(c, h);
      if CopyFits(c.req.msgs[i], c.req.seg - c.sgl.iov[3].size) {
        AppendFits(c, h);
      } else {
        AppendRefused(c, h);
      }
    }
  }

  /** A refused copy clears what is left of the last block and nothing else. */
  lemma AppendRefused(c: Call, h: Heap)
    requires h.Valid() && CallInv(c, h) && c.pc.Append? && c.pc.i < |c.req.msgs|
    requires c.sgl.iov[3].size <= c.req.seg && !CopyFits(c.req.msgs[c.pc.i], c.req.seg - c.sgl.iov[3].size)
    ensures var (c', h') := CallStep(c, h, 0); GoodStep(c, h, c', h') && c'.pc == FreeAll(0)
  {
    AppendExact(c, h);
    ClearedLast(c, h, c.req.seg - c.sgl.iov[3].size);
  }

  /** Clearing `n` bytes behind what the last block holds, inside that block, on the way to the release of all. */
  lemma ClearedLast(c: Call, h: Heap, n: nat)
    requires h.Valid() && CallInv(c, h) && c.pc.Append? && c.sgl.iov[3].size + n <= c.req.seg
    ensures GoodStep(c, h, c.(pc := FreeAll(0)), h.Clear(c.sgl.iov[3].lAddress, c.sgl.iov[3].size, n))
  {
    var last := c.sgl.iov[3];
    var h' := h.Clear(last.lAddress, last.size, n);
    AddrsLive(c.req, c.sgl, h, 4, c.pc.i);
    assert GoodEntry(c.req, c.sgl, h, 3, c.pc.i);
    assert last.lAddress in Addrs(c.sgl, 0);
    ClearFrame(h, last.lAddress, last.size, n);
    FrameWiden(h, h', {last.lAddress}, Addrs(c.sgl, 0));
    MakesGood(c, h, c.(pc := FreeAll(0)), h');
  }

  lemma FrameSelf(h: Heap, mine: set<Addr>)
    requires h.Valid() && mine <= h.live.Keys
    ensures Frame(h, h, mine, mine)
  {
  }

  lemma AppendFits(c: Call, h: Heap)
    requires h.Valid() && CallInv(c, h) && c.pc.Append? && c.pc.i < |c.req.msgs|
    requires c.sgl.iov[3].size <= c.req.seg && CopyFits(c.req.msgs[c.pc.i], c.req.seg - c.sgl.iov[3].size)
    ensures var (c', h') := CallStep(c, h, 0);
      GoodStep(c, h, c', h') && c'.pc == Append(c.pc.i + 1)
  {
    AppendExact(c, h);
    AppendBytes(c, h, c.pc.i);
    AppendShape(c, h);
    MakesGood(c, h, CallStep(c, h, 0).0, CallStep(c, h, 0).1);
  }

  lemma AppendShape(c: Call, h: Heap)
    requires WellFormed(c) && c.pc.Append? && c.pc.i < |c.req.msgs| && c.sgl.iov[3].size <= c.req.seg
    requires CopyFits(c.req.msgs[c.pc.i], c.req.seg - c.sgl.iov[3].size)
    ensures var m, last := c.req.msgs[c.pc.i], c.sgl.iov[3];
      CallStep(c, h, 0) ==
        (Call(c.req, c.sgl.(iov := c.sgl.iov[3 := last.(size := last.size + m.Len())]), Append(c.pc.i + 1)),
         h.Write(last.lAddress, last.size, m.bytes))
  {
  }

  /** In the append loop neither the capacity nor the running size wraps. */
  lemma AppendExact(c: Call, h: Heap)
    requires CallInv(c, h) && c.pc.Append? && c.pc.i < |c.req.msgs|
    ensures var m, last := c.req.msgs[c.pc.i], c.sgl.iov[3];
      && last.size == |Concat(c.req.msgs[2..c.pc.i])| <= c.req.seg
      && ToU32(c.req.seg - last.size) == c.req.seg - last.size
      && (m.Len() <= c.req.seg - last.size ==> ToU32(last.size + m.Len()) == last.size + m.Len())
  {
    assert GoodEntry(c.req, c.sgl, h, 3, c.pc.i);
  }

  /** Freeing entry `k` of a request whose entries from `k` on are standing. */
  lemma FreeEntry(sgl: Sgl, h: Heap, k: nat)
    requires h.Valid() && k < MAX_IOV_COUNT && Standing(sgl, h, k)
    ensures var h' := h.Free(sgl.iov[k].lAddress);
      && Standing(sgl, h', k + 1)
      && Frame(h, h', Addrs(sgl, k), Addrs(sgl, k + 1))
      && h'.badFrees == h.badFrees && h'.wildWrites == h.wildWrites
  {
    var a := sgl.iov[k].lAddress;
    var h' := h.Free(a);
    if k < sgl.iovCount {
      assert a in Addrs(sgl, k);
      assert Addrs(sgl, k) == Addrs(sgl, k + 1) + {a};
      assert a !in Addrs(sgl, k + 1);
      FreeFrame(h, a, Addrs(sgl, k));
    } else {
      assert sgl.iov[k] == EMPTY_IOV;
      assert 0 !in h.live;
      assert Addrs(sgl, k) == {} == Addrs(sgl, k + 1);
    }
  }

  lemma FreeAllGood(c: Call, h: Heap)
    requires h.Valid() && CallInv(c, h) && c.pc.FreeAll?
    ensures var (c', h') := CallStep(c, h, 0); GoodStep(c, h, c', h')
  {
    var k := c.pc.k;
    if k < MAX_IOV_COUNT {
      FreeEntry(c.sgl, h, k);
      assert CallStep(c, h, 0) == (c.(pc := FreeAll(k + 1)), h.Free(c.sgl.iov[k].lAddress));
    } else {
      assert Addrs(c.sgl, k) == {};
      assert CallStep(c, h, 0) == (c.(pc := Failed), h);
    }
  }

  lemma FreeSentGood(c: Call, h: Heap)
    requires h.Valid() && CallInv(c, h) && c.pc.FreeSent?
    ensures var (c', h') := CallStep(c, h, 0); GoodStep(c, h, c', h')
  {
    var k := c.pc.k;
    if k < c.sgl.iovCount {
      FreeEntry(c.sgl, h, k);
      assert CallStep(c, h, 0) == (c.(pc := FreeSent(k + 1, c.pc.ok)), h.Free(c.sgl.iov[k].lAddress));
    } else {
      assert Addrs(c.sgl, k) == {};
      assert CallStep(c, h, 0) == (c.(pc := Freed(c.pc.ok)), h);
    }
  }

  lemma FreeHeaderGood(c: Call, h: Heap)
    requires h.Valid() && CallInv(c, h) && c.pc.FreeHeader?
    ensures var (c', h') := CallStep(c, h, 0); GoodStep(c, h, c', h')
  {
    FreeEntry(c.sgl, h, 0);
  }

  lemma UndoGood(c: Call, h: Heap)
    requires h.Valid() && CallInv(c, h) && c.pc.Undo?
    ensures var (c', h') := CallStep(c, h, 0); GoodStep(c, h, c', h')
  {
    var Undo(a, left) := c.pc;
    var rest := Addrs(c.sgl, 0);
    StandingAddrs(c.sgl, h);
    assert 0 !in h.live;
    if a != 0 && left > 0 {
      FreeFrame(h, a, rest + {a});
      assert rest + {a} - {a} == rest;
      StandingWithout(c.sgl, h, a);
    } else {
      FrameSelf(h, rest);
      assert rest + {} == rest;
    }
  }

  lemma StandingAddrs(sgl: Sgl, h: Heap)
    requires Standing(sgl, h, 0)
    ensures Addrs(sgl, 0) <= h.live.Keys
  {
  }

  lemma StandingWithout(sgl: Sgl, h: Heap, a: Addr)
    requires Standing(sgl, h, 0) && a !in Addrs(sgl, 0)
    ensures Standing(sgl, h.Free(a), 0)
  {
    forall k | 0 <= k < sgl.iovCount
      ensures sgl.iov[k].lAddress in h.Free(a).live
    {
      assert sgl.iov[k].lAddress in Addrs(sgl, 0);
    }
  }

  /**
   Every step of a call but a harmful copy, in whatever heap other callers have left,
   keeps the call's invariant, touches no block but its own, frees no block it does not
   hold and writes past no block's end.
   */
  lemma StepGood(c: Call, h: Heap, wish: Addr)
    requires h.Valid() && CallInv(c, h) && !(Harmful(c) && h.CanPlace(BlockSize(c.req, c.pc.i), wish))
    ensures var (c', h') := CallStep(c, h, wish); GoodStep(c, h, c', h')
  {
    match c.pc
    case Header => HeaderGood(c, h, wish);
    case Block(_) => BlockGood(c, h, wish);
    case Append(_) => AppendGood(c, h);
    case FreeAll(_) => FreeAllGood(c, h);
    case FreeSent(_, _) => FreeSentGood(c, h);
    case FreeHeader => FreeHeaderGood(c, h);
    case Undo(_, _) => UndoGood(c, h);
    case _ =>
      HeldLive(c, h);
  }
}
