/** The packing functions as they run: buffers, the request's iov array and the allocator updated in place. */
module Pack {
  import opened Machine
  import opened Pool
  import opened PackMachine
  import opened PackInvariant
  import opened PackOutcome
  import opened PackContract

  /** The allocator of one client and the pool memory it hands out. */
  class Allocator {
    const base: Addr
    const mem: array<byte>
    const key: u32
    var live: map<Addr, nat>
    var badFrees: nat
    var wildWrites: nat

    ghost function View(): Heap
      reads this, mem
    {
      Heap(base, mem[..], live, key, badFrees, wildWrites)
    }

    constructor (base: Addr, size: nat, key: u32)
      requires 0 < base
      ensures fresh(mem) && View().Valid() && live == map[] && badFrees == wildWrites == 0
      ensures this.base == base && mem.Length == size && this.key == key
    {
      this.base, this.key := base, key;
      mem := new byte[size](_ => 0);
      live := map[];
      badFrees, wildWrites := 0, 0;
    }

    method Allocate(size: nat, wish: Addr) returns (a: Addr)
      modifies this`live
      ensures (View(), a) == old(View()).Allocate(size, wish)
      ensures a in {0, wish} && live == if a == 0 then old(live) else old(live)[a := size]
      ensures a != 0 <==>
        && wish !in old(live) && 0 < base <= wish && wish + size <= base + mem.Length
        && forall b :: b in old(live) ==> wish + size <= b || b + old(live)[b] <= wish
    {
      if wish !in live && 0 < base <= wish && wish + size <= base + mem.Length
         && forall b :: b in live ==> Apart(wish, size, b, live[b])
      {
        live := live[wish := size];
        return wish;
      }
      return 0;
    }

    /** OckRpcMemFree: an allocator error is only logged. */
    method Free(a: Addr)
      modifies this`live, this`badFrees
      ensures View() == old(View()).Free(a)
    {
      if a in live {
        live := live - {a};
      } else if a != 0 {
        badFrees := badFrees + 1;
      }
    }

    method Copy(block: Addr, off: nat, bytes: Bytes)
      modifies mem, this`wildWrites
      ensures View() == old(View()).Write(block, off, bytes)
    {
      if block in live && off + |bytes| <= live[block]
         && base <= block && block + off + |bytes| <= base + mem.Length
      {
        var o := block - base + off;
        forall k | 0 <= k < |bytes| {
          mem[o + k] := bytes[k];
        }
        assert mem[..] == old(mem[..o]) + bytes + old(mem[o + |bytes|..]);
      } else {
        wildWrites := wildWrites + 1;
      }
    }

    method Clear(block: Addr, off: nat, n: nat)
      modifies mem, this`wildWrites
      ensures View() == old(View()).Clear(block, off, n)
    {
      if !InRange(n) {
        return;
      }
      if !(block in live && off + n <= live[block]
           && base <= block && block + off + n <= base + mem.Length)
      {
        wildWrites := wildWrites + 1;
      }
      forall k | 0 <= k < mem.Length && block + off <= base + k < block + off + n {
        mem[k] := 0;
      }
      assert mem[..] == old(View()).Clear(block, off, n).mem;
    }

    /** memcpy_s of a whole message to `block + off`; a refusal clears the capacity it was told. */
    method MemcpyS(block: Addr, off: nat, capacity: nat, m: Message) returns (ok: bool)
      modifies mem, this`wildWrites
      ensures ok <==> CopyFits(m, capacity)
      ensures ok <==> 0 < capacity <= 0x7FFF_FFFF && m.Data? && |m.bytes| <= capacity
      ensures !ok && 0 < capacity <= 0x7FFF_FFFF ==> forall k :: 0 <= k < mem.Length ==>
        mem[k] == if block + off <= base + k < block + off + capacity then 0 else old(mem[k])
      ensures capacity == 0 || capacity > 0x7FFF_FFFF ==> mem[..] == old(mem[..])
      ensures View() ==
        if ok then old(View()).Write(block, off, m.Body()) else old(View()).Clear(block, off, capacity)
    {
      ok := InRange(capacity) && m.Data? && |m.bytes| <= capacity;
      if ok {
        Copy(block, off, m.bytes);
      } else {
        Clear(block, off, capacity);
      }
    }
  }

  /** Service_SglRequest with the iov array it points to. */
  class SglRequest {
    const iov: array<Iov>
    var iovCount: u16

    ghost predicate Valid() {
      iov.Length == MAX_IOV_COUNT
    }

    ghost function View(): Sgl
      reads this, iov
      requires Valid()
    {
      Sgl(iov[..], iovCount)
    }

    constructor ()
      ensures fresh(iov) && Valid() && View() == EMPTY_SGL
    {
      iov := new Iov[MAX_IOV_COUNT](_ => EMPTY_IOV);
      iovCount := 0;
    }

    method Add(k: nat, e: Iov)
      requires Valid() && k < MAX_IOV_COUNT
      modifies this, iov
      ensures View() == old(View()).Put(k, e)
    {
      iovCount := ToU16(iovCount + 1);
      iov[k] := e;
    }
  }

  /** Where SetReqInfo stands before loop iteration `i`. */
  function LoopPc(req: Request, i: nat): Pc {
    if i < SetCount(req) then Block(i) else AfterBlocks(req)
  }

  /** One step of the call's machine that leaves its result unchanged. */
  lemma Continue(c: Call, h: Heap, wishes: Wishes, c': Call, h': Heap, goal: (Call, Heap))
    requires WellFormed(c) && !Halted(c.pc) && Run(c, h, wishes) == goal
    requires (c', h') == CallStep(c, h, WishFor(c.pc, wishes))
    ensures WellFormed(c') && Run(c', h', wishes) == goal
  {
  }

  /** What one iteration of SetReqInfo's loop comes to, by what the allocator and the copy answer. */
  lemma BlockOutcomes(c: Call, h: Heap, wishes: Wishes, h1: Heap, a: Addr, goal: (Call, Heap))
    requires WellFormed(c) && c.pc.Block? && Run(c, h, wishes) == goal
    requires (h1, a) == h.Allocate(BlockSize(c.req, c.pc.i), wishes[c.pc.i + 1])
    ensures var i, m := c.pc.i, c.req.msgs[c.pc.i];
      && (a == 0 ==> Run(c.(pc := Undo(0, i)), h1, wishes) == goal)
      && (a != 0 && !CopyFits(m, c.req.seg) ==>
            Run(c.(pc := Undo(a, i + 1)), h1.Clear(a, 0, c.req.seg), wishes) == goal)
      && (a != 0 && CopyFits(m, c.req.seg) ==>
            Run(c.(sgl := c.sgl.Put(i + 1, Iov(a, h.key, ToU32(m.Len()))), pc := LoopPc(c.req, i + 1)),
                h1.Write(a, 0, m.bytes), wishes) == goal)
  {
  }

  /** The rollback loops of SetReqInfo: `times` rounds, each freeing addrArr[i] and not addrArr[j]. */
  method RollBack(pool: Allocator, addrArr: array<Addr>, i: nat, times: nat,
                  ghost req: Request, ghost sgl: SglRequest, ghost wishes: Wishes)
    requires i < addrArr.Length && sgl.Valid() && 1 <= |req.msgs|
    modifies pool`live, pool`badFrees
    ensures Run(Call(req, sgl.View(), AfterUndo(req)), pool.View(), wishes)
         == Run(Call(req, sgl.View(), Undo(addrArr[i], times)), old(pool.View()), wishes)
  {
    ghost var a := addrArr[i];
    ghost var goal := Run(Call(req, sgl.View(), Undo(a, times)), pool.View(), wishes);
    var j := 0;
    while j < times
      invariant j <= times
      invariant Run(Call(req, sgl.View(), Undo(a, times - j)), pool.View(), wishes) == goal
    {
      ghost var h := pool.View();
      pool.Free(addrArr[i]);
      Continue(Call(req, sgl.View(), Undo(a, times - j)), h, wishes,
               Call(req, sgl.View(), Undo(a, times - j - 1)), pool.View(), goal);
      j := j + 1;
    }
  }

  /** The work of one iteration of SetReqInfo's loop: a block, the copy into it, its entry. */
  method PlaceMessage(pool: Allocator, req: Request, count: nat, i: nat, sgl: SglRequest, wishes: Wishes)
    returns (addr: Addr, copied: bool)
    requires sgl.Valid() && 1 <= |req.msgs| && i < count == SetCount(req)
    modifies pool, pool.mem, sgl, sgl.iov
    ensures Run(Call(req, sgl.View(), if addr == 0 then Undo(0, i)
                                      else if copied then LoopPc(req, i + 1) else Undo(addr, i + 1)),
                pool.View(), wishes)
         == Run(Call(req, old(sgl.View()), Block(i)), old(pool.View()), wishes)
  {
    ghost var c, h := Call(req, sgl.View(), Block(i)), pool.View();
    var m := req.msgs[i];
    var size := if i == count - 1 then req.seg else ToU32(m.Len());
    addr := pool.Allocate(size, wishes[i + 1]);
    BlockOutcomes(c, h, wishes, pool.View(), addr, Run(c, h, wishes));
    if addr == 0 {
      return addr, false;
    }
    copied := pool.MemcpyS(addr, 0, req.seg, m);
    if copied {
      sgl.Add(i + 1, Iov(addr, pool.key, ToU32(m.Len())));
    }
  }

  method SetReqInfo(pool: Allocator, req: Request, count: nat, sgl: SglRequest, wishes: Wishes) returns (ok: bool)
    requires sgl.Valid() && 1 <= |req.msgs| && count == SetCount(req)
    modifies pool, pool.mem, sgl, sgl.iov
    ensures Run(Call(req, sgl.View(), if ok then AfterBlocks(req) else AfterUndo(req)), pool.View(), wishes)
         == Run(Call(req, old(sgl.View()), Block(0)), old(pool.View()), wishes)
  {
    ghost var goal := Run(Call(req, sgl.View(), Block(0)), pool.View(), wishes);
    var addrArr := new Addr[count](_ => 0);
    var i := 0;
    while i < count
      invariant i <= count
      invariant Run(Call(req, sgl.View(), LoopPc(req, i)), pool.View(), wishes) == goal
    {
      var addr, copied := PlaceMessage(pool, req, count, i, sgl, wishes);
      addrArr[i] := addr;
      if addrArr[i] == 0 {
        RollBack(pool, addrArr, i, i, req, sgl, wishes);
        return false;
      }
      if !copied {
        RollBack(pool, addrArr, i, i + 1, req, sgl, wishes);
        return false;
      }
      i := i + 1;
    }
    return true;
  }

  method FreeAllMemory(pool: Allocator, ghost req: Request, sgl: SglRequest, ghost wishes: Wishes)
    requires sgl.Valid() && 1 <= |req.msgs|
    modifies pool`live, pool`badFrees
    ensures (Call(req, sgl.View(), Failed), pool.View())
         == Run(Call(req, sgl.View(), FreeAll(0)), old(pool.View()), wishes)
  {
    ghost var goal := Run(Call(req, sgl.View(), FreeAll(0)), pool.View(), wishes);
    var i := 0;
    while i < MAX_IOV_COUNT
      invariant i <= MAX_IOV_COUNT
      invariant Run(Call(req, sgl.View(), FreeAll(i)), pool.View(), wishes) == goal
    {
      ghost var h := pool.View();
      pool.Free(sgl.iov[i].lAddress);
      Continue(Call(req, sgl.View(), FreeAll(i)), h, wishes,
               Call(req, sgl.View(), FreeAll(i + 1)), pool.View(), goal);
      i := i + 1;
    }
  }

  /** The release of a request's blocks after the synchronous call, whatever that call answered. */
  method FreeSentBlocks(pool: Allocator, ghost req: Request, sgl: SglRequest, ghost ok: bool, ghost wishes: Wishes)
    requires sgl.Valid() && sgl.iovCount <= MAX_IOV_COUNT && 1 <= |req.msgs|
    modifies pool`live, pool`badFrees
    ensures (Call(req, sgl.View(), Freed(ok)), pool.View())
         == Run(Call(req, sgl.View(), FreeSent(0, ok)), old(pool.View()), wishes)
  {
    ghost var goal := Run(Call(req, sgl.View(), FreeSent(0, ok)), pool.View(), wishes);
    var i := 0;
    while i < sgl.iovCount
      invariant i <= sgl.iovCount
      invariant Run(Call(req, sgl.View(), FreeSent(i, ok)), pool.View(), wishes) == goal
    {
      ghost var h := pool.View();
      pool.Free(sgl.iov[i].lAddress);
      Continue(Call(req, sgl.View(), FreeSent(i, ok)), h, wishes,
               Call(req, sgl.View(), FreeSent(i + 1, ok)), pool.View(), goal);
      i := i + 1;
    }
  }

  /**
   Builds the scatter-gather request. Besides running the machine, the contract says
   what that means for a valid pool and checked parameters: exactly when it
   succeeds, the bytes a channel will read, and what a failure leaves allocated.
   */
  method PackReqInfo(pool: Allocator, req: Request, sgl: SglRequest, wishes: Wishes) returns (ok: bool)
    requires sgl.Valid() && sgl.View() == EMPTY_SGL && Prechecked(req) && pool.View().Valid()
    modifies pool, pool.mem, sgl, sgl.iov
    ensures (Call(req, sgl.View(), if ok then Packed else Failed), pool.View())
         == Run(Start(req), old(pool.View()), wishes)
    ensures ok <==> AllPlaced(old(pool.View()), WantedSizes(req), wishes, 0) && AllCopied(req)
    ensures ok ==> Shape(req, sgl.View(), pool.View())
    ensures ok ==> Gather(pool.View(), sgl.View()) == EncodeHeader(req.msgId) + Concat(req.msgs)
    ensures ok ==> Frame(old(pool.View()), pool.View(), {}, Addrs(sgl.View(), 0))
    ensures !ok ==>
      var t := TroubleFrom(old(pool.View()), req, wishes, 0);
      Frame(Damaged(req, old(pool.View()), wishes, t), pool.View(), {}, Leaked(req, wishes, t))
  {
    ghost var h0 := pool.View();
    ok := PackSteps(pool, req, sgl, wishes);
    PackResult(req, h0, wishes);
    SucceedsIff(req, h0, wishes);
    if ok {
      PackedShape(Call(req, sgl.View(), Packed), pool.View());
      WireImage(Call(req, sgl.View(), Packed), pool.View());
    }
  }

  method PackSteps(pool: Allocator, req: Request, sgl: SglRequest, wishes: Wishes) returns (ok: bool)
    requires sgl.Valid() && sgl.View() == EMPTY_SGL && 1 <= |req.msgs|
    modifies pool, pool.mem, sgl, sgl.iov
    ensures (Call(req, sgl.View(), if ok then Packed else Failed), pool.View())
         == Run(Start(req), old(pool.View()), wishes)
  {
    ghost var h0 := pool.View();
    ghost var goal := Run(Start(req), h0, wishes);
    var headAddr := pool.Allocate(HEADER_SIZE, wishes[0]);
    if headAddr == 0 {
      Continue(Start(req), h0, wishes, Call(req, sgl.View(), Failed), pool.View(), goal);
      return false;
    }
    pool.Copy(headAddr, 0, EncodeHeader(req.msgId));
    sgl.Add(0, Iov(headAddr, pool.key, HEADER_SIZE));
    Continue(Start(req), h0, wishes, Call(req, sgl.View(), Block(0)), pool.View(), goal);

    var maxCount := MAX_IOV_COUNT - 1;
    if |req.msgs| > maxCount {
      ok := SetReqInfo(pool, req, maxCount, sgl, wishes);
      if !ok {
        ghost var h := pool.View();
        pool.Free(sgl.iov[0].lAddress);
        Continue(Call(req, sgl.View(), FreeHeader), h, wishes, Call(req, sgl.View(), Failed), pool.View(), goal);
        return;
      }
      ok := AppendRest(pool, req, maxCount, sgl, wishes);
    } else {
      ok := SetReqInfo(pool, req, |req.msgs|, sgl, wishes);
      if !ok {
        FreeAllMemory(pool, req, sgl, wishes);
      }
    }
  }

  /** The append loop of PackReqInfo, with the release of all blocks when a copy is refused. */
  method AppendRest(pool: Allocator, req: Request, maxCount: nat, sgl: SglRequest, wishes: Wishes) returns (ok: bool)
    requires sgl.Valid() && |req.msgs| > 3 && maxCount == 3
    modifies pool, pool.mem, sgl.iov
    ensures (Call(req, sgl.View(), if ok then Packed else Failed), pool.View())
         == Run(Call(req, old(sgl.View()), Append(3)), old(pool.View()), wishes)
  {
    ghost var goal := Run(Call(req, sgl.View(), Append(3)), pool.View(), wishes);
    var i := maxCount;
    while i < |req.msgs|
      invariant 3 <= i <= |req.msgs|
      invariant Run(Call(req, sgl.View(), Append(i)), pool.View(), wishes) == goal
    {
      ghost var c, h := Call(req, sgl.View(), Append(i)), pool.View();
      var last := sgl.iov[maxCount];
      var copied := pool.MemcpyS(last.lAddress, last.size, ToU32(req.seg - last.size), req.msgs[i]);
      if !copied {
        Continue(c, h, wishes, Call(req, sgl.View(), FreeAll(0)), pool.View(), goal);
        FreeAllMemory(pool, req, sgl, wishes);
        return false;
      }
      sgl.iov[maxCount] := last.(size := ToU32(last.size + req.msgs[i].Len()));
      Continue(c, h, wishes, Call(req, sgl.View(), Append(i + 1)), pool.View(), goal);
      i := i + 1;
    }
    Continue(Call(req, sgl.View(), Append(i)), pool.View(), wishes,
             Call(req, sgl.View(), Packed), pool.View(), goal);
    return true;
  }
}
