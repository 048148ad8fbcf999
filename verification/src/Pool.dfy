/**
 The memory pool behind Net_MemoryAllocator: one contiguous range of bytes from
 which blocks are handed out. The library's placement policy is not visible, so
 the address it would answer is a parameter (`wish`): an address that cannot hold
 the block, among them 0, stands for a refused allocation.

 Two counters record what a correct caller never does: freeing a nonzero address
 that is not a live block, and copying past the end of a block.
 */
module Pool {
  import opened Machine

  type Addr = nat

  /** The ranges of `n` bytes at `a` and of `m` bytes at `b` do not overlap. */
  predicate Apart(a: Addr, n: nat, b: Addr, m: nat) {
    a + n <= b || b + m <= a
  }

  /** SECUREC_MEM_MAX_LEN, the greatest capacity memcpy_s accepts */
  const MEMCPY_LIMIT := 0x7FFF_FFFF

  predicate InRange(capacity: nat) {
    0 < capacity <= MEMCPY_LIMIT
  }

  datatype Heap = Heap(
    base: Addr,
    mem: Bytes,
    live: map<Addr, nat>,
    key: u32,
    badFrees: nat,
    wildWrites: nat)
  {
    ghost predicate Valid() {
      && 0 < base
      && (forall a :: a in live ==> base <= a && a + live[a] <= base + |mem|)
      && (forall a, b {:trigger Apart(a, live[a], b, live[b])} ::
            a in live && b in live && a != b ==> Apart(a, live[a], b, live[b]))
    }

    predicate CanPlace(size: nat, a: Addr) {
      && a !in live
      && 0 < base <= a && a + size <= base + |mem|
      && forall b :: b in live ==> Apart(a, size, b, live[b])
    }

    /** Net_MemoryAllocatorAllocate: the new heap and the address, 0 when refused. */
    function Allocate(size: nat, wish: Addr): (Heap, Addr) {
      if CanPlace(size, wish) then (this.(live := live[wish := size]), wish) else (this, 0)
    }

    /** Net_MemoryAllocatorFree: an unknown address is an error that changes no block. */
    function Free(a: Addr): Heap {
      if a in live then this.(live := live - {a})
      else if a == 0 then this
      else this.(badFrees := badFrees + 1)
    }

    predicate Inside(block: Addr, off: nat, n: nat) {
      && block in live
      && off + n <= live[block]
      && base <= block && block + off + n <= base + |mem|
    }

    /** Copies bytes to `block + off`. */
    function Write(block: Addr, off: nat, bytes: Bytes): Heap {
      if Inside(block, off, |bytes|) then
        var o := block - base + off;
        this.(mem := mem[..o] + bytes + mem[o + |bytes|..])
      else
        this.(wildWrites := wildWrites + 1)
    }

    /** The pool's bytes from `a` to `a + n` set to 0, whatever blocks they belong to. */
    function Zero(a: Addr, n: nat): Heap {
      this.(mem := seq(|mem|, i requires 0 <= i < |mem| => if a <= base + i < a + n then 0 else mem[i]))
    }

    /**
     What a refused memcpy_s does at `block + off`: it clears the capacity it was told,
     here `n` bytes, unless that capacity is itself out of its range.
     */
    function Clear(block: Addr, off: nat, n: nat): Heap {
      if !InRange(n) then this
      else
        var h := Zero(block + off, n);
        if Inside(block, off, n) then h else h.(wildWrites := h.wildWrites + 1)
    }

    function Read(a: Addr, n: nat): Bytes {
      if base <= a && a + n <= base + |mem| then mem[a - base..a - base + n] else []
    }
  }

  /**
   What a step of one owner may do to the pool. `mine` are the blocks the owner
   holds before, `mine'` the ones it accounts for after; every other live block
   keeps its place, size and contents.
   */
  ghost predicate Frame(h: Heap, h': Heap, mine: set<Addr>, mine': set<Addr>) {
    && h'.base == h.base && |h'.mem| == |h.mem| && h'.key == h.key
    && h'.Valid()
    && h'.live.Keys == (h.live.Keys - mine) + mine'
    && mine' !! (h.live.Keys - mine)
    && (forall a :: a in h.live && a !in mine ==> Untouched(h, h', a))
  }

  ghost predicate Untouched(h: Heap, h': Heap, a: Addr)
    requires a in h.live
  {
    && a in h'.live && h'.live[a] == h.live[a]
    && h'.Read(a, h.live[a]) == h.Read(a, h.live[a])
  }

  lemma FrameTransitive(h0: Heap, h1: Heap, h2: Heap, mine0: set<Addr>, mine1: set<Addr>, mine2: set<Addr>)
    requires Frame(h0, h1, mine0, mine1) && Frame(h1, h2, mine1, mine2)
    ensures Frame(h0, h2, mine0, mine2)
  {
    forall a | a in h0.live && a !in mine0
      ensures Untouched(h0, h2, a)
    {
      assert Untouched(h0, h1, a);
      assert a in h0.live.Keys - mine0;
      assert Untouched(h1, h2, a);
    }
  }

  lemma FrameWiden(h: Heap, h': Heap, small: set<Addr>, big: set<Addr>)
    requires Frame(h, h', small, small) && small <= big <= h.live.Keys
    ensures Frame(h, h', big, big)
  {
  }

  lemma PrefixUntouched(h: Heap, h': Heap, a: Addr, n: nat)
    requires h.Valid() && h'.Valid() && h'.base == h.base && |h'.mem| == |h.mem|
    requires a in h.live && Untouched(h, h', a) && n <= h.live[a]
    ensures h'.Read(a, n) == h.Read(a, n)
  {
    assert h'.Read(a, n) == h'.Read(a, h.live[a])[..n];
    assert h.Read(a, n) == h.Read(a, h.live[a])[..n];
  }

  lemma AllocateFrame(h: Heap, size: nat, wish: Addr)
    requires h.Valid() && h.CanPlace(size, wish)
    ensures Frame(h, h.Allocate(size, wish).0, {}, {wish})
  {
  }

  lemma FreeFrame(h: Heap, a: Addr, mine: set<Addr>)
    requires h.Valid() && a in mine && mine <= h.live.Keys
    ensures Frame(h, h.Free(a), mine, mine - {a})
  {
  }

  /** Clearing the same bytes on both sides keeps what a step did to the pool. */
  lemma ZeroFrame(h: Heap, h': Heap, mine: set<Addr>, mine': set<Addr>, a: Addr, n: nat)
    requires Frame(h, h', mine, mine')
    ensures Frame(h.Zero(a, n), h'.Zero(a, n), mine, mine')
  {
    forall b | b in h.live && b !in mine
      ensures Untouched(h.Zero(a, n), h'.Zero(a, n), b)
    {
      ZeroUntouched(h, h', b, a, n);
    }
  }

  lemma ZeroUntouched(h: Heap, h': Heap, b: Addr, a: Addr, n: nat)
    requires h'.base == h.base && |h'.mem| == |h.mem| && b in h.live && Untouched(h, h', b)
    ensures Untouched(h.Zero(a, n), h'.Zero(a, n), b)
  {
    var size := h.live[b];
    if h.base <= b && b + size <= h.base + |h.mem| {
      var o := b - h.base;
      forall i | 0 <= i < size
        ensures h'.Zero(a, n).Read(b, size)[i] == h.Zero(a, n).Read(b, size)[i]
      {
        assert h'.Read(b, size)[i] == h'.mem[o + i] && h.Read(b, size)[i] == h.mem[o + i];
      }
    }
  }

  /** A refused copy whose capacity ends inside its block disturbs no other block. */
  lemma ClearFrame(h: Heap, block: Addr, off: nat, n: nat)
    requires h.Valid() && h.Inside(block, off, n)
    ensures var h' := h.Clear(block, off, n);
      && Frame(h, h', {block}, {block})
      && h'.live == h.live
      && h'.badFrees == h.badFrees && h'.wildWrites == h.wildWrites
  {
    var h' := h.Clear(block, off, n);
    forall a | a in h.live && a != block
      ensures Untouched(h, h', a)
    {
      assert Apart(a, h.live[a], block, h.live[block]);
      var p, size := a - h.base, h.live[a];
      assert h'.mem[p..p + size] == h.mem[p..p + size];
    }
  }

  /** A copy inside a block lands after the bytes already there and nowhere else. */
  lemma WriteFrame(h: Heap, block: Addr, off: nat, bytes: Bytes)
    requires h.Valid() && h.Inside(block, off, |bytes|)
    ensures var h' := h.Write(block, off, bytes);
      && Frame(h, h', {block}, {block})
      && h'.live == h.live
      && h'.badFrees == h.badFrees && h'.wildWrites == h.wildWrites
      && h'.Read(block, off + |bytes|) == h.Read(block, off) + bytes
  {
    var h' := h.Write(block, off, bytes);
    var o := block - h.base + off;
    assert h'.mem == h.mem[..o] + bytes + h.mem[o + |bytes|..];
    forall a | a in h.live && a != block
      ensures Untouched(h, h', a)
    {
      assert Apart(a, h.live[a], block, h.live[block]);
      var p, n := a - h.base, h.live[a];
      if a + n <= block {
        assert h'.mem[p..p + n] == h.mem[p..p + n];
      } else {
        assert o + |bytes| <= p;
        assert h'.mem[p..p + n] == h.mem[p..p + n];
      }
    }
    var b := block - h.base;
    assert h'.mem[b..o + |bytes|] == h.mem[b..o] + bytes;
  }
}
