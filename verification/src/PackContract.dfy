/**
 What packing promises, written out in message lengths and in the two numbers the source
 fixes, the size of the header and the number of blocks.
 */
module PackContract {
  import opened Machine
  import opened Pool
  import opened PackMachine
  import opened PackInvariant
  import opened PackOutcome

  /** The blocks a request asks for: its header, the first messages, and a whole segment for the last. */
  function WantedSizes(req: Request): (sizes: seq<nat>)
    requires 1 <= |req.msgs|
    ensures 2 <= |sizes| <= MAX_IOV_COUNT
  {
    match |req.msgs|
    case 1 => [2, req.seg]
    case 2 => [2, req.msgs[0].Len(), req.seg]
    case _ => [2, req.msgs[0].Len(), req.msgs[1].Len(), req.seg]
  }

  /** The allocator can place blocks of these sizes one after another, from the `k`-th up to the `n`-th. */
  predicate PlacedTo(h: Heap, sizes: seq<nat>, wishes: Wishes, k: nat, n: nat)
    requires k <= n <= |sizes| <= MAX_IOV_COUNT
    decreases n - k
  {
    k == n || (h.CanPlace(sizes[k], wishes[k]) && PlacedTo(h.Allocate(sizes[k], wishes[k]).0, sizes, wishes, k + 1, n))
  }

  predicate AllPlaced(h: Heap, sizes: seq<nat>, wishes: Wishes, k: nat)
    requires k <= |sizes| <= MAX_IOV_COUNT
  {
    PlacedTo(h, sizes, wishes, k, |sizes|)
  }

  /** All messages have data, and those that share the last block fit it, with room left before the last of them. */
  predicate AllCopied(req: Request)
    requires 1 <= |req.msgs|
  {
    && 0 < req.seg <= 0x7FFF_FFFF
    && (forall i :: 0 <= i < |req.msgs| ==> req.msgs[i].Data?)
    && (|req.msgs| > 3 ==>
          TotalLen(req.msgs[2..]) <= req.seg && TotalLen(req.msgs[2..|req.msgs| - 1]) < req.seg)
  }

  lemma RoomIsWanted(req: Request, k: nat)
    requires Prechecked(req) && k <= SetCount(req)
    ensures |WantedSizes(req)| == SetCount(req) + 1
    ensures Room(req, k) == WantedSizes(req)[k]
  {
  }

  /** The copies into the `k`-th to the `n`-th block are made; the header needs none. */
  predicate CopiedTo(req: Request, k: nat, n: nat)
    requires k <= n <= SetCount(req) + 1
    decreases n - k
  {
    k == n || ((k == 0 || CopyFits(req.msgs[k - 1], req.seg)) && CopiedTo(req, k + 1, n))
  }

  lemma {:induction false} CopiedToIff(req: Request, k: nat, n: nat)
    requires k <= n <= SetCount(req) + 1
    ensures CopiedTo(req, k, n) <==> forall i :: 0 <= i < n - 1 && k <= i + 1 ==> CopyFits(req.msgs[i], req.seg)
    decreases n - k
  {
    if k < n {
      CopiedToIff(req, k + 1, n);
    }
  }

  lemma {:induction false} SmoothIff(req: Request, h: Heap, wishes: Wishes, k: nat)
    requires Prechecked(req) && k <= SetCount(req) + 1
    ensures |WantedSizes(req)| == SetCount(req) + 1
    ensures TroubleFrom(h, req, wishes, k).Smooth? <==>
      AllPlaced(h, WantedSizes(req), wishes, k) && CopiedTo(req, k, SetCount(req) + 1)
    decreases SetCount(req) + 1 - k
  {
    RoomIsWanted(req, 0);
    if k <= SetCount(req) {
      RoomIsWanted(req, k);
      SmoothIff(req, h.Allocate(Room(req, k), wishes[k]).0, wishes, k + 1);
    }
  }

  lemma CopiedIff(req: Request)
    requires Prechecked(req)
    ensures AllCopied(req) <==>
      TailFits(req) && forall i :: 0 <= i < SetCount(req) ==> CopyFits(req.msgs[i], req.seg)
  {
    var n := |req.msgs|;
    if n > 3 {
      assert req.msgs[2..][..n - 3] == req.msgs[2..n - 1];
      assert forall i :: 3 <= i < n ==> req.msgs[3..][i - 3] == req.msgs[i];
    }
    if TailFits(req) && forall i :: 0 <= i < SetCount(req) ==> CopyFits(req.msgs[i], req.seg) {
      assert CopyFits(req.msgs[0], req.seg);
    }
  }

  /** Packing succeeds exactly when all the blocks asked for can be placed and all the copies made. */
  lemma SucceedsIff(req: Request, h: Heap, wishes: Wishes)
    requires Prechecked(req)
    ensures Succeeds(h, req, wishes) <==> AllPlaced(h, WantedSizes(req), wishes, 0) && AllCopied(req)
  {
    SmoothIff(req, h, wishes, 0);
    CopiedToIff(req, 0, SetCount(req) + 1);
    CopiedIff(req);
  }

  lemma {:induction false} TroubleFromIff(req: Request, h: Heap, wishes: Wishes, k: nat, n: nat)
    requires Prechecked(req) && k <= n <= SetCount(req)
    ensures |WantedSizes(req)| == SetCount(req) + 1
    ensures var t, sizes := TroubleFrom(h, req, wishes, k), WantedSizes(req);
      && (t == Refused(n) <==>
            PlacedTo(h, sizes, wishes, k, n) && !PlacedTo(h, sizes, wishes, k, n + 1) && CopiedTo(req, k, n))
      && (t == NoCopy(n) <==>
            PlacedTo(h, sizes, wishes, k, n + 1) && CopiedTo(req, k, n) && !CopiedTo(req, k, n + 1))
    decreases n - k
  {
    RoomIsWanted(req, k);
    if k < n && h.CanPlace(Room(req, k), wishes[k]) {
      TroubleFromIff(req, h.Allocate(Room(req, k), wishes[k]).0, wishes, k + 1, n);
    }
  }

  /** The copy into block `n` is made: it is the header's, or of a message with data, by a memcpy_s in its range. */
  predicate CopyMade(req: Request, n: nat)
    requires n <= |req.msgs|
  {
    n == 0 || (req.msgs[n - 1].Data? && 0 < req.seg <= 0x7FFF_FFFF)
  }

  /** Which block stops the set-up, and at its allocation or at its copy, told from the sizes and the messages. */
  lemma TroubleIff(req: Request, h: Heap, wishes: Wishes, n: nat)
    requires Prechecked(req) && n <= SetCount(req)
    ensures |WantedSizes(req)| == SetCount(req) + 1
    ensures var t, sizes := TroubleFrom(h, req, wishes, 0), WantedSizes(req);
      var copied := forall k :: 0 <= k < n ==> CopyMade(req, k);
      && (t == Refused(n) <==>
            PlacedTo(h, sizes, wishes, 0, n) && !PlacedTo(h, sizes, wishes, 0, n + 1) && copied)
      && (t == NoCopy(n) <==>
            PlacedTo(h, sizes, wishes, 0, n + 1) && copied && !CopyMade(req, n))
  {
    TroubleFromIff(req, h, wishes, 0, n);
    CopiesMade(req, n);
    CopiesMade(req, n + 1);
  }

  lemma {:induction false} CopiesMade(req: Request, n: nat)
    requires Prechecked(req) && n <= SetCount(req) + 1
    ensures CopiedTo(req, 0, n) <==> forall k :: 0 <= k < n ==> CopyMade(req, k)
  {
    CopiedToIff(req, 0, n);
    forall k | 0 < k < n
      ensures CopyMade(req, k) <==> CopyFits(req.msgs[k - 1], req.seg)
    {
    }
    if forall k :: 0 <= k < n ==> CopyMade(req, k) {
      forall i | 0 <= i < n - 1
        ensures CopyFits(req.msgs[i], req.seg)
      {
        assert CopyMade(req, i + 1);
      }
    }
  }

  /** What is in the four entries of a packed request. */
  ghost predicate Shape(req: Request, sgl: Sgl, h: Heap)
    requires 1 <= |req.msgs|
  {
    var n := |req.msgs|;
    var last := if n < 3 then n else 3;
    && sgl.iovCount == 1 + last
    && (forall k :: 0 <= k <= last ==> sgl.iov[k].lAddress in h.live && sgl.iov[k].lKey == h.key)
    && h.live[sgl.iov[0].lAddress] == 2 == sgl.iov[0].size
    && (forall k :: 1 <= k <= last ==>
          h.live[sgl.iov[k].lAddress] == if k == last then req.seg else req.msgs[k - 1].Len())
    && (forall k :: 1 <= k <= last && k < 3 ==> sgl.iov[k].size == req.msgs[k - 1].Len())
    && (n >= 3 ==> sgl.iov[3].size == TotalLen(req.msgs[2..]))
  }

  lemma PackedShape(c: Call, h: Heap)
    requires CallInv(c, h) && c.pc.Packed?
    ensures Shape(c.req, c.sgl, h)
  {
    var req, n := c.req, |c.req.msgs|;
    forall k: nat | k <= SetCount(req)
      ensures c.sgl.iov[k].lAddress in h.live && c.sgl.iov[k].lKey == h.key
      ensures h.live[c.sgl.iov[k].lAddress] == WantedSizes(req)[k]
      ensures 1 <= k < 3 ==> c.sgl.iov[k].size == req.msgs[k - 1].Len()
    {
      assert GoodEntry(req, c.sgl, h, k, n);
      RoomIsWanted(req, k);
    }
    assert GoodEntry(req, c.sgl, h, 0, n);
    if n >= 3 {
      assert GoodEntry(req, c.sgl, h, 3, n);
      assert req.msgs[2..n] == req.msgs[2..];
      ConcatLen(req.msgs[2..]);
    }
  }

  /** The header's two bytes, low one first. */
  lemma HeaderBytes(msgId: u16)
    ensures var b := EncodeHeader(msgId);
      |b| == 2 && b[0] == msgId % 0x100 && (b[1] as int) * 0x100 + b[0] as int == msgId as int
  {
  }
}
