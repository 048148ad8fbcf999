/**
 Which requests can do harm, by what a caller can see beforehand: for each kind of harm,
 there is a pool and a placement in which packing does it if and only if the messages
 say so.
 */
module SafeRequests {
  import opened Pool
  import opened PackMachine
  import opened PackInvariant
  import opened PackOutcome

  /**
   The first message, from `i` on, whose copy into a block of its own will be refused; the
   number of those blocks if there is none.
   */
  function FirstRefused(req: Request, i: nat): (n: nat)
    requires i <= SetCount(req)
    ensures i <= n <= SetCount(req)
    ensures forall j :: i <= j < n ==> CopyFits(req.msgs[j], req.seg)
    ensures n < SetCount(req) ==> !CopyFits(req.msgs[n], req.seg)
    decreases SetCount(req) - i
  {
    if i == SetCount(req) || !CopyFits(req.msgs[i], req.seg) then i else FirstRefused(req, i + 1)
  }

  /** With every allocation answered, the first refused message decides how the set-up ends. */
  lemma {:induction false} TroubleCases(req: Request, h: Heap, wishes: Wishes, k: nat)
    requires 1 <= k <= SetCount(req) + 1
    ensures var t, n := TroubleFrom(h, req, wishes, k), FirstRefused(req, k - 1);
      && (t.Smooth? ==> n == SetCount(req))
      && (t.NoCopy? ==> n < SetCount(req) && t.k == n + 1)
    decreases SetCount(req) + 1 - k
  {
    if k <= SetCount(req) && h.CanPlace(Room(req, k), wishes[k]) && CopyFits(req.msgs[k - 1], req.seg) {
      TroubleCases(req, h.Allocate(Room(req, k), wishes[k]).0, wishes, k + 1);
    }
  }

  lemma TroubleOf(req: Request, h: Heap, wishes: Wishes)
    requires 1 <= |req.msgs|
    ensures var t, n := TroubleFrom(h, req, wishes, 0), FirstRefused(req, 0);
      && (t.Smooth? ==> n == SetCount(req))
      && (t.NoCopy? ==> n < SetCount(req) && t.k == n + 1)
  {
    if h.CanPlace(Room(req, 0), wishes[0]) {
      TroubleCases(req, h.Allocate(Room(req, 0), wishes[0]).0, wishes, 1);
    }
  }

  // A pool with room for everything

  /** Block `k` of a request in the roomy pool, with a gap behind it even when it is empty. */
  function Slot(req: Request, k: nat): nat {
    if k == 0 then 1 else if k == 1 then 1 + HEADER_SIZE else Slot(req, k - 1) + req.seg + 1
  }

  function RoomyPool(req: Request): Heap {
    Heap(1, seq(Slot(req, MAX_IOV_COUNT), _ => 0), map[], 0, 0, 0)
  }

  function RoomyWishes(req: Request): Wishes {
    [Slot(req, 0), Slot(req, 1), Slot(req, 2), Slot(req, 3)]
  }

  /** Blocks before slot `k` are the only ones placed. */
  ghost predicate PlacedBelow(req: Request, h: Heap, k: nat) {
    && h.base == 1 && |h.mem| == Slot(req, MAX_IOV_COUNT)
    && forall b :: b in h.live ==> b < Slot(req, k) && b + h.live[b] <= Slot(req, k)
  }

  lemma {:induction false} SlotsRise(req: Request, j: nat, k: nat)
    requires j <= k
    ensures Slot(req, j) <= Slot(req, k) && (j < k ==> Slot(req, j) < Slot(req, k))
  {
    if j < k {
      SlotsRise(req, j, k - 1);
    }
  }

  lemma RoomyPlaces(req: Request, h: Heap, k: nat)
    requires Prechecked(req) && k <= SetCount(req) && PlacedBelow(req, h, k)
    ensures h.CanPlace(Room(req, k), Slot(req, k))
    ensures PlacedBelow(req, h.Allocate(Room(req, k), Slot(req, k)).0, k + 1)
  {
    SlotHolds(req, k);
    var h' := h.Allocate(Room(req, k), Slot(req, k)).0;
    assert h.CanPlace(Room(req, k), Slot(req, k));
    assert h' == h.(live := h.live[Slot(req, k) := Room(req, k)]);
  }

  lemma SlotHolds(req: Request, k: nat)
    requires Prechecked(req) && k <= SetCount(req)
    ensures 0 < Slot(req, k) < Slot(req, k + 1) <= Slot(req, MAX_IOV_COUNT)
    ensures Slot(req, k) + Room(req, k) <= Slot(req, k + 1)
  {
    SlotsRise(req, 0, k);
    SlotsRise(req, k + 1, MAX_IOV_COUNT);
  }

  lemma {:induction false} RoomyAnswers(req: Request, h: Heap, wishes: Wishes, k: nat)
    requires Prechecked(req) && k <= SetCount(req) + 1 && PlacedBelow(req, h, k)
    requires forall j :: k <= j < MAX_IOV_COUNT ==> wishes[j] == Slot(req, j)
    ensures !TroubleFrom(h, req, wishes, k).Refused?
    decreases SetCount(req) + 1 - k
  {
    if k <= SetCount(req) {
      RoomyPlaces(req, h, k);
      RoomyAnswers(req, h.Allocate(Room(req, k), wishes[k]).0, wishes, k + 1);
    }
  }

  lemma RoomyTrouble(req: Request)
    requires Prechecked(req)
    ensures RoomyPool(req).Valid()
    ensures var n := FirstRefused(req, 0);
      TroubleFrom(RoomyPool(req), req, RoomyWishes(req), 0) == if n == SetCount(req) then Smooth else NoCopy(n + 1)
  {
    RoomyAnswers(req, RoomyPool(req), RoomyWishes(req), 0);
    TroubleOf(req, RoomyPool(req), RoomyWishes(req));
  }

  // The harms

  predicate FreesTwice(req: Request, h: Heap, wishes: Wishes)
    requires Prechecked(req)
  {
    Run(Start(req), h, wishes).1.badFrees > h.badFrees
  }

  predicate ClearsPastBlock(req: Request, h: Heap, wishes: Wishes)
    requires Prechecked(req)
  {
    Run(Start(req), h, wishes).1.wildWrites > h.wildWrites
  }

  predicate LeavesBlocks(req: Request, h: Heap, wishes: Wishes)
    requires Prechecked(req)
  {
    var (c', h') := Run(Start(req), h, wishes);
    c'.pc.Failed? && h'.live != h.live
  }

  /** A double free is possible exactly when the first copy is made and that of the second or third message refused. */
  lemma FreesTwiceIff(req: Request)
    requires Prechecked(req)
    ensures (exists h: Heap, wishes: Wishes :: h.Valid() && FreesTwice(req, h, wishes))
       <==> 1 <= FirstRefused(req, 0) < SetCount(req)
  {
    if 1 <= FirstRefused(req, 0) < SetCount(req) {
      RoomyTrouble(req);
      PackResult(req, RoomyPool(req), RoomyWishes(req));
      assert FreesTwice(req, RoomyPool(req), RoomyWishes(req));
    }
    if h: Heap, wishes: Wishes :| h.Valid() && FreesTwice(req, h, wishes) {
      PackResult(req, h, wishes);
      TroubleOf(req, h, wishes);
    }
  }

  /** A wild clearing is possible exactly when the first refused message has a block shorter than a segment in range. */
  lemma ClearsPastBlockIff(req: Request)
    requires Prechecked(req)
    ensures (exists h: Heap, wishes: Wishes :: h.Valid() && ClearsPastBlock(req, h, wishes))
       <==> FirstRefused(req, 0) < SetCount(req) && InRange(req.seg)
            && BlockSize(req, FirstRefused(req, 0)) < req.seg
  {
    var n := FirstRefused(req, 0);
    if n < SetCount(req) && InRange(req.seg) && BlockSize(req, n) < req.seg {
      RoomyTrouble(req);
      PackResult(req, RoomyPool(req), RoomyWishes(req));
      assert ClearsPastBlock(req, RoomyPool(req), RoomyWishes(req));
    }
    if h: Heap, wishes: Wishes :| h.Valid() && ClearsPastBlock(req, h, wishes) {
      PackResult(req, h, wishes);
      TroubleOf(req, h, wishes);
    }
  }

  /** A request is safe exactly when no pool and placement makes it free twice or clear past its block. */
  lemma SafeIff(req: Request)
    requires Prechecked(req)
    ensures SafeReq(req) <==>
      forall h: Heap, wishes: Wishes :: h.Valid() ==> !FreesTwice(req, h, wishes) && !ClearsPastBlock(req, h, wishes)
  {
    FreesTwiceIff(req);
    ClearsPastBlockIff(req);
    SafeByFirstRefused(req);
  }

  lemma SafeByFirstRefused(req: Request)
    requires Prechecked(req)
    ensures var n := FirstRefused(req, 0);
      && (SafeReq(req) <==> !(1 <= n < SetCount(req))
                            && !(n < SetCount(req) && InRange(req.seg) && BlockSize(req, n) < req.seg))
  {
    var n := FirstRefused(req, 0);
    assert BlockSize(req, 0) <= req.seg;
    if n == SetCount(req) {
      assert forall i :: 0 <= i < SetCount(req) ==> CopyFits(req.msgs[i], req.seg);
    } else {
      assert CopyFits(req.msgs[n], req.seg) <==> InRange(req.seg) && req.msgs[n].Data?;
      assert 0 < n ==> CopyFits(req.msgs[0], req.seg);
    }
  }

  /** Blocks can be left allocated exactly when there are more than three messages and the first copy is made. */
  lemma LeavesBlocksIff(req: Request)
    requires Prechecked(req)
    ensures (exists h: Heap, wishes: Wishes :: h.Valid() && LeavesBlocks(req, h, wishes))
       <==> |req.msgs| > 3 && req.msgs[0].Data? && InRange(req.seg)
  {
    if |req.msgs| > 3 && req.msgs[0].Data? && InRange(req.seg) {
      LeftBehind(req);
    }
    if h: Heap, wishes: Wishes :| h.Valid() && LeavesBlocks(req, h, wishes) {
      FailureRestoresIff(req, h, wishes);
      StopsAfterFirst(req, h, wishes);
    }
  }

  lemma StopsAfterFirst(req: Request, h: Heap, wishes: Wishes)
    requires 1 <= |req.msgs|
    requires var t := TroubleFrom(h, req, wishes, 0); !t.Smooth? && 2 <= t.k
    ensures req.msgs[0].Data? && InRange(req.seg)
  {
    var h1 := h.Allocate(Room(req, 0), wishes[0]).0;
    assert TroubleFrom(h, req, wishes, 0) == TroubleFrom(h1, req, wishes, 1);
  }

  /** The roomy pool refusing the second message's block: the block of the first stays allocated. */
  lemma LeftBehind(req: Request)
    requires Prechecked(req) && |req.msgs| > 3 && req.msgs[0].Data? && InRange(req.seg)
    ensures var h, wishes := RoomyPool(req), RoomyWishes(req)[2 := 0];
      && h.Valid() && LeavesBlocks(req, h, wishes)
      && Run(Start(req), h, wishes).1.live.Keys == {wishes[1]}
  {
    var h, wishes := RoomyPool(req), RoomyWishes(req)[2 := 0];
    var h1 := h.Allocate(Room(req, 0), wishes[0]).0;
    var h2 := h1.Allocate(Room(req, 1), wishes[1]).0;
    RoomyPlaces(req, h, 0);
    RoomyPlaces(req, h1, 1);
    assert TroubleFrom(h2, req, wishes, 2) == Refused(2);
    assert TroubleFrom(h1, req, wishes, 1) == Refused(2);
    assert TroubleFrom(h, req, wishes, 0) == Refused(2);
    PackResult(req, h, wishes);
    assert Leaked(req, wishes, Refused(2)) == {wishes[1]};
    assert wishes[1] in Run(Start(req), h, wishes).1.live.Keys;
  }
}
