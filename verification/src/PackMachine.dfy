/**
 OckRpcClientCallWithParam up to the moment its request is packed, and the release
 of the packed blocks, as a machine that takes one allocator call (with the
 private writes that follow it) per step. The in-place methods of module Pack run
 exactly this machine; module Protocol interleaves many of them over one pool.
 */
module PackMachine {
  import opened Machine
  import opened Pool

  const MAX_IOV_COUNT := 4
  const MAX_CALL_COUNT := 8
  /** sizeof(RawMessageHeader) */
  const HEADER_SIZE := 2

  /** OckRpcMessage as the caller fills it: `data` may be the null pointer. */
  datatype Message = NullData(len: u64) | Data(bytes: Bytes)
  {
    function Len(): nat {
      match this
      case NullData(len) => len
      case Data(bytes) => |bytes|
    }

    function Body(): Bytes {
      if Data? then bytes else []
    }
  }

  /** memcpy_s refuses a capacity out of its range, a null source, and a length above the capacity. */
  predicate CopyFits(m: Message, capacity: nat) {
    InRange(capacity) && m.Data? && m.Len() <= capacity
  }

  datatype Iov = Iov(lAddress: Addr, lKey: u32, size: u32)

  const EMPTY_IOV := Iov(0, 0, 0)

  type Iovs = s: seq<Iov> | |s| == MAX_IOV_COUNT witness [EMPTY_IOV, EMPTY_IOV, EMPTY_IOV, EMPTY_IOV]

  /** Service_SglRequest */
  datatype Sgl = Sgl(iov: Iovs, iovCount: u16)
  {
    function Put(k: nat, e: Iov): Sgl
      requires k < MAX_IOV_COUNT
    {
      Sgl(iov[k := e], ToU16(iovCount + 1))
    }
  }

  const EMPTY_SGL := Sgl([EMPTY_IOV, EMPTY_IOV, EMPTY_IOV, EMPTY_IOV], 0)

  /** OckRpcCallDone; `cb` may be null. */
  datatype Done = Done(cb: Ptr, arg: Ptr)

  /** OckRpcClientCallParams together with the segment size in force. */
  datatype Request = Request(msgId: u16, msgs: seq<Message>, seg: u32, rsp: Ptr, done: Option<Done>)

  /** The parameter checks OckRpcClientCallWithParam makes before it packs. */
  predicate Prechecked(req: Request) {
    && 1 <= |req.msgs| <= MAX_CALL_COUNT
    && forall i :: 0 <= i < |req.msgs| ==> req.msgs[i].Len() <= req.seg
  }

  predicate AllData(msgs: seq<Message>) {
    forall i :: 0 <= i < |msgs| ==> msgs[i].Data?
  }

  datatype Pc =
    | Header                              // about to allocate the header block
    | Block(i: nat)                       // SetReqInfo, loop iteration i
    | Undo(a: Addr, left: nat)            // SetReqInfo, rollback loop: `left` frees of `a` to go
    | FreeHeader                          // PackReqInfo, rollback of more than three messages
    | FreeAll(k: nat)                     // FreeAllMemory, loop iteration k
    | Append(i: nat)                      // PackReqInfo, append loop, iteration i
    | Packed                              // PackReqInfo returned OCK_RPC_OK
    | Failed                              // PackReqInfo returned OCK_RPC_ERR
    | FreeSent(k: nat, ok: bool)          // release after the synchronous call, iteration k
    | Freed(ok: bool)                     // the synchronous call has returned

  datatype Call = Call(req: Request, sgl: Sgl, pc: Pc)

  function Start(req: Request): Call {
    Call(req, EMPTY_SGL, Header)
  }

  /** How many messages get a block of their own: at most three. */
  function SetCount(req: Request): nat {
    if |req.msgs| > 3 then 3 else |req.msgs|
  }

  predicate WellFormed(c: Call) {
    && 1 <= |c.req.msgs|
    && match c.pc
       case Block(i) => i < SetCount(c.req)
       case Append(i) => 3 <= i <= |c.req.msgs|
       case FreeAll(k) => k <= MAX_IOV_COUNT
       case FreeSent(k, _) => k <= MAX_IOV_COUNT
       case _ => true
  }

  /** RawMessageHeader in memory, low byte of msgId first. */
  function EncodeHeader(msgId: u16): Bytes {
    [msgId % 0x100, msgId / 0x100]
  }

  function AfterBlocks(req: Request): Pc {
    if |req.msgs| > 3 then Append(3) else Packed
  }

  function AfterUndo(req: Request): Pc {
    if |req.msgs| > 3 then FreeHeader else FreeAll(0)
  }

  function HeaderStep(c: Call, h: Heap, wish: Addr): (Call, Heap) {
    var (h1, a) := h.Allocate(HEADER_SIZE, wish);
    if a == 0 then (c.(pc := Failed), h1)
    else
      (c.(sgl := c.sgl.Put(0, Iov(a, h.key, HEADER_SIZE)), pc := Block(0)),
       h1.Write(a, 0, EncodeHeader(c.req.msgId)))
  }

  function BlockSize(req: Request, i: nat): u32
    requires i < |req.msgs|
  {
    if i == SetCount(req) - 1 then req.seg else ToU32(req.msgs[i].Len())
  }

  /**
   The requests whose packing can disturb nobody, in any pool: the first messages,
   which get blocks of their own, have data; or the very first has none and its block is
   a whole segment; or memcpy_s refuses the segment size as a capacity and does nothing.
   */
  predicate SafeReq(req: Request) {
    (forall i :: 0 <= i < SetCount(req) ==> req.msgs[i].Data?)
    || (0 < |req.msgs| && req.msgs[0].NullData? && BlockSize(req, 0) == req.seg)
    || !InRange(req.seg)
  }

  function BlockStep(c: Call, h: Heap, wish: Addr): (Call, Heap)
    requires WellFormed(c) && c.pc.Block?
  {
    BlockUnder(c, h, wish, BlockSize(c.req, c.pc.i), c.req.seg)
  }

  /** The iteration with a block of `size` bytes and under the segment size that g_options holds at the copy. */
  function BlockUnder(c: Call, h: Heap, wish: Addr, size: u32, seg: u32): (Call, Heap)
    requires WellFormed(c) && c.pc.Block?
  {
    var i := c.pc.i;
    var m := c.req.msgs[i];
    var (h1, a) := h.Allocate(size, wish);
    if a == 0 then (c.(pc := Undo(0, i)), h1)
    else if !CopyFits(m, seg) then (c.(pc := Undo(a, i + 1)), h1.Clear(a, 0, seg))
    else
      (c.(sgl := c.sgl.Put(i + 1, Iov(a, h.key, ToU32(m.Len()))),
          pc := if i + 1 == SetCount(c.req) then AfterBlocks(c.req) else Block(i + 1)),
       h1.Write(a, 0, m.bytes))
  }

  function AppendStep(c: Call, h: Heap): (Call, Heap)
    requires WellFormed(c) && c.pc.Append?
  {
    AppendUnder(c, h, c.req.seg)
  }

  /** The iteration under the segment size that g_options holds at that moment. */
  function AppendUnder(c: Call, h: Heap, seg: u32): (Call, Heap)
    requires WellFormed(c) && c.pc.Append?
  {
    var i := c.pc.i;
    if i == |c.req.msgs| then (c.(pc := Packed), h)
    else
      var m := c.req.msgs[i];
      var last := c.sgl.iov[3];
      var capacity := ToU32(seg - last.size);
      if !CopyFits(m, capacity) then (c.(pc := FreeAll(0)), h.Clear(last.lAddress, last.size, capacity))
      else
        (c.(sgl := c.sgl.(iov := c.sgl.iov[3 := last.(size := ToU32(last.size + m.Len()))]),
            pc := Append(i + 1)),
         h.Write(last.lAddress, last.size, m.bytes))
  }

  /** One step. `wish` matters only where a block is allocated. */
  function CallStep(c: Call, h: Heap, wish: Addr): (r: (Call, Heap))
    requires WellFormed(c)
    ensures WellFormed(r.0)
  {
    match c.pc
    case Header => HeaderStep(c, h, wish)
    case Block(_) => BlockStep(c, h, wish)
    case Undo(a, left) =>
      if left == 0 then (c.(pc := AfterUndo(c.req)), h)
      else (c.(pc := Undo(a, left - 1)), h.Free(a))
    case FreeHeader => (c.(pc := Failed), h.Free(c.sgl.iov[0].lAddress))
    case FreeAll(k) =>
      if k == MAX_IOV_COUNT then (c.(pc := Failed), h)
      else (c.(pc := FreeAll(k + 1)), h.Free(c.sgl.iov[k].lAddress))
    case Append(_) => AppendStep(c, h)
    case FreeSent(k, ok) =>
      if k >= c.sgl.iovCount || k == MAX_IOV_COUNT then (c.(pc := Freed(ok)), h)
      else (c.(pc := FreeSent(k + 1, ok)), h.Free(c.sgl.iov[k].lAddress))
    case Packed => (c, h)
    case Failed => (c, h)
    case Freed(_) => (c, h)
  }

  predicate Halted(pc: Pc) {
    pc.Packed? || pc.Failed? || pc.Freed?
  }

  // A measure every step lowers until the machine halts.

  function Stage(pc: Pc): nat {
    match pc
    case Header => 6
    case Block(_) => 5
    case Append(_) => 4
    case Undo(_, _) => 3
    case FreeHeader => 2
    case FreeAll(_) => 1
    case FreeSent(_, _) => 1
    case Packed => 0
    case Failed => 0
    case Freed(_) => 0
  }

  function Remaining(c: Call): nat
    requires WellFormed(c)
  {
    match c.pc
    case Block(i) => SetCount(c.req) - i
    case Append(i) => |c.req.msgs| - i
    case Undo(_, left) => left
    case FreeAll(k) => MAX_IOV_COUNT - k
    case FreeSent(k, _) => MAX_IOV_COUNT - k
    case _ => 0
  }

  /** The addresses the pool would answer to the header and the three data blocks. */
  type Wishes = s: seq<Addr> | |s| == MAX_IOV_COUNT witness [0, 0, 0, 0]

  function WishFor(pc: Pc, wishes: Wishes): Addr {
    match pc
    case Header => wishes[0]
    case Block(i) => if i < 3 then wishes[i + 1] else 0
    case _ => 0
  }

  /** The call on its own until it halts. */
  function Run(c: Call, h: Heap, wishes: Wishes): (r: (Call, Heap))
    requires WellFormed(c)
    ensures WellFormed(r.0) && Halted(r.0.pc)
    decreases Stage(c.pc), Remaining(c)
  {
    if Halted(c.pc) then (c, h)
    else
      var (c1, h1) := CallStep(c, h, WishFor(c.pc, wishes));
      Run(c1, h1, wishes)
  }

  // What is sent

  function Concat(msgs: seq<Message>): Bytes {
    if msgs == [] then [] else Concat(msgs[..|msgs| - 1]) + msgs[|msgs| - 1].Body()
  }

  function TotalLen(msgs: seq<Message>): nat {
    if msgs == [] then 0 else TotalLen(msgs[..|msgs| - 1]) + msgs[|msgs| - 1].Len()
  }

  /** The bytes a channel sends for a request: its blocks in sequence. */
  function Gather(h: Heap, sgl: Sgl): Bytes {
    GatherFirst(h, sgl, if sgl.iovCount <= MAX_IOV_COUNT then sgl.iovCount else MAX_IOV_COUNT)
  }

  function GatherFirst(h: Heap, sgl: Sgl, n: nat): Bytes
    requires n <= MAX_IOV_COUNT
  {
    if n == 0 then []
    else GatherFirst(h, sgl, n - 1) + h.Read(sgl.iov[n - 1].lAddress, sgl.iov[n - 1].size)
  }
}
