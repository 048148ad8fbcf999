/** What the peer does with a message, for both ways a client can send it. */
module Dispatch {
  import opened Machine
  import opened Services
  import opened Pool
  import opened PackMachine
  import opened PackInvariant
  import opened PackOutcome

  /**
   What the library presents to OckRpcReceiveHandle. The data pointer may be null,
   and either getter may fail; a message sent with op info carries its op code.
   */
  datatype Context = Context(data: Option<Bytes>, kind: Option<Kind>)
  datatype Kind = Raw | WithOpInfo(opCode: Option<u16>)

  datatype Reaction =
    | Error                                  // OCK_RPC_ERR, nothing invoked
    | Unhandled(msgId: u16)                  // OCK_RPC_OK, nothing invoked
    | Invoked(handler: Handler, data: Bytes) // OCK_RPC_OK, the handler saw these bytes
    | Truncated                              // a raw message shorter than its header; the code has no check for it

  function DecodeHeader(b: Bytes): u16
    requires |b| >= HEADER_SIZE
  {
    var low: int, high: int := b[0], b[1];
    low + 0x100 * high
  }

  function ToHandler(handlers: map<i16, Handler>, msgId: u16, data: Bytes): Reaction {
    match Lookup(handlers, msgId)
    case Some(h) => Invoked(h, data)
    case None => Unhandled(msgId)
  }

  /** OckRpcReceiveHandle */
  function Receive(handlers: map<i16, Handler>, ctx: Context): Reaction {
    if ctx.data.None? || ctx.kind.None? then Error
    else
      var data := ctx.data.value;
      match ctx.kind.value
      case Raw =>
        if |data| < HEADER_SIZE then Truncated
        else ToHandler(handlers, DecodeHeader(data), data[HEADER_SIZE..])
      case WithOpInfo(opCode) =>
        if opCode.None? then Error else ToHandler(handlers, opCode.value, data)
  }

  const UINT32_MAX := 0xFFFF_FFFF

  /** What OckRpcClientCall hands to its channel, or None when it refuses the length. */
  function SimpleWire(msgId: u16, request: Bytes): Option<Context> {
    if |request| > UINT32_MAX then None
    else Some(Context(Some(request[..ToU32(|request|)]), Some(WithOpInfo(Some(msgId)))))
  }

  /** The simple call sends any message that fits 32 bits, unchanged and with its id beside it, and no other. */
  lemma SimpleWireExact(msgId: u16, request: Bytes)
    ensures SimpleWire(msgId, request) ==
      if |request| < 0x1_0000_0000 then Some(Context(Some(request), Some(WithOpInfo(Some(msgId))))) else None
  {
    assert request[..|request|] == request;
  }

  /** What the peer is given for a scatter-gather request: its blocks in sequence, raw. */
  function ScatterWire(h: Heap, sgl: Sgl): Context {
    Context(Some(Gather(h, sgl)), Some(Raw))
  }

  lemma HeaderRoundTrip(msgId: u16, rest: Bytes)
    ensures |EncodeHeader(msgId) + rest| >= HEADER_SIZE
    ensures DecodeHeader(EncodeHeader(msgId) + rest) == msgId
    ensures (EncodeHeader(msgId) + rest)[HEADER_SIZE..] == rest
  {
  }

  lemma HeaderInverse(b: Bytes)
    requires |b| >= HEADER_SIZE
    ensures EncodeHeader(DecodeHeader(b)) + b[HEADER_SIZE..] == b
  {
    var low: int, high: int := b[0], b[1];
    assert (low + 0x100 * high) % 0x100 == low && (low + 0x100 * high) / 0x100 == high;
  }

  /** The message carries `msgId` and payload `d`, in the form of either way to send it. */
  predicate Carries(ctx: Context, msgId: u16, d: Bytes) {
    || ctx == Context(Some(EncodeHeader(msgId) + d), Some(Raw))
    || ctx == Context(Some(d), Some(WithOpInfo(Some(msgId))))
  }

  /** A handler runs on a payload exactly when the message carries that payload for an id it is registered for. */
  lemma InvokedIff(handlers: map<i16, Handler>, ctx: Context, h: Handler, d: Bytes)
    ensures Receive(handlers, ctx) == Invoked(h, d)
       <==> exists msgId: u16 :: Carries(ctx, msgId, d) && Lookup(handlers, msgId) == Some(h)
  {
    if Receive(handlers, ctx) == Invoked(h, d) {
      var data := ctx.data.value;
      if ctx.kind.value.Raw? {
        HeaderInverse(data);
        assert Carries(ctx, DecodeHeader(data), d) && Lookup(handlers, DecodeHeader(data)) == Some(h);
      } else {
        assert Carries(ctx, ctx.kind.value.opCode.value, d);
      }
    }
    if msgId: u16 :| Carries(ctx, msgId, d) && Lookup(handlers, msgId) == Some(h) {
      HeaderRoundTrip(msgId, d);
    }
  }

  /** The other reactions, each with the messages that draw it. */
  lemma ReactionsExact(handlers: map<i16, Handler>, ctx: Context, msgId: u16)
    ensures var reaction := Receive(handlers, ctx);
      && (reaction == Unhandled(msgId)
          <==> exists d: Bytes :: Carries(ctx, msgId, d) && Lookup(handlers, msgId) == None)
      && (reaction == Error <==> ctx.data.None? || ctx.kind.None? || ctx.kind == Some(WithOpInfo(None)))
      && (reaction == Truncated <==> ctx.data.Some? && |ctx.data.value| < 2 && ctx.kind == Some(Raw))
  {
    if Receive(handlers, ctx) == Unhandled(msgId) {
      var data := ctx.data.value;
      if ctx.kind.value.Raw? {
        HeaderInverse(data);
        assert Carries(ctx, msgId, data[HEADER_SIZE..]);
      } else {
        assert Carries(ctx, msgId, data);
      }
    }
    if d: Bytes :| Carries(ctx, msgId, d) && Lookup(handlers, msgId) == None {
      HeaderRoundTrip(msgId, d);
    }
  }

  /**
   The scatter path refines the simple one: whatever handlers are registered, the
   peer reacts to a packed request as it would to one message with the concatenated
   bytes. The simple call accepts those bytes exactly when they fit 32 bits.
   */
  lemma ScatterRefinesSimple(handlers: map<i16, Handler>, req: Request, h: Heap, wishes: Wishes)
    requires h.Valid() && Prechecked(req)
    requires Run(Start(req), h, wishes).0.pc.Packed?
    ensures var (c, h') := Run(Start(req), h, wishes);
      var whole := Concat(req.msgs);
      && Receive(handlers, ScatterWire(h', c.sgl)) == ToHandler(handlers, req.msgId, whole)
      && (SimpleWire(req.msgId, whole).Some? <==> TotalLen(req.msgs) < 0x1_0000_0000)
      && (SimpleWire(req.msgId, whole).Some? ==>
            Receive(handlers, ScatterWire(h', c.sgl)) == Receive(handlers, SimpleWire(req.msgId, whole).value))
  {
    PackedRun(req, h, wishes);
    PackedIsReceived(handlers, Run(Start(req), h, wishes).0, Run(Start(req), h, wishes).1);
    SameReaction(handlers, req);
  }

  lemma PackedRun(req: Request, h: Heap, wishes: Wishes)
    requires h.Valid() && Prechecked(req) && Run(Start(req), h, wishes).0.pc.Packed?
    ensures var (c, h') := Run(Start(req), h, wishes); CallInv(c, h') && c.req == req
    ensures AllData(req.msgs)
  {
    PackResult(req, h, wishes);
    var (c, h') := Run(Start(req), h, wishes);
    assert Recorded(req, c.sgl, h', SetCount(req) + 1, |req.msgs|);
  }

  lemma SameReaction(handlers: map<i16, Handler>, req: Request)
    requires AllData(req.msgs)
    ensures var wire := SimpleWire(req.msgId, Concat(req.msgs));
      && (wire.Some? <==> TotalLen(req.msgs) <= UINT32_MAX)
      && (wire.Some? ==> Receive(handlers, wire.value) == ToHandler(handlers, req.msgId, Concat(req.msgs)))
  {
    ConcatLen(req.msgs);
    var whole := Concat(req.msgs);
    assert whole[..|whole|] == whole;
  }

  lemma PackedIsReceived(handlers: map<i16, Handler>, c: Call, h: Heap)
    requires CallInv(c, h) && c.pc.Packed?
    ensures Receive(handlers, ScatterWire(h, c.sgl)) == ToHandler(handlers, c.req.msgId, Concat(c.req.msgs))
  {
    WireImage(c, h);
    HeaderRoundTrip(c.req.msgId, Concat(c.req.msgs));
  }

  method ReceiveHandle(tables: Tables, ctx: Context) returns (r: Reaction)
    ensures r == Receive(tables.g_handleMap, ctx)
  {
    if ctx.data.None? || ctx.kind.None? {
      return Error;
    }
    var data, msgId := ctx.data.value, 0;
    match ctx.kind.value {
      case Raw =>
        if |data| < HEADER_SIZE {
          return Truncated;
        }
        msgId := DecodeHeader(data);
        data := data[HEADER_SIZE..];
      case WithOpInfo(opCode) =>
        if opCode.None? {
          return Error;
        }
        msgId := opCode.value;
    }
    var key := ToI16(msgId);
    if key in tables.g_handleMap {
      return Invoked(tables.g_handleMap[key], data);
    }
    return Unhandled(msgId);
  }
}
