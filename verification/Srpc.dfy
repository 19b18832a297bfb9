/** The `Tsrpc` object. Each method is one lock-protected region of `srpc.c` and refines the
    step of the same name on the object's abstract state. */
module SrpcObject {
  import opened Bytes
  import opened Wire
  import opened ByteBuffers
  import opened Proto
  import opened PacketQueues
  import opened SrpcSpec

  class Srpc {
    const cfg: Config
    const proto: ProtoData
    const inQueue: PacketQueue
    const outQueue: PacketQueue
    var sdp: Sdp

    ghost function Repr(): set<object>
      reads this, proto, inQueue, outQueue, proto.input, proto.output
    {
      {this} + proto.Repr() + ({proto} + inQueue.Repr() + outQueue.Repr() + {inQueue, outQueue})
    }

    /** The object's parts are sound and do not overlap. */
    ghost predicate Shape()
      reads this, proto, proto.input, proto.output, proto.input.buffer, proto.output.buffer
      reads inQueue, inQueue.item, inQueue.live, outQueue, outQueue.item, outQueue.live
    {
      && proto.cfg == cfg && proto.Valid()
      && inQueue.Valid() && outQueue.Valid()
      && inQueue.queueSize == outQueue.queueSize == cfg.queueSize
      && inQueue.minAlloc == outQueue.minAlloc == cfg.minAlloc
      && inQueue.Repr() !! outQueue.Repr()
    }

    ghost predicate Valid()
      reads this, proto, proto.input, proto.output, proto.input.buffer, proto.output.buffer
      reads inQueue, inQueue.item, inQueue.live, outQueue, outQueue.item, outQueue.live
    {
      Shape() && Abs().Ok(cfg)
    }

    ghost function Abs(): Core
      reads this, proto, proto.input, proto.output, proto.input.buffer, proto.output.buffer, inQueue, outQueue
      requires proto.Valid()
    {
      Core(proto.nextRrId, proto.version, proto.input.Contents(), proto.output.Contents(),
           inQueue.contents, outQueue.contents, sdp)
    }

    constructor (cfg: Config)
      requires cfg.Sane()
      ensures Valid() && this.cfg == cfg
      ensures Abs() == Start(cfg, PROTO_VERSION).core
    {
      hide PacketQueue.Valid, ProtoData.Valid;
      this.cfg := cfg;
      proto := new ProtoData(cfg);
      inQueue := new PacketQueue(cfg.queueSize, cfg.minAlloc);
      outQueue := new PacketQueue(cfg.queueSize, cfg.minAlloc);
      sdp := Sdp(TAG, 0, 0, 0, 0, Zeros(cfg.maxData));
    }

    /** Fill the shared packet: fresh id, optional version, payload if it fits. */
    method Prepare(callId: u32, data: seq<byte>, version: Option<byte>) returns (fits: bool)
      requires Valid() && |data| < TWO_32
      modifies this`sdp, proto`nextRrId
      ensures Shape() && fits == (|data| <= cfg.maxData)
      ensures var id := NextId(old(proto.nextRrId));
        var blank := Fresh(cfg.maxData, if version.Some? then version.value else proto.version, id);
        Abs() == old(Abs()).(nextId := id, sdp := WithData(cfg.maxData, blank, data, callId))
    {
      hide PacketQueue.Valid;
      sdp := proto.SdpInit();
      if version.Some? {
        sdp := sdp.(version := version.value);
      }
      fits := |data| <= cfg.maxData;
      if fits {
        sdp := sdp.(data := data + sdp.data[|data|..], dataSize := |data|, callId := callId);
      }
    }

    /** `srpc_async__call` from the lock on. */
    method AsyncCall(callId: u32, data: seq<byte>, version: Option<byte>) returns (id: u32)
      requires Valid() && |data| < TWO_32
      modifies this`sdp, proto`nextRrId, outQueue.Repr()
      ensures Valid() && (Abs(), id) == Call(cfg, old(Abs()), callId, data, version)
    {
      hide PacketQueue.Valid, ProtoData.Valid;
      CallKeepsOk(cfg, Abs(), callId, data, version);
      var fits := Prepare(callId, data, version);
      var ok := false;
      if fits {
        ok := outQueue.Push(sdp);
      }
      id := if ok then sdp.rrId else 0;
    }

    /** `srpc_set_proto_version`. */
    method SetProtoVersion(v: byte)
      requires Valid()
      modifies proto`version
      ensures Valid() && Abs() == SetVersion(old(Abs()), v)
    {
      hide PacketQueue.Valid;
      proto.SetVersion(v);
    }

    /** `srpc_getdata`: the pop from the incoming queue. */
    method GetPacket(rrId: u32) returns (found: bool)
      requires Valid()
      modifies this`sdp, inQueue.Repr()
      ensures Valid() && (Abs(), found) == GetData(old(Abs()), rrId)
    {
      hide PacketQueue.Valid, ProtoData.Valid;
      GetDataKeepsOk(cfg, Abs(), rrId);
      found, sdp := inQueue.Pop(sdp, rrId);
    }

    /** The incoming half of `srpc_iterate`, up to the callback window. */
    method IterateIn(read: Read) returns (r: InResult)
      requires Valid() && StepOk(cfg, DoIn(read))
      modifies this`sdp, proto`beginTag, proto.input, proto.input.buffer, inQueue.Repr()
      ensures Valid() && (Abs(), r) == InHalf(cfg, old(Abs()), read)
    {
      hide PacketQueue.Valid, InPopped, Dispatch;
      InHalfKeepsOk(cfg, Abs(), read);
      if read.Closed? {
        return Stop(PeerClosed);
      }
      ghost var bytes := if read.Chunk? then read.bytes else [];
      ghost var before := Abs();
      assert before.input + [] == before.input;
      if read.Chunk? {
        var appended := proto.InAppend(read.bytes);
        if appended != Appended {
          return Stop(InputOverflow);
        }
      }
      assert proto.input.Contents() == before.input + bytes;
      r := Take();
    }

    /** Pop one packet off the input buffer and put it on the incoming queue. */
    method Take() returns (r: InResult)
      requires Valid()
      modifies this`sdp, proto`beginTag, proto.input, proto.input.buffer, inQueue.Repr()
      ensures Shape()
      ensures var (result, rest, next) := InPopped(cfg, old(Abs()).input, old(sdp));
        (Abs(), r) == Dispatch(cfg, old(Abs()).(input := rest, sdp := next), result)
    {
      hide PacketQueue.Valid, ProtoData.Valid, InPopped, Dispatch;
      ghost var before := Abs();
      var result;
      result, sdp := proto.PopIn(sdp);
      assert Abs() == before.(input := Abs().input, sdp := sdp);
      r := Deliver(result);
    }

    /** Queue the packet just popped, or tell why there is none. */
    method Deliver(result: Result) returns (r: InResult)
      requires Shape()
      modifies inQueue.Repr()
      ensures Shape() && (Abs(), r) == Dispatch(cfg, old(Abs()), result)
    {
      hide PacketQueue.Valid, ProtoData.Valid;
      if result == True {
        var raise := proto.input.dataSize > 0;
        var pushed := inQueue.Push(sdp);
        return if pushed then Proceed(true, raise) else Stop(InQueueFull);
      } else if result != False {
        return Stop(ParseError(result));
      }
      r := Proceed(false, false);
    }

    /** The outgoing half of `srpc_iterate`. */
    method IterateOut(raise: bool, hasEvents: bool) returns (r: OutResult)
      requires Valid()
      modifies this`sdp, proto.output, proto.output.buffer, outQueue.Repr()
      ensures Valid() && (Abs(), r) == OutHalf(cfg, old(Abs()), raise, hasEvents)
    {
      hide OutAppended, PacketQueue.Valid, ProtoData.Valid;
      OutHalfKeepsOk(cfg, Abs(), raise, hasEvents);
      ghost var before := Abs();
      var taken, result;
      taken, sdp := outQueue.Pop(sdp, 0);
      result := False;
      if taken {
        assert outQueue.contents == before.outQueue[1..] && sdp == before.outQueue[0];
        result := proto.OutAppend(sdp);
        var (_, output) := OutAppended(cfg, before.output, sdp);
        assert Abs() == before.(sdp := sdp, outQueue := before.outQueue[1..], output := output);
      } else {
        assert Abs() == before;
      }
      r := Flush(result, raise, hasEvents);
    }

    /** Drain one block of the output buffer, unless the append has failed for good. */
    method Flush(result: Result, raise: bool, hasEvents: bool) returns (r: OutResult)
      requires Shape()
      modifies proto.output, proto.output.buffer
      ensures Shape() && (Abs(), r) == Emit(cfg, old(Abs()), result, old(Abs()).output, raise, hasEvents)
    {
      assert outQueue.itemCount == |outQueue.contents|;
      hide ProtoData.Valid, PacketQueue.Valid;
      if result != True && result != False {
        return OutResult(false, [], false);
      }
      ghost var before := Abs();
      var data := proto.PopOut(cfg.block);
      assert Abs() == before.(output := before.output[Min(cfg.block, |before.output|)..]);
      var raised := hasEvents && (proto.output.dataSize > 0 || outQueue.itemCount > 0 || raise);
      r := OutResult(true, data, raised);
    }
  }
}
