/** The builds without packet queues (devices): calls are written at once, registration may
    be sent in chunks, and the receive loop hands packets on as it finds them. */
module Device {
  import opened Bytes
  import opened Wire
  import opened Receiver
  import opened ByteBuffers
  import opened Proto
  import opened SrpcSpec
  import opened SrpcRuns
  import opened SrpcInput
  import opened SrpcEnds

  /** The arguments of one `data_write` after another. */
  type Writes = seq<seq<byte>>

  lemma ConcatTwo(a: seq<byte>, b: seq<byte>)
    ensures Concat([a, b]) == a + b && Concat([a]) == a
  {
    assert [a, b][1..] == [b];
    assert Concat([b]) == b + [] == b;
  }

  /** Channels the registration callback supplies, in order; the others are skipped. */
  ghost function Supplied(channels: seq<Option<seq<byte>>>): seq<seq<byte>> {
    if channels == [] then []
    else (if channels[0].Some? then [channels[0].value] else []) + Supplied(channels[1..])
  }

  lemma {:induction false} SuppliedSnoc(channels: seq<Option<seq<byte>>>, k: nat)
    requires k < |channels|
    ensures Supplied(channels[..k + 1]) == Supplied(channels[..k]) + (if channels[k].Some? then [channels[k].value] else [])
  {
    if k > 0 {
      SuppliedSnoc(channels[1..], k - 1);
      assert channels[..k + 1][1..] == channels[1..][..k] && channels[..k][1..] == channels[1..][..k - 1];
    } else {
      assert channels[..1][1..] == [];
    }
  }

  /** Channels are supplied in order, each that is not skipped once. */
  lemma {:induction false} SuppliedInOrder(channels: seq<Option<seq<byte>>>, k: nat)
    requires k < |channels|
    ensures Supplied(channels) ==
            Supplied(channels[..k]) + (if channels[k].Some? then [channels[k].value] else []) + Supplied(channels[k + 1..])
    ensures Supplied([]) == []
  {
    if k > 0 {
      SuppliedInOrder(channels[1..], k - 1);
      assert channels[..k][1..] == channels[1..][..k - 1] && channels[1..][k..] == channels[k + 1..];
    }
  }

  ghost predicate AllSupplied(channels: seq<Option<seq<byte>>>) { forall c <- channels :: c.Some? }

  ghost predicate ChannelsOf(size: nat, channels: seq<Option<seq<byte>>>) {
    forall c <- channels :: c.Some? ==> |c.value| == size
  }

  /** The supplied channels fill the announced space exactly when none is skipped. */
  lemma {:induction false} SuppliedSize(size: nat, channels: seq<Option<seq<byte>>>)
    requires size > 0 && ChannelsOf(size, channels)
    ensures |Concat(Supplied(channels))| <= size * |channels|
    ensures |Concat(Supplied(channels))| == size * |channels| <==> AllSupplied(channels)
  {
    if channels != [] {
      var tail := channels[1..];
      SuppliedSize(size, tail);
      SuppliedCons(size, channels);
      Times(size, |tail|);
      assert channels == [channels[0]] + tail;
      assert AllSupplied(channels) <==> channels[0].Some? && AllSupplied(tail);
      hide Supplied, Concat, AllSupplied;
    }
  }

  lemma SuppliedCons(size: nat, channels: seq<Option<seq<byte>>>)
    requires channels != [] && ChannelsOf(size, channels)
    ensures |Concat(Supplied(channels))| == (if channels[0].Some? then size else 0) + |Concat(Supplied(channels[1..]))|
  {
    var c, rest := channels[0], Supplied(channels[1..]);
    if c.Some? {
      assert ([c.value] + rest)[1..] == rest;
    } else {
      assert [] + rest == rest;
    }
  }

  lemma Times(size: nat, n: nat)
    ensures size * (n + 1) == size * n + size
  {
  }

  /** The packet a registration in chunks means to send. */
  ghost function Registration(version: byte, id: u32, callId: u32, head: seq<byte>, channels: seq<Option<seq<byte>>>): Msg {
    Msg(version, id, callId, head + Concat(Supplied(channels)))
  }

  /** The bytes a registration in chunks puts on the wire. */
  ghost function ChunkedBytes(version: byte, id: u32, callId: u32, head: seq<byte>, size: nat, channels: seq<Option<seq<byte>>>): seq<byte> {
    Header(version, id, callId, |head| + size * |channels|) + head + Concat(Supplied(channels)) + TAG
  }

  /** A call made on a device. */
  datatype DeviceCall =
    | Async(callId: u32, data: seq<byte>, version: Option<byte>)
    | Register(callId: u32, head: seq<byte>, size: nat, channels: seq<Option<seq<byte>>>)

  /** The bytes a call puts on the wire under the given id. */
  ghost function Emitted(max: nat, version: byte, id: u32, call: DeviceCall): seq<byte> {
    match call
    case Async(callId, data, v) =>
      if |data| <= max then Frame(Msg(if v.Some? then v.value else version, id, callId, data)) else []
    case Register(callId, head, size, channels) =>
      if |head| <= max then ChunkedBytes(version, id, callId, head, size, channels) else []
  }

  /** The packet it means to send, if it is accepted. */
  ghost function Meant(max: nat, version: byte, id: u32, call: DeviceCall): seq<Msg> {
    match call
    case Async(callId, data, v) =>
      if |data| <= max then [Msg(if v.Some? then v.value else version, id, callId, data)] else []
    case Register(callId, head, size, channels) =>
      if |head| <= max then [Registration(version, id, callId, head, channels)] else []
  }

  /** What a series of calls puts on the wire; the id counter stands at `id`. */
  ghost function EmittedAll(max: nat, version: byte, id: u32, calls: seq<DeviceCall>): seq<byte>
    decreases |calls|
  {
    if calls == [] then []
    else Emitted(max, version, NextId(id), calls[0]) + EmittedAll(max, version, NextId(id), calls[1..])
  }

  ghost function MeantAll(max: nat, version: byte, id: u32, calls: seq<DeviceCall>): seq<Msg>
    decreases |calls|
  {
    if calls == [] then []
    else Meant(max, version, NextId(id), calls[0]) + MeantAll(max, version, NextId(id), calls[1..])
  }

  /** Channel structures have the size announced, and the whole fits what a receiver takes. */
  ghost predicate SensibleCall(max: nat, call: DeviceCall) {
    call.Register? ==>
      && call.size > 0 && ChannelsOf(call.size, call.channels)
      && |call.head| + call.size * |call.channels| <= max < TWO_32
  }

  /** A registration that is sent has all its channels. */
  ghost predicate CompleteCall(max: nat, call: DeviceCall) {
    call.Register? && |call.head| <= max ==> AllSupplied(call.channels)
  }

  ghost predicate Sensible(max: nat, calls: seq<DeviceCall>) { forall c <- calls :: SensibleCall(max, c) }

  ghost predicate Complete(max: nat, calls: seq<DeviceCall>) { forall c <- calls :: CompleteCall(max, c) }

  lemma EmittedIff(max: nat, rmax: nat, version: byte, id: u32, call: DeviceCall)
    requires SensibleCall(rmax, call)
    ensures var e, f := Emitted(max, version, id, call), Frames(Meant(max, version, id, call));
      |e| == |f| && (e == f <==> CompleteCall(max, call))
  {
    assert forall m: Msg :: Frames([m]) == Frame(m) + Frames([]) == Frame(m);
    if call.Register? {
      ChunkedIsFrameIff(version, id, call.callId, call.head, call.size, call.channels);
    }
  }

  lemma SameParts(x: seq<byte>, y: seq<byte>, a: seq<byte>, b: seq<byte>)
    requires |x| == |y|
    ensures x + a == y + b <==> x == y && a == b
  {
    assert (x + a)[..|x|] == x && (y + b)[..|y|] == y;
    assert (x + a)[|x|..] == a && (y + b)[|y|..] == b;
  }

  lemma OneByOne(rmax: nat, max: nat, calls: seq<DeviceCall>)
    requires calls != []
    ensures Sensible(rmax, calls) <==> SensibleCall(rmax, calls[0]) && Sensible(rmax, calls[1..])
    ensures Complete(max, calls) <==> CompleteCall(max, calls[0]) && Complete(max, calls[1..])
  {
    assert calls == [calls[0]] + calls[1..];
    hide SensibleCall, CompleteCall;
  }

  /** What a device puts on the wire are the frames of the packets it means to send exactly
      if every registration it sends is complete. */
  lemma {:induction false} EmittedAllIff(max: nat, rmax: nat, version: byte, id: u32, calls: seq<DeviceCall>)
    requires Sensible(rmax, calls)
    ensures EmittedAll(max, version, id, calls) == Frames(MeantAll(max, version, id, calls)) <==> Complete(max, calls)
    ensures |EmittedAll(max, version, id, calls)| == |Frames(MeantAll(max, version, id, calls))|
    decreases |calls|
  {
    if calls != [] {
      var next := NextId(id);
      OneByOne(rmax, max, calls);
      EmittedIff(max, rmax, version, next, calls[0]);
      EmittedAllIff(max, rmax, version, next, calls[1..]);
      var e, f := Emitted(max, version, next, calls[0]), Meant(max, version, next, calls[0]);
      var more, rest := EmittedAll(max, version, next, calls[1..]), MeantAll(max, version, next, calls[1..]);
      FramesAppend(f, rest);
      SameParts(e, Frames(f), more, Frames(rest));
      hide Emitted, Meant, Sensible, Complete, CompleteCall, Frames;
    }
  }

  lemma {:induction false} MeantFit(max: nat, rmax: nat, version: byte, id: u32, calls: seq<DeviceCall>)
    requires Sensible(rmax, calls) && max <= rmax < TWO_32
    ensures AllFit(rmax, MeantAll(max, version, id, calls))
    decreases |calls|
  {
    if calls != [] {
      var call := calls[0];
      OneByOne(rmax, max, calls);
      MeantFit(max, rmax, version, NextId(id), calls[1..]);
      assert call in calls;
      if call.Register? {
        SuppliedSize(call.size, call.channels);
      }
    }
  }

  /** From a device to a party with queues: in any run of the receiver, whatever it has read
      of what any series of calls put on the wire, it has taken the first of the packets
      meant, in order and unaltered, and all of them in the end. */
  lemma DeviceToQueue(max: nat, version: byte, id: u32, calls: seq<DeviceCall>,
                      cr: Config, er: Hooks, vr: byte, sr: seq<Step>) returns (missing: seq<byte>)
    requires Sensible(cr.maxData, calls) && Complete(max, calls) && max <= cr.maxData
    requires cr.Sane() && VersionOk(vr) && Schedule(cr, sr)
    requires Reached(cr, er, vr, sr).received <= EmittedAll(max, version, id, calls)
    ensures var r := Reached(cr, er, vr, sr);
      && ReceiverOk(cr, er, MeantAll(max, version, id, calls), missing, r)
      && (missing == [] <==> r.received == EmittedAll(max, version, id, calls))
  {
    var r, all := Reached(cr, er, vr, sr), EmittedAll(max, version, id, calls);
    EmittedAllIff(max, cr.maxData, version, id, calls);
    MeantFit(max, cr.maxData, version, id, calls);
    missing := StillToCome(r.received, all, []);
    assert all + [] == all;
    ReceiverSide(cr, er, vr, sr, MeantAll(max, version, id, calls), missing);
  }

  /** The chunked form is the frame of the whole structure exactly if no channel is skipped. */
  lemma ChunkedIsFrameIff(version: byte, id: u32, callId: u32, head: seq<byte>, size: nat, channels: seq<Option<seq<byte>>>)
    requires size > 0 && ChannelsOf(size, channels) && |head| + size * |channels| < TWO_32
    ensures var bytes, f := ChunkedBytes(version, id, callId, head, size, channels),
                            Frame(Registration(version, id, callId, head, channels));
      |bytes| == |f| && (bytes == f <==> AllSupplied(channels))
  {
    SuppliedSize(size, channels);
    var full, body := |head| + size * |channels|, head + Concat(Supplied(channels));
    HeaderFields(version, id, callId, full, body + TAG);
    HeaderFields(version, id, callId, |body|, body + TAG);
    assert ChunkedBytes(version, id, callId, head, size, channels) == Header(version, id, callId, full) + (body + TAG);
    assert Frame(Registration(version, id, callId, head, channels)) == Header(version, id, callId, |body|) + (body + TAG);
    hide Header, AllSupplied, Supplied, LE32;
  }

  /** The chunked form equals the frame of the whole structure, and a receiver takes exactly
      that packet from it, if and only if the callback supplies every channel. */
  lemma ChunkedIffMonolithic(max: nat, version: byte, id: u32, callId: u32, head: seq<byte>, size: nat,
                             channels: seq<Option<seq<byte>>>)
    requires size > 0 && ChannelsOf(size, channels) && VersionOk(version)
    requires |head| + size * |channels| <= max < TWO_32
    ensures var bytes := ChunkedBytes(version, id, callId, head, size, channels);
      var m := Registration(version, id, callId, head, channels);
      && (bytes == Frame(m) <==> AllSupplied(channels))
      && (Drain(max, bytes) == Drained([m], Waiting([])) <==> AllSupplied(channels))
  {
    SuppliedSize(size, channels);
    var bytes := ChunkedBytes(version, id, callId, head, size, channels);
    var m := Registration(version, id, callId, head, channels);
    var full, body := |head| + size * |channels|, Concat(Supplied(channels));
    if AllSupplied(channels) {
      assert bytes == Frame(m);
      assert Frame(m) + [] == Frame(m);
      DrainFrame(max, m, []);
    } else {
      HeaderFields(version, id, callId, full, head + body + TAG);
      assert bytes == Header(version, id, callId, full) + (head + body + TAG);
      DrainFrame(max, m, []);
      assert Frame(m) + [] == Frame(m);
      assert Pop(max, bytes).NeedMore?;
    }
  }

  /** The loop that asks the callback for one channel after another. */
  method ChannelWrites(channels: seq<Option<seq<byte>>>) returns (writes: Writes)
    ensures writes == Supplied(channels)
  {
    writes := [];
    for i := 0 to |channels|
      invariant writes == Supplied(channels[..i])
    {
      SuppliedSnoc(channels, i);
      if channels[i].Some? {
        writes := writes + [channels[i].value];
      }
    }
    assert channels[..|channels|] == channels;
  }

  lemma JoinWrites(first: seq<byte>, middle: Writes)
    ensures Concat([first] + middle + [TAG]) == first + Concat(middle) + TAG
  {
    ConcatAppend([first] + middle, [TAG]);
    ConcatAppend([first], middle);
    ConcatTwo(TAG, []);
    ConcatTwo(first, []);
  }

  /** The queued path emits for a packet what the direct path writes: its frame, at once, in
      the builds with room for a frame. */
  lemma QueuedPathWritesFrame(cfg: Config, c: Core, raise: bool, hasEvents: bool)
    requires cfg.Sane() && RoomForFrame(cfg) && c.Ok(cfg) && c.outQueue != [] && c.output == []
    ensures var (c', r) := OutHalf(cfg, c, raise, hasEvents);
      r.ok && r.written == Frame(c.outQueue[0].Message()) && c'.output == [] && c'.outQueue == c.outQueue[1..]
  {
    assert c.outQueue[0] in c.outQueue;
    hide OutHalf, Frame, Owed;
    OutHalfConservesIff(cfg, c, raise, hasEvents);
    var (c', r) := OutHalf(cfg, c, raise, hasEvents);
    OwedCons(c.outQueue);
    assert c'.output == [];
    SameTail(r.written, Frame(c.outQueue[0].Message()), Owed(c.outQueue[1..]));
    assert r.written + [] == r.written && [] + Owed(c.outQueue) == Owed(c.outQueue);
  }

  lemma SameTail(x: seq<byte>, y: seq<byte>, tail: seq<byte>)
    ensures x + tail == y + tail ==> x == y
  {
    if x + tail == y + tail {
      assert |x| == |y|;
      assert x == (x + tail)[..|x|] && y == (y + tail)[..|y|];
    }
  }

  /** How the device loop answers one read: what it hands on, how it returns, and the version
      it hands to the handler for version errors. */
  datatype LoopResult = LoopResult(ok: bool, msgs: seq<Msg>, refused: Option<byte>)

  /** The version that made the parser fail, if one did. */
  ghost function RefusedVersion(end: ReceiveEnd): Option<byte> {
    if end.Broken? && end.error.VersionError? then Some(end.error.version) else None
  }

  class DeviceSrpc {
    const cfg: Config
    /** `PACKET_INTEGRITY_BUFFER_DISABLED`: packet and trailing tag are written separately. */
    const split: bool
    const proto: ProtoData
    var sdp: Sdp

    ghost predicate Valid()
      reads this, proto, proto.input, proto.output, proto.input.buffer, proto.output.buffer
    {
      proto.cfg == cfg && proto.Valid() && sdp.Fits(cfg.maxData)
    }

    constructor (cfg: Config, split: bool)
      requires cfg.Sane()
      ensures Valid() && this.cfg == cfg && this.split == split
      ensures proto.input.Contents() == [] && proto.nextRrId == 0
    {
      this.cfg, this.split := cfg, split;
      proto := new ProtoData(cfg);
      sdp := Sdp(TAG, 0, 0, 0, 0, Zeros(cfg.maxData));
    }

    /** `srpc_out_queue_push` without a queue. */
    method WriteNow() returns (writes: Writes)
      requires Valid() && sdp.Ready(cfg.maxData)
      ensures Concat(writes) == Frame(sdp.Message())
    {
      var size := cfg.sdpSize;
      if sdp.dataSize < cfg.maxData {
        size := size - (cfg.maxData - sdp.dataSize);
      }
      ImageIsFrame(cfg.maxData, sdp);
      ConcatTwo(sdp.Image()[..size], TAG);
      ConcatTwo(sdp.Image()[..size] + TAG, []);
      writes := if split then [sdp.Image()[..size], TAG] else [sdp.Image()[..size] + TAG];
    }

    /** `srpc_async__call` from the lock on: the frame of the call is on the wire when it
        returns an id, and nothing when it returns 0. */
    method AsyncCall(callId: u32, data: seq<byte>, version: Option<byte>) returns (id: u32, writes: Writes)
      requires Valid() && |data| < TWO_32
      modifies `sdp, proto`nextRrId
      ensures Valid() && proto.nextRrId == NextId(old(proto.nextRrId))
      ensures id == if |data| <= cfg.maxData then proto.nextRrId else 0
      ensures var v := if version.Some? then version.value else proto.version;
        Concat(writes) == if |data| <= cfg.maxData then Frame(Msg(v, proto.nextRrId, callId, data)) else []
      ensures Concat(writes) == Emitted(cfg.maxData, proto.version, proto.nextRrId, Async(callId, data, version))
    {
      sdp := proto.SdpInit();
      if version.Some? {
        sdp := sdp.(version := version.value);
      }
      if |data| > cfg.maxData {
        return 0, [];
      }
      sdp := sdp.(data := data + sdp.data[|data|..], dataSize := |data|, callId := callId);
      assert sdp.data[..sdp.dataSize] == data;
      writes := WriteNow();
      id := sdp.rrId;
    }

    /** `srpc_ds_async_registerdevice_in_chunks` and its `_g` twin, which differ in the call id
        and the size of a channel. `channels` is what the callback returns, `None` for NULL. */
    method RegisterInChunks(callId: u32, head: seq<byte>, size: nat, channels: seq<Option<seq<byte>>>)
      returns (id: u32, writes: Writes)
      requires Valid() && |head| + size * |channels| < TWO_32
      modifies `sdp, proto`nextRrId
      ensures Valid() && proto.nextRrId == NextId(old(proto.nextRrId))
      ensures id == if |head| <= cfg.maxData then proto.nextRrId else 0
      ensures Concat(writes) == if |head| <= cfg.maxData
                                then ChunkedBytes(proto.version, proto.nextRrId, callId, head, size, channels) else []
      ensures Concat(writes) == Emitted(cfg.maxData, proto.version, proto.nextRrId, Register(callId, head, size, channels))
    {
      sdp := proto.SdpInit();
      if |head| > cfg.maxData {
        return 0, [];
      }
      sdp := sdp.(data := head + sdp.data[|head|..], dataSize := |head|, callId := callId);
      sdp := sdp.(dataSize := |head| + size * |channels|);
      var headerSize := cfg.sdpSize - cfg.maxData + |head|;
      var first := sdp.Image()[..headerSize];
      assert first == Header(sdp.version, sdp.rrId, callId, sdp.dataSize) + head;
      writes := ChannelWrites(channels);
      JoinWrites(first, writes);
      writes := [first] + writes + [TAG];
      id := sdp.rrId;
    }

    /** `srpc_iterate_device`. The loop reads once and takes every complete packet; while a
        packet's callback runs without the lock the shared packet may be overwritten. */
    method IterateDevice(read: Read) returns (r: LoopResult)
      requires Valid() && StepOk(cfg, DoIn(read))
      modifies `sdp, proto`beginTag, proto.input, proto.input.buffer
      ensures Valid() && (proto.input.buffer == old(proto.input.buffer) || fresh(proto.input.buffer))
      ensures !read.Chunk? ==> r == LoopResult(read.NothingYet?, [], None) && proto.input.Contents() == old(proto.input.Contents())
      ensures read.Chunk? ==>
                var spec := Receive(cfg, old(proto.input.Contents()), [read.bytes]);
                && r.msgs == spec.msgs && r.ok == spec.end.Open? && r.refused == RefusedVersion(spec.end)
                && (r.ok ==> proto.input.Contents() == spec.end.residue)
    {
      if !read.Chunk? {
        return LoopResult(read.NothingYet?, [], None);
      }
      ReceiveOne(cfg, proto.input.Contents(), read.bytes);
      var appended := proto.InAppend(read.bytes);
      if appended != Appended {
        return LoopResult(false, [], None);
      }
      hide Receive, Drain;
      var ok, msgs, refused := TakeAll();
      r := LoopResult(ok, msgs, refused);
    }

    /** The inner loop: take packets until the parser asks for more or fails. */
    method TakeAll() returns (ok: bool, msgs: seq<Msg>, refused: Option<byte>)
      requires Valid()
      modifies `sdp, proto`beginTag, proto.input, proto.input.buffer
      ensures Valid() && (proto.input.buffer == old(proto.input.buffer) || fresh(proto.input.buffer))
      ensures var d := Drain(cfg.maxData, old(proto.input.Contents()));
        && msgs == d.msgs && ok == d.end.Waiting? && refused == RefusedVersion(Outcome(d).end)
        && (ok ==> proto.input.Contents() == d.end.residue)
    {
      ghost var d := Drain(cfg.maxData, proto.input.Contents());
      assert [] + d.msgs == d.msgs;
      hide ProtoData.Valid, Drain, SoFar, InPopped, RefusedVersion, Outcome, Pop;
      msgs := [];
      var result := PopNext(d, msgs);
      while result == True
        invariant Valid() && (proto.input.buffer == old(proto.input.buffer) || fresh(proto.input.buffer))
        invariant SoFar(cfg.maxData, d, result, proto.input.Contents(), msgs, sdp)
        decreases proto.input.dataSize, if result == True then 1 else 0
      {
        var m := sdp.Message();
        result := HandOn(d, msgs);
        msgs := msgs + [m];
      }
      ok := result == False;
      refused := if result == VersionErr then Some(sdp.version) else None;
      SoFarEnd(cfg.maxData, d, result, proto.input.Contents(), msgs, sdp);
    }

    /** The callback for the packet just taken, which may overwrite it, and the next pop. */
    method HandOn(ghost d: Drained, ghost msgs: seq<Msg>) returns (result: Result)
      requires Valid() && SoFar(cfg.maxData, d, True, proto.input.Contents(), msgs, sdp)
      modifies `sdp, proto`beginTag, proto.input, proto.input.buffer
      ensures Valid() && (proto.input.buffer == old(proto.input.buffer) || fresh(proto.input.buffer))
      ensures SoFar(cfg.maxData, d, result, proto.input.Contents(), msgs + [old(sdp.Message())], sdp)
      ensures proto.input.dataSize <= old(proto.input.dataSize)
      ensures result == True ==> proto.input.dataSize < old(proto.input.dataSize)
    {
      hide Drain, SoFar, InPopped, Pop;
      SoFarNext(cfg, d, proto.input.Contents(), msgs, sdp);
      hide ProtoData.Valid;
      ghost var taken := msgs + [sdp.Message()];
      sdp := Overwritten();
      result := PopNext(d, taken);
    }

    /** One call of the parser; `msgs` have been handed on and the rest of the drain `d` is
        that of the bytes still in the buffer. */
    method PopNext(ghost d: Drained, ghost msgs: seq<Msg>) returns (result: Result)
      requires Valid() && d == Drain(cfg.maxData, proto.input.Contents()).After(msgs)
      modifies `sdp, proto`beginTag, proto.input, proto.input.buffer
      ensures Valid() && (proto.input.buffer == old(proto.input.buffer) || fresh(proto.input.buffer))
      ensures SoFar(cfg.maxData, d, result, proto.input.Contents(), msgs, sdp)
      ensures proto.input.dataSize <= old(proto.input.dataSize)
      ensures result == True ==> proto.input.dataSize < old(proto.input.dataSize)
    {
      SoFarStep(cfg, d, proto.input.Contents(), msgs, sdp);
      PopShrinks(cfg, proto.input.Contents(), sdp);
      hide ProtoData.Valid, Drain, SoFar, InPopped;
      result, sdp := proto.PopIn(sdp);
    }

    /** Some packet left in the shared scratch space by other calls. */
    method Overwritten() returns (other: Sdp)
      ensures other.Fits(cfg.maxData)
    {
      assert Fresh(cfg.maxData, 0, 0).Fits(cfg.maxData);
      other :| other.Fits(cfg.maxData);
    }
  }

  /** The packets taken so far, the outcome of the last pop and the bytes left are the drain
      `d` of the whole buffer. */
  ghost predicate SoFar(max: nat, d: Drained, result: Result, left: seq<byte>, msgs: seq<Msg>, sdp: Sdp) {
    match result
    case True => d == Drain(max, left).After(msgs + [sdp.Message()])
    case False => d == Drain(max, left).After(msgs) && Pop(max, left).NeedMore?
    case VersionErr => d == Drained(msgs, Failed(VersionError(sdp.version)))
    case _ => d == Drained(msgs, Failed(DataError)) && result == DataErr
  }

  /** Handing a packet on leaves the drain of the bytes behind it to do. */
  lemma SoFarNext(cfg: Config, d: Drained, left: seq<byte>, msgs: seq<Msg>, sdp: Sdp)
    requires SoFar(cfg.maxData, d, True, left, msgs, sdp)
    ensures d == Drain(cfg.maxData, left).After(msgs + [sdp.Message()])
  {
  }

  lemma SoFarStep(cfg: Config, d: Drained, left: seq<byte>, msgs: seq<Msg>, sdp: Sdp)
    requires d == Drain(cfg.maxData, left).After(msgs) && sdp.Fits(cfg.maxData) && cfg.Sane()
    ensures var (result, rest, next) := InPopped(cfg, left, sdp); SoFar(cfg.maxData, d, result, rest, msgs, next)
  {
    hide InPopped, Drain, Pop;
    PopAfter(cfg, left, sdp, msgs);
  }

  lemma SoFarEnd(max: nat, d: Drained, result: Result, left: seq<byte>, msgs: seq<Msg>, sdp: Sdp)
    requires SoFar(max, d, result, left, msgs, sdp) && result != True
    ensures msgs == d.msgs && (result == False <==> d.end.Waiting?)
    ensures result == False ==> d.end == Waiting(left)
    ensures RefusedVersion(Outcome(d).end) == if result == VersionErr then Some(sdp.version) else None
  {
    if result == False {
      DrainWaits(max, left);
      assert msgs + [] == msgs;
    }
  }

  lemma ReceiveOne(cfg: Config, residue: seq<byte>, chunk: seq<byte>)
    ensures Receive(cfg, residue, [chunk]) ==
            if Allocated(cfg.bufMin, |residue + chunk|) >= cfg.bufMax then Received([], Overflow)
            else Outcome(Drain(cfg.maxData, residue + chunk))
  {
    hide Drain;
    var d := Drain(cfg.maxData, residue + chunk);
    assert [chunk][1..] == [] && d.msgs + [] == d.msgs;
  }

  lemma PopShrinks(cfg: Config, b: seq<byte>, sdp: Sdp)
    requires sdp.Fits(cfg.maxData)
    ensures var (result, rest, _) := InPopped(cfg, b, sdp); |rest| <= |b| && (result == True ==> |rest| < |b|)
  {
  }
}
