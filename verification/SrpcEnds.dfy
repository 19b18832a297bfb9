/** The two ends of a connection put together: a sender and a receiver, each in any run of
    its own, joined by a byte stream. */
module SrpcEnds {
  import opened Bytes
  import opened Wire
  import opened Receiver
  import opened Proto
  import opened SrpcSpec
  import opened SrpcRuns
  import opened SrpcInput
  import opened SrpcOverflow
  import opened SrpcHandler

  // ---- what is accepted --------------------------------------------------------------

  /** A call is accepted exactly when its payload fits and the queue has room; what is queued
      then is the message that was asked for, under the id that is returned. */
  lemma CallAccepts(cfg: Config, c: Core, callId: u32, data: seq<byte>, version: Option<byte>)
    requires c.Ok(cfg) && |data| < TWO_32
    ensures var (c', id) := Call(cfg, c, callId, data, version);
      && (id != 0 <==> |data| <= cfg.maxData && |c.outQueue| < cfg.queueSize)
      && (id == 0 ==> c'.outQueue == c.outQueue)
      && (id != 0 ==>
            && id == c'.nextId && |c'.outQueue| == |c.outQueue| + 1 && c.outQueue <= c'.outQueue
            && c'.outQueue[|c.outQueue|] == c'.sdp && c'.sdp.data == data + Zeros(cfg.maxData - |data|)
            && c'.sdp.Message() == Msg(if version.Some? then version.value else c.version, id, callId, data))
  {
    var s := Fresh(cfg.maxData, if version.Some? then version.value else c.version, NextId(c.nextId));
    var sdp := WithData(cfg.maxData, s, data, callId);
    if |data| <= cfg.maxData {
      assert sdp.data[..sdp.dataSize] == data;
    }
  }

  ghost predicate AllFit(max: nat, ms: seq<Msg>) { max < TWO_32 && forall m <- ms :: |m.payload| <= max }

  /** The packets before the first whose version no receiver accepts. */
  ghost function Supported(ms: seq<Msg>): (r: seq<Msg>)
    ensures r <= ms
  {
    if ms == [] || !VersionOk(ms[0].version) then [] else [ms[0]] + Supported(ms[1..])
  }

  lemma {:induction false} SupportedIsLongest(max: nat, ms: seq<Msg>)
    requires AllFit(max, ms)
    ensures AllSendable(max, Supported(ms))
    ensures Supported(ms) == ms || Unsupported(max, ms[|Supported(ms)|])
    decreases |ms|
  {
    if ms != [] && VersionOk(ms[0].version) {
      SupportedIsLongest(max, ms[1..]);
      assert ms == [ms[0]] + ms[1..];
    }
  }

  lemma NextKeepsFit(cfg: Config, hooks: Hooks, w: World, s: Step)
    requires cfg.Sane() && w.core.Ok(cfg) && StepOk(cfg, s) && AllFit(cfg.maxData, Msgs(w.accepted))
    ensures AllFit(cfg.maxData, Msgs(Next(cfg, hooks, w, s).accepted))
  {
    hide InPopped, OutAppended;
    if s.DoCall? {
      CallAccepts(cfg, w.core, s.callId, s.data, s.version);
      var w' := Next(cfg, hooks, w, s);
      assert Msgs(w.accepted + [w'.core.sdp]) == Msgs(w.accepted) + [w'.core.sdp.Message()];
    }
  }

  /** In every run the payload of every accepted packet is within the limit. */
  lemma {:induction false} AcceptedFit(cfg: Config, hooks: Hooks, w: World, steps: seq<Step>)
    requires cfg.Sane() && w.core.Ok(cfg) && Schedule(cfg, steps) && AllFit(cfg.maxData, Msgs(w.accepted))
    ensures AllFit(cfg.maxData, Msgs(Run(cfg, hooks, w, steps).accepted))
    decreases |steps|
  {
    if steps != [] {
      NextKeepsOk(cfg, hooks, w, steps[0]);
      NextKeepsFit(cfg, hooks, w, steps[0]);
      hide Next;
      AcceptedFit(cfg, hooks, Next(cfg, hooks, w, steps[0]), steps[1..]);
    }
  }

  // ---- what is received --------------------------------------------------------------

  /** How a prefix of any accepted stream parses. Only an unsupported version stops the
      parser, and it does so once the header of that packet and five more bytes are there. */
  lemma StreamParses(max: nat, ms: seq<Msg>, received: seq<byte>, missing: seq<byte>)
    requires AllFit(max, ms) && received + missing == Frames(ms)
    ensures var d, good := Drain(max, received), Supported(ms);
      && d.msgs <= good
      && (if good == ms || |received| < |Frames(good)| + SMALLEST_FRAME then d.end.Waiting?
          else d == Drained(good, Failed(VersionError(ms[|good|].version))))
      && (missing == [] && good == ms ==> d == Drained(ms, Waiting([])))
      && (missing == [] && good != ms ==> d.end.Failed?)
  {
    var good := Supported(ms);
    SupportedIsLongest(max, ms);
    if good == ms {
      DrainOfPrefix(max, ms, received, missing);
      if missing == [] {
        DrainFrames(max, ms, []);
        assert received == received + missing == Frames(ms) + [];
        assert ms + [] == ms;
      }
    } else {
      var bad, rest := ms[|good|], ms[|good| + 1..];
      assert ms == good + ([bad] + rest);
      FramesAppend(good, [bad] + rest);
      assert ([bad] + rest)[1..] == rest;
      DrainUnsupported(max, good, bad, Frames(rest), received, missing);
      assert missing == [] ==> received + missing == received;
    }
  }

  /** A receiver that has read a prefix of the frames of `ms`, of which `missing` is still
      to come. Up to the first unsupported version it has taken the first packets and nothing
      else, and only there does its parser fail. Once nothing is missing and the parser has
      nothing complete left, it has taken every packet up to there. What it takes behind is
      the doing of a handler that goes on reading. */
  ghost predicate ReceiverOk(cfg: Config, hooks: Hooks, ms: seq<Msg>, missing: seq<byte>, w: World) {
    var good := Supported(ms);
    && (if Refused(w) then good < ms && good <= w.popped && w.failures[0] == ParseError(VersionErr) else w.popped <= good)
    && (TooFewIterations(cfg, hooks) ==> w.popped <= good)
    && (missing == [] && Pop(cfg.maxData, w.core.input).NeedMore? ==>
          if good == ms then !Refused(w) && w.popped == ms && w.core.input == [] else Refused(w))
  }

  lemma ReceiverSide(cfg: Config, hooks: Hooks, version: byte, steps: seq<Step>, ms: seq<Msg>, missing: seq<byte>)
    requires cfg.Sane() && VersionOk(version) && Schedule(cfg, steps) && AllFit(cfg.maxData, ms)
    requires Reached(cfg, hooks, version, steps).received + missing == Frames(ms)
    ensures ReceiverOk(cfg, hooks, ms, missing, Reached(cfg, hooks, version, steps))
  {
    var w := Reached(cfg, hooks, version, steps);
    InputConserved(cfg, hooks, version, steps);
    if TooFewIterations(cfg, hooks) {
      PrefixKept(cfg, hooks, version, steps);
    }
    ReceiverParses(cfg, hooks, ms, missing, w);
    hide ReceiverOk;
  }

  lemma ReceiverParses(cfg: Config, hooks: Hooks, ms: seq<Msg>, missing: seq<byte>, w: World)
    requires AllFit(cfg.maxData, ms) && w.received + missing == Frames(ms)
    requires InputOk(cfg, w) && (TooFewIterations(cfg, hooks) ==> Prefix(cfg, w))
    ensures ReceiverOk(cfg, hooks, ms, missing, w)
  {
    StreamParses(cfg.maxData, ms, w.received, missing);
    hide Supported, Frames;
    if Pop(cfg.maxData, w.core.input).NeedMore? {
      DrainWaits(cfg.maxData, w.core.input);
      assert w.popped + [] == w.popped;
    }
    hide Pop, Drain, TooFewIterations;
  }

  lemma SenderOk(cs: Config, es: Hooks, vs: byte, ss: seq<Step>)
    requires cs.Sane() && RoomForFrame(cs) && VersionOk(vs) && Schedule(cs, ss)
    ensures OutputOk(Reached(cs, es, vs, ss))
  {
    assert Owed([]) == [];
    RunKeepsOutputOk(cs, es, Start(cs, vs), ss);
  }

  lemma SenderSide(cs: Config, es: Hooks, vs: byte, ss: seq<Step>)
    requires cs.Sane() && RoomForFrame(cs) && VersionOk(vs) && Schedule(cs, ss)
    ensures var s := Reached(cs, es, vs, ss);
      AllFit(cs.maxData, Msgs(s.accepted)) && s.written + Owed(s.core.outQueue) == Frames(Msgs(s.accepted))
  {
    AcceptedFit(cs, es, Start(cs, vs), ss);
    SenderOk(cs, es, vs, ss);
    var s := Reached(cs, es, vs, ss);
    assert s.written + [] == s.written;
  }

  /** What a receiver has not read yet of what a sender owes. */
  lemma StillToCome(received: seq<byte>, written: seq<byte>, owed: seq<byte>) returns (missing: seq<byte>)
    requires received <= written
    ensures received + missing == written + owed
    ensures missing == [] <==> received == written && owed == []
  {
    missing := written[|received|..] + owed;
  }

  /** A sender and a receiver, each running any interleaving of its own; some prefix of what
      the sender wrote has arrived. The packets the receiver has taken are the first of
      those the sender accepted, in order. When all bytes have arrived, the sender's queue
      is empty and the receiver's parser has nothing complete left, they are all of them and
      no byte remains. The exception is a packet sent with a version out of range: the
      packets before it arrive, and on it the receiver fails. */
  lemma EndToEnd(cs: Config, es: Hooks, vs: byte, ss: seq<Step>, cr: Config, er: Hooks, vr: byte, sr: seq<Step>)
    returns (missing: seq<byte>)
    requires cs.Sane() && RoomForFrame(cs) && VersionOk(vs) && Schedule(cs, ss)
    requires cr.Sane() && VersionOk(vr) && Schedule(cr, sr)
    requires Reached(cr, er, vr, sr).received <= Reached(cs, es, vs, ss).written
    requires cs.maxData <= cr.maxData
    ensures var s, r := Reached(cs, es, vs, ss), Reached(cr, er, vr, sr);
      && ReceiverOk(cr, er, Msgs(s.accepted), missing, r)
      && (missing == [] <==> r.received == s.written && s.core.outQueue == [])
  {
    SenderSide(cs, es, vs, ss);
    var s, r := Reached(cs, es, vs, ss), Reached(cr, er, vr, sr);
    missing := StillToCome(r.received, s.written, Owed(s.core.outQueue));
    assert Owed([]) == [];
    if s.core.outQueue != [] {
      OwedCons(s.core.outQueue);
    }
    ReceiverSide(cr, er, vr, sr, Msgs(s.accepted), missing);
  }

  /** An idle sender with nothing complete left to read needs as many further iterations as
      packets are queued to write everything that was accepted. */
  lemma SenderFlushes(cs: Config, es: Hooks, vs: byte, ss: seq<Step>) returns (more: seq<Step>)
    requires cs.Sane() && RoomForFrame(cs) && VersionOk(vs) && Schedule(cs, ss)
    requires var s := Reached(cs, es, vs, ss);
      s.phase == Idle && s.handlers == [] && Pop(cs.maxData, s.core.input).NeedMore?
    ensures |more| == 2 * |Reached(cs, es, vs, ss).core.outQueue|
    ensures Schedule(cs, ss + more) && Flushed(Reached(cs, es, vs, ss), Reached(cs, es, vs, ss + more))
  {
    var s := Reached(cs, es, vs, ss);
    var n := |s.core.outQueue|;
    SenderOk(cs, es, vs, ss);
    IterationsFlush(cs, es, s, n);
    IterationsLength(n);
    more := Iterations(n);
    hide Pop, OutputOk, Flushed, Iterations;
    RunAppend(cs, es, Start(cs, vs), ss, more);
  }

  lemma {:induction false} IterationsLength(n: nat)
    ensures |Iterations(n)| == 2 * n
  {
    if n > 0 {
      IterationsLength(n - 1);
    }
  }

  /** A receiver that reads the frames of any packets with versions in range can take them all
      and keep no byte. */
  lemma ReceiverTakesAll(cr: Config, er: Hooks, vr: byte, ms: seq<Msg>) returns (sr: seq<Step>)
    requires cr.Sane() && cr.maxFrame < cr.bufMax && VersionOk(vr) && AllFit(cr.maxData, ms) && Supported(ms) == ms
    ensures Schedule(cr, sr)
    ensures var r := Reached(cr, er, vr, sr); r.received == Frames(ms) && r.popped == ms && r.core.input == []
  {
    hide *;
    var b, w := Frames(ms), Start(cr, vr);
    StartWaits(cr, vr);
    sr := FeedBytes(cr, er, w, b);
    var r := Reached(cr, er, vr, sr);
    IsRun(cr, er, vr, sr);
    assert [] + b == b;
    StillThere(r.received, b);
    ReceiverSide(cr, er, vr, sr, ms, b[|r.received|..]);
    NothingRefused(cr, er, ms, b[|r.received|..], r);
    WaitingParser(cr, r);
    assert b[|b|..] == [];
  }

  lemma StartWaits(cfg: Config, version: byte)
    requires cfg.Sane() && VersionOk(version)
    ensures var w := Start(cfg, version); WaitsFor(cfg, w) && w.core.Ok(cfg) && w.received == []
  {
  }

  lemma IsRun(cfg: Config, hooks: Hooks, version: byte, steps: seq<Step>)
    requires cfg.Sane() && VersionOk(version) && Schedule(cfg, steps) && Start(cfg, version).core.Ok(cfg)
    ensures Reached(cfg, hooks, version, steps) == Run(cfg, hooks, Start(cfg, version), steps)
  {
  }

  lemma StillThere(got: seq<byte>, all: seq<byte>)
    requires got <= all
    ensures got + all[|got|..] == all
  {
  }

  lemma NothingRefused(cfg: Config, hooks: Hooks, ms: seq<Msg>, missing: seq<byte>, w: World)
    requires ReceiverOk(cfg, hooks, ms, missing, w) && Supported(ms) == ms
    ensures !Refused(w)
    ensures missing == [] && Pop(cfg.maxData, w.core.input).NeedMore? ==> w.popped == ms && w.core.input == []
  {
  }

  lemma WaitingParser(cfg: Config, w: World)
    ensures WaitsFor(cfg, w) ==> Pop(cfg.maxData, w.core.input).NeedMore?
  {
  }

  /** The same sender facing a device: however its output is cut into reads, the receive loop
      hands on exactly the accepted packets and keeps no byte; a version out of range breaks
      the connection behind the packets before it. */
  lemma EndToEndDevice(cs: Config, es: Hooks, vs: byte, ss: seq<Step>, cr: Config, chunks: seq<seq<byte>>)
    requires cs.Sane() && RoomForFrame(cs) && VersionOk(vs) && Schedule(cs, ss)
    requires cr.Sane() && RoomForBlock(cr) && Chunks(cr, chunks)
    requires var s := Reached(cs, es, vs, ss);
      Concat(chunks) == s.written && s.core.outQueue == []
    requires cs.maxData <= cr.maxData
    ensures var sent := Msgs(Reached(cs, es, vs, ss).accepted);
      var good := Supported(sent);
      Receive(cr, [], chunks) ==
      if good == sent then Received(sent, Open([])) else Received(good, Broken(VersionError(sent[|good|].version)))
  {
    SenderSide(cs, es, vs, ss);
    var s := Reached(cs, es, vs, ss);
    assert s.written + [] == s.written && [] + s.written == s.written && Owed([]) == [];
    StreamParses(cr.maxData, Msgs(s.accepted), s.written, []);
    ChunkingIrrelevant(cr, [], chunks);
  }

  // ---- versions out of range ---------------------------------------------------------

  /** No receiver meets a parse error, whatever part of `b` it has read and in whatever run. */
  ghost predicate NeverRefused(cfg: Config, b: seq<byte>)
    requires cfg.Sane()
  {
    forall e, v, steps :: VersionOk(v) && Schedule(cfg, steps) && Reached(cfg, e, v, steps).received <= b ==>
                            !Refused(Reached(cfg, e, v, steps))
  }

  /** A receiver that waits for more of a packet. */
  ghost predicate WaitsFor(cfg: Config, w: World) {
    Calm(cfg, w) && Pop(cfg.maxData, w.core.input).NeedMore?
  }

  /** If one more byte completes a packet, nothing is left behind it. */
  lemma ByteCompletes(max: nat, b: seq<byte>, x: byte)
    requires max < TWO_32 && Pop(max, b).NeedMore?
    ensures var r := Pop(max, b + [x]); r.Got? ==> r.rest == []
  {
    var r := Pop(max, b + [x]);
    if r.Got? && r.rest != [] {
      PopGotOnlyFrames(max, b + [x]);
      var f, n := Frame(r.msg), |r.rest| - 1;
      assert b == (b + [x])[..|b|] == (f + r.rest)[..|b|] == f + r.rest[..n];
      PopFrame(max, r.msg, r.rest[..n]);
      assert false;
    }
  }

  /** Reading byte by byte, a receiver gets through everything or to the first parse error. */
  lemma {:induction false} FeedBytes(cfg: Config, hooks: Hooks, w: World, b: seq<byte>) returns (steps: seq<Step>)
    requires cfg.Sane() && cfg.maxFrame < cfg.bufMax && WaitsFor(cfg, w)
    ensures Schedule(cfg, steps)
    ensures var w' := Run(cfg, hooks, w, steps);
      if Refused(w') then w'.received <= w.received + b
      else WaitsFor(cfg, w') && w'.received == w.received + b
    decreases |b|
  {
    if b == [] {
      steps := [];
      assert w.received + b == w.received;
    } else {
      var x, rest := b[0], b[1..];
      steps := Round([x]);
      hide *;
      var w1 := FeedByte(cfg, hooks, w, x);
      assert [x] + rest == b;
      Assoc(w.received, [x], rest);
      if !Refused(w1) {
        var more := FeedBytes(cfg, hooks, w1, rest);
        RunAppend(cfg, hooks, w, steps, more);
        steps := steps + more;
      }
    }
  }

  lemma FeedByte(cfg: Config, hooks: Hooks, w: World, x: byte) returns (w': World)
    requires cfg.Sane() && cfg.maxFrame < cfg.bufMax && WaitsFor(cfg, w)
    ensures Schedule(cfg, Round([x])) && w' == Run(cfg, hooks, w, Round([x]))
    ensures w'.received == w.received + [x] && (Refused(w') || WaitsFor(cfg, w'))
  {
    PopTakesFrame(cfg.maxData, w.core.input);
    ByteCompletes(cfg.maxData, w.core.input, x);
    RoundEffect(cfg, hooks, w, [x]);
    w' := Run(cfg, hooks, w, Round([x]));
    assert Pop(cfg.maxData, []).NeedMore?;
    hide Round, Pop;
  }

  /** Some receiver meets a parse error on a stream exactly if the stream has one. */
  lemma RefusedIff(cfg: Config, b: seq<byte>)
    requires cfg.Sane() && cfg.maxFrame < cfg.bufMax
    ensures NeverRefused(cfg, b) <==> Drain(cfg.maxData, b).end.Waiting?
  {
    if Drain(cfg.maxData, b).end.Waiting? {
      forall e, v, steps | VersionOk(v) && Schedule(cfg, steps) && Reached(cfg, e, v, steps).received <= b
        ensures !Refused(Reached(cfg, e, v, steps))
      {
        var r := Reached(cfg, e, v, steps);
        InputConserved(cfg, e, v, steps);
        DrainAppend(cfg.maxData, r.received, b[|r.received|..]);
        assert r.received + b[|r.received|..] == b;
      }
    } else {
      var w := Start(cfg, PROTO_VERSION);
      var hooks := Hooks(true, 0);
      var steps := FeedBytes(cfg, hooks, w, b);
      var r := Reached(cfg, hooks, PROTO_VERSION, steps);
      InputConserved(cfg, hooks, PROTO_VERSION, steps);
      assert [] + b == b;
      if !Refused(r) {
        DrainWaits(cfg.maxData, r.core.input);
        assert false;
      }
    }
  }

  /** For any sender: no receiver is ever refused what it wrote, in any run of either,
      exactly if every packet written, up to its first 23 bytes at least, carries a version
      in range. */
  lemma VersionErrorIff(cs: Config, es: Hooks, vs: byte, ss: seq<Step>, cr: Config)
    requires cs.Sane() && RoomForFrame(cs) && VersionOk(vs) && Schedule(cs, ss)
    requires cr.Sane() && cr.maxFrame < cr.bufMax && cs.maxData <= cr.maxData
    ensures var s := Reached(cs, es, vs, ss);
      var sent := Msgs(s.accepted);
      var good := Supported(sent);
      NeverRefused(cr, s.written) <==> good == sent || |s.written| < |Frames(good)| + SMALLEST_FRAME
  {
    SenderSide(cs, es, vs, ss);
    var s := Reached(cs, es, vs, ss);
    StreamParses(cr.maxData, Msgs(s.accepted), s.written, Owed(s.core.outQueue));
    RefusedIff(cr, s.written);
  }

  /** `SUPLA_SDC_CALL_VERSIONERROR`, which carries the two versions the server supports,
      under the version of the peer. */
  const VERSION_ERROR: u32 := 30

  /** The answer to a packet of version `asked`. */
  ghost function Answer(asked: byte): Msg { Msg(asked, 1, VERSION_ERROR, [PROTO_VERSION_MIN, PROTO_VERSION]) }

  /** What the handler does first: it answers under the version it is told, that of the shared
      packet, and iterates once. */
  ghost function AnswerSteps(w: World): seq<Step> {
    [DoCall(VERSION_ERROR, [PROTO_VERSION_MIN, PROTO_VERSION], Some(w.core.sdp.version)), DoIn(NothingYet), DoOut]
  }

  /** In its first iteration the handler writes the answer. */
  lemma HandlerAnswers(cfg: Config, hooks: Hooks, w: World)
    requires cfg.Sane() && RoomForFrame(cfg) && w.core.Ok(cfg) && OutputOk(w) && 2 <= cfg.maxData
    requires w.phase == Idle && |w.handlers| == 1 && w.accepted == [] && w.core.nextId == 0
    requires w.core.input == [] && w.core.outQueue == []
    ensures var steps := AnswerSteps(w);
      && Schedule(cfg, steps)
      && var w' := Run(cfg, hooks, w, steps);
      Msgs(w'.accepted) == [Answer(w.core.sdp.version)] && w'.core.outQueue == [] && OutputOk(w') && w'.core.Ok(cfg)
  {
    var steps := AnswerSteps(w);
    var asked := w.core.sdp.version;
    RunThree(cfg, hooks, w, steps);
    NextKeepsOk(cfg, hooks, w, steps[0]);
    NextKeepsOutputOk(cfg, hooks, w, steps[0]);
    CallAccepts(cfg, w.core, VERSION_ERROR, Answer(asked).payload, Some(asked));
    var w1 := Next(cfg, hooks, w, steps[0]);
    NextKeepsOk(cfg, hooks, w1, steps[1]);
    NextKeepsOutputOk(cfg, hooks, w1, steps[1]);
    ReadsNothing(cfg, hooks, w1);
    var w2 := Next(cfg, hooks, w1, steps[1]);
    NextKeepsOk(cfg, hooks, w2, steps[2]);
    NextKeepsOutputOk(cfg, hooks, w2, steps[2]);
    OutConserves(cfg, hooks, w2);
    var (c, r) := OutHalf(cfg, w2.core, w2.phase.raise, hooks.events);
    SentShape(hooks, w2, c, r);
    hide InHalf, OutHalf, Frame, Frames, Sent, OutputOk;
  }

  lemma ReadsNothing(cfg: Config, hooks: Hooks, w: World)
    requires w.core.Ok(cfg) && w.phase == Idle && w.core.input == []
    ensures var w' := Next(cfg, hooks, w, DoIn(NothingYet));
      && w'.phase.Window? && w'.core == w.core && w'.accepted == w.accepted
      && w'.received == w.received && w'.failures == w.failures
  {
  }

  /** The run in which a server reads a packet whose version is out of range, fails, and from
      its handler answers under that version as `srpc_sdc_async_versionerror` does. The answer
      is written; and a receiver with the same range of versions is refused it. */
  lemma VersionErrorAnswered(cs: Config, hooks: Hooks, vs: byte, bad: Msg, cr: Config)
    returns (first: seq<Step>, ss: seq<Step>)
    requires cs.Sane() && RoomForFrame(cs) && VersionOk(vs) && 2 <= cs.maxData && hooks.extra > 0
    requires Unsupported(cs.maxData, bad)
    requires cr.Sane() && cr.maxFrame < cr.bufMax && cs.maxData <= cr.maxData
    ensures Schedule(cs, first) && ss == first + AnswerSteps(Reached(cs, hooks, vs, first)) && Schedule(cs, ss)
    ensures var s := Reached(cs, hooks, vs, ss);
      && s.received == Frame(bad)[..SMALLEST_FRAME] && s.failures == [ParseError(VersionErr)]
      && s.written == Frame(Answer(bad.version))
      && !NeverRefused(cr, s.written)
  {
    var start := Start(cs, vs);
    first := CallHandler(cs, hooks, vs, bad);
    var w := Reached(cs, hooks, vs, first);
    assert Owed([]) == [];
    RunKeepsOutputOk(cs, hooks, start, first);
    HandlerAnswers(cs, hooks, w);
    var rest := AnswerSteps(w);
    RunAppend(cs, hooks, start, first, rest);
    ss := first + rest;
    AnswerKeepsHistory(cs, hooks, w, rest);
    VersionErrorIff(cs, hooks, vs, ss, cr);
    var s := Reached(cs, hooks, vs, ss);
    assert s.written + [] + [] == s.written;
    assert Frames([Answer(bad.version)]) == Frame(Answer(bad.version)) + Frames([]);
    hide Next, Frame, Pop;
  }

  /** A call and an iteration that receives nothing add nothing to what was received, and do
      not fail if the output does not. */
  lemma AnswerKeepsHistory(cfg: Config, hooks: Hooks, w: World, steps: seq<Step>)
    requires cfg.Sane() && w.core.Ok(cfg) && Schedule(cfg, steps) && |steps| == 3
    requires steps[0].DoCall? && steps[1] == DoIn(NothingYet) && steps[2] == DoOut
    requires w.phase == Idle && w.core.input == [] && OutputOverflow !in Run(cfg, hooks, w, steps).failures
    ensures var w' := Run(cfg, hooks, w, steps); w'.received == w.received && w'.failures == w.failures
  {
    RunThree(cfg, hooks, w, steps);
    NextKeepsOk(cfg, hooks, w, steps[0]);
    var w1 := Next(cfg, hooks, w, steps[0]);
    ReadsNothing(cfg, hooks, w1);
    var w2 := Next(cfg, hooks, w1, steps[1]);
    var (c, r) := OutHalf(cfg, w2.core, w2.phase.raise, hooks.events);
    SentShape(hooks, w2, c, r);
    hide InHalf, OutHalf, Sent, Record;
  }
}
