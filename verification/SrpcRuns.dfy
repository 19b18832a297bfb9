/** What every run of the state machine keeps, whatever the interleaving. */
module SrpcRuns {
  import opened Bytes
  import opened Wire
  import opened Receiver
  import opened Builds
  import opened Proto
  import opened PacketQueues
  import opened SrpcSpec

  ghost function Run(cfg: Config, hooks: Hooks, w: World, steps: seq<Step>): (w': World)
    requires cfg.Sane() && w.core.Ok(cfg) && forall s <- steps :: StepOk(cfg, s)
    ensures w'.core.Ok(cfg)
    decreases |steps|
  {
    if steps == [] then w
    else
      NextKeepsOk(cfg, hooks, w, steps[0]);
      Run(cfg, hooks, Next(cfg, hooks, w, steps[0]), steps[1..])
  }

  lemma {:induction false} RunAppend(cfg: Config, hooks: Hooks, w: World, a: seq<Step>, b: seq<Step>)
    requires cfg.Sane() && w.core.Ok(cfg) && (forall s <- a :: StepOk(cfg, s)) && (forall s <- b :: StepOk(cfg, s))
    ensures Run(cfg, hooks, w, a + b) == Run(cfg, hooks, Run(cfg, hooks, w, a), b)
    decreases |a|
  {
    if a == [] {
      assert a + b == b;
    } else {
      assert (a + b)[1..] == a[1..] + b;
      NextKeepsOk(cfg, hooks, w, a[0]);
      RunAppend(cfg, hooks, Next(cfg, hooks, w, a[0]), a[1..], b);
    }
  }

  // ---- output ------------------------------------------------------------------------

  ghost function Msgs(q: seq<Sdp>): seq<Msg> { seq(|q|, i requires 0 <= i < |q| => q[i].Message()) }

  /** The bytes an outgoing queue stands for. */
  ghost function Owed(q: seq<Sdp>): seq<byte> { Frames(Msgs(q)) }

  lemma OwedCons(q: seq<Sdp>)
    requires q != []
    ensures Owed(q) == Frame(q[0].Message()) + Owed(q[1..])
  {
    assert Msgs(q)[1..] == Msgs(q[1..]);
  }

  lemma OwedSnoc(q: seq<Sdp>, s: Sdp)
    ensures Owed(q + [s]) == Owed(q) + Frame(s.Message())
  {
    assert Msgs(q + [s]) == Msgs(q) + [s.Message()];
    FramesAppend(Msgs(q), [s.Message()]);
    assert Frames([s.Message()]) == Frame(s.Message()) + Frames([]);
  }

  /** Nothing accepted is lost, duplicated or reordered: what was written, what waits in the
      buffer and what waits in the queue are together the frames of the accepted calls. */
  ghost predicate Conserved(w: World) {
    w.written + w.core.output + Owed(w.core.outQueue) == Owed(w.accepted)
  }

  /** How much the output buffer has to hold in the next outgoing half. */
  ghost function Load(c: Core): nat {
    |c.output| + if c.outQueue == [] then 0 else HEADER_SIZE + c.outQueue[0].dataSize + TAG_SIZE
  }

  /** The head of the queue, if any, fits behind what the output buffer still holds. */
  ghost predicate HeadFits(cfg: Config, c: Core) { Load(c) < cfg.bufMax }

  /** The append takes the whole frame; or it fails and takes all but the trailing tag; or
      it takes nothing, which is not reported as an error. */
  lemma OutAppendedExact(cfg: Config, out: seq<byte>, s: Sdp)
    requires cfg.Sane() && s.Ready(cfg.maxData) && |out| < cfg.bufMax
    ensures var f := Frame(s.Message());
      var body := f[..|f| - TAG_SIZE];
      OutAppended(cfg, out, s) ==
      if |out| + |f| < cfg.bufMax then (True, out + f)
      else if |out| + |body| < cfg.bufMax then (Overflowed, out + body)
      else (False, out)
  {
    ImageIsFrame(cfg.maxData, s);
    var body := s.Image()[..PacketSize(s)];
    assert out + body + TAG == out + (body + TAG);
    assert Frame(s.Message())[..|body|] == body;
  }

  /** The drain of one block moves bytes, it loses none. */
  lemma EmitMoves(cfg: Config, c: Core, result: Result, output: seq<byte>, raise: bool, hasEvents: bool, rest: seq<byte>)
    ensures var (c', r) := Emit(cfg, c, result, output, raise, hasEvents);
      && r.written + c'.output + rest == output + rest
      && c'.outQueue == c.outQueue && |c'.output| <= |output|
      && r.ok == (result in {True, False})
      && (r.ok ==> |c'.output| == |output| - Min(cfg.block, |output|))
  {
  }

  /** One outgoing half loses no byte exactly when the head of the queue fits. */
  lemma OutHalfConservesIff(cfg: Config, c: Core, raise: bool, hasEvents: bool)
    requires cfg.Sane() && c.Ok(cfg) && |c.output| < cfg.bufMax
    ensures var (c', r) := OutHalf(cfg, c, raise, hasEvents);
      && |c'.output| < cfg.bufMax
      && (r.written + c'.output + Owed(c'.outQueue) == c.output + Owed(c.outQueue) <==> HeadFits(cfg, c))
      && (HeadFits(cfg, c) ==> r.ok && |c'.output| == Load(c) - Min(cfg.block, Load(c)))
      && (c.outQueue != [] ==> c'.outQueue == c.outQueue[1..])
  {
    if c.outQueue == [] {
      EmitMoves(cfg, c, False, c.output, raise, hasEvents, Owed([]));
    } else {
      var s, queue := c.outQueue[0], c.outQueue[1..];
      OutAppendedExact(cfg, c.output, s);
      var (result, output) := OutAppended(cfg, c.output, s);
      EmitMoves(cfg, c.(sdp := s, outQueue := queue), result, output, raise, hasEvents, Owed(queue));
      CompareOwed(c.outQueue, c.output, output);
    }
  }

  /** The bytes owed are kept exactly when the head's frame was appended. */
  lemma CompareOwed(q: seq<Sdp>, before: seq<byte>, after: seq<byte>)
    requires q != []
    requires var f := Frame(q[0].Message()); after == before + f || |after| < |before| + |f|
    ensures after + Owed(q[1..]) == before + Owed(q) <==> after == before + Frame(q[0].Message())
  {
    hide Frame;
    OwedCons(q);
    var f, rest := Frame(q[0].Message()), Owed(q[1..]);
    Assoc(before, f, rest);
    if after != before + f {
      assert |after + rest| < |before + (f + rest)|;
    }
  }

  /** The largest frame fits the block that is drained per iteration, and the buffer. */
  ghost predicate RoomForFrame(cfg: Config) {
    cfg.maxFrame <= cfg.block && cfg.maxFrame < cfg.bufMax
  }

  ghost predicate OutputOk(w: World) {
    Conserved(w) && w.core.output == [] && OutputOverflow !in w.failures
  }

  lemma CallConserves(cfg: Config, hooks: Hooks, w: World, callId: u32, data: seq<byte>, version: Option<byte>)
    requires w.core.Ok(cfg) && |data| < TWO_32 && Conserved(w)
    ensures Conserved(Next(cfg, hooks, w, DoCall(callId, data, version)))
  {
    hide Frame;
    hide Fresh, WithData;
    var (c, id) := Call(cfg, w.core, callId, data, version);
    if id != 0 {
      OwedSnoc(w.core.outQueue, c.sdp);
      OwedSnoc(w.accepted, c.sdp);
      var a, b, q, f := w.written, w.core.output, Owed(w.core.outQueue), Frame(c.sdp.Message());
      Assoc(a + b, q, f);
    }
  }

  lemma OutConserves(cfg: Config, hooks: Hooks, w: World)
    requires cfg.Sane() && w.core.Ok(cfg) && w.phase.Window? && |w.core.output| < cfg.bufMax && Conserved(w)
    ensures var w' := Next(cfg, hooks, w, DoOut);
      && |w'.core.output| < cfg.bufMax
      && (Conserved(w') <==> HeadFits(cfg, w.core))
      && (HeadFits(cfg, w.core) ==>
            && |w'.core.output| == Load(w.core) - Min(cfg.block, Load(w.core))
            && w'.failures == w.failures
            && (w.handlers == [] ==> w'.phase == Idle && w'.handlers == []))
      && (w.core.outQueue != [] ==> w'.core.outQueue == w.core.outQueue[1..])
  {
    OutHalfConservesIff(cfg, w.core, w.phase.raise, hooks.events);
    var (c, r) := OutHalf(cfg, w.core, w.phase.raise, hooks.events);
    SamePrefix(w.written, r.written, c.output, Owed(c.outQueue), w.core.output, Owed(w.core.outQueue));
  }

  lemma SamePrefix(a: seq<byte>, x: seq<byte>, y: seq<byte>, z: seq<byte>, u: seq<byte>, v: seq<byte>)
    ensures a + x + y + z == a + u + v <==> x + y + z == u + v
  {
    assert a + x + y + z == a + (x + y + z) && a + u + v == a + (u + v);
    assert (a + (x + y + z))[|a|..] == x + y + z && (a + (u + v))[|a|..] == u + v;
  }

  /** Every step keeps the output equation in a build with room for a frame; the branches
      for a rejected append are never taken. */
  lemma NextKeepsOutputOk(cfg: Config, hooks: Hooks, w: World, s: Step)
    requires cfg.Sane() && RoomForFrame(cfg) && w.core.Ok(cfg) && StepOk(cfg, s) && OutputOk(w)
    ensures OutputOk(Next(cfg, hooks, w, s))
  {
    hide OutAppended, InHalf, Emit, TakeFirst, Owed, Record;
    assert w.core.outQueue != [] ==> w.core.outQueue[0] in w.core.outQueue;
    match s
    case DoCall(callId, data, version) => CallConserves(cfg, hooks, w, callId, data, version);
    case DoSetVersion(v) =>
    case DoIn(read) =>
      if w.phase == Idle {
        var (c, r) := InHalf(cfg, w.core, read);
        InHalfFrame(cfg, w.core, read);
        RecordShape(hooks, w, read, c, r);
      }
    case DoOut =>
      if w.phase.Window? {
        OutConserves(cfg, hooks, w);
      }
    case DoGet(rrId) =>
  }

  lemma {:induction false} RunKeepsOutputOk(cfg: Config, hooks: Hooks, w: World, steps: seq<Step>)
    requires cfg.Sane() && RoomForFrame(cfg) && w.core.Ok(cfg) && (forall s <- steps :: StepOk(cfg, s)) && OutputOk(w)
    ensures OutputOk(Run(cfg, hooks, w, steps))
    decreases |steps|
  {
    if steps != [] {
      NextKeepsOk(cfg, hooks, w, steps[0]);
      NextKeepsOutputOk(cfg, hooks, w, steps[0]);
      RunKeepsOutputOk(cfg, hooks, Next(cfg, hooks, w, steps[0]), steps[1..]);
    }
  }

  ghost predicate Schedule(cfg: Config, steps: seq<Step>) { forall s <- steps :: StepOk(cfg, s) }

  /** The output equation holds after every run from the start. */
  ghost predicate AlwaysConserves(cfg: Config, hooks: Hooks, version: byte)
    requires cfg.Sane() && VersionOk(version)
  {
    forall steps :: Schedule(cfg, steps) ==> Conserved(Run(cfg, hooks, Start(cfg, version), steps))
  }

  /** One call with the largest payload, then one iteration that receives nothing. */
  ghost function Burst(cfg: Config, callId: u32): seq<Step> {
    [DoCall(callId, Zeros(cfg.maxData), None), DoIn(NothingYet), DoOut]
  }

  /** An idle sender with nothing queued and no input pending. */
  ghost predicate Quiet(cfg: Config, w: World) {
    && w.core.Ok(cfg) && w.phase == Idle && w.handlers == [] && w.core.outQueue == [] && w.core.input == []
    && |w.core.output| < cfg.bufMax && Conserved(w)
  }

  /** What a burst does: the equation survives exactly if the frame fits, and then the
      buffer has grown by what one block could not take away. */
  lemma BurstEffect(cfg: Config, hooks: Hooks, w: World, callId: u32)
    requires cfg.Sane() && Quiet(cfg, w)
    ensures Schedule(cfg, Burst(cfg, callId))
    ensures var w' := Run(cfg, hooks, w, Burst(cfg, callId));
      var load := |w.core.output| + cfg.maxFrame;
      if load < cfg.bufMax then Quiet(cfg, w') && |w'.core.output| == load - Min(cfg.block, load)
      else !Conserved(w')
  {
    var b := Burst(cfg, callId);
    NextKeepsOk(cfg, hooks, w, b[0]);
    CallConserves(cfg, hooks, w, callId, Zeros(cfg.maxData), None);
    var w1 := Next(cfg, hooks, w, b[0]);
    IdleRead(cfg, hooks, w1);
    OutConserves(cfg, hooks, w1.(phase := Window(false)));
    RunThree(cfg, hooks, w, b);
    hide InPopped, OutAppended, Frame, Frames;
  }

  /** An iteration that receives nothing, and has no complete packet in its buffer, comes to
      its outgoing half with nothing changed. */
  lemma IdleRead(cfg: Config, hooks: Hooks, w: World)
    requires w.core.Ok(cfg) && w.phase == Idle && w.handlers == [] && Pop(cfg.maxData, w.core.input).NeedMore?
    ensures Next(cfg, hooks, w, DoIn(NothingYet)) == w.(phase := Window(false))
  {
    assert w.core.input + [] == w.core.input;
  }

  /** How an iteration ends that has failed with `cause`: without a handler in progress the
      connection ends; the handler goes on while it has iterations left; and a version error
      calls a handler that is set. */
  ghost predicate EndsWith(hooks: Hooks, w: World, cause: Cause, w': World) {
    var n := |w.handlers| - 1;
    && w'.failures == w.failures + [cause]
    && if cause == ParseError(VersionErr) && hooks.extra > 0 then
         w'.phase == Idle && w'.handlers == Begun(w.handlers) + [hooks.extra]
       else if w.handlers == [] then w'.phase == Dead(cause) && w'.handlers == []
       else if w.handlers[n] > 1 then w'.phase == Idle && w'.handlers == w.handlers[n := w.handlers[n] - 1]
       else n == 0 ==> w'.phase == Dead(ParseError(VersionErr)) && w'.handlers == []
  }

  /** What the read of an iteration comes to. */
  ghost predicate ReadDone(cfg: Config, hooks: Hooks, w: World, read: Read, w': World) {
    var x := if read.Chunk? then read.bytes else [];
    var b := w.core.input + x;
    && w'.fetched == w.fetched && w'.written == w.written && w'.accepted == w.accepted
    && w'.acceptedAt == w.acceptedAt && w'.calls == w.calls
    && w'.core == w.core.(input := w'.core.input, inQueue := w'.core.inQueue, sdp := w'.core.sdp)
    && if read.Closed? then
         EndsWith(hooks, w, PeerClosed, w')
         && w' == w.(phase := w'.phase, handlers := w'.handlers, failures := w'.failures)
       else if read.Chunk? && (|b| >= cfg.bufMax || cfg.bufMin >= cfg.bufMax) then
         EndsWith(hooks, w, InputOverflow, w')
         && w' == w.(phase := w'.phase, handlers := w'.handlers, failures := w'.failures)
       else
         w'.received == w.received + x && match Pop(cfg.maxData, b)
           case Got(m, rest) =>
             && w'.core.input == rest && w'.core.sdp.Message() == m && w'.popped == w.popped + [m]
             && if |w.core.inQueue| < cfg.queueSize then
                  && w'.phase == Window(rest != []) && w'.handlers == Begun(w.handlers) && w'.failures == w.failures
                  && w'.core.inQueue == w.core.inQueue + [w'.core.sdp] && w'.queued == w.queued + [w'.core.sdp]
                else
                  && EndsWith(hooks, w, InQueueFull, w')
                  && w'.core.inQueue == w.core.inQueue && w'.queued == w.queued
           case NeedMore =>
             w' == w.(core := w.core.(input := b), phase := Window(false), handlers := Begun(w.handlers), received := w'.received)
           case VersionError(v) =>
             && EndsWith(hooks, w, ParseError(VersionErr), w')
             && w'.core == w.core.(input := [], sdp := w.core.sdp.(version := v))
             && w'.popped == w.popped && w'.queued == w.queued
           case DataError =>
             && EndsWith(hooks, w, ParseError(DataErr), w')
             && w'.core == w.core.(input := [])
             && w'.popped == w.popped && w'.queued == w.queued
  }

  lemma FailEnds(hooks: Hooks, w: World, v: World, cause: Cause)
    requires v.handlers == Begun(w.handlers) && v.failures == w.failures
    ensures EndsWith(hooks, w, cause, Fail(hooks, v, cause))
  {
    var n := |w.handlers| - 1;
    if n >= 0 && w.handlers[n] > 1 {
      assert w.handlers[..n] + [w.handlers[n] - 1] == w.handlers[n := w.handlers[n] - 1];
    }
    if n == 0 {
      assert w.handlers[..0] == [] && Returned([]) == [];
    }
  }

  lemma RecordEnds(hooks: Hooks, w: World, read: Read, c: Core, r: InResult)
    ensures var w' := Record(hooks, w, read, c, r);
      if r.Stop? then EndsWith(hooks, w, r.cause, w') else w'.handlers == Begun(w.handlers)
  {
    if r.Stop? {
      var got := r == Stop(InQueueFull);
      var v := w.(core := c,
                  handlers := Begun(w.handlers),
                  received := if read.Chunk? && r != Stop(InputOverflow) then w.received + read.bytes else w.received,
                  popped := if got then w.popped + [c.sdp.Message()] else w.popped);
      FailEnds(hooks, w, v, r.cause);
      hide Fail, EndsWith;
    }
  }

  lemma ReadEffect(cfg: Config, hooks: Hooks, w: World, read: Read)
    requires w.core.Ok(cfg) && cfg.Sane() && w.phase == Idle && StepOk(cfg, DoIn(read))
    ensures ReadDone(cfg, hooks, w, read, Next(cfg, hooks, w, DoIn(read)))
  {
    var (d, r) := InHalf(cfg, w.core, read);
    RecordShape(hooks, w, read, d, r);
    RecordEnds(hooks, w, read, d, r);
    PopMessage(cfg, w.core.input + if read.Chunk? then read.bytes else [], w.core.sdp);
    assert w.received + [] == w.received;
    hide Pop, Begun, Record, EndsWith;
  }

  lemma PopMessage(cfg: Config, b: seq<byte>, sdp: Sdp)
    requires sdp.Fits(cfg.maxData)
    ensures Pop(cfg.maxData, b).Got? ==> InPopped(cfg, b, sdp).2.Message() == Pop(cfg.maxData, b).msg
  {
    var r := Pop(cfg.maxData, b);
    if r.Got? {
      var next := InPopped(cfg, b, sdp).2;
      assert next.data[..next.dataSize] == r.msg.payload;
    }
  }

  /** What an outgoing half comes to: the head of the queue leaves it and is appended; a block
      is written. A head that does not fit is dropped; if it is the trailing tag alone that
      does not fit, the iteration fails and its packet stays behind without the tag. */
  lemma OutEffect(cfg: Config, hooks: Hooks, w: World)
    requires cfg.Sane() && w.core.Ok(cfg) && w.phase.Window? && |w.core.output| < cfg.bufMax
    ensures var w' := Next(cfg, hooks, w, DoOut);
      var q, out := w.core.outQueue, w.core.output;
      var f := if q == [] then [] else Frame(q[0].Message());
      var body := if q == [] then [] else f[..|f| - TAG_SIZE];
      && w'.core == w.core.(output := w'.core.output, outQueue := if q == [] then [] else q[1..], sdp := if q == [] then w.core.sdp else q[0])
      && if |out| + |f| >= cfg.bufMax && |out| + |body| < cfg.bufMax then
           w'.core.output == out + body && w'.written == w.written && w'.failures == w.failures + [OutputOverflow]
         else
           var all := if |out| + |f| < cfg.bufMax then out + f else out;
           var n := if |all| < cfg.block then |all| else cfg.block;
           && w'.written == w.written + all[..n] && w'.core.output == all[n..] && w'.failures == w.failures
           && (w.handlers == [] ==> w'.phase == Idle)
  {
    var q := w.core.outQueue;
    var (c, r) := OutHalf(cfg, w.core, w.phase.raise, hooks.events);
    SentShape(hooks, w, c, r);
    if q != [] {
      OutAppendedExact(cfg, w.core.output, q[0]);
    } else {
      assert w.core.output + [] == w.core.output;
    }
    hide OutAppended, Frame, Returned;
  }

  /** What a fetch comes to: the first packet with the id asked for, or the head for id 0, is
      taken, and the others stay in order; without one nothing changes. */
  lemma FetchEffect(cfg: Config, hooks: Hooks, w: World, rrId: u32, a: nat)
    requires w.core.Ok(cfg) && a <= |w.core.inQueue|
    requires forall i :: 0 <= i < a ==> rrId != 0 && w.core.inQueue[i].rrId != rrId
    requires a < |w.core.inQueue| ==> rrId == 0 || w.core.inQueue[a].rrId == rrId
    ensures var q := w.core.inQueue;
      Next(cfg, hooks, w, DoGet(rrId)) ==
      if a < |q| then w.(core := w.core.(sdp := q[a], inQueue := q[..a] + q[a + 1..]), fetched := w.fetched + [q[a]]) else w
  {
    TakeFirstIsFirstMatch(w.core.inQueue, rrId, a);
    hide TakeFirst;
  }

  /** A call without a version of its own goes out under the version set last, or under the
      current one if that was out of range. */
  lemma VersionTakesEffect(cfg: Config, hooks: Hooks, w: World, v: byte, callId: u32, data: seq<byte>)
    requires cfg.Sane() && w.core.Ok(cfg) && |data| <= cfg.maxData && |w.core.outQueue| < cfg.queueSize
    ensures var w1 := Next(cfg, hooks, w, DoSetVersion(v));
      && w1.core.Ok(cfg)
      && var w2 := Next(cfg, hooks, w1, DoCall(callId, data, None));
      |w2.accepted| == |w.accepted| + 1
      && w2.accepted[|w.accepted|].version == (if 1 <= v <= 28 then v else 28)
  {
  }

  /** An outgoing half with nothing to send. */
  lemma QuietOut(cfg: Config, hooks: Hooks, w: World)
    requires w.core.Ok(cfg) && w.phase.Window? && w.core.output == [] && w.core.outQueue == []
    ensures Next(cfg, hooks, w, DoOut) == Over(w)
  {
    assert w.written + [] == w.written;
    hide Over;
  }

  lemma RunTwo(cfg: Config, hooks: Hooks, w: World, b: seq<Step>)
    requires cfg.Sane() && w.core.Ok(cfg) && |b| == 2 && Schedule(cfg, b)
    ensures var w1 := Next(cfg, hooks, w, b[0]);
      w1.core.Ok(cfg) && Run(cfg, hooks, w, b) == Next(cfg, hooks, w1, b[1])
  {
    NextKeepsOk(cfg, hooks, w, b[0]);
    var w1 := Next(cfg, hooks, w, b[0]);
    assert b[1..][0] == b[1] && b[1..][1..] == [];
    assert Run(cfg, hooks, w1, b[1..]) == Next(cfg, hooks, w1, b[1]);
  }

  lemma RunThree(cfg: Config, hooks: Hooks, w: World, b: seq<Step>)
    requires cfg.Sane() && w.core.Ok(cfg) && |b| == 3 && Schedule(cfg, b)
    ensures var w1 := Next(cfg, hooks, w, b[0]);
      && w1.core.Ok(cfg)
      && var w2 := Next(cfg, hooks, w1, b[1]);
      && w2.core.Ok(cfg)
      && Run(cfg, hooks, w, b) == Next(cfg, hooks, w2, b[2])
  {
    NextKeepsOk(cfg, hooks, w, b[0]);
    assert b[1..][0] == b[1] && b[1..][1] == b[2];
    RunTwo(cfg, hooks, Next(cfg, hooks, w, b[0]), b[1..]);
  }

  /** An iteration that reads one byte more of a packet. */
  lemma ArriveByte(cfg: Config, hooks: Hooks, w: World, x: byte)
    requires cfg.Sane() && w.core.Ok(cfg) && w.phase == Idle && w.handlers == []
    requires w.core.output == [] && w.core.outQueue == []
    requires Pop(cfg.maxData, w.core.input + [x]).NeedMore? && |w.core.input| + 1 < cfg.bufMax
    ensures var steps := [DoIn(Chunk([x])), DoOut];
      && Schedule(cfg, steps)
      && Run(cfg, hooks, w, steps) == w.(core := w.core.(input := w.core.input + [x]), received := w.received + [x])
  {
    var steps := [DoIn(Chunk([x])), DoOut];
    ReadEffect(cfg, hooks, w, Chunk([x]));
    RunTwo(cfg, hooks, w, steps);
    hide InHalf, Record, Pop;
    QuietOut(cfg, hooks, Next(cfg, hooks, w, steps[0]));
  }

  /** The bytes `f`, which complete nothing, arrive one at a time; nothing else changes. */
  lemma {:induction false} Arrive(cfg: Config, hooks: Hooks, w: World, f: seq<byte>, j: nat) returns (steps: seq<Step>)
    requires cfg.Sane() && w.core.Ok(cfg) && w.phase == Idle && w.handlers == []
    requires w.core.output == [] && w.core.outQueue == []
    requires KeepsWaiting(cfg.maxData, f) && |f| < cfg.bufMax && j <= |f| && w.core.input == f[..j]
    ensures Schedule(cfg, steps)
    ensures Run(cfg, hooks, w, steps) == w.(core := w.core.(input := f), received := w.received + f[j..])
    decreases |f| - j
  {
    if j == |f| {
      steps := [];
      assert f[..j] == f && f[j..] == [] && w.received + [] == w.received;
    } else {
      assert f[..j] + [f[j]] == f[..j + 1];
      assert w.received + [f[j]] + f[j + 1..] == w.received + f[j..];
      ArriveByte(cfg, hooks, w, f[j]);
      steps := [DoIn(Chunk([f[j]])), DoOut];
      hide Next, Pop;
      var w2 := Run(cfg, hooks, w, steps);
      var more := Arrive(cfg, hooks, w2, f, j + 1);
      RunAppend(cfg, hooks, w, steps, more);
      steps := steps + more;
    }
  }

  /** Without room for a frame, bursts of any call pile up until a frame is cut or dropped. */
  lemma {:induction false} BurstsOverload(cfg: Config, hooks: Hooks, w: World, callId: u32) returns (steps: seq<Step>)
    requires cfg.Sane() && !RoomForFrame(cfg) && Quiet(cfg, w)
    ensures Schedule(cfg, steps) && !Conserved(Run(cfg, hooks, w, steps))
    decreases cfg.bufMax - |w.core.output|
  {
    BurstEffect(cfg, hooks, w, callId);
    steps := Burst(cfg, callId);
    var w' := Run(cfg, hooks, w, steps);
    if |w.core.output| + cfg.maxFrame < cfg.bufMax {
      var more := BurstsOverload(cfg, hooks, w', callId);
      RunAppend(cfg, hooks, w, steps, more);
      steps := steps + more;
    }
  }

  /** `SUPLA_DCS_CALL_PING_SERVER`, which every protocol version allows. */
  const PING_SERVER: u32 := 40

  /** Conservation of output over every interleaving, and exactly which builds have it. */
  lemma OutputConservedIff(cfg: Config, hooks: Hooks, version: byte)
    requires cfg.Sane() && VersionOk(version)
    ensures AlwaysConserves(cfg, hooks, version) <==> RoomForFrame(cfg)
  {
    var w := Start(cfg, version);
    assert Owed([]) == [];
    if RoomForFrame(cfg) {
      forall steps | Schedule(cfg, steps)
        ensures Conserved(Run(cfg, hooks, w, steps))
      {
        RunKeepsOutputOk(cfg, hooks, w, steps);
      }
    } else {
      var steps := BurstsOverload(cfg, hooks, w, PING_SERVER);
    }
  }

  /** `n` iterations that receive nothing. */
  ghost function Iterations(n: nat): seq<Step> {
    if n == 0 then [] else [DoIn(NothingYet), DoOut] + Iterations(n - 1)
  }

  lemma {:induction false} IterationsOk(cfg: Config, n: nat)
    ensures Schedule(cfg, Iterations(n))
  {
    if n > 0 {
      IterationsOk(cfg, n - 1);
    }
  }

  /** An idle sender that has written everything accepted, with nothing else changed since. */
  ghost predicate Flushed(w: World, w': World) {
    && w'.phase == Idle && w'.core.outQueue == [] && w'.written == Owed(w'.accepted)
    && w'.accepted == w.accepted && w'.received == w.received
  }

  /** An idle sender with `n` packets queued and nothing complete left to read. */
  ghost predicate Waits(cfg: Config, w: World, n: nat) {
    && OutputOk(w) && n == |w.core.outQueue| && w.phase == Idle && w.handlers == []
    && Pop(cfg.maxData, w.core.input).NeedMore?
  }

  /** Progress: in a build with room for a frame, as many iterations as packets are queued
      write everything that was accepted. */
  lemma {:induction false} IterationsFlush(cfg: Config, hooks: Hooks, w: World, n: nat)
    requires cfg.Sane() && RoomForFrame(cfg) && w.core.Ok(cfg) && Waits(cfg, w, n)
    ensures Schedule(cfg, Iterations(n)) && Flushed(w, Run(cfg, hooks, w, Iterations(n)))
    decreases n
  {
    IterationsOk(cfg, n);
    if n == 0 {
      AllWritten(w);
      RunNone(cfg, hooks, w);
      hide Run, Iterations, OutputOk, Owed;
    } else {
      var one := [DoIn(NothingYet), DoOut];
      assert Iterations(n) == one + Iterations(n - 1);
      hide *;
      OneIteration(cfg, hooks, w, n);
      var w1 := Run(cfg, hooks, w, one);
      IterationsFlush(cfg, hooks, w1, n - 1);
      RunAppend(cfg, hooks, w, one, Iterations(n - 1));
      FlushedToo(w, w1, Run(cfg, hooks, w1, Iterations(n - 1)));
    }
  }

  lemma FlushedToo(w: World, w1: World, w2: World)
    requires Flushed(w1, w2) && w1.accepted == w.accepted && w1.received == w.received
    ensures Flushed(w, w2)
  {
  }

  lemma AllWritten(w: World)
    requires OutputOk(w) && w.core.outQueue == []
    ensures w.written == Owed(w.accepted)
  {
    assert w.written + [] + [] == w.written && Owed([]) == [];
    hide Frames, Msgs;
  }

  lemma RunNone(cfg: Config, hooks: Hooks, w: World)
    requires cfg.Sane() && w.core.Ok(cfg)
    ensures Iterations(0) == [] && Schedule(cfg, Iterations(0)) && Run(cfg, hooks, w, Iterations(0)) == w
  {
    hide Next;
  }

  lemma OneIteration(cfg: Config, hooks: Hooks, w: World, n: nat)
    requires cfg.Sane() && RoomForFrame(cfg) && w.core.Ok(cfg) && Waits(cfg, w, n) && n > 0
    ensures var one := [DoIn(NothingYet), DoOut];
      && (forall s <- one :: StepOk(cfg, s))
      && var w2 := Run(cfg, hooks, w, one);
      w2.core.Ok(cfg) && Waits(cfg, w2, n - 1) && w2.accepted == w.accepted && w2.received == w.received
  {
    var one := [DoIn(NothingYet), DoOut];
    IdleRead(cfg, hooks, w);
    RunTwo(cfg, hooks, w, one);
    var w1 := w.(phase := Window(false));
    assert w.core.outQueue[0] in w.core.outQueue;
    NextKeepsOk(cfg, hooks, w1, DoOut);
    NextKeepsOutputOk(cfg, hooks, w1, DoOut);
    OutConserves(cfg, hooks, w1);
    OutHalfFrame(cfg, w1.core, false, hooks.events);
    hide InHalf, Frame, Frames, OutHalf, OutputOk, Pop;
  }

  /** Of the builds that have an outgoing queue, the server's conserves its output; in the
      small-RAM ones a block is smaller than a frame, and output can be lost. */
  lemma WhichQueuedBuildsConserve(hooks: Hooks, version: byte)
    requires VersionOk(version)
    ensures AlwaysConserves(SERVER, hooks, version)
    ensures !AlwaysConserves(ESP8266_SDK, hooks, version)
    ensures !AlwaysConserves(ESP32_BARE, hooks, version)
  {
    hide AlwaysConserves;
    OutputConservedIff(SERVER, hooks, version);
    OutputConservedIff(ESP8266_SDK, hooks, version);
    OutputConservedIff(ESP32_BARE, hooks, version);
  }
}
