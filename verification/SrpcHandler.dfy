/** A handler for version errors goes on iterating where the stream could not be parsed. What
    it takes from there no longer follows the packets of the stream. */
module SrpcHandler {
  import opened Bytes
  import opened Wire
  import opened Receiver
  import opened Builds
  import opened Proto
  import opened SrpcSpec
  import opened SrpcRuns
  import opened SrpcInput
  import opened SrpcOverflow

  /** The packets taken are the first of those the byte stream holds. */
  ghost predicate Prefix(cfg: Config, w: World) { w.popped <= Drain(cfg.maxData, w.received).msgs }

  /** In every run the packets taken are a prefix of those the byte stream holds. */
  ghost predicate AlwaysPrefix(cfg: Config, hooks: Hooks, version: byte)
    requires cfg.Sane() && VersionOk(version)
  {
    forall steps :: Schedule(cfg, steps) ==> Prefix(cfg, Reached(cfg, hooks, version, steps))
  }

  /** The handler cannot read as much as one packet. */
  ghost predicate TooFewIterations(cfg: Config, hooks: Hooks) { MostRead(hooks.extra, cfg.block) < SMALLEST_FRAME }

  /** As much as `n` iterations can read. */
  function MostRead(n: nat, block: nat): nat { n * block }

  // ---- a handler that gets no packet -------------------------------------------------

  /** At most one handler is in progress; what it has read and what it can still read is less
      than a packet; and it has taken none. */
  ghost predicate Tame(cfg: Config, hooks: Hooks, w: World) {
    && Prefix(cfg, w)
    && |w.handlers| <= 1
    && (w.handlers != [] ==> |w.core.input| + MostRead(w.handlers[0], cfg.block) <= MostRead(hooks.extra, cfg.block))
  }

  lemma DrainGrows(max: nat, b: seq<byte>, x: seq<byte>)
    ensures Drain(max, b).msgs <= Drain(max, b + x).msgs
  {
    DrainAppend(max, b, x);
  }

  /** Handlers in progress after an iteration has failed, or ended otherwise. */
  lemma FailedHandlers(hooks: Hooks, w: World, cause: Cause)
    ensures Fail(hooks, w, cause).handlers ==
            if cause == ParseError(VersionErr) && hooks.extra > 0 then w.handlers + [hooks.extra] else Returned(w.handlers)
    ensures Over(w).handlers == Returned(w.handlers)
  {
  }

  lemma OneHandler(n: nat)
    ensures Begun([n]) == [if n > 0 then n - 1 else 0] && Returned([n]) == if n > 0 then [n] else []
  {
    assert [n][..0] == [] && Returned([]) == [];
  }

  /** One iteration of the handler reads at most a block. */
  lemma OneLess(n: nat, block: nat)
    requires n > 0
    ensures MostRead(n - 1, block) + block == MostRead(n, block)
  {
  }

  /** An incoming half without 23 bytes gets no packet and calls no handler. */
  lemma InHalfOfLittle(cfg: Config, c: Core, read: Read)
    requires c.Ok(cfg) && |c.input| + (if read.Chunk? then |read.bytes| else 0) < SMALLEST_FRAME
    ensures var (c', r) := InHalf(cfg, c, read);
      && (r.Proceed? ==> !r.got) && r != Stop(InQueueFull) && r != Stop(ParseError(VersionErr))
      && |c'.input| <= |c.input| + if read.Chunk? then |read.bytes| else 0
  {
  }

  lemma InHalfClears(cfg: Config, c: Core, read: Read)
    requires c.Ok(cfg)
    ensures var (c', r) := InHalf(cfg, c, read); r == Stop(ParseError(VersionErr)) ==> c'.input == []
  {
    hide Pop;
  }

  lemma RecordHandlers(hooks: Hooks, w: World, read: Read, c: Core, r: InResult)
    ensures Record(hooks, w, read, c, r).handlers ==
            if r.Proceed? then Begun(w.handlers)
            else if r.cause == ParseError(VersionErr) && hooks.extra > 0 then Begun(w.handlers) + [hooks.extra]
            else Returned(Begun(w.handlers))
  {
  }

  /** Without a packet got, what was taken stays a prefix. */
  lemma StaysPrefix(cfg: Config, hooks: Hooks, w: World, read: Read)
    requires w.core.Ok(cfg) && StepOk(cfg, DoIn(read)) && w.phase == Idle && Prefix(cfg, w)
    requires var (_, r) := InHalf(cfg, w.core, read); (r.Proceed? ==> !r.got) && r != Stop(InQueueFull)
    ensures Prefix(cfg, Next(cfg, hooks, w, DoIn(read)))
  {
    var (c, r) := InHalf(cfg, w.core, read);
    RecordShape(hooks, w, read, c, r);
    hide Record, InHalf, Drain;
    if read.Chunk? {
      DrainGrows(cfg.maxData, w.received, read.bytes);
    }
  }

  /** An iteration of the handler. */
  lemma InKeepsTame(cfg: Config, hooks: Hooks, w: World, read: Read)
    requires cfg.Sane() && w.core.Ok(cfg) && StepOk(cfg, DoIn(read)) && w.phase == Idle
    requires TooFewIterations(cfg, hooks) && FailuresOk(w) && w.handlers != [] && Tame(cfg, hooks, w)
    ensures Tame(cfg, hooks, Next(cfg, hooks, w, DoIn(read)))
  {
    var n := w.handlers[0];
    assert w.handlers == [n];
    OneHandler(n);
    OneHandler(n - 1);
    OneLess(n, cfg.block);
    hide MostRead, Returned, Begun;
    InHalfOfLittle(cfg, w.core, read);
    var (c, r) := InHalf(cfg, w.core, read);
    RecordShape(hooks, w, read, c, r);
    RecordHandlers(hooks, w, read, c, r);
    StaysPrefix(cfg, hooks, w, read);
    hide Record, InHalf, Prefix;
  }

  /** An iteration of the main loop takes the next packet of the stream or none. */
  lemma FirstPrefix(cfg: Config, hooks: Hooks, w: World, read: Read)
    requires cfg.Sane() && w.core.Ok(cfg) && StepOk(cfg, DoIn(read)) && w.phase == Idle
    requires ReceiveOk(cfg, w) && Prefix(cfg, w) && w.handlers == []
    ensures Prefix(cfg, Next(cfg, hooks, w, DoIn(read)))
  {
    hide QueueOk, WindowOk, Drain;
    NextKeepsInputOk(cfg, hooks, w, DoIn(read));
    var (c, r) := InHalf(cfg, w.core, read);
    if r.Stop? && r.cause.ParseError? {
      StaysPrefix(cfg, hooks, w, read);
      hide Prefix;
    } else {
      RecordShape(hooks, w, read, c, r);
    }
    hide Record, InHalf;
  }

  /** If it calls a handler, nothing has been read for that yet. */
  lemma FirstHandlers(cfg: Config, hooks: Hooks, w: World, read: Read)
    requires w.core.Ok(cfg) && StepOk(cfg, DoIn(read)) && w.phase == Idle && w.handlers == []
    ensures var w' := Next(cfg, hooks, w, DoIn(read));
      w'.handlers == [] || (w'.handlers == [hooks.extra] && w'.core.input == [])
  {
    InHalfClears(cfg, w.core, read);
    var (c, r) := InHalf(cfg, w.core, read);
    RecordShape(hooks, w, read, c, r);
    RecordHandlers(hooks, w, read, c, r);
    assert Returned([]) == [] && Begun([]) == [] && [] + [hooks.extra] == [hooks.extra];
    hide Record, InHalf, Returned, Begun;
  }

  lemma OutKeepsTame(cfg: Config, hooks: Hooks, w: World)
    requires cfg.Sane() && w.core.Ok(cfg) && w.phase.Window? && Tame(cfg, hooks, w)
    ensures Tame(cfg, hooks, Next(cfg, hooks, w, DoOut))
  {
    var (c, r) := OutHalf(cfg, w.core, w.phase.raise, hooks.events);
    OutHalfFrame(cfg, w.core, w.phase.raise, hooks.events);
    SentShape(hooks, w, c, r);
    var v := w.(core := c, written := w.written + r.written);
    FailedHandlers(hooks, v, OutputOverflow);
    assert Sent(hooks, w, c, r).handlers == Returned(w.handlers);
    hide Sent, OutHalf, Drain, Fail, Over;
    if w.handlers != [] {
      assert w.handlers == [w.handlers[0]];
      OneHandler(w.handlers[0]);
    }
  }

  lemma NextKeepsTame(cfg: Config, hooks: Hooks, w: World, s: Step)
    requires cfg.Sane() && w.core.Ok(cfg) && StepOk(cfg, s) && TooFewIterations(cfg, hooks)
    requires ReceiveOk(cfg, w) && Tame(cfg, hooks, w)
    ensures Tame(cfg, hooks, Next(cfg, hooks, w, s))
  {
    match s
    case DoCall(_, _, _) =>
    case DoSetVersion(_) =>
    case DoGet(_) =>
    case DoIn(read) =>
      if w.phase == Idle {
        if w.handlers == [] {
          FirstPrefix(cfg, hooks, w, read);
          FirstHandlers(cfg, hooks, w, read);
        } else {
          InKeepsTame(cfg, hooks, w, read);
        }
        hide Next;
      }
    case DoOut =>
      if w.phase.Window? {
        OutKeepsTame(cfg, hooks, w);
        hide Next;
      }
  }

  lemma {:induction false} RunKeepsTame(cfg: Config, hooks: Hooks, w: World, steps: seq<Step>)
    requires cfg.Sane() && w.core.Ok(cfg) && Schedule(cfg, steps) && TooFewIterations(cfg, hooks)
    requires ReceiveOk(cfg, w) && Tame(cfg, hooks, w)
    ensures Tame(cfg, hooks, Run(cfg, hooks, w, steps))
    decreases |steps|
  {
    if steps != [] {
      NextKeepsOk(cfg, hooks, w, steps[0]);
      NextKeepsInputOk(cfg, hooks, w, steps[0]);
      NextKeepsTame(cfg, hooks, w, steps[0]);
      hide Next, ReceiveOk, Tame;
      RunKeepsTame(cfg, hooks, Next(cfg, hooks, w, steps[0]), steps[1..]);
    }
  }

  /** A handler that cannot read a packet takes none, and neither does no handler at all. */
  lemma PrefixKept(cfg: Config, hooks: Hooks, version: byte, steps: seq<Step>)
    requires cfg.Sane() && VersionOk(version) && Schedule(cfg, steps) && TooFewIterations(cfg, hooks)
    ensures Prefix(cfg, Reached(cfg, hooks, version, steps))
  {
    InputConserved(cfg, hooks, version, []);
    RunKeepsTame(cfg, hooks, Start(cfg, version), steps);
  }

  // ---- a handler that does -----------------------------------------------------------

  /** A version error calls the handler: 23 bytes of a packet whose version is out of range. */
  lemma CallHandler(cfg: Config, hooks: Hooks, version: byte, bad: Msg) returns (steps: seq<Step>)
    requires cfg.Sane() && VersionOk(version) && Unsupported(cfg.maxData, bad)
    requires SMALLEST_FRAME < cfg.bufMax && hooks.extra > 0
    ensures Schedule(cfg, steps)
    ensures var w := Reached(cfg, hooks, version, steps);
      && w.phase == Idle && w.handlers == [hooks.extra] && w.failures == [ParseError(VersionErr)]
      && w.received == Frame(bad)[..SMALLEST_FRAME] && w.popped == [] && w.accepted == [] && w.written == []
      && w.core.input == [] && w.core.output == [] && w.core.outQueue == [] && w.core.inQueue == []
      && w.core.nextId == 0 && w.core.sdp.version == bad.version
  {
    hide Frame, Next, Pop, Run;
    var b, n := Frame(bad)[..SMALLEST_FRAME], SMALLEST_FRAME - 1;
    var f, last := b[..n], b[n..];
    assert f == Frame(bad)[..n] && f + last == b;
    UnsupportedWaits(cfg.maxData, bad, n);
    var w := Start(cfg, version);
    var most := ArriveAll(cfg, hooks, w, f);
    var w1 := Run(cfg, hooks, w, most);
    assert b + Frame(bad)[SMALLEST_FRAME..] == Frame(bad) + [];
    PopUnsupported(cfg.maxData, bad, [], b, Frame(bad)[SMALLEST_FRAME..]);
    var s := DoIn(Chunk(last));
    ReadEffect(cfg, hooks, w1, Chunk(last));
    RunOne(cfg, hooks, w1, s);
    RunAppend(cfg, hooks, w, most, [s]);
    steps := most + [s];
  }

  /** Bytes that complete nothing arrive at a new object. */
  lemma ArriveAll(cfg: Config, hooks: Hooks, w: World, f: seq<byte>) returns (steps: seq<Step>)
    requires cfg.Sane() && w.core.Ok(cfg) && w.phase == Idle && w.handlers == [] && w.core.input == []
    requires w.core.output == [] && w.core.outQueue == [] && w.received == []
    requires KeepsWaiting(cfg.maxData, f) && |f| < cfg.bufMax
    ensures Schedule(cfg, steps)
    ensures Run(cfg, hooks, w, steps) == w.(core := w.core.(input := f), received := f)
  {
    hide *;
    assert f[..0] == [] && f[0..] == f && [] + f == f;
    steps := Arrive(cfg, hooks, w, f, 0);
  }

  lemma RunOne(cfg: Config, hooks: Hooks, w: World, s: Step)
    requires cfg.Sane() && w.core.Ok(cfg) && StepOk(cfg, s)
    ensures Run(cfg, hooks, w, [s]) == Next(cfg, hooks, w, s)
  {
    NextKeepsOk(cfg, hooks, w, s);
    var w' := Next(cfg, hooks, w, s);
    assert [s][1..] == [] && Run(cfg, hooks, w', []) == w';
  }

  lemma UnsupportedWaits(max: nat, bad: Msg, n: nat)
    requires Unsupported(max, bad) && n < SMALLEST_FRAME
    ensures KeepsWaiting(max, Frame(bad)[..n])
  {
    var f := Frame(bad)[..n];
    forall k | 0 <= k <= |f|
      ensures Pop(max, f[..k]).NeedMore?
    {
      assert f[..k] == Frame(bad)[..k];
      assert f[..k] + Frame(bad)[k..] == Frame(bad) + [];
      PopUnsupported(max, bad, [], f[..k], Frame(bad)[k..]);
    }
  }

  /** One of its iterations, after which the packet is still not whole. */
  lemma HandlerIterates(cfg: Config, hooks: Hooks, w: World, c: seq<byte>, l: nat)
    requires cfg.Sane() && w.core.Ok(cfg) && w.phase == Idle && w.handlers == [l] && l >= 2 && 1 <= |c| <= cfg.block
    requires w.core.output == [] && w.core.outQueue == []
    requires Pop(cfg.maxData, w.core.input + c).NeedMore? && |w.core.input + c| < cfg.bufMax
    ensures var steps := [DoIn(Chunk(c)), DoOut];
      && Schedule(cfg, steps)
      && Run(cfg, hooks, w, steps) ==
         w.(core := w.core.(input := w.core.input + c), handlers := [l - 1], received := w.received + c)
  {
    var steps := [DoIn(Chunk(c)), DoOut];
    ReadEffect(cfg, hooks, w, Chunk(c));
    RunTwo(cfg, hooks, w, steps);
    OneHandler(l);
    OneHandler(l - 1);
    hide InHalf, Record, Pop, Begun, Returned;
    QuietOut(cfg, hooks, Next(cfg, hooks, w, steps[0]));
  }

  /** The one in which the rest of the packet is read. */
  lemma HandlerGets(cfg: Config, hooks: Hooks, w: World, m: Msg, j: nat)
    requires cfg.Sane() && w.core.Ok(cfg) && w.phase == Idle && |w.core.inQueue| < cfg.queueSize
    requires Sendable(cfg.maxData, m) && |Frame(m)| < cfg.bufMax
    requires j < |Frame(m)| && w.core.input == Frame(m)[..j] && |Frame(m)| - j <= cfg.block
    ensures var s := DoIn(Chunk(Frame(m)[j..]));
      && StepOk(cfg, s)
      && var w' := Run(cfg, hooks, w, [s]); w'.popped == w.popped + [m] && w'.received == w.received + Frame(m)[j..]
  {
    var f := Frame(m);
    hide Frame, Pop, Next;
    assert f[..j] + f[j..] == f == f + [];
    PopFrame(cfg.maxData, m, []);
    ReadEffect(cfg, hooks, w, Chunk(f[j..]));
    RunOne(cfg, hooks, w, DoIn(Chunk(f[j..])));
  }

  /** In its iterations the handler reads the rest of a packet. */
  lemma {:induction false} HandlerReads(cfg: Config, hooks: Hooks, w: World, m: Msg, j: nat) returns (steps: seq<Step>)
    requires cfg.Sane() && w.core.Ok(cfg) && w.phase == Idle && |w.handlers| == 1
    requires w.core.output == [] && w.core.outQueue == [] && |w.core.inQueue| < cfg.queueSize
    requires Sendable(cfg.maxData, m) && |Frame(m)| < cfg.bufMax
    requires j < |Frame(m)| && w.core.input == Frame(m)[..j] && |Frame(m)| - j <= MostRead(w.handlers[0], cfg.block)
    ensures Schedule(cfg, steps)
    ensures var w' := Run(cfg, hooks, w, steps); w'.popped == w.popped + [m] && w'.received == w.received + Frame(m)[j..]
    decreases |Frame(m)| - j
  {
    hide Frame, Pop, Next, MostRead, Core.Ok, Run, Sendable;
    var f, l := Frame(m), w.handlers[0];
    if |f| - j <= cfg.block {
      HandlerGets(cfg, hooks, w, m, j);
      steps := [DoIn(Chunk(f[j..]))];
    } else {
      var k := j + cfg.block;
      var c := f[j..k];
      TwoLeft(l, cfg.block, |f| - j);
      CutTwice(w.received, f, j, k);
      assert w.handlers == [l];
      PartialFrameWaits(cfg.maxData, m, [], f[..k], f[k..]);
      HandlerIterates(cfg, hooks, w, c, l);
      steps := [DoIn(Chunk(c)), DoOut];
      var more := HandlerReads(cfg, hooks, Run(cfg, hooks, w, steps), m, k);
      RunAppend(cfg, hooks, w, steps, more);
      steps := steps + more;
    }
  }

  lemma CutTwice(x: seq<byte>, f: seq<byte>, j: nat, k: nat)
    requires j <= k <= |f|
    ensures f[..j] + f[j..k] == f[..k] && f[..k] + f[k..] == f + []
    ensures x + f[j..k] + f[k..] == x + f[j..]
  {
    assert f[j..k] + f[k..] == f[j..];
    Assoc(x, f[j..k], f[k..]);
  }

  lemma TwoLeft(l: nat, block: nat, rest: nat)
    requires rest <= MostRead(l, block) && block < rest
    ensures l >= 2 && rest - block <= MostRead(l - 1, block)
  {
    assert l == 0 ==> MostRead(l, block) == 0;
    if l > 0 {
      OneLess(l, block);
    }
  }

  /** A run in which the handler takes a packet that is not among those the stream holds: the
      first 23 bytes of one with a version out of range arrive, and then a whole good one. */
  lemma HandlerTakes(cfg: Config, hooks: Hooks, version: byte, bad: Msg, good: Msg) returns (steps: seq<Step>)
    requires cfg.Sane() && VersionOk(version) && Unsupported(cfg.maxData, bad) && Sendable(cfg.maxData, good)
    requires |Frame(good)| < cfg.bufMax && |Frame(good)| <= MostRead(hooks.extra, cfg.block)
    ensures Schedule(cfg, steps)
    ensures var w := Reached(cfg, hooks, version, steps);
      && w.received == Frame(bad)[..SMALLEST_FRAME] + Frame(good)
      && w.popped == [good] && Drain(cfg.maxData, w.received).msgs == []
  {
    assert hooks.extra == 0 ==> MostRead(hooks.extra, cfg.block) == 0;
    var b := Frame(bad)[..SMALLEST_FRAME];
    RefusedFirst(cfg.maxData, bad, Frame(good));
    hide Frame, Next, Pop, Run, MostRead, Drain;
    var first := CallHandler(cfg, hooks, version, bad);
    var w := Reached(cfg, hooks, version, first);
    assert Frame(good)[..0] == [] && Frame(good)[0..] == Frame(good) && [] + [good] == [good];
    var more := HandlerReads(cfg, hooks, w, good, 0);
    RunAppend(cfg, hooks, Start(cfg, version), first, more);
    steps := first + more;
  }

  lemma RefusedFirst(max: nat, bad: Msg, later: seq<byte>)
    requires Unsupported(max, bad)
    ensures Drain(max, Frame(bad)[..SMALLEST_FRAME] + later).msgs == []
  {
    hide Frame;
    var b := Frame(bad)[..SMALLEST_FRAME];
    assert b + Frame(bad)[SMALLEST_FRAME..] == Frame(bad) + [];
    PopUnsupported(max, bad, [], b, Frame(bad)[SMALLEST_FRAME..]);
    DrainAppend(max, b, later);
  }

  /** What is taken is a prefix of what the stream holds, in every run, exactly if there is no
      handler for version errors or its iterations cannot read a whole packet. */
  lemma AlwaysPrefixIff(cfg: Config, hooks: Hooks, version: byte)
    requires cfg.Sane() && VersionOk(version) && SMALLEST_FRAME < cfg.bufMax
    ensures AlwaysPrefix(cfg, hooks, version) <==> TooFewIterations(cfg, hooks)
  {
    if TooFewIterations(cfg, hooks) {
      forall steps | Schedule(cfg, steps)
        ensures Prefix(cfg, Reached(cfg, hooks, version, steps))
      {
        PrefixKept(cfg, hooks, version, steps);
      }
    } else {
      var steps := HandlerTakes(cfg, hooks, version, Msg(0, 1, PING_SERVER, []), SMALL);
    }
  }

  /** The iterations of the server's handler. */
  const SERVER_EXTRA: nat := 20

  /** The server's handler can read packets; without it, what is taken always is a prefix. */
  lemma ServerTakesMore(events: bool, version: byte)
    requires VersionOk(version)
    ensures !AlwaysPrefix(SERVER, Hooks(events, SERVER_EXTRA), version)
    ensures AlwaysPrefix(SERVER, Hooks(events, 0), version)
  {
    hide AlwaysPrefix;
    AlwaysPrefixIff(SERVER, Hooks(events, SERVER_EXTRA), version);
    AlwaysPrefixIff(SERVER, Hooks(events, 0), version);
  }

  // ---- how long it goes on -----------------------------------------------------------

  ghost function ClosedTimes(n: nat): seq<Step> { seq(n, _ => DoIn(Closed)) }

  /** The handler ignores how its iterations end, and makes as many as it is set to: with `n`
      to go, it survives fewer failures than `n`, and with the n-th the iteration from which
      it was called fails. */
  lemma {:induction false} HandlerRunsOut(cfg: Config, hooks: Hooks, w: World, n: nat, k: nat)
    requires cfg.Sane() && w.core.Ok(cfg) && w.phase == Idle && w.handlers == [n] && 1 <= k <= n
    ensures Schedule(cfg, ClosedTimes(k))
    ensures var w' := Run(cfg, hooks, w, ClosedTimes(k));
      && w'.failures == w.failures + seq(k, _ => PeerClosed)
      && (if k < n then w'.phase == Idle && w'.handlers == [n - k] else w'.phase == Dead(ParseError(VersionErr)) && w'.handlers == [])
    decreases k
  {
    var one := DoIn(Closed);
    var w1 := HandlerFails(cfg, hooks, w, n);
    FirstClosed(k);
    assert w.failures + [PeerClosed] + seq(k - 1, _ => PeerClosed) == w.failures + seq(k, _ => PeerClosed);
    if k > 1 {
      hide Next, ClosedTimes;
      HandlerRunsOut(cfg, hooks, w1, n - 1, k - 1);
      RunAppend(cfg, hooks, w, [one], ClosedTimes(k - 1));
    }
  }

  lemma FirstClosed(k: nat)
    requires k > 0
    ensures ClosedTimes(k) == [DoIn(Closed)] + ClosedTimes(k - 1)
    ensures k == 1 ==> ClosedTimes(k) == [DoIn(Closed)]
  {
  }

  lemma HandlerFails(cfg: Config, hooks: Hooks, w: World, n: nat) returns (w': World)
    requires cfg.Sane() && w.core.Ok(cfg) && w.phase == Idle && w.handlers == [n] && n >= 1
    ensures Schedule(cfg, [DoIn(Closed)]) && w' == Run(cfg, hooks, w, [DoIn(Closed)])
    ensures w'.failures == w.failures + [PeerClosed]
    ensures if n > 1 then w'.phase == Idle && w'.handlers == [n - 1] else w'.phase == Dead(ParseError(VersionErr)) && w'.handlers == []
  {
    ReadEffect(cfg, hooks, w, Closed);
    RunOne(cfg, hooks, w, DoIn(Closed));
    w' := Run(cfg, hooks, w, [DoIn(Closed)]);
    hide Next, Pop;
  }
}
