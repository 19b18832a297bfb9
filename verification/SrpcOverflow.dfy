/** When the input buffer of `srpc_iterate` can overflow: an iteration reads a block but
    takes a single packet, so a backlog may build up. */
module SrpcOverflow {
  import opened Bytes
  import opened Wire
  import opened Receiver
  import opened Builds
  import opened SrpcSpec
  import opened SrpcRuns
  import opened SrpcInput

  const SMALLEST_FRAME: nat := HEADER_SIZE + TAG_SIZE

  /** No interleaving of calls, reads and fetches ends in an input overflow. */
  ghost predicate IterateNeverOverflows(cfg: Config, hooks: Hooks, version: byte)
    requires cfg.Sane() && VersionOk(version)
  {
    forall steps :: Schedule(cfg, steps) ==> InputOverflow !in Reached(cfg, hooks, version, steps).failures
  }

  /** A block never holds more than the one packet an iteration takes. */
  ghost predicate OnePacketPerBlock(cfg: Config) { cfg.block <= SMALLEST_FRAME }

  // ---- never -------------------------------------------------------------------------

  ghost predicate Short(cfg: Config, w: World) {
    |w.core.input| < cfg.maxFrame && InputOverflow !in w.failures
  }

  lemma PopTakesFrame(max: nat, b: seq<byte>)
    ensures var r := Pop(max, b);
      && (r.Got? ==> |r.rest| + SMALLEST_FRAME <= |b|)
      && (r.NeedMore? ==> |b| < HEADER_SIZE + max + TAG_SIZE)
  {
  }

  /** A block read behind a short input fits, and leaves a short input. */
  lemma InHalfKeepsShort(cfg: Config, c: Core, read: Read)
    requires cfg.Sane() && OnePacketPerBlock(cfg) && RoomForBlock(cfg) && c.Ok(cfg) && StepOk(cfg, DoIn(read))
    requires |c.input| < cfg.maxFrame
    ensures var (c', r) := InHalf(cfg, c, read); |c'.input| < cfg.maxFrame && r != Stop(InputOverflow)
  {
    PopTakesFrame(cfg.maxData, c.input + if read.Chunk? then read.bytes else []);
    hide Pop;
  }

  lemma NextKeepsShort(cfg: Config, hooks: Hooks, w: World, s: Step)
    requires cfg.Sane() && OnePacketPerBlock(cfg) && RoomForBlock(cfg) && w.core.Ok(cfg) && StepOk(cfg, s) && Short(cfg, w)
    ensures Short(cfg, Next(cfg, hooks, w, s))
  {
    hide InHalf, OutHalf, Record, Sent, RoomForBlock, OnePacketPerBlock;
    match s
    case DoIn(read) =>
      if w.phase == Idle {
        var (c, r) := InHalf(cfg, w.core, read);
        InHalfKeepsShort(cfg, w.core, read);
        RecordShape(hooks, w, read, c, r);
      }
    case DoOut =>
      if w.phase.Window? {
        var (c, r) := OutHalf(cfg, w.core, w.phase.raise, hooks.events);
        OutHalfFrame(cfg, w.core, w.phase.raise, hooks.events);
        SentShape(hooks, w, c, r);
      }
    case _ =>
  }

  lemma {:induction false} RunKeepsShort(cfg: Config, hooks: Hooks, w: World, steps: seq<Step>)
    requires cfg.Sane() && OnePacketPerBlock(cfg) && RoomForBlock(cfg)
    requires w.core.Ok(cfg) && Schedule(cfg, steps) && Short(cfg, w)
    ensures Short(cfg, Run(cfg, hooks, w, steps))
    decreases |steps|
  {
    if steps != [] {
      NextKeepsOk(cfg, hooks, w, steps[0]);
      NextKeepsShort(cfg, hooks, w, steps[0]);
      hide Next;
      RunKeepsShort(cfg, hooks, Next(cfg, hooks, w, steps[0]), steps[1..]);
    }
  }

  // ---- rounds ------------------------------------------------------------------------

  /** Between two iterations, everything but the input done with. */
  ghost predicate Calm(cfg: Config, w: World) {
    && w.core.Ok(cfg) && w.phase == Idle && w.handlers == [] && w.failures == []
    && w.core.inQueue == [] && w.core.outQueue == [] && w.core.output == []
  }

  /** One iteration that reads `c`; its callback fetches the packet, if there is one. */
  ghost function Round(c: seq<byte>): seq<Step> { [DoIn(Chunk(c)), DoGet(0), DoOut] }

  ghost predicate RoundDone(cfg: Config, w: World, c: seq<byte>, w': World) {
    var b := w.core.input + c;
    if Allocated(cfg.bufMin, |b|) >= cfg.bufMax then w'.failures == [InputOverflow]
    else w'.received == w.received + c && match Pop(cfg.maxData, b)
      case Got(_, rest) => Calm(cfg, w') && w'.core.input == rest
      case NeedMore => Calm(cfg, w') && w'.core.input == b
      case _ => Refused(w')
  }

  lemma RoundEffect(cfg: Config, hooks: Hooks, w: World, c: seq<byte>)
    requires cfg.Sane() && Calm(cfg, w) && 1 <= |c| <= cfg.block
    ensures Schedule(cfg, Round(c)) && RoundDone(cfg, w, c, Run(cfg, hooks, w, Round(c)))
  {
    var s := Round(c);
    RunThree(cfg, hooks, w, s);
    NextKeepsOk(cfg, hooks, w, s[0]);
    var w1 := Next(cfg, hooks, w, s[0]);
    ReadEffect(cfg, hooks, w, Chunk(c));
    hide Pop, InHalf, Record;
    FetchAll(cfg, hooks, w1);
  }

  /** The callback's fetch, and the outgoing half with nothing to send. */
  lemma FetchAll(cfg: Config, hooks: Hooks, w: World)
    requires w.core.Ok(cfg) && |w.core.inQueue| <= 1 && w.core.outQueue == [] && w.core.output == []
    ensures var w1 := Next(cfg, hooks, w, DoGet(0));
      && w1.core.Ok(cfg)
      && var w2 := Next(cfg, hooks, w1, DoOut);
      && w2.core.Ok(cfg) && w2.failures == w.failures && w2.received == w.received
      && w2.core.input == w.core.input && w2.core.inQueue == [] && w2.core.outQueue == [] && w2.core.output == []
      && (w.phase.Window? && w.handlers == [] ==> w2.phase == Idle && w2.handlers == [])
  {
    NextKeepsOk(cfg, hooks, w, DoGet(0));
    var w1 := Next(cfg, hooks, w, DoGet(0));
    NextKeepsOk(cfg, hooks, w1, DoOut);
    if w.phase.Window? {
      QuietOut(cfg, hooks, w1);
    }
  }

  // ---- a stream of small packets -----------------------------------------------------

  const SMALL := Msg(PROTO_VERSION, 1, PING_SERVER, [])

  /** The first `n` bytes of an endless stream of packets without payload. */
  ghost function Stream(n: nat): (b: seq<byte>)
    ensures |b| == n
  {
    seq(n, i requires 0 <= i => Frame(SMALL)[i % SMALLEST_FRAME])
  }

  lemma StreamFront(n: nat)
    requires n >= SMALLEST_FRAME
    ensures Stream(n) == Frame(SMALL) + Stream(n - SMALLEST_FRAME)
  {
    hide Frame;
    var f, rest := Frame(SMALL), Stream(n - SMALLEST_FRAME);
    forall i | 0 <= i < n
      ensures Stream(n)[i] == (f + rest)[i]
    {
      if i >= SMALLEST_FRAME {
        assert (i - SMALLEST_FRAME) % SMALLEST_FRAME == i % SMALLEST_FRAME;
      }
    }
  }

  lemma StreamSplit(n: nat, m: nat)
    requires n <= m
    ensures Stream(m)[..n] == Stream(n) && Stream(n) + Stream(m)[n..] == Stream(m)
  {
  }

  /** If a block is longer than a small packet, a peer that sends such packets as fast as
      they are read makes the backlog grow by the difference with every iteration. */
  lemma {:induction false} StreamOverflows(cfg: Config, hooks: Hooks, w: World) returns (steps: seq<Step>)
    requires cfg.Sane() && !OnePacketPerBlock(cfg) && Calm(cfg, w) && w.core.input == Stream(|w.core.input|)
    ensures Schedule(cfg, steps) && InputOverflow in Run(cfg, hooks, w, steps).failures
    decreases cfg.bufMax - |w.core.input|
  {
    var n := |w.core.input|;
    var m := n + cfg.block;
    var c := Stream(m)[n..];
    StreamSplit(n, m);
    StreamFront(m);
    PopFrame(cfg.maxData, SMALL, Stream(m - SMALLEST_FRAME));
    RoundEffect(cfg, hooks, w, c);
    hide Pop, Frame, Stream;
    steps := Round(c);
    if Allocated(cfg.bufMin, m) < cfg.bufMax {
      var more := StreamOverflows(cfg, hooks, Run(cfg, hooks, w, steps));
      RunAppend(cfg, hooks, w, steps, more);
      steps := steps + more;
    }
  }

  // ---- a long packet -----------------------------------------------------------------

  /** The bytes of `f` one at a time and then a full block, when that is too much. */
  lemma {:induction false} LongPacketOverflows(cfg: Config, hooks: Hooks, w: World, f: seq<byte>, j: nat)
    returns (steps: seq<Step>)
    requires cfg.Sane() && |f| + cfg.block >= cfg.bufMax && KeepsWaiting(cfg.maxData, f)
    requires Calm(cfg, w) && j <= |f| && w.core.input == f[..j]
    ensures Schedule(cfg, steps) && InputOverflow in Run(cfg, hooks, w, steps).failures
    decreases |f| - j
  {
    hide Pop;
    if j == |f| {
      assert f[..j] == f;
      RoundEffect(cfg, hooks, w, Zeros(cfg.block));
      steps := Round(Zeros(cfg.block));
    } else {
      assert f[..j] + [f[j]] == f[..j + 1];
      RoundEffect(cfg, hooks, w, [f[j]]);
      steps := Round([f[j]]);
      if Allocated(cfg.bufMin, j + 1) < cfg.bufMax {
        var more := LongPacketOverflows(cfg, hooks, Run(cfg, hooks, w, steps), f, j + 1);
        RunAppend(cfg, hooks, w, steps, more);
        steps := steps + more;
      }
    }
  }

  /** Exactly which sizes keep `srpc_iterate` free of input overflow over every interleaving:
      a block no longer than the smallest packet, and room for a block behind a packet that
      lacks its last byte. */
  lemma IterateOverflowDeadIff(cfg: Config, hooks: Hooks, version: byte)
    requires cfg.Sane() && VersionOk(version)
    ensures IterateNeverOverflows(cfg, hooks, version) <==> OnePacketPerBlock(cfg) && RoomForBlock(cfg)
  {
    var w := Start(cfg, version);
    if OnePacketPerBlock(cfg) && RoomForBlock(cfg) {
      forall steps | Schedule(cfg, steps)
        ensures InputOverflow !in Reached(cfg, hooks, version, steps).failures
      {
        RunKeepsShort(cfg, hooks, w, steps);
      }
    } else if !OnePacketPerBlock(cfg) {
      var steps := StreamOverflows(cfg, hooks, w);
      assert InputOverflow in Reached(cfg, hooks, version, steps).failures;
    } else {
      var m := Msg(PROTO_VERSION, 1, 0, Zeros(cfg.maxData));
      var f := Frame(m)[..cfg.maxFrame - 1];
      PartialFrameDrains(cfg.maxData, m);
      var steps := LongPacketOverflows(cfg, hooks, w, f, 0);
      assert InputOverflow in Reached(cfg, hooks, version, steps).failures;
    }
  }

  /** No build that runs `srpc_iterate` with its queues has such sizes. */
  lemma QueuedBuildsCanOverflow(hooks: Hooks, version: byte)
    requires VersionOk(version)
    ensures !IterateNeverOverflows(SERVER, hooks, version)
    ensures !IterateNeverOverflows(ESP8266_SDK, hooks, version)
    ensures !IterateNeverOverflows(ESP32_BARE, hooks, version)
  {
    hide IterateNeverOverflows;
    IterateOverflowDeadIff(SERVER, hooks, version);
    IterateOverflowDeadIff(ESP8266_SDK, hooks, version);
    IterateOverflowDeadIff(ESP32_BARE, hooks, version);
  }
}
