/** What the receive callback is told: it reads the shared packet after the lock has been
    released, so other parties may have been there first. */
module SrpcWindow {
  import opened Bytes
  import opened Wire
  import opened Receiver
  import opened Proto
  import opened PacketQueues
  import opened SrpcSpec
  import opened SrpcRuns
  import opened SrpcInput
  import opened SrpcOverflow

  /** The world after a read. */
  ghost function AfterRead(cfg: Config, hooks: Hooks, w: World, read: Read): (w': World)
    requires w.core.Ok(cfg) && StepOk(cfg, DoIn(read))
    ensures w'.core.Ok(cfg)
  {
    NextKeepsOk(cfg, hooks, w, DoIn(read));
    Next(cfg, hooks, w, DoIn(read))
  }

  /** The read queues a packet, and a callback is due. */
  ghost predicate Gets(cfg: Config, hooks: Hooks, w: World, read: Read)
    requires w.core.Ok(cfg) && StepOk(cfg, DoIn(read))
  {
    w.phase == Idle && |AfterRead(cfg, hooks, w, read).queued| > |w.queued|
  }

  /** What other parties do before the callback reads its arguments: they may set the
      version, and call or fetch if they are allowed to. */
  ghost predicate By(calls: bool, fetches: bool, s: Step) {
    match s
    case DoCall(_, _, _) => calls
    case DoGet(_) => fetches
    case DoSetVersion(_) => true
    case DoIn(_) => true
    case DoOut => false
  }

  ghost predicate AllBy(calls: bool, fetches: bool, steps: seq<Step>) { forall s <- steps :: By(calls, fetches, s) }

  /** After any run, the callback is told of the packet that was just queued, whatever the
      other parties do in the meantime. */
  ghost predicate AlwaysTold(cfg: Config, hooks: Hooks, version: byte, calls: bool, fetches: bool)
    requires cfg.Sane() && VersionOk(version)
  {
    forall steps, read, others ::
      Schedule(cfg, steps) && StepOk(cfg, DoIn(read)) && Schedule(cfg, others) && AllBy(calls, fetches, others) ==>
        Told(cfg, hooks, Reached(cfg, hooks, version, steps), read, others)
  }

  ghost predicate Told(cfg: Config, hooks: Hooks, w: World, read: Read, others: seq<Step>)
    requires cfg.Sane() && w.core.Ok(cfg) && StepOk(cfg, DoIn(read)) && Schedule(cfg, others)
  {
    Gets(cfg, hooks, w, read) ==>
      var w1 := AfterRead(cfg, hooks, w, read);
      w1.queued != [] && Run(cfg, hooks, w1, others).core.sdp == w1.queued[|w1.queued| - 1]
  }

  // ---- told --------------------------------------------------------------------------

  /** The window with the packet just queued in the shared space; if others may fetch, they
      can only fetch that one. */
  ghost predicate WindowOn(fetches: bool, w: World, sdp: Sdp) {
    w.phase.Window? && w.core.sdp == sdp && (fetches ==> AllAre(w.core.inQueue, sdp))
  }

  ghost predicate AllAre(q: seq<Sdp>, sdp: Sdp) { forall i :: 0 <= i < |q| ==> q[i] == sdp }

  lemma WindowOpens(cfg: Config, hooks: Hooks, w: World, read: Read, fetches: bool)
    requires w.core.Ok(cfg) && StepOk(cfg, DoIn(read)) && Gets(cfg, hooks, w, read) && (fetches ==> cfg.queueSize == 1)
    ensures var w1 := AfterRead(cfg, hooks, w, read);
      w1.queued != [] && WindowOn(fetches, w1, w1.queued[|w1.queued| - 1])
  {
    hide InHalf, Record, InPopped;
    var (c, r) := InHalf(cfg, w.core, read);
    InHalfFrame(cfg, w.core, read);
    RecordShape(hooks, w, read, c, r);
    NextKeepsOk(cfg, hooks, w, DoIn(read));
  }

  lemma NextKeepsWindow(cfg: Config, hooks: Hooks, w: World, s: Step, fetches: bool, sdp: Sdp)
    requires w.core.Ok(cfg) && StepOk(cfg, s) && By(false, fetches, s) && WindowOn(fetches, w, sdp)
    ensures WindowOn(fetches, Next(cfg, hooks, w, s), sdp)
  {
    if s.DoGet? {
      TakeSame(w.core.inQueue, s.rrId, sdp);
      hide TakeFirst;
    }
  }

  /** A fetch from a queue of equal packets. */
  lemma {:induction false} TakeSame(q: seq<Sdp>, rrId: u32, sdp: Sdp)
    requires AllAre(q, sdp)
    ensures var t := TakeFirst(q, rrId); t.Took? ==> t.sdp == sdp && AllAre(t.rest, sdp)
    decreases |q|
  {
    if q != [] && !Matches(q[0], rrId) {
      TakeSame(q[1..], rrId, sdp);
    }
  }

  lemma {:induction false} RunKeepsWindow(cfg: Config, hooks: Hooks, w: World, steps: seq<Step>, fetches: bool, sdp: Sdp)
    requires cfg.Sane() && w.core.Ok(cfg) && Schedule(cfg, steps) && AllBy(false, fetches, steps) && WindowOn(fetches, w, sdp)
    ensures WindowOn(fetches, Run(cfg, hooks, w, steps), sdp)
    decreases |steps|
  {
    if steps != [] {
      NextKeepsOk(cfg, hooks, w, steps[0]);
      assert steps[0] in steps;
      NextKeepsWindow(cfg, hooks, w, steps[0], fetches, sdp);
      hide Next, WindowOn;
      RunKeepsWindow(cfg, hooks, Next(cfg, hooks, w, steps[0]), steps[1..], fetches, sdp);
    }
  }

  // ---- misled ------------------------------------------------------------------------

  /** Between two iterations of the main loop, with nothing to send and no input waiting. */
  ghost predicate Resting(cfg: Config, w: World) {
    && w.core.Ok(cfg) && w.phase == Idle && w.handlers == []
    && w.core.input == [] && w.core.output == [] && w.core.outQueue == []
  }

  /** A packet arrives whole but for its last byte. */
  lemma ArrivePacket(cfg: Config, hooks: Hooks, w: World, m: Msg) returns (steps: seq<Step>, read: Read)
    requires cfg.Sane() && Resting(cfg, w) && Sendable(cfg.maxData, m) && |Frame(m)| < cfg.bufMax
    requires |w.core.inQueue| < cfg.queueSize
    ensures Schedule(cfg, steps) && StepOk(cfg, DoIn(read))
    ensures var w1 := Run(cfg, hooks, w, steps);
      && w1.phase == Idle && w1.queued == w.queued
      && var w2 := AfterRead(cfg, hooks, w1, read);
      && w2.phase.Window? && w2.handlers == [] && w2.core.input == [] && w2.core.output == [] && w2.core.outQueue == []
      && w2.core.sdp.Message() == m && w2.queued == w.queued + [w2.core.sdp]
      && w2.core.inQueue == w.core.inQueue + [w2.core.sdp]
  {
    var n := |Frame(m)| - 1;
    var f, last := Frame(m)[..n], Frame(m)[n..];
    PartialFrameDrains(cfg.maxData, m);
    steps := Arrive(cfg, hooks, w, f, 0);
    read := Chunk(last);
    var w1 := Run(cfg, hooks, w, steps);
    assert f + last == Frame(m) == Frame(m) + [];
    PopFrame(cfg.maxData, m, []);
    ReadEffect(cfg, hooks, w1, Chunk(last));
    hide Frame, Pop, Next;
  }

  /** The callback that is due neither fetches its packet nor anything else. */
  lemma LeaveQueued(cfg: Config, hooks: Hooks, w: World, steps: seq<Step>, read: Read) returns (all: seq<Step>)
    requires cfg.Sane() && w.core.Ok(cfg) && Schedule(cfg, steps) && StepOk(cfg, DoIn(read))
    requires var w2 := AfterRead(cfg, hooks, Run(cfg, hooks, w, steps), read);
      w2.phase.Window? && w2.handlers == [] && w2.core.output == [] && w2.core.outQueue == []
    ensures Schedule(cfg, all)
    ensures Run(cfg, hooks, w, all) == AfterRead(cfg, hooks, Run(cfg, hooks, w, steps), read).(phase := Idle)
  {
    var w1 := Run(cfg, hooks, w, steps);
    all := steps + [DoIn(read), DoOut];
    RunAppend(cfg, hooks, w, steps, [DoIn(read), DoOut]);
    RunTwo(cfg, hooks, w1, [DoIn(read), DoOut]);
    QuietOut(cfg, hooks, AfterRead(cfg, hooks, w1, read));
    hide InHalf, OutHalf, Record, Sent;
  }

  /** A fetch by another party shows the callback an older packet. */
  lemma MisledByFetch(cfg: Config, hooks: Hooks, version: byte)
    requires cfg.Sane() && VersionOk(version) && SMALLEST_FRAME < cfg.bufMax && cfg.queueSize > 1
    ensures !AlwaysTold(cfg, hooks, version, false, true)
  {
    var a, b := Msg(PROTO_VERSION, 1, PING_SERVER, []), Msg(PROTO_VERSION, 2, PING_SERVER, []);
    var w := Start(cfg, version);
    var steps, read := ArrivePacket(cfg, hooks, w, a);
    var older := AfterRead(cfg, hooks, Run(cfg, hooks, w, steps), read).core.sdp;
    var first := LeaveQueued(cfg, hooks, w, steps, read);
    var w1 := Run(cfg, hooks, w, first);
    var second, last := ArrivePacket(cfg, hooks, w1, b);
    RunAppend(cfg, hooks, w, first, second);
    hide Next, Frame, Pop;
    var w2 := Reached(cfg, hooks, version, first + second);
    assert w2 == Run(cfg, hooks, w1, second);
    FetchOlder(cfg, hooks, AfterRead(cfg, hooks, w2, last), older);
    assert !Told(cfg, hooks, w2, last, [DoGet(0)]);
    assert AllBy(false, true, [DoGet(0)]);
  }

  lemma FetchOlder(cfg: Config, hooks: Hooks, w: World, older: Sdp)
    requires cfg.Sane() && w.core.Ok(cfg) && w.core.inQueue != [] && w.core.inQueue[0] == older
    ensures Run(cfg, hooks, w, [DoGet(0)]).core.sdp == older
  {
    NextKeepsOk(cfg, hooks, w, DoGet(0));
    var w' := Next(cfg, hooks, w, DoGet(0));
    assert [DoGet(0)][1..] == [] && Run(cfg, hooks, w', []) == w';
  }

  /** A call by another party shows the callback that call. */
  lemma MisledByCall(cfg: Config, hooks: Hooks, version: byte, fetches: bool)
    requires cfg.Sane() && VersionOk(version) && SMALLEST_FRAME < cfg.bufMax
    ensures !AlwaysTold(cfg, hooks, version, true, fetches)
  {
    var m, call := Msg(PROTO_VERSION, 1, 0, []), DoCall(PING_SERVER, [], None);
    var steps, read := ArrivePacket(cfg, hooks, Start(cfg, version), m);
    var w := Reached(cfg, hooks, version, steps);
    var w1 := AfterRead(cfg, hooks, w, read);
    NextKeepsOk(cfg, hooks, w1, call);
    var w2 := Next(cfg, hooks, w1, call);
    assert [call][1..] == [] && Run(cfg, hooks, w2, []) == w2;
    assert w2.core.sdp.callId == PING_SERVER && w1.core.sdp.Message().callId == 0;
    assert !Told(cfg, hooks, w, read, [call]);
    assert AllBy(true, fetches, [call]);
  }

  /** The callback is always told of the packet just queued exactly if nobody else calls in
      the meantime, and nobody else fetches unless the incoming queue has a single slot. */
  lemma AlwaysToldIff(cfg: Config, hooks: Hooks, version: byte, calls: bool, fetches: bool)
    requires cfg.Sane() && VersionOk(version) && SMALLEST_FRAME < cfg.bufMax
    ensures AlwaysTold(cfg, hooks, version, calls, fetches) <==> !calls && (fetches ==> cfg.queueSize == 1)
  {
    if calls {
      MisledByCall(cfg, hooks, version, fetches);
    } else if fetches && cfg.queueSize > 1 {
      MisledByFetch(cfg, hooks, version);
    } else {
      forall steps, read, others |
        Schedule(cfg, steps) && StepOk(cfg, DoIn(read)) && Schedule(cfg, others) && AllBy(calls, fetches, others)
        ensures Told(cfg, hooks, Reached(cfg, hooks, version, steps), read, others)
      {
        var w := Reached(cfg, hooks, version, steps);
        if Gets(cfg, hooks, w, read) {
          var w1 := AfterRead(cfg, hooks, w, read);
          WindowOpens(cfg, hooks, w, read, fetches);
          RunKeepsWindow(cfg, hooks, w1, others, fetches, w1.queued[|w1.queued| - 1]);
        }
      }
    }
  }
}
