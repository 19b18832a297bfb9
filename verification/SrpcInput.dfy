/** The receiving side of every run, the wake-up guarantee, and request ids. */
module SrpcInput {
  import opened Bytes
  import opened Wire
  import opened Receiver
  import opened Proto
  import opened SrpcSpec
  import opened SrpcRuns

  // ---- input -------------------------------------------------------------------------

  /** The first failure was the parser's. */
  ghost predicate Refused(w: World) { w.failures != [] && w.failures[0].ParseError? }

  /** Until an iteration fails, the packets popped and what the input buffer still holds
      account for the whole byte stream received. Where the stream cannot be parsed, all
      packets in front have been popped; what a handler's iterations pop comes behind them. */
  ghost predicate InputOk(cfg: Config, w: World) {
    var all := Drain(cfg.maxData, w.received);
    if Refused(w) then all.end.Failed? && all.msgs <= w.popped && w.failures[0].result == Refusal(all.end.error)
    else all == Drain(cfg.maxData, w.core.input).After(w.popped)
  }

  /** An iteration that announces no more input left no complete packet in the buffer; one
      that does has left some bytes. */
  ghost predicate WindowOk(cfg: Config, w: World) {
    && (w.phase == Window(false) ==> Pop(cfg.maxData, w.core.input).NeedMore?)
    && (w.phase == Window(true) ==> w.core.input != [])
  }

  /** Only a handler goes on after a failure, and only a version error calls one. */
  ghost predicate FailuresOk(w: World) {
    && (w.failures == [] ==> !w.phase.Dead? && w.handlers == [])
    && (w.failures != [] ==> w.phase.Dead? || (w.handlers != [] && w.failures[0] == ParseError(VersionErr)))
    && (w.phase == Idle && w.handlers != [] ==> w.handlers[|w.handlers| - 1] > 0)
  }

  /** Packets put on the incoming queue are fetched or still there. Of the packets popped only
      those are not put there that found the queue full, each of which failed an iteration. */
  ghost predicate QueueOk(w: World) { Accounted(w.popped, w.queued, w.fetched, w.core.inQueue, w.failures) }

  ghost predicate Accounted(popped: seq<Msg>, queued: seq<Sdp>, fetched: seq<Sdp>, inQueue: seq<Sdp>, failures: seq<Cause>) {
    && multiset(queued) == multiset(fetched) + multiset(inQueue)
    && multiset(Msgs(queued)) <= multiset(popped)
    && |popped| == |queued| + multiset(failures)[InQueueFull]
    && (InQueueFull !in failures ==> Msgs(queued) == popped)
  }

  lemma AccountQueued(popped: seq<Msg>, queued: seq<Sdp>, fetched: seq<Sdp>, inQueue: seq<Sdp>, failures: seq<Cause>, sdp: Sdp)
    requires Accounted(popped, queued, fetched, inQueue, failures)
    ensures Accounted(popped + [sdp.Message()], queued + [sdp], fetched, inQueue + [sdp], failures)
  {
    assert Msgs(queued + [sdp]) == Msgs(queued) + [sdp.Message()];
  }

  lemma AccountFailed(popped: seq<Msg>, queued: seq<Sdp>, fetched: seq<Sdp>, inQueue: seq<Sdp>, failures: seq<Cause>, cause: Cause, m: Msg)
    requires Accounted(popped, queued, fetched, inQueue, failures)
    ensures Accounted(if cause == InQueueFull then popped + [m] else popped, queued, fetched, inQueue, failures + [cause])
  {
    assert (failures + [cause])[|failures|] == cause;
  }

  lemma DrainMore(max: nat, received: seq<byte>, input: seq<byte>, popped: seq<Msg>, x: seq<byte>)
    requires Drain(max, received) == Drain(max, input).After(popped)
    ensures Drain(max, received + x) == Drain(max, input + x).After(popped)
  {
    DrainAppend(max, received, x);
    DrainAppend(max, input, x);
    var d := Drain(max, input);
    if d.end.Waiting? {
      AfterAfter(Drain(max, d.end.residue + x), d.msgs, popped);
    }
  }

  lemma OverKeepsFailuresOk(w: World)
    requires w.handlers != [] ==> w.failures != [] && w.failures[0] == ParseError(VersionErr)
    requires w.handlers == [] ==> w.failures == []
    ensures FailuresOk(Over(w))
  {
    hide Returned;
  }

  lemma FailKeepsFailuresOk(hooks: Hooks, w: World, cause: Cause)
    requires w.handlers != [] ==> w.failures != [] && w.failures[0] == ParseError(VersionErr)
    requires w.handlers == [] ==> w.failures == []
    ensures FailuresOk(Fail(hooks, w, cause))
  {
    hide Returned;
    assert w.failures == [] ==> (w.failures + [cause])[0] == cause;
  }

  lemma NextKeepsFailuresOk(cfg: Config, hooks: Hooks, w: World, s: Step)
    requires w.core.Ok(cfg) && StepOk(cfg, s) && FailuresOk(w)
    ensures FailuresOk(Next(cfg, hooks, w, s))
  {
    hide InHalf, OutHalf, Call, GetData, Fail, Over;
    match s
    case DoIn(read) =>
      if w.phase == Idle {
        var (c, r) := InHalf(cfg, w.core, read);
        var got := r == Stop(InQueueFull) || (r.Proceed? && r.got);
        if r.Stop? {
          FailKeepsFailuresOk(hooks,
            w.(core := c, handlers := Begun(w.handlers),
               received := if read.Chunk? && r != Stop(InputOverflow) then w.received + read.bytes else w.received,
               popped := if got then w.popped + [c.sdp.Message()] else w.popped), r.cause);
        }
      }
    case DoOut =>
      if w.phase.Window? {
        var (c, r) := OutHalf(cfg, w.core, w.phase.raise, hooks.events);
        var v := w.(core := c, written := w.written + r.written);
        OverKeepsFailuresOk(v);
        FailKeepsFailuresOk(hooks, v, OutputOverflow);
      }
    case _ =>
  }

  /** A refused stream stays refused, with the same packets in front. */
  lemma StaysRefused(cfg: Config, hooks: Hooks, w: World, read: Read)
    requires w.core.Ok(cfg) && StepOk(cfg, DoIn(read)) && w.phase == Idle && Refused(w) && InputOk(cfg, w)
    ensures InputOk(cfg, Next(cfg, hooks, w, DoIn(read)))
  {
    var (c, r) := InHalf(cfg, w.core, read);
    RecordShape(hooks, w, read, c, r);
    hide Drain, InHalf, Record;
    if read.Chunk? {
      DrainAppend(cfg.maxData, w.received, read.bytes);
    }
  }

  lemma DispatchKeepsInputOk(cfg: Config, hooks: Hooks, w: World, read: Read, c: Core, result: Result)
    requires w.failures == [] && w.handlers == []
    requires var all := Drain(cfg.maxData, if read.Chunk? then w.received + read.bytes else w.received);
      match result
      case True => all == Drain(cfg.maxData, c.input).After(w.popped + [c.sdp.Message()])
      case False => all == Drain(cfg.maxData, c.input).After(w.popped) && Pop(cfg.maxData, c.input).NeedMore?
      case _ => all.msgs == w.popped && all.end.Failed? && result == Refusal(all.end.error)
    ensures var (c', r) := Dispatch(cfg, c, result); InputOk(cfg, Record(hooks, w, read, c', r))
  {
    hide Drain;
  }

  lemma InHalfKeepsInputOk(cfg: Config, hooks: Hooks, w: World, read: Read)
    requires cfg.Sane() && w.core.Ok(cfg) && w.phase == Idle && FailuresOk(w) && InputOk(cfg, w) && StepOk(cfg, DoIn(read))
    ensures InputOk(cfg, Next(cfg, hooks, w, DoIn(read)))
  {
    hide InPopped, Drain, Dispatch;
    if Refused(w) {
      StaysRefused(cfg, hooks, w, read);
    } else if !read.Closed? && (read.Chunk? ==> Allocated(cfg.bufMin, |w.core.input| + |read.bytes|) < cfg.bufMax) {
      var x := if read.Chunk? then read.bytes else [];
      DrainMore(cfg.maxData, w.received, w.core.input, w.popped, x);
      assert w.received + [] == w.received;
      var b := w.core.input + x;
      var (result, rest, next) := InPopped(cfg, b, w.core.sdp);
      PopAfter(cfg, b, w.core.sdp, w.popped);
      DispatchKeepsInputOk(cfg, hooks, w, read, w.core.(input := rest, sdp := next), result);
      hide Record, InputOk;
    } else {
      RecordShape(hooks, w, read, w.core, Stop(if read.Closed? then PeerClosed else InputOverflow));
      hide Record;
    }
  }

  lemma InHalfKeepsWindowOk(cfg: Config, hooks: Hooks, w: World, read: Read)
    requires cfg.Sane() && w.core.Ok(cfg) && w.phase == Idle && StepOk(cfg, DoIn(read))
    ensures WindowOk(cfg, Next(cfg, hooks, w, DoIn(read)))
  {
    var b := w.core.input + if read.Chunk? then read.bytes else [];
    PopStep(cfg, b, w.core.sdp);
    var (c, r) := InHalf(cfg, w.core, read);
    RecordShape(hooks, w, read, c, r);
    hide InPopped, Pop, Drain, Record;
  }

  lemma InHalfKeepsQueueOk(cfg: Config, hooks: Hooks, w: World, read: Read)
    requires cfg.Sane() && w.core.Ok(cfg) && w.phase == Idle && QueueOk(w) && StepOk(cfg, DoIn(read))
    ensures QueueOk(Next(cfg, hooks, w, DoIn(read)))
  {
    hide InHalf, Record, Accounted;
    var (c, r) := InHalf(cfg, w.core, read);
    RecordShape(hooks, w, read, c, r);
    InHalfFrame(cfg, w.core, read);
    AccountQueued(w.popped, w.queued, w.fetched, w.core.inQueue, w.failures, c.sdp);
    if r.Stop? {
      AccountFailed(w.popped, w.queued, w.fetched, w.core.inQueue, w.failures, r.cause, c.sdp.Message());
    }
  }

  lemma GetKeepsInputOk(cfg: Config, hooks: Hooks, w: World, rrId: u32)
    requires w.core.Ok(cfg) && InputOk(cfg, w) && WindowOk(cfg, w) && QueueOk(w)
    ensures var w' := Next(cfg, hooks, w, DoGet(rrId)); InputOk(cfg, w') && WindowOk(cfg, w') && QueueOk(w')
  {
    hide Drain, Pop;
    TakeFirstKeepsReady(w.core.inQueue, rrId, cfg.maxData);
  }

  lemma OutKeepsInputOk(cfg: Config, hooks: Hooks, w: World)
    requires w.core.Ok(cfg) && FailuresOk(w) && InputOk(cfg, w) && WindowOk(cfg, w) && QueueOk(w)
    ensures var w' := Next(cfg, hooks, w, DoOut); InputOk(cfg, w') && WindowOk(cfg, w') && QueueOk(w')
  {
    if w.phase.Window? {
      var (c, r) := OutHalf(cfg, w.core, w.phase.raise, hooks.events);
      SentShape(hooks, w, c, r);
      OutHalfFrame(cfg, w.core, w.phase.raise, hooks.events);
      AccountFailed(w.popped, w.queued, w.fetched, w.core.inQueue, w.failures, OutputOverflow, Msg(0, 0, 0, []));
      hide Drain, Pop, OutHalf, Sent, Accounted;
    }
  }

  /** What every step keeps of the receiving side. */
  ghost predicate ReceiveOk(cfg: Config, w: World) {
    FailuresOk(w) && InputOk(cfg, w) && WindowOk(cfg, w) && QueueOk(w)
  }

  lemma NextKeepsInputOk(cfg: Config, hooks: Hooks, w: World, s: Step)
    requires cfg.Sane() && w.core.Ok(cfg) && StepOk(cfg, s) && ReceiveOk(cfg, w)
    ensures ReceiveOk(cfg, Next(cfg, hooks, w, s))
  {
    hide Drain, Pop, InPopped;
    NextKeepsFailuresOk(cfg, hooks, w, s);
    match s
    case DoCall(_, _, _) =>
    case DoSetVersion(_) =>
    case DoIn(read) =>
      if w.phase == Idle {
        InHalfKeepsInputOk(cfg, hooks, w, read);
        InHalfKeepsWindowOk(cfg, hooks, w, read);
        InHalfKeepsQueueOk(cfg, hooks, w, read);
        hide Next;
      }
    case DoOut =>
      OutKeepsInputOk(cfg, hooks, w);
      hide Next;
    case DoGet(rrId) =>
      GetKeepsInputOk(cfg, hooks, w, rrId);
      hide Next;
  }

  lemma {:induction false} RunKeepsInputOk(cfg: Config, hooks: Hooks, w: World, steps: seq<Step>)
    requires cfg.Sane() && w.core.Ok(cfg) && Schedule(cfg, steps) && ReceiveOk(cfg, w)
    ensures ReceiveOk(cfg, Run(cfg, hooks, w, steps))
    decreases |steps|
  {
    if steps != [] {
      NextKeepsOk(cfg, hooks, w, steps[0]);
      NextKeepsInputOk(cfg, hooks, w, steps[0]);
      hide Next, ReceiveOk;
      RunKeepsInputOk(cfg, hooks, Next(cfg, hooks, w, steps[0]), steps[1..]);
    }
  }

  /** The world reached from the start by some schedule. */
  ghost function Reached(cfg: Config, hooks: Hooks, version: byte, steps: seq<Step>): (w: World)
    requires cfg.Sane() && VersionOk(version) && Schedule(cfg, steps)
    ensures w.core.Ok(cfg)
  {
    Run(cfg, hooks, Start(cfg, version), steps)
  }

  /** Over every interleaving: up to the first parse error the packets popped are a prefix of
      what the byte stream holds, and at it they are all of it; nothing disappears between
      parser, incoming queue and consumer, but for packets that find the queue full. */
  lemma InputConserved(cfg: Config, hooks: Hooks, version: byte, steps: seq<Step>)
    requires cfg.Sane() && VersionOk(version) && Schedule(cfg, steps)
    ensures var w := Reached(cfg, hooks, version, steps);
      && ReceiveOk(cfg, w)
      && var all := Drain(cfg.maxData, w.received).msgs;
      if Refused(w) then all <= w.popped else w.popped <= all
  {
    var s := Start(cfg, version);
    assert Drain(cfg.maxData, []).After([]) == Drain(cfg.maxData, []);
    RunKeepsInputOk(cfg, hooks, s, steps);
  }

  // ---- wake-ups ----------------------------------------------------------------------

  /** No lost wake-up: an iteration that returns TRUE to a caller with an event handler has
      raised an event, or nothing is left to do: no complete packet in the input buffer, and
      outgoing queue and buffer empty. It raises one only for something left: bytes in a
      buffer or packets to send. */
  lemma NoLostWakeUp(cfg: Config, hooks: Hooks, version: byte, steps: seq<Step>)
    requires cfg.Sane() && VersionOk(version) && Schedule(cfg, steps)
    ensures var w := Reached(cfg, hooks, version, steps);
      w.phase.Window? ==>
        var (c, r) := OutHalf(cfg, w.core, w.phase.raise, hooks.events);
        r.ok ==>
          && (hooks.events && !r.raised ==> Pop(cfg.maxData, c.input).NeedMore? && c.output == [] && c.outQueue == [])
          && (r.raised ==> hooks.events && (c.input != [] || c.output != [] || c.outQueue != []))
  {
    hide Drain, Pop, OutAppended, QueueOk, InputOk, FailuresOk;
    InputConserved(cfg, hooks, version, steps);
  }

  // ---- reads of a closed connection --------------------------------------------------

  /** How often an iteration read a connection the peer had closed. */
  ghost function ClosedReads(cfg: Config, hooks: Hooks, w: World, steps: seq<Step>): nat
    requires cfg.Sane() && w.core.Ok(cfg) && Schedule(cfg, steps)
    decreases |steps|
  {
    if steps == [] then 0
    else
      NextKeepsOk(cfg, hooks, w, steps[0]);
      (if w.phase == Idle && steps[0] == DoIn(Closed) then 1 else 0)
      + ClosedReads(cfg, hooks, Next(cfg, hooks, w, steps[0]), steps[1..])
  }

  /** A read of a closed connection fails the iteration and changes nothing else: without a
      handler in progress the connection ends. */
  lemma ClosedReadFails(cfg: Config, hooks: Hooks, w: World)
    requires cfg.Sane() && w.core.Ok(cfg) && w.phase == Idle
    ensures var w' := Next(cfg, hooks, w, DoIn(Closed));
      && w' == w.(phase := w'.phase, handlers := w'.handlers, failures := w.failures + [PeerClosed])
      && (w.handlers == [] ==> w'.phase == Dead(PeerClosed) && w'.handlers == [])
  {
    ReadEffect(cfg, hooks, w, Closed);
    hide Pop, Next;
  }

  lemma NextCountsClosed(cfg: Config, hooks: Hooks, w: World, s: Step)
    requires cfg.Sane() && w.core.Ok(cfg) && StepOk(cfg, s)
    ensures multiset(Next(cfg, hooks, w, s).failures)[PeerClosed] ==
            multiset(w.failures)[PeerClosed] + if w.phase == Idle && s == DoIn(Closed) then 1 else 0
  {
    match s
    case DoIn(read) =>
      if w.phase == Idle {
        ReadEffect(cfg, hooks, w, read);
        hide Pop, Next;
      }
    case DoOut =>
      if w.phase.Window? {
        var (c, r) := OutHalf(cfg, w.core, w.phase.raise, hooks.events);
        SentShape(hooks, w, c, r);
        hide OutHalf, Sent;
      }
    case _ =>
  }

  /** In every run the iterations that failed because the peer had closed are exactly those
      that read a closed connection. */
  lemma {:induction false} ClosedReadsCounted(cfg: Config, hooks: Hooks, w: World, steps: seq<Step>)
    requires cfg.Sane() && w.core.Ok(cfg) && Schedule(cfg, steps)
    ensures multiset(Run(cfg, hooks, w, steps).failures)[PeerClosed] ==
            multiset(w.failures)[PeerClosed] + ClosedReads(cfg, hooks, w, steps)
    decreases |steps|
  {
    if steps != [] {
      NextKeepsOk(cfg, hooks, w, steps[0]);
      NextCountsClosed(cfg, hooks, w, steps[0]);
      hide Next;
      ClosedReadsCounted(cfg, hooks, Next(cfg, hooks, w, steps[0]), steps[1..]);
    }
  }

  // ---- request ids -------------------------------------------------------------------

  const ID_COUNT: int := TWO_32 - 1

  /** The id of the `n`-th call. */
  ghost function IdAfter(n: nat): u32 { if n == 0 then 0 else NextId(IdAfter(n - 1)) }

  /** How often the counter has passed 2^32 - 1 by the `n`-th call. */
  lemma {:induction false} IdRounds(n: nat) returns (q: nat)
    requires n >= 1
    ensures n == q * ID_COUNT + IdAfter(n) && 1 <= IdAfter(n) <= ID_COUNT
  {
    if n == 1 {
      q := 0;
      assert IdAfter(0) == 0;
    } else {
      q := IdRounds(n - 1);
      if IdAfter(n - 1) == ID_COUNT {
        q := q + 1;
      }
    }
  }

  /** The `n`-th id in closed form. */
  lemma IdClosedForm(n: nat)
    requires n >= 1
    ensures IdAfter(n) == (n - 1) % ID_COUNT + 1
  {
    var q := IdRounds(n);
    var p, r := (n - 1) / ID_COUNT, (n - 1) % ID_COUNT;
    var d := IdAfter(n) - 1 - r;
    assert n - 1 == p * ID_COUNT + r;
    if d > 0 {
      NoMultiple(p - q, d);
    } else if d < 0 {
      NoMultiple(q - p, -d);
    }
  }

  /** Ids are never 0, and within 2^32 - 1 consecutive calls they are all different. */
  lemma IdsDistinct(i: nat, j: nat)
    requires 1 <= i < j < i + ID_COUNT
    ensures IdAfter(i) != 0 && IdAfter(j) != 0 && IdAfter(i) != IdAfter(j)
  {
    hide IdAfter;
    var p := IdRounds(i);
    var q := IdRounds(j);
    NoMultiple(q - p, j - i);
  }

  lemma NoMultiple(k: int, d: int)
    requires 0 < d < ID_COUNT
    ensures d != k * ID_COUNT
  {
  }

  /** The counter tells how many calls were made; every accepted packet carries the id of
      the call it was. */
  ghost predicate IdsOk(w: World) { Numbered(w.core.nextId, w.calls, w.accepted, w.acceptedAt) }

  ghost predicate Numbered(nextId: u32, calls: nat, accepted: seq<Sdp>, acceptedAt: seq<nat>) {
    && nextId == IdAfter(calls)
    && |acceptedAt| == |accepted|
    && (forall i :: 0 <= i < |accepted| ==> 1 <= acceptedAt[i] <= calls)
    && (forall i :: 0 <= i < |accepted| ==> accepted[i].rrId == IdAfter(acceptedAt[i]))
    && (forall i, j :: 0 <= i < j < |accepted| ==> acceptedAt[i] < acceptedAt[j])
  }

  lemma CallNumbered(nextId: u32, calls: nat, accepted: seq<Sdp>, acceptedAt: seq<nat>, sdp: Sdp)
    requires Numbered(nextId, calls, accepted, acceptedAt) && sdp.rrId == NextId(nextId)
    ensures Numbered(sdp.rrId, calls + 1, accepted, acceptedAt)
    ensures Numbered(sdp.rrId, calls + 1, accepted + [sdp], acceptedAt + [calls + 1])
  {
    assert IdAfter(calls + 1) == NextId(IdAfter(calls));
    hide NextId;
  }

  lemma NextKeepsIdsOk(cfg: Config, hooks: Hooks, w: World, s: Step)
    requires w.core.Ok(cfg) && StepOk(cfg, s) && IdsOk(w)
    ensures IdsOk(Next(cfg, hooks, w, s))
  {
    match s {
      case DoIn(read) =>
        if w.phase == Idle {
          var (c, r) := InHalf(cfg, w.core, read);
          InHalfFrame(cfg, w.core, read);
          RecordShape(hooks, w, read, c, r);
        }
      case DoOut =>
        if w.phase.Window? {
          var (c, r) := OutHalf(cfg, w.core, w.phase.raise, hooks.events);
          OutHalfFrame(cfg, w.core, w.phase.raise, hooks.events);
          SentShape(hooks, w, c, r);
        }
      case DoCall(callId, data, version) =>
        CallNumbered(w.core.nextId, w.calls, w.accepted, w.acceptedAt, Call(cfg, w.core, callId, data, version).0.sdp);
      case _ =>
    }
    hide InHalf, OutHalf, Record, Sent, NextId, Numbered;
  }

  lemma {:induction false} RunKeepsIdsOk(cfg: Config, hooks: Hooks, w: World, steps: seq<Step>)
    requires cfg.Sane() && w.core.Ok(cfg) && Schedule(cfg, steps) && IdsOk(w)
    ensures IdsOk(Run(cfg, hooks, w, steps))
    decreases |steps|
  {
    if steps != [] {
      NextKeepsOk(cfg, hooks, w, steps[0]);
      NextKeepsIdsOk(cfg, hooks, w, steps[0]);
      RunKeepsIdsOk(cfg, hooks, Next(cfg, hooks, w, steps[0]), steps[1..]);
    }
  }

  /** After every run: accepted packets never carry id 0, which means failure, and any two
      accepted within 2^32 - 1 consecutive calls have different ids. */
  lemma AcceptedIdsDistinct(cfg: Config, hooks: Hooks, version: byte, steps: seq<Step>, i: nat, j: nat)
    requires cfg.Sane() && VersionOk(version) && Schedule(cfg, steps)
    requires var w := Reached(cfg, hooks, version, steps);
      i < j < |w.accepted| && |w.acceptedAt| == |w.accepted| && w.acceptedAt[j] - w.acceptedAt[i] < ID_COUNT
    ensures var a := Reached(cfg, hooks, version, steps).accepted;
      a[i].rrId != 0 && a[j].rrId != 0 && a[i].rrId != a[j].rrId
  {
    RunKeepsIdsOk(cfg, hooks, Start(cfg, version), steps);
    var w := Reached(cfg, hooks, version, steps);
    IdsDistinct(w.acceptedAt[i], w.acceptedAt[j]);
  }
}
