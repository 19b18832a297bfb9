/** `srpc.c` as a state machine. Each step is one lock-protected region: a call, either half
    of an iteration, or a pop from the incoming queue; between the halves of an iteration
    (the callback window) any other step may run. */
module SrpcSpec {
  import opened Bytes
  import opened Wire
  import opened Receiver
  import opened Proto
  import opened PacketQueues

  /** The state behind the lock; `sdp` is the packet all regions share as scratch space. */
  datatype Core = Core(nextId: u32, version: byte, input: seq<byte>, output: seq<byte>,
                       inQueue: seq<Sdp>, outQueue: seq<Sdp>, sdp: Sdp)
  {
    ghost predicate Ok(cfg: Config) {
      && sdp.Fits(cfg.maxData)
      && VersionOk(version)
      && |inQueue| <= cfg.queueSize && |outQueue| <= cfg.queueSize
      && (forall s <- inQueue :: s.Ready(cfg.maxData))
      && (forall s <- outQueue :: s.Ready(cfg.maxData))
    }
  }

  /** What `data_read` reports. */
  datatype Read = Closed | NothingYet | Chunk(bytes: seq<byte>)

  datatype Cause = PeerClosed | InputOverflow | ParseError(result: Result) | InQueueFull | OutputOverflow

  /** How the incoming half ends: the iteration fails, or the callback window opens. */
  datatype InResult = Stop(cause: Cause) | Proceed(got: bool, raise: bool)

  /** `srpc_async__call` from the lock on; returns the new state and the result. */
  ghost function Call(cfg: Config, c: Core, callId: u32, data: seq<byte>, version: Option<byte>): (Core, u32)
    requires |data| < TWO_32
  {
    var id := NextId(c.nextId);
    var blank := Fresh(cfg.maxData, if version.Some? then version.value else c.version, id);
    var sdp := WithData(cfg.maxData, blank, data, callId);
    var c' := c.(nextId := id, sdp := sdp);
    if |data| <= cfg.maxData && |c.outQueue| < cfg.queueSize
    then (c'.(outQueue := c.outQueue + [sdp]), id)
    else (c', 0)
  }

  /** What the incoming half does with the outcome of the parser. */
  ghost function Dispatch(cfg: Config, c: Core, result: Result): (Core, InResult) {
    if result == True then
      if |c.inQueue| < cfg.queueSize
      then (c.(inQueue := c.inQueue + [c.sdp]), Proceed(true, c.input != []))
      else (c, Stop(InQueueFull))
    else if result == False then (c, Proceed(false, false))
    else (c, Stop(ParseError(result)))
  }

  /** The incoming half of `srpc_iterate`. */
  ghost function InHalf(cfg: Config, c: Core, read: Read): (Core, InResult)
    requires c.Ok(cfg)
  {
    if read.Closed? then (c, Stop(PeerClosed))
    else
      var bytes := if read.Chunk? then read.bytes else [];
      if read.Chunk? && Allocated(cfg.bufMin, |c.input| + |bytes|) >= cfg.bufMax then (c, Stop(InputOverflow))
      else
        var (result, input, sdp) := InPopped(cfg, c.input + bytes, c.sdp);
        Dispatch(cfg, c.(input := input, sdp := sdp), result)
  }

  datatype OutResult = OutResult(ok: bool, written: seq<byte>, raised: bool)

  /** The outgoing half of `srpc_iterate` after the append, which left `output`. */
  ghost function Emit(cfg: Config, c: Core, result: Result, output: seq<byte>, raise: bool, hasEvents: bool): (Core, OutResult) {
    if result != True && result != False then (c.(output := output), OutResult(false, [], false))
    else
      var n := Min(cfg.block, |output|);
      var c' := c.(output := output[n..]);
      (c', OutResult(true, output[..n], hasEvents && (c'.output != [] || c'.outQueue != [] || raise)))
  }

  /** The outgoing half of `srpc_iterate`. */
  ghost function OutHalf(cfg: Config, c: Core, raise: bool, hasEvents: bool): (Core, OutResult)
    requires c.Ok(cfg)
  {
    match TakeFirst(c.outQueue, 0)
    case Nothing => Emit(cfg, c, False, c.output, raise, hasEvents)
    case Took(s, rest) =>
      var (result, output) := OutAppended(cfg, c.output, s);
      Emit(cfg, c.(sdp := s, outQueue := rest), result, output, raise, hasEvents)
  }

  /** The queue pop of `srpc_getdata`. */
  ghost function GetData(c: Core, rrId: u32): (Core, bool) {
    match TakeFirst(c.inQueue, rrId)
    case Nothing => (c, false)
    case Took(s, rest) => (c.(sdp := s, inQueue := rest), true)
  }

  /** `srpc_set_proto_version`. */
  ghost function SetVersion(c: Core, v: byte): Core {
    c.(version := if VersionOk(v) then v else PROTO_VERSION)
  }

  // ---- runs --------------------------------------------------------------------------

  /** What the application has set: an event handler or none, and a handler for version
      errors, which makes `extra` further iterations and ignores how they end. Without one
      `extra` is 0; the server's makes 20. */
  datatype Hooks = Hooks(events: bool, extra: nat)

  /** Where the iterating thread stands. A failed iteration ends the connection, unless a
      handler for version errors made it. */
  datatype Phase = Idle | Window(raise: bool) | Dead(cause: Cause)

  datatype Step =
    | DoCall(callId: u32, data: seq<byte>, version: Option<byte>)
    | DoSetVersion(v: byte)
    | DoIn(read: Read)
    | DoOut
    | DoGet(rrId: u32)

  /** The state: behind the lock, of the iterating thread, and how many iterations each of the
      handlers in progress has still to make, the innermost last. The history: how
      iterations failed; bytes received, packets parsed, queued and fetched; calls made, the
      packets accepted with the number of the call each was, and bytes written. */
  datatype World = World(core: Core, phase: Phase, handlers: seq<nat>, failures: seq<Cause>,
                         received: seq<byte>, popped: seq<Msg>, queued: seq<Sdp>, fetched: seq<Sdp>,
                         calls: nat, accepted: seq<Sdp>, acceptedAt: seq<nat>, written: seq<byte>)

  ghost predicate StepOk(cfg: Config, s: Step) {
    match s
    case DoCall(_, data, _) => |data| < TWO_32
    case DoIn(read) => read.Chunk? ==> 1 <= |read.bytes| <= cfg.block
    case _ => true
  }

  ghost function Start(cfg: Config, version: byte): World {
    World(Core(0, version, [], [], [], [], Fresh(cfg.maxData, 0, 0)), Idle, [], [], [], [], [], [], 0, [], [], [])
  }

  /** An iteration begins; one of the innermost handler's counts. */
  ghost function Begun(handlers: seq<nat>): seq<nat> {
    if handlers == [] then []
    else
      var n := |handlers| - 1;
      handlers[..n] + [if handlers[n] > 0 then handlers[n] - 1 else 0]
  }

  /** Handlers that have made their last iteration return, and so do the iterations they were
      called from. */
  ghost function Returned(handlers: seq<nat>): (r: seq<nat>)
    ensures r == [] || r[|r| - 1] > 0
    ensures r <= handlers
  {
    if handlers == [] || handlers[|handlers| - 1] > 0 then handlers else Returned(handlers[..|handlers| - 1])
  }

  /** An iteration is over. When the outermost handler has returned, the iteration in which
      the version error occurred fails. */
  ghost function Over(w: World): World {
    if w.handlers == [] then w.(phase := Idle)
    else
      var rest := Returned(w.handlers);
      w.(handlers := rest, phase := if rest == [] then Dead(ParseError(VersionErr)) else Idle)
  }

  ghost function Fail(hooks: Hooks, w: World, cause: Cause): World {
    var v := w.(failures := w.failures + [cause]);
    if cause == ParseError(VersionErr) && hooks.extra > 0 then v.(phase := Idle, handlers := w.handlers + [hooks.extra])
    else if w.handlers == [] then v.(phase := Dead(cause))
    else Over(v)
  }

  /** The world after an incoming half that left `c` and `r`. */
  ghost function Record(hooks: Hooks, w: World, read: Read, c: Core, r: InResult): World {
    var got := r == Stop(InQueueFull) || (r.Proceed? && r.got);
    var v := w.(core := c,
                handlers := Begun(w.handlers),
                received := if read.Chunk? && r != Stop(InputOverflow) then w.received + read.bytes else w.received,
                popped := if got then w.popped + [c.sdp.Message()] else w.popped,
                queued := if r.Proceed? && r.got then w.queued + [c.sdp] else w.queued);
    if r.Stop? then Fail(hooks, v, r.cause) else v.(phase := Window(r.raise))
  }

  /** The world after an outgoing half that left `c` and `r`. */
  ghost function Sent(hooks: Hooks, w: World, c: Core, r: OutResult): World {
    var v := w.(core := c, written := w.written + r.written);
    if r.ok then Over(v) else Fail(hooks, v, OutputOverflow)
  }

  /** Failing and ending touch nothing but the thread's own state. */
  lemma FailShape(hooks: Hooks, w: World, cause: Cause)
    ensures var w' := Fail(hooks, w, cause);
      w' == w.(phase := w'.phase, handlers := w'.handlers, failures := w.failures + [cause]) && !w'.phase.Window?
  {
  }

  lemma RecordShape(hooks: Hooks, w: World, read: Read, c: Core, r: InResult)
    ensures var w' := Record(hooks, w, read, c, r);
      var got := r == Stop(InQueueFull) || (r.Proceed? && r.got);
      && w' == w.(core := c, phase := w'.phase, handlers := w'.handlers,
                  failures := if r.Stop? then w.failures + [r.cause] else w.failures,
                  received := if read.Chunk? && r != Stop(InputOverflow) then w.received + read.bytes else w.received,
                  popped := if got then w.popped + [c.sdp.Message()] else w.popped,
                  queued := if r.Proceed? && r.got then w.queued + [c.sdp] else w.queued)
      && (if r.Proceed? then w'.phase == Window(r.raise) else !w'.phase.Window?)
  {
  }

  lemma SentShape(hooks: Hooks, w: World, c: Core, r: OutResult)
    ensures var w' := Sent(hooks, w, c, r);
      && w' == w.(core := c, written := w.written + r.written, phase := w'.phase, handlers := w'.handlers,
                  failures := if r.ok then w.failures else w.failures + [OutputOverflow])
      && !w'.phase.Window?
  {
  }

  ghost function Next(cfg: Config, hooks: Hooks, w: World, s: Step): World
    requires w.core.Ok(cfg) && StepOk(cfg, s)
  {
    match s
    case DoCall(callId, data, version) =>
      var (c, id) := Call(cfg, w.core, callId, data, version);
      w.(core := c, calls := w.calls + 1,
         accepted := if id != 0 then w.accepted + [c.sdp] else w.accepted,
         acceptedAt := if id != 0 then w.acceptedAt + [w.calls + 1] else w.acceptedAt)
    case DoSetVersion(v) => w.(core := SetVersion(w.core, v))
    case DoIn(read) =>
      if w.phase != Idle then w
      else
        var (c, r) := InHalf(cfg, w.core, read);
        Record(hooks, w, read, c, r)
    case DoOut =>
      if !w.phase.Window? then w
      else
        var (c, r) := OutHalf(cfg, w.core, w.phase.raise, hooks.events);
        Sent(hooks, w, c, r)
    case DoGet(rrId) =>
      var (c, found) := GetData(w.core, rrId);
      w.(core := c, fetched := if found then w.fetched + [c.sdp] else w.fetched)
  }

  lemma TakeFirstKeepsReady(q: seq<Sdp>, rrId: u32, max: nat)
    requires forall s <- q :: s.Ready(max)
    ensures var t := TakeFirst(q, rrId); t.Took? ==> t.sdp.Ready(max) && forall s <- t.rest :: s.Ready(max)
    ensures var t := TakeFirst(q, rrId); t.Took? ==> multiset(q) == multiset(t.rest) + multiset{t.sdp}
  {
    if q != [] && !Matches(q[0], rrId) {
      TakeFirstKeepsReady(q[1..], rrId, max);
    }
    if q != [] {
      assert q == [q[0]] + q[1..];
    }
  }

  lemma CallKeepsOk(cfg: Config, c: Core, callId: u32, data: seq<byte>, version: Option<byte>)
    requires c.Ok(cfg) && |data| < TWO_32
    ensures Call(cfg, c, callId, data, version).0.Ok(cfg)
  {
  }

  lemma InHalfKeepsOk(cfg: Config, c: Core, read: Read)
    requires c.Ok(cfg)
    ensures InHalf(cfg, c, read).0.Ok(cfg)
  {
  }

  /** What an incoming half does to the queue, and what it leaves alone. */
  lemma InHalfFrame(cfg: Config, c: Core, read: Read)
    requires c.Ok(cfg)
    ensures var (c', r) := InHalf(cfg, c, read);
      && c'.inQueue == (if r.Proceed? && r.got then c.inQueue + [c'.sdp] else c.inQueue)
      && c'.output == c.output && c'.outQueue == c.outQueue && c'.nextId == c.nextId
      && r != Stop(OutputOverflow)
  {
    hide InPopped;
  }

  /** What an outgoing half leaves alone. */
  lemma OutHalfFrame(cfg: Config, c: Core, raise: bool, hasEvents: bool)
    requires c.Ok(cfg)
    ensures var (c', _) := OutHalf(cfg, c, raise, hasEvents);
      c'.input == c.input && c'.inQueue == c.inQueue && c'.nextId == c.nextId
  {
    hide OutAppended;
  }

  lemma OutHalfKeepsOk(cfg: Config, c: Core, raise: bool, hasEvents: bool)
    requires c.Ok(cfg)
    ensures OutHalf(cfg, c, raise, hasEvents).0.Ok(cfg)
  {
    TakeFirstKeepsReady(c.outQueue, 0, cfg.maxData);
  }

  lemma GetDataKeepsOk(cfg: Config, c: Core, rrId: u32)
    requires c.Ok(cfg)
    ensures GetData(c, rrId).0.Ok(cfg)
  {
    TakeFirstKeepsReady(c.inQueue, rrId, cfg.maxData);
  }

  lemma NextKeepsOk(cfg: Config, hooks: Hooks, w: World, s: Step)
    requires w.core.Ok(cfg) && StepOk(cfg, s)
    ensures Next(cfg, hooks, w, s).core.Ok(cfg)
  {
    match s
    case DoCall(callId, data, version) => CallKeepsOk(cfg, w.core, callId, data, version);
    case DoSetVersion(v) =>
    case DoIn(read) => InHalfKeepsOk(cfg, w.core, read);
    case DoOut => OutHalfKeepsOk(cfg, w.core, if w.phase.Window? then w.phase.raise else false, hooks.events);
    case DoGet(rrId) => GetDataKeepsOk(cfg, w.core, rrId);
  }
}
