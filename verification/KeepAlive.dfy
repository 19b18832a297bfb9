/** The client's keep-alive: when an iteration pings, and what that guarantees about the age
    of the last call and the distance between pings. Times are whole seconds. */
module KeepAlive {

  const MIN_PING_DISTANCE: int := 2
  const MARGIN: int := 10

  /** The fields the keep-alive reads and writes. `registered` is 0, -1 while the result is
      awaited, or 1. */
  datatype Fields = Fields(connected: bool, registered: int, timeout: int, lastPing: int, lastSent: int, lastRecv: int)

  ghost predicate PingDue(f: Fields, now: int) {
    && f.timeout > 0
    && now - f.lastPing >= MIN_PING_DISTANCE
    && (now - f.lastSent >= f.timeout - MARGIN || now - f.lastRecv >= f.timeout - MARGIN)
  }

  /** What the first half of an iteration does to the fields: register, ping or nothing. The
      clock reads `now`, later `stamp` for the ping time and `sent` for the call. */
  ghost function Checked(f: Fields, reg: bool, now: int, stamp: int, sent: int): Fields {
    if !f.connected then f
    else if reg && f.registered == 0 then f.(registered := -1, lastSent := sent)
    else if f.registered == 1 && PingDue(f, now) then f.(lastPing := stamp, lastSent := sent)
    else f
  }

  /** Exactly when a check registers, when it pings, and what else it leaves alone. */
  lemma CheckDecides(f: Fields, reg: bool, now: int, stamp: int, sent: int)
    ensures var registers := f.connected && reg && f.registered == 0;
      var silent := now - f.lastSent >= f.timeout - 10 || now - f.lastRecv >= f.timeout - 10;
      var pings := f.connected && f.registered == 1 && f.timeout > 0 && silent && now - f.lastPing >= 2;
      Checked(f, reg, now, stamp, sent) ==
      Fields(f.connected, if registers then -1 else f.registered, f.timeout,
             if pings then stamp else f.lastPing, if registers || pings then sent else f.lastSent, f.lastRecv)
  {
  }

  class Client {
    var connected: bool
    var registered: int
    var timeout: int
    var lastPing: int
    var lastSent: int
    var lastRecv: int

    constructor ()
      ensures Current() == Fields(false, 0, 0, 0, 0, 0)
    {
      connected, registered, timeout := false, 0, 0;
      lastPing, lastSent, lastRecv := 0, 0, 0;
    }

    ghost function Current(): Fields
      reads this
    {
      Fields(connected, registered, timeout, lastPing, lastSent, lastRecv)
    }

    /** `supla_client_before_async_call`, run by every call that is allowed. */
    method BeforeCall(t: int)
      modifies `lastSent
      ensures lastSent == t
    {
      lastSent := t;
    }

    /** `supla_client_ping`; the ping call is allowed in every protocol version. */
    method Ping(now: int, stamp: int, sent: int)
      modifies `lastPing, `lastSent
      ensures Current() == if PingDue(old(Current()), now) then old(Current()).(lastPing := stamp, lastSent := sent)
                           else old(Current())
    {
      if timeout > 0 {
        var limit := timeout - MARGIN;
        if now - lastPing >= MIN_PING_DISTANCE && (now - lastSent >= limit || now - lastRecv >= limit) {
          lastPing := stamp;
          BeforeCall(sent);
        }
      }
    }

    /** The part of `supla_client__iterate` before `srpc_iterate`. */
    method Check(reg: bool, now: int, stamp: int, sent: int)
      modifies this
      ensures Current() == Checked(old(Current()), reg, now, stamp, sent)
    {
      if !connected {
        return;
      }
      if reg && registered == 0 {
        registered := -1;
        BeforeCall(sent);
      } else if registered == 1 {
        Ping(now, stamp, sent);
      }
    }

    method Disconnect()
      modifies this
      ensures Current() == if old(connected) then old(Current()).(connected := false, registered := 0) else old(Current())
    {
      if connected {
        connected := false;
        registered := 0;
      }
    }
  }

  // ---- runs --------------------------------------------------------------------------

  /** What can happen, with the clock readings it makes. */
  datatype Event =
    | Connect(at: int)
    | Check(reg: bool, at: int, stamp: int, sent: int)
    | Registered(at: int, timeout: int)
    | Received(at: int)
    | Call(at: int)
    | Disconnect(at: int)
  {
    /** The last reading of the clock. */
    function End(): int { if Check? then sent else at }
  }

  /** Fields and history: the clock; when the client was last checked while registered, or
      else when it was registered, and how old the last call was then; and the times of all
      pings. */
  datatype World = World(f: Fields, clock: int, checked: int, hasCheck: bool, ageThen: int, pings: seq<int>)

  /** The clock never runs backwards. */
  ghost predicate InOrder(w: World, e: Event) {
    w.clock <= e.at && (e.Check? ==> e.at <= e.stamp <= e.sent)
  }

  ghost function Happen(w: World, e: Event): World {
    var w' := w.(clock := e.End());
    match e
    case Connect(_) => w'.(f := w.f.(connected := true, registered := 0), hasCheck := false)
    case Check(reg, now, stamp, sent) =>
      var looked := w.f.connected && w.f.registered == 1;
      w'.(f := Checked(w.f, reg, now, stamp, sent),
          checked := if looked then now else w.checked,
          hasCheck := looked || (w.hasCheck && w.f.registered == 1),
          pings := if looked && PingDue(w.f, now) then w.pings + [stamp] else w.pings)
    case Registered(at, timeout) =>
      w'.(f := w.f.(registered := 1, timeout := timeout), checked := at, hasCheck := false, ageThen := at - w.f.lastSent)
    case Received(at) => w'.(f := w.f.(lastRecv := at))
    case Call(at) => w'.(f := w.f.(lastSent := at))
    case Disconnect(_) => w'.(f := w.f.(connected := false, registered := 0), hasCheck := false)
  }

  ghost predicate Legal(w: World, events: seq<Event>)
    decreases |events|
  {
    events == [] || (InOrder(w, events[0]) && Legal(Happen(w, events[0]), events[1..]))
  }

  ghost function Run(w: World, events: seq<Event>): World
    decreases |events|
  {
    if events == [] then w else Run(Happen(w, events[0]), events[1..])
  }

  ghost function Limit(timeout: int): int {
    if timeout - MARGIN > MIN_PING_DISTANCE then timeout - MARGIN else MIN_PING_DISTANCE
  }

  /** Every ping is a call, so the last call is never older than the last ping; a check leaves
      the last call younger than the limit; until then it is as old as it was at registration,
      or younger. A check that finds the server silent leaves a fresh ping behind. */
  ghost predicate Alive(w: World) {
    && w.f.lastPing <= w.f.lastSent <= w.clock && w.f.lastRecv <= w.clock
    && (w.pings != [] ==> w.f.lastPing == w.pings[|w.pings| - 1])
    && (forall i :: 0 < i < |w.pings| ==> w.pings[i] - w.pings[i - 1] >= MIN_PING_DISTANCE)
    && (w.hasCheck ==> w.f.registered == 1 && (w.f.timeout > 0 ==> w.checked - w.f.lastSent < Limit(w.f.timeout)))
    && (w.f.registered == 1 && !w.hasCheck ==> w.checked - w.f.lastSent <= w.ageThen)
    && (w.hasCheck && w.f.timeout > 0 ==>
          w.checked - w.f.lastRecv < w.f.timeout - MARGIN || w.checked - w.f.lastPing < MIN_PING_DISTANCE)
  }

  lemma HappenKeepsAlive(w: World, e: Event)
    requires Alive(w) && InOrder(w, e)
    ensures Alive(Happen(w, e))
  {
  }

  lemma {:induction false} RunKeepsAlive(w: World, events: seq<Event>)
    requires Alive(w) && Legal(w, events)
    ensures Alive(Run(w, events))
    decreases |events|
  {
    if events != [] {
      HappenKeepsAlive(w, events[0]);
      RunKeepsAlive(Happen(w, events[0]), events[1..]);
    }
  }

  /** A client as allocated, the clock at or after the epoch. */
  ghost function Start(clock: int): World { World(Fields(false, 0, 0, 0, 0, 0), clock, clock, false, 0, []) }

  /** In every run, at any time at most `gap` seconds after a registered client was last
      checked, or registered: the last call is less than max(timeout - 10, 2) + gap seconds
      old once there was a check, and before that at most `gap` older than it was at
      registration. When nothing was received for that long, the last ping is less than
      2 + gap seconds old. Any two pings are at least two seconds apart. */
  lemma CallNeverTooOld(clock: int, events: seq<Event>, now: int, gap: int)
    requires clock >= 0 && Legal(Start(clock), events)
    ensures var w := Run(Start(clock), events);
      && (w.f.registered == 1 && w.f.timeout > 0 && w.checked <= now <= w.checked + gap ==>
            if w.hasCheck then now - w.f.lastSent < Limit(w.f.timeout) + gap else now - w.f.lastSent <= w.ageThen + gap)
      && (w.hasCheck && w.f.timeout > 0 && w.checked <= now <= w.checked + gap
          && now - w.f.lastRecv >= Limit(w.f.timeout) + gap ==>
            now - w.f.lastPing < MIN_PING_DISTANCE + gap)
      && (forall i, j :: 0 <= i < j < |w.pings| ==> w.pings[j] - w.pings[i] >= MIN_PING_DISTANCE)
  {
    RunKeepsAlive(Start(clock), events);
    var w := Run(Start(clock), events);
    forall i, j | 0 <= i < j < |w.pings|
      ensures w.pings[j] - w.pings[i] >= MIN_PING_DISTANCE
    {
      PingsApart(w.pings, i, j);
    }
  }

  // ---- between registration and the first check --------------------------------------

  /** The events of one registration: it neither ends nor is renewed. */
  ghost predicate Within(events: seq<Event>) {
    forall e <- events :: e.Check? || e.Received? || e.Call?
  }

  /** The last call is younger than the limit allows. */
  ghost predicate YoungAt(w: World, now: int, gap: int) {
    w.checked <= now <= w.checked + gap ==> now - w.f.lastSent < Limit(w.f.timeout) + gap
  }

  ghost predicate AlwaysYoung(w: World, gap: int) {
    forall events, now :: Legal(w, events) && Within(events) ==> YoungAt(Run(w, events), now, gap)
  }

  lemma {:induction false} RunWithin(w: World, events: seq<Event>)
    requires Alive(w) && Legal(w, events) && Within(events) && w.f.registered == 1
    ensures var w' := Run(w, events);
      Alive(w') && w'.f.registered == 1 && w'.f.timeout == w.f.timeout && w'.ageThen == w.ageThen
    decreases |events|
  {
    if events != [] {
      HappenKeepsAlive(w, events[0]);
      assert events[0] in events;
      RunWithin(Happen(w, events[0]), events[1..]);
    }
  }

  /** From a registration on the last call is always younger than max(timeout - 10, 2) + gap
      exactly if the result of the registration came before the register call, or a later
      one, was max(timeout - 10, 2) seconds old. */
  lemma AlwaysYoungIff(w: World, at: int, timeout: int, gap: int)
    requires Alive(w) && w.clock <= at && timeout > 0 && gap >= 0
    ensures AlwaysYoung(Happen(w, Registered(at, timeout)), gap) <==> at - w.f.lastSent < Limit(timeout)
  {
    var w' := Happen(w, Registered(at, timeout));
    HappenKeepsAlive(w, Registered(at, timeout));
    if at - w.f.lastSent < Limit(timeout) {
      forall events, now | Legal(w', events) && Within(events)
        ensures YoungAt(Run(w', events), now, gap)
      {
        RunWithin(w', events);
      }
    } else {
      assert Legal(w', []) && Within([]) && Run(w', []) == w';
      assert !YoungAt(Run(w', []), at + gap, gap);
    }
  }

  /** A run with one check a second at its start in which the register call is answered after
      40 seconds: the client is registered with a timeout of 30, and its last call is twice as
      old as the limit. No check before the answer pings. */
  lemma LateRegistration()
    ensures var events := [Connect(100), Check(true, 100, 100, 100), Check(true, 101, 101, 101), Registered(140, 30)];
      && Legal(Start(100), events)
      && var w := Run(Start(100), events);
      && w.f.connected && w.f.registered == 1 && w.f.timeout == 30
      && w.clock - w.f.lastSent == 40 == 2 * Limit(30) && w.pings == []
  {
    var e1, e2, e3, e4 := Connect(100), Check(true, 100, 100, 100), Check(true, 101, 101, 101), Registered(140, 30);
    var events := [e1, e2, e3, e4];
    assert events[1..] == [e2, e3, e4] && [e2, e3, e4][1..] == [e3, e4] && [e3, e4][1..] == [e4] && [e4][1..] == [];
  }

  lemma {:induction false} PingsApart(pings: seq<int>, i: nat, j: nat)
    requires i < j < |pings|
    requires forall k :: 0 < k < |pings| ==> pings[k] - pings[k - 1] >= MIN_PING_DISTANCE
    ensures pings[j] - pings[i] >= MIN_PING_DISTANCE
    decreases j
  {
    if i + 1 < j {
      PingsApart(pings, i, j - 1);
      assert pings[j] - pings[j - 1] >= MIN_PING_DISTANCE;
    }
  }
}
