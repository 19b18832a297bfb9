/** The SUPLA wire format: an 18-byte header, the payload and a trailing tag. `Pop` is
    the parser of a whole buffer, free of the cached flag and of memory management;
    `Drain` repeats it as the device receive loop does. */
module Wire {
  import opened Bytes

  const TAG: seq<byte> := [83, 85, 80, 76, 65]
  const TAG_SIZE: nat := 5
  const HEADER_SIZE: nat := 18
  const PROTO_VERSION: byte := 28
  const PROTO_VERSION_MIN: byte := 1

  /** What a packet says: its header fields and the first `data_size` payload bytes. */
  datatype Msg = Msg(version: byte, rrId: u32, callId: u32, payload: seq<byte>)

  /** Every size the build chooses. `maxData` is the payload array of a packet. */
  datatype Config = Config(maxData: nat, bufMin: nat, bufMax: nat, block: nat, queueSize: nat, minAlloc: nat)
  {
    const sdpSize: nat := HEADER_SIZE + maxData
    const maxFrame: nat := sdpSize + TAG_SIZE

    /** Side conditions met by every build (see the constants in `Builds`). */
    ghost predicate Sane() {
      && bufMin < bufMax
      && 1 <= block
      && 1 <= queueSize
      && queueSize + minAlloc < 256
      && maxFrame + bufMax + block < TWO_32
    }
  }

  ghost predicate VersionOk(v: byte) { PROTO_VERSION_MIN <= v <= PROTO_VERSION }

  ghost predicate Sendable(max: nat, m: Msg) {
    VersionOk(m.version) && |m.payload| <= max < TWO_32
  }

  function Header(version: byte, rrId: u32, callId: u32, dataSize: int): (h: seq<byte>)
    ensures |h| == HEADER_SIZE
  {
    TAG + [version] + LE32(rrId) + LE32(callId) + LE32(dataSize)
  }

  function Frame(m: Msg): (f: seq<byte>)
    ensures |f| == HEADER_SIZE + |m.payload| + TAG_SIZE
  {
    Header(m.version, m.rrId, m.callId, |m.payload|) + m.payload + TAG
  }

  function Frames(ms: seq<Msg>): seq<byte> {
    if ms == [] then [] else Frame(ms[0]) + Frames(ms[1..])
  }

  /** The value of four bytes, the least significant first. */
  function Word(b: seq<byte>, i: nat): int
    requires i + 4 <= |b|
  {
    b[i] as int + 0x100 * b[i + 1] as int + 0x1_0000 * b[i + 2] as int + 0x100_0000 * b[i + 3] as int
  }

  /** Every byte of a frame: tag, version, three little-endian words, payload, tag. */
  lemma FrameLayout(max: nat, m: Msg)
    requires |m.payload| <= max < TWO_32
    ensures var f, n := Frame(m), |m.payload|;
      && |f| == 23 + n && f[..5] == [83, 85, 80, 76, 65] == f[18 + n..] && f[5] == m.version
      && Word(f, 6) == m.rrId && Word(f, 10) == m.callId && Word(f, 14) == n && f[18..18 + n] == m.payload
  {
    var f, n := Frame(m), |m.payload|;
    var rest := m.payload + TAG;
    HeaderFields(m.version, m.rrId, m.callId, n, rest);
    assert f == Header(m.version, m.rrId, m.callId, n) + rest;
  }

  datatype PopResult =
    | NeedMore
    | Got(msg: Msg, rest: seq<byte>)
    | DataError
    | VersionError(version: byte)

  /** One packet off the front of `b`, or why there is none. */
  function Pop(max: nat, b: seq<byte>): (r: PopResult)
    ensures r.Got? ==> |r.rest| < |b|
  {
    if |b| < TAG_SIZE then NeedMore
    else if b[..TAG_SIZE] != TAG then DataError
    else if |b| < TAG_SIZE + HEADER_SIZE then NeedMore
    else if b[5] > PROTO_VERSION || b[5] < PROTO_VERSION_MIN then VersionError(b[5])
    else
      var n := FromLE32(b[14..18]);
      if n > max then DataError
      else if HEADER_SIZE + n + TAG_SIZE > |b| then NeedMore
      else if b[HEADER_SIZE + n..][..TAG_SIZE] != TAG then DataError
      else Got(Msg(b[5], FromLE32(b[6..10]), FromLE32(b[10..14]), b[HEADER_SIZE..HEADER_SIZE + n]),
               b[HEADER_SIZE + n + TAG_SIZE..])
  }

  lemma HeaderFields(version: byte, rrId: u32, callId: u32, dataSize: u32, rest: seq<byte>)
    ensures var b := Header(version, rrId, callId, dataSize) + rest;
      && b[..5] == TAG && b[5] == version
      && b[6..10] == LE32(rrId) && b[10..14] == LE32(callId) && b[14..18] == LE32(dataSize)
      && FromLE32(b[6..10]) == rrId && FromLE32(b[10..14]) == callId && FromLE32(b[14..18]) == dataSize
  {
    FromLE32OfLE32(rrId);
    FromLE32OfLE32(callId);
    FromLE32OfLE32(dataSize);
    var b := Header(version, rrId, callId, dataSize) + rest;
    assert b[..5] == TAG && b[6..10] == LE32(rrId) && b[10..14] == LE32(callId) && b[14..18] == LE32(dataSize);
  }

  /** A frame at the front of the buffer is recognised and removed exactly. */
  lemma PopFrame(max: nat, m: Msg, rest: seq<byte>)
    requires Sendable(max, m)
    ensures Pop(max, Frame(m) + rest) == Got(m, rest)
  {
    hide LE32, FromLE32, Header;
    var n := |m.payload|;
    HeaderFields(m.version, m.rrId, m.callId, n, m.payload + TAG + rest);
    var b := Frame(m) + rest;
    assert b == Header(m.version, m.rrId, m.callId, n) + (m.payload + TAG + rest);
    assert b[HEADER_SIZE..HEADER_SIZE + n] == m.payload;
    assert b[HEADER_SIZE + n..][..TAG_SIZE] == TAG;
    assert b[HEADER_SIZE + n + TAG_SIZE..] == rest;
  }

  /** The parser accepts nothing but frames: the converse of `PopFrame`. */
  lemma PopGotOnlyFrames(max: nat, b: seq<byte>)
    requires max < TWO_32
    requires Pop(max, b).Got?
    ensures var r := Pop(max, b); Sendable(max, r.msg) && b == Frame(r.msg) + r.rest
  {
    var r := Pop(max, b);
    var m, n := r.msg, |r.msg.payload|;
    LE32OfFromLE32(b[6..10]);
    LE32OfFromLE32(b[10..14]);
    LE32OfFromLE32(b[14..18]);
    var h := Header(m.version, m.rrId, m.callId, n);
    assert h == b[..18] by {
      assert b[..18] == b[..5] + [b[5]] + b[6..10] + b[10..14] + b[14..18];
    }
    assert b == b[..18] + b[18..18 + n] + b[18 + n..][..5] + b[18 + n + 5..];
  }

  /** Exactly when the parser gives up, and how: a wrong tag in front; a version out of range;
      a payload longer than the limit; or no tag behind the payload. */
  lemma PopFailsIff(max: nat, b: seq<byte>, size: int)
    requires |b| >= 23 ==> size == b[14] as int + 256 * b[15] as int + 0x1_0000 * b[16] as int + 0x100_0000 * b[17] as int
    ensures var headed, whole := |b| >= 23 && b[..5] == TAG, |b| >= 23 && 23 + size <= |b|;
      && (Pop(max, b) == DataError <==>
            || (|b| >= 5 && b[..5] != TAG)
            || (headed && 1 <= b[5] <= 28 && (size > max || (whole && b[18 + size..23 + size] != TAG))))
      && (Pop(max, b).VersionError? <==> headed && !(1 <= b[5] <= 28))
      && (Pop(max, b).VersionError? ==> Pop(max, b).version == b[5])
  {
    if |b| >= 23 {
      assert FromLE32(b[14..18]) == size;
      if 0 <= size && 23 + size <= |b| {
        assert b[18 + size..][..5] == b[18 + size..23 + size];
      }
    }
  }

  /** Bytes that arrive later change neither a packet already complete nor an error. */
  lemma PopMonotone(max: nat, b: seq<byte>, x: seq<byte>)
    requires !Pop(max, b).NeedMore?
    ensures var r := Pop(max, b);
      Pop(max, b + x) == if r.Got? then Got(r.msg, r.rest + x) else r
  {
    var c := b + x;
    assert c[..5] == b[..5];
    if |b| >= 23 {
      assert c[5] == b[5] && c[6..10] == b[6..10] && c[10..14] == b[10..14] && c[14..18] == b[14..18];
      var n := FromLE32(b[14..18]);
      if n <= max && 18 + n + 5 <= |b| {
        assert c[18..18 + n] == b[18..18 + n];
        assert c[18 + n..][..5] == b[18 + n..][..5];
        assert c[18 + n + 5..] == b[18 + n + 5..] + x;
      }
    }
  }

  datatype End = Waiting(residue: seq<byte>) | Failed(error: PopResult)

  /** The packets taken from a buffer until the parser asks for more or fails. */
  datatype Drained = Drained(msgs: seq<Msg>, end: End)
  {
    function After(earlier: seq<Msg>): Drained { Drained(earlier + msgs, end) }
  }

  function Drain(max: nat, b: seq<byte>): Drained
    decreases |b|
  {
    match Pop(max, b)
    case NeedMore => Drained([], Waiting(b))
    case Got(m, rest) => Drain(max, rest).After([m])
    case DataError => Drained([], Failed(DataError))
    case VersionError(v) => Drained([], Failed(VersionError(v)))
  }

  lemma {:induction false} DrainAppend(max: nat, b: seq<byte>, x: seq<byte>)
    ensures var d := Drain(max, b);
      Drain(max, b + x) == if d.end.Failed? then d else Drain(max, d.end.residue + x).After(d.msgs)
    decreases |b|
  {
    hide Pop;
    var r := Pop(max, b);
    if r.NeedMore? {
      AfterAfter(Drain(max, b + x), [], []);
    } else {
      PopMonotone(max, b, x);
      if r.Got? {
        DrainAppend(max, r.rest, x);
        var d := Drain(max, r.rest);
        if d.end.Waiting? {
          AfterAfter(Drain(max, d.end.residue + x), d.msgs, [r.msg]);
        }
      }
    }
  }

  /** What waits in a drained buffer is shorter than the largest frame. */
  lemma {:induction false} ResidueShort(max: nat, b: seq<byte>)
    ensures var e := Drain(max, b).end;
      e.Waiting? ==> |e.residue| < HEADER_SIZE + max + TAG_SIZE && Pop(max, e.residue).NeedMore?
    decreases |b|
  {
    var r := Pop(max, b);
    if r.Got? {
      ResidueShort(max, r.rest);
    }
  }

  ghost predicate AllSendable(max: nat, ms: seq<Msg>) { forall m <- ms :: Sendable(max, m) }

  lemma DrainFrame(max: nat, m: Msg, rest: seq<byte>)
    requires Sendable(max, m)
    ensures Drain(max, Frame(m) + rest) == Drain(max, rest).After([m])
  {
    PopFrame(max, m, rest);
  }

  lemma AfterAfter(d: Drained, a: seq<Msg>, b: seq<Msg>)
    ensures d.After(a).After(b) == d.After(b + a) && d.After([]) == d
  {
    assert b + (a + d.msgs) == b + a + d.msgs;
    assert [] + d.msgs == d.msgs;
  }

  lemma FramesCons(ms: seq<Msg>, tail: seq<byte>)
    requires ms != []
    ensures Frames(ms) + tail == Frame(ms[0]) + (Frames(ms[1..]) + tail)
  {
    var f, g := Frame(ms[0]), Frames(ms[1..]);
    assert f + g + tail == f + (g + tail);
  }

  /** Framing any list of packets and draining the bytes gives the packets back. */
  lemma {:induction false} DrainFrames(max: nat, ms: seq<Msg>, tail: seq<byte>)
    requires AllSendable(max, ms)
    ensures Drain(max, Frames(ms) + tail) == Drain(max, tail).After(ms)
  {
    if ms == [] {
      assert Frames(ms) + tail == tail;
    } else {
      DrainFrames(max, ms[1..], tail);
      FramesCons(ms, tail);
      DrainFrame(max, ms[0], Frames(ms[1..]) + tail);
      assert [ms[0]] + ms[1..] == ms;
      AfterAfter(Drain(max, tail), ms[1..], [ms[0]]);
    }
  }

  /** A drained buffer, read backwards: the packets' frames followed by the residue. */
  lemma {:induction false} DrainAccountsForEveryByte(max: nat, b: seq<byte>)
    requires max < TWO_32
    ensures var d := Drain(max, b);
      && AllSendable(max, d.msgs)
      && (d.end.Waiting? ==> b == Frames(d.msgs) + d.end.residue)
    decreases |b|
  {
    hide Frame;
    hide Pop;
    var r := Pop(max, b);
    if r.Got? {
      PopGotOnlyFrames(max, b);
      DrainAccountsForEveryByte(max, r.rest);
      var d := Drain(max, r.rest);
      assert ([r.msg] + d.msgs)[1..] == d.msgs;
      if d.end.Waiting? {
        Assoc(Frame(r.msg), Frames(d.msgs), d.end.residue);
      }
    }
  }

  /** A proper prefix of a frame is neither taken for a packet nor for an error. */
  lemma PartialFrameWaits(max: nat, m: Msg, rest: seq<byte>, got: seq<byte>, missing: seq<byte>)
    requires Sendable(max, m)
    requires got + missing == Frame(m) + rest && |got| < |Frame(m)|
    ensures Pop(max, got).NeedMore?
  {
    if !Pop(max, got).NeedMore? {
      PopFrame(max, m, rest);
      PopMonotone(max, got, missing);
      PopGotOnlyFrames(max, got);
      assert false;
    }
  }

  lemma DrainWaits(max: nat, b: seq<byte>)
    requires Pop(max, b).NeedMore?
    ensures Drain(max, b) == Drained([], Waiting(b))
  {
  }

  /** Bytes that start with `f`: what follows it has arrived so far, and what is missing. */
  lemma CutFront(f: seq<byte>, rest: seq<byte>, got: seq<byte>, missing: seq<byte>)
    requires got + missing == f + rest && |f| <= |got|
    ensures got == f + got[|f|..] && got[|f|..] + missing == rest
  {
    assert f == (got + missing)[..|f|] == got[..|f|];
    assert rest == (got + missing)[|f|..];
  }

  /** A prefix of the packets behind the first, with the first in front. */
  lemma ConsPrefix(taken: seq<Msg>, ms: seq<Msg>)
    requires ms != [] && taken <= ms[1..]
    ensures var all := [ms[0]] + taken; all <= ms && ms[|all|..] == ms[1..][|taken|..]
    ensures taken < ms[1..] <==> [ms[0]] + taken < ms
    ensures taken < ms[1..] ==> ms[1..][|taken|] == ms[|taken| + 1]
  {
    assert ms == [ms[0]] + ms[1..];
  }

  /** Whatever prefix of a well-formed stream has arrived, it parses without error to a
      prefix of the packets; the next packet is missing only while bytes of it are. */
  lemma {:induction false} DrainOfPrefix(max: nat, ms: seq<Msg>, got: seq<byte>, missing: seq<byte>)
    requires AllSendable(max, ms)
    requires got + missing == Frames(ms)
    ensures var d := Drain(max, got);
      && d.end.Waiting?
      && d.msgs <= ms
      && d.end.residue + missing == Frames(ms[|d.msgs|..])
      && (d.msgs < ms ==> |d.end.residue| < |Frame(ms[|d.msgs|])|)
    decreases |ms|
  {
    if ms != [] {
      var f, rest := Frame(ms[0]), Frames(ms[1..]);
      if |got| < |f| {
        PartialFrameWaits(max, ms[0], rest, got, missing);
        DrainWaits(max, got);
        assert ms[0..] == ms;
      } else {
        hide Frame, Frames, Pop, Drain;
        CutFront(f, rest, got, missing);
        var later := got[|f|..];
        DrainOfPrefix(max, ms[1..], later, missing);
        DrainFrame(max, ms[0], later);
        ConsPrefix(Drain(max, later).msgs, ms);
      }
    }
  }

  /** A message whose payload fits but whose version no receiver accepts. */
  ghost predicate Unsupported(max: nat, m: Msg) {
    !VersionOk(m.version) && |m.payload| <= max < TWO_32
  }

  /** The parser refuses such a message as soon as its header and five more bytes are there. */
  lemma PopUnsupported(max: nat, m: Msg, rest: seq<byte>, got: seq<byte>, missing: seq<byte>)
    requires Unsupported(max, m) && got + missing == Frame(m) + rest
    ensures Pop(max, got) == if |got| < HEADER_SIZE + TAG_SIZE then NeedMore else VersionError(m.version)
  {
    var n := |m.payload|;
    HeaderFields(m.version, m.rrId, m.callId, n, m.payload + TAG + rest);
    var b := Header(m.version, m.rrId, m.callId, n) + (m.payload + TAG + rest);
    assert got + missing == b;
    if |got| >= TAG_SIZE {
      assert got[..TAG_SIZE] == b[..TAG_SIZE];
    }
    if |got| >= HEADER_SIZE + TAG_SIZE {
      assert got[5] == b[5];
    }
  }

  /** A stream in which some message has an unsupported version: any prefix of it yields the
      messages before that one; once 23 bytes of it have come the parser fails on it, with its
      version, and no sooner. */
  lemma {:induction false} DrainUnsupported(max: nat, ms: seq<Msg>, bad: Msg, rest: seq<byte>, got: seq<byte>, missing: seq<byte>)
    requires AllSendable(max, ms) && Unsupported(max, bad)
    requires got + missing == Frames(ms) + (Frame(bad) + rest)
    ensures var d := Drain(max, got);
      && d.msgs <= ms
      && if |got| < |Frames(ms)| + HEADER_SIZE + TAG_SIZE then d.end.Waiting?
         else d == Drained(ms, Failed(VersionError(bad.version)))
    decreases |ms|
  {
    if ms == [] {
      assert got + missing == Frame(bad) + rest;
      PopUnsupported(max, bad, rest, got, missing);
    } else {
      var f, tail := Frame(ms[0]), Frames(ms[1..]) + (Frame(bad) + rest);
      Assoc(f, Frames(ms[1..]), Frame(bad) + rest);
      if |got| < |f| {
        PartialFrameWaits(max, ms[0], tail, got, missing);
        DrainWaits(max, got);
      } else {
        CutFront(f, tail, got, missing);
        var later := got[|f|..];
        DrainUnsupported(max, ms[1..], bad, rest, later, missing);
        DrainFrame(max, ms[0], later);
        hide Frame, Frames, Pop, Drain;
        ConsPrefix(Drain(max, later).msgs, ms);
        assert ms == [ms[0]] + ms[1..];
      }
    }
  }

  lemma {:induction false} FramesAppend(a: seq<Msg>, b: seq<Msg>)
    ensures Frames(a + b) == Frames(a) + Frames(b)
  {
    hide Frame;
    if a == [] {
      assert a + b == b;
      assert [] + Frames(b) == Frames(b);
    } else {
      FramesAppend(a[1..], b);
      assert (a + b)[0] == a[0] && (a + b)[1..] == a[1..] + b;
      Assoc(Frame(a[0]), Frames(a[1..]), Frames(b));
    }
  }
}
