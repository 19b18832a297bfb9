/** The device receive loop over a stream cut into chunks: what is delivered, and when
    the input buffer can overflow. */
module Receiver {
  import opened Bytes
  import opened Wire

  datatype ReceiveEnd = Open(residue: seq<byte>) | Broken(error: PopResult) | Overflow

  datatype Received = Received(msgs: seq<Msg>, end: ReceiveEnd)
  {
    function After(earlier: seq<Msg>): Received { Received(earlier + msgs, end) }
  }

  /** The allocated size of a buffer holding `n` bytes. */
  function Allocated(bufMin: nat, n: nat): nat {
    if n < bufMin then bufMin else n
  }

  /** Append a chunk, take every complete packet, repeat; stop at the first error. */
  function Receive(cfg: Config, residue: seq<byte>, chunks: seq<seq<byte>>): Received
    decreases |chunks|
  {
    if chunks == [] then Received([], Open(residue))
    else
      var b := residue + chunks[0];
      if Allocated(cfg.bufMin, |b|) >= cfg.bufMax then Received([], Overflow)
      else
        var d := Drain(cfg.maxData, b);
        match d.end
        case Waiting(r) => Receive(cfg, r, chunks[1..]).After(d.msgs)
        case Failed(e) => Received(d.msgs, Broken(e))
  }

  /** Every chunk is one successful read into the block buffer. */
  ghost predicate Chunks(cfg: Config, chunks: seq<seq<byte>>) {
    forall c <- chunks :: 1 <= |c| <= cfg.block
  }

  /** A full block always fits behind the longest possible residue. */
  ghost predicate RoomForBlock(cfg: Config) {
    cfg.maxFrame - 1 + cfg.block < cfg.bufMax
  }

  function Outcome(d: Drained): Received {
    Received(d.msgs, match d.end case Waiting(r) => Open(r) case Failed(e) => Broken(e))
  }

  /** However the stream is cut, the packets delivered, the error that stops the loop and
      the bytes left over are those of the uncut stream; no cut overflows the buffer. */
  lemma {:induction false} ChunkingIrrelevant(cfg: Config, residue: seq<byte>, chunks: seq<seq<byte>>)
    requires cfg.Sane() && RoomForBlock(cfg) && Chunks(cfg, chunks)
    requires |residue| < cfg.maxFrame && Pop(cfg.maxData, residue).NeedMore?
    ensures Receive(cfg, residue, chunks) == Outcome(Drain(cfg.maxData, residue + Concat(chunks)))
    decreases |chunks|
  {
    if chunks == [] {
      assert residue + [] == residue;
    } else {
      var b, more := residue + chunks[0], Concat(chunks[1..]);
      assert residue + Concat(chunks) == b + more;
      DrainAppend(cfg.maxData, b, more);
      ResidueShort(cfg.maxData, b);
      var d := Drain(cfg.maxData, b);
      if d.end.Waiting? {
        ChunkingIrrelevant(cfg, d.end.residue, chunks[1..]);
      }
    }
  }

  /** The receive side of the wire contract: any chunking of the frames of any packets
      delivers exactly those packets and leaves nothing behind. */
  lemma DeliversExactly(cfg: Config, ms: seq<Msg>, chunks: seq<seq<byte>>)
    requires cfg.Sane() && RoomForBlock(cfg) && Chunks(cfg, chunks)
    requires AllSendable(cfg.maxData, ms) && Concat(chunks) == Frames(ms)
    ensures Receive(cfg, [], chunks) == Received(ms, Open([]))
  {
    ChunkingIrrelevant(cfg, [], chunks);
    DrainFrames(cfg.maxData, ms, []);
    assert [] + Concat(chunks) == Frames(ms) + [];
    assert ms + [] == ms;
  }

  ghost predicate NeverOverflows(cfg: Config) {
    forall chunks :: Chunks(cfg, chunks) ==> Receive(cfg, [], chunks).end != Overflow
  }

  /** The overflow branch of the receive loop is dead exactly in the builds whose sizes
      leave room for a block behind a frame that lacks its last byte. */
  lemma OverflowDeadIff(cfg: Config)
    requires cfg.Sane()
    ensures NeverOverflows(cfg) <==> RoomForBlock(cfg)
  {
    if RoomForBlock(cfg) {
      forall chunks | Chunks(cfg, chunks)
        ensures Receive(cfg, [], chunks).end != Overflow
      {
        ChunkingIrrelevant(cfg, [], chunks);
      }
    } else {
      var m := Msg(PROTO_VERSION, 1, 0, Zeros(cfg.maxData));
      var f, last := Frame(m)[..cfg.maxFrame - 1], Zeros(cfg.block);
      PartialFrameDrains(cfg.maxData, m);
      FeedOverflows(cfg, f, last, 0);
      assert f[..0] == [];
    }
  }

  /** Every proper prefix of `f` keeps the parser waiting. */
  ghost predicate KeepsWaiting(max: nat, f: seq<byte>) {
    forall k :: 0 <= k <= |f| ==> Pop(max, f[..k]).NeedMore?
  }

  lemma PartialFrameDrains(max: nat, m: Msg)
    requires Sendable(max, m)
    ensures KeepsWaiting(max, Frame(m)[..|Frame(m)| - 1])
  {
    var f := Frame(m);
    var g := f[..|f| - 1];
    forall k | 0 <= k <= |g|
      ensures Pop(max, g[..k]).NeedMore?
    {
      assert g[..k] == f[..k];
      assert f[..k] + f[k..] == f + [];
      PartialFrameWaits(max, m, [], f[..k], f[k..]);
    }
  }

  /** The bytes `f[j..]` one at a time, then a full block. */
  function Feed(f: seq<byte>, j: nat, last: seq<byte>): seq<seq<byte>>
    requires j <= |f|
    decreases |f| - j
  {
    if j == |f| then [last] else [[f[j]]] + Feed(f, j + 1, last)
  }

  /** A chunk that completes nothing and does not overflow is simply kept. */
  lemma KeptChunk(cfg: Config, r: seq<byte>, c: seq<byte>, more: seq<seq<byte>>)
    requires Pop(cfg.maxData, r + c).NeedMore? && Allocated(cfg.bufMin, |r + c|) < cfg.bufMax
    ensures Receive(cfg, r, [c] + more).end == Receive(cfg, r + c, more).end
  {
    assert ([c] + more)[1..] == more;
    DrainWaits(cfg.maxData, r + c);
  }

  lemma TooMuch(cfg: Config, r: seq<byte>, c: seq<byte>, more: seq<seq<byte>>)
    requires Allocated(cfg.bufMin, |r + c|) >= cfg.bufMax
    ensures Receive(cfg, r, [c] + more).end == Overflow
  {
  }

  lemma {:induction false} FeedOverflows(cfg: Config, f: seq<byte>, last: seq<byte>, j: nat)
    requires cfg.Sane() && |last| == cfg.block && |f| + cfg.block >= cfg.bufMax
    requires KeepsWaiting(cfg.maxData, f) && j <= |f|
    ensures Chunks(cfg, Feed(f, j, last)) && Receive(cfg, f[..j], Feed(f, j, last)).end == Overflow
    decreases |f| - j
  {
    hide Receive, Pop;
    if j == |f| {
      assert f[..j] == f && [last] + [] == [last];
      TooMuch(cfg, f, last, []);
    } else {
      var more := Feed(f, j + 1, last);
      FeedOverflows(cfg, f, last, j + 1);
      assert f[..j] + [f[j]] == f[..j + 1];
      if j + 1 < cfg.bufMax {
        KeptChunk(cfg, f[..j], [f[j]], more);
      } else {
        TooMuch(cfg, f[..j], [f[j]], more);
      }
    }
  }
}

/** The size constants of each build of the library. */
module Builds {
  import opened Wire
  import opened Receiver

  const SERVER := Config(10240, 0, 131072, 32768, 10, 0)
  const SUPLA_DEVICE := Config(600, 512, 2048, 1024, 10, 0)
  const ARDUINO_ESP := Config(600, 512, 2048, 256, 2, 2)
  const ARDUINO_AVR := Config(600, 32, 1024, 32, 1, 1)
  const ESP8266_SDK := Config(1536, 512, 2048, 256, 2, 2)
  /** `ESP32` defined without `ARDUINO` or `SUPLA_DEVICE`: the payload limit is the
      server's, the buffer limit the device's. */
  const ESP32_BARE := Config(10240, 512, 2048, 256, 2, 2)

  /** `__AVR__` defined without `ARDUINO` or `SUPLA_DEVICE`, with the same mismatch. */
  const AVR_BARE := Config(10240, 32, 1024, 32, 1, 1)

  /** The builds in which the draining loop of `srpc_iterate_device` never overflows its
      input buffer, and those in which it can. */
  lemma WhichBuildsNeverOverflow()
    ensures NeverOverflows(SERVER) && NeverOverflows(SUPLA_DEVICE) && NeverOverflows(ARDUINO_ESP)
    ensures NeverOverflows(ARDUINO_AVR) && NeverOverflows(ESP8266_SDK)
    ensures !NeverOverflows(ESP32_BARE) && !NeverOverflows(AVR_BARE)
  {
    OverflowDeadIff(SERVER);
    OverflowDeadIff(SUPLA_DEVICE);
    OverflowDeadIff(ARDUINO_ESP);
    OverflowDeadIff(ARDUINO_AVR);
    OverflowDeadIff(ESP8266_SDK);
    OverflowDeadIff(ESP32_BARE);
    OverflowDeadIff(AVR_BARE);
  }
}
