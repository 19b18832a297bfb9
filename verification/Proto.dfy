/** `proto.c`: packets as they lie in memory, the protocol object with its two buffers,
    and the effect of each operation as a function of the buffers' contents. */
module Proto {
  import opened Bytes
  import opened Wire
  import opened Receiver
  import opened ByteBuffers

  /** `TSuplaDataPacket`: `data` always has the full `maxData` bytes, of which the first
      `dataSize` count. */
  datatype Sdp = Sdp(tag: seq<byte>, version: byte, rrId: u32, callId: u32, dataSize: u32, data: seq<byte>)
  {
    predicate Fits(max: nat) { |tag| == TAG_SIZE && |data| == max }

    /** A packet that `sproto_sdp_init` and `sproto_set_data` have filled in. */
    ghost predicate Ready(max: nat) { tag == TAG && |data| == max && dataSize <= max }

    function Message(): Msg {
      Msg(version, rrId, callId, if dataSize <= |data| then data[..dataSize] else data)
    }

    /** The bytes of the structure. */
    function Image(): (b: seq<byte>)
      requires |tag| == TAG_SIZE
      ensures |b| == HEADER_SIZE + |data|
    {
      tag + [version] + LE32(rrId) + LE32(callId) + LE32(dataSize) + data
    }
  }

  datatype Result = True | False | VersionErr | DataErr | Overflowed | TooLarge

  /** The bytes of the structure that go on the wire, before the trailing tag; the sum
      wraps like the unsigned one. */
  function PacketSize(sdp: Sdp): nat { (HEADER_SIZE + sdp.dataSize) % TWO_32 }

  lemma ImageIsFrame(max: nat, sdp: Sdp)
    requires max < TWO_32 - HEADER_SIZE && sdp.Ready(max)
    ensures PacketSize(sdp) == HEADER_SIZE + sdp.dataSize
    ensures sdp.Image()[..PacketSize(sdp)] + TAG == Frame(sdp.Message())
  {
    var h := Header(sdp.version, sdp.rrId, sdp.callId, sdp.dataSize);
    assert sdp.Image() == h + sdp.data;
    assert sdp.Image()[..HEADER_SIZE + sdp.dataSize] == h + sdp.data[..sdp.dataSize];
  }

  /** What `sproto_sdp_init` leaves in the packet. */
  function Fresh(max: nat, version: byte, id: u32): (s: Sdp)
    ensures s.Ready(max)
  {
    Sdp(TAG, version, id, 0, 0, Zeros(max))
  }

  function NextId(id: u32): u32 {
    var next := (id + 1) % TWO_32;
    if next == 0 then 1 else next
  }

  /** `sproto_set_data` on a packet; `None`-like failure leaves it untouched. */
  function WithData(max: nat, sdp: Sdp, data: seq<byte>, callId: u32): Sdp
    requires |sdp.data| == max && |data| < TWO_32
  {
    if |data| > max then sdp
    else sdp.(data := data + sdp.data[|data|..], dataSize := |data|, callId := callId)
  }

  /** Result and output buffer after `sproto_out_buffer_append`. */
  function OutAppended(cfg: Config, out: seq<byte>, sdp: Sdp): (Result, seq<byte>)
    requires sdp.Fits(cfg.maxData)
  {
    if PacketSize(sdp) > cfg.sdpSize then (TooLarge, out)
    else
      var body := sdp.Image()[..PacketSize(sdp)];
      if Allocated(cfg.bufMin, |out + body|) >= cfg.bufMax then (False, out)
      else if Allocated(cfg.bufMin, |out + body + TAG|) >= cfg.bufMax then (Overflowed, out + body)
      else (True, out + body + TAG)
  }

  /** Result, input buffer and packet after `sproto_pop_in_sdp`. */
  function InPopped(cfg: Config, b: seq<byte>, sdp: Sdp): (Result, seq<byte>, Sdp)
    requires sdp.Fits(cfg.maxData)
  {
    match Pop(cfg.maxData, b)
    case NeedMore => (False, b, sdp)
    case DataError => (DataErr, [], sdp)
    case VersionError(v) => (VersionErr, [], sdp.(version := v))
    case Got(m, rest) =>
      (True, rest, Sdp(TAG, m.version, m.rrId, m.callId, |m.payload|, m.payload + sdp.data[|m.payload|..]))
  }

  /** The result that reports a parser error. */
  function Refusal(error: PopResult): Result { if error.VersionError? then VersionErr else DataErr }

  /** The bytes start with the tag and a version no receiver takes. */
  ghost predicate RefusedBytes(b: seq<byte>, version: byte) {
    |b| >= 23 && b[..5] == [83, 85, 80, 76, 65] && b[5] == version && !(1 <= version <= 28)
  }

  /** What one `sproto_pop_in_sdp` does to the rest of the stream and to the packet. */
  lemma PopStep(cfg: Config, b: seq<byte>, sdp: Sdp)
    requires sdp.Fits(cfg.maxData) && cfg.Sane()
    ensures var (result, rest, next) := InPopped(cfg, b, sdp);
      var d := Drain(cfg.maxData, b);
      match result
      case True =>
        && next.Ready(cfg.maxData) && d == Drain(cfg.maxData, rest).After([next.Message()])
        && next.data[next.dataSize..] == sdp.data[next.dataSize..]
      case False => rest == b && next == sdp && Pop(cfg.maxData, b).NeedMore?
      case VersionErr => rest == [] && RefusedBytes(b, next.version) && next == sdp.(version := b[5]) && d == Drained([], Failed(VersionError(b[5])))
      case _ => rest == [] && result == DataErr && next == sdp && d == Drained([], Failed(DataError))
  {
    var r := Pop(cfg.maxData, b);
    if r.Got? {
      var (result, rest, next) := InPopped(cfg, b, sdp);
      assert next.data[..next.dataSize] == r.msg.payload;
      assert next.Message() == r.msg;
    }
  }

  lemma PopAfter(cfg: Config, b: seq<byte>, sdp: Sdp, popped: seq<Msg>)
    requires sdp.Fits(cfg.maxData) && cfg.Sane()
    ensures var (result, rest, next) := InPopped(cfg, b, sdp);
      var all := Drain(cfg.maxData, b).After(popped);
      match result
      case True => all == Drain(cfg.maxData, rest).After(popped + [next.Message()])
      case False => all == Drain(cfg.maxData, rest).After(popped) && Pop(cfg.maxData, rest).NeedMore?
      case VersionErr => rest == [] && all == Drained(popped, Failed(VersionError(next.version)))
      case _ => rest == [] && all == Drained(popped, Failed(DataError)) && result == DataErr
  {
    PopStep(cfg, b, sdp);
    var (result, rest, next) := InPopped(cfg, b, sdp);
    if result == True {
      AfterAfter(Drain(cfg.maxData, rest), [next.Message()], popped);
    } else {
      assert popped + [] == popped;
    }
  }

  function Min(a: nat, b: nat): nat { if a < b then a else b }

  class ProtoData {
    const cfg: Config
    var nextRrId: u32
    var version: byte
    var beginTag: bool
    const input: ByteBuffer
    const output: ByteBuffer

    ghost function Repr(): set<object>
      reads this, input, output
    {
      {this, input, output, input.buffer, output.buffer}
    }

    /** `beginTag` caches that the buffer starts with the tag, nothing more. */
    ghost predicate Valid()
      reads this, input, output, input.buffer, output.buffer
    {
      && cfg.Sane()
      && input != output && input.buffer != output.buffer
      && input.Valid() && output.Valid()
      && input.bufMin == output.bufMin == cfg.bufMin
      && input.bufMax == output.bufMax == cfg.bufMax
      && (beginTag ==> TAG_SIZE <= input.dataSize && input.Contents()[..TAG_SIZE] == TAG)
      && VersionOk(version)
    }

    constructor (cfg: Config)
      requires cfg.Sane()
      ensures Valid() && fresh(Repr())
      ensures this.cfg == cfg && nextRrId == 0 && version == PROTO_VERSION && !beginTag
      ensures input.Contents() == [] && output.Contents() == []
    {
      this.cfg := cfg;
      nextRrId, version, beginTag := 0, PROTO_VERSION, false;
      input := new ByteBuffer(cfg.bufMin, cfg.bufMax);
      output := new ByteBuffer(cfg.bufMin, cfg.bufMax);
    }

    method SetVersion(v: byte)
      requires Valid()
      modifies `version
      ensures Valid() && version == if PROTO_VERSION_MIN <= v <= PROTO_VERSION then v else PROTO_VERSION
    {
      if v >= PROTO_VERSION_MIN && v <= PROTO_VERSION {
        version := v;
      } else {
        version := PROTO_VERSION;
      }
    }

    method SdpInit() returns (sdp: Sdp)
      requires Valid()
      modifies `nextRrId
      ensures Valid() && nextRrId == NextId(old(nextRrId))
      ensures sdp == Fresh(cfg.maxData, version, nextRrId)
    {
      nextRrId := (nextRrId + 1) % TWO_32;
      if nextRrId == 0 {
        nextRrId := nextRrId + 1;
      }
      sdp := Sdp(TAG, version, nextRrId, 0, 0, Zeros(cfg.maxData));
    }

    method InAppend(data: seq<byte>) returns (r: AppendResult)
      requires Valid() && |data| <= cfg.block
      modifies input, input.buffer
      ensures Valid() && (input.buffer == old(input.buffer) || fresh(input.buffer))
      ensures output.Contents() == old(output.Contents())
      ensures r == if Allocated(cfg.bufMin, old(input.dataSize) + |data|) >= cfg.bufMax then BufferOverflow else Appended
      ensures input.Contents() == if r.Appended? then old(input.Contents()) + data else old(input.Contents())
    {
      r := input.Append(data);
      assert beginTag ==> input.Contents()[..TAG_SIZE] == old(input.Contents())[..TAG_SIZE];
    }

    method OutAppend(sdp: Sdp) returns (r: Result)
      requires Valid() && sdp.Fits(cfg.maxData)
      modifies output, output.buffer
      ensures Valid() && (output.buffer == old(output.buffer) || fresh(output.buffer))
      ensures input.Contents() == old(input.Contents())
      ensures (r, output.Contents()) == OutAppended(cfg, old(output.Contents()), sdp)
    {
      var packetSize := (cfg.sdpSize - cfg.maxData + sdp.dataSize) % TWO_32;
      if packetSize > cfg.sdpSize {
        return TooLarge;
      }
      var done := output.Append(sdp.Image()[..packetSize]);
      if done.Appended? {
        done := output.Append(TAG);
        return if done.Appended? then True else Overflowed;
      }
      r := False;
    }

    /** `sproto_pop_out_data` into a buffer of `n` bytes. */
    method PopOut(n: nat) returns (data: seq<byte>)
      requires Valid()
      modifies output, output.buffer
      ensures Valid() && (output.buffer == old(output.buffer) || fresh(output.buffer))
      ensures input.Contents() == old(input.Contents())
      ensures data == old(output.Contents())[..Min(n, old(output.dataSize))]
      ensures output.Contents() == old(output.Contents())[Min(n, old(output.dataSize))..]
    {
      if output.dataSize <= 0 || n == 0 {
        return [];
      }
      var count := n;
      if output.dataSize < count {
        count := output.dataSize;
      }
      data := output.buffer[..count];
      assert data == output.Contents()[..count];
      output.DropFront(count);
    }

    /** `sproto_shrink_in_buffer`. */
    method ShrinkIn(n: nat)
      requires Valid()
      modifies `beginTag, input, input.buffer
      ensures Valid() && !beginTag && (input.buffer == old(input.buffer) || fresh(input.buffer))
      ensures output.Contents() == old(output.Contents())
      ensures input.Contents() == old(input.Contents())[Min(n, old(input.dataSize))..]
    {
      beginTag := false;
      input.DropFront(if n > input.dataSize then input.dataSize else n);
    }

    /** `sproto_pop_in_sdp`: `sdp` is the caller's packet before and `next` after the call. */
    method PopIn(sdp: Sdp) returns (r: Result, next: Sdp)
      requires Valid() && sdp.Fits(cfg.maxData)
      modifies `beginTag, input, input.buffer
      ensures Valid() && (input.buffer == old(input.buffer) || fresh(input.buffer))
      ensures output.Contents() == old(output.Contents())
      ensures (r, input.Contents(), next) == InPopped(cfg, old(input.Contents()), sdp) && next.Fits(cfg.maxData)
    {
      ghost var b := input.Contents();
      if !beginTag && input.dataSize >= TAG_SIZE {
        assert b[..TAG_SIZE] == input.buffer[..TAG_SIZE];
        if input.buffer[..TAG_SIZE] == TAG {
          beginTag := true;
        } else {
          ShrinkIn(input.dataSize);
          return DataErr, sdp;
        }
      }
      if beginTag {
        r, next := PopTagged(sdp);
      } else {
        r, next := False, sdp;
      }
    }

    /** The part of `sproto_pop_in_sdp` that runs once the leading tag has been seen. */
    method PopTagged(sdp: Sdp) returns (r: Result, next: Sdp)
      requires Valid() && sdp.Fits(cfg.maxData) && beginTag
      modifies `beginTag, input, input.buffer
      ensures Valid() && (input.buffer == old(input.buffer) || fresh(input.buffer))
      ensures output.Contents() == old(output.Contents())
      ensures (r, input.Contents(), next) == InPopped(cfg, old(input.Contents()), sdp) && next.Fits(cfg.maxData)
    {
      var view := input.buffer[..input.dataSize];
      var headerSize := cfg.sdpSize - cfg.maxData;
      next := sdp;
      if Sub32(input.dataSize, TAG_SIZE) < headerSize {
        return False, next;
      }
      if view[5] > PROTO_VERSION || view[5] < PROTO_VERSION_MIN {
        next := next.(version := view[5]);
        ShrinkIn(input.dataSize);
        return VersionErr, next;
      }
      var n := FromLE32(view[14..18]);
      if n > cfg.sdpSize - headerSize {
        ShrinkIn(input.dataSize);
        return DataErr, next;
      }
      var packetSize := headerSize + n;
      if packetSize + TAG_SIZE > input.dataSize {
        return False, next;
      }
      if packetSize >= input.size || view[packetSize..][..TAG_SIZE] != TAG {
        ShrinkIn(input.dataSize);
        return DataErr, next;
      }
      next := Sdp(TAG, view[5], FromLE32(view[6..10]), FromLE32(view[10..14]), n,
                  view[headerSize..packetSize] + sdp.data[n..]);
      ShrinkIn(packetSize + TAG_SIZE);
      r := True;
    }
  }
}
