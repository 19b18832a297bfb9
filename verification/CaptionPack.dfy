/** Caption packs: `srpc_set_pack` squeezes an array of fixed-size items with captions into
    a list of items of varying length, `srpc_getpack` expands such a list again. */
module CaptionPack {
  import opened Bytes

  /** The sizes of one kind of pack. The item count is the first field of the header; the
      caption-size field, `width` bytes, is the last one before the caption. */
  datatype Shape = Shape(header: nat, head: nat, width: nat, captionMax: nat, maxCount: nat)
  {
    const itemSize: nat := head + captionMax

    ghost predicate Sane() {
      4 <= header && (width == 2 || width == 4) && width <= head && maxCount < TWO_32
    }
  }

  function FromLE16(b: seq<byte>): u32
    requires |b| == 2
  {
    b[0] as int + 256 * b[1] as int
  }

  /** The caption size an item, or what is left of one, announces. */
  function CaptionSize(sh: Shape, item: seq<byte>): u32
    requires sh.Sane() && sh.head <= |item|
  {
    var field := item[sh.head - sh.width..sh.head];
    if sh.width == 2 then FromLE16(field) else FromLE32(field)
  }

  /** An item on the wire: fixed part and caption, exactly as long as announced. */
  ghost predicate WellFormed(sh: Shape, item: seq<byte>)
    requires sh.Sane()
  {
    && sh.head <= |item|
    && CaptionSize(sh, item) <= sh.captionMax
    && |item| == sh.head + CaptionSize(sh, item)
  }

  ghost predicate AllWellFormed(sh: Shape, items: seq<seq<byte>>)
    requires sh.Sane()
  {
    forall i :: 0 <= i < |items| ==> WellFormed(sh, items[i])
  }

  /** An item as it lies in the structure, with its caption filled up by zeros. */
  function Pad(sh: Shape, item: seq<byte>): (r: seq<byte>)
    ensures |item| <= sh.itemSize ==> |r| == sh.itemSize
  {
    item + Zeros(if |item| <= sh.itemSize then sh.itemSize - |item| else 0)
  }

  function PadAll(sh: Shape, items: seq<seq<byte>>): seq<byte> {
    if items == [] then [] else Pad(sh, items[0]) + PadAll(sh, items[1..])
  }

  /** The structure with the given items; `rest` is the header behind the count. */
  function Structure(sh: Shape, rest: seq<byte>, items: seq<seq<byte>>): seq<byte> {
    LE32(|items|) + rest + PadAll(sh, items)
  }

  /** The message with the given items. */
  function Message(rest: seq<byte>, items: seq<seq<byte>>): seq<byte> {
    LE32(|items|) + rest + Concat(items)
  }

  /** As many well-formed items, up to `k`, as follow one another at the front of `b`. */
  ghost function TakeItems(sh: Shape, b: seq<byte>, k: nat): (items: seq<seq<byte>>)
    requires sh.Sane()
    ensures |items| <= k
    decreases k
  {
    if k == 0 || |b| < sh.head then []
    else
      var n := sh.head + CaptionSize(sh, b);
      if CaptionSize(sh, b) <= sh.captionMax && n <= |b| then [b[..n]] + TakeItems(sh, b[n..], k - 1)
      else []
  }

  lemma SizeOfPrefix(sh: Shape, a: seq<byte>, b: seq<byte>)
    requires sh.Sane() && sh.head <= |a|
    ensures CaptionSize(sh, a + b) == CaptionSize(sh, a)
  {
    assert (a + b)[sh.head - sh.width..sh.head] == a[sh.head - sh.width..sh.head];
  }

  lemma SizeOfTake(sh: Shape, b: seq<byte>, n: nat)
    requires sh.Sane() && sh.head <= n <= |b|
    ensures CaptionSize(sh, b[..n]) == CaptionSize(sh, b)
  {
    assert b == b[..n] + b[n..];
    SizeOfPrefix(sh, b[..n], b[n..]);
  }

  /** Items put one after another are taken apart again. */
  lemma {:induction false} TakeConcat(sh: Shape, items: seq<seq<byte>>, tail: seq<byte>)
    requires sh.Sane() && AllWellFormed(sh, items)
    ensures TakeItems(sh, Concat(items) + tail, |items|) == items
  {
    if items != [] {
      var x, more := items[0], Concat(items[1..]) + tail;
      assert Concat(items) + tail == x + more by {
        Assoc(x, Concat(items[1..]), tail);
      }
      SizeOfPrefix(sh, x, more);
      assert (x + more)[..|x|] == x && (x + more)[|x|..] == more;
      assert AllWellFormed(sh, items[1..]);
      TakeConcat(sh, items[1..], tail);
      assert items == [x] + items[1..];
    }
  }

  lemma TakeNext(sh: Shape, b: seq<byte>, k: nat)
    requires sh.Sane() && k > 0
    ensures TakeItems(sh, b, k) ==
            if |b| >= sh.head && CaptionSize(sh, b) <= sh.captionMax && sh.head + CaptionSize(sh, b) <= |b|
            then [b[..sh.head + CaptionSize(sh, b)]] + TakeItems(sh, b[sh.head + CaptionSize(sh, b)..], k - 1)
            else []
  {
  }

  lemma PieceWellFormed(sh: Shape, b: seq<byte>)
    requires sh.Sane() && sh.head <= |b| && CaptionSize(sh, b) <= sh.captionMax && sh.head + CaptionSize(sh, b) <= |b|
    ensures WellFormed(sh, b[..sh.head + CaptionSize(sh, b)])
  {
    SizeOfTake(sh, b, sh.head + CaptionSize(sh, b));
  }

  lemma {:induction false} TakenWellFormed(sh: Shape, b: seq<byte>, k: nat)
    requires sh.Sane()
    ensures AllWellFormed(sh, TakeItems(sh, b, k))
    decreases k
  {
    hide CaptionSize, TakeItems, WellFormed;
    if k == 0 {
      assert TakeItems(sh, b, k) == [];
    } else {
      TakeNext(sh, b, k);
      if TakeItems(sh, b, k) != [] {
        PieceWellFormed(sh, b);
        TakenWellFormed(sh, b[sh.head + CaptionSize(sh, b)..], k - 1);
      }
    }
  }

  lemma PrefixCons(b: seq<byte>, n: nat, rest: seq<seq<byte>>)
    requires n <= |b| && Concat(rest) <= b[n..]
    ensures Concat([b[..n]] + rest) <= b
  {
    assert ([b[..n]] + rest)[1..] == rest;
    assert b == b[..n] + b[n..];
  }

  lemma {:induction false} TakenIsPrefix(sh: Shape, b: seq<byte>, k: nat)
    requires sh.Sane()
    ensures Concat(TakeItems(sh, b, k)) <= b
    decreases k
  {
    hide CaptionSize, TakeItems, Concat;
    assert Concat([]) == [] by {
      ConcatNone();
    }
    if k == 0 {
      assert TakeItems(sh, b, k) == [];
    } else {
      TakeNext(sh, b, k);
      if TakeItems(sh, b, k) != [] {
        var n := sh.head + CaptionSize(sh, b);
        TakenIsPrefix(sh, b[n..], k - 1);
        PrefixCons(b, n, TakeItems(sh, b[n..], k - 1));
      }
    }
  }

  lemma ConcatNone()
    ensures Concat([]) == []
  {
  }

  /** What is taken is well formed and is what lies at the front. */
  lemma TakenSound(sh: Shape, b: seq<byte>, k: nat)
    requires sh.Sane()
    ensures var items := TakeItems(sh, b, k); AllWellFormed(sh, items) && Concat(items) <= b
  {
    TakenWellFormed(sh, b, k);
    TakenIsPrefix(sh, b, k);
  }

  /** Whether a message is accepted, said without a parser: sizes and count in range, and
      `count` well-formed items right behind the header. */
  ghost predicate Acceptable(sh: Shape, data: seq<byte>)
    requires sh.Sane()
  {
    && sh.header <= |data| <= sh.header + sh.itemSize * sh.maxCount
    && var count := FromLE32(data[..4]);
    && count <= sh.maxCount
    && exists items: seq<seq<byte>> ::
         |items| == count && AllWellFormed(sh, items) && Concat(items) <= data[sh.header..]
  }

  /** The result of `srpc_getpack`: the structure, or nothing. */
  ghost function Expanded(sh: Shape, data: seq<byte>): Option<seq<byte>>
    requires sh.Sane()
  {
    if !(sh.header <= |data| <= sh.header + sh.itemSize * sh.maxCount) then None
    else
      var count := FromLE32(data[..4]);
      if count > sh.maxCount then None
      else
        var items := TakeItems(sh, data[sh.header..], count);
        if |items| == count then Some(Structure(sh, data[4..sh.header], items)) else None
  }

  /** On any bytes the expansion succeeds exactly when they are acceptable. */
  lemma ExpandedIff(sh: Shape, data: seq<byte>)
    requires sh.Sane()
    ensures Expanded(sh, data).Some? <==> Acceptable(sh, data)
  {
    if sh.header <= |data| <= sh.header + sh.itemSize * sh.maxCount {
      var count, b := FromLE32(data[..4]), data[sh.header..];
      TakenSound(sh, b, count);
      if Acceptable(sh, data) {
        var items: seq<seq<byte>> :| |items| == count && AllWellFormed(sh, items) && Concat(items) <= b;
        assert b == Concat(items) + b[|Concat(items)|..];
        TakeConcat(sh, items, b[|Concat(items)|..]);
      }
    }
  }

  // ---- the structure that is sent ----------------------------------------------------

  function Item(sh: Shape, pack: seq<byte>, a: nat): (r: seq<byte>)
    requires sh.header + sh.itemSize * (a + 1) <= |pack|
    ensures |r| == sh.itemSize
  {
    pack[sh.header + sh.itemSize * a..][..sh.itemSize]
  }

  /** The items whose caption fits, cut to their caption, in order. */
  ghost function Kept(sh: Shape, pack: seq<byte>, count: nat): (items: seq<seq<byte>>)
    requires sh.Sane() && sh.header + sh.itemSize * count <= |pack|
    ensures |items| <= count
    decreases count
  {
    if count == 0 then []
    else
      Product(sh, count);
      var item := Item(sh, pack, count - 1);
      var n := CaptionSize(sh, item);
      Kept(sh, pack, count - 1) + if n <= sh.captionMax then [item[..sh.head + n]] else []
  }

  lemma Product(sh: Shape, n: nat)
    requires n > 0
    ensures sh.itemSize * n == sh.itemSize * (n - 1) + sh.itemSize && sh.itemSize * (n - 1) >= 0
  {
  }

  /** The structure a caller of `srpc_set_pack` passes: header and `maxCount` item slots. */
  ghost predicate IsStructure(sh: Shape, pack: seq<byte>) {
    sh.Sane() && |pack| == sh.header + sh.itemSize * sh.maxCount
  }

  lemma SlotInside(sh: Shape, a: nat)
    requires a < sh.maxCount
    ensures sh.itemSize * (a + 1) <= sh.itemSize * sh.maxCount
    ensures sh.itemSize * (a + 1) == sh.itemSize * a + sh.itemSize
  {
  }

  lemma CountInside(sh: Shape, n: nat)
    requires n <= sh.maxCount
    ensures sh.itemSize * n <= sh.itemSize * sh.maxCount
  {
  }

  /** What `srpc_set_pack` hands to the call. */
  ghost function Sent(sh: Shape, pack: seq<byte>, count: int): Option<seq<byte>>
    requires IsStructure(sh, pack)
  {
    if 1 <= count <= sh.maxCount
    then CountInside(sh, count); Some(Message(pack[4..sh.header], Kept(sh, pack, count)))
    else None
  }

  lemma {:induction false} KeptWellFormed(sh: Shape, pack: seq<byte>, count: nat)
    requires sh.Sane() && sh.header + sh.itemSize * count <= |pack|
    ensures AllWellFormed(sh, Kept(sh, pack, count))
    decreases count
  {
    if count > 0 {
      Product(sh, count);
      KeptWellFormed(sh, pack, count - 1);
      var item := Item(sh, pack, count - 1);
      if CaptionSize(sh, item) <= sh.captionMax {
        SizeOfTake(sh, item, sh.head + CaptionSize(sh, item));
      }
    }
  }

  lemma KeptZero(sh: Shape, pack: seq<byte>)
    requires sh.Sane() && sh.header <= |pack|
    ensures sh.itemSize * 0 == 0 && Kept(sh, pack, 0) == []
  {
  }

  ghost predicate CaptionFits(sh: Shape, pack: seq<byte>, a: nat)
    requires sh.Sane()
  {
    sh.header + sh.itemSize * (a + 1) <= |pack| && CaptionSize(sh, Item(sh, pack, a)) <= sh.captionMax
  }

  /** An item of the structure cut to its caption. */
  ghost function Cut(sh: Shape, pack: seq<byte>, a: nat): seq<byte>
    requires sh.Sane() && CaptionFits(sh, pack, a)
  {
    Item(sh, pack, a)[..sh.head + CaptionSize(sh, Item(sh, pack, a))]
  }

  /** The indices below `count` whose caption fits, in order. */
  ghost function Indices(sh: Shape, pack: seq<byte>, count: nat): (at: seq<nat>)
    requires sh.Sane()
    ensures forall i :: 0 <= i < |at| ==> at[i] < count
    ensures forall i, j :: 0 <= i < j < |at| ==> at[i] < at[j]
  {
    if count == 0 then []
    else Indices(sh, pack, count - 1) + if CaptionFits(sh, pack, count - 1) then [count - 1] else []
  }

  lemma {:induction false} IndicesComplete(sh: Shape, pack: seq<byte>, count: nat, a: nat)
    requires sh.Sane()
    ensures a in Indices(sh, pack, count) <==> a < count && CaptionFits(sh, pack, a)
  {
    hide CaptionFits;
    if count > 0 {
      IndicesComplete(sh, pack, count - 1, a);
    }
  }

  /** The i-th kept item is the structure's item at the i-th of these indices, cut to its
      caption. */
  lemma {:induction false} KeptAt(sh: Shape, pack: seq<byte>, count: nat, i: nat)
    requires sh.Sane() && sh.header + sh.itemSize * count <= |pack|
    ensures |Kept(sh, pack, count)| == |Indices(sh, pack, count)|
    ensures i < |Indices(sh, pack, count)| ==>
              var a := Indices(sh, pack, count)[i];
              CaptionFits(sh, pack, a) && Kept(sh, pack, count)[i] == Cut(sh, pack, a)
    decreases count
  {
    if count > 0 {
      KeptNext(sh, pack, count - 1);
      KeptAt(sh, pack, count - 1, i);
      hide CaptionSize, Item;
    } else {
      KeptZero(sh, pack);
    }
  }

  lemma {:induction false} ConcatSize(sh: Shape, items: seq<seq<byte>>)
    requires sh.Sane() && AllWellFormed(sh, items)
    ensures |Concat(items)| <= sh.itemSize * |items|
  {
    if items != [] {
      ConcatSize(sh, items[1..]);
      Product(sh, |items|);
    }
  }

  lemma MessageParts(rest: seq<byte>, items: seq<seq<byte>>, header: nat)
    requires |rest| + 4 == header
    ensures var m := Message(rest, items);
      |m| == header + |Concat(items)| && m[..4] == LE32(|items|) && m[4..header] == rest && m[header..] == Concat(items)
  {
  }

  /** Round trip: expanding what was sent gives the structure with exactly the kept items,
      their captions filled up by zeros, the count corrected, the rest of the header kept. */
  lemma RoundTrip(sh: Shape, pack: seq<byte>, count: nat)
    requires IsStructure(sh, pack) && 1 <= count <= sh.maxCount
    ensures sh.header + sh.itemSize * count <= |pack|
    ensures Sent(sh, pack, count).Some?
    ensures Expanded(sh, Sent(sh, pack, count).value) == Some(Structure(sh, pack[4..sh.header], Kept(sh, pack, count)))
  {
    hide Kept, LE32, FromLE32, Concat, CaptionSize;
    CountInside(sh, count);
    var items, rest := Kept(sh, pack, count), pack[4..sh.header];
    KeptWellFormed(sh, pack, count);
    ConcatSize(sh, items);
    CountInside(sh, |items|);
    var data := Sent(sh, pack, count).value;
    MessageParts(rest, items, sh.header);
    FromLE32OfLE32(|items|);
    TakeConcat(sh, items, []);
    assert Concat(items) + [] == Concat(items);
  }

  /** Where the j-th item lies in an expanded structure. */
  lemma {:induction false} PadAllAt(sh: Shape, items: seq<seq<byte>>, j: nat)
    requires j < |items| && forall i :: 0 <= i < |items| ==> |items[i]| <= sh.itemSize
    ensures |PadAll(sh, items)| == sh.itemSize * |items|
    ensures sh.itemSize * (j + 1) <= sh.itemSize * |items|
    ensures PadAll(sh, items)[sh.itemSize * j..][..sh.itemSize] == Pad(sh, items[j])
  {
    var first, rest := Pad(sh, items[0]), PadAll(sh, items[1..]);
    Product(sh, |items|);
    if |items| > 1 {
      PadAllAt(sh, items[1..], if j > 0 then j - 1 else 0);
    }
    if j > 0 {
      Product(sh, j);
      Product(sh, j + 1);
      var all, k := first + rest, sh.itemSize * (j - 1);
      assert all[sh.itemSize + k..] == rest[k..];
    }
  }

  lemma StructureItemAt(sh: Shape, rest: seq<byte>, items: seq<seq<byte>>, j: nat)
    requires sh.Sane() && |rest| == sh.header - 4 && AllWellFormed(sh, items) && j < |items|
    ensures sh.header + sh.itemSize * (j + 1) <= |Structure(sh, rest, items)|
    ensures Item(sh, Structure(sh, rest, items), j) == Pad(sh, items[j])
  {
    PadAllAt(sh, items, j);
    Product(sh, j + 1);
    var s, p := Structure(sh, rest, items), PadAll(sh, items);
    assert s[sh.header + sh.itemSize * j..] == p[sh.itemSize * j..];
  }

  // ---- the two operations ------------------------------------------------------------

  /** `srpc_set_pack` up to the call: the message to send, or nothing. */
  method SetPack(sh: Shape, pack: seq<byte>, count: int) returns (r: Option<seq<byte>>)
    requires IsStructure(sh, pack)
    ensures r == Sent(sh, pack, count)
  {
    hide Kept, Item, CaptionSize, Concat, LE32;
    if count < 1 || count > sh.maxCount {
      return None;
    }
    var size := |pack| - sh.itemSize * sh.maxCount;
    var offset := size;
    var buffer := pack[..size];
    var n := 0;
    KeptNone(sh, pack);
    for a := 0 to count
      invariant sh.header + sh.itemSize * a <= |pack|
      invariant n == |Kept(sh, pack, a)|
      invariant buffer == pack[..sh.header] + Concat(Kept(sh, pack, a))
      invariant size == offset == |buffer|
    {
      SlotInside(sh, a);
      KeptNext(sh, pack, a);
      var item := Item(sh, pack, a);
      var captionSize := CaptionSize(sh, item);
      if captionSize <= sh.captionMax {
        size := size + sh.itemSize - sh.captionMax + captionSize;
        var piece := item[..size - offset];
        GrowConcat(pack[..sh.header], Kept(sh, pack, a), piece);
        buffer := buffer + piece;
        offset := offset + (size - offset);
        n := n + 1;
      }
    }
    buffer := LE32(n) + buffer[4..];
    assert buffer == LE32(n) + pack[4..sh.header] + Concat(Kept(sh, pack, count));
    r := Some(buffer);
  }

  lemma KeptNone(sh: Shape, pack: seq<byte>)
    requires IsStructure(sh, pack)
    ensures sh.header + sh.itemSize * 0 <= |pack| && Kept(sh, pack, 0) == []
    ensures pack[..sh.header] + Concat(Kept(sh, pack, 0)) == pack[..sh.header]
  {
  }

  lemma KeptNext(sh: Shape, pack: seq<byte>, a: nat)
    requires sh.Sane() && sh.header + sh.itemSize * (a + 1) <= |pack|
    ensures sh.itemSize * (a + 1) == sh.itemSize * a + sh.itemSize && sh.header + sh.itemSize * a <= |pack|
    ensures var item := Item(sh, pack, a); var n := CaptionSize(sh, item);
      Kept(sh, pack, a + 1) == if n <= sh.captionMax then Kept(sh, pack, a) + [item[..sh.head + n]] else Kept(sh, pack, a)
  {
    Product(sh, a + 1);
    hide CaptionSize, Item;
  }

  lemma GrowConcat(head: seq<byte>, items: seq<seq<byte>>, piece: seq<byte>)
    ensures head + Concat(items) + piece == head + Concat(items + [piece])
  {
    ConcatAppend(items, [piece]);
    assert Concat([piece]) == piece + [] == piece;
    Assoc(head, Concat(items), piece);
  }

  /** `srpc_getpack`: `data` is the payload of the received packet, of which nothing outside
      its `data_size` bytes is looked at. */
  method GetPack(sh: Shape, data: seq<byte>) returns (r: Option<seq<byte>>)
    requires sh.Sane()
    ensures r == Expanded(sh, data)
  {
    hide FromLE32;
    if |data| < sh.header || |data| > sh.header + sh.itemSize * sh.maxCount {
      return None;
    }
    var count := FromLE32(data[..4]);
    if count > sh.maxCount {
      return None;
    }
    var pack, n := FillPack(sh, data, count);
    r := if n == count then Some(pack) else None;
  }

  /** The items stored so far, then zeros; the count in front is theirs. */
  ghost predicate Filled(sh: Shape, image: seq<byte>, rest: seq<byte>, items: seq<seq<byte>>, room: nat) {
    image == LE32(|items|) + rest + PadAll(sh, items) + Zeros(room)
  }

  lemma {:induction false} PadAllSnoc(sh: Shape, items: seq<seq<byte>>, piece: seq<byte>)
    requires |piece| <= sh.itemSize && forall i :: 0 <= i < |items| ==> |items[i]| <= sh.itemSize
    ensures PadAll(sh, items + [piece]) == PadAll(sh, items) + Pad(sh, piece)
    ensures |PadAll(sh, items)| == sh.itemSize * |items|
  {
    hide Pad;
    if items == [] {
      assert [] + [piece] == [piece] && PadAll(sh, [piece][1..]) == [];
      assert PadAll(sh, [piece]) == Pad(sh, piece) + [] == Pad(sh, piece) == [] + Pad(sh, piece);
    } else {
      PadAllSnoc(sh, items[1..], piece);
      Product(sh, |items|);
      assert (items + [piece])[0] == items[0] && (items + [piece])[1..] == items[1..] + [piece];
      Assoc(Pad(sh, items[0]), PadAll(sh, items[1..]), Pad(sh, piece));
    }
  }

  /** Writing an item into the zeros behind the others pads it. */
  lemma OverwriteZeros(a: seq<byte>, room: nat, piece: seq<byte>, size: nat)
    requires |piece| <= size <= room
    ensures Overwrite(a + Zeros(room), |a|, piece) == a + (piece + Zeros(size - |piece|)) + Zeros(room - size)
  {
  }

  lemma OverwriteFront(old_: seq<byte>, new_: seq<byte>, tail: seq<byte>)
    requires |old_| == |new_|
    ensures Overwrite(old_ + tail, 0, new_) == new_ + tail
  {
  }

  /** The space of `n` item slots. */
  function Slots(sh: Shape, n: nat): nat { sh.itemSize * n }

  lemma SlotsNext(sh: Shape, n: nat)
    requires n > 0
    ensures Slots(sh, n) == Slots(sh, n - 1) + sh.itemSize && Slots(sh, 0) == 0
  {
    Product(sh, n);
  }

  lemma PadIs(sh: Shape, piece: seq<byte>)
    requires |piece| <= sh.itemSize
    ensures Pad(sh, piece) == piece + Zeros(sh.itemSize - |piece|)
  {
  }

  lemma FilledNext(sh: Shape, image: seq<byte>, rest: seq<byte>, items: seq<seq<byte>>, room: nat, piece: seq<byte>)
    requires Filled(sh, image, rest, items, room) && |piece| <= sh.itemSize <= room
    requires forall i :: 0 <= i < |items| ==> |items[i]| <= sh.itemSize
    ensures var at := 4 + |rest| + Slots(sh, |items|);
      && at + |piece| <= |image|
      && Filled(sh, Overwrite(Overwrite(image, at, piece), 0, LE32(|items| + 1)), rest, items + [piece], room - sh.itemSize)
  {
    PadAllSnoc(sh, items, piece);
    hide LE32, PadAll, Overwrite, Pad;
    assert Pad(sh, piece) == piece + Zeros(sh.itemSize - |piece|) by {
      PadIs(sh, piece);
    }
    var n, body, zeros := LE32(|items|), PadAll(sh, items), Zeros(room - sh.itemSize);
    var front := n + rest + body;
    OverwriteZeros(front, room, piece, sh.itemSize);
    var p, more := Pad(sh, piece), LE32(|items| + 1);
    Regroup(n, rest, body, p, zeros);
    OverwriteFront(n, more, rest + (body + p) + zeros);
    Regroup(more, rest, body, p, zeros);
  }

  lemma Regroup(n: seq<byte>, rest: seq<byte>, body: seq<byte>, p: seq<byte>, zeros: seq<byte>)
    ensures n + rest + body + p + zeros == n + (rest + (body + p) + zeros) == n + rest + (body + p) + zeros
  {
    Assoc(n + rest, body, p);
    Assoc(n, rest, body + p);
    Assoc(n, rest + (body + p), zeros);
  }

  lemma FilledFirst(sh: Shape, image: seq<byte>, head: seq<byte>, room: nat)
    requires 4 <= |head| && image == head + Zeros(room)
    ensures Filled(sh, Overwrite(image, 0, LE32(0)), head[4..], [], room)
  {
    assert head == head[..4] + head[4..];
    OverwriteFront(head[..4], LE32(0), head[4..] + Zeros(room));
    assert image == head[..4] + (head[4..] + Zeros(room));
    assert LE32(0) + (head[4..] + Zeros(room)) == LE32(0) + head[4..] + [] + Zeros(room);
  }

  /** A full structure leaves no room. */
  lemma FilledUp(sh: Shape, image: seq<byte>, rest: seq<byte>, items: seq<seq<byte>>)
    requires Filled(sh, image, rest, items, 0)
    ensures image == Structure(sh, rest, items)
  {
    var s := Structure(sh, rest, items);
    assert s + [] == s;
  }

  /** The allocation and the loop of `srpc_getpack`; `n` is the count it ends up with. */
  method FillPack(sh: Shape, data: seq<byte>, count: u32) returns (image: seq<byte>, n: u32)
    requires sh.Sane() && sh.header <= |data| && count <= sh.maxCount
    ensures var items := TakeItems(sh, data[sh.header..], count);
      n == |items| && (n == count ==> image == Structure(sh, data[4..sh.header], items))
  {
    hide Overwrite, LE32, CaptionSize, TakeItems, Filled, Slots;
    var pack := NewPack(sh, data[..sh.header], count);
    n := 0;
    var offset := sh.header;
    ghost var b := data[sh.header..];
    ghost var items := TakeItems(sh, b, count);
    ghost var rest := data[4..sh.header];
    assert data[..sh.header][4..] == rest;
    TakenSound(sh, b, count);
    for a := 0 to count
      invariant n <= a && n <= |items| && sh.header <= offset <= |data|
      invariant Filled(sh, pack[..], rest, items[..n], Slots(sh, count - n))
      invariant n < a ==> |data| - offset < sh.head
      invariant TakeItems(sh, data[offset..], count - n) == items[n..]
    {
      TakeNext(sh, data[offset..], count - n);
      if |data| - offset >= sh.head {
        var size := CaptionSize(sh, data[offset..]);
        if size <= sh.captionMax && |data| - offset >= sh.head + size {
          var piece := data[offset..][..sh.head + size];
          ghost var later := TakeItems(sh, data[offset..][sh.head + size..], count - n - 1);
          assert items[n..] == [piece] + later;
          assert later == items[n..][1..] == items[n + 1..] && items[..n + 1] == items[..n] + [piece];
          SlotsNext(sh, count - n);
          FilledNext(sh, pack[..], rest, items[..n], Slots(sh, count - n), piece);
          CopyInto(pack, sh.header + Slots(sh, a), piece);
          assert data[offset..][sh.head + size..] == data[offset + sh.head + size..];
          offset := offset + sh.head + size;
          n := n + 1;
          CopyInto(pack, 0, LE32(n));
        } else {
          break;
        }
      }
    }
    if n == count {
      assert items[..n] == items && Slots(sh, 0) == 0 by {
        SlotsNext(sh, 1);
      }
      FilledUp(sh, pack[..], rest, items);
    } else {
      TakeNext(sh, data[offset..], count - n);
    }
    image := pack[..];
  }

  /** The zeroed structure with the header copied in and the count reset. */
  method NewPack(sh: Shape, head: seq<byte>, count: u32) returns (pack: array<byte>)
    requires 4 <= |head|
    ensures fresh(pack) && Filled(sh, pack[..], head[4..], [], Slots(sh, count))
  {
    hide Filled, Slots;
    var room := Slots(sh, count);
    pack := new byte[|head| + room](i => 0);
    CopyInto(pack, 0, head);
    assert pack[..] == head + Zeros(room);
    FilledFirst(sh, pack[..], head, room);
    CopyInto(pack, 0, LE32(0));
  }

  // ---- in terms of the caption sizes -------------------------------------------------

  /** The little-endian field of `width` bytes with value `n`. */
  ghost predicate SizeField(width: nat, n: int, field: seq<byte>) {
    && |field| == width
    && (width == 2 ==> n == field[0] as int + 0x100 * field[1] as int)
    && (width == 4 ==> n == field[0] as int + 0x100 * field[1] as int + 0x1_0000 * field[2] as int + 0x100_0000 * field[3] as int)
  }

  /** An item of a pack: the fixed part in front of the caption size, the caption size with its
      field, and the whole space for the caption. */
  datatype Entry = Entry(fixed: seq<byte>, size: nat, field: seq<byte>, space: seq<byte>)
  {
    ghost predicate Ok(sh: Shape) {
      sh.Sane() && |fixed| == sh.head - sh.width && SizeField(sh.width, size, field) && |space| == sh.captionMax
    }

    function Slot(): seq<byte> { fixed + field + space }

    /** On the wire: the caption as long as it is said to be. */
    function Wire(): seq<byte>
      requires size <= |space|
    {
      fixed + field + space[..size]
    }
  }

  /** What an item's caption size is, whatever follows it. */
  lemma CaptionSizeIs(sh: Shape, fixed: seq<byte>, n: int, field: seq<byte>, after: seq<byte>)
    requires sh.Sane() && |fixed| == sh.head - sh.width && SizeField(sh.width, n, field)
    ensures CaptionSize(sh, fixed + field + after) == n
  {
    assert (fixed + field + after)[sh.head - sh.width..sh.head] == field;
  }

  ghost predicate AllOk(sh: Shape, entries: seq<Entry>) { forall i :: 0 <= i < |entries| ==> entries[i].Ok(sh) }

  function AllSlots(entries: seq<Entry>): seq<byte> {
    if entries == [] then [] else AllSlots(entries[..|entries| - 1]) + entries[|entries| - 1].Slot()
  }

  /** The items whose caption is not longer than the space for it, in order. */
  ghost function Fitting(sh: Shape, entries: seq<Entry>): (r: seq<seq<byte>>)
    requires AllOk(sh, entries)
    decreases |entries|
  {
    if entries == [] then []
    else
      var e := entries[|entries| - 1];
      Fitting(sh, entries[..|entries| - 1]) + if e.size <= sh.captionMax then [e.Wire()] else []
  }

  /** `pack` starts with a header and these items. */
  ghost predicate Holds(sh: Shape, pack: seq<byte>, entries: seq<Entry>) {
    && IsStructure(sh, pack) && AllOk(sh, entries) && |entries| <= sh.maxCount
    && sh.header + |AllSlots(entries)| <= |pack|
    && pack[sh.header..sh.header + |AllSlots(entries)|] == AllSlots(entries)
  }

  lemma {:induction false} SlotsSize(sh: Shape, entries: seq<Entry>)
    requires AllOk(sh, entries)
    ensures |AllSlots(entries)| == sh.itemSize * |entries|
    decreases |entries|
  {
    if entries != [] {
      SlotsSize(sh, entries[..|entries| - 1]);
      Product(sh, |entries|);
    }
  }

  lemma LastSlot(sh: Shape, pack: seq<byte>, entries: seq<Entry>)
    requires entries != [] && Holds(sh, pack, entries)
    ensures var k := |entries| - 1;
      && Holds(sh, pack, entries[..k])
      && sh.header + sh.itemSize * (k + 1) <= |pack|
      && Item(sh, pack, k) == entries[k].Slot()
  {
    var k := |entries| - 1;
    var front, last := entries[..k], entries[k].Slot();
    SlotsSize(sh, front);
    SlotsSize(sh, entries);
    Product(sh, k + 1);
    var at, all := sh.header + sh.itemSize * k, AllSlots(entries);
    assert all == AllSlots(front) + last;
    assert pack[sh.header..at] == pack[sh.header..sh.header + |all|][..sh.itemSize * k] == AllSlots(front);
    assert pack[at..][..sh.itemSize] == pack[sh.header..sh.header + |all|][sh.itemSize * k..] == last;
  }

  /** What is kept of such a pack. */
  lemma {:induction false} KeptFitting(sh: Shape, pack: seq<byte>, entries: seq<Entry>)
    requires Holds(sh, pack, entries)
    ensures sh.header + sh.itemSize * |entries| <= |pack|
    ensures Kept(sh, pack, |entries|) == Fitting(sh, entries)
    decreases |entries|
  {
    CountInside(sh, |entries|);
    if entries != [] {
      var k := |entries| - 1;
      var e := entries[k];
      LastSlot(sh, pack, entries);
      KeptFitting(sh, pack, entries[..k]);
      CaptionSizeIs(sh, e.fixed, e.size, e.field, e.space);
      KeptNext(sh, pack, k);
      if e.size <= sh.captionMax {
        assert e.Slot()[..sh.head + e.size] == e.Wire();
      }
    }
  }

  /** A pack with these items is sent as the header with the number of those that fit, and
      these, each with its caption as long as it is said to be; expanded again, the caption of
      each is followed by zeros up to the space for it. */
  lemma SentAndExpanded(sh: Shape, pack: seq<byte>, entries: seq<Entry>)
    requires Holds(sh, pack, entries) && entries != []
    ensures var items, rest := Fitting(sh, entries), pack[4..sh.header];
      && Sent(sh, pack, |entries|) == Some(LE32(|items|) + rest + Concat(items))
      && Expanded(sh, LE32(|items|) + rest + Concat(items)) == Some(LE32(|items|) + rest + PadAll(sh, items))
  {
    KeptFitting(sh, pack, entries);
    RoundTrip(sh, pack, |entries|);
    hide Kept, Fitting, Concat, PadAll, LE32, Expanded, IsStructure;
  }

  /** The padding of an item in terms of its caption size. */
  lemma PaddedWire(sh: Shape, e: Entry)
    requires e.Ok(sh) && e.size <= sh.captionMax
    ensures Pad(sh, e.Wire()) == e.fixed + e.field + e.space[..e.size] + Zeros(sh.captionMax - e.size)
  {
    assert |e.Wire()| == sh.head + e.size;
  }

  /** Nothing is sent exactly for a count out of range. */
  lemma SentIff(sh: Shape, pack: seq<byte>, count: int)
    requires IsStructure(sh, pack)
    ensures Sent(sh, pack, count).Some? <==> 1 <= count <= sh.maxCount
  {
  }
}
