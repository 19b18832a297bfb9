/** The multi-value container: an extended value that wraps itself when a second value is
    added to it, and the lookup of the n-th value inside. */
module MultiValue {
  import opened Bytes

  const NONE: byte := 0
  const MULTI: byte := 100
  const EV_HEADER: nat := 5

  /** One stored value: its type and the bytes that count. */
  datatype Entry = Entry(kind: byte, data: seq<byte>)

  ghost predicate Storable(cap: nat, e: Entry) {
    e.kind != NONE && 1 <= |e.data| <= cap
  }

  function EntryBytes(e: Entry): (b: seq<byte>)
    ensures |b| == EV_HEADER + |e.data|
  {
    [e.kind] + LE32(|e.data|) + e.data
  }

  function Encode(list: seq<Entry>): seq<byte> {
    if list == [] then [] else EntryBytes(list[0]) + Encode(list[1..])
  }

  /** A value stored as it is. */
  ghost predicate Plain(kind: byte, size: int, value: seq<byte>, list: seq<Entry>) {
    |list| == 1 && kind == list[0].kind && kind != MULTI && 0 <= size <= |value| && value[..size] == list[0].data
  }

  /** Values packed one after another. */
  ghost predicate Packed(kind: byte, size: int, value: seq<byte>, list: seq<Entry>) {
    list != [] && kind == MULTI && size == |Encode(list)| <= |value| && value[..size] == Encode(list)
  }

  /** What a container stands for: nothing, one plain value, or packed ones. */
  ghost predicate Stands(cap: nat, kind: byte, size: int, value: seq<byte>, list: seq<Entry>) {
    && |value| == cap
    && (forall e <- list :: Storable(cap, e))
    && if list == [] then kind == NONE else Plain(kind, size, value, list) || Packed(kind, size, value, list)
  }

  /** Whether one more value fits into a container that is not empty. */
  ghost predicate Fits(cap: nat, list: seq<Entry>, e: Entry) { |Encode(list + [e])| <= cap }

  lemma {:induction false} EncodeAppend(a: seq<Entry>, b: seq<Entry>)
    ensures Encode(a + b) == Encode(a) + Encode(b)
  {
    hide EntryBytes;
    if a == [] {
      assert a + b == b && [] + Encode(b) == Encode(b);
    } else {
      EncodeAppend(a[1..], b);
      assert (a + b)[0] == a[0] && (a + b)[1..] == a[1..] + b;
      Assoc(EntryBytes(a[0]), Encode(a[1..]), Encode(b));
    }
  }

  /** Every byte of a packed entry: type, little-endian size, data. */
  lemma EntryLayout(e: Entry)
    requires |e.data| < TWO_32
    ensures var b := EntryBytes(e);
      && |b| == 5 + |e.data| && b[0] == e.kind && b[5..] == e.data
      && |e.data| == b[1] as int + 0x100 * b[2] as int + 0x1_0000 * b[3] as int + 0x100_0000 * b[4] as int
  {
    FromLE32OfLE32(|e.data|);
  }

  lemma EncodeOne(e: Entry)
    ensures Encode([e]) == EntryBytes(e)
  {
    assert Encode([e][1..]) == [];
  }

  lemma OverwrittenPrefix(buf: seq<byte>, off: nat, data: seq<byte>)
    requires off + |data| <= |buf|
    ensures Overwrite(buf, off, data)[..off + |data|] == buf[..off] + data
  {
  }

  /** A plain value in the form in which it lies in a container it was wrapped into. */
  ghost function Wrapped(e: Entry): Entry { Entry(MULTI, EntryBytes(e)) }

  class ExtendedValue {
    var kind: byte
    var size: u32
    const value: array<byte>

    constructor (cap: nat)
      ensures kind == NONE && value.Length == cap && fresh(value)
    {
      kind, size := NONE, 0;
      value := new byte[cap](i => 0);
    }

    ghost predicate Is(list: seq<Entry>)
      reads this, value
    {
      Stands(value.Length, kind, size, value[..], list)
    }

    /** Type and bytes that count. */
    ghost function AsEntry(): Entry
      reads this, value
      requires size <= value.Length
    {
      Entry(kind, value[..size])
    }

    ghost predicate SameAs(kind: byte, size: u32, bytes: seq<byte>)
      reads this, value
    {
      this.kind == kind && this.size == size && value[..] == bytes
    }

    /** The first `n` bytes of the structure. */
    function Image(n: nat): (b: seq<byte>)
      reads this, value
      requires EV_HEADER <= n <= EV_HEADER + value.Length
      ensures |b| == n
    {
      [kind] + LE32(size) + value[..n - EV_HEADER]
    }

    /** `srpc_evtool_value_add`; `list` is what the container holds. An empty one becomes a
        copy of the source. Otherwise the source is appended, or the container stays as it
        was. A value may be added to itself: a plain one is wrapped first, and appended in
        its wrapped form; it stays wrapped if only that does not fit any more. */
    method Add(src: ExtendedValue, ghost list: seq<Entry>) returns (ok: bool)
      requires src == this || src.value != value
      requires value.Length == src.value.Length < TWO_32 - EV_HEADER - value.Length
      requires src.size + 2 * EV_HEADER + value.Length < TWO_32 && Is(list)
      modifies this, value
      ensures old(kind) == NONE ==> ok == old(src.kind != NONE && src.size != 0)
      ensures old(kind) == NONE && ok ==> SameAs(old(src.kind), old(src.size), old(src.value[..]))
      ensures old(kind) == NONE && ok && old(src.kind != MULTI && src.size <= value.Length) ==> Is([old(src.AsEntry())])
      ensures old(kind) != NONE ==>
                if old(src.size > value.Length) then !ok
                else
                  var e := if src == this && old(kind) != MULTI then Wrapped(old(AsEntry())) else old(src.AsEntry());
                  ok == (Storable(value.Length, e) && Fits(value.Length, list, e)) && Is(if ok then list + [e] else list)
      ensures !ok ==> if src == this && old(WrapsItself()) then kind == MULTI
                      else SameAs(old(kind), old(size), old(value[..]))
      decreases if kind == MULTI then 0 else 1
    {
      assert list != [] ==> list[0] in list;
      if src.kind == NONE || src.size == 0 {
        return false;
      }
      if kind == NONE {
        kind, size := src.kind, src.size;
        CopyInto(value, 0, src.value[..]);
        assert value[..] == src.value[..];
        return true;
      }
      var srcSize := EV_HEADER + src.size;
      if kind == MULTI {
        ok := Append(src, srcSize, list);
        return;
      }
      var prevSize := EV_HEADER + size;
      EncodeOne(list[0]);
      assert list == [list[0]] && AsEntry() == list[0];
      if src.size <= value.Length {
        EncodeOne(src.AsEntry());
        EncodeAppend(list, [src.AsEntry()]);
      }
      EncodeOne(Wrapped(list[0]));
      EncodeAppend(list, [Wrapped(list[0])]);
      if prevSize + srcSize > value.Length {
        return false;
      }
      Wrap(prevSize, list);
      hide EntryBytes;
      ok := Add(src, list);
    }

    /** A plain value becomes a container that holds it. */
    method Wrap(prevSize: nat, ghost list: seq<Entry>)
      requires kind != NONE && kind != MULTI && Is(list) && prevSize == EV_HEADER + size <= value.Length < TWO_32
      modifies this, value
      ensures kind == MULTI && size == prevSize && Is(list) && AsEntry() == Wrapped(old(AsEntry()))
    {
      var prev := Image(prevSize);
      EncodeOne(list[0]);
      assert list == [list[0]] && prev == EntryBytes(list[0]);
      kind, size := MULTI, prevSize;
      CopyInto(value, 0, prev);
      assert value[..size] == prev;
    }

    /** A plain value added to itself gets past the first size check. */
    ghost predicate WrapsItself()
      reads this
    {
      kind != NONE && kind != MULTI && size != 0 && 2 * (EV_HEADER + size) <= value.Length
    }

    /** The branch of `srpc_evtool_value_add` for a container that is already packed. */
    method Append(src: ExtendedValue, srcSize: nat, ghost list: seq<Entry>) returns (ok: bool)
      requires src == this || src.value != value
      requires value.Length == src.value.Length < TWO_32 && 1 <= src.size && srcSize == EV_HEADER + src.size
      requires src.kind != NONE && kind == MULTI && Is(list)
      modifies this, value
      ensures old(src.size > value.Length) ==> !ok
      ensures !old(src.size > value.Length) ==>
                ok == Fits(value.Length, list, old(src.AsEntry())) && Is(if ok then list + [old(src.AsEntry())] else list)
      ensures !ok ==> SameAs(old(kind), old(size), old(value[..]))
    {
      if size + srcSize > value.Length {
        if src.size <= value.Length {
          EncodeOne(src.AsEntry());
          EncodeAppend(list, [src.AsEntry()]);
        }
        return false;
      }
      ghost var e := src.AsEntry();
      EncodeOne(e);
      EncodeAppend(list, [e]);
      assert list != [] ==> list[0] in list;
      Put(src.Image(srcSize), list, e);
      ok := true;
    }

    /** Copy the bytes of an entry behind the packed ones. */
    method Put(bytes: seq<byte>, ghost list: seq<Entry>, ghost e: Entry)
      requires kind == MULTI && Is(list) && Storable(value.Length, e) && bytes == EntryBytes(e)
      requires Encode(list + [e]) == Encode(list) + bytes && size + |bytes| <= value.Length < TWO_32
      modifies this`size, value
      ensures Is(list + [e])
    {
      hide EntryBytes, Overwrite, Encode;
      ghost var was := value[..];
      CopyInto(value, size, bytes);
      OverwrittenPrefix(was, size, bytes);
      assert value[..size + |bytes|] == was[..size] + bytes == Encode(list + [e]);
      size := size + |bytes|;
    }

    /** `srpc_evtool_value_get`. */
    method Get(index: nat, dest: ExtendedValue) returns (found: bool)
      requires dest != this && dest.value != value && dest.value.Length == value.Length
      requires Readable(kind, size, value[..], index)
      modifies dest, dest.value
      ensures var r := Retrieve(kind, size, value[..], index);
        && found == !r.Missing?
        && match r
           case Missing => dest.kind == old(dest.kind) && dest.size == old(dest.size) && dest.value[..] == old(dest.value[..])
           case Whole => dest.kind == kind && dest.size == size && dest.value[..] == value[..]
           case Item(e) => dest.kind == e.kind && dest.size == |e.data| && dest.value[..] == Overwrite(old(dest.value[..]), 0, e.data)
    {
      if kind == NONE {
        return false;
      }
      var r := if index == 0 then Whole else Missing;
      if kind == MULTI {
        r := Walk(index);
      }
      ghost var whole := value[..];
      match r {
        case Missing =>
          found := false;
        case Whole =>
          dest.kind, dest.size := kind, size;
          CopyInto(dest.value, 0, value[..]);
          assert dest.value[..] == whole;
          found := true;
        case Item(e) =>
          dest.kind, dest.size := e.kind, |e.data|;
          CopyInto(dest.value, 0, e.data);
          found := true;
      }
    }

    /** The loop of `srpc_evtool_value_get` over a packed value, and the way out of it. */
    method Walk(index: nat) returns (r: Found)
      requires kind == MULTI && Readable(kind, size, value[..], index)
      ensures r == Lookup(value[..], Limit(size, value.Length), 0, index)
    {
      hide FromLE32, InsideFrom, Lookup;
      var bytes := value[..];
      var limit := if size > value.Length then value.Length else size;
      limit := Sub32(limit, EV_HEADER);
      var offset, n := 0, 0;
      while offset < limit
        invariant 0 <= offset < TWO_32 && n <= index && (n == 0 ==> offset == 0) && (n > 0 ==> limit > 0)
        invariant InsideFrom(bytes, limit, offset, index - n)
        invariant Lookup(bytes, limit, offset, index - n) == Lookup(bytes, limit, 0, index)
        decreases index - n, if offset < limit then 1 else 0
      {
        WalkStep(bytes, limit, offset, index - n);
        var nextKind, nextSize := bytes[offset], FromLE32(bytes[offset + 1..offset + EV_HEADER]);
        if nextKind == NONE || nextSize == 0 || (nextSize + offset + EV_HEADER) % TWO_32 > |bytes| {
          return Missing;
        }
        if n == index {
          return Item(Entry(nextKind, bytes[offset + EV_HEADER..offset + EV_HEADER + nextSize]));
        }
        offset := (offset + EV_HEADER + nextSize) % TWO_32;
        n := n + 1;
      }
      WalkOver(bytes, limit, offset, index - n);
      r := if index == 0 then Whole else Missing;
    }
  }

  // ---- lookup ------------------------------------------------------------------------

  datatype Found = Missing | Whole | Item(entry: Entry)

  /** The entry whose header lies at `offset`. */
  ghost function EntrySize(value: seq<byte>, offset: nat): u32
    requires offset + EV_HEADER <= |value|
  {
    FromLE32(value[offset + 1..offset + EV_HEADER])
  }

  ghost function EntryAt(value: seq<byte>, offset: nat, n: nat): (e: Entry)
    requires offset + EV_HEADER + n <= |value|
    ensures |e.data| == n
  {
    Entry(value[offset], value[offset + EV_HEADER..offset + EV_HEADER + n])
  }

  /** Where the entry at `offset` ends, in 32-bit arithmetic. */
  ghost function EntryEnd(value: seq<byte>, offset: nat): u32
    requires offset + EV_HEADER <= |value|
  {
    (EntrySize(value, offset) + offset + EV_HEADER) % TWO_32
  }

  /** The walk stops at such an entry. */
  ghost predicate Unusable(value: seq<byte>, offset: nat)
    requires offset + EV_HEADER <= |value|
  {
    value[offset] == NONE || EntrySize(value, offset) == 0 || EntryEnd(value, offset) > |value|
  }

  /** Everything a walk from `offset`, `index` entries further, looks at lies inside the value.
      It may not when an entry is so long that the sum of the bound check wraps around, or
      when the container is shorter than one header. */
  ghost predicate InsideFrom(value: seq<byte>, limit: u32, offset: u32, index: nat)
    decreases index
  {
    offset < limit ==>
      && offset + EV_HEADER <= |value|
      && (Unusable(value, offset)
          || if index == 0 then offset + EV_HEADER + EntrySize(value, offset) <= |value|
             else InsideFrom(value, limit, EntryEnd(value, offset), index - 1))
  }

  /** Walk over the packed entries from `offset`, `index` further. */
  ghost function Lookup(value: seq<byte>, limit: u32, offset: u32, index: nat): (r: Found)
    requires InsideFrom(value, limit, offset, index)
    ensures r.Item? ==> 1 <= |r.entry.data| <= |value|
    decreases index
  {
    if offset >= limit then (if offset == 0 && index == 0 then Whole else Missing)
    else if Unusable(value, offset) then Missing
    else if index == 0 then Item(EntryAt(value, offset, EntrySize(value, offset)))
    else Lookup(value, limit, EntryEnd(value, offset), index - 1)
  }

  ghost function Limit(size: u32, cap: nat): u32
    requires cap < TWO_32
  {
    Sub32(if size > cap then cap else size, EV_HEADER)
  }

  /** The lookup of the entry with this index reads nothing outside the value. */
  ghost predicate Readable(kind: byte, size: u32, value: seq<byte>, index: nat) {
    |value| < TWO_32 && (kind == MULTI ==> InsideFrom(value, Limit(size, |value|), 0, index))
  }

  ghost function Retrieve(kind: byte, size: u32, value: seq<byte>, index: nat): (r: Found)
    requires Readable(kind, size, value, index)
    ensures r.Item? ==> |r.entry.data| <= |value|
  {
    if kind == NONE then Missing
    else if kind == MULTI then Lookup(value, Limit(size, |value|), 0, index)
    else if index == 0 then Whole
    else Missing
  }

  /** From `offset` to `end` lie the packed entries of `list`. */
  ghost predicate Lie(value: seq<byte>, offset: nat, end: nat, list: seq<Entry>) {
    && offset <= end <= |value| && value[offset..end] == Encode(list)
    && forall e <- list :: Storable(|value|, e)
  }

  lemma HeadEntry(value: seq<byte>, offset: nat, end: nat, list: seq<Entry>)
    requires list != [] && |value| < TWO_32 && Lie(value, offset, end, list)
    ensures var n := |list[0].data|;
      && 0 < n && offset + EV_HEADER + n <= end <= |value|
      && value[offset] != NONE && EntrySize(value, offset) == n && EntryAt(value, offset, n) == list[0]
      && Lie(value, offset + EV_HEADER + n, end, list[1..])
  {
    var e, more := list[0], Encode(list[1..]);
    assert e in list;
    var b, k := value[offset..end], EV_HEADER + |e.data|;
    assert b == EntryBytes(e) + more;
    FromLE32OfLE32(|e.data|);
    assert b[0] == e.kind && b[1..5] == LE32(|e.data|) && b[5..k] == e.data && b[k..] == more;
    SliceOfSlice(value, offset, end, 1, 5);
    SliceOfSlice(value, offset, end, 5, k);
    SliceOfSlice(value, offset, end, k, |b|);
  }

  lemma SliceOfSlice(s: seq<byte>, start: nat, end: nat, i: nat, j: nat)
    requires i <= j && start + j <= end <= |s|
    ensures s[start..end][i..j] == s[start + i..start + j]
  {
    var a, b := s[start..end][i..j], s[start + i..start + j];
    assert |a| == |b|;
    forall k | 0 <= k < |a|
      ensures a[k] == b[k]
    {
      assert a[k] == s[start..end][i + k] == s[start + i + k];
    }
  }

  lemma WalkStep(value: seq<byte>, limit: u32, offset: u32, index: nat)
    requires offset < limit && InsideFrom(value, limit, offset, index)
    ensures offset + EV_HEADER <= |value|
    ensures var n, end := EntrySize(value, offset), EntryEnd(value, offset);
      if Unusable(value, offset) then Lookup(value, limit, offset, index) == Missing
      else if index == 0 then
        offset + EV_HEADER + n <= |value| && Lookup(value, limit, offset, 0) == Item(EntryAt(value, offset, n))
      else
        InsideFrom(value, limit, end, index - 1)
        && Lookup(value, limit, offset, index) == Lookup(value, limit, end, index - 1)
  {
  }

  lemma WalkOver(value: seq<byte>, limit: u32, offset: u32, index: nat)
    requires offset >= limit && InsideFrom(value, limit, offset, index)
    ensures Lookup(value, limit, offset, index) == if offset == 0 && index == 0 then Whole else Missing
  {
  }

  /** One step of the walk over a usable entry. */
  lemma WalkOn(value: seq<byte>, limit: u32, offset: u32, index: nat, n: u32)
    requires offset < limit && offset + EV_HEADER + n <= |value| < TWO_32
    requires value[offset] != NONE && n > 0 && EntrySize(value, offset) == n
    requires index > 0 ==> InsideFrom(value, limit, offset + EV_HEADER + n, index - 1)
    ensures InsideFrom(value, limit, offset, index)
    ensures Lookup(value, limit, offset, index) ==
            if index == 0 then Item(EntryAt(value, offset, n))
            else Lookup(value, limit, offset + EV_HEADER + n, index - 1)
  {
    assert EntryEnd(value, offset) == offset + EV_HEADER + n;
  }

  /** The walk ends behind the last entry. */
  lemma WalkEnds(value: seq<byte>, limit: u32, offset: u32, index: nat)
    requires 0 < offset && limit <= offset
    ensures InsideFrom(value, limit, offset, index) && Lookup(value, limit, offset, index) == Missing
  {
  }

  /** Walking over what `Encode` produced meets the entries one by one, and nothing after. */
  lemma {:induction false} LookupEncoded(value: seq<byte>, list: seq<Entry>, offset: nat, end: nat, index: nat)
    requires |value| < TWO_32 && EV_HEADER <= end && Lie(value, offset, end, list)
    requires list == [] ==> offset > 0
    ensures InsideFrom(value, end - EV_HEADER, offset, index)
    ensures Lookup(value, end - EV_HEADER, offset, index) == if index < |list| then Item(list[index]) else Missing
    decreases |list|
  {
    if list == [] {
      assert |value[offset..end]| == 0;
      WalkEnds(value, end - EV_HEADER, offset, index);
    } else {
      var n := |list[0].data|;
      HeadEntry(value, offset, end, list);
      hide *;
      LookupEncoded(value, list[1..], offset + EV_HEADER + n, end, if index > 0 then index - 1 else 0);
      WalkOn(value, end - EV_HEADER, offset, index, n);
    }
  }

  /** The container agrees with the list of values added to it: the i-th lookup yields the
      i-th value, and the lookup one past the end fails. */
  lemma RetrieveIsIndexing(cap: nat, kind: byte, size: u32, value: seq<byte>, list: seq<Entry>, index: nat)
    requires 2 * cap + EV_HEADER < TWO_32 && Stands(cap, kind, size, value, list)
    ensures Readable(kind, size, value, index)
    ensures var r := Retrieve(kind, size, value, index);
      if index >= |list| then r == Missing
      else r == Item(list[index]) || (r == Whole && Entry(kind, value[..size]) == list[index])
  {
    assert list != [] ==> list[0] in list;
    if list != [] && kind == MULTI {
      assert value[0..size] == Encode(list);
      LookupEncoded(value, list, 0, size, index);
    }
  }

  /** A size beyond the value array counts as a full one. */
  lemma OversizeIsFull(size: u32, value: seq<byte>, index: nat)
    requires |value| < size && Readable(MULTI, size, value, index)
    ensures Readable(MULTI, |value|, value, index)
    ensures Retrieve(MULTI, size, value, index) == Retrieve(MULTI, |value|, value, index)
  {
  }

  /** A container stands for one list only. */
  lemma ContentsUnique(cap: nat, kind: byte, size: u32, value: seq<byte>, a: seq<Entry>, b: seq<Entry>)
    requires 2 * cap + EV_HEADER < TWO_32 && Stands(cap, kind, size, value, a) && Stands(cap, kind, size, value, b)
    ensures a == b
  {
    RetrieveIsIndexing(cap, kind, size, value, a, |b|);
    RetrieveIsIndexing(cap, kind, size, value, b, |a|);
    forall i | 0 <= i < |a| && i < |b|
      ensures a[i] == b[i]
    {
      RetrieveIsIndexing(cap, kind, size, value, a, i);
      RetrieveIsIndexing(cap, kind, size, value, b, i);
    }
    RetrieveIsIndexing(cap, kind, size, value, a, |a|);
    RetrieveIsIndexing(cap, kind, size, value, b, |b|);
  }

  // ---- series of adds ----------------------------------------------------------------

  /** What a container holds after one more add. */
  ghost function Extended(cap: nat, list: seq<Entry>, e: Entry): seq<Entry> {
    if Storable(cap, e) && (list == [] || Fits(cap, list, e)) then list + [e] else list
  }

  /** The values of a series that are kept, in order. */
  ghost function KeptOf(cap: nat, es: seq<Entry>): seq<Entry> {
    if es == [] then [] else Extended(cap, KeptOf(cap, es[..|es| - 1]), es[|es| - 1])
  }

  ghost predicate Sources(dest: ExtendedValue, sources: seq<ExtendedValue>)
    reads sources, set s <- sources :: s.value
  {
    forall s <- sources ::
      s != dest && s.value != dest.value && s.value.Length == dest.value.Length && s.kind != MULTI && s.size <= s.value.Length
  }

  ghost function EntriesOf(sources: seq<ExtendedValue>): (es: seq<Entry>)
    requires forall s <- sources :: s.size <= s.value.Length
    reads sources, set s <- sources :: s.value
  {
    seq(|sources|, i requires 0 <= i < |sources| reads sources, set s <- sources :: s.value
      requires sources[i].size <= sources[i].value.Length => sources[i].AsEntry())
  }

  method AddNext(dest: ExtendedValue, src: ExtendedValue, ghost list: seq<Entry>)
    requires Sources(dest, [src]) && dest.Is(list) && dest.value.Length < TWO_32 - 2 * EV_HEADER - dest.value.Length
    modifies dest, dest.value
    ensures dest.Is(Extended(dest.value.Length, list, old(src.AsEntry())))
  {
    assert src in [src];
    assert list != [] ==> list[0] in list;
    assert [] + [src.AsEntry()] == [src.AsEntry()];
    var ok := dest.Add(src, list);
  }

  /** Any series of values added to an empty container: the i-th lookup finds the i-th value
      that was kept, and the lookup one past them finds nothing. */
  method AddAll(dest: ExtendedValue, sources: seq<ExtendedValue>)
    requires dest.kind == NONE && Sources(dest, sources) && dest.value.Length < TWO_32 - 2 * EV_HEADER - dest.value.Length
    modifies dest, dest.value
    ensures Sources(dest, sources) && dest.Is(KeptOf(dest.value.Length, EntriesOf(sources)))
    ensures forall i: nat :: IsFound(dest.kind, dest.size, dest.value[..], KeptOf(dest.value.Length, EntriesOf(sources)), i)
  {
    ghost var cap := dest.value.Length;
    ghost var es := EntriesOf(sources);
    for n := 0 to |sources|
      invariant Sources(dest, sources) && EntriesOf(sources) == es
      invariant dest.Is(KeptOf(cap, es[..n]))
    {
      assert sources[n] in sources && sources[n].AsEntry() == es[n];
      assert Sources(dest, [sources[n]]);
      assert es[..n + 1][..n] == es[..n];
      AddNext(dest, sources[n], KeptOf(cap, es[..n]));
    }
    assert es[..|sources|] == es;
    forall i: nat
      ensures IsFound(dest.kind, dest.size, dest.value[..], KeptOf(cap, es), i)
    {
      RetrieveIsIndexing(cap, dest.kind, dest.size, dest.value[..], KeptOf(cap, es), i);
    }
  }

  /** The lookup of index `i` finds what a list has there. */
  ghost predicate IsFound(kind: byte, size: u32, value: seq<byte>, list: seq<Entry>, i: nat) {
    && Readable(kind, size, value, i)
    && var r := Retrieve(kind, size, value, i);
    if i >= |list| then r == Missing
    else r == Item(list[i]) || (r == Whole && size <= |value| && Entry(kind, value[..size]) == list[i])
  }

  /** A plain value added to itself: with 5 bytes to spare beyond two copies and their headers
      it holds itself twice, the second time wrapped. With less, the add fails, and it is
      left wrapped where two copies and their headers alone would have fitted. */
  method AddToItself(v: ExtendedValue) returns (ok: bool)
    requires v.kind != NONE && v.kind != MULTI && 1 <= v.size <= v.value.Length < TWO_32 - 2 * EV_HEADER - v.value.Length
    modifies v, v.value
    ensures ok == (2 * (EV_HEADER + old(v.size)) + EV_HEADER <= v.value.Length)
    ensures v.kind == MULTI <==> 2 * (EV_HEADER + old(v.size)) <= v.value.Length
    ensures var e := old(v.AsEntry()); v.Is(if ok then [e, Wrapped(e)] else [e])
  {
    ghost var e := v.AsEntry();
    EncodeOne(e);
    EncodeOne(Wrapped(e));
    EncodeAppend([e], [Wrapped(e)]);
    assert [e] + [Wrapped(e)] == [e, Wrapped(e)];
    hide EntryBytes;
    ok := v.Add(v, [e]);
  }

  /** With the 1024 bytes a value has room for, a plain value of 507 bytes is left wrapped. */
  method LeftWrapped(v: ExtendedValue)
    requires v.kind != NONE && v.kind != MULTI && v.size == 507 && v.value.Length == 1024
    modifies v, v.value
    ensures v.kind == 100 && v.size == 512 && v.Is([old(v.AsEntry())])
  {
    EncodeOne(v.AsEntry());
    var ok := AddToItself(v);
    assert !ok;
  }
}
