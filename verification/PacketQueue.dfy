/** `Tsrpc_Queue`: a fixed array of slots that own heap cells, with cells freed on pop or
    kept for reuse. The queue is a bounded list; a pop takes the first packet whose id
    matches, or the head for id 0. */
module PacketQueues {
  import opened Bytes
  import opened Proto

  ghost predicate Matches(sdp: Sdp, rrId: u32) { rrId == 0 || sdp.rrId == rrId }

  /** The packet a pop takes, and the packets it leaves, in order. */
  datatype Taken = Nothing | Took(sdp: Sdp, rest: seq<Sdp>)

  ghost function TakeFirst(q: seq<Sdp>, rrId: u32): (t: Taken)
    ensures t.Took? ==> t.sdp in q && |t.rest| == |q| - 1
  {
    if q == [] then Nothing
    else if Matches(q[0], rrId) then Took(q[0], q[1..])
    else match TakeFirst(q[1..], rrId)
      case Nothing => Nothing
      case Took(s, rest) => Took(s, [q[0]] + rest)
  }

  /** A pop finds a packet exactly when one matches, and then it is the first that does. */
  lemma {:induction false} TakeFirstIsFirstMatch(q: seq<Sdp>, rrId: u32, a: nat)
    requires a <= |q| && forall i :: 0 <= i < a ==> !Matches(q[i], rrId)
    requires a < |q| ==> Matches(q[a], rrId)
    ensures TakeFirst(q, rrId) == if a < |q| then Took(q[a], q[..a] + q[a + 1..]) else Nothing
  {
    if a > 0 {
      TakeFirstIsFirstMatch(q[1..], rrId, a - 1);
      if a < |q| {
        assert [q[0]] + (q[1..][..a - 1] + q[1..][a..]) == q[..a] + q[a + 1..];
      }
    }
  }

  class Cell {
    var sdp: Sdp
    constructor (sdp: Sdp)
      ensures this.sdp == sdp
    {
      this.sdp := sdp;
    }
  }

  /** No slot dangles, none is shared, and no cell is leaked. */
  ghost predicate Owns(slots: seq<Cell?>, live: set<Cell>) {
    && (forall c <- slots :: c != null ==> c in live)
    && (forall c <- live :: c in slots)
    && (forall i, j :: 0 <= i < j < |slots| && slots[i] != null ==> slots[i] != slots[j])
  }

  /** The first slots hold the packets, in order. */
  ghost predicate Holds(slots: seq<Cell?>, live: set<Cell>, contents: seq<Sdp>)
    reads live
  {
    && |contents| <= |slots|
    && forall i :: 0 <= i < |contents| ==> slots[i] != null && slots[i] in live && slots[i].sdp == contents[i]
  }

  /** The same, but for slot `a`. */
  ghost predicate HoldsBut(slots: seq<Cell?>, live: set<Cell>, contents: seq<Sdp>, a: nat)
    reads live
  {
    && |contents| <= |slots|
    && forall i :: 0 <= i < |contents| && i != a ==> slots[i] != null && slots[i] in live && slots[i].sdp == contents[i]
  }

  /** No cell is kept behind the packets. */
  ghost predicate EmptyFrom(slots: seq<Cell?>, n: nat) { forall i :: n <= i < |slots| ==> slots[i] == null }

  /** Slot `a` moved behind slot `n - 1`, the ones between shifted down. */
  ghost function Rotated(slots: seq<Cell?>, a: nat, n: nat): (r: seq<Cell?>)
    requires a < n <= |slots|
    ensures |r| == |slots| && r[n - 1] == slots[a]
    ensures forall i :: a <= i < n - 1 ==> r[i] == slots[i + 1]
    ensures forall i :: 0 <= i < a || n <= i < |slots| ==> r[i] == slots[i]
  {
    slots[..a] + slots[a + 1..n] + [slots[a]] + slots[n..]
  }

  lemma RotatedOwns(slots: seq<Cell?>, live: set<Cell>, a: nat, n: nat)
    requires a < n <= |slots| && Owns(slots, live)
    ensures Owns(Rotated(slots, a, n), live)
  {
    var r := Rotated(slots, a, n);
    forall c | c in live
      ensures c in r
    {
      var i :| 0 <= i < |slots| && slots[i] == c;
      assert r[if i == a then n - 1 else if a < i < n then i - 1 else i] == c;
    }
  }

  /** Closing the gap takes one packet out of the list. */
  lemma RotatedHolds(slots: seq<Cell?>, live: set<Cell>, contents: seq<Sdp>, a: nat)
    requires a < |contents| && HoldsBut(slots, live, contents, a)
    ensures Holds(Rotated(slots, a, |contents|), live, contents[..a] + contents[a + 1..])
  {
    var rest := contents[..a] + contents[a + 1..];
    var r := Rotated(slots, a, |contents|);
    forall i | 0 <= i < |rest|
      ensures r[i] != null && r[i] in live && r[i].sdp == rest[i]
    {
      assert r[i] == slots[if i < a then i else i + 1];
    }
  }

  lemma RotatedEmpty(slots: seq<Cell?>, a: nat, n: nat)
    requires a < n <= |slots| && EmptyFrom(slots, n) && slots[a] == null
    ensures EmptyFrom(Rotated(slots, a, n), n - 1)
  {
  }

  lemma FreedOwns(slots: seq<Cell?>, live: set<Cell>, a: nat)
    requires a < |slots| && Owns(slots, live) && slots[a] != null
    ensures Owns(slots[a := null], live - {slots[a]})
  {
    var r := slots[a := null];
    forall c | c in live - {slots[a]}
      ensures c in r
    {
      var i :| 0 <= i < |slots| && slots[i] == c;
      assert r[i] == c;
    }
  }

  lemma AllocatedOwns(slots: seq<Cell?>, live: set<Cell>, a: nat, c: Cell)
    requires a < |slots| && Owns(slots, live) && slots[a] == null && c !in live
    ensures Owns(slots[a := c], live + {c})
  {
    var r := slots[a := c];
    assert r[a] == c;
    forall d | d in live
      ensures d in r
    {
      var i :| 0 <= i < |slots| && slots[i] == d;
      assert r[i] == d;
    }
  }

  lemma Without(live: set<Cell>, c: Cell)
    requires c in live
    ensures |live - {c}| == |live| - 1
  {
    assert live == live - {c} + {c};
  }

  class PacketQueue {
    const queueSize: nat
    const minAlloc: nat
    var itemCount: nat
    var allocCount: nat
    const item: array<Cell?>

    /** The cells obtained from `malloc` and not yet freed. `allocCount` bounds their number;
        it also rises when a kept cell is used again. */
    ghost var live: set<Cell>
    ghost var contents: seq<Sdp>

    ghost function Repr(): set<object>
      reads this
    {
      {this, item} + live
    }

    ghost predicate Valid()
      reads this, item, live
    {
      && item.Length == queueSize
      && queueSize + minAlloc < 256
      && itemCount == |contents| <= queueSize
      && Owns(item[..], live)
      && Holds(item[..], live, contents)
      && |live| <= allocCount <= minAlloc + itemCount
      && (minAlloc == 0 ==> allocCount == itemCount && EmptyFrom(item[..], itemCount))
    }

    constructor (queueSize: nat, minAlloc: nat)
      requires queueSize + minAlloc < 256
      ensures Valid() && fresh(item) && live == {} && contents == []
      ensures this.queueSize == queueSize && this.minAlloc == minAlloc
    {
      this.queueSize, this.minAlloc := queueSize, minAlloc;
      itemCount, allocCount := 0, 0;
      item := new Cell?[queueSize](i => null);
      live, contents := {}, [];
    }

    method Push(sdp: Sdp) returns (ok: bool)
      requires Valid()
      modifies Repr()
      ensures Valid() && fresh(live - old(live))
      ensures ok == (|old(contents)| < queueSize)
      ensures contents == if ok then old(contents) + [sdp] else old(contents)
      ensures ok ==> allocCount == old(allocCount) + 1
    {
      if itemCount >= queueSize {
        return false;
      }
      ProvideCell();
      hide Provided, Valid;
      Store(sdp);
      ok := true;
    }

    /** Valid, with a cell in the first free slot that none of the packets is in. */
    ghost predicate Provided()
      reads this, item, live
    {
      && item.Length == queueSize
      && queueSize + minAlloc < 256
      && itemCount == |contents| < queueSize
      && item[itemCount] != null && item[itemCount] in live && item[itemCount] !in item[..itemCount]
      && Owns(item[..], live)
      && Holds(item[..], live, contents)
      && |live| - 1 <= allocCount <= minAlloc + itemCount
      && (minAlloc == 0 ==> allocCount == itemCount && EmptyFrom(item[..], itemCount + 1))
    }

    /** Put a cell into the first free slot, unless one was kept there. */
    method ProvideCell()
      requires Valid() && itemCount < queueSize
      modifies this`live, item
      ensures Provided() && old(live) <= live && fresh(live - old(live))
    {
      if item[itemCount] == null {
        var cell := new Cell(Sdp([], 0, 0, 0, 0, []));
        AllocatedOwns(item[..], live, itemCount, cell);
        ghost var was := item[..];
        item[itemCount] := cell;
        assert item[..] == was[itemCount := cell];
        live := live + {cell};
      }
    }

    /** Copy the packet into the free slot's cell and count both. */
    method Store(sdp: Sdp)
      requires Provided()
      modifies this`allocCount, this`itemCount, this`contents, live
      ensures Valid() && contents == old(contents) + [sdp]
      ensures allocCount == old(allocCount) + 1
    {
      hide Owns, EmptyFrom;
      allocCount := allocCount + 1;
      item[itemCount].sdp := sdp;
      assert forall i :: 0 <= i < itemCount ==> item[i] == item[..itemCount][i];
      itemCount := itemCount + 1;
      contents := contents + [sdp];
    }

    method Pop(sdp: Sdp, rrId: u32) returns (ok: bool, next: Sdp)
      requires Valid()
      modifies Repr()
      ensures Valid() && live <= old(live)
      ensures ok == TakeFirst(old(contents), rrId).Took?
      ensures ok ==> TakeFirst(old(contents), rrId) == Took(next, contents)
      ensures !ok ==> next == sdp && contents == old(contents)
    {
      var a := 0;
      while a < itemCount && !(rrId == 0 || item[a].sdp.rrId == rrId)
        invariant 0 <= a <= itemCount
        invariant forall i :: 0 <= i < a ==> !Matches(contents[i], rrId)
      {
        a := a + 1;
      }
      TakeFirstIsFirstMatch(contents, rrId, a);
      if a == itemCount {
        return false, sdp;
      }
      next := item[a].sdp;
      RemoveSlot(a);
      ok := true;
    }

    /** The body of the match in `srpc_queue_pop`. */
    method RemoveSlot(a: nat)
      requires Valid() && a < itemCount
      modifies Repr()
      ensures Valid() && live <= old(live)
      ensures contents == old(contents)[..a] + old(contents)[a + 1..]
    {
      ReleaseCell(a);
      hide Released, Valid;
      CloseGap(a);
    }

    /** Valid, but for slot `a`, whose cell the queue may have given back. */
    ghost predicate Released(a: nat)
      reads this, item, live
    {
      && item.Length == queueSize
      && queueSize + minAlloc < 256
      && a < itemCount == |contents| <= queueSize
      && Owns(item[..], live)
      && HoldsBut(item[..], live, contents, a)
      && |live| <= allocCount <= minAlloc + itemCount - 1
      && (minAlloc == 0 ==> allocCount == itemCount - 1 && item[a] == null && EmptyFrom(item[..], itemCount))
    }

    /** Give the cell of slot `a` back, unless the queue keeps that many. */
    method ReleaseCell(a: nat)
      requires Valid() && a < itemCount
      modifies this`allocCount, this`live, item
      ensures Released(a)
      ensures allocCount == if old(allocCount) > minAlloc then old(allocCount) - 1 else old(allocCount)
      ensures item[..] == old(item[..])[a := if old(allocCount) > minAlloc then null else old(item[a])]
      ensures live == if old(allocCount) > minAlloc then old(live) - {old(item[a])} else old(live)
    {
      if allocCount > minAlloc {
        allocCount := allocCount - 1;
        FreedOwns(item[..], live, a);
        Without(live, item[a]);
        live := live - {item[a]};
        ghost var was := item[..];
        item[a] := null;
        assert item[..] == was[a := null];
      } else {
        assert item[..] == item[..][a := item[a]];
      }
    }

    /** Close the gap, and put what is left of the cell behind the packets. */
    method CloseGap(a: nat)
      requires Released(a)
      modifies this`itemCount, this`contents, item
      ensures Valid()
      ensures contents == old(contents)[..a] + old(contents)[a + 1..]
    {
      RotatedOwns(item[..], live, a, itemCount);
      RotatedHolds(item[..], live, contents, a);
      if minAlloc == 0 {
        RotatedEmpty(item[..], a, itemCount);
      }
      hide Owns, Holds, HoldsBut, EmptyFrom;
      Rotate(item, a, itemCount);
      itemCount := itemCount - 1;
      contents := contents[..a] + contents[a + 1..];
    }
  }

  /** Slot `a` behind slot `n - 1`, the ones between shifted down. */
  method Rotate(item: array<Cell?>, a: nat, n: nat)
    requires a < n <= item.Length
    modifies item
    ensures item[..] == Rotated(old(item[..]), a, n)
  {
    var kept := item[a];
    ghost var was := item[..];
    ShiftDown(item, a, n);
    item[n - 1] := kept;
    assert item[..] == Rotated(was, a, n);
  }

  /** Slots `a + 1 .. n` move down by one. */
  method ShiftDown(item: array<Cell?>, a: nat, n: nat)
    requires a < n <= item.Length
    modifies item
    ensures forall i :: a <= i < n - 1 ==> item[i] == old(item[..])[i + 1]
    ensures forall i :: 0 <= i < a || n - 1 <= i < item.Length ==> item[i] == old(item[..])[i]
  {
    ghost var was := item[..];
    var b := a;
    while b < n - 1
      invariant a <= b <= n - 1
      invariant forall i :: a <= i < b ==> item[i] == was[i + 1]
      invariant forall i :: 0 <= i < a || b <= i < item.Length ==> item[i] == was[i]
    {
      item[b] := item[b + 1];
      b := b + 1;
    }
  }
}
