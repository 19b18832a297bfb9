/** `safearray.c`: an array of pointers that grows and shrinks by reallocation, deletes by
    moving the last element into the hole, and is scanned while elements are deleted. */
module SafeArray {
  import opened Bytes

  /** Contents after `safe_array_delete`: the last element takes the place of the deleted one. */
  ghost function SwapOut<T>(s: seq<T>, i: nat): (r: seq<T>)
    requires i < |s|
    ensures |r| == |s| - 1
  {
    s[i := s[|s| - 1]][..|s| - 1]
  }

  /** The element at `i` put in front of the others. */
  ghost function ToFront<T>(s: seq<T>, i: nat): (r: seq<T>)
    requires i < |s|
    ensures |r| == |s|
    ensures forall k :: 0 <= k < |r| ==> r[k] == if k == 0 then s[i] else if k <= i then s[k - 1] else s[k]
  {
    [s[i]] + s[..i] + s[i + 1..]
  }

  /** A scan from `a` that deletes wherever the predicate answers 1: the contents it leaves
      and the elements it asked about. `answers(k)` is the answer to the k-th question. */
  ghost function Scan<T>(s: seq<T>, a: nat, answers: nat -> bool, k: nat): (r: (seq<T>, seq<T>))
    requires a <= |s|
    decreases |s| - a
  {
    if a == |s| then (s, [])
    else
      var (left, asked) := if answers(k) then Scan(SwapOut(s, a), a, answers, k + 1) else Scan(s, a + 1, answers, k + 1);
      (left, [s[a]] + asked)
  }

  /** Of the elements asked about, those the answer was not 1 for. */
  ghost function Spared<T>(asked: seq<T>, answers: nat -> bool, k: nat): seq<T>
    decreases |asked|
  {
    if asked == [] then []
    else (if answers(k) then [] else [asked[0]]) + Spared(asked[1..], answers, k + 1)
  }

  lemma SwapOutBag<T>(s: seq<T>, a: nat)
    requires a < |s|
    ensures SwapOut(s, a)[..a] == s[..a]
    ensures multiset(s[a..]) == multiset{s[a]} + multiset(SwapOut(s, a)[a..])
  {
    var r, n := SwapOut(s, a), |s| - 1;
    if a == n {
      assert s[a..] == [s[a]] && r[a..] == [];
    } else {
      assert r[a..] == [s[n]] + s[a + 1..n];
      assert s[a..] == [s[a]] + s[a + 1..n] + [s[n]];
    }
  }

  /** A scan's first question and the scan that follows it. */
  lemma ScanStep<T>(s: seq<T>, a: nat, answers: nat -> bool, k: nat)
    requires a < |s|
    ensures var rest := if answers(k) then Scan(SwapOut(s, a), a, answers, k + 1) else Scan(s, a + 1, answers, k + 1);
      Scan(s, a, answers, k) == (rest.0, [s[a]] + rest.1)
  {
  }

  /** The bag of what was asked and the bag of what is left, one question further. */
  lemma OneMore<T>(x: T, rest: seq<T>, answers: nat -> bool, k: nat)
    ensures multiset([x] + rest) == multiset{x} + multiset(rest)
    ensures Spared([x] + rest, answers, k) == (if answers(k) then [] else [x]) + Spared(rest, answers, k + 1)
  {
    assert ([x] + rest)[1..] == rest;
  }

  lemma CutFront<T>(s: seq<T>, a: nat)
    requires a < |s|
    ensures s[..a + 1][..a] == s[..a] && multiset(s[a..]) == multiset{s[a]} + multiset(s[a + 1..])
  {
    assert s[a..] == [s[a]] + s[a + 1..];
  }

  /** A scan asks about each element exactly once, although deletion moves elements behind
      its back. */
  lemma {:induction false} ScanAsksAll<T>(s: seq<T>, a: nat, answers: nat -> bool, k: nat)
    requires a <= |s|
    ensures multiset(Scan(s, a, answers, k).1) == multiset(s[a..])
    decreases |s| - a
  {
    if a < |s| {
      ScanStep(s, a, answers, k);
      hide Scan;
      if answers(k) {
        SwapOutBag(s, a);
        ScanAsksAll(SwapOut(s, a), a, answers, k + 1);
      } else {
        ScanAsksAll(s, a + 1, answers, k + 1);
        CutFront(s, a);
      }
    }
  }

  /** It does not touch what it has passed. */
  lemma {:induction false} ScanKeepsFront<T>(s: seq<T>, a: nat, answers: nat -> bool, k: nat)
    requires a <= |s|
    ensures a <= |Scan(s, a, answers, k).0| && Scan(s, a, answers, k).0[..a] == s[..a]
    decreases |s| - a
  {
    if a < |s| {
      ScanStep(s, a, answers, k);
      hide Scan;
      if answers(k) {
        SwapOutBag(s, a);
        ScanKeepsFront(SwapOut(s, a), a, answers, k + 1);
      } else {
        ScanKeepsFront(s, a + 1, answers, k + 1);
        CutFront(s, a);
        CutFront(Scan(s, a + 1, answers, k + 1).0, a);
      }
    }
  }

  /** It leaves exactly those elements it did not get a 1 for. */
  lemma {:induction false} ScanLeavesSpared<T>(s: seq<T>, a: nat, answers: nat -> bool, k: nat)
    requires a <= |s|
    ensures a <= |Scan(s, a, answers, k).0|
    ensures multiset(Scan(s, a, answers, k).0[a..]) == multiset(Spared(Scan(s, a, answers, k).1, answers, k))
    decreases |s| - a
  {
    ScanKeepsFront(s, a, answers, k);
    if a < |s| {
      ScanStep(s, a, answers, k);
      OneMore(s[a], if answers(k) then Scan(SwapOut(s, a), a, answers, k + 1).1 else Scan(s, a + 1, answers, k + 1).1, answers, k);
      hide Scan, Spared;
      if answers(k) {
        ScanLeavesSpared(SwapOut(s, a), a, answers, k + 1);
      } else {
        var left := Scan(s, a + 1, answers, k + 1).0;
        ScanLeavesSpared(s, a + 1, answers, k + 1);
        ScanKeepsFront(s, a + 1, answers, k + 1);
        CutFront(left, a);
        assert left[a] == left[..a + 1][a] == s[a];
      }
    }
  }

  class SafeArray<T(==)> {
    var count: nat
    var arr: array<T>

    ghost predicate Valid()
      reads this
    {
      arr.Length == count
    }

    ghost function Contents(): seq<T>
      reads this, arr
    {
      arr[..]
    }

    constructor ()
      ensures Valid() && fresh(arr) && Contents() == []
    {
      count := 0;
      arr := new T[0];
    }

    /** `safe_array_add`; `None` is a null pointer. */
    method Add(ptr: Option<T>) returns (index: int)
      requires Valid()
      modifies this
      ensures Valid() && (arr == old(arr) || fresh(arr))
      ensures ptr.None? ==> index == -1 && Contents() == old(Contents())
      ensures ptr.Some? ==> index == old(count) && Contents() == old(Contents()) + [ptr.value]
    {
      if ptr.None? {
        return -1;
      }
      arr := new T[count + 1](i requires 0 <= i <= count reads this, arr requires arr.Length == count =>
        if i < count then arr[i] else ptr.value);
      index := count;
      count := count + 1;
      assert arr[..] == old(arr[..]) + [ptr.value];
    }

    /** `safe_array_delete`. */
    method Delete(idx: int)
      requires Valid()
      modifies this, arr
      ensures Valid() && (arr == old(arr) || fresh(arr))
      ensures Contents() == if 0 <= idx < old(count) then SwapOut(old(Contents()), idx) else old(Contents())
      ensures 0 <= idx < old(count) ==> count == old(count) - 1
      ensures 0 <= idx < old(count) ==> forall k :: 0 <= k < count ==> arr[k] == old(Contents())[if k == idx then old(count) - 1 else k]
    {
      if idx < 0 {
        return;
      }
      if idx < count {
        if idx < count - 1 {
          arr[idx] := arr[count - 1];
        }
        arr := new T[count - 1](i requires 0 <= i < count - 1 reads this, arr requires arr.Length == count => arr[i]);
        count := count - 1;
        assert arr[..] == SwapOut(old(arr[..]), idx);
      }
    }

    method Get(idx: int) returns (ptr: Option<T>)
      requires Valid()
      ensures ptr == if 0 <= idx < count then Some(Contents()[idx]) else None
    {
      ptr := if 0 <= idx < count then Some(arr[idx]) else None;
    }

    /** `safe_array_pop`: take the first element and close the gap. */
    method Pop() returns (ptr: Option<T>)
      requires Valid()
      modifies this, arr
      ensures Valid() && (arr == old(arr) || fresh(arr))
      ensures if old(Contents()) == [] then ptr.None? && Contents() == []
              else ptr == Some(old(Contents())[0]) && Contents() == old(Contents())[1..]
    {
      ptr := Get(0);
      if ptr.Some? {
        ghost var was := arr[..];
        for a := 1 to count
          modifies arr
          invariant forall i :: 0 <= i < a - 1 ==> arr[i] == was[i + 1]
          invariant forall i :: a - 1 <= i < count ==> arr[i] == was[i]
        {
          arr[a - 1] := arr[a];
        }
        assert arr[..count - 1] == was[1..];
      }
      Delete(count - 1);
    }

    /** `safe_array_move_to_begin`. */
    method MoveToBegin(idx: int)
      requires Valid()
      modifies arr
      ensures Valid()
      ensures Contents() == if 1 <= idx < count then ToFront(old(Contents()), idx) else old(Contents())
      ensures 1 <= idx < count ==>
                arr[0] == old(Contents())[idx] && forall k :: 0 < k < count ==> arr[k] == old(Contents())[if k <= idx then k - 1 else k]
    {
      if idx < 1 || idx >= count {
        return;
      }
      ghost var was := arr[..];
      var item := arr[idx];
      var a := idx - 1;
      while a >= 0
        invariant -1 <= a < idx
        invariant forall i :: a + 1 < i <= idx ==> arr[i] == was[i - 1]
        invariant forall i :: 0 <= i <= a + 1 || idx < i < count ==> arr[i] == was[i]
      {
        arr[a + 1] := arr[a];
        a := a - 1;
      }
      arr[0] := item;
      assert arr[..] == ToFront(was, idx);
    }

    /** `safe_array_clean`; the predicate may answer differently each time it is called. */
    method Clean(answers: nat -> bool) returns (ghost asked: seq<T>)
      requires Valid()
      modifies this, arr
      ensures Valid() && (arr == old(arr) || fresh(arr))
      ensures multiset(asked) == multiset(old(Contents()))
      ensures multiset(Contents()) == multiset(Spared(asked, answers, 0))
    {
      ghost var s := Contents();
      ScanAsksAll(s, 0, answers, 0);
      ScanLeavesSpared(s, 0, answers, 0);
      hide Spared, Scan;
      asked := CleanLoop(answers);
      assert s[0..] == s && Contents()[0..] == Contents();
    }

    /** The loop of `safe_array_clean`, with the questions it asks. */
    method CleanLoop(answers: nat -> bool) returns (ghost asked: seq<T>)
      requires Valid()
      modifies this, arr
      ensures Valid() && (arr == old(arr) || fresh(arr))
      ensures Contents() == Scan(old(Contents()), 0, answers, 0).0
      ensures asked == Scan(old(Contents()), 0, answers, 0).1
    {
      ghost var all := Scan(Contents(), 0, answers, 0);
      var a, k := 0, 0;
      asked := [];
      var ptr := Get(a);
      while ptr.Some?
        invariant Valid() && (arr == old(arr) || fresh(arr))
        invariant 0 <= a <= count && (ptr.Some? <==> a < count)
        invariant all.0 == Scan(Contents(), a, answers, k).0
        invariant all.1 == asked + Scan(Contents(), a, answers, k).1
        decreases count - a
      {
        ScanStep(Contents(), a, answers, k);
        ghost var x, later := arr[a], Scan(Contents(), a, answers, k).1[1..];
        Assoc(asked, [x], later);
        asked := asked + [x];
        if answers(k) {
          Delete(a);
        } else {
          a := a + 1;
        }
        k := k + 1;
        ptr := Get(a);
      }
      assert asked + [] == asked;
    }
  }

  // ---- add and pop alone -------------------------------------------------------------

  datatype Op<T> = Enqueue(value: T) | Dequeue

  /** Contents and popped values after operations that only add and pop. */
  ghost function Play<T>(s: seq<T>, ops: seq<Op<T>>): (seq<T>, seq<T>)
    decreases |ops|
  {
    if ops == [] then (s, [])
    else match ops[0]
      case Enqueue(x) => Play(s + [x], ops[1..])
      case Dequeue =>
        if s == [] then Play(s, ops[1..])
        else var (left, popped) := Play(s[1..], ops[1..]); (left, [s[0]] + popped)
  }

  ghost function Added<T>(ops: seq<Op<T>>): seq<T> {
    if ops == [] then [] else (if ops[0].Enqueue? then [ops[0].value] else []) + Added(ops[1..])
  }

  /** With add and pop alone the array is a queue: what came out, then what is still inside,
      is what was inside before, then what went in. */
  lemma {:induction false} Fifo<T>(s: seq<T>, ops: seq<Op<T>>)
    ensures var (left, popped) := Play(s, ops); popped + left == s + Added(ops)
    decreases |ops|
  {
    if ops != [] {
      var more := Added(ops[1..]);
      match ops[0] {
        case Enqueue(x) =>
          Fifo(s + [x], ops[1..]);
          Assoc(s, [x], more);
        case Dequeue =>
          assert [] + more == more;
          if s == [] {
            Fifo(s, ops[1..]);
          } else {
            Fifo(s[1..], ops[1..]);
            var (left, popped) := Play(s[1..], ops[1..]);
            Assoc([s[0]], popped, left);
            Assoc([s[0]], s[1..], more);
            assert [s[0]] + s[1..] == s;
          }
      }
    }
  }
}
