/** The growing byte buffers of `proto.c`: append with reallocation, and removal from the
    front by shifting in place. */
module ByteBuffers {
  import opened Bytes
  import opened Receiver

  datatype AppendResult = Appended | BufferOverflow

  /** `realloc`: a block of the new size that starts with the old bytes, as far as both reach.
      Allocation always succeeds. */
  method Realloc(a: array<byte>, n: nat) returns (b: array<byte>)
    ensures fresh(b) && b.Length == n
    ensures forall i :: 0 <= i < n && i < a.Length ==> b[i] == a[i]
  {
    b := new byte[n](i reads a => if 0 <= i < a.Length then a[i] else 0);
  }

  /** The in-place loop that moves `a[n..end]` to the front. */
  method ShiftLeft(a: array<byte>, n: nat, end: nat)
    requires n <= end <= a.Length
    modifies a
    ensures a[..end - n] == old(a[n..end])
  {
    ghost var was := a[..];
    var b := 0;
    for k := n to end
      invariant b == k - n
      invariant forall i :: 0 <= i < b ==> a[i] == was[i + n]
      invariant forall i :: b <= i < a.Length ==> a[i] == was[i]
    {
      a[b] := a[k];
      b := b + 1;
    }
  }

  class ByteBuffer {
    const bufMin: nat
    const bufMax: nat
    var size: nat
    var dataSize: nat
    var buffer: array<byte>

    ghost predicate Valid()
      reads this, buffer
    {
      && bufMin < bufMax < TWO_32
      && dataSize <= size == buffer.Length
      && size < bufMax
      && (size == Allocated(bufMin, dataSize) || (size == 0 && dataSize == 0))
    }

    ghost function Contents(): (c: seq<byte>)
      reads this, buffer
      requires Valid()
      ensures |c| == dataSize
    {
      buffer[..dataSize]
    }

    constructor (bufMin: nat, bufMax: nat)
      requires bufMin < bufMax < TWO_32
      ensures Valid() && fresh(buffer) && Contents() == []
      ensures this.bufMin == bufMin && this.bufMax == bufMax
    {
      this.bufMin, this.bufMax := bufMin, bufMax;
      size, dataSize := 0, 0;
      buffer := new byte[0];
    }

    method Append(data: seq<byte>) returns (r: AppendResult)
      requires Valid() && |data| + bufMax < TWO_32
      modifies this, buffer
      ensures Valid() && (buffer == old(buffer) || fresh(buffer))
      ensures r == if Allocated(bufMin, old(dataSize) + |data|) >= bufMax then BufferOverflow else Appended
      ensures Contents() == if r.Appended? then old(Contents()) + data else old(Contents())
      ensures r.Appended? ==> size == Allocated(bufMin, dataSize)
    {
      var newSize := size;
      if newSize < bufMin {
        newSize := bufMin;
      }
      if |data| > newSize - dataSize {
        newSize := newSize + (|data| - (newSize - dataSize));
      }
      if newSize >= bufMax {
        return BufferOverflow;
      }
      if newSize != size {
        buffer := Realloc(buffer, newSize);
      }
      assert buffer[..dataSize] == old(Contents());
      CopyInto(buffer, dataSize, data);
      size := newSize;
      dataSize := dataSize + |data|;
      r := Appended;
    }

    /** Drop the first `n` bytes: shift the rest left in place, then give memory back. */
    method DropFront(n: nat)
      requires Valid() && n <= dataSize
      modifies this, buffer
      ensures Valid() && (buffer == old(buffer) || fresh(buffer))
      ensures Contents() == old(Contents())[n..]
    {
      ghost var rest := Contents()[n..];
      ShiftLeft(buffer, n, dataSize);
      dataSize := dataSize - n;
      assert buffer[..dataSize] == rest;
      if dataSize < size {
        var oldSize := size;
        size := dataSize;
        if size < bufMin {
          size := bufMin;
        }
        if oldSize != size {
          buffer := Realloc(buffer, size);
          assert buffer[..dataSize] == rest;
        }
      }
    }
  }
}
