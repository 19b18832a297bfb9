/** Byte strings, little-endian words and the two memory operations (overwriting a
    range, concatenating blocks) that the SUPLA common library is built from. */
module Bytes {

  type byte = x: int | 0 <= x < 256

  const TWO_32: int := 0x1_0000_0000

  type u32 = x: int | 0 <= x < 0x1_0000_0000

  datatype Option<T> = None | Some(value: T)

  /** Unsigned 32-bit subtraction, with the wrap-around of the C type. */
  function Sub32(a: u32, b: u32): u32 {
    if a >= b then a - b else a - b + TWO_32
  }

  /** The four bytes of a 32-bit word, least significant first; higher bits are cut off. */
  function LE32(x: int): (b: seq<byte>)
    ensures |b| == 4
  {
    [x % 256, x / 256 % 256, x / 65536 % 256, x / 16777216 % 256]
  }

  function FromLE32(b: seq<byte>): u32
    requires |b| == 4
  {
    b[0] as int + 256 * b[1] as int + 65536 * b[2] as int + 16777216 * b[3] as int
  }

  lemma FromLE32OfLE32(x: u32)
    ensures FromLE32(LE32(x)) == x
  {
    var a, b, c := x / 256, x / 65536, x / 16777216;
    assert b == a / 256 && c == b / 256;
    assert x == 256 * a + x % 256 && a == 256 * b + a % 256 && b == 256 * c + b % 256;
  }

  lemma LE32OfFromLE32(b: seq<byte>)
    requires |b| == 4
    ensures LE32(FromLE32(b)) == b
  {
    var x: int, b1: int, b2: int, b3: int := FromLE32(b), b[1], b[2], b[3];
    assert x / 256 == b1 + 256 * b2 + 65536 * b3;
    assert x / 65536 == b2 + 256 * b3;
    assert x / 16777216 == b3;
  }

  /** All blocks, one after another. */
  function Concat(blocks: seq<seq<byte>>): seq<byte> {
    if blocks == [] then [] else blocks[0] + Concat(blocks[1..])
  }

  lemma Assoc<T>(x: seq<T>, y: seq<T>, z: seq<T>)
    ensures x + y + z == x + (y + z)
  {
  }

  lemma {:induction false} ConcatAppend(a: seq<seq<byte>>, b: seq<seq<byte>>)
    ensures Concat(a + b) == Concat(a) + Concat(b)
  {
    if a == [] {
      assert a + b == b;
      assert [] + Concat(b) == Concat(b);
    } else {
      ConcatAppend(a[1..], b);
      assert (a + b)[0] == a[0] && (a + b)[1..] == a[1..] + b;
      Assoc(a[0], Concat(a[1..]), Concat(b));
    }
  }

  /** `buf` after `memcpy(&buf[off], data, |data|)`. */
  function Overwrite(buf: seq<byte>, off: nat, data: seq<byte>): (r: seq<byte>)
    requires off + |data| <= |buf|
    ensures |r| == |buf|
  {
    buf[..off] + data + buf[off + |data|..]
  }

  function Zeros(n: nat): (r: seq<byte>)
    ensures |r| == n && forall i :: 0 <= i < n ==> r[i] == 0
  {
    seq(n, i => 0)
  }

  /** `memcpy` into an array. */
  method CopyInto(a: array<byte>, off: nat, data: seq<byte>)
    requires off + |data| <= a.Length
    modifies a
    ensures a[..] == Overwrite(old(a[..]), off, data)
  {
    forall i | 0 <= i < |data| {
      a[off + i] := data[i];
    }
  }
}
