/** Fixed-width unsigned integers in either byte order, as Python's `struct` packs and unpacks them. */
module Bytes {

  type Byte = x: int | 0 <= x < 256

  datatype Endian = Little | Big

  const U16_LIMIT := 0x1_0000
  const U32_LIMIT := 0x1_0000_0000
  const U64_LIMIT := 0x1_0000_0000_0000_0000

  function Unpack(e: Endian, b: seq<Byte>): nat {
    if b == [] then 0
    else
      var low: int := if e.Little? then b[0] else b[|b| - 1];
      low + 256 * Unpack(e, if e.Little? then b[1..] else b[..|b| - 1])
  }

  function Pack(e: Endian, n: nat, width: nat): (b: seq<Byte>)
    ensures |b| == width
  {
    if width == 0 then []
    else
      var low, rest := n % 256, Pack(e, n / 256, width - 1);
      if e.Little? then [low] + rest else rest + [low]
  }

  function Capacity(width: nat): nat {
    if width == 0 then 1 else 256 * Capacity(width - 1)
  }

  // Unpacking undoes packing, at every width and in both byte orders.
  lemma {:induction false} UnpackPack(e: Endian, n: nat, width: nat)
    requires n < Capacity(width)
    ensures Unpack(e, Pack(e, n, width)) == n
  {
    if width > 0 {
      UnpackPack(e, n / 256, width - 1);
      var low, rest, b := n % 256, Pack(e, n / 256, width - 1), Pack(e, n, width);
      assert if e.Little? then b[1..] == rest else b[..|b| - 1] == rest;
    }
  }

  function U16(e: Endian, b: seq<Byte>): nat { Unpack(e, b) }
  function U32(e: Endian, b: seq<Byte>): nat { Unpack(e, b) }

  function E16(e: Endian, n: nat): (b: seq<Byte>)
    ensures |b| == 2
  {
    Pack(e, n, 2)
  }

  function E32(e: Endian, n: nat): (b: seq<Byte>)
    ensures |b| == 4
  {
    Pack(e, n, 4)
  }

  lemma Unpack16(e: Endian, n: nat)
    requires n < U16_LIMIT
    ensures U16(e, E16(e, n)) == n
  {
    UnpackPack(e, n, 2);
  }

  lemma Unpack32(e: Endian, n: nat)
    requires n < U32_LIMIT
    ensures U32(e, E32(e, n)) == n
  {
    assert Capacity(4) == U32_LIMIT;
    UnpackPack(e, n, 4);
  }

  // Which bytes read as a given little-endian number.
  lemma ReadsAs(b: seq<Byte>, b0: Byte, b1: Byte, b2: Byte, b3: Byte)
    requires |b| == 4
    ensures U32(Little, b) == (b0 as int) + 0x100 * (b1 as int) + 0x1_0000 * (b2 as int) + 0x100_0000 * (b3 as int) <==>
              b == [b0, b1, b2, b3]
  {
    FourBytes(b);
    hide U32;
    assert b == [b[0], b[1], b[2], b[3]];
  }

  // Four bytes read as little-endian.
  lemma FourBytes(b: seq<Byte>)
    requires |b| == 4
    ensures U32(Little, b) == (b[0] as int) + 256 * ((b[1] as int) + 256 * ((b[2] as int) + 256 * (b[3] as int)))
  {
    assert b[1..][1..] == b[2..] && b[2..][1..] == b[3..] && b[3..][1..] == [];
    assert Unpack(Little, b[3..]) == b[3];
    assert Unpack(Little, b[2..]) == (b[2] as int) + 256 * (b[3] as int);
    assert Unpack(Little, b[1..]) == (b[1] as int) + 256 * ((b[2] as int) + 256 * (b[3] as int));
  }

  // A slice of a slice, and the two halves of a suffix.
  lemma SubSlice(data: seq<Byte>, lo: nat, hi: nat, i: nat, j: nat)
    requires lo <= hi <= |data| && i <= j <= hi - lo
    ensures data[lo..hi][i..j] == data[lo + i..lo + j]
  {
    forall k | 0 <= k < j - i ensures data[lo..hi][i..j][k] == data[lo + i..lo + j][k] {
      assert data[lo..hi][i + k] == data[lo + (i + k)];
    }
  }

  lemma SplitSlice(data: seq<Byte>, p: nat, head: seq<Byte>, tail: seq<Byte>)
    requires p <= |data| && data[p..] == head + tail
    ensures p + |head| <= |data|
    ensures data[p..p + |head|] == head && data[p + |head|..] == tail
  {
    var suffix := head + tail;
    assert |data[p..]| == |head| + |tail|;
    assert suffix[..|head|] == head && suffix[|head|..] == tail;
    assert data[p..][..|head|] == data[p..p + |head|];
    assert data[p..][|head|..] == data[p + |head|..];
  }

  lemma Prefix(data: seq<Byte>, cut: nat, i: nat, j: nat)
    requires i <= j <= cut <= |data|
    ensures data[..cut][i..j] == data[i..j]
  {
    assert data[..cut] == data[0..cut];
    SubSlice(data, 0, cut, i, j);
  }
}
