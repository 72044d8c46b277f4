/**
 What both header readers share: the summary they return, the errors they raise, and the open file
 whose cursor `read` and `seek` move.
 */
module Capture {
  import opened Wrappers
  import opened Bytes

  datatype Format = Pcap | Pcapng

  datatype Link = Unknown | Network(number: nat)

  /** `start` and `end` are None exactly when no packet carried a timestamp. */
  datatype Summary = Summary(packets: nat, start: Option<real>, end: Option<real>,
                             link: Link, snaplen: nat, format: Format)

  /** The last one is the unguarded index past an option that ends its block; the others are raised on purpose. */
  datatype Error =
    | TooShort
    | MissingGlobalHeader
    | UnknownMagic
    | AbsurdLength(claimed: nat)
    | MissingSectionHeader
    | NotASection
    | UnknownByteOrder
    | OptionOverrun

  function First(stamps: seq<real>): Option<real> {
    if stamps == [] then None else Some(stamps[0])
  }

  function Last(stamps: seq<real>): Option<real> {
    if stamps == [] then None else Some(stamps[|stamps| - 1])
  }

  /** The bytes a read of `n` at position `p` returns: fewer than `n` only at the end of the file. */
  function ReadAt(data: seq<Byte>, p: nat, n: nat): (r: seq<Byte>)
    ensures |r| <= n
    ensures |r| == n <==> p + n <= |data| || n == 0
  {
    if |data| <= p then [] else if p + n <= |data| then data[p..p + n] else data[p..]
  }

  class OpenFile {
    const data: seq<Byte>
    var pos: nat

    constructor (data: seq<Byte>)
      ensures this.data == data && pos == 0
    {
      this.data := data;
      pos := 0;
    }

    method Read(n: nat) returns (chunk: seq<Byte>)
      modifies this
      ensures chunk == ReadAt(data, old(pos), n)
      ensures pos == old(pos) + |chunk|
    {
      chunk := ReadAt(data, pos, n);
      pos := pos + |chunk|;
    }

    // A seek may leave the cursor past the end; the next read then returns nothing.
    method Seek(target: nat)
      modifies this
      ensures pos == target
    {
      pos := target;
    }
  }
}
