/**
 Single-section PCAPNG (draft-ietf-opsawg-pcapng, sections 3.1, 3.5 and 4.1 to 4.4): the framing of a
 byte string into blocks, what the header reader makes of each block, and the proofs that it skips
 unknown blocks and survives truncation.
 */
module PcapngFormat {
  import opened Wrappers
  import opened Bytes
  import opened Capture

  const SECTION := 0x0A0D_0D0A
  const INTERFACE := 1
  const OBSOLETE_PACKET := 2
  const SIMPLE_PACKET := 3
  const ENHANCED_PACKET := 6
  const ORDER_MAGIC := 0x1A2B_3C4D
  const MICROSECONDS := 1_000_000

  // ---- framing ----

  /** A whole block: its type, its body, and the offset just past its trailing length. */
  datatype Block = Block(kind: nat, body: seq<Byte>, end: nat)

  /** The length of the block at `p`, or None where there is no whole, aligned block. */
  function Frame(e: Endian, data: seq<Byte>, p: nat): (r: Option<nat>)
    ensures r.Some? ==> 12 <= r.value && r.value % 4 == 0 && p + r.value <= |data|
  {
    if |data| < p + 8 then None
    else
      var len := U32(e, data[p + 4..p + 8]);
      if len < 12 || len % 4 != 0 || |data| < p + len then None else Some(len)
  }

  function BlockAt(e: Endian, data: seq<Byte>, p: nat, len: nat): Block
    requires 12 <= len && p + len <= |data|
  {
    Block(U32(e, data[p..p + 4]), data[p + 8..p + len - 4], p + len)
  }

  /** The blocks met from `p` on; the walk stops at the first impossible or incomplete block. */
  function Blocks(e: Endian, data: seq<Byte>, p: nat): seq<Block>
    decreases |data| - p
  {
    match Frame(e, data, p)
    case None => []
    case Some(len) => [BlockAt(e, data, p, len)] + Blocks(e, data, p + len)
  }

  // ---- one block ----

  function Power(base: nat, n: nat): (r: nat)
    requires base > 0
    ensures r > 0
  {
    if n == 0 then 1 else base * Power(base, n - 1)
  }

  /** Ticks per second named by an `if_tsresol` octet: the top bit selects base 2 over base 10. */
  function Resolution(octet: Byte): (r: nat)
    ensures r > 0
  {
    if octet >= 0x80 then Power(2, octet - 0x80) else Power(10, octet)
  }

  function Padded(n: nat): (r: nat)
    ensures n <= r < n + 4 && r % 4 == 0
  {
    (n + 3) / 4 * 4
  }

  /** The option walk of an interface block from offset `p`: the last `if_tsresol` before the end of options wins. */
  function OptionWalk(e: Endian, body: seq<Byte>, p: nat, divisor: nat): (r: Result<nat, Error>)
    requires divisor > 0
    ensures r.Ok? ==> r.value > 0
    decreases |body| - p
  {
    if |body| < p + 4 then Ok(divisor)
    else
      var code, len := U16(e, body[p..p + 2]), U16(e, body[p + 2..p + 4]);
      if code == 0 then Ok(divisor)
      else if code == 9 && len >= 1 then
        if |body| <= p + 4 then Err(OptionOverrun)
        else OptionWalk(e, body, p + 4 + Padded(len), Resolution(body[p + 4]))
      else OptionWalk(e, body, p + 4 + Padded(len), divisor)
  }

  type Divisor = d: nat | d > 0 witness 1

  /** What the reader has gathered so far: per-interface divisors and link types, and the packet tally. */
  datatype Walk = Walk(divisors: seq<Divisor>, links: seq<nat>, snaplen: nat, packets: nat, stamps: seq<real>)

  const START := Walk([], [], 0, 0, [])

  function Ticks(e: Endian, high: seq<Byte>, low: seq<Byte>): nat {
    U32(e, high) * 0x1_0000_0000 + U32(e, low)
  }

  function DivisorOf(divisors: seq<Divisor>, iface: nat): Divisor {
    if iface < |divisors| then divisors[iface] else MICROSECONDS
  }

  function Step(e: Endian, w: Walk, b: Block): Result<Walk, Error> {
    if b.kind == INTERFACE then
      if |b.body| < 8 then Ok(w)
      else
        var link, snaplen := U16(e, b.body[0..2]), U32(e, b.body[4..8]);
        match OptionWalk(e, b.body, 8, MICROSECONDS)
        case Err(x) => Err(x)
        case Ok(d) => Ok(w.(divisors := w.divisors + [d], links := w.links + [link],
                            snaplen := if snaplen > w.snaplen then snaplen else w.snaplen))
    else if b.kind == ENHANCED_PACKET then
      if |b.body| < 20 then Ok(w)
      else
        var divisor := DivisorOf(w.divisors, U32(e, b.body[0..4]));
        var stamp := Ticks(e, b.body[4..8], b.body[8..12]) as real / divisor as real;
        Ok(w.(packets := w.packets + 1, stamps := w.stamps + [stamp]))
    else if b.kind == OBSOLETE_PACKET then
      if |b.body| < 20 then Ok(w)
      else
        var stamp := Ticks(e, b.body[4..8], b.body[8..12]) as real / MICROSECONDS as real;
        Ok(w.(packets := w.packets + 1, stamps := w.stamps + [stamp]))
    else if b.kind == SIMPLE_PACKET then Ok(w.(packets := w.packets + 1))
    else Ok(w)
  }

  function WalkAll(e: Endian, w: Walk, bs: seq<Block>): Result<Walk, Error>
    decreases |bs|
  {
    if bs == [] then Ok(w)
    else
      match Step(e, w, bs[0])
      case Err(x) => Err(x)
      case Ok(w') => WalkAll(e, w', bs[1..])
  }

  function SummaryOf(w: Walk): Summary {
    Summary(w.packets, First(w.stamps), Last(w.stamps),
            if w.links == [] then Link.Unknown else Network(w.links[0]), w.snaplen, Pcapng)
  }

  /** The byte order a section header announces, and where the blocks after it begin. */
  function SectionStart(data: seq<Byte>): Result<(Endian, nat), Error> {
    if |data| < 12 then Err(MissingSectionHeader)
    else if U32(Little, data[0..4]) != SECTION then Err(NotASection)
    else
      var order := U32(Little, data[8..12]);
      if order == ORDER_MAGIC then Ok((Little, U32(Little, data[4..8])))
      else if order == 0x4D3C_2B1A then Ok((Big, U32(Big, data[4..8])))
      else Err(UnknownByteOrder)
  }

  function SummaryFrom(e: Endian, bs: seq<Block>): Result<Summary, Error> {
    match WalkAll(e, START, bs)
    case Err(x) => Err(x)
    case Ok(w) => Ok(SummaryOf(w))
  }

  /** What `_read_pcapng` returns on a file holding `data`. */
  function Summarise(data: seq<Byte>): Result<Summary, Error> {
    match SectionStart(data)
    case Err(x) => Err(x)
    case Ok((e, start)) => SummaryFrom(e, Blocks(e, data, start))
  }

  // ---- what counts ----

  /** A block counts as a packet: a simple one always, an enhanced or an obsolete one if its header is whole. */
  predicate IsPacket(b: Block) {
    b.kind == 3 || (b.kind in {2, 6} && |b.body| >= 20)
  }

  function Counted(bs: seq<Block>): nat {
    if bs == [] then 0 else Counted(bs[1..]) + (if IsPacket(bs[0]) then 1 else 0)
  }

  function Described(bs: seq<Block>): nat {
    if bs == [] then 0 else Described(bs[1..]) + (if bs[0].kind == 1 && |bs[0].body| >= 8 then 1 else 0)
  }

  lemma {:induction false} WalkCounts(e: Endian, w: Walk, bs: seq<Block>)
    requires WalkAll(e, w, bs).Ok?
    ensures var w' := WalkAll(e, w, bs).value;
            && w'.packets == w.packets + Counted(bs)
            && |w'.divisors| == |w.divisors| + Described(bs) && |w'.links| == |w.links| + Described(bs)
            && w'.links[..|w.links|] == w.links
    decreases |bs|
  {
    if bs != [] {
      var next := Step(e, w, bs[0]).value;
      WalkCounts(e, next, bs[1..]);
      assert next.links[..|w.links|] == w.links;
    }
  }

  /** On any bytes that summarise, the packet count is that of the blocks that count as packets. */
  lemma PacketsCounted(data: seq<Byte>)
    requires Summarise(data).Ok?
    ensures SectionStart(data).Ok?
    ensures var start := SectionStart(data).value;
            Summarise(data).value.packets == Counted(Blocks(start.0, data, start.1))
  {
    var start := SectionStart(data).value;
    WalkCounts(start.0, START, Blocks(start.0, data, start.1));
  }

  /** How the first twelve bytes are refused. */
  lemma HeaderRefused(data: seq<Byte>)
    ensures SectionStart(data) == Err(MissingSectionHeader) <==> |data| < 12
    ensures |data| >= 12 ==>
              && (SectionStart(data) == Err(NotASection) <==> data[0..4] != [0x0A, 0x0D, 0x0D, 0x0A])
              && (SectionStart(data).Ok? <==>
                    data[0..4] == [0x0A, 0x0D, 0x0D, 0x0A] &&
                    data[8..12] in {[0x1A, 0x2B, 0x3C, 0x4D], [0x4D, 0x3C, 0x2B, 0x1A]})
              && (SectionStart(data).Ok? ==>
                    (SectionStart(data).value.0 == Big <==> data[8..12] == [0x1A, 0x2B, 0x3C, 0x4D]))
  {
    hide U32;
    if |data| >= 12 {
      ReadsAs(data[0..4], 0x0A, 0x0D, 0x0D, 0x0A);
      ReadsAs(data[8..12], 0x4D, 0x3C, 0x2B, 0x1A);
      ReadsAs(data[8..12], 0x1A, 0x2B, 0x3C, 0x4D);
    }
  }

  // ---- skipping ----

  predicate Known(b: Block) {
    b.kind == INTERFACE || b.kind == ENHANCED_PACKET || b.kind == OBSOLETE_PACKET || b.kind == SIMPLE_PACKET
  }

  function OnlyKnown(bs: seq<Block>): seq<Block> {
    if bs == [] then [] else (if Known(bs[0]) then [bs[0]] else []) + OnlyKnown(bs[1..])
  }

  /** Blocks of other types contribute nothing, wherever they stand and however many there are. */
  lemma {:induction false} UnknownBlocksSkipped(e: Endian, w: Walk, bs: seq<Block>)
    ensures WalkAll(e, w, bs) == WalkAll(e, w, OnlyKnown(bs))
    decreases |bs|
  {
    if bs != [] {
      var rest := OnlyKnown(bs[1..]);
      match Step(e, w, bs[0])
      case Err(_) =>
      case Ok(w') =>
        UnknownBlocksSkipped(e, w', bs[1..]);
        if Known(bs[0]) {
          assert ([bs[0]] + rest)[1..] == rest;
        } else {
          assert [] + rest == rest;
        }
    }
  }

  // Two walks agree as soon as the kinds and bodies do: offsets play no part.
  lemma {:induction false} OffsetsIrrelevant(e: Endian, w: Walk, bs: seq<Block>, bs': seq<Block>)
    requires |bs| == |bs'| && forall i :: 0 <= i < |bs| ==> bs[i].kind == bs'[i].kind && bs[i].body == bs'[i].body
    ensures WalkAll(e, w, bs) == WalkAll(e, w, bs')
    decreases |bs|
  {
    if bs != [] {
      assert Step(e, w, bs[0]) == Step(e, w, bs'[0]);
      match Step(e, w, bs[0])
      case Err(_) =>
      case Ok(w') => OffsetsIrrelevant(e, w', bs[1..], bs'[1..]);
    }
  }

  // ---- truncation and progress, on arbitrary bytes ----

  function Within(bs: seq<Block>, cut: nat): seq<Block> {
    if bs == [] then [] else (if bs[0].end <= cut then [bs[0]] else []) + Within(bs[1..], cut)
  }

  lemma {:induction false} EndsFrom(e: Endian, data: seq<Byte>, p: nat, i: nat)
    requires i < |Blocks(e, data, p)|
    ensures Frame(e, data, p).Some?
    ensures p + Frame(e, data, p).value <= Blocks(e, data, p)[i].end <= |data|
    ensures p + 12 * (i + 1) <= Blocks(e, data, p)[i].end
    decreases i
  {
    if i > 0 {
      EndsFrom(e, data, p + Frame(e, data, p).value, i - 1);
    }
  }

  lemma WithinCons(r: Block, rs: seq<Block>, cut: nat)
    ensures Within([r] + rs, cut) == (if r.end <= cut then [r] else []) + Within(rs, cut)
  {
    assert ([r] + rs)[1..] == rs;
  }

  lemma {:induction false} NoneWithin(bs: seq<Block>, cut: nat)
    requires forall i :: 0 <= i < |bs| ==> cut < bs[i].end
    ensures Within(bs, cut) == []
  {
    if bs != [] {
      NoneWithin(bs[1..], cut);
    }
  }

  /** Cutting any file leaves exactly the blocks that lie wholly inside the cut. */
  lemma {:induction false} Truncation(e: Endian, data: seq<Byte>, p: nat, cut: nat)
    requires cut <= |data|
    ensures Blocks(e, data[..cut], p) == Within(Blocks(e, data, p), cut)
    decreases |data| - p
  {
    hide Frame;
    FrameCut(e, data, p, cut);
    FirstBlock(e, data[..cut], p);
    match Frame(e, data[..cut], p) {
      case None => NoBlockFits(e, data, p, cut);
      case Some(n) =>
        FirstBlock(e, data, p);
        Truncation(e, data, p + n, cut);
        WithinCons(BlockAt(e, data, p, n), Blocks(e, data, p + n), cut);
    }
  }

  lemma FirstBlock(e: Endian, data: seq<Byte>, p: nat)
    ensures match Frame(e, data, p)
            case None => Blocks(e, data, p) == []
            case Some(n) => Blocks(e, data, p) == [BlockAt(e, data, p, n)] + Blocks(e, data, p + n)
  {
  }

  lemma NoBlockFits(e: Endian, data: seq<Byte>, p: nat, cut: nat)
    requires Frame(e, data, p).Some? ==> cut < p + Frame(e, data, p).value
    ensures Within(Blocks(e, data, p), cut) == []
  {
    var bs := Blocks(e, data, p);
    forall i | 0 <= i < |bs| ensures cut < bs[i].end {
      EndsFrom(e, data, p, i);
    }
    NoneWithin(bs, cut);
  }

  lemma FrameCut(e: Endian, data: seq<Byte>, p: nat, cut: nat)
    requires cut <= |data|
    ensures var f, g := Frame(e, data, p), Frame(e, data[..cut], p);
            && g == (if f.Some? && p + f.value <= cut then f else None)
            && (g.Some? ==> BlockAt(e, data[..cut], p, g.value) == BlockAt(e, data, p, g.value))
  {
    if p + 8 <= cut {
      Prefix(data, cut, p, p + 4);
      Prefix(data, cut, p + 4, p + 8);
      var f := Frame(e, data, p);
      if f.Some? && p + f.value <= cut {
        Prefix(data, cut, p + 8, p + f.value - 4);
      }
    }
  }

  /** A file cut after its section header summarises the blocks left, and nothing else. */
  lemma CutSummary(data: seq<Byte>, cut: nat)
    requires 12 <= cut <= |data|
    requires SectionStart(data).Ok?
    ensures var (e, start) := SectionStart(data).value;
            Summarise(data[..cut]) == SummaryFrom(e, Within(Blocks(e, data, start), cut))
  {
    Prefix(data, cut, 0, 4);
    Prefix(data, cut, 4, 8);
    Prefix(data, cut, 8, 12);
    var (e, start) := SectionStart(data).value;
    Truncation(e, data, start, cut);
  }

  // Every block consumes at least twelve bytes, which bounds their number.
  lemma Progress(e: Endian, data: seq<Byte>, p: nat)
    requires p <= |data|
    ensures 12 * |Blocks(e, data, p)| <= |data| - p
  {
    var bs := Blocks(e, data, p);
    if bs != [] {
      EndsFrom(e, data, p, |bs| - 1);
    }
  }
}
