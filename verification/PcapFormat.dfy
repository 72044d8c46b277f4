/**
 Classic PCAP (draft-ietf-opsawg-pcap, sections 4 and 5): what the header reader makes of a byte
 string, a writer for the format, and the proof that the reader undoes the writer.
 */
module PcapFormat {
  import opened Wrappers
  import opened Bytes
  import opened Capture

  const MAGIC_US := 0xA1B2_C3D4
  const MAGIC_NS := 0xA1B2_3C4D
  const HEADER_SIZE := 24
  const RECORD_SIZE := 16

  /** How the magic number says to read the rest of the file. */
  datatype Dialect = Dialect(order: Endian, nano: bool)
  {
    function TicksPerSecond(): nat {
      if nano then 1_000_000_000 else 1_000_000
    }
  }

  function DialectOf(magic: nat): Option<Dialect> {
    if magic == MAGIC_US then Some(Dialect(Little, false))
    else if magic == 0xD4C3_B2A1 then Some(Dialect(Big, false))
    else if magic == MAGIC_NS then Some(Dialect(Little, true))
    else if magic == 0x4D3C_B2A1 then Some(Dialect(Big, true))
    else None
  }

  /** A record header, and the offset at which it starts. */
  datatype Record = Record(at: nat, seconds: nat, fraction: nat, captured: nat, original: nat)
  {
    function Stamp(d: Dialect): real {
      seconds as real + fraction as real / d.TicksPerSecond() as real
    }
  }

  function RecordAt(e: Endian, data: seq<Byte>, p: nat): (r: Record)
    requires p + RECORD_SIZE <= |data|
  {
    Record(p, U32(e, data[p..p + 4]), U32(e, data[p + 4..p + 8]),
           U32(e, data[p + 8..p + 12]), U32(e, data[p + 12..p + 16]))
  }

  /** The record headers met from `p` on, when each payload is skipped by its captured length. */
  function Records(e: Endian, data: seq<Byte>, p: nat): seq<Record>
    decreases |data| - p
  {
    if |data| < p + RECORD_SIZE then []
    else
      var r := RecordAt(e, data, p);
      [r] + Records(e, data, p + RECORD_SIZE + r.captured)
  }

  /** The sanity check on a payload length, with the precedence the source gives it: `(4 * snaplen + 1) << 20`. */
  predicate Absurd(snaplen: nat, captured: nat) {
    captured > (snaplen * 4 + 1) * 0x10_0000 && captured > 0x100_0000
  }

  function FirstAbsurd(snaplen: nat, rs: seq<Record>): Option<nat> {
    if rs == [] then None
    else if Absurd(snaplen, rs[0].captured) then Some(rs[0].captured)
    else FirstAbsurd(snaplen, rs[1..])
  }

  lemma {:induction false} FirstAbsurdNone(snaplen: nat, rs: seq<Record>)
    ensures FirstAbsurd(snaplen, rs) == None <==> forall i :: 0 <= i < |rs| ==> !Absurd(snaplen, rs[i].captured)
  {
    if rs != [] {
      FirstAbsurdNone(snaplen, rs[1..]);
      assert forall i :: 1 <= i < |rs| ==> rs[i] == rs[1..][i - 1];
    }
  }

  function Stamps(d: Dialect, rs: seq<Record>): seq<real> {
    seq(|rs|, i requires 0 <= i < |rs| => rs[i].Stamp(d))
  }

  function SummaryFrom(d: Dialect, snaplen: nat, network: nat, rs: seq<Record>): Result<Summary, Error> {
    match FirstAbsurd(snaplen, rs)
    case Some(n) => Err(AbsurdLength(n))
    case None => Ok(Summary(|rs|, First(Stamps(d, rs)), Last(Stamps(d, rs)), Network(network), snaplen, Pcap))
  }

  /** What `_read_pcap` returns on a file holding `data`. */
  function Summarise(data: seq<Byte>): Result<Summary, Error> {
    if |data| < HEADER_SIZE then Err(MissingGlobalHeader)
    else
      match DialectOf(U32(Little, data[..4]))
      case None => Err(UnknownMagic)
      case Some(d) =>
        var snaplen := U32(d.order, data[16..20]);
        var network := U32(d.order, data[20..24]);
        SummaryFrom(d, snaplen, network, Records(d.order, data, HEADER_SIZE))
  }

  // ---- the writer ----

  datatype Packet = Packet(seconds: nat, fraction: nat, original: nat, payload: seq<Byte>)
  {
    predicate Writable() {
      seconds < U32_LIMIT && fraction < U32_LIMIT && original < U32_LIMIT && |payload| < U32_LIMIT
    }
  }

  predicate AllWritable(ks: seq<Packet>) {
    ks == [] || (ks[0].Writable() && AllWritable(ks[1..]))
  }

  datatype CaptureFile = CaptureFile(dialect: Dialect, major: nat, minor: nat, zone: nat, sigfigs: nat,
                                     snaplen: nat, network: nat, packets: seq<Packet>)
  {
    predicate Writable() {
      && major < U16_LIMIT && minor < U16_LIMIT
      && zone < U32_LIMIT && sigfigs < U32_LIMIT && snaplen < U32_LIMIT && network < U32_LIMIT
      && AllWritable(packets)
    }
  }

  function EncodePacket(e: Endian, k: Packet): (b: seq<Byte>)
    requires k.Writable()
    ensures |b| == RECORD_SIZE + |k.payload|
  {
    E32(e, k.seconds) + E32(e, k.fraction) + E32(e, |k.payload|) + E32(e, k.original) + k.payload
  }

  function EncodePackets(e: Endian, ks: seq<Packet>): seq<Byte>
    requires AllWritable(ks)
  {
    if ks == [] then [] else EncodePacket(e, ks[0]) + EncodePackets(e, ks[1..])
  }

  function EncodeHeader(c: CaptureFile): (b: seq<Byte>)
    requires c.Writable()
    ensures |b| == HEADER_SIZE
  {
    var e := c.dialect.order;
    E32(e, if c.dialect.nano then 0xA1B2_3C4D else 0xA1B2_C3D4) + E16(e, c.major) + E16(e, c.minor)
    + E32(e, c.zone) + E32(e, c.sigfigs) + E32(e, c.snaplen) + E32(e, c.network)
  }

  function Encode(c: CaptureFile): seq<Byte>
    requires c.Writable()
  {
    EncodeHeader(c) + EncodePackets(c.dialect.order, c.packets)
  }

  // ---- the reader undoes the writer ----

  function PacketStamp(d: Dialect, k: Packet): real {
    k.seconds as real + k.fraction as real / (if d.nano then 1_000_000_000.0 else 1_000_000.0)
  }

  predicate Same(r: Record, k: Packet) {
    && r.seconds == k.seconds && r.fraction == k.fraction
    && r.captured == |k.payload| && r.original == k.original
  }

  lemma ReadBackPacket(e: Endian, k: Packet, data: seq<Byte>, p: nat)
    requires k.Writable()
    requires p + RECORD_SIZE + |k.payload| <= |data|
    requires data[p..p + RECORD_SIZE + |k.payload|] == EncodePacket(e, k)
    ensures Same(RecordAt(e, data, p), k)
  {
    var b := EncodePacket(e, k);
    SubSlice(data, p, p + |b|, 0, 4);
    SubSlice(data, p, p + |b|, 4, 8);
    SubSlice(data, p, p + |b|, 8, 12);
    SubSlice(data, p, p + |b|, 12, 16);
    assert b[0..4] == E32(e, k.seconds);
    assert b[4..8] == E32(e, k.fraction);
    assert b[8..12] == E32(e, |k.payload|);
    assert b[12..16] == E32(e, k.original);
    Unpack32(e, k.seconds);
    Unpack32(e, k.fraction);
    Unpack32(e, |k.payload|);
    Unpack32(e, k.original);
  }

  lemma {:induction false} ReadBackPackets(e: Endian, ks: seq<Packet>, data: seq<Byte>, p: nat)
    requires AllWritable(ks)
    requires p <= |data| && data[p..] == EncodePackets(e, ks)
    ensures Match(Records(e, data, p), ks)
    decreases |ks|
  {
    if ks == [] {
    } else {
      var next := p + RECORD_SIZE + |ks[0].payload|;
      CutPacket(e, ks, data, p);
      ReadBackPacket(e, ks[0], data, p);
      ReadBackPackets(e, ks[1..], data, next);
      MatchCons(RecordAt(e, data, p), Records(e, data, next), ks);
    }
  }

  lemma CutPacket(e: Endian, ks: seq<Packet>, data: seq<Byte>, p: nat)
    requires AllWritable(ks) && ks != [] && p <= |data| && data[p..] == EncodePackets(e, ks)
    ensures var n := RECORD_SIZE + |ks[0].payload|;
            && p + n <= |data| && data[p..p + n] == EncodePacket(e, ks[0])
            && data[p + n..] == EncodePackets(e, ks[1..])
  {
    SplitSlice(data, p, EncodePacket(e, ks[0]), EncodePackets(e, ks[1..]));
  }

  predicate Match(rs: seq<Record>, ks: seq<Packet>) {
    |rs| == |ks| && forall i :: 0 <= i < |ks| ==> Same(rs[i], ks[i])
  }

  lemma MatchCons(r: Record, rs: seq<Record>, ks: seq<Packet>)
    requires ks != [] && Same(r, ks[0]) && Match(rs, ks[1..])
    ensures Match([r] + rs, ks)
  {
    forall i | 1 <= i < |ks| ensures Same(([r] + rs)[i], ks[i]) {
      assert Same(rs[i - 1], ks[1..][i - 1]);
    }
  }

  // The reader always unpacks the magic as little-endian, so a big-endian one is seen byte-swapped.
  lemma MagicReadsBack(d: Dialect)
    ensures DialectOf(U32(Little, E32(d.order, if d.nano then MAGIC_NS else MAGIC_US))) == Some(d)
  {
    if d.order == Little {
      Unpack32(Little, if d.nano then MAGIC_NS else MAGIC_US);
    } else if d.nano {
      assert E32(Big, 0xA1B2_3C4D) == [0xA1, 0xB2, 0x3C, 0x4D];
      BigReadLittle(0xA1, 0xB2, 0x3C, 0x4D);
    } else {
      assert E32(Big, 0xA1B2_C3D4) == [0xA1, 0xB2, 0xC3, 0xD4];
      BigReadLittle(0xA1, 0xB2, 0xC3, 0xD4);
    }
  }

  lemma BigReadLittle(b0: Byte, b1: Byte, b2: Byte, b3: Byte)
    ensures U32(Little, [b0, b1, b2, b3]) == (b0 as int) + 256 * ((b1 as int) + 256 * ((b2 as int) + 256 * (b3 as int)))
  {
    assert [b0, b1, b2, b3][1..] == [b1, b2, b3] && [b1, b2, b3][1..] == [b2, b3] && [b2, b3][1..] == [b3];
    assert Unpack(Little, [b3]) == b3;
    assert Unpack(Little, [b2, b3]) == (b2 as int) + 256 * (b3 as int);
    assert Unpack(Little, [b1, b2, b3]) == (b1 as int) + 256 * ((b2 as int) + 256 * (b3 as int));
  }

  lemma ReadBackHeader(c: CaptureFile)
    requires c.Writable()
    ensures var h := EncodeHeader(c);
            && DialectOf(U32(Little, h[..4])) == Some(c.dialect)
            && U32(c.dialect.order, h[16..20]) == c.snaplen
            && U32(c.dialect.order, h[20..24]) == c.network
  {
    var e, h := c.dialect.order, EncodeHeader(c);
    var magic := if c.dialect.nano then MAGIC_NS else MAGIC_US;
    assert h[..4] == E32(e, magic);
    MagicReadsBack(c.dialect);
    assert h[16..20] == E32(e, c.snaplen);
    assert h[20..24] == E32(e, c.network);
    Unpack32(e, c.snaplen);
    Unpack32(e, c.network);
  }

  /** A payload of at most 16 MiB, or of as many MiB as four times the snap length and one more. */
  predicate Credible(snaplen: nat, length: nat) {
    length <= 16_777_216 || length <= (4 * snaplen + 1) * 1_048_576
  }

  const MAGICS: set<seq<Byte>> :=
    {[0xD4, 0xC3, 0xB2, 0xA1], [0xA1, 0xB2, 0xC3, 0xD4], [0x4D, 0x3C, 0xB2, 0xA1], [0xA1, 0xB2, 0x3C, 0x4D]}

  /** How the global header is refused: too short, or none of the four magic numbers. */
  lemma HeaderRefused(data: seq<Byte>)
    ensures Summarise(data) == Err(MissingGlobalHeader) <==> |data| < 24
    ensures Summarise(data) == Err(UnknownMagic) <==> |data| >= 24 && data[..4] !in MAGICS
  {
    hide U32, Records, FirstAbsurd;
    if |data| >= 24 {
      ReadsAs(data[..4], 0xD4, 0xC3, 0xB2, 0xA1);
      ReadsAs(data[..4], 0xA1, 0xB2, 0xC3, 0xD4);
      ReadsAs(data[..4], 0x4D, 0x3C, 0xB2, 0xA1);
      ReadsAs(data[..4], 0xA1, 0xB2, 0x3C, 0x4D);
    }
  }

  predicate Plausible(snaplen: nat, ks: seq<Packet>) {
    forall i :: 0 <= i < |ks| ==> Credible(snaplen, |ks[i].payload|)
  }

  /**
   Reading back a classic capture, in either byte order and resolution, gives the number of packets,
   the first and last packet times, the link type and the snap length it was written with ...
   */
  lemma RoundTrip(c: CaptureFile)
    requires c.Writable() && Plausible(c.snaplen, c.packets)
    ensures var n := |c.packets|;
            Summarise(Encode(c)) == Ok(Summary(
              n,
              if n == 0 then None else Some(PacketStamp(c.dialect, c.packets[0])),
              if n == 0 then None else Some(PacketStamp(c.dialect, c.packets[n - 1])),
              Network(c.network), c.snaplen, Pcap))
  {
    hide Encode, Summarise;
    var rs := ReadBack(c);
    PlausibleReadBack(c.snaplen, rs, c.packets);
    var stamps := Stamps(c.dialect, rs);
    if rs != [] {
      assert Same(rs[0], c.packets[0]) && Same(rs[|rs| - 1], c.packets[|rs| - 1]);
    }
  }

  /** ... and fails, on the first absurd payload, exactly when some payload trips the sanity check. */
  lemma RejectedWhenImplausible(c: CaptureFile)
    requires c.Writable()
    ensures Summarise(Encode(c)).Err? <==> !Plausible(c.snaplen, c.packets)
    ensures !Plausible(c.snaplen, c.packets) ==>
              exists i :: 0 <= i < |c.packets| && !Credible(c.snaplen, |c.packets[i].payload|)
                && Plausible(c.snaplen, c.packets[..i])
                && Summarise(Encode(c)) == Err(AbsurdLength(|c.packets[i].payload|))
  {
    var rs := ReadBack(c);
    PlausibleReadBack(c.snaplen, rs, c.packets);
    if FirstAbsurd(c.snaplen, rs) != None {
      var j := FirstAbsurdIndex(c.snaplen, rs);
      assert Same(rs[j], c.packets[j]);
      PlausibleReadBack(c.snaplen, rs[..j], c.packets[..j]);
      assert Plausible(c.snaplen, c.packets[..j]);
    }
  }

  lemma PlausibleReadBack(snaplen: nat, rs: seq<Record>, ks: seq<Packet>)
    requires Match(rs, ks)
    ensures FirstAbsurd(snaplen, rs) == None <==> Plausible(snaplen, ks)
  {
    FirstAbsurdNone(snaplen, rs);
    if !Plausible(snaplen, ks) {
      var i :| 0 <= i < |ks| && !Credible(snaplen, |ks[i].payload|);
      assert Same(rs[i], ks[i]);
    }
    assert forall i :: 0 <= i < |rs| ==> Same(rs[i], ks[i]);
  }

  lemma ReadBack(c: CaptureFile) returns (rs: seq<Record>)
    requires c.Writable()
    ensures rs == Records(c.dialect.order, Encode(c), HEADER_SIZE)
    ensures Match(rs, c.packets)
    ensures Summarise(Encode(c)) == SummaryFrom(c.dialect, c.snaplen, c.network, rs)
  {
    var data, h := Encode(c), EncodeHeader(c);
    var body := EncodePackets(c.dialect.order, c.packets);
    assert data == h + body;
    assert data[..4] == h[..4] && data[16..20] == h[16..20] && data[20..24] == h[20..24] && data[24..] == body;
    ReadBackHeader(c);
    ReadBackPackets(c.dialect.order, c.packets, data, HEADER_SIZE);
    rs := Records(c.dialect.order, data, HEADER_SIZE);
  }

  lemma {:induction false} FirstAbsurdIndex(snaplen: nat, rs: seq<Record>) returns (j: nat)
    requires FirstAbsurd(snaplen, rs) != None
    ensures j < |rs| && Absurd(snaplen, rs[j].captured)
    ensures FirstAbsurd(snaplen, rs[..j]) == None
    ensures FirstAbsurd(snaplen, rs) == Some(rs[j].captured)
  {
    if Absurd(snaplen, rs[0].captured) {
      j := 0;
    } else {
      var i := FirstAbsurdIndex(snaplen, rs[1..]);
      j := i + 1;
      assert rs[..j][1..] == rs[1..][..i];
    }
  }

  /** Both byte orders of the same capture read the same. */
  lemma ByteOrderIrrelevant(c: CaptureFile, e: Endian)
    requires c.Writable()
    ensures var c' := c.(dialect := Dialect(e, c.dialect.nano));
            c'.Writable() && Summarise(Encode(c')) == Summarise(Encode(c))
  {
    var c' := c.(dialect := Dialect(e, c.dialect.nano));
    var rs := ReadBack(c);
    var rs' := ReadBack(c');
    StampsAgree(c.dialect, e, rs, rs');
    FirstAbsurdAgrees(c.snaplen, rs, rs');
  }

  lemma StampsAgree(d: Dialect, e: Endian, rs: seq<Record>, rs': seq<Record>)
    requires |rs| == |rs'|
    requires forall i :: 0 <= i < |rs| ==> rs[i].seconds == rs'[i].seconds && rs[i].fraction == rs'[i].fraction
    ensures Stamps(d, rs) == Stamps(Dialect(e, d.nano), rs')
  {
  }

  lemma {:induction false} FirstAbsurdAgrees(snaplen: nat, rs: seq<Record>, rs': seq<Record>)
    requires |rs| == |rs'| && forall i :: 0 <= i < |rs| ==> rs[i].captured == rs'[i].captured
    ensures FirstAbsurd(snaplen, rs) == FirstAbsurd(snaplen, rs')
  {
    if rs != [] {
      FirstAbsurdAgrees(snaplen, rs[1..], rs'[1..]);
    }
  }

  // The check can fire on a 32-bit length exactly when the snap length is at most 1023 bytes: the shift
  // binds weaker than the addition, so any larger snap length lifts the bound past every length.
  lemma SanityCheckCanFire(snaplen: nat)
    ensures (exists captured: nat :: captured < U32_LIMIT && Absurd(snaplen, captured)) <==> snaplen < 1024
  {
    if snaplen < 1024 {
      assert Absurd(snaplen, U32_LIMIT - 1);
    }
  }

  // ---- truncation and progress, on arbitrary bytes ----

  /** The records whose header lies wholly before `cut`. */
  function Within(rs: seq<Record>, cut: nat): seq<Record> {
    if rs == [] then []
    else (if rs[0].at + RECORD_SIZE <= cut then [rs[0]] else []) + Within(rs[1..], cut)
  }

  lemma {:induction false} StartsFrom(e: Endian, data: seq<Byte>, p: nat, i: nat)
    requires i < |Records(e, data, p)|
    ensures p + 16 * i <= Records(e, data, p)[i].at
    ensures Records(e, data, p)[i].at + RECORD_SIZE <= |data|
    decreases i
  {
    if i > 0 {
      StartsFrom(e, data, p + RECORD_SIZE + RecordAt(e, data, p).captured, i - 1);
    }
  }

  lemma WithinCons(r: Record, rs: seq<Record>, cut: nat)
    ensures Within([r] + rs, cut) == (if r.at + RECORD_SIZE <= cut then [r] else []) + Within(rs, cut)
  {
    assert ([r] + rs)[1..] == rs;
  }

  lemma {:induction false} NoneWithin(rs: seq<Record>, cut: nat)
    requires forall i :: 0 <= i < |rs| ==> cut < rs[i].at + RECORD_SIZE
    ensures Within(rs, cut) == []
  {
    if rs != [] {
      NoneWithin(rs[1..], cut);
    }
  }

  /** Cutting any file leaves exactly the records whose headers lie wholly inside the cut. */
  lemma {:induction false} Truncation(e: Endian, data: seq<Byte>, p: nat, cut: nat)
    requires cut <= |data|
    ensures Records(e, data[..cut], p) == Within(Records(e, data, p), cut)
    decreases |data| - p
  {
    if p + RECORD_SIZE <= cut {
      var r := RecordAt(e, data, p);
      var next := p + RECORD_SIZE + r.captured;
      RecordCut(e, data, p, cut);
      Truncation(e, data, next, cut);
      WithinCons(r, Records(e, data, next), cut);
    } else {
      forall i | 0 <= i < |Records(e, data, p)| ensures cut < Records(e, data, p)[i].at + RECORD_SIZE {
        StartsFrom(e, data, p, i);
      }
      NoneWithin(Records(e, data, p), cut);
    }
  }

  lemma RecordCut(e: Endian, data: seq<Byte>, p: nat, cut: nat)
    requires p + RECORD_SIZE <= cut <= |data|
    ensures RecordAt(e, data[..cut], p) == RecordAt(e, data, p)
  {
    Prefix(data, cut, p, p + 4);
    Prefix(data, cut, p + 4, p + 8);
    Prefix(data, cut, p + 8, p + 12);
    Prefix(data, cut, p + 12, p + 16);
  }

  /** Lifted to the summary: a file cut after its global header reports on the records left, and on nothing else. */
  lemma CutSummary(data: seq<Byte>, cut: nat)
    requires HEADER_SIZE <= cut <= |data|
    requires DialectOf(U32(Little, data[..4])).Some?
    ensures var d := DialectOf(U32(Little, data[..4])).value;
            var snaplen := U32(d.order, data[16..20]);
            var rs := Within(Records(d.order, data, HEADER_SIZE), cut);
            Summarise(data[..cut]) == SummaryFrom(d, snaplen, U32(d.order, data[20..24]), rs)
  {
    Prefix(data, cut, 0, 4);
    Prefix(data, cut, 16, 20);
    Prefix(data, cut, 20, 24);
    Truncation(DialectOf(U32(Little, data[..4])).value.order, data, HEADER_SIZE, cut);
  }

  // Every record consumes at least sixteen bytes, which bounds the packet count of any file.
  lemma Progress(e: Endian, data: seq<Byte>)
    requires HEADER_SIZE <= |data|
    ensures 16 * |Records(e, data, HEADER_SIZE)| <= |data| - HEADER_SIZE
  {
    var rs := Records(e, data, HEADER_SIZE);
    if rs != [] {
      StartsFrom(e, data, HEADER_SIZE, |rs| - 1);
    }
  }
}
