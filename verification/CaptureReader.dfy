/**
 The header reader itself: loops over an open file whose cursor they move, each proved to return
 exactly what the format modules say about the file's bytes.
 */
module CaptureReader {
  import opened Wrappers
  import opened Bytes
  import opened Capture
  import Classic = PcapFormat
  import Blocked = PcapngFormat
  import Writer = PcapngWriter

  method ReadPcap(f: OpenFile) returns (r: Result<Summary, Error>)
    requires f.pos == 0
    modifies f
    ensures r == Classic.Summarise(f.data)
  {
    var header := f.Read(24);
    if |header| < 24 {
      return Err(MissingGlobalHeader);
    }
    assert header == f.data[..24];
    assert header[..4] == f.data[..4] && header[16..20] == f.data[16..20] && header[20..24] == f.data[20..24];
    var dialect := Classic.DialectOf(U32(Little, header[..4]));
    if dialect == None {
      return Err(UnknownMagic);
    }
    var d := dialect.value;
    var snaplen, network := U32(d.order, header[16..20]), U32(d.order, header[20..24]);

    r := ReadRecords(f, d, snaplen, network);
  }

  method ReadRecords(f: OpenFile, d: Classic.Dialect, snaplen: nat, network: nat)
    returns (r: Result<Summary, Error>)
    modifies f
    ensures r == Classic.SummaryFrom(d, snaplen, network, Classic.Records(d.order, f.data, old(f.pos)))
  {
    hide Classic.SummaryFrom, Classic.Records, Tells;
    var count, first, last := 0, None, None;
    ghost var seen: seq<Classic.Record> := [];
    ghost var goal := Classic.SummaryFrom(d, snaplen, network, seen + Classic.Records(d.order, f.data, f.pos));
    assert seen + Classic.Records(d.order, f.data, f.pos) == Classic.Records(d.order, f.data, f.pos);
    TellsNothing(d, snaplen);
    while true
      invariant goal == Classic.SummaryFrom(d, snaplen, network, seen + Classic.Records(d.order, f.data, f.pos))
      invariant Tells(d, snaplen, seen, count, first, last)
      decreases |f.data| - f.pos
    {
      ghost var p := f.pos;
      var whole, h := ReadRecord(f, d.order);
      RecordsFrom(d.order, f.data, p, seen);
      if !whole {
        Finished(d, snaplen, network, seen, count, first, last);
        break;
      }
      if Classic.Absurd(snaplen, h.captured) {
        ghost var rest := Classic.Records(d.order, f.data, p + 16 + h.captured);
        Refused(d, snaplen, network, seen, h, rest, count, first, last);
        return Err(AbsurdLength(h.captured));
      }
      SeenOneMore(d, snaplen, seen, h, count, first, last);
      var stamp := h.Stamp(d);
      first, last, count := if first == None then Some(stamp) else first, Some(stamp), count + 1;
      f.Seek(f.pos + h.captured);
      seen := seen + [h];
    }
    r := Ok(Summary(count, first, last, Network(network), snaplen, Pcap));
  }

  lemma RecordsFrom(e: Endian, data: seq<Byte>, p: nat, seen: seq<Classic.Record>)
    ensures if p + 16 <= |data|
            then (var h := Classic.RecordAt(e, data, p);
                  seen + Classic.Records(e, data, p) == seen + [h] + Classic.Records(e, data, p + 16 + h.captured))
            else seen + Classic.Records(e, data, p) == seen
  {
  }

  lemma TellsNothing(d: Classic.Dialect, snaplen: nat)
    ensures Tells(d, snaplen, [], 0, None, None)
  {
  }

  lemma Finished(d: Classic.Dialect, snaplen: nat, network: nat, seen: seq<Classic.Record>, count: nat,
                 first: Option<real>, last: Option<real>)
    requires Tells(d, snaplen, seen, count, first, last)
    ensures Classic.SummaryFrom(d, snaplen, network, seen) ==
          Ok(Summary(count, first, last, Network(network), snaplen, Pcap))
  {
  }

  lemma Refused(d: Classic.Dialect, snaplen: nat, network: nat, seen: seq<Classic.Record>, h: Classic.Record,
                rest: seq<Classic.Record>, count: nat, first: Option<real>, last: Option<real>)
    requires Tells(d, snaplen, seen, count, first, last) && Classic.Absurd(snaplen, h.captured)
    ensures Classic.SummaryFrom(d, snaplen, network, seen + [h] + rest) == Err(AbsurdLength(h.captured))
  {
    AbsurdHere(snaplen, seen, h, rest);
    assert seen + [h] + rest == seen + ([h] + rest);
  }

  /** The tally after some plausible records. */
  ghost predicate Tells(d: Classic.Dialect, snaplen: nat, seen: seq<Classic.Record>, count: nat,
                        first: Option<real>, last: Option<real>) {
    && Classic.FirstAbsurd(snaplen, seen) == None && count == |seen|
    && first == First(Classic.Stamps(d, seen)) && last == Last(Classic.Stamps(d, seen))
  }

  method ReadRecord(f: OpenFile, e: Endian) returns (whole: bool, h: Classic.Record)
    modifies f
    ensures whole == (old(f.pos) + 16 <= |f.data|)
    ensures whole ==> h == Classic.RecordAt(e, f.data, old(f.pos)) && f.pos == old(f.pos) + 16
  {
    var p := f.pos;
    var record := f.Read(16);
    if |record| < 16 {
      return false, Classic.Record(p, 0, 0, 0, 0);
    }
    Pieces(f.data, p, record);
    h := Classic.Record(p, U32(e, record[0..4]), U32(e, record[4..8]), U32(e, record[8..12]), U32(e, record[12..16]));
    whole := true;
  }

  lemma Pieces(data: seq<Byte>, p: nat, record: seq<Byte>)
    requires record == ReadAt(data, p, 16) && |record| == 16
    ensures p + 16 <= |data|
    ensures record[0..4] == data[p..p + 4] && record[4..8] == data[p + 4..p + 8]
    ensures record[8..12] == data[p + 8..p + 12] && record[12..16] == data[p + 12..p + 16]
  {
    SubSlice(data, p, p + 16, 12, 16);
    SubSlice(data, p, p + 16, 0, 4);
    SubSlice(data, p, p + 16, 4, 8);
    SubSlice(data, p, p + 16, 8, 12);
  }

  lemma {:induction false} AbsurdHere(snaplen: nat, seen: seq<Classic.Record>, h: Classic.Record,
                                      rest: seq<Classic.Record>)
    requires Classic.FirstAbsurd(snaplen, seen) == None && Classic.Absurd(snaplen, h.captured)
    ensures Classic.FirstAbsurd(snaplen, seen + ([h] + rest)) == Some(h.captured)
  {
    if seen == [] {
      assert seen + ([h] + rest) == [h] + rest;
    } else {
      AbsurdHere(snaplen, seen[1..], h, rest);
      assert (seen + ([h] + rest))[1..] == seen[1..] + ([h] + rest);
    }
  }

  lemma SeenOneMore(d: Classic.Dialect, snaplen: nat, seen: seq<Classic.Record>, h: Classic.Record, count: nat,
                    first: Option<real>, last: Option<real>)
    requires Tells(d, snaplen, seen, count, first, last) && !Classic.Absurd(snaplen, h.captured)
    ensures Tells(d, snaplen, seen + [h], count + 1,
                  if first == None then Some(h.Stamp(d)) else first, Some(h.Stamp(d)))
  {
    Classic.FirstAbsurdNone(snaplen, seen);
    Classic.FirstAbsurdNone(snaplen, seen + [h]);
    assert forall i :: 0 <= i < |seen + [h]| ==> !Classic.Absurd(snaplen, (seen + [h])[i].captured);
  }

  /** The option loop of an interface block: `None` until an `if_tsresol` option is met. */
  method ReadOptions(body: seq<Byte>, e: Endian) returns (r: Result<nat, Error>)
    ensures r == Blocked.OptionWalk(e, body, 8, Blocked.MICROSECONDS)
  {
    var divisor, pos := Blocked.MICROSECONDS, 8;
    while pos + 4 <= |body|
      invariant divisor > 0
      invariant Blocked.OptionWalk(e, body, pos, divisor) == Blocked.OptionWalk(e, body, 8, Blocked.MICROSECONDS)
      decreases |body| - pos
    {
      var code, len := U16(e, body[pos..pos + 2]), U16(e, body[pos + 2..pos + 4]);
      if code == 0 {
        break;
      }
      if code == 9 && len >= 1 {
        if |body| <= pos + 4 {
          return Err(OptionOverrun);
        }
        divisor := Blocked.Resolution(body[pos + 4]);
      }
      pos := pos + 4 + Blocked.Padded(len);
    }
    r := Ok(divisor);
  }

  method ReadPcapng(f: OpenFile) returns (r: Result<Summary, Error>)
    modifies f
    ensures r == Blocked.Summarise(f.data)
  {
    f.Seek(0);
    var raw := f.Read(12);
    if |raw| < 12 {
      return Err(MissingSectionHeader);
    }
    assert raw == f.data[..12];
    assert raw[0..4] == f.data[0..4] && raw[4..8] == f.data[4..8] && raw[8..12] == f.data[8..12];
    if U32(Little, raw[0..4]) != Blocked.SECTION {
      return Err(NotASection);
    }
    var mark := U32(Little, raw[8..12]);
    var e, start;
    if mark == Blocked.ORDER_MAGIC {
      e, start := Little, U32(Little, raw[4..8]);
    } else if mark == 0x4D3C_2B1A {
      e, start := Big, U32(Big, raw[4..8]);
    } else {
      return Err(UnknownByteOrder);
    }
    f.Seek(start);
    assert Blocked.SectionStart(f.data) == Ok((e, start));
    r := ReadBlocks(f, e);
  }

  /** The walk over blocks as the loop makes it: one block, then the rest of the file. */
  function WalkFrom(e: Endian, data: seq<Byte>, p: nat, w: Blocked.Walk): Result<Blocked.Walk, Error>
    decreases |data| - p
  {
    match Blocked.Frame(e, data, p)
    case None => Ok(w)
    case Some(len) =>
      match Blocked.Step(e, w, Blocked.BlockAt(e, data, p, len))
      case Err(x) => Err(x)
      case Ok(w') => WalkFrom(e, data, p + len, w')
  }

  lemma {:induction false} WalkFromBlocks(e: Endian, data: seq<Byte>, p: nat, w: Blocked.Walk)
    ensures WalkFrom(e, data, p, w) == Blocked.WalkAll(e, w, Blocked.Blocks(e, data, p))
    decreases |data| - p
  {
    hide Blocked.Frame, Blocked.Step;
    match Blocked.Frame(e, data, p)
    case None =>
    case Some(len) =>
      var b, rest := Blocked.BlockAt(e, data, p, len), Blocked.Blocks(e, data, p + len);
      assert ([b] + rest)[1..] == rest;
      match Blocked.Step(e, w, b)
      case Err(_) =>
      case Ok(w') => WalkFromBlocks(e, data, p + len, w');
  }

  method ReadBlocks(f: OpenFile, e: Endian) returns (r: Result<Summary, Error>)
    modifies f
    ensures r == Blocked.SummaryFrom(e, Blocked.Blocks(e, f.data, old(f.pos)))
  {
    var divisors: seq<Blocked.Divisor>, links: seq<nat>, snaplen: nat := [], [], 0;
    var count, first, last := 0, None, None;
    ghost var w := Blocked.START;
    ghost var goal := WalkFrom(e, f.data, f.pos, w);
    WalkFromBlocks(e, f.data, f.pos, w);
    while true
      invariant divisors == w.divisors && links == w.links && snaplen == w.snaplen && count == w.packets
      invariant first == First(w.stamps) && last == Last(w.stamps)
      invariant goal == WalkFrom(e, f.data, f.pos, w)
      decreases |f.data| - f.pos
    {
      ghost var p := f.pos;
      var framed, kind, body := ReadBlock(f, e);
      if !framed {
        break;
      }
      ghost var b := Blocked.BlockAt(e, f.data, p, f.pos - p);
      if kind == Blocked.INTERFACE {
        if |body| >= 8 {
          var resolution := ReadOptions(body, e);
          if resolution.Err? {
            return Err(resolution.error);
          }
          var limit := U32(e, body[4..8]);
          divisors, links := divisors + [resolution.value], links + [U16(e, body[0..2])];
          snaplen := if limit > snaplen then limit else snaplen;
        }
      } else {
        var counted, stamp := ReadPacket(e, kind, body, divisors, w, b);
        if counted {
          count := count + 1;
        }
        if stamp.Some? {
          first, last := if first == None then stamp else first, stamp;
        }
      }
      w := Blocked.Step(e, w, b).value;
    }
    r := Ok(Summary(count, first, last, if links == [] then Link.Unknown else Network(links[0]), snaplen, Pcapng));
  }

  /** Whether a block other than an interface's counts as a packet, and the time it carries, if any. */
  method ReadPacket(e: Endian, kind: nat, body: seq<Byte>, divisors: seq<Blocked.Divisor>,
                    ghost w: Blocked.Walk, ghost b: Blocked.Block)
    returns (counted: bool, stamp: Option<real>)
    requires kind != Blocked.INTERFACE && divisors == w.divisors && b.kind == kind && b.body == body
    ensures Blocked.Step(e, w, b) ==
              Ok(w.(packets := if counted then w.packets + 1 else w.packets,
                    stamps := if stamp.Some? then w.stamps + [stamp.value] else w.stamps))
  {
    counted, stamp := kind == Blocked.SIMPLE_PACKET, None;
    if (kind == Blocked.ENHANCED_PACKET || kind == Blocked.OBSOLETE_PACKET) && |body| >= 20 {
      var divisor := if kind == Blocked.ENHANCED_PACKET
                     then Blocked.DivisorOf(divisors, U32(e, body[0..4])) else Blocked.MICROSECONDS;
      counted := true;
      stamp := Some(Blocked.Ticks(e, body[4..8], body[8..12]) as real / divisor as real);
    }
  }

  /** One block: its type and body, or `framed == false` where the walk must stop. */
  method ReadBlock(f: OpenFile, e: Endian) returns (framed: bool, kind: nat, body: seq<Byte>)
    modifies f
    ensures framed == Blocked.Frame(e, f.data, old(f.pos)).Some?
    ensures framed ==>
              var len := Blocked.Frame(e, f.data, old(f.pos)).value;
              && f.pos == old(f.pos) + len
              && Blocked.BlockAt(e, f.data, old(f.pos), len) == Blocked.Block(kind, body, f.pos)
  {
    ghost var p, data := f.pos, f.data;
    framed, kind, body := false, 0, [];
    var header := f.Read(8);
    if |header| < 8 {
      return;
    }
    SubSlice(data, p, p + 8, 0, 4);
    SubSlice(data, p, p + 8, 4, 8);
    kind := U32(e, header[0..4]);
    var len := U32(e, header[4..8]);
    if len < 12 || len % 4 != 0 {
      return;
    }
    body := f.Read(len - 12);
    var trailing := f.Read(4);
    if |body| < len - 12 || |trailing| < 4 {
      return;
    }
    assert body == data[p + 8..p + len - 4];
    framed := true;
  }

  const SECTION_MARK := 0x0A0D_0D0A

  method ReadCaptureSummary(data: seq<Byte>) returns (r: Result<Summary, Error>)
    ensures r == Summarise(data)
  {
    var f := new OpenFile(data);
    var head := f.Read(4);
    if |head| < 4 {
      return Err(TooShort);
    }
    assert head == data[..4];
    if U32(Big, head) == SECTION_MARK {
      r := ReadPcapng(f);
    } else {
      f.Seek(0);
      r := ReadPcap(f);
    }
  }

  function Summarise(data: seq<Byte>): Result<Summary, Error> {
    if |data| < 4 then Err(TooShort)
    else if U32(Big, data[..4]) == SECTION_MARK then Blocked.Summarise(data)
    else Classic.Summarise(data)
  }

  /** The leading four bytes never confuse the formats: each writer's output reaches its own reader. */
  lemma FormatRecognised(c: Classic.CaptureFile, s: Writer.Section)
    requires c.Writable() && s.Writable()
    ensures Summarise(Classic.Encode(c)) == Classic.Summarise(Classic.Encode(c))
    ensures Summarise(Writer.Encode(s)) == Blocked.Summarise(Writer.Encode(s))
  {
    var magic := if c.dialect.nano then Classic.MAGIC_NS else Classic.MAGIC_US;
    assert Classic.Encode(c)[..4] == Classic.EncodeHeader(c)[..4] == E32(c.dialect.order, magic);
    MagicIsNoSection(c.dialect);
    assert Writer.Encode(s)[..4] == Writer.EncodeSectionHeader(s)[..4] == E32(s.order, SECTION_MARK);
    Writer.SectionBytes(s.order);
    Writer.SectionBytes(Big);
    Unpack32(Big, SECTION_MARK);
  }

  lemma MagicIsNoSection(d: Classic.Dialect)
    ensures U32(Big, E32(d.order, if d.nano then Classic.MAGIC_NS else Classic.MAGIC_US)) != SECTION_MARK
  {
    if d.order == Big {
      Unpack32(Big, if d.nano then Classic.MAGIC_NS else Classic.MAGIC_US);
    } else if d.nano {
      assert E32(Little, 0xA1B2_3C4D) == E32(Big, 0x4D3C_B2A1) == [0x4D, 0x3C, 0xB2, 0xA1];
      Unpack32(Big, 0x4D3C_B2A1);
    } else {
      assert E32(Little, 0xA1B2_C3D4) == E32(Big, 0xD4C3_B2A1) == [0xD4, 0xC3, 0xB2, 0xA1];
      Unpack32(Big, 0xD4C3_B2A1);
    }
  }
}
