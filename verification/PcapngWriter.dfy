/**
 A writer for single-section PCAPNG captures in either byte order, and the proof that the header
 reader recovers from its output exactly what an abstract section says.
 */
module PcapngWriter {
  import opened Wrappers
  import opened Bytes
  import opened Capture
  import opened PcapngFormat

  /** A timestamp unit: a power of ten or of two to the second. */
  datatype Unit = Unit(binary: bool, exponent: nat)
  {
    predicate Writable() { exponent < 128 }

    function PerSecond(): (n: nat)
      ensures n > 0
    {
      if binary then Doubled(exponent) else Decimal(exponent)
    }

    /** The octet that names it: the top bit for base 2, the exponent in the other seven. */
    function Octet(): Byte
      requires Writable()
    {
      if binary then 128 + exponent else exponent
    }
  }

  function Doubled(n: nat): (r: nat)
    ensures r > 0
  {
    if n == 0 then 1 else Doubled(n - 1) + Doubled(n - 1)
  }

  function Decimal(n: nat): (r: nat)
    ensures r > 0
  {
    if n == 0 then 1 else 10 * Decimal(n - 1)
  }

  lemma {:induction false} Doublings(n: nat)
    ensures Doubled(n) == Power(2, n)
  {
    if n > 0 {
      Doublings(n - 1);
    }
  }

  lemma {:induction false} Decimals(n: nat)
    ensures Decimal(n) == Power(10, n)
  {
    if n > 0 {
      Decimals(n - 1);
    }
  }

  /** The reader's reading of the octet is the unit. */
  lemma UnitReadsBack(u: Unit)
    requires u.Writable()
    ensures Resolution(u.Octet()) == u.PerSecond()
  {
    Doublings(u.exponent);
    Decimals(u.exponent);
  }

  /** An interface option: one that sets the timestamp unit, perhaps with bytes to spare, or any other. */
  datatype Field = Timestamps(unit: Unit, spare: seq<Byte>) | Plain(code: nat, value: seq<Byte>)
  {
    predicate Writable() {
      match this
      case Timestamps(unit, spare) => unit.Writable() && 1 + |spare| < U16_LIMIT
      case Plain(code, value) => 0 < code < U16_LIMIT && |value| < U16_LIMIT && (code == 9 ==> value == [])
    }

    function Code(): nat { if Timestamps? then 9 else code }

    function Value(): seq<Byte>
      requires Writable()
    {
      if Timestamps? then [unit.Octet()] + spare else value
    }

    /** The divisor in force after this option, given the one before it. */
    function Chosen(d: Divisor): Divisor { if Timestamps? then unit.PerSecond() else d }
  }

  predicate AllWritable(fs: seq<Field>) {
    fs == [] || (fs[0].Writable() && AllWritable(fs[1..]))
  }

  /** `rest` stands for what the reader never looks at: captured bytes, padding, trailing options. */
  datatype Item =
    | Interface(link: nat, snaplen: nat, fields: seq<Field>, trailer: Option<seq<Byte>>)
    | Enhanced(iface: nat, ticks: nat, captured: nat, original: nat, rest: seq<Byte>)
    | Obsolete(iface: nat, drops: nat, ticks: nat, captured: nat, original: nat, rest: seq<Byte>)
    | Simple(rest: seq<Byte>)
    | Other(code: nat, rest: seq<Byte>)
  {
    function Kind(): nat {
      match this
      case Interface(_, _, _, _) => 1
      case Enhanced(_, _, _, _, _) => 6
      case Obsolete(_, _, _, _, _, _) => 2
      case Simple(_) => 3
      case Other(code, _) => code
    }

    predicate Writable() {
      match this
      case Interface(link, snaplen, fields, trailer) =>
        && link < U16_LIMIT && snaplen < U32_LIMIT && AllWritable(fields)
        && (trailer.Some? ==> |trailer.value| % 4 == 0)
      case Enhanced(iface, ticks, captured, original, rest) =>
        && iface < U32_LIMIT && ticks < U64_LIMIT && captured < U32_LIMIT && original < U32_LIMIT
        && |rest| % 4 == 0
      case Obsolete(iface, drops, ticks, captured, original, rest) =>
        && iface < U16_LIMIT && drops < U16_LIMIT && ticks < U64_LIMIT
        && captured < U32_LIMIT && original < U32_LIMIT && |rest| % 4 == 0
      case Simple(rest) => |rest| % 4 == 0
      case Other(code, rest) =>
        && code < U32_LIMIT && |rest| % 4 == 0
        && code !in {1, 2, 3, 6}
    }
  }

  function Zeros(n: nat): (z: seq<Byte>)
    ensures |z| == n
  {
    seq(n, _ => 0)
  }

  function EncodeField(e: Endian, f: Field): (b: seq<Byte>)
    requires f.Writable()
    ensures |b| == 4 + Padded(|f.Value()|)
  {
    E16(e, f.Code()) + E16(e, |f.Value()|) + f.Value() + Zeros(Padded(|f.Value()|) - |f.Value()|)
  }

  function EncodeFields(e: Endian, fs: seq<Field>): (b: seq<Byte>)
    requires AllWritable(fs)
    ensures |b| % 4 == 0
  {
    if fs == [] then [] else EncodeField(e, fs[0]) + EncodeFields(e, fs[1..])
  }

  /** The end of the options, if it is marked, and whatever comes after the mark. */
  function Closing(trailer: Option<seq<Byte>>): (b: seq<Byte>)
    requires trailer.Some? ==> |trailer.value| % 4 == 0
    ensures |b| % 4 == 0
  {
    match trailer
    case None => []
    case Some(rest) => [0, 0, 0, 0] + rest
  }

  function EncodeBody(e: Endian, x: Item): (b: seq<Byte>)
    requires x.Writable()
    ensures |b| % 4 == 0
  {
    match x
    case Interface(link, snaplen, fields, trailer) =>
      (E16(e, link) + E16(e, 0) + E32(e, snaplen)) + (EncodeFields(e, fields) + Closing(trailer))
    case Enhanced(iface, ticks, captured, original, rest) =>
      E32(e, iface) + E32(e, ticks / 0x1_0000_0000) + E32(e, ticks % 0x1_0000_0000) + E32(e, captured) +
            E32(e, original) + rest
    case Obsolete(iface, drops, ticks, captured, original, rest) =>
      E16(e, iface) + E16(e, drops) + E32(e, ticks / 0x1_0000_0000) + E32(e, ticks % 0x1_0000_0000)
      + E32(e, captured) + E32(e, original) + rest
    case Simple(rest) => rest
    case Other(_, rest) => rest
  }

  /** A block to be framed: its type and its body. */
  datatype Raw = Raw(kind: nat, body: seq<Byte>)
  {
    predicate Writable() {
      kind < U32_LIMIT && 12 + |body| < U32_LIMIT && |body| % 4 == 0
    }
  }

  function EncodeBlock(e: Endian, r: Raw): (b: seq<Byte>)
    ensures |b| == 12 + |r.body|
  {
    E32(e, r.kind) + E32(e, 12 + |r.body|) + r.body + E32(e, 12 + |r.body|)
  }

  function EncodeBlocks(e: Endian, rs: seq<Raw>): seq<Byte> {
    if rs == [] then [] else EncodeBlock(e, rs[0]) + EncodeBlocks(e, rs[1..])
  }

  predicate Fits(e: Endian, x: Item) {
    x.Writable() && 12 + |EncodeBody(e, x)| < U32_LIMIT
  }

  predicate AllFit(e: Endian, xs: seq<Item>) {
    xs == [] || (Fits(e, xs[0]) && AllFit(e, xs[1..]))
  }

  function Raws(e: Endian, xs: seq<Item>): seq<Raw>
    requires AllFit(e, xs)
  {
    if xs == [] then [] else [Raw(xs[0].Kind(), EncodeBody(e, xs[0]))] + Raws(e, xs[1..])
  }

  /** `preamble` holds the section's version, length and options. */
  datatype Section = Section(order: Endian, preamble: seq<Byte>, items: seq<Item>)
  {
    predicate Writable() {
      && 16 + |preamble| < U32_LIMIT
      && AllFit(order, items)
    }
  }

  function EncodeSectionHeader(c: Section): (b: seq<Byte>)
    ensures |b| == 16 + |c.preamble|
  {
    var len := 16 + |c.preamble|;
    E32(c.order, 0x0A0D_0D0A) + E32(c.order, len) + E32(c.order, 0x1A2B_3C4D) + (c.preamble + E32(c.order, len))
  }

  function Encode(c: Section): seq<Byte>
    requires c.Writable()
  {
    EncodeSectionHeader(c) + EncodeBlocks(c.order, Raws(c.order, c.items))
  }

  // ---- what a section says, independently of its encoding ----

  /** The last field that sets the unit does; otherwise it is microseconds. */
  function TicksPerSecond(fs: seq<Field>): Divisor {
    if fs == [] then 1_000_000
    else
      var f := fs[|fs| - 1];
      if f.Timestamps? then f.unit.PerSecond() else TicksPerSecond(fs[..|fs| - 1])
  }

  function Divisors(xs: seq<Item>): seq<Divisor> {
    if xs == [] then []
    else
      var x := xs[|xs| - 1];
      Divisors(xs[..|xs| - 1]) + (if x.Interface? then [TicksPerSecond(x.fields)] else [])
  }

  function Links(xs: seq<Item>): seq<nat> {
    if xs == [] then []
    else
      var x := xs[|xs| - 1];
      Links(xs[..|xs| - 1]) + (if x.Interface? then [x.link] else [])
  }

  function LargestSnaplen(xs: seq<Item>): nat {
    if xs == [] then 0
    else
      var rest, x := LargestSnaplen(xs[..|xs| - 1]), xs[|xs| - 1];
      if x.Interface? && x.snaplen > rest then x.snaplen else rest
  }

  function Packets(xs: seq<Item>): nat {
    if xs == [] then 0
    else
      var x := xs[|xs| - 1];
      Packets(xs[..|xs| - 1]) + (if x.Enhanced? || x.Obsolete? || x.Simple? then 1 else 0)
  }

  /** Ticks per second of an interface, microseconds for one never described. */
  function UnitOf(divisors: seq<Divisor>, iface: nat): Divisor {
    if iface < |divisors| then divisors[iface] else 1_000_000
  }

  /** The time of every timed packet: its ticks over the divisor of the interface described before it. */
  function Times(xs: seq<Item>): seq<real> {
    if xs == [] then []
    else
      var before, x := xs[..|xs| - 1], xs[|xs| - 1];
      Times(before) +
      (if x.Enhanced? then [x.ticks as real / UnitOf(Divisors(before), x.iface) as real]
       else if x.Obsolete? then [x.ticks as real / 1_000_000.0]
       else [])
  }

  function Content(c: Section): Summary {
    var links, times := Links(c.items), Times(c.items);
    Summary(Packets(c.items), if times == [] then None else Some(times[0]),
            if times == [] then None else Some(times[|times| - 1]),
            if links == [] then Link.Unknown else Network(links[0]), LargestSnaplen(c.items), Pcapng)
  }

  function WalkOf(xs: seq<Item>): Walk {
    Walk(Divisors(xs), Links(xs), LargestSnaplen(xs), Packets(xs), Times(xs))
  }

  // ---- framing reads back ----

  predicate Framed(bs: seq<Block>, rs: seq<Raw>) {
    |bs| == |rs| && forall i :: 0 <= i < |rs| ==> bs[i].kind == rs[i].kind && bs[i].body == rs[i].body
  }

  lemma ReadBackBlock(e: Endian, r: Raw, data: seq<Byte>, p: nat)
    requires r.Writable()
    requires p + 12 + |r.body| <= |data| && data[p..p + 12 + |r.body|] == EncodeBlock(e, r)
    ensures Frame(e, data, p) == Some(12 + |r.body|)
    ensures BlockAt(e, data, p, 12 + |r.body|) == Block(r.kind, r.body, p + 12 + |r.body|)
  {
    hide EncodeBlock, E32, U32;
    BlockBytes(e, r, data, p);
    Unpack32(e, r.kind);
    Unpack32(e, 12 + |r.body|);
  }

  lemma BlockBytes(e: Endian, r: Raw, data: seq<Byte>, p: nat)
    requires p + 12 + |r.body| <= |data| && data[p..p + 12 + |r.body|] == EncodeBlock(e, r)
    ensures var n := 12 + |r.body|;
            data[p..p + 4] == E32(e, r.kind) && data[p + 4..p + 8] == E32(e, n) && data[p + 8..p + n - 4] == r.body
  {
    hide E32;
    var n := 12 + |r.body|;
    SubSlice(data, p, p + n, 0, 4);
    SubSlice(data, p, p + n, 4, 8);
    SubSlice(data, p, p + n, 8, n - 4);
    Parts(E32(e, r.kind), E32(e, n), r.body, E32(e, n));
  }

  lemma Parts(kind: seq<Byte>, length: seq<Byte>, body: seq<Byte>, trailer: seq<Byte>)
    requires |kind| == 4 && |length| == 4 && |trailer| == 4
    ensures var b := kind + length + body + trailer;
            b[0..4] == kind && b[4..8] == length && b[8..|b| - 4] == body
  {
  }

  /** Framing any list of blocks and walking the bytes gives the blocks back. */
  lemma {:induction false} ReadBackBlocks(e: Endian, rs: seq<Raw>, data: seq<Byte>, p: nat)
    requires forall i :: 0 <= i < |rs| ==> rs[i].Writable()
    requires p <= |data| && data[p..] == EncodeBlocks(e, rs)
    ensures Framed(Blocks(e, data, p), rs)
    decreases |rs|
  {
    hide EncodeBlock, Blocks, Frame, BlockAt, Framed;
    if rs == [] {
      NoBlock(e, rs, data, p);
    } else {
      var next := p + 12 + |rs[0].body|;
      SplitSlice(data, p, EncodeBlock(e, rs[0]), EncodeBlocks(e, rs[1..]));
      ReadBackBlock(e, rs[0], data, p);
      ReadBackBlocks(e, rs[1..], data, next);
      NextBlock(e, data, p, 12 + |rs[0].body|);
      FramedCons(Block(rs[0].kind, rs[0].body, next), Blocks(e, data, next), rs);
    }
  }

  lemma NoBlock(e: Endian, rs: seq<Raw>, data: seq<Byte>, p: nat)
    requires rs == [] && p == |data|
    ensures Framed(Blocks(e, data, p), rs)
  {
    assert Frame(e, data, p) == None;
  }

  lemma NextBlock(e: Endian, data: seq<Byte>, p: nat, len: nat)
    requires Frame(e, data, p) == Some(len)
    ensures Blocks(e, data, p) == [BlockAt(e, data, p, len)] + Blocks(e, data, p + len)
  {
  }

  lemma FramedCons(b: Block, bs: seq<Block>, rs: seq<Raw>)
    requires rs != [] && b.kind == rs[0].kind && b.body == rs[0].body && Framed(bs, rs[1..])
    ensures Framed([b] + bs, rs)
  {
    forall i | 1 <= i < |rs| ensures ([b] + bs)[i].kind == rs[i].kind && ([b] + bs)[i].body == rs[i].body {
      assert rs[i] == rs[1..][i - 1];
    }
  }

  lemma {:induction false} RawsWritable(e: Endian, xs: seq<Item>)
    requires AllFit(e, xs)
    ensures forall i :: 0 <= i < |Raws(e, xs)| ==> Raws(e, xs)[i].Writable()
  {
    if xs != [] {
      RawsWritable(e, xs[1..]);
      var r, rest := Raw(xs[0].Kind(), EncodeBody(e, xs[0])), Raws(e, xs[1..]);
      assert r.Writable();
      assert forall i :: 1 <= i < |[r] + rest| ==> ([r] + rest)[i] == rest[i - 1];
    }
  }

  // ---- options read back ----

  lemma {:induction false} ReadBackFields(e: Endian, fs: seq<Field>, trailer: Option<seq<Byte>>, body: seq<Byte>,
        p: nat, d: Divisor)
    requires AllWritable(fs) && (trailer.Some? ==> |trailer.value| % 4 == 0)
    requires p <= |body| && body[p..] == EncodeFields(e, fs) + Closing(trailer)
    ensures OptionWalk(e, body, p, d) == Ok(LastResolution(fs, d))
    decreases |fs|
  {
    hide OptionWalk, Closing;
    if fs == [] {
      assert EncodeFields(e, fs) + Closing(trailer) == Closing(trailer);
      OptionsEnd(e, trailer, body, p, d);
    } else {
      var f := fs[0];
      CutField(e, fs, Closing(trailer), body, p);
      StepField(e, f, body, p, d);
      var next, d' := p + 4 + Padded(|f.Value()|), f.Chosen(d);
      ReadBackFields(e, fs[1..], trailer, body, next, d');
      Chain(OptionWalk(e, body, p, d), OptionWalk(e, body, next, d'), fs, d);
    }
  }

  lemma Chain(r: Result<nat, Error>, r': Result<nat, Error>, fs: seq<Field>, d: Divisor)
    requires fs != [] && r == r' && r' == Ok(LastResolution(fs[1..], fs[0].Chosen(d)))
    ensures r == Ok(LastResolution(fs, d))
  {
  }

  lemma CutField(e: Endian, fs: seq<Field>, tail: seq<Byte>, body: seq<Byte>, p: nat)
    requires AllWritable(fs) && fs != [] && p <= |body| && body[p..] == EncodeFields(e, fs) + tail
    ensures var n := 4 + Padded(|fs[0].Value()|);
            && p + n <= |body| && body[p..p + n] == EncodeField(e, fs[0])
            && body[p + n..] == EncodeFields(e, fs[1..]) + tail
  {
    var head, rest := EncodeField(e, fs[0]), EncodeFields(e, fs[1..]);
    assert EncodeFields(e, fs) == head + rest;
    hide *;
    Regroup(head, rest, tail);
    SplitSlice(body, p, head, rest + tail);
  }

  lemma Regroup(a: seq<Byte>, b: seq<Byte>, c: seq<Byte>)
    ensures a + b + c == a + (b + c)
  {
  }

  lemma OptionsEnd(e: Endian, trailer: Option<seq<Byte>>, body: seq<Byte>, p: nat, d: Divisor)
    requires trailer.Some? ==> |trailer.value| % 4 == 0
    requires p <= |body| && body[p..] == Closing(trailer)
    ensures OptionWalk(e, body, p, d) == Ok(d)
  {
    if trailer.Some? {
      var zeros: seq<Byte> := [0, 0];
      assert Closing(trailer) == zeros + (zeros + trailer.value);
      SplitSlice(body, p, zeros, zeros + trailer.value);
      assert zeros == E16(e, 0);
      Unpack16(e, 0);
    }
  }

  lemma UnitAtTheEnd(e: Endian, length: nat, body: seq<Byte>, p: nat, d: Divisor)
    requires 1 <= length < U16_LIMIT && p <= |body| && body[p..] == E16(e, 9) + E16(e, length)
    ensures OptionWalk(e, body, p, d) == Err(OptionOverrun)
  {
    hide E16, U16;
    SplitSlice(body, p, E16(e, 9), E16(e, length));
    assert body[p + 2..p + 4] == body[p + 2..];
    Unpack16(e, 9);
    Unpack16(e, length);
  }

  /** A value that is there counts even if the padding after it is not. */
  lemma UnitUnpadded(e: Endian, u: Unit, length: nat, spare: seq<Byte>, body: seq<Byte>, p: nat, d: Divisor)
    requires u.Writable() && 1 <= length < U16_LIMIT && |spare| < 3
    requires p <= |body| && body[p..] == (E16(e, 9) + E16(e, length)) + ([u.Octet()] + spare)
    ensures OptionWalk(e, body, p, d) == Ok(u.PerSecond())
  {
    UnitReadsBack(u);
    hide E16, U16, Resolution;
    var head := E16(e, 9) + E16(e, length);
    SplitSlice(body, p, head, [u.Octet()] + spare);
    assert body[p..p + 4][..2] == E16(e, 9) && body[p..p + 4][2..] == E16(e, length);
    assert body[p..p + 2] == body[p..p + 4][..2] && body[p + 2..p + 4] == body[p..p + 4][2..];
    assert body[p + 4] == body[p + 4..][0];
    Unpack16(e, 9);
    Unpack16(e, length);
  }

  /** An option that sets the unit, whatever came before it, fails the read when its value lies past the block's end. */
  lemma {:induction false} UnitPastTheEnd(e: Endian, fs: seq<Field>, length: nat, body: seq<Byte>, p: nat, d: Divisor)
    requires AllWritable(fs) && 1 <= length < U16_LIMIT
    requires p <= |body| && body[p..] == EncodeFields(e, fs) + (E16(e, 9) + E16(e, length))
    ensures OptionWalk(e, body, p, d) == Err(OptionOverrun)
    decreases |fs|
  {
    hide OptionWalk, E16;
    var tail := E16(e, 9) + E16(e, length);
    if fs == [] {
      assert EncodeFields(e, fs) + tail == tail;
      UnitAtTheEnd(e, length, body, p, d);
    } else {
      CutField(e, fs, tail, body, p);
      StepField(e, fs[0], body, p, d);
      UnitPastTheEnd(e, fs[1..], length, body, p + 4 + Padded(|fs[0].Value()|), fs[0].Chosen(d));
    }
  }

  lemma StepField(e: Endian, f: Field, body: seq<Byte>, p: nat, d: Divisor)
    requires f.Writable()
    requires p + 4 + Padded(|f.Value()|) <= |body|
    requires body[p..p + 4 + Padded(|f.Value()|)] == EncodeField(e, f)
    ensures OptionWalk(e, body, p, d) ==
              OptionWalk(e, body, p + 4 + Padded(|f.Value()|), f.Chosen(d))
  {
    ReadBackField(e, f, body, p);
    if f.Timestamps? {
      UnitReadsBack(f.unit);
    }
  }

  lemma ReadBackField(e: Endian, f: Field, body: seq<Byte>, p: nat)
    requires f.Writable()
    requires p + 4 + Padded(|f.Value()|) <= |body|
    requires body[p..p + 4 + Padded(|f.Value()|)] == EncodeField(e, f)
    ensures U16(e, body[p..p + 2]) == f.Code() && U16(e, body[p + 2..p + 4]) == |f.Value()|
    ensures f.Value() != [] ==> body[p + 4] == f.Value()[0]
  {
    var b, n := EncodeField(e, f), 4 + Padded(|f.Value()|);
    SubSlice(body, p, p + n, 0, 2);
    SubSlice(body, p, p + n, 2, 4);
    assert b[0..2] == E16(e, f.Code()) && b[2..4] == E16(e, |f.Value()|);
    if f.Value() != [] {
      assert body[p..p + n][4] == body[p + 4] && b[4] == f.Value()[0];
    }
    Unpack16(e, f.Code());
    Unpack16(e, |f.Value()|);
  }

  function LastResolution(fs: seq<Field>, d: Divisor): Divisor {
    if fs == [] then d
    else LastResolution(fs[1..], fs[0].Chosen(d))
  }

  lemma {:induction false} LastWins(fs: seq<Field>, d: Divisor)
    ensures LastResolution(fs, d) ==
              if exists i :: 0 <= i < |fs| && fs[i].Timestamps? then TicksPerSecond(fs) else d
    decreases |fs|
  {
    if fs != [] {
      var f, rest := fs[0], fs[1..];
      LastWins(rest, f.Chosen(d));
      TicksPerSecondCons(fs);
      if exists i :: 0 <= i < |rest| && rest[i].Timestamps? {
        var i :| 0 <= i < |rest| && rest[i].Timestamps?;
        assert fs[i + 1].Timestamps?;
      } else {
        assert forall i :: 1 <= i < |fs| ==> fs[i] == rest[i - 1];
      }
    }
  }

  lemma {:induction false} TicksPerSecondCons(fs: seq<Field>)
    requires fs != []
    ensures TicksPerSecond(fs) ==
              if exists i :: 0 <= i < |fs[1..]| && fs[1..][i].Timestamps? then TicksPerSecond(fs[1..])
              else if fs[0].Timestamps? then fs[0].unit.PerSecond()
              else MICROSECONDS
    decreases |fs|
  {
    var rest := fs[1..];
    if rest == [] {
      assert fs[..|fs| - 1] == [];
    } else {
      var init := fs[..|fs| - 1];
      TicksPerSecondCons(init);
      assert init[1..] == rest[..|rest| - 1] && rest[|rest| - 1] == fs[|fs| - 1];
      if fs[|fs| - 1].Timestamps? {
        assert rest[|rest| - 1].Timestamps?;
      } else {
        assert forall i :: 0 <= i < |init[1..]| ==> init[1..][i] == rest[i];
      }
    }
  }

  // ---- each block reads back ----

  lemma StepInterface(e: Endian, xs: seq<Item>, x: Item, b: Block)
    requires x.Interface? && x.Writable() && b.kind == x.Kind() && b.body == EncodeBody(e, x)
    ensures Step(e, WalkOf(xs), b) == Ok(WalkOf(xs + [x]))
  {
    var head, tail := E16(e, x.link) + E16(e, 0) + E32(e, x.snaplen), EncodeFields(e, x.fields) + Closing(x.trailer);
    assert b.body == head + tail && |head| == 8;
    assert b.body[0..2] == E16(e, x.link) && b.body[4..8] == E32(e, x.snaplen) && b.body[8..] == tail;
    Unpack16(e, x.link);
    Unpack32(e, x.snaplen);
    ReadBackFields(e, x.fields, x.trailer, b.body, 8, MICROSECONDS);
    LastWins(x.fields, MICROSECONDS);
    DefaultResolution(x.fields);
    InterfaceAdded(xs, x);
  }

  lemma InterfaceAdded(xs: seq<Item>, x: Item)
    requires x.Interface?
    ensures (xs + [x])[..|xs|] == xs && Times(xs + [x]) == Times(xs) && Packets(xs + [x]) == Packets(xs)
    ensures Divisors(xs + [x]) == Divisors(xs) + [TicksPerSecond(x.fields)]
    ensures Links(xs + [x]) == Links(xs) + [x.link]
  {
    assert (xs + [x])[..|xs|] == xs;
  }

  lemma {:induction false} DefaultResolution(fs: seq<Field>)
    ensures (forall i :: 0 <= i < |fs| ==> !fs[i].Timestamps?) ==> TicksPerSecond(fs) == MICROSECONDS
  {
    if fs != [] {
      DefaultResolution(fs[..|fs| - 1]);
    }
  }

  lemma ReadBackTicks(e: Endian, body: seq<Byte>, ticks: nat)
    requires ticks < U64_LIMIT && |body| >= 12
    requires body[4..8] == E32(e, ticks / 0x1_0000_0000) && body[8..12] == E32(e, ticks % 0x1_0000_0000)
    ensures Ticks(e, body[4..8], body[8..12]) == ticks
  {
    Unpack32(e, ticks / 0x1_0000_0000);
    Unpack32(e, ticks % 0x1_0000_0000);
  }

  lemma StepEnhanced(e: Endian, xs: seq<Item>, x: Item, b: Block)
    requires x.Enhanced? && x.Writable() && b.kind == x.Kind() && b.body == EncodeBody(e, x)
    ensures Step(e, WalkOf(xs), b) == Ok(WalkOf(xs + [x]))
  {
    assert b.body[0..4] == E32(e, x.iface);
    assert b.body[4..8] == E32(e, x.ticks / 0x1_0000_0000);
    assert b.body[8..12] == E32(e, x.ticks % 0x1_0000_0000);
    Unpack32(e, x.iface);
    ReadBackTicks(e, b.body, x.ticks);
    NoInterface(xs, x);
  }

  lemma StepObsolete(e: Endian, xs: seq<Item>, x: Item, b: Block)
    requires x.Obsolete? && x.Writable() && b.kind == x.Kind() && b.body == EncodeBody(e, x)
    ensures Step(e, WalkOf(xs), b) == Ok(WalkOf(xs + [x]))
  {
    assert b.body[4..8] == E32(e, x.ticks / 0x1_0000_0000);
    assert b.body[8..12] == E32(e, x.ticks % 0x1_0000_0000);
    ReadBackTicks(e, b.body, x.ticks);
    NoInterface(xs, x);
  }

  lemma StepUntimed(e: Endian, xs: seq<Item>, x: Item, b: Block)
    requires (x.Simple? || x.Other?) && x.Writable() && b.kind == x.Kind()
    ensures Step(e, WalkOf(xs), b) == Ok(WalkOf(xs + [x]))
  {
    NoInterface(xs, x);
  }

  lemma NoInterface(xs: seq<Item>, x: Item)
    requires !x.Interface?
    ensures (xs + [x])[..|xs|] == xs
    ensures Divisors(xs + [x]) == Divisors(xs) && Links(xs + [x]) == Links(xs)
    ensures LargestSnaplen(xs + [x]) == LargestSnaplen(xs)
    ensures !x.Enhanced? && !x.Obsolete? ==> Times(xs + [x]) == Times(xs)
  {
    assert (xs + [x])[..|xs|] == xs;
  }

  lemma StepItem(e: Endian, xs: seq<Item>, x: Item, b: Block)
    requires x.Writable() && b.kind == x.Kind() && b.body == EncodeBody(e, x)
    ensures Step(e, WalkOf(xs), b) == Ok(WalkOf(xs + [x]))
  {
    match x
    case Interface(_, _, _, _) => StepInterface(e, xs, x, b);
    case Enhanced(_, _, _, _, _) => StepEnhanced(e, xs, x, b);
    case Obsolete(_, _, _, _, _, _) => StepObsolete(e, xs, x, b);
    case Simple(_) => StepUntimed(e, xs, x, b);
    case Other(_, _) => StepUntimed(e, xs, x, b);
  }

  lemma {:induction false} WalkItems(e: Endian, done: seq<Item>, xs: seq<Item>, bs: seq<Block>)
    requires AllFit(e, xs)
    requires Framed(bs, Raws(e, xs))
    ensures WalkAll(e, WalkOf(done), bs) == Ok(WalkOf(done + xs))
    decreases |xs|
  {
    if xs == [] {
      assert done + xs == done;
    } else {
      StepItem(e, done, xs[0], bs[0]);
      assert Raws(e, xs)[1..] == Raws(e, xs[1..]);
      FramedTail(bs, Raws(e, xs));
      WalkItems(e, done + [xs[0]], xs[1..], bs[1..]);
      assert done + [xs[0]] + xs[1..] == done + xs;
    }
  }

  lemma FramedTail(bs: seq<Block>, rs: seq<Raw>)
    requires rs != [] && Framed(bs, rs)
    ensures Framed(bs[1..], rs[1..])
  {
    assert forall i :: 0 <= i < |rs[1..]| ==> bs[1..][i] == bs[i + 1] && rs[1..][i] == rs[i + 1];
  }

  // ---- the section header reads back ----

  lemma ReadBackSectionHeader(c: Section, data: seq<Byte>)
    requires 16 + |c.preamble| < U32_LIMIT
    requires |EncodeSectionHeader(c)| <= |data| && data[..|EncodeSectionHeader(c)|] == EncodeSectionHeader(c)
    ensures SectionStart(data) == Ok((c.order, 16 + |c.preamble|))
  {
    var h, len, e := EncodeSectionHeader(c), 16 + |c.preamble|, c.order;
    assert data[0..|h|] == h;
    SubSlice(data, 0, |h|, 0, 4);
    SubSlice(data, 0, |h|, 4, 8);
    SubSlice(data, 0, |h|, 8, 12);
    assert h[0..4] == E32(e, SECTION) && h[4..8] == E32(e, len) && h[8..12] == E32(e, ORDER_MAGIC);
    Unpack32(e, len);
    MarksReadLittle(e);
  }

  // The section type reads the same in both byte orders; the byte-order magic does not.
  lemma MarksReadLittle(e: Endian)
    ensures U32(Little, E32(e, SECTION)) == SECTION
    ensures U32(Little, E32(e, ORDER_MAGIC)) == if e.Little? then ORDER_MAGIC else 0x4D3C_2B1A
  {
    SectionBytes(e);
    OrderMagicBytes(e);
    Unpack32(Little, SECTION);
    Unpack32(Little, ORDER_MAGIC);
    Unpack32(Little, 0x4D3C_2B1A);
  }

  lemma SectionBytes(e: Endian)
    ensures E32(e, SECTION) == E32(Little, SECTION)
  {
    if e.Big? {
      BigSection();
      LittleSection();
    }
  }

  lemma LittleSection()
    ensures E32(Little, 0x0A0D_0D0A) == [0x0A, 0x0D, 0x0D, 0x0A]
  {
  }

  lemma BigSection()
    ensures E32(Big, 0x0A0D_0D0A) == [0x0A, 0x0D, 0x0D, 0x0A]
  {
  }

  lemma OrderMagicBytes(e: Endian)
    ensures E32(e, ORDER_MAGIC) == E32(Little, if e.Little? then ORDER_MAGIC else 0x4D3C_2B1A)
  {
    if e.Big? {
      BigOrderMagic();
    }
  }

  lemma BigOrderMagic()
    ensures E32(Big, 0x1A2B_3C4D) == E32(Little, 0x4D3C_2B1A)
  {
    assert E32(Big, 0x1A2B_3C4D) == [0x1A, 0x2B, 0x3C, 0x4D];
    LittleOrderMagic();
  }

  lemma LittleOrderMagic()
    ensures E32(Little, 0x4D3C_2B1A) == [0x1A, 0x2B, 0x3C, 0x4D]
  {
  }

  lemma ReadBackLayout(c: Section)
    requires c.Writable()
    ensures SectionStart(Encode(c)) == Ok((c.order, 16 + |c.preamble|))
    ensures Framed(Blocks(c.order, Encode(c), 16 + |c.preamble|), Raws(c.order, c.items))
  {
    var data, h, rs := Encode(c), EncodeSectionHeader(c), Raws(c.order, c.items);
    assert data[..|h|] == h && data[|h|..] == EncodeBlocks(c.order, rs);
    assert |h| == 16 + |c.preamble|;
    hide SectionStart, Blocks, Framed, EncodeBlocks;
    ReadBackSectionHeader(c, data);
    RawsWritable(c.order, c.items);
    ReadBackBlocks(c.order, rs, data, |h|);
  }

  /** Reading back any section gives exactly its packet count, first and last times, first link type and snap length. */
  lemma RoundTrip(c: Section)
    requires c.Writable()
    ensures Summarise(Encode(c)) == Ok(Content(c))
  {
    hide Encode, Blocks, SectionStart, Framed;
    ReadBackLayout(c);
    WalkItems(c.order, [], c.items, Blocks(c.order, Encode(c), 16 + |c.preamble|));
    assert [] + c.items == c.items;
    assert WalkOf([]) == START;
  }

  /** So both byte orders of the same section read the same. */
  lemma ByteOrderIrrelevant(c: Section, e: Endian)
    requires c.Writable() && c.(order := e).Writable()
    ensures Summarise(Encode(c.(order := e))) == Summarise(Encode(c))
  {
    RoundTrip(c);
    RoundTrip(c.(order := e));
  }

  /** Writing blocks of unknown types between the others, anywhere, does not change what is read. */
  lemma UnknownItemsSkipped(c: Section, c': Section)
    requires c.Writable() && c'.Writable()
    requires KnownItems(c.items) == KnownItems(c'.items)
    ensures Summarise(Encode(c)) == Summarise(Encode(c'))
  {
    RoundTrip(c);
    RoundTrip(c');
    ContentOfKnown(c.items);
    ContentOfKnown(c'.items);
  }

  function KnownItems(xs: seq<Item>): seq<Item> {
    if xs == [] then []
    else KnownItems(xs[..|xs| - 1]) + (if xs[|xs| - 1].Other? then [] else [xs[|xs| - 1]])
  }

  lemma SameNext(a: seq<Item>, b: seq<Item>, x: Item)
    requires WalkOf(a) == WalkOf(b)
    ensures WalkOf(a + [x]) == WalkOf(b + [x])
  {
    assert (a + [x])[..|a|] == a && (b + [x])[..|b|] == b;
  }

  lemma {:induction false} ContentOfKnown(xs: seq<Item>)
    ensures WalkOf(xs) == WalkOf(KnownItems(xs))
  {
    if xs != [] {
      var init, x := xs[..|xs| - 1], xs[|xs| - 1];
      ContentOfKnown(init);
      assert xs == init + [x];
      if x.Other? {
        assert KnownItems(xs) == KnownItems(init);
        NoInterface(init, x);
      } else {
        assert KnownItems(xs) == KnownItems(init) + [x];
        SameNext(init, KnownItems(init), x);
      }
    }
  }
}
