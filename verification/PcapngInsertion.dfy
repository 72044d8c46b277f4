/**
 Forward compatibility on arbitrary bytes: blocks of unknown type inserted at any boundary the walk reaches
 leave what the header reader returns unchanged, errors included.
 */
module PcapngInsertion {
  import opened Wrappers
  import opened Bytes
  import opened Capture
  import opened PcapngFormat
  import opened PcapngWriter

  /** The walk over `data` from `p` comes to `q`, inside the file. */
  predicate Reaches(e: Endian, data: seq<Byte>, p: nat, q: nat)
    decreases |data| - p
  {
    if p == q then p <= |data|
    else
      match Frame(e, data, p)
      case None => false
      case Some(n) => Reaches(e, data, p + n, q)
  }

  lemma {:induction false} ReachesForward(e: Endian, data: seq<Byte>, p: nat, q: nat)
    requires Reaches(e, data, p, q)
    ensures p <= q <= |data|
    decreases |data| - p
  {
    if p != q {
      ReachesForward(e, data, p + Frame(e, data, p).value, q);
    }
  }

  predicate Unknown(r: Raw) {
    r.Writable() && r.kind !in {INTERFACE, OBSOLETE_PACKET, SIMPLE_PACKET, ENHANCED_PACKET}
  }

  function Inserted(data: seq<Byte>, q: nat, new_: seq<Byte>): seq<Byte>
    requires q <= |data|
  {
    data[..q] + new_ + data[q..]
  }

  // ---- before the insertion nothing changes ----

  lemma FrameSame(e: Endian, data: seq<Byte>, other: seq<Byte>, p: nat, q: nat)
    requires q <= |data| && q <= |other| && data[..q] == other[..q]
    requires Frame(e, data, p).Some? && p + Frame(e, data, p).value <= q
    ensures Frame(e, other, p) == Frame(e, data, p)
    ensures var n := Frame(e, data, p).value; BlockAt(e, other, p, n) == BlockAt(e, data, p, n)
  {
    FrameCut(e, data, p, q);
    FrameCut(e, other, p, q);
  }

  lemma {:induction false} ReachesSame(e: Endian, data: seq<Byte>, other: seq<Byte>, p: nat, q: nat)
    requires q <= |data| && q <= |other| && data[..q] == other[..q] && Reaches(e, data, p, q)
    ensures Reaches(e, other, p, q)
    decreases |data| - p
  {
    if p != q {
      var n := Frame(e, data, p).value;
      ReachesForward(e, data, p + n, q);
      FrameSame(e, data, other, p, q);
      ReachesSame(e, data, other, p + n, q);
    }
  }

  // ---- after it the same blocks follow, further on ----

  predicate Alike(bs: seq<Block>, cs: seq<Block>) {
    |bs| == |cs| && forall i :: 0 <= i < |bs| ==> bs[i].kind == cs[i].kind && bs[i].body == cs[i].body
  }

  lemma AlikeCons(b: Block, c: Block, bs: seq<Block>, cs: seq<Block>)
    requires b.kind == c.kind && b.body == c.body && Alike(bs, cs)
    ensures Alike([b] + bs, [c] + cs)
  {
  }

  lemma SuffixSlice(data: seq<Byte>, other: seq<Byte>, p: nat, o: nat, i: nat, j: nat)
    requires p <= |data| && o <= |other| && data[p..] == other[o..] && i <= j && p + j <= |data|
    ensures o + j <= |other| && data[p + i..p + j] == other[o + i..o + j]
  {
    assert |data[p..]| == |other[o..]|;
    SubSlice(data, p, |data|, i, j);
    SubSlice(other, o, |other|, i, j);
    assert data[p..|data|] == data[p..] && other[o..|other|] == other[o..];
  }

  lemma FrameShifted(e: Endian, data: seq<Byte>, p: nat, other: seq<Byte>, o: nat)
    requires p <= |data| && o <= |other| && data[p..] == other[o..]
    ensures Frame(e, data, p) == Frame(e, other, o)
    ensures match Frame(e, data, p)
            case None => true
            case Some(n) =>
              && BlockAt(e, data, p, n).kind == BlockAt(e, other, o, n).kind
              && BlockAt(e, data, p, n).body == BlockAt(e, other, o, n).body
              && data[p + n..] == other[o + n..]
  {
    assert |data| - p == |data[p..]| == |other[o..]| == |other| - o;
    if p + 8 <= |data| {
      SuffixSlice(data, other, p, o, 0, 4);
      SuffixSlice(data, other, p, o, 4, 8);
      match Frame(e, data, p) {
        case None =>
        case Some(n) =>
          SuffixSlice(data, other, p, o, 8, n - 4);
          SuffixSlice(data, other, p, o, n, |data| - p);
          assert data[p + n..|data|] == data[p + n..] && other[o + n..|other|] == other[o + n..];
      }
    }
  }

  lemma {:induction false} Shifted(e: Endian, data: seq<Byte>, p: nat, other: seq<Byte>, o: nat)
    requires p <= |data| && o <= |other| && data[p..] == other[o..]
    ensures Alike(Blocks(e, data, p), Blocks(e, other, o))
    decreases |data| - p
  {
    hide Frame, BlockAt;
    FrameShifted(e, data, p, other, o);
    FirstBlock(e, data, p);
    FirstBlock(e, other, o);
    match Frame(e, data, p) {
      case None =>
      case Some(n) =>
        FrameInside(e, data, p, n);
        FrameInside(e, other, o, n);
        Shifted(e, data, p + n, other, o + n);
        AlikeCons(BlockAt(e, data, p, n), BlockAt(e, other, o, n), Blocks(e, data, p + n), Blocks(e, other, o + n));
    }
  }

  lemma FrameInside(e: Endian, data: seq<Byte>, p: nat, n: nat)
    requires Frame(e, data, p) == Some(n)
    ensures 12 <= n && p + n <= |data|
  {
  }

  // ---- the insertion itself ----

  lemma WalkCons(e: Endian, w: Walk, b: Block, bs: seq<Block>)
    ensures Step(e, w, b).Err? ==> WalkAll(e, w, [b] + bs) == Err(Step(e, w, b).error)
    ensures Step(e, w, b).Ok? ==> WalkAll(e, w, [b] + bs) == WalkAll(e, Step(e, w, b).value, bs)
  {
    assert ([b] + bs)[1..] == bs;
  }

  lemma StepUnknown(e: Endian, w: Walk, b: Block, r: Raw)
    requires Unknown(r) && b.kind == r.kind
    ensures Step(e, w, b) == Ok(w)
  {
  }

  lemma WalkPast(e: Endian, w: Walk, data: seq<Byte>, q: nat, r: Raw)
    requires q <= |data| && Unknown(r)
    ensures WalkAll(e, w, Blocks(e, Inserted(data, q, EncodeBlock(e, r)), q)) == WalkAll(e, w, Blocks(e, data, q))
  {
    hide Frame, BlockAt, WalkAll, Step, EncodeBlock;
    var b := EncodeBlock(e, r);
    var data', next := Inserted(data, q, b), q + |b|;
    assert data'[q..next] == b && data'[next..] == data[q..];
    ReadBackBlock(e, r, data', q);
    FirstBlock(e, data', q);
    StepUnknown(e, w, Block(r.kind, r.body, next), r);
    WalkCons(e, w, Block(r.kind, r.body, next), Blocks(e, data', next));
    Shifted(e, data', next, data, q);
    OffsetsIrrelevant(e, w, Blocks(e, data', next), Blocks(e, data, q));
  }

  /** Inserting a block of unknown type at any boundary the walk reaches leaves the walk's result unchanged. */
  lemma {:induction false} InsertedWalk(e: Endian, w: Walk, data: seq<Byte>, p: nat, q: nat, r: Raw)
    requires Reaches(e, data, p, q) && q <= |data| && Unknown(r)
    ensures WalkAll(e, w, Blocks(e, Inserted(data, q, EncodeBlock(e, r)), p)) == WalkAll(e, w, Blocks(e, data, p))
    decreases |data| - p
  {
    hide Frame, BlockAt;
    if p == q {
      WalkPast(e, w, data, q, r);
    } else {
      var data', n := Inserted(data, q, EncodeBlock(e, r)), Frame(e, data, p).value;
      FrameInside(e, data, p, n);
      ReachesForward(e, data, p + n, q);
      assert data'[..q] == data[..q];
      FrameSame(e, data, data', p, q);
      FirstBlock(e, data, p);
      FirstBlock(e, data', p);
      WalkCons(e, w, BlockAt(e, data, p, n), Blocks(e, data, p + n));
      WalkCons(e, w, BlockAt(e, data, p, n), Blocks(e, data', p + n));
      match Step(e, w, BlockAt(e, data, p, n)) {
        case Err(_) =>
        case Ok(w') => InsertedWalk(e, w', data, p + n, q, r);
      }
    }
  }

  /** Any number of them. */
  lemma {:induction false} InsertedAll(e: Endian, w: Walk, data: seq<Byte>, p: nat, q: nat, rs: seq<Raw>)
    requires Reaches(e, data, p, q) && q <= |data| && forall i :: 0 <= i < |rs| ==> Unknown(rs[i])
    ensures WalkAll(e, w, Blocks(e, Inserted(data, q, EncodeBlocks(e, rs)), p)) == WalkAll(e, w, Blocks(e, data, p))
    decreases |rs|
  {
    hide WalkAll, Blocks, EncodeBlock, Reaches, Inserted;
    if rs == [] {
      InsertedNothing(data, q);
    } else {
      var rest := Inserted(data, q, EncodeBlocks(e, rs[1..]));
      InsertedAll(e, w, data, p, q, rs[1..]);
      InsertedOnce(data, q, EncodeBlocks(e, rs[1..]), EncodeBlock(e, rs[0]));
      ReachesSame(e, data, rest, p, q);
      InsertedWalk(e, w, rest, p, q, rs[0]);
    }
  }

  lemma InsertedNothing(data: seq<Byte>, q: nat)
    requires q <= |data|
    ensures Inserted(data, q, []) == data
  {
  }

  lemma InsertedOnce(data: seq<Byte>, q: nat, later: seq<Byte>, new_: seq<Byte>)
    requires q <= |data|
    ensures var rest := Inserted(data, q, later);
            q <= |rest| && rest[..q] == data[..q] && Inserted(rest, q, new_) == Inserted(data, q, new_ + later)
  {
  }

  /** So the summary, or the error, of any file is unchanged by unknown blocks at any boundary after its header. */
  lemma UnknownInsertionsSkipped(data: seq<Byte>, q: nat, rs: seq<Raw>)
    requires SectionStart(data).Ok? && 12 <= q <= |data|
    requires var (e, start) := SectionStart(data).value; Reaches(e, data, start, q)
    requires forall i :: 0 <= i < |rs| ==> Unknown(rs[i])
    ensures var (e, _) := SectionStart(data).value;
            Summarise(Inserted(data, q, EncodeBlocks(e, rs))) == Summarise(data)
  {
    var (e, start) := SectionStart(data).value;
    var data' := Inserted(data, q, EncodeBlocks(e, rs));
    SameHeader(data, data');
    InsertedAll(e, START, data, start, q, rs);
  }

  lemma SameHeader(data: seq<Byte>, other: seq<Byte>)
    requires 12 <= |data| && 12 <= |other| && data[..12] == other[..12]
    ensures SectionStart(other) == SectionStart(data)
  {
    Prefix(data, 12, 0, 4);
    Prefix(data, 12, 4, 8);
    Prefix(data, 12, 8, 12);
    Prefix(other, 12, 0, 4);
    Prefix(other, 12, 4, 8);
    Prefix(other, 12, 8, 12);
  }
}
