/**
 The chunked pipeline for large captures: each chunk is dissected with fresh state and the reports are merged.
 Against one pass over the whole capture it gives the same packets under every key exactly when no packet is
 collapsed only because of ports that earlier chunks saw; with collapsing off that never happens.
 */
module ChunkedPipeline {
  import opened Wrappers
  import opened KeyedFold
  import P = PacketStream
  import C = ChunkMerge

  function KeyOf(k: P.Key): C.Key {
    C.Key(k.srcMac, k.dstMac, k.protocol, k.port)
  }

  function PacketsOf(c: C.Conversation): int { c.core.packets }
  function BytesOf(c: C.Conversation): int { c.core.bytes }

  /** The total of the entries under a key. */
  function Amount(w: C.Conversation -> int, xs: seq<C.Entry>, k: C.Key): int {
    if xs == [] then 0 else (if xs[0].key == k then w(xs[0].value) else 0) + Amount(w, xs[1..], k)
  }

  function PacketsAt(s: P.State, k: P.Key): int { if k in s.convs then s.convs[k].packets else 0 }
  function BytesAt(s: P.State, k: P.Key): int { if k in s.convs then s.convs[k].bytes else 0 }

  /** A chunk's report has one conversation for each the dissection made, with its packets and bytes. */
  ghost predicate ReportOf(report: seq<C.Entry>, s: P.State) {
    && OncePerKey(report)
    && forall k: P.Key ::
         match Get(report, KeyOf(k))
         case None => k !in s.convs
         case Some(c) => k in s.convs && PacketsOf(c) == s.convs[k].packets && BytesOf(c) == s.convs[k].bytes
  }

  ghost predicate ReportsOf(reports: seq<seq<C.Entry>>, threshold: int, chunks: seq<seq<P.Packet>>) {
    |reports| == |chunks| && forall j :: 0 <= j < |chunks| ==> ReportOf(reports[j], P.After(threshold, chunks[j]))
  }

  function Concat(chunks: seq<seq<P.Packet>>): seq<P.Packet> {
    if chunks == [] then [] else Concat(chunks[..|chunks| - 1]) + chunks[|chunks| - 1]
  }

  // ---- what merging does to a key's total ----

  lemma {:induction false} AmountPut(w: C.Conversation -> int, held: seq<C.Entry>, x: C.Entry, k: C.Key)
    requires forall a, b :: w(C.Combine(a, b)) == w(a) + w(b)
    ensures Amount(w, Put(C.Combine, held, x), k) == Amount(w, held, k) + (if x.key == k then w(x.value) else 0)
  {
    if held != [] {
      if held[0].key == x.key {
        assert Put(C.Combine, held, x)[1..] == held[1..];
      } else {
        assert Put(C.Combine, held, x)[1..] == Put(C.Combine, held[1..], x);
        AmountPut(w, held[1..], x, k);
      }
    }
  }

  lemma {:induction false} AmountConcat(w: C.Conversation -> int, xs: seq<C.Entry>, ys: seq<C.Entry>, k: C.Key)
    ensures Amount(w, xs + ys, k) == Amount(w, xs, k) + Amount(w, ys, k)
  {
    if xs == [] {
      assert xs + ys == ys;
    } else {
      assert (xs + ys)[1..] == xs[1..] + ys;
      AmountConcat(w, xs[1..], ys, k);
    }
  }

  lemma {:induction false} AmountMerged(w: C.Conversation -> int, xs: seq<C.Entry>, k: C.Key)
    requires forall a, b :: w(C.Combine(a, b)) == w(a) + w(b)
    ensures Amount(w, Merged(C.Combine, xs), k) == Amount(w, xs, k)
  {
    if xs != [] {
      var init, x := xs[..|xs| - 1], xs[|xs| - 1];
      AmountMerged(w, init, k);
      AmountPut(w, Merged(C.Combine, init), x, k);
      assert xs == init + [x] && [x][1..] == [];
      AmountConcat(w, init, [x], k);
    }
  }

  lemma {:induction false} AmountNone(w: C.Conversation -> int, xs: seq<C.Entry>, k: C.Key)
    requires Get(xs, k) == None
    ensures Amount(w, xs, k) == 0
  {
    if xs != [] {
      AmountNone(w, xs[1..], k);
    }
  }

  lemma {:induction false} AmountOnce(w: C.Conversation -> int, xs: seq<C.Entry>, k: C.Key)
    requires OncePerKey(xs)
    ensures Amount(w, xs, k) == match Get(xs, k) case None => 0 case Some(c) => w(c)
  {
    if xs != [] {
      if xs[0].key == k {
        AmountNone(w, xs[1..], k);
      } else {
        AmountOnce(w, xs[1..], k);
      }
    }
  }

  function ChunkPackets(threshold: int, chunks: seq<seq<P.Packet>>, k: P.Key): int {
    if chunks == [] then 0
    else ChunkPackets(threshold, chunks[..|chunks| - 1], k) + PacketsAt(P.After(threshold, chunks[|chunks| - 1]), k)
  }

  function ChunkBytes(threshold: int, chunks: seq<seq<P.Packet>>, k: P.Key): int {
    if chunks == [] then 0
    else ChunkBytes(threshold, chunks[..|chunks| - 1], k) + BytesAt(P.After(threshold, chunks[|chunks| - 1]), k)
  }

  lemma {:induction false} ReportsTotal(reports: seq<seq<C.Entry>>, threshold: int, chunks: seq<seq<P.Packet>>,
        k: P.Key)
    requires ReportsOf(reports, threshold, chunks)
    ensures Amount(PacketsOf, C.All(reports), KeyOf(k)) == ChunkPackets(threshold, chunks, k)
    ensures Amount(BytesOf, C.All(reports), KeyOf(k)) == ChunkBytes(threshold, chunks, k)
  {
    if chunks != [] {
      var n := |chunks| - 1;
      ReportsTotal(reports[..n], threshold, chunks[..n], k);
      assert ReportOf(reports[n], P.After(threshold, chunks[n]));
      AmountConcat(PacketsOf, C.All(reports[..n]), reports[n], KeyOf(k));
      AmountConcat(BytesOf, C.All(reports[..n]), reports[n], KeyOf(k));
      AmountOnce(PacketsOf, reports[n], KeyOf(k));
      AmountOnce(BytesOf, reports[n], KeyOf(k));
    }
  }

  /** The merged conversation of a key totals what the chunks' dissections filed under it. */
  lemma MergedTotals(reports: seq<seq<C.Entry>>, threshold: int, chunks: seq<seq<P.Packet>>, k: P.Key)
    requires ReportsOf(reports, threshold, chunks)
    ensures Amount(PacketsOf, Merged(C.Combine, C.All(reports)), KeyOf(k)) == ChunkPackets(threshold, chunks, k)
    ensures Amount(BytesOf, Merged(C.Combine, C.All(reports)), KeyOf(k)) == ChunkBytes(threshold, chunks, k)
  {
    ReportsTotal(reports, threshold, chunks, k);
    AmountMerged(PacketsOf, C.All(reports), KeyOf(k));
    AmountMerged(BytesOf, C.All(reports), KeyOf(k));
  }

  // ---- one chunk, alone and after others ----

  /** The number and the bytes of the packets a pass from state `s` files under `k`. */
  function Filed(s: P.State, threshold: int, ps: seq<P.Packet>, k: P.Key): nat {
    if ps == [] then 0
    else
      var init, p := ps[..|ps| - 1], ps[|ps| - 1];
      Filed(s, threshold, init, k)
      + (if p.Counted() && P.KeyFor(P.Fold(s, threshold, init), threshold, p) == k then 1 else 0)
  }

  function FiledBytes(s: P.State, threshold: int, ps: seq<P.Packet>, k: P.Key): int {
    if ps == [] then 0
    else
      var init, p := ps[..|ps| - 1], ps[|ps| - 1];
      FiledBytes(s, threshold, init, k)
      + (if p.Counted() && P.KeyFor(P.Fold(s, threshold, init), threshold, p) == k then p.length else 0)
  }

  lemma {:induction false} FiledIsKept(s: P.State, threshold: int, ps: seq<P.Packet>, k: P.Key)
    ensures PacketsAt(P.Fold(s, threshold, ps), k) == PacketsAt(s, k) + Filed(s, threshold, ps, k)
    ensures BytesAt(P.Fold(s, threshold, ps), k) == BytesAt(s, k) + FiledBytes(s, threshold, ps, k)
  {
    if ps != [] {
      FiledIsKept(s, threshold, ps[..|ps| - 1], k);
    }
  }

  /** The `i`th packet of `chunk` is collapsed in a pass that saw `before` first, but not in the chunk alone. */
  predicate LateAt(threshold: int, before: seq<P.Packet>, chunk: seq<P.Packet>, i: nat)
    requires i < |chunk|
  {
    && P.Collapses(P.After(threshold, before + chunk[..i]), threshold, chunk[i])
    && !P.Collapses(P.After(threshold, chunk[..i]), threshold, chunk[i])
  }

  predicate Late(threshold: int, before: seq<P.Packet>, chunk: seq<P.Packet>) {
    exists i :: 0 <= i < |chunk| && LateAt(threshold, before, chunk, i)
  }

  /** Some packet of a chunk is collapsed only because of ports that earlier chunks saw. */
  predicate AnyLate(threshold: int, chunks: seq<seq<P.Packet>>) {
    chunks != [] &&
    (AnyLate(threshold, chunks[..|chunks| - 1])
     || Late(threshold, Concat(chunks[..|chunks| - 1]), chunks[|chunks| - 1]))
  }

  lemma MorePorts(threshold: int, before: seq<P.Packet>, ps: seq<P.Packet>, pair: P.Pair)
    ensures P.PairPorts(threshold, ps, pair) <= P.PairPorts(threshold, before + ps, pair)
  {
    forall x | x in P.PairPorts(threshold, ps, pair) ensures x in P.PairPorts(threshold, before + ps, pair) {
      var i :| 0 <= i < |ps| && ps[i].Tracked(threshold) && ps[i].PairKey() == pair && ps[i].port == x;
      assert (before + ps)[|before| + i] == ps[i];
    }
  }

  // What collapses in the chunk alone collapses after others too.
  lemma CollapseKept(threshold: int, before: seq<P.Packet>, ps: seq<P.Packet>, p: P.Packet)
    requires P.Collapses(P.After(threshold, ps), threshold, p)
    ensures P.Collapses(P.After(threshold, before + ps), threshold, p)
  {
    var pair := p.PairKey();
    P.PortsAreDistinctPorts(threshold, ps, pair);
    P.PortsAreDistinctPorts(threshold, before + ps, pair);
    MorePorts(threshold, before, ps, pair);
    P.SubsetSize(P.PairPorts(threshold, ps, pair) + {p.port}, P.PairPorts(threshold, before + ps, pair) + {p.port});
  }

  function ScanKey(p: P.Packet): P.Key { P.Key(p.srcMac, p.dstMac, "Port Scan", 0) }

  lemma KeysCompared(threshold: int, before: seq<P.Packet>, ps: seq<P.Packet>, p: P.Packet)
    ensures var after, alone := P.After(threshold, before + ps), P.After(threshold, ps);
            && (P.KeyFor(after, threshold, p) == P.KeyFor(alone, threshold, p) ||
                (P.Collapses(after, threshold, p) && !P.Collapses(alone, threshold, p) && p.Counted()
                 && P.KeyFor(after, threshold, p) == ScanKey(p) && P.KeyFor(alone, threshold, p).port > 0))
            && (P.Collapses(after, threshold, p) && !P.Collapses(alone, threshold, p) ==>
                  P.KeyFor(after, threshold, p) == ScanKey(p) && P.KeyFor(alone, threshold, p).port > 0)
  {
    if P.Collapses(P.After(threshold, ps), threshold, p) {
      CollapseKept(threshold, before, ps, p);
    }
  }

  lemma FoldAfter(threshold: int, before: seq<P.Packet>, ps: seq<P.Packet>)
    ensures P.Fold(P.After(threshold, before), threshold, ps) == P.After(threshold, before + ps)
  {
    P.FoldConcat(P.START, threshold, before, ps);
  }

  /** A chunk files the same alone and after others, unless a packet of it is collapsed late; then the scan
      conversation of that packet gets more after others. */
  lemma {:induction false} ChunkCompared(threshold: int, before: seq<P.Packet>, chunk: seq<P.Packet>, k: P.Key)
    ensures !Late(threshold, before, chunk) ==>
              && Filed(P.After(threshold, before), threshold, chunk, k) == Filed(P.START, threshold, chunk, k)
              && FiledBytes(P.After(threshold, before), threshold, chunk, k) == FiledBytes(P.START, threshold, chunk, k)
    ensures k.port == 0 ==>
          Filed(P.After(threshold, before), threshold, chunk, k) >= Filed(P.START, threshold, chunk, k)
  {
    if chunk != [] {
      hide P.After, P.KeyFor, P.Collapses;
      var init, p := chunk[..|chunk| - 1], chunk[|chunk| - 1];
      ChunkCompared(threshold, before, init, k);
      LateSnoc(threshold, before, chunk);
      FoldAfter(threshold, before, init);
      FoldAfter(threshold, [], init);
      assert [] + init == init && P.After(threshold, []) == P.START by { AfterNothing(threshold); }
      KeysCompared(threshold, before, init, p);
    }
  }

  lemma AfterNothing(threshold: int)
    ensures P.After(threshold, []) == P.START
  {
  }

  lemma LateSnoc(threshold: int, before: seq<P.Packet>, chunk: seq<P.Packet>)
    requires chunk != []
    ensures var init, i := chunk[..|chunk| - 1], |chunk| - 1;
            Late(threshold, before, chunk) <==> Late(threshold, before, init) || LateAt(threshold, before, chunk, i)
  {
    var init, n := chunk[..|chunk| - 1], |chunk| - 1;
    assert forall i :: 0 <= i < n ==> init[i] == chunk[i] && init[..i] == chunk[..i];
    forall i | 0 <= i < n ensures LateAt(threshold, before, init, i) <==> LateAt(threshold, before, chunk, i) {
    }
  }

  lemma {:induction false} LateAdds(threshold: int, before: seq<P.Packet>, chunk: seq<P.Packet>, i: nat)
    requires i < |chunk| && LateAt(threshold, before, chunk, i)
    ensures var k := ScanKey(chunk[i]);
            Filed(P.After(threshold, before), threshold, chunk, k) > Filed(P.START, threshold, chunk, k)
    decreases |chunk|
  {
    hide P.After, P.KeyFor, P.Collapses;
    var init, p, k := chunk[..|chunk| - 1], chunk[|chunk| - 1], ScanKey(chunk[i]);
    FoldAfter(threshold, before, init);
    FoldAfter(threshold, [], init);
    AfterNothing(threshold);
    assert [] + init == init;
    KeysCompared(threshold, before, init, p);
    if i < |init| {
      assert init[i] == chunk[i] && init[..i] == chunk[..i];
      LateAdds(threshold, before, init, i);
    } else {
      assert chunk[..i] == init;
      ChunkCompared(threshold, before, init, k);
    }
  }

  // ---- the whole capture ----

  lemma {:induction false} WholeIsFiled(threshold: int, chunks: seq<seq<P.Packet>>, k: P.Key)
    requires chunks != []
    ensures var init, last := chunks[..|chunks| - 1], chunks[|chunks| - 1];
            var before := P.After(threshold, Concat(init));
            && PacketsAt(P.After(threshold, Concat(chunks)), k) ==
                  PacketsAt(before, k) + Filed(before, threshold, last, k)
            && BytesAt(P.After(threshold, Concat(chunks)), k) ==
                  BytesAt(before, k) + FiledBytes(before, threshold, last, k)
            && PacketsAt(P.After(threshold, last), k) == Filed(P.START, threshold, last, k)
            && BytesAt(P.After(threshold, last), k) == FiledBytes(P.START, threshold, last, k)
  {
    var init, last := chunks[..|chunks| - 1], chunks[|chunks| - 1];
    FoldAfter(threshold, Concat(init), last);
    FiledIsKept(P.After(threshold, Concat(init)), threshold, last, k);
    FiledIsKept(P.START, threshold, last, k);
  }

  lemma {:induction false} ChunksCompared(threshold: int, chunks: seq<seq<P.Packet>>, k: P.Key)
    ensures var whole := P.After(threshold, Concat(chunks));
            && (!AnyLate(threshold, chunks) ==>
                  PacketsAt(whole, k) == ChunkPackets(threshold, chunks, k) &&
                        BytesAt(whole, k) == ChunkBytes(threshold, chunks, k))
            && (k.port == 0 ==> PacketsAt(whole, k) >= ChunkPackets(threshold, chunks, k))
  {
    if chunks == [] {
      AfterNothing(threshold);
    } else {
      hide P.After, Filed, FiledBytes, Late, PacketsAt, BytesAt;
      var init, last := chunks[..|chunks| - 1], chunks[|chunks| - 1];
      ChunksCompared(threshold, init, k);
      WholeIsFiled(threshold, chunks, k);
      ChunkCompared(threshold, Concat(init), last, k);
    }
  }

  lemma {:induction false} LateShows(threshold: int, chunks: seq<seq<P.Packet>>) returns (k: P.Key)
    requires AnyLate(threshold, chunks)
    ensures k.port == 0 && PacketsAt(P.After(threshold, Concat(chunks)), k) > ChunkPackets(threshold, chunks, k)
  {
    var init, last := chunks[..|chunks| - 1], chunks[|chunks| - 1];
    if AnyLate(threshold, init) {
      k := LateShows(threshold, init);
      ChunkCompared(threshold, Concat(init), last, k);
    } else {
      var i :| 0 <= i < |last| && LateAt(threshold, Concat(init), last, i);
      k := ScanKey(last[i]);
      LateAdds(threshold, Concat(init), last, i);
      ChunksCompared(threshold, init, k);
    }
    WholeIsFiled(threshold, chunks, k);
  }

  /** The merged reports give every key the packets that one pass over the capture files under it. */
  ghost predicate SamePackets(reports: seq<seq<C.Entry>>, threshold: int, ps: seq<P.Packet>) {
    forall k: P.Key :: Amount(PacketsOf, Merged(C.Combine, C.All(reports)), KeyOf(k)) ==
          PacketsAt(P.After(threshold, ps), k)
  }

  ghost predicate SameBytes(reports: seq<seq<C.Entry>>, threshold: int, ps: seq<P.Packet>) {
    forall k: P.Key :: Amount(BytesOf, Merged(C.Combine, C.All(reports)), KeyOf(k)) ==
          BytesAt(P.After(threshold, ps), k)
  }

  /**
   Dissecting chunks apart and merging gives the packets of one pass exactly when no packet is collapsed late;
   and then it gives the bytes too.
   */
  lemma ChunkedIsOnePass(reports: seq<seq<C.Entry>>, threshold: int, chunks: seq<seq<P.Packet>>)
    requires ReportsOf(reports, threshold, chunks)
    ensures SamePackets(reports, threshold, Concat(chunks)) <==> !AnyLate(threshold, chunks)
    ensures !AnyLate(threshold, chunks) ==> SameBytes(reports, threshold, Concat(chunks))
  {
    forall k: P.Key
      ensures Amount(PacketsOf, Merged(C.Combine, C.All(reports)), KeyOf(k)) == ChunkPackets(threshold, chunks, k)
      ensures Amount(BytesOf, Merged(C.Combine, C.All(reports)), KeyOf(k)) == ChunkBytes(threshold, chunks, k)
    {
      MergedTotals(reports, threshold, chunks, k);
    }
    if AnyLate(threshold, chunks) {
      var k := LateShows(threshold, chunks);
      assert Amount(PacketsOf, Merged(C.Combine, C.All(reports)), KeyOf(k)) !=
             PacketsAt(P.After(threshold, Concat(chunks)), k);
    } else {
      forall k: P.Key
        ensures PacketsAt(P.After(threshold, Concat(chunks)), k) == ChunkPackets(threshold, chunks, k)
        ensures BytesAt(P.After(threshold, Concat(chunks)), k) == ChunkBytes(threshold, chunks, k)
      {
        ChunksCompared(threshold, chunks, k);
      }
    }
  }

  lemma {:induction false} NeverLateWhenOff(threshold: int, chunks: seq<seq<P.Packet>>)
    requires threshold <= 0
    ensures !AnyLate(threshold, chunks)
  {
    if chunks != [] {
      NeverLateWhenOff(threshold, chunks[..|chunks| - 1]);
    }
  }

  /** With collapsing off, however the capture is cut. */
  lemma ChunkedIsOnePassWhenOff(reports: seq<seq<C.Entry>>, threshold: int, chunks: seq<seq<P.Packet>>)
    requires threshold <= 0 && ReportsOf(reports, threshold, chunks)
    ensures SamePackets(reports, threshold, Concat(chunks)) && SameBytes(reports, threshold, Concat(chunks))
  {
    NeverLateWhenOff(threshold, chunks);
    ChunkedIsOnePass(reports, threshold, chunks);
  }

  /** With it on: two packets of one pair to two ports, threshold two. In two chunks the second is not collapsed. */
  lemma ScanAcrossChunks(p: P.Packet, q: P.Packet)
    requires p.Tracked(2) && q.Tracked(2) && p.PairKey() == q.PairKey() && p.port != q.port
    ensures AnyLate(2, [[p], [q]])
  {
    var chunks := [[p], [q]];
    OneChunk(p);
    OnePort(2, p);
    NoPort(2, q.PairKey());
    assert chunks[..1] == [[p]];
    assert [q][..0] == [] && [p] + [] == [p];
    assert |{p.port} + {q.port}| == 2 && |{} + {q.port}| == 1;
    assert LateAt(2, Concat(chunks[..1]), chunks[1], 0);
  }

  lemma OneChunk(p: P.Packet)
    ensures Concat([[p]]) == [p]
  {
    var one := [[p]];
    assert one[..|one| - 1] == [];
  }

  lemma OnePort(threshold: int, p: P.Packet)
    requires p.Tracked(threshold)
    ensures P.PortsOf(P.After(threshold, [p]), p.PairKey()) == {p.port}
  {
    P.PortsAreDistinctPorts(threshold, [p], p.PairKey());
    assert [p][0] == p;
    assert P.PairPorts(threshold, [p], p.PairKey()) == {p.port};
  }

  lemma NoPort(threshold: int, pair: P.Pair)
    ensures P.PortsOf(P.After(threshold, []), pair) == {}
  {
  }
}
