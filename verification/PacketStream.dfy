/**
 Aggregating a packet stream into conversations, with port scans collapsed inline: once a (MAC pair,
 transport) has been seen on `threshold` destination ports, its further packets all go to one
 "Port Scan" conversation. The same dictionaries are shared by all chunks of a capture.
 */
module PacketStream {
  import opened Wrappers
  import Text

  const ARP_CAP := 10_000
  const TIMES_CAP := 5000
  const SRC_PORTS_CAP := 100

  /** One line of dissector output. `protocol` is blank when the packet cannot be classified. */
  datatype Packet = Packet(srcMac: string, dstMac: string, protocol: string, transport: string, port: nat,
                           srcPort: nat, length: int, arp: bool, time: string, epoch: Option<real>)
  {
    predicate Counted() { srcMac != "" && dstMac != "" && protocol != "" }
    function PairKey(): Pair { Pair(srcMac, dstMac, transport) }
    predicate Tracked(threshold: int) { Counted() && threshold > 0 && port > 0 && transport != "" }
  }

  datatype Pair = Pair(srcMac: string, dstMac: string, transport: string)

  datatype Key = Key(srcMac: string, dstMac: string, protocol: string, port: nat)

  datatype Tally = Tally(packets: nat, bytes: int, transport: string, srcPorts: set<nat>, first: string, last: string,
                         times: seq<real>)

  const EMPTY := Tally(0, 0, "", {}, "", "", [])

  function Adopt(x: string, y: string, less: bool): string { if x == "" || less then y else x }

  /** What one more packet does to a conversation's tally. */
  function Absorb(t: Tally, p: Packet): Tally {
    Tally(t.packets + 1, t.bytes + p.length,
          if p.transport != "" && t.transport == "" then p.transport else t.transport,
          if p.srcPort != 0 && |t.srcPorts| < SRC_PORTS_CAP then t.srcPorts + {p.srcPort} else t.srcPorts,
          Adopt(t.first, p.time, Text.Less(p.time, t.first)),
          Adopt(t.last, p.time, Text.Less(t.last, p.time)),
          if p.epoch.Some? && |t.times| < TIMES_CAP then t.times + [p.epoch.value] else t.times)
  }

  type Conversations = map<Key, Tally>

  /** The shared state of the passes. `ports` holds the destination ports seen for each tracked pair. */
  datatype State = State(packets: nat, skipped: nat, collapsed: nat, convs: Conversations, ports: map<Pair, set<nat>>,
                         arps: seq<Packet>, truncated: bool)

  const START := State(0, 0, 0, map[], map[], [], false)

  function PortsOf(s: State, k: Pair): set<nat> {
    if k in s.ports then s.ports[k] else {}
  }

  function Track(s: State, threshold: int, p: Packet): map<Pair, set<nat>> {
    if p.Tracked(threshold) then s.ports[p.PairKey() := PortsOf(s, p.PairKey()) + {p.port}] else s.ports
  }

  /** Does `p`, arriving in state `s`, go to its pair's port-scan conversation? */
  predicate Collapses(s: State, threshold: int, p: Packet) {
    p.Tracked(threshold) && |PortsOf(s, p.PairKey()) + {p.port}| >= threshold
  }

  function KeyFor(s: State, threshold: int, p: Packet): Key {
    if Collapses(s, threshold, p) then Key(p.srcMac, p.dstMac, "Port Scan", 0)
    else Key(p.srcMac, p.dstMac, p.protocol, p.port)
  }

  function Step(s: State, threshold: int, p: Packet): State {
    if !p.Counted() then s.(packets := s.packets + 1, skipped := s.skipped + 1)
    else
      var key := KeyFor(s, threshold, p);
      var held := if key in s.convs then s.convs[key] else EMPTY;
      var keep := p.arp && !s.truncated;
      var arps := if keep then s.arps + [p] else s.arps;
      State(s.packets + 1, s.skipped, if Collapses(s, threshold, p) then s.collapsed + 1 else s.collapsed,
            s.convs[key := Absorb(held, p)], Track(s, threshold, p), arps,
            s.truncated || (keep && |arps| >= ARP_CAP))
  }

  function Fold(s: State, threshold: int, ps: seq<Packet>): State {
    if ps == [] then s else Step(Fold(s, threshold, ps[..|ps| - 1]), threshold, ps[|ps| - 1])
  }

  lemma PortsDecide(s: State, t: State, threshold: int, p: Packet)
    requires s.ports == t.ports
    ensures Collapses(s, threshold, p) == Collapses(t, threshold, p) &&
          KeyFor(s, threshold, p) == KeyFor(t, threshold, p)
    ensures Track(s, threshold, p) == Track(t, threshold, p)
  {
  }

  class Dissector {
    const threshold: int
    var packets: nat
    var skipped: nat
    var collapsed: nat
    var convs: Conversations
    var ports: map<Pair, set<nat>>
    var arps: seq<Packet>
    var truncated: bool

    function Model(): State
      reads this
    {
      State(packets, skipped, collapsed, convs, ports, arps, truncated)
    }

    constructor (threshold: int)
      ensures this.threshold == threshold && Model() == START
    {
      this.threshold := threshold;
      packets, skipped, collapsed, convs, ports, arps, truncated := 0, 0, 0, map[], map[], [], false;
    }

    method Take(p: Packet)
      modifies this
      ensures Model() == Step(old(Model()), threshold, p)
    {
      hide Absorb, Collapses, KeyFor, Track;
      packets := packets + 1;
      if !p.Counted() {
        skipped := skipped + 1;
        return;
      }
      PortsDecide(old(Model()), Model(), threshold, p);
      var key := Choose(p);
      var conv := if key in convs then convs[key] else EMPTY;
      convs := convs[key := Absorb(conv, p)];
      if p.arp {
        Observe(p);
      }
    }

    /** Notes the packet's port, and says which conversation it belongs to. */
    method Choose(p: Packet) returns (key: Key)
      modifies this`ports, this`collapsed
      ensures key == KeyFor(old(Model()), threshold, p) && ports == Track(old(Model()), threshold, p)
      ensures collapsed == old(collapsed) + (if Collapses(old(Model()), threshold, p) then 1 else 0)
    {
      key := Key(p.srcMac, p.dstMac, p.protocol, p.port);
      if p.Tracked(threshold) {
        var pair := p.PairKey();
        var seen := (if pair in ports then ports[pair] else {}) + {p.port};
        ports := ports[pair := seen];
        if |seen| >= threshold {
          key := Key(p.srcMac, p.dstMac, "Port Scan", 0);
          collapsed := collapsed + 1;
        }
      }
    }

    method Observe(p: Packet)
      modifies this`arps, this`truncated
      ensures arps == if old(truncated) then old(arps) else old(arps) + [p]
      ensures truncated == (old(truncated) || |old(arps)| + 1 >= ARP_CAP)
    {
      if !truncated {
        arps := arps + [p];
        if |arps| >= ARP_CAP {
          truncated := true;
        }
      }
    }

    /** One pass over a stretch of the stream. */
    method RunPass(ps: seq<Packet>)
      modifies this
      ensures Model() == Fold(old(Model()), threshold, ps)
    {
      for i := 0 to |ps|
        invariant Model() == Fold(old(Model()), threshold, ps[..i])
      {
        assert ps[..i + 1][..i] == ps[..i];
        Take(ps[i]);
      }
      assert ps[..|ps|] == ps;
    }

    /** The whole capture: in one pass, or in chunks until a chunk brings no packet. Either way the same result. */
    method Dissect(stream: seq<Packet>, chunkSize: nat)
      modifies this
      ensures Model() == Fold(old(Model()), threshold, stream)
    {
      if chunkSize == 0 {
        RunPass(stream);
        return;
      }
      var start := 0;
      while true
        invariant Model() == Fold(old(Model()), threshold, Upto(stream, start))
        decreases |stream| + chunkSize - start
      {
        var before := packets;
        var chunk := Chunk(stream, start, chunkSize);
        ChunkExtends(old(Model()), threshold, stream, start, chunkSize);
        FoldCounts(Model(), threshold, chunk);
        RunPass(chunk);
        start := start + chunkSize;
        if packets == before {
          break;
        }
      }
      assert Upto(stream, start) == stream;
    }
  }

  function Upto(stream: seq<Packet>, n: nat): seq<Packet> {
    if n <= |stream| then stream[..n] else stream
  }

  /** The frames of one chunk; none when it starts past the end. */
  function Chunk(stream: seq<Packet>, start: nat, size: nat): seq<Packet> {
    if |stream| <= start then [] else Upto(stream[start..], size)
  }

  lemma ChunkExtends(s: State, threshold: int, stream: seq<Packet>, start: nat, size: nat)
    requires size > 0
    ensures Fold(s, threshold, Upto(stream, start + size)) ==
              Fold(Fold(s, threshold, Upto(stream, start)), threshold, Chunk(stream, start, size))
    ensures Chunk(stream, start, size) == [] <==> |stream| <= start
  {
    assert Upto(stream, start + size) == Upto(stream, start) + Chunk(stream, start, size);
    FoldConcat(s, threshold, Upto(stream, start), Chunk(stream, start, size));
  }

  lemma {:induction false} FoldConcat(s: State, threshold: int, ps: seq<Packet>, qs: seq<Packet>)
    ensures Fold(s, threshold, ps + qs) == Fold(Fold(s, threshold, ps), threshold, qs)
    decreases |qs|
  {
    if qs == [] {
      assert ps + qs == ps;
    } else {
      assert (ps + qs)[..|ps + qs| - 1] == ps + qs[..|qs| - 1];
      FoldConcat(s, threshold, ps, qs[..|qs| - 1]);
    }
  }

  lemma {:induction false} FoldCounts(s: State, threshold: int, ps: seq<Packet>)
    ensures Fold(s, threshold, ps).packets == s.packets + |ps|
  {
    if ps != [] {
      FoldCounts(s, threshold, ps[..|ps| - 1]);
    }
  }

  function After(threshold: int, ps: seq<Packet>): State {
    Fold(START, threshold, ps)
  }

  // ---- packets are conserved ----

  /** The list of conversations a run files its packets under, one entry per counted packet. */
  function Filings(threshold: int, ps: seq<Packet>): seq<Key> {
    if ps == [] then []
    else
      var init, p := ps[..|ps| - 1], ps[|ps| - 1];
      Filings(threshold, init) + (if p.Counted() then [KeyFor(After(threshold, init), threshold, p)] else [])
  }

  function Times<T(==)>(xs: seq<T>, x: T): nat {
    multiset(xs)[x]
  }

  function Lengths(threshold: int, ps: seq<Packet>, k: Key): int {
    if ps == [] then 0
    else
      var init, p := ps[..|ps| - 1], ps[|ps| - 1];
      Lengths(threshold, init, k)
      + (if p.Counted() && KeyFor(After(threshold, init), threshold, p) == k then p.length else 0)
  }

  /**
   Every packet is either skipped or filed under exactly one conversation: a conversation's packet count is
   the number of packets filed under it, its bytes are their lengths, and filings plus skips are all packets.
   */
  lemma {:induction false} PacketsConserved(threshold: int, ps: seq<Packet>, k: Key)
    ensures var s := After(threshold, ps);
            && s.packets == |ps| && |Filings(threshold, ps)| + s.skipped == |ps|
            && (k in s.convs <==> k in Filings(threshold, ps))
            && (k in s.convs ==> s.convs[k].packets == Times(Filings(threshold, ps), k))
            && (k in s.convs ==> s.convs[k].bytes == Lengths(threshold, ps, k))
            && (k !in s.convs ==> Lengths(threshold, ps, k) == 0)
  {
    if ps != [] {
      PacketsConserved(threshold, ps[..|ps| - 1], k);
    }
  }

  // ---- port scans ----

  /** The distinct destination ports of a pair's tracked packets. */
  function PairPorts(threshold: int, ps: seq<Packet>, pair: Pair): set<nat> {
    set i | 0 <= i < |ps| && ps[i].Tracked(threshold) && ps[i].PairKey() == pair :: ps[i].port
  }

  lemma {:induction false} PortsAreDistinctPorts(threshold: int, ps: seq<Packet>, pair: Pair)
    ensures PortsOf(After(threshold, ps), pair) == PairPorts(threshold, ps, pair)
  {
    if ps != [] {
      var init, p := ps[..|ps| - 1], ps[|ps| - 1];
      PortsAreDistinctPorts(threshold, init, pair);
      PairPortsSnoc(threshold, init, p, pair);
      assert ps == init + [p];
    }
  }

  lemma PairPortsSnoc(threshold: int, ps: seq<Packet>, p: Packet, pair: Pair)
    ensures PairPorts(threshold, ps + [p], pair) ==
              PairPorts(threshold, ps, pair) + (if p.Tracked(threshold) && p.PairKey() == pair then {p.port} else {})
  {
    var qs := ps + [p];
    forall x ensures x in PairPorts(threshold, qs, pair) <==>
                     || x in PairPorts(threshold, ps, pair)
                     || (p.Tracked(threshold) && p.PairKey() == pair && x == p.port) {
      if x in PairPorts(threshold, ps, pair) {
        var i :| 0 <= i < |ps| && ps[i].Tracked(threshold) && ps[i].PairKey() == pair && ps[i].port == x;
        assert qs[i] == ps[i];
      }
      if p.Tracked(threshold) && p.PairKey() == pair && x == p.port {
        assert qs[|ps|] == p;
      }
    }
  }

  predicate CollapsedAt(threshold: int, ps: seq<Packet>, i: nat)
    requires i < |ps|
  {
    Collapses(After(threshold, ps[..i]), threshold, ps[i])
  }

  /** A packet is collapsed exactly when, counting itself, its pair has been seen on at least `threshold` ports. */
  lemma CollapsedExactly(threshold: int, ps: seq<Packet>, i: nat)
    requires i < |ps|
    ensures CollapsedAt(threshold, ps, i) <==>
              ps[i].Tracked(threshold) && |PairPorts(threshold, ps[..i + 1], ps[i].PairKey())| >= threshold
  {
    PortsAreDistinctPorts(threshold, ps[..i], ps[i].PairKey());
    PairPortsSnoc(threshold, ps[..i], ps[i], ps[i].PairKey());
    assert ps[..i + 1] == ps[..i] + [ps[i]];
  }

  lemma PairPortsGrow(threshold: int, ps: seq<Packet>, i: nat, j: nat, pair: Pair)
    requires i <= j <= |ps|
    ensures PairPorts(threshold, ps[..i], pair) <= PairPorts(threshold, ps[..j], pair)
    ensures |PairPorts(threshold, ps[..i], pair)| <= |PairPorts(threshold, ps[..j], pair)|
  {
    forall x | x in PairPorts(threshold, ps[..i], pair) ensures x in PairPorts(threshold, ps[..j], pair) {
      var n :| 0 <= n < i && ps[..i][n].Tracked(threshold) && ps[..i][n].PairKey() == pair && ps[..i][n].port == x;
      assert ps[..j][n] == ps[..i][n];
    }
    SubsetSize(PairPorts(threshold, ps[..i], pair), PairPorts(threshold, ps[..j], pair));
  }

  lemma SubsetSize<T>(a: set<T>, b: set<T>)
    requires a <= b
    ensures |a| <= |b|
  {
    assert b == a + (b - a);
  }

  /** Once a pair collapses it stays collapsed, on every port. */
  lemma StaysCollapsed(threshold: int, ps: seq<Packet>, i: nat, j: nat)
    requires i <= j < |ps| && CollapsedAt(threshold, ps, i)
    requires ps[j].Tracked(threshold) && ps[j].PairKey() == ps[i].PairKey()
    ensures CollapsedAt(threshold, ps, j)
  {
    CollapsedExactly(threshold, ps, i);
    CollapsedExactly(threshold, ps, j);
    PairPortsGrow(threshold, ps, i + 1, j + 1, ps[i].PairKey());
  }

  /** The ports of a pair that get a conversation of their own. */
  function OwnPorts(threshold: int, ps: seq<Packet>, pair: Pair): set<nat> {
    set i | 0 <= i < |ps| && ps[i].Tracked(threshold) && ps[i].PairKey() == pair && !CollapsedAt(threshold, ps, i)
          :: ps[i].port
  }

  /** Fewer than `threshold` ports of a pair ever get a conversation of their own. */
  lemma FewOwnPorts(threshold: int, ps: seq<Packet>, pair: Pair)
    requires threshold > 0
    ensures |OwnPorts(threshold, ps, pair)| < threshold
  {
    if i :| 0 <= i < |ps| && ps[i].Tracked(threshold) && ps[i].PairKey() == pair && !CollapsedAt(threshold, ps, i) {
      var last := LastOwn(threshold, ps, pair, i);
      var reach := PairPorts(threshold, ps[..last + 1], pair);
      CollapsedExactly(threshold, ps, last);
      forall x | x in OwnPorts(threshold, ps, pair) ensures x in reach {
        var n :| 0 <= n < |ps| && ps[n].Tracked(threshold) && ps[n].PairKey() == pair
                 && !CollapsedAt(threshold, ps, n) && ps[n].port == x;
        assert n <= last && ps[..last + 1][n] == ps[n];
      }
      SubsetSize(OwnPorts(threshold, ps, pair), reach);
    } else {
      assert OwnPorts(threshold, ps, pair) == {};
    }
  }

  lemma {:induction false} LastOwn(threshold: int, ps: seq<Packet>, pair: Pair, i: nat) returns (last: nat)
    requires i < |ps| && ps[i].Tracked(threshold) && ps[i].PairKey() == pair && !CollapsedAt(threshold, ps, i)
    ensures last < |ps| && ps[last].Tracked(threshold) && ps[last].PairKey() == pair &&
          !CollapsedAt(threshold, ps, last)
    ensures forall n :: last < n < |ps| && ps[n].Tracked(threshold) && ps[n].PairKey() == pair ==>
              CollapsedAt(threshold, ps, n)
    decreases |ps| - i
  {
    if n :| i < n < |ps| && ps[n].Tracked(threshold) && ps[n].PairKey() == pair && !CollapsedAt(threshold, ps, n) {
      last := LastOwn(threshold, ps, pair, n);
    } else {
      last := i;
    }
  }

  // ---- ARP observations ----

  function ArpPackets(ps: seq<Packet>): seq<Packet> {
    if ps == [] then []
    else
      var p := ps[|ps| - 1];
      ArpPackets(ps[..|ps| - 1]) + (if p.Counted() && p.arp then [p] else [])
  }

  /** The observations kept are exactly the first 10,000 ARP packets, and the flag says the cap was reached. */
  lemma {:induction false} ArpsCapped(threshold: int, ps: seq<Packet>)
    ensures var s, all := After(threshold, ps), ArpPackets(ps);
            && s.arps == (if |all| <= 10_000 then all else all[..10_000])
            && |s.arps| <= 10_000
            && (s.truncated <==> |all| >= 10_000)
  {
    if ps != [] {
      ArpsCapped(threshold, ps[..|ps| - 1]);
      var all, p := ArpPackets(ps[..|ps| - 1]), ps[|ps| - 1];
      if |all| == ARP_CAP {
        assert all[..ARP_CAP] == all;
      }
    }
  }
}
