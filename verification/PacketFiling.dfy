/**
 What the conversations of a capture say, told from its packets alone: which packets each one holds, and what it makes
 of them.
 */
module PacketFiling {
  import opened Wrappers
  import opened PacketStream
  import Text

  /** Both MAC addresses and the protocol are known. */
  predicate Whole(p: Packet) {
    p.srcMac != "" && p.dstMac != "" && p.protocol != ""
  }

  /** The destination ports a host pair has been seen on over a transport. */
  function PortsSeen(ps: seq<Packet>, src: string, dst: string, transport: string): set<nat> {
    set i | 0 <= i < |ps| && Whole(ps[i]) && ps[i].srcMac == src && ps[i].dstMac == dst && ps[i].transport == transport
            && ps[i].port > 0 :: ps[i].port
  }

  /** The last packet of `ps` belongs to a port scan: counting it, its pair has been seen on that many ports. */
  predicate Scans(threshold: int, ps: seq<Packet>)
    requires ps != []
  {
    var p := ps[|ps| - 1];
    && threshold > 0 && p.port > 0 && p.transport != ""
    && |PortsSeen(ps, p.srcMac, p.dstMac, p.transport)| >= threshold
  }

  /** The last packet of `ps` belongs to the conversation from `src` to `dst` in `protocol` on `port`. */
  predicate Belongs(threshold: int, ps: seq<Packet>, k: Key)
    requires ps != []
  {
    var p := ps[|ps| - 1];
    && Whole(p) && k.srcMac == p.srcMac && k.dstMac == p.dstMac
    && if Scans(threshold, ps) then k.protocol == "Port Scan" && k.port == 0
       else k.protocol == p.protocol && k.port == p.port
  }

  /** The packets of a conversation, in order. */
  function Held(threshold: int, ps: seq<Packet>, k: Key): seq<Packet> {
    if ps == [] then []
    else Held(threshold, ps[..|ps| - 1], k) + (if Belongs(threshold, ps, k) then [ps[|ps| - 1]] else [])
  }

  // ---- what a conversation makes of its packets ----

  function Bytes(qs: seq<Packet>): int {
    if qs == [] then 0 else Bytes(qs[..|qs| - 1]) + qs[|qs| - 1].length
  }

  function SourcePorts(qs: seq<Packet>): set<nat> {
    set i | 0 <= i < |qs| && qs[i].srcPort != 0 :: qs[i].srcPort
  }

  function Epochs(qs: seq<Packet>): seq<real> {
    if qs == [] then []
    else
      var e := qs[|qs| - 1].epoch;
      Epochs(qs[..|qs| - 1]) + (if e.Some? then [e.value] else [])
  }

  /** The transport is the first one given, none if none is. */
  predicate FirstTransport(qs: seq<Packet>, transport: string) {
    if transport == "" then forall i :: 0 <= i < |qs| ==> qs[i].transport == ""
    else exists i :: 0 <= i < |qs| && qs[i].transport == transport && forall j :: 0 <= j < i ==> qs[j].transport == ""
  }

  /** The last time is the greatest. */
  predicate Latest(qs: seq<Packet>, last: string) {
    && (forall i :: 0 <= i < |qs| ==> !Text.Less(last, qs[i].time))
    && exists i :: 0 <= i < |qs| && qs[i].time == last
  }

  predicate AllTimed(qs: seq<Packet>) {
    forall i :: 0 <= i < |qs| ==> qs[i].time != ""
  }

  predicate LeastOf(qs: seq<Packet>, first: string) {
    if qs == [] then first == ""
    else
      && (forall i :: 0 <= i < |qs| ==> !Text.Less(qs[i].time, first))
      && exists i :: 0 <= i < |qs| && qs[i].time == first
  }

  /** The first time is the least since the last packet without one; without such packets, the least of all. */
  ghost predicate Earliest(qs: seq<Packet>, first: string) {
    exists n :: 0 <= n <= |qs| && (n > 0 ==> qs[n - 1].time == "") && AllTimed(qs[n..]) && LeastOf(qs[n..], first)
  }

  /** All the source ports, or a hundred of them. */
  predicate PortsKept(qs: seq<Packet>, ports: set<nat>) {
    ports <= SourcePorts(qs) && |ports| <= 100 && (|ports| == 100 || ports == SourcePorts(qs))
  }

  ghost predicate Tells(t: Tally, qs: seq<Packet>) {
    && t.packets == |qs|
    && t.bytes == Bytes(qs)
    && FirstTransport(qs, t.transport)
    && PortsKept(qs, t.srcPorts)
    && Earliest(qs, t.first) && Latest(qs, t.last)
    && t.times == (if |Epochs(qs)| <= 5000 then Epochs(qs) else Epochs(qs)[..5000])
  }

  // ---- one more packet ----

  lemma BytesSnoc(qs: seq<Packet>, p: Packet)
    ensures Bytes(qs + [p]) == Bytes(qs) + p.length
    ensures Epochs(qs + [p]) == Epochs(qs) + (if p.epoch.Some? then [p.epoch.value] else [])
  {
    assert (qs + [p])[..|qs|] == qs;
  }

  lemma TransportSnoc(qs: seq<Packet>, p: Packet, transport: string)
    requires FirstTransport(qs, transport)
    ensures FirstTransport(qs + [p], if p.transport != "" && transport == "" then p.transport else transport)
  {
    var all := qs + [p];
    assert all[|qs|] == p && forall i :: 0 <= i < |qs| ==> all[i] == qs[i];
    if transport != "" {
      var i :| 0 <= i < |qs| && qs[i].transport == transport && forall j :: 0 <= j < i ==> qs[j].transport == "";
      assert all[i].transport == transport;
    }
  }

  lemma SourcePortsSnoc(qs: seq<Packet>, p: Packet)
    ensures SourcePorts(qs + [p]) == SourcePorts(qs) + (if p.srcPort != 0 then {p.srcPort} else {})
  {
    var all := qs + [p];
    assert all[|qs|] == p && forall i :: 0 <= i < |qs| ==> all[i] == qs[i];
    forall x ensures x in SourcePorts(all) <==> x in SourcePorts(qs) || (p.srcPort != 0 && x == p.srcPort) {
      if x in SourcePorts(qs) {
        var i :| 0 <= i < |qs| && qs[i].srcPort != 0 && qs[i].srcPort == x;
        assert all[i].srcPort == x;
      }
      if p.srcPort != 0 && x == p.srcPort {
        assert all[|qs|].srcPort == x;
      }
    }
  }

  lemma PortsSnoc(qs: seq<Packet>, p: Packet, ports: set<nat>)
    requires PortsKept(qs, ports)
    ensures PortsKept(qs + [p], if p.srcPort != 0 && |ports| < 100 then ports + {p.srcPort} else ports)
  {
    SourcePortsSnoc(qs, p);
    hide SourcePorts;
    if p.srcPort in ports {
      assert ports + {p.srcPort} == ports;
    }
  }

  lemma LatestSnoc(qs: seq<Packet>, p: Packet, last: string)
    requires if qs == [] then last == "" else Latest(qs, last)
    ensures Latest(qs + [p], if last == "" || Text.Less(last, p.time) then p.time else last)
  {
    var all, last' := qs + [p], if last == "" || Text.Less(last, p.time) then p.time else last;
    assert all[|qs|] == p && forall i :: 0 <= i < |qs| ==> all[i] == qs[i];
    forall i | 0 <= i < |all| ensures !Text.Less(last', all[i].time) {
      Text.Orders(last, p.time, all[i].time);
      Text.Total(last, p.time);
      Text.Irreflexive(p.time);
    }
    if qs != [] && last' == last {
      var i :| 0 <= i < |qs| && qs[i].time == last;
      assert all[i].time == last;
    }
  }

  lemma LeastSnoc(qs: seq<Packet>, p: Packet, first: string)
    requires AllTimed(qs) && LeastOf(qs, first) && p.time != ""
    ensures LeastOf(qs + [p], if first == "" || Text.Less(p.time, first) then p.time else first)
  {
    var all, first' := qs + [p], if first == "" || Text.Less(p.time, first) then p.time else first;
    assert all[|qs|] == p && forall i :: 0 <= i < |qs| ==> all[i] == qs[i];
    forall i | 0 <= i < |all| ensures !Text.Less(all[i].time, first') {
      Text.Orders(first, p.time, all[i].time);
      Text.Irreflexive(p.time);
    }
    if qs != [] && first' == first {
      var i :| 0 <= i < |qs| && qs[i].time == first;
      assert all[i].time == first;
    }
  }

  lemma EarliestSnoc(qs: seq<Packet>, p: Packet, first: string)
    requires Earliest(qs, first)
    ensures Earliest(qs + [p], if first == "" || Text.Less(p.time, first) then p.time else first)
  {
    var all := qs + [p];
    if p.time == "" {
      assert all[|all|..] == [] && all[|all| - 1] == p;
    } else {
      var n :| 0 <= n <= |qs| && (n > 0 ==> qs[n - 1].time == "") && AllTimed(qs[n..]) && LeastOf(qs[n..], first);
      LeastSnoc(qs[n..], p, first);
      TimedSnoc(qs[n..], p);
      hide AllTimed, LeastOf, Text.Less;
      assert all[n..] == qs[n..] + [p];
      assert n > 0 ==> all[n - 1] == qs[n - 1];
    }
  }

  lemma TimedSnoc(qs: seq<Packet>, p: Packet)
    requires AllTimed(qs) && p.time != ""
    ensures AllTimed(qs + [p])
  {
  }

  ghost predicate TellsOrEmpty(t: Tally, qs: seq<Packet>) {
    if qs == [] then t == EMPTY else Tells(t, qs)
  }

  lemma NothingHeld()
    ensures FirstTransport([], "") && PortsKept([], {}) && Earliest([], "") && Bytes([]) == 0 && Epochs([]) == []
  {
    var none: seq<Packet> := [];
    assert none[0..] == [] && AllTimed(none[0..]) && LeastOf(none[0..], "");
  }

  lemma OneMore(t: Tally, qs: seq<Packet>, p: Packet)
    requires TellsOrEmpty(t, qs)
    ensures Tells(Absorb(t, p), qs + [p])
  {
    hide FirstTransport, PortsKept, Earliest, Latest, Text.Less, Bytes, Epochs;
    if qs == [] {
      NothingHeld();
    }
    BytesSnoc(qs, p);
    TransportSnoc(qs, p, t.transport);
    PortsSnoc(qs, p, t.srcPorts);
    EarliestSnoc(qs, p, t.first);
    LatestSnoc(qs, p, t.last);
    TimesCapped(Epochs(qs), p.epoch);
  }

  lemma TimesCapped(es: seq<real>, e: Option<real>)
    ensures var held := if |es| <= 5000 then es else es[..5000];
            var all := es + (if e.Some? then [e.value] else []);
            (if e.Some? && |held| < 5000 then held + [e.value] else held) ==
            (if |all| <= 5000 then all else all[..5000])
  {
  }

  // ---- all packets ----

  lemma SamePorts(threshold: int, ps: seq<Packet>, src: string, dst: string, transport: string)
    requires threshold > 0 && transport != ""
    ensures PairPorts(threshold, ps, Pair(src, dst, transport)) == PortsSeen(ps, src, dst, transport)
  {
    forall i: nat | i < |ps|
      ensures ps[i].Tracked(threshold) && ps[i].PairKey() == Pair(src, dst, transport) <==>
                Whole(ps[i]) && ps[i].srcMac == src && ps[i].dstMac == dst && ps[i].transport == transport
                && ps[i].port > 0
    {
    }
  }

  lemma ScanExact(threshold: int, ps: seq<Packet>)
    requires ps != [] && Whole(ps[|ps| - 1])
    ensures Collapses(After(threshold, ps[..|ps| - 1]), threshold, ps[|ps| - 1]) <==> Scans(threshold, ps)
  {
    var i, p := |ps| - 1, ps[|ps| - 1];
    CollapsedExactly(threshold, ps, i);
    assert ps[..i + 1] == ps;
    if threshold > 0 && p.transport != "" {
      SamePorts(threshold, ps, p.srcMac, p.dstMac, p.transport);
    }
    hide PairPorts, PortsSeen, Collapses, After;
    assert CollapsedAt(threshold, ps, i) <==> Scans(threshold, ps);
  }

  lemma KeyExact(threshold: int, ps: seq<Packet>, k: Key)
    requires ps != [] && Whole(ps[|ps| - 1])
    ensures KeyFor(After(threshold, ps[..|ps| - 1]), threshold, ps[|ps| - 1]) == k <==> Belongs(threshold, ps, k)
  {
    ScanExact(threshold, ps);
    hide Scans, Collapses, After, Belongs, KeyFor;
    AsKey(After(threshold, ps[..|ps| - 1]), threshold, ps, k);
  }

  lemma AsKey(s: State, threshold: int, ps: seq<Packet>, k: Key)
    requires ps != [] && Whole(ps[|ps| - 1])
    requires Collapses(s, threshold, ps[|ps| - 1]) <==> Scans(threshold, ps)
    ensures KeyFor(s, threshold, ps[|ps| - 1]) == k <==> Belongs(threshold, ps, k)
  {
    hide Collapses, Scans;
  }

  /**
   Every conversation holds exactly the packets that belong to it, those from its source to its destination in its
   protocol and on its port that are no part of a scan, and all parts of scans for a port-scan one; it exists exactly
   when there is such a packet, and it tells how many they are, their bytes, transport, source ports, first and last
   time and epochs.
   */
  lemma {:induction false} ConversationsExact(threshold: int, ps: seq<Packet>, k: Key)
    ensures var s, qs := After(threshold, ps), Held(threshold, ps, k);
            && (k in s.convs <==> qs != [])
            && (k in s.convs ==> Tells(s.convs[k], qs))
  {
    if ps != [] {
      var init, p := ps[..|ps| - 1], ps[|ps| - 1];
      ConversationsExact(threshold, init, k);
      var s, qs := After(threshold, init), Held(threshold, init, k);
      assert (p.Counted() <==> Whole(p)) && qs + [] == qs;
      hide Tells, Absorb, KeyFor, Belongs, Track, Collapses, Whole;
      if Whole(p) {
        KeyExact(threshold, ps, k);
        if Belongs(threshold, ps, k) {
          OneMore(if k in s.convs then s.convs[k] else EMPTY, qs, p);
        }
      } else {
        NotWhole(threshold, ps, k);
      }
    }
  }

  lemma NotWhole(threshold: int, ps: seq<Packet>, k: Key)
    requires ps != [] && !Whole(ps[|ps| - 1])
    ensures !Belongs(threshold, ps, k)
  {
  }

  function Incomplete(ps: seq<Packet>): nat {
    if ps == [] then 0 else Incomplete(ps[..|ps| - 1]) + (if Whole(ps[|ps| - 1]) then 0 else 1)
  }

  function Scanning(threshold: int, ps: seq<Packet>): nat {
    if ps == [] then 0
    else Scanning(threshold, ps[..|ps| - 1]) + (if Whole(ps[|ps| - 1]) && Scans(threshold, ps) then 1 else 0)
  }

  /** The counters: all packets, those skipped as incomplete, and those that are part of a scan. */
  lemma {:induction false} CountersExact(threshold: int, ps: seq<Packet>)
    ensures var s := After(threshold, ps);
            s.packets == |ps| && s.skipped == Incomplete(ps) && s.collapsed == Scanning(threshold, ps)
  {
    if ps != [] {
      var init, p := ps[..|ps| - 1], ps[|ps| - 1];
      CountersExact(threshold, init);
      assert p.Counted() <==> Whole(p);
      if Whole(p) {
        ScanExact(threshold, ps);
      }
      hide Whole, Scans, Collapses, Absorb, Track, KeyFor;
    }
  }
}
