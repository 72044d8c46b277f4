/**
 What an asset's profile means: novelty against change, first and last sightings, and what the counts count.
 */
module BaselineFacts {
  import opened Wrappers
  import opened KeyedFold
  import opened Unordered
  import opened Text
  import opened Baselines

  /** The reports that show a thing of the asset. */
  function ReportsWith(kind: Kind, ps: seq<Presence>, k: string): nat {
    if ps == [] then 0
    else ReportsWith(kind, ps[..|ps| - 1], k) + (if k in Shown(kind, ps[|ps| - 1]) then 1 else 0)
  }

  /** The findings or anomalies a report lists for the asset. */
  function Names(kind: Kind, p: Presence): seq<string> {
    match kind
    case Categories => p.findings
    case AnomalyTypes => p.anomalies
    case _ => []
  }

  /** Is the asset at an end with these addresses? */
  predicate At(p: Presence, ip: string, mac: string) {
    (p.ip != "" && ip == p.ip) || (p.mac != "" && mac == p.mac)
  }

  /** A conversation shows a peer exactly when the asset is at one end and the other end's IP address is known. */
  lemma PeerExact(p: Presence, c: Conv)
    ensures PeerOf(p, c).Some? <==>
          (At(p, c.srcIp, c.srcMac) && c.dstIp != "") || (At(p, c.dstIp, c.dstMac) && c.srcIp != "")
    ensures PeerOf(p, c).Some? ==>
              || (At(p, c.srcIp, c.srcMac) && PeerOf(p, c) == Some(c.dstIp) && c.dstIp != "")
              || (At(p, c.dstIp, c.dstMac) && PeerOf(p, c) == Some(c.srcIp) && c.srcIp != "")
    ensures PeerOf(p, c).Some? ==> Involves(p, c)
  {
  }

  // ---- what a report shows ----

  /** The conversation has the asset at one end, by its IP address or by its MAC address. */
  predicate Touches(p: Presence, c: Conv) {
    At(p, c.srcIp, c.srcMac) || At(p, c.dstIp, c.dstMac)
  }

  /** The peer of a conversation: the known address at the other end, the asset's IP address deciding before its MAC
      address, and the source before the destination. */
  predicate PeerBy(p: Presence, c: Conv, peer: string) {
    peer != "" &&
    if p.ip != "" && c.srcIp == p.ip && c.dstIp != "" then peer == c.dstIp
    else if p.ip != "" && c.dstIp == p.ip && c.srcIp != "" then peer == c.srcIp
    else if p.mac != "" && c.srcMac == p.mac && c.dstIp != "" then peer == c.dstIp
    else p.mac != "" && c.dstMac == p.mac && peer == c.srcIp
  }

  lemma {:induction false} ProtocolsExact(p: Presence, cs: seq<Conv>, k: string)
    ensures k in ProtocolsIn(p, cs) <==>
              k in p.protocols || (k != "" && exists c :: c in cs && c.protocol == k && Touches(p, c))
  {
    if cs != [] {
      ProtocolsExact(p, cs[..|cs| - 1], k);
      assert cs == cs[..|cs| - 1] + [cs[|cs| - 1]];
    }
  }

  lemma {:induction false} PeersExact(p: Presence, cs: seq<Conv>, k: string)
    ensures k in KeysIn(PeersIn(p, cs)) <==> exists c :: c in cs && PeerBy(p, c, k)
  {
    if cs != [] {
      var init, c := cs[..|cs| - 1], cs[|cs| - 1];
      PeersExact(p, init, k);
      assert cs == init + [c];
      KeysConcat(PeersIn(p, init), PeerIn(p, c));
      assert PeerBy(p, c, k) <==> PeerOf(p, c) == Some(k);
      match PeerOf(p, c) {
        case None =>
        case Some(peer) => assert [SightingOf(p, peer, c.packets)][..0] == [];
      }
    }
  }

  lemma {:induction false} NamesExact(p: Presence, names: seq<string>, k: string)
    ensures k in KeysIn(NamesIn(p, names)) <==> k in names
  {
    if names != [] {
      NamesExact(p, names[..|names| - 1], k);
      assert names == names[..|names| - 1] + [names[|names| - 1]];
    }
  }

  /** What a report shows of the asset: the protocols of its node and of its conversations, its peers, the findings and
      the anomalies that concern it. */
  lemma ShownExact(kind: Kind, p: Presence, k: string)
    ensures k in Shown(kind, p) <==>
              match kind
              case Protocols =>
                k in p.protocols || (k != "" && exists c :: c in p.convs && c.protocol == k && Touches(p, c))
              case PeerIps => exists c :: c in p.convs && PeerBy(p, c, k)
              case Categories => k in p.findings
              case AnomalyTypes => k in p.anomalies
  {
    ProtocolsExact(p, p.convs, k);
    PeersExact(p, p.convs, k);
    NamesExact(p, p.findings, k);
    NamesExact(p, p.anomalies, k);
  }

  function PacketsIn(p: Presence, cs: seq<Conv>, k: string): int {
    if cs == [] then 0
    else (if cs[0].protocol == k && k != "" && Touches(p, cs[0]) then cs[0].packets else 0) + PacketsIn(p, cs[1..], k)
  }

  lemma {:induction false} PacketsSnoc(p: Presence, cs: seq<Conv>, c: Conv, k: string)
    ensures PacketsIn(p, cs + [c], k) ==
              PacketsIn(p, cs, k) + (if c.protocol == k && k != "" && Touches(p, c) then c.packets else 0)
  {
    if cs == [] {
      assert cs + [c] == [c] && [c][1..] == [];
    } else {
      assert (cs + [c])[1..] == cs[1..] + [c];
      PacketsSnoc(p, cs[1..], c, k);
    }
  }

  /** An appearance gives the packets of the asset's conversations in the protocol. */
  lemma {:induction false} PacketsExact(p: Presence, cs: seq<Conv>, k: string)
    ensures PacketsOf(p, cs, k) == PacketsIn(p, cs, k)
  {
    if cs != [] {
      PacketsExact(p, cs[..|cs| - 1], k);
      PacketsSnoc(p, cs[..|cs| - 1], cs[|cs| - 1], k);
      assert cs == cs[..|cs| - 1] + [cs[|cs| - 1]];
    }
  }

  // ---- novelty and change ----

  lemma {:induction false} GetMerged(xs: seq<Sighting>, k: string)
    ensures Get(Merged(JoinSeen, xs), k).Some? <==> k in KeysIn(xs)
  {
    if xs != [] {
      GetMerged(xs[..|xs| - 1], k);
      GetPut(JoinSeen, Merged(JoinSeen, xs[..|xs| - 1]), xs[|xs| - 1], k);
    }
  }

  lemma {:induction false} KeysConcat(xs: seq<Sighting>, ys: seq<Sighting>)
    ensures KeysIn(xs + ys) == KeysIn(xs) + KeysIn(ys)
  {
    if ys == [] {
      assert xs + ys == xs;
    } else {
      assert (xs + ys)[..|xs + ys| - 1] == xs + ys[..|ys| - 1];
      KeysConcat(xs, ys[..|ys| - 1]);
    }
  }

  lemma {:induction false} FlatKeys(kind: Kind, ps: seq<Presence>)
    requires kind != Protocols
    ensures KeysIn(Flat(Sightings(kind), ps)) == Union(kind, ps)
  {
    if ps != [] {
      FlatKeys(kind, ps[..|ps| - 1]);
      KeysConcat(Flat(Sightings(kind), ps[..|ps| - 1]), Sightings(kind)(ps[|ps| - 1]));
    }
  }

  lemma {:induction false} Appears(ps: seq<Presence>, k: string)
    ensures Appearances(ps, k) != [] <==> k in Union(Protocols, ps)
    ensures |Appearances(ps, k)| == ReportsWith(Protocols, ps, k)
  {
    if ps != [] {
      Appears(ps[..|ps| - 1], k);
    }
  }

  /** The history of the kind has an entry for the key. */
  predicate InHistory(kind: Kind, ps: seq<Presence>, k: string) {
    if kind == Protocols then Appearances(ps, k) != [] else Get(History(kind, ps), k).Some?
  }

  /** What is in the history, of whatever kind, is flagged new (no baseline report has it) exactly when it is listed as
      new. */
  lemma FlaggedWhenListed(kind: Kind, ps: seq<Presence>, k: string)
    requires ps != []
    ensures InHistory(kind, ps, k) && k !in Baseline(kind, ps) <==> k in NewIn(kind, ps)
    ensures InHistory(kind, ps, k) <==> k in Baseline(kind, ps) + Latest(kind, ps)
  {
    if kind == Protocols {
      Appears(ps, k);
    } else {
      GetMerged(Flat(Sightings(kind), ps), k);
      FlatKeys(kind, ps);
    }
  }

  /** A protocol is flagged new exactly when its whole history is one appearance, in the latest report. */
  lemma NewProtocol(ps: seq<Presence>, k: string)
    requires ps != []
    ensures k in NewIn(Protocols, ps) <==>
              k in Latest(Protocols, ps) && Appearances(ps, k) == [AppearanceOf(ps[|ps| - 1], k)]
  {
    Appears(ps[..|ps| - 1], k);
    Appears(ps, k);
  }

  predicate AppearsAt(ps: seq<Presence>, k: string, i: nat)
    requires i < |ps|
  {
    k in Shown(Protocols, ps[i])
  }

  /** The history of a protocol has, in the order of the reports, one appearance for each report that shows it. */
  lemma {:induction false} ProtocolHistoryExact(ps: seq<Presence>, k: string, i: nat)
    requires i < |ps| && AppearsAt(ps, k, i)
    ensures var n := ReportsWith(Protocols, ps[..i], k);
            n < |Appearances(ps, k)| == ReportsWith(Protocols, ps, k) && Appearances(ps, k)[n] == AppearanceOf(ps[i], k)
  {
    var init := ps[..|ps| - 1];
    Appears(ps, k);
    Appears(init, k);
    if i < |init| {
      assert init[..i] == ps[..i];
      ProtocolHistoryExact(init, k, i);
    }
  }

  lemma Sizes(a: set<string>, b: set<string>)
    ensures |a - b| + |b| == |b - a| + |a|
  {
    assert a == (a - b) + a * b && b == (b - a) + a * b;
    assert |a| == |a - b| + |a * b| && |b| == |b - a| + |a * b|;
  }

  /** The change turns the report before into the latest one, in contents and in counts. */
  lemma ChangeApplies(kind: Kind, ps: seq<Presence>)
    requires ps != []
    ensures var d := Change(kind, ps);
            var previous := if |ps| >= 2 then Shown(kind, ps[|ps| - 2]) else {};
            && (previous - d.removed) + d.added == Latest(kind, ps)
            && d.added !! d.removed && d.removed <= previous
            && d.lastCount == d.previousCount - |d.removed| + |d.added|
  {
    Sizes(if |ps| >= 2 then Shown(kind, ps[|ps| - 2]) else {}, Latest(kind, ps));
  }

  /**
   What is new against the whole baseline was added since the report before, and what was removed since then
   is lost; the converses hold exactly when no older report showed what came back, or showed what is still gone.
   */
  lemma NoveltyAndChange(kind: Kind, ps: seq<Presence>)
    requires |ps| >= 2
    ensures var earlier := Union(kind, ps[..|ps| - 2]);
            var d := Change(kind, ps);
            && NewIn(kind, ps) <= d.added && d.removed <= LostIn(kind, ps)
            && (NewIn(kind, ps) == d.added <==> d.added !! earlier)
            && (LostIn(kind, ps) == d.removed <==> earlier - Latest(kind, ps) <= Shown(kind, ps[|ps| - 2]))
  {
    assert ps[..|ps| - 1][..|ps| - 2] == ps[..|ps| - 2];
    var earlier, previous, last := Union(kind, ps[..|ps| - 2]), Shown(kind, ps[|ps| - 2]), Latest(kind, ps);
    assert Baseline(kind, ps) == earlier + previous;
    NewOrBack(earlier, previous, last);
  }

  lemma NewOrBack(earlier: set<string>, previous: set<string>, last: set<string>)
    ensures last - (earlier + previous) == last - previous <==> (last - previous) !! earlier
    ensures (earlier + previous) - last == previous - last <==> earlier - last <= previous
  {
    if last - (earlier + previous) == last - previous {
      forall x | x in last - previous ensures x !in earlier {
        assert x in last - (earlier + previous);
      }
    }
    if (earlier + previous) - last == previous - last {
      forall x | x in earlier - last ensures x in previous {
        assert x in (earlier + previous) - last;
      }
    }
  }

  // ---- first and last ----

  lemma BeforeOrders(a: Stamp, b: Stamp, c: Stamp)
    ensures !(Before(a, b) && Before(b, a)) && (a == b || Before(a, b) || Before(b, a))
    ensures Before(a, b) && Before(b, c) ==> Before(a, c)
  {
    Text.Total(a.ts, b.ts);
    Text.Total(a.file, b.file);
    Orders(a.ts, b.ts, c.ts);
    Orders(a.file, b.file, c.file);
  }

  /** Every instance of the order laws over three stamps. */
  lemma StampOrders(a: Stamp, b: Stamp, c: Stamp)
    ensures !(Before(a, b) && Before(b, a)) && !(Before(b, c) && Before(c, b)) && !(Before(a, c) && Before(c, a))
    ensures (a == b || Before(a, b) || Before(b, a)) && (b == c || Before(b, c) || Before(c, b))
    ensures a == c || Before(a, c) || Before(c, a)
    ensures Before(a, b) && Before(b, c) ==> Before(a, c)
    ensures Before(c, b) && Before(b, a) ==> Before(c, a)
  {
    BeforeOrders(a, b, c);
    BeforeOrders(b, c, a);
    BeforeOrders(c, b, a);
    BeforeOrders(a, c, b);
  }

  lemma JoinSeenLaws()
    ensures Associative(JoinSeen) && Commutative(JoinSeen)
  {
    forall a: Seen, b: Seen ensures JoinSeen(a, b) == JoinSeen(b, a) {
      StampOrders(a.first, b.first, b.first);
      StampOrders(a.last, b.last, b.last);
    }
    forall a: Seen, b: Seen, c: Seen ensures JoinSeen(JoinSeen(a, b), c) == JoinSeen(a, JoinSeen(b, c)) {
      StampOrders(a.first, b.first, c.first);
      StampOrders(a.last, b.last, c.last);
    }
  }

  /** First and last sightings and totals do not depend on the order of the reports. */
  lemma HistoryOrderIrrelevant(kind: Kind, ps: seq<Presence>, qs: seq<Presence>, k: string)
    requires multiset(ps) == multiset(qs)
    ensures Get(History(kind, ps), k) == Get(History(kind, qs), k)
  {
    JoinSeenLaws();
    OrderIrrelevant(JoinSeen, Sightings(kind), ps, qs, k);
  }

  function SumFor(xs: seq<Sighting>, k: string): int {
    if xs == [] then 0
    else SumFor(xs[..|xs| - 1], k) + (if xs[|xs| - 1].key == k then xs[|xs| - 1].value.total else 0)
  }

  ghost predicate SeenAt(xs: seq<Sighting>, k: string, s: Stamp) {
    exists i :: 0 <= i < |xs| && xs[i].key == k && xs[i].value.first == s && xs[i].value.last == s
  }

  ghost predicate Instants(xs: seq<Sighting>) {
    forall i :: 0 <= i < |xs| ==> xs[i].value.first == xs[i].value.last
  }

  ghost predicate Spans(v: Seen, xs: seq<Sighting>, k: string) {
    && SeenAt(xs, k, v.first) && SeenAt(xs, k, v.last)
    && forall i :: 0 <= i < |xs| && xs[i].key == k ==>
          !Before(xs[i].value.first, v.first) && !Before(v.last, xs[i].value.last)
  }

  lemma SeenLonger(xs: seq<Sighting>, x: Sighting, k: string, s: Stamp)
    requires SeenAt(xs, k, s)
    ensures SeenAt(xs + [x], k, s)
  {
    var i :| 0 <= i < |xs| && xs[i].key == k && xs[i].value.first == s && xs[i].value.last == s;
    assert (xs + [x])[i] == xs[i];
  }

  lemma SpansNext(v: Seen, xs: seq<Sighting>, x: Sighting)
    requires Spans(v, xs, x.key) && x.value.first == x.value.last
    ensures Spans(JoinSeen(v, x.value), xs + [x], x.key)
  {
    var all := xs + [x];
    assert all[|xs|] == x;
    SeenLonger(xs, x, x.key, v.first);
    SeenLonger(xs, x, x.key, v.last);
    assert SeenAt(all, x.key, x.value.first);
    var w := JoinSeen(v, x.value);
    forall i | 0 <= i < |all| && all[i].key == x.key
      ensures !Before(all[i].value.first, w.first) && !Before(w.last, all[i].value.last)
    {
      if i < |xs| {
        assert all[i] == xs[i];
      }
      StampOrders(all[i].value.first, v.first, x.value.first);
      StampOrders(all[i].value.last, v.last, x.value.last);
    }
  }

  // An entry's first and last sightings are the earliest and the latest, and its total adds them all up.
  lemma {:induction false} EntryExact(xs: seq<Sighting>, k: string)
    requires Instants(xs)
    ensures match Get(Merged(JoinSeen, xs), k)
            case None => SumFor(xs, k) == 0
            case Some(v) => Spans(v, xs, k) && v.total == SumFor(xs, k)
  {
    if xs != [] {
      var init, x := xs[..|xs| - 1], xs[|xs| - 1];
      EntryExact(init, k);
      GetPut(JoinSeen, Merged(JoinSeen, init), x, k);
      assert xs == init + [x];
      match Get(Merged(JoinSeen, init), k) {
        case None =>
          GetMerged(init, k);
          if x.key == k {
            Alone(init, x);
          }
        case Some(v) =>
          if x.key == k {
            SpansNext(v, init, x);
          } else {
            SpansOther(v, init, x, k);
          }
      }
    }
  }

  lemma SpansOther(v: Seen, xs: seq<Sighting>, x: Sighting, k: string)
    requires Spans(v, xs, k) && x.key != k
    ensures Spans(v, xs + [x], k)
  {
    SeenLonger(xs, x, k, v.first);
    SeenLonger(xs, x, k, v.last);
  }

  lemma {:induction false} NoneBefore(xs: seq<Sighting>, k: string, i: nat)
    requires i < |xs| && k !in KeysIn(xs)
    ensures xs[i].key != k
  {
    if i < |xs| - 1 {
      NoneBefore(xs[..|xs| - 1], k, i);
    }
  }

  lemma Alone(xs: seq<Sighting>, x: Sighting)
    requires x.key !in KeysIn(xs) && x.value.first == x.value.last
    ensures Spans(x.value, xs + [x], x.key)
  {
    var all := xs + [x];
    assert all[|xs|] == x;
    forall i | 0 <= i < |all| && all[i].key == x.key ensures all[i] == x {
      if i < |xs| {
        NoneBefore(xs, x.key, i);
      }
    }
    StampOrders(x.value.first, x.value.first, x.value.first);
  }

  lemma {:induction false} PeersInstant(p: Presence, cs: seq<Conv>)
    ensures Instants(PeersIn(p, cs))
  {
    if cs != [] {
      PeersInstant(p, cs[..|cs| - 1]);
    }
  }

  lemma {:induction false} NamesInstant(p: Presence, names: seq<string>)
    ensures Instants(NamesIn(p, names))
  {
    if names != [] {
      NamesInstant(p, names[..|names| - 1]);
    }
  }

  lemma {:induction false} AllInstant(kind: Kind, ps: seq<Presence>)
    ensures Instants(Flat(Sightings(kind), ps))
  {
    if ps != [] {
      AllInstant(kind, ps[..|ps| - 1]);
      var p := ps[|ps| - 1];
      PeersInstant(p, p.convs);
      NamesInstant(p, p.findings);
      NamesInstant(p, p.anomalies);
    }
  }

  /**
   Every entry of a history gives the earliest and the latest sighting of its key, in that order, and the
   sum of what was seen of it.
   */
  lemma HistoryExact(kind: Kind, ps: seq<Presence>, k: string)
    ensures var xs := Flat(Sightings(kind), ps);
            match Get(History(kind, ps), k)
            case None => SumFor(xs, k) == 0
            case Some(v) => Spans(v, xs, k) && !Before(v.last, v.first) && v.total == SumFor(xs, k)
  {
    var xs := Flat(Sightings(kind), ps);
    AllInstant(kind, ps);
    EntryExact(xs, k);
    match Get(History(kind, ps), k) {
      case None =>
      case Some(v) =>
        var i :| 0 <= i < |xs| && xs[i].key == k && xs[i].value.first == v.first && xs[i].value.last == v.first;
        assert !Before(v.last, xs[i].value.last);
    }
  }

  // ---- findings are counted, not reports ----

  function Times(names: seq<string>, k: string): nat {
    if names == [] then 0 else Times(names[..|names| - 1], k) + (if names[|names| - 1] == k then 1 else 0)
  }

  lemma {:induction false} NamesSum(p: Presence, names: seq<string>, k: string)
    ensures SumFor(NamesIn(p, names), k) == Times(names, k)
    ensures k in KeysIn(NamesIn(p, names)) <==> Times(names, k) > 0
  {
    if names != [] {
      NamesSum(p, names[..|names| - 1], k);
    }
  }

  lemma {:induction false} SumForConcat(xs: seq<Sighting>, ys: seq<Sighting>, k: string)
    ensures SumFor(xs + ys, k) == SumFor(xs, k) + SumFor(ys, k)
  {
    if ys == [] {
      assert xs + ys == xs;
    } else {
      assert (xs + ys)[..|xs + ys| - 1] == xs + ys[..|ys| - 1];
      SumForConcat(xs, ys[..|ys| - 1], k);
    }
  }

  predicate OnceEach(kind: Kind, ps: seq<Presence>, k: string) {
    ps == [] || (OnceEach(kind, ps[..|ps| - 1], k) && Times(Names(kind, ps[|ps| - 1]), k) <= 1)
  }

  lemma {:induction false} ReportsBelow(kind: Kind, ps: seq<Presence>, k: string)
    requires kind == Categories || kind == AnomalyTypes
    ensures ReportsWith(kind, ps, k) <= SumFor(Flat(Sightings(kind), ps), k)
    ensures ReportsWith(kind, ps, k) == SumFor(Flat(Sightings(kind), ps), k) <==> OnceEach(kind, ps, k)
  {
    if ps != [] {
      var init, p := ps[..|ps| - 1], ps[|ps| - 1];
      ReportsBelow(kind, init, k);
      NamesSum(p, Names(kind, p), k);
      SumForConcat(Flat(Sightings(kind), init), Sightings(kind)(p), k);
    }
  }

  /** The number of reports a finding or an anomaly is said to be in counts how often it is listed: it is right exactly
      when no report lists it twice. */
  lemma InReports(kind: Kind, ps: seq<Presence>, k: string)
    requires kind == Categories || kind == AnomalyTypes
    ensures match Get(History(kind, ps), k)
            case None => ReportsWith(kind, ps, k) == 0
            case Some(v) =>
              ReportsWith(kind, ps, k) <= v.total && (v.total == ReportsWith(kind, ps, k) <==> OnceEach(kind, ps, k))
  {
    HistoryExact(kind, ps, k);
    ReportsBelow(kind, ps, k);
  }

  /** One report that lists a category or an anomaly twice for the asset: it counts as two reports. */
  lemma CountedTwice(kind: Kind, p: Presence, k: string)
    requires (kind == Categories || kind == AnomalyTypes) && Names(kind, p) == [k] + [k]
    ensures ReportsWith(kind, [p], k) == 1
    ensures Get(History(kind, [p]), k).Some? && Get(History(kind, [p]), k).value.total == 2
  {
    var ps, items := [p], Sightings(kind);
    assert ps[..|ps| - 1] == [];
    TwoTimes(k);
    NamesSum(p, Names(kind, p), k);
    HistoryExact(kind, ps, k);
    assert Flat(items, ps) == Flat(items, []) + items(p) == items(p);
  }

  lemma TwoTimes(k: string)
    ensures Times([k] + [k], k) == 2
  {
    var one, two := [k], [k] + [k];
    assert one[..|one| - 1] == [] && two[..|two| - 1] == one;
    assert Times(one, k) == 1;
  }

  // ---- peers are counted by file ----

  predicate ShowsPeer(ps: seq<Presence>, peer: string, i: nat)
    requires i < |ps|
  {
    peer in Shown(PeerIps, ps[i])
  }

  /** No two reports that show the peer have one file name. */
  predicate OwnFiles(ps: seq<Presence>, peer: string) {
    forall i, j :: 0 <= i < j < |ps| && ShowsPeer(ps, peer, i) && ShowsPeer(ps, peer, j) ==> ps[i].file != ps[j].file
  }

  lemma {:induction false} FilesMean(ps: seq<Presence>, peer: string, file: string)
    ensures file in FilesWith(ps, peer) <==> exists i :: 0 <= i < |ps| && ShowsPeer(ps, peer, i) && ps[i].file == file
  {
    if ps != [] {
      var init, p := ps[..|ps| - 1], ps[|ps| - 1];
      FilesMean(init, peer, file);
      hide Shown;
      var last := |ps| - 1;
      assert ShowsPeer(ps, peer, last) <==> peer in Shown(PeerIps, p);
      if i :| 0 <= i < |init| && ShowsPeer(init, peer, i) && init[i].file == file {
        assert ShowsPeer(ps, peer, i) && ps[i].file == file;
      }
      if i :| 0 <= i < last && ShowsPeer(ps, peer, i) && ps[i].file == file {
        assert ShowsPeer(init, peer, i) && init[i].file == file;
      }
    }
  }

  lemma OwnFilesNext(ps: seq<Presence>, peer: string)
    requires ps != []
    ensures var init, p := ps[..|ps| - 1], ps[|ps| - 1];
            OwnFiles(ps, peer) <==>
              OwnFiles(init, peer) && (peer in Shown(PeerIps, p) ==> p.file !in FilesWith(init, peer))
  {
    hide Shown, FilesWith;
    var init, p := ps[..|ps| - 1], ps[|ps| - 1];
    FilesMean(init, peer, p.file);
    assert forall i: nat :: i < |init| ==> init[i] == ps[i] && ShowsPeer(init, peer, i) == ShowsPeer(ps, peer, i);
    assert ShowsPeer(ps, peer, |ps| - 1) == (peer in Shown(PeerIps, p));
  }

  /** The number of reports a peer is said to be in is right exactly when those reports have different file names. */
  lemma {:induction false} PeerReportsExact(ps: seq<Presence>, peer: string)
    ensures |FilesWith(ps, peer)| <= ReportsWith(PeerIps, ps, peer)
    ensures |FilesWith(ps, peer)| == ReportsWith(PeerIps, ps, peer) <==> OwnFiles(ps, peer)
  {
    if ps != [] {
      var init, p := ps[..|ps| - 1], ps[|ps| - 1];
      PeerReportsExact(init, peer);
      OwnFilesNext(ps, peer);
      if p.file in FilesWith(init, peer) {
        assert FilesWith(init, peer) + {p.file} == FilesWith(init, peer);
      }
    }
  }
}
