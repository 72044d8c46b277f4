/**
 The longitudinal profile of one asset: what is seen of it in each report that shows it, what the latest
 report has that no earlier one had, and what changed since the report before. Text and addresses are taken
 normalised; `findings` and `anomalies` are the categories and types of those that concern the asset.
 */
module Baselines {
  import opened Wrappers
  import opened KeyedFold
  import opened Unordered
  import opened Text

  datatype Conv = Conv(protocol: string, srcIp: string, dstIp: string, srcMac: string, dstMac: string, packets: int)

  datatype Presence = Presence(file: string, ts: string, ip: string, mac: string, protocols: set<string>,
                               convs: seq<Conv>, findings: seq<string>, anomalies: seq<string>)

  /** The IP address at the other end of a conversation of the asset. */
  function PeerOf(p: Presence, c: Conv): Option<string> {
    if p.ip != "" && c.srcIp == p.ip && c.dstIp != "" then Some(c.dstIp)
    else if p.ip != "" && c.dstIp == p.ip && c.srcIp != "" then Some(c.srcIp)
    else if p.mac != "" && c.srcMac == p.mac && c.dstIp != "" then Some(c.dstIp)
    else if p.mac != "" && c.dstMac == p.mac && c.srcIp != "" then Some(c.srcIp)
    else None
  }

  predicate Involves(p: Presence, c: Conv) {
    || (p.ip != "" && (c.srcIp == p.ip || c.dstIp == p.ip))
    || (p.mac != "" && (c.srcMac == p.mac || c.dstMac == p.mac))
  }

  // ---- sightings ----

  datatype Stamp = Stamp(ts: string, file: string)

  /** When a thing was first and last seen, and how much of it. */
  datatype Seen = Seen(first: Stamp, last: Stamp, total: int)

  type Sighting = Item<string, Seen>

  predicate Before(a: Stamp, b: Stamp) {
    Less(a.ts, b.ts) || (a.ts == b.ts && Less(a.file, b.file))
  }

  function JoinSeen(a: Seen, b: Seen): Seen {
    Seen(if Before(b.first, a.first) then b.first else a.first,
         if Before(a.last, b.last) then b.last else a.last,
         a.total + b.total)
  }

  function StampOf(p: Presence): Stamp { Stamp(p.ts, p.file) }

  function SightingOf(p: Presence, key: string, amount: int): Sighting {
    Item(key, Seen(StampOf(p), StampOf(p), amount))
  }

  function PeerIn(p: Presence, c: Conv): seq<Sighting> {
    match PeerOf(p, c)
    case None => []
    case Some(peer) => [SightingOf(p, peer, c.packets)]
  }

  function PeersIn(p: Presence, cs: seq<Conv>): seq<Sighting> {
    if cs == [] then [] else PeersIn(p, cs[..|cs| - 1]) + PeerIn(p, cs[|cs| - 1])
  }

  function NamesIn(p: Presence, names: seq<string>): seq<Sighting> {
    if names == [] then [] else NamesIn(p, names[..|names| - 1]) + [SightingOf(p, names[|names| - 1], 1)]
  }

  function Peers(p: Presence): seq<Sighting> { PeersIn(p, p.convs) }
  function Findings(p: Presence): seq<Sighting> { NamesIn(p, p.findings) }
  function Anomalies(p: Presence): seq<Sighting> { NamesIn(p, p.anomalies) }

  function KeysIn(xs: seq<Sighting>): set<string> {
    if xs == [] then {} else KeysIn(xs[..|xs| - 1]) + {xs[|xs| - 1].key}
  }

  /** The protocols of an asset are those of its node, and those of its conversations. */
  function ProtocolsIn(p: Presence, cs: seq<Conv>): set<string> {
    if cs == [] then p.protocols
    else
      var c := cs[|cs| - 1];
      ProtocolsIn(p, cs[..|cs| - 1]) + (if c.protocol != "" && Involves(p, c) then {c.protocol} else {})
  }

  datatype Kind = Protocols | PeerIps | Categories | AnomalyTypes

  function Sightings(kind: Kind): Presence -> seq<Sighting> {
    match kind
    case Protocols => (p: Presence) => []
    case PeerIps => Peers
    case Categories => Findings
    case AnomalyTypes => Anomalies
  }

  /** What a report shows of the asset, by kind. */
  function Shown(kind: Kind, p: Presence): set<string> {
    if kind == Protocols then ProtocolsIn(p, p.convs) else KeysIn(Sightings(kind)(p))
  }

  function Union(kind: Kind, ps: seq<Presence>): set<string> {
    if ps == [] then {} else Union(kind, ps[..|ps| - 1]) + Shown(kind, ps[|ps| - 1])
  }

  /** What any report but the latest shows. */
  function Baseline(kind: Kind, ps: seq<Presence>): set<string>
    requires ps != []
  {
    Union(kind, ps[..|ps| - 1])
  }

  function Latest(kind: Kind, ps: seq<Presence>): set<string>
    requires ps != []
  {
    Shown(kind, ps[|ps| - 1])
  }

  function History(kind: Kind, ps: seq<Presence>): seq<Sighting> {
    Merged(JoinSeen, Flat(Sightings(kind), ps))
  }

  datatype Delta = Delta(added: set<string>, removed: set<string>, previousCount: nat, lastCount: nat)

  function DeltaOf(previous: set<string>, last: set<string>): Delta {
    Delta(last - previous, previous - last, |previous|, |last|)
  }

  /** The change since the report before, a missing one counting as empty. */
  function Change(kind: Kind, ps: seq<Presence>): Delta
    requires ps != []
  {
    DeltaOf(if |ps| >= 2 then Shown(kind, ps[|ps| - 2]) else {}, Latest(kind, ps))
  }

  function NewIn(kind: Kind, ps: seq<Presence>): set<string>
    requires ps != []
  {
    Latest(kind, ps) - Baseline(kind, ps)
  }

  function LostIn(kind: Kind, ps: seq<Presence>): set<string>
    requires ps != []
  {
    Baseline(kind, ps) - Latest(kind, ps)
  }

  // ---- the two histories kept in another way ----

  /** One report's entry in the history of a protocol. */
  datatype Appearance = Appearance(at: Stamp, packets: int)

  /** The packets of the asset's conversations of a protocol. */
  function PacketsOf(p: Presence, cs: seq<Conv>, protocol: string): int {
    if cs == [] then 0
    else
      var c := cs[|cs| - 1];
      PacketsOf(p, cs[..|cs| - 1], protocol) +
            (if c.protocol == protocol && protocol != "" && Involves(p, c) then c.packets else 0)
  }

  function AppearanceOf(p: Presence, protocol: string): Appearance {
    Appearance(StampOf(p), PacketsOf(p, p.convs, protocol))
  }

  /** The appearances of a protocol, report by report. */
  function Appearances(ps: seq<Presence>, protocol: string): seq<Appearance> {
    if ps == [] then []
    else
      var p := ps[|ps| - 1];
      Appearances(ps[..|ps| - 1], protocol) +
            (if protocol in Shown(Protocols, p) then [AppearanceOf(p, protocol)] else [])
  }

  /** The names of the files whose reports show a peer. */
  function FilesWith(ps: seq<Presence>, peer: string): set<string> {
    if ps == [] then {}
    else
      var p := ps[|ps| - 1];
      FilesWith(ps[..|ps| - 1], peer) + (if peer in Shown(PeerIps, p) then {p.file} else {})
  }

  // ---- the computation ----

  method ShowPeers(p: Presence, held: seq<Sighting>) returns (shown: set<string>, history: seq<Sighting>)
    ensures shown == Shown(PeerIps, p) && history == Into(JoinSeen, held, Peers(p))
  {
    hide PeerOf, JoinSeen;
    shown, history := {}, held;
    for i := 0 to |p.convs|
      invariant shown == KeysIn(PeersIn(p, p.convs[..i]))
      invariant history == Into(JoinSeen, held, PeersIn(p, p.convs[..i]))
    {
      assert p.convs[..i + 1][..i] == p.convs[..i];
      ghost var before := PeersIn(p, p.convs[..i]);
      assert PeersIn(p, p.convs[..i + 1]) == before + PeerIn(p, p.convs[i]);
      match PeerOf(p, p.convs[i]) {
        case None =>
          assert before + [] == before;
        case Some(peer) =>
          var x := SightingOf(p, peer, p.convs[i].packets);
          OneMore(held, before, x);
          shown := shown + {peer};
          history := Put(JoinSeen, history, x);
      }
    }
    assert p.convs[..|p.convs|] == p.convs;
  }

  lemma OneMore(held: seq<Sighting>, before: seq<Sighting>, x: Sighting)
    ensures KeysIn(before + [x]) == KeysIn(before) + {x.key}
    ensures Into(JoinSeen, held, before + [x]) == Put(JoinSeen, Into(JoinSeen, held, before), x)
  {
    assert (before + [x])[..|before|] == before;
  }

  method ShowNames(p: Presence, names: seq<string>, held: seq<Sighting>)
    returns (shown: set<string>, history: seq<Sighting>)
    ensures shown == KeysIn(NamesIn(p, names)) && history == Into(JoinSeen, held, NamesIn(p, names))
  {
    shown, history := {}, held;
    for i := 0 to |names|
      invariant shown == KeysIn(NamesIn(p, names[..i]))
      invariant history == Into(JoinSeen, held, NamesIn(p, names[..i]))
    {
      assert names[..i + 1][..i] == names[..i];
      var x := SightingOf(p, names[i], 1);
      OneMore(held, NamesIn(p, names[..i]), x);
      shown := shown + {names[i]};
      history := Put(JoinSeen, history, x);
    }
    assert names[..|names|] == names;
  }

  method ShowProtocols(p: Presence) returns (shown: set<string>)
    ensures shown == Shown(Protocols, p)
  {
    shown := p.protocols;
    for i := 0 to |p.convs|
      invariant shown == ProtocolsIn(p, p.convs[..i])
    {
      assert p.convs[..i + 1][..i] == p.convs[..i];
      var c := p.convs[i];
      if c.protocol != "" && Involves(p, c) {
        shown := shown + {c.protocol};
      }
    }
    assert p.convs[..|p.convs|] == p.convs;
  }

  method Show(kind: Kind, p: Presence, held: seq<Sighting>) returns (shown: set<string>, history: seq<Sighting>)
    ensures shown == Shown(kind, p) && history == Into(JoinSeen, held, Sightings(kind)(p))
  {
    match kind {
      case Protocols =>
        shown := ShowProtocols(p);
        history := held;
      case PeerIps => shown, history := ShowPeers(p, held);
      case Categories => shown, history := ShowNames(p, p.findings, held);
      case AnomalyTypes => shown, history := ShowNames(p, p.anomalies, held);
    }
  }

  lemma HistoryNext(kind: Kind, ps: seq<Presence>, i: nat)
    requires i < |ps|
    ensures History(kind, ps[..i + 1]) == Into(JoinSeen, History(kind, ps[..i]), Sightings(kind)(ps[i]))
    ensures Baseline(kind, ps[..i + 1]) == if i == 0 then {} else Baseline(kind, ps[..i]) + Latest(kind, ps[..i])
    ensures Latest(kind, ps[..i + 1]) == Shown(kind, ps[i])
  {
    hide Shown, Sightings;
    assert ps[..i + 1][..i] == ps[..i];
    IntoConcat(JoinSeen, [], Flat(Sightings(kind), ps[..i]), Sightings(kind)(ps[i]));
  }

  datatype Profile = Profile(novel: set<string>, lost: set<string>, change: Delta, history: seq<Sighting>)

  method Compute(kind: Kind, ps: seq<Presence>) returns (profile: Option<Profile>)
    ensures profile == if ps == [] then None
                       else Some(Profile(NewIn(kind, ps), LostIn(kind, ps), Change(kind, ps), History(kind, ps)))
  {
    if ps == [] {
      return None;
    }
    var baseline: set<string>, latest: set<string>, previous: set<string>, history := {}, {}, {}, [];
    for i := 0 to |ps|
      invariant history == History(kind, ps[..i])
      invariant i == 0 ==> baseline == {} && latest == {} && previous == {}
      invariant i > 0 ==> baseline == Baseline(kind, ps[..i]) && latest == Latest(kind, ps[..i])
      invariant i > 0 ==> previous == if i >= 2 then Shown(kind, ps[i - 2]) else {}
    {
      HistoryNext(kind, ps, i);
      var shown, more := Show(kind, ps[i], history);
      baseline, previous, latest, history := baseline + latest, latest, shown, more;
    }
    assert ps[..|ps|] == ps;
    profile := Some(Profile(latest - baseline, baseline - latest, DeltaOf(previous, latest), history));
  }

  /** The conversations of one report, counted by protocol. */
  method CountPackets(p: Presence) returns (counts: map<string, int>)
    ensures Shown(Protocols, p) == p.protocols + counts.Keys
    ensures forall k :: k !in counts ==> PacketsOf(p, p.convs, k) == 0
    ensures forall k :: k in counts ==> counts[k] == PacketsOf(p, p.convs, k)
  {
    counts := map[];
    for i := 0 to |p.convs|
      invariant ProtocolsIn(p, p.convs[..i]) == p.protocols + counts.Keys
      invariant forall k :: k !in counts ==> PacketsOf(p, p.convs[..i], k) == 0
      invariant forall k :: k in counts ==> counts[k] == PacketsOf(p, p.convs[..i], k)
    {
      assert p.convs[..i + 1][..i] == p.convs[..i];
      var c := p.convs[i];
      if c.protocol != "" && Involves(p, c) {
        counts := counts[c.protocol := (if c.protocol in counts then counts[c.protocol] else 0) + c.packets];
      }
    }
    assert p.convs[..|p.convs|] == p.convs;
  }

  /** `history` holds the appearances, and only those protocols that appeared. */
  ghost predicate Holding(history: map<string, seq<Appearance>>, ps: seq<Presence>) {
    forall k :: if k in history then history[k] == Appearances(ps, k) && history[k] != [] else Appearances(ps, k) == []
  }

  method Append(history: map<string, seq<Appearance>>, p: Presence, counts: map<string, int>, names: set<string>)
    returns (longer: map<string, seq<Appearance>>)
    ensures longer.Keys == history.Keys + names
    ensures forall k :: k in history && k !in names ==> longer[k] == history[k]
    ensures forall k :: k in names ==>
              longer[k] == (if k in history then history[k] else [])
                           + [Appearance(StampOf(p), if k in counts then counts[k] else 0)]
  {
    var left := names;
    longer := history;
    while left != {}
      invariant left <= names && longer.Keys == history.Keys + (names - left)
      invariant forall k :: k in history && k !in names - left ==> longer[k] == history[k]
      invariant forall k :: k in names - left ==>
              longer[k] == (if k in history then history[k] else [])
                           + [Appearance(StampOf(p), if k in counts then counts[k] else 0)]
      decreases left
    {
      var k :| k in left;
      var x := Appearance(StampOf(p), if k in counts then counts[k] else 0);
      longer, left := longer[k := (if k in history then history[k] else []) + [x]], left - {k};
    }
  }

  /** The protocol history: for every protocol ever shown, its appearances in the order of the reports. */
  method ProtocolHistory(ps: seq<Presence>) returns (history: map<string, seq<Appearance>>)
    ensures Holding(history, ps)
  {
    history := map[];
    for i := 0 to |ps|
      invariant Holding(history, ps[..i])
    {
      assert ps[..i + 1][..i] == ps[..i];
      ghost var before := history;
      var counts := CountPackets(ps[i]);
      history := Append(history, ps[i], counts, ps[i].protocols + counts.Keys);
      forall k
        ensures if k in history then history[k] == Appearances(ps[..i + 1], k) && history[k] != []
                else Appearances(ps[..i + 1], k) == []
      {
        NextAppearance(ps, i, k);
        assert k in history <==> k in before || k in Shown(Protocols, ps[i]);
      }
    }
    assert ps[..|ps|] == ps;
  }

  lemma NextAppearance(ps: seq<Presence>, i: nat, k: string)
    requires i < |ps|
    ensures Appearances(ps[..i + 1], k) ==
              Appearances(ps[..i], k) + (if k in Shown(Protocols, ps[i]) then [AppearanceOf(ps[i], k)] else [])
  {
    assert ps[..i + 1][..i] == ps[..i];
  }

  /** The number of reports a peer is in: of the different file names among them. */
  method PeerReports(ps: seq<Presence>, peer: string) returns (n: nat)
    ensures n == |FilesWith(ps, peer)|
  {
    var files: set<string> := {};
    for i := 0 to |ps|
      invariant files == FilesWith(ps[..i], peer)
    {
      assert ps[..i + 1][..i] == ps[..i];
      var shown, _ := ShowPeers(ps[i], []);
      if peer in shown {
        files := files + {ps[i].file};
      }
    }
    assert ps[..|ps|] == ps;
    n := |files|;
  }
}
