/**
 Purdue levels: presets from subnets, broadcast and public addresses, then two passes over the nodes. The
 second pass asks whether a node converses with a device the first pass placed at levels 0 to 2.
 */
module Purdue {
  import opened Wrappers
  import opened KeyedFold
  import opened TopologyGraph
  import opened TopologyIntegrity
  import B = TopologyBuilder

  /** What the address tables say: the level of the first subnet holding a key, broadcast and public
      addresses, and the names of OT protocols. */
  datatype Policy = Policy(mapped: map<string, int>, broadcast: set<string>, external: set<string>, ot: set<string>)

  datatype Pass = Subnets | Broadcasts | Publics | First | Second

  const UNKNOWN := -1

  predicate SpeaksOt(p: Policy, n: Node) {
    exists x :: x in n.protocols && x in p.ot
  }

  function Entries(ix: Index, k: string): seq<nat> {
    if k in ix then ix[k] else []
  }

  /** Does some conversation filed under `k` have an OT device's key at its other end? Peer keys are the
      conversations' own, not where a merge sent them. */
  predicate TalksTo(g: Graph, cs: seq<Conversation>, devices: set<string>, k: string) {
    || (exists i :: i in Entries(g.bySrc, k) && i < |cs| && cs[i].Dst() in devices)
    || (exists i :: i in Entries(g.byDst, k) && i < |cs| && cs[i].Src() in devices)
  }

  /** The level a pass leaves on one node. */
  function LevelAfter(pass: Pass, p: Policy, k: string, n: Node, speaks: bool, talks: bool): int {
    match pass
    case Subnets => if k in p.mapped then p.mapped[k] else n.level
    case Broadcasts => if k in p.broadcast then UNKNOWN else n.level
    case Publics => if n.level == UNKNOWN && k in p.external then 5 else n.level
    case First =>
      if n.level != UNKNOWN || !speaks then n.level
      else if n.responds && !n.initiates then 1
      else if n.initiates then 2
      else UNKNOWN
    case Second =>
      if n.level != UNKNOWN then n.level
      else if n.responds && !n.initiates then (if talks then 2 else 4)
      else if n.initiates then (if talks then 3 else 4)
      else UNKNOWN
  }

  function Devices(nodes: Nodes): set<string> {
    set k | k in nodes && nodes[k].level in {0, 1, 2}
  }

  function SweptNode(g: Graph, cs: seq<Conversation>, p: Policy, pass: Pass, devices: set<string>, k: string): Node
    requires k in g.nodes
  {
    var n := g.nodes[k];
    n.(level := LevelAfter(pass, p, k, n, SpeaksOt(p, n), TalksTo(g, cs, devices, k)))
  }

  function Swept(g: Graph, cs: seq<Conversation>, p: Policy, pass: Pass, devices: set<string>): Graph {
    g.(nodes := map k | k in g.nodes ::
         SweptNode(g, cs, p, pass, devices, k))
  }

  function BeforeSecond(g: Graph, cs: seq<Conversation>, p: Policy): Graph {
    Swept(Swept(Swept(Swept(g, cs, p, Subnets, {}), cs, p, Broadcasts, {}), cs, p, Publics, {}), cs, p, First, {})
  }

  function Levelled(g: Graph, cs: seq<Conversation>, p: Policy): Graph {
    var first := BeforeSecond(g, cs, p);
    Swept(first, cs, p, Second, Devices(first.nodes))
  }

  // ---- the inference as the program runs it ----

  method Talks(b: B.Builder, devices: set<string>, k: string) returns (talks: bool)
    ensures talks == TalksTo(b.Model(), b.conversations, devices, k)
  {
    talks := AnyWith(Entries(b.bySrc, k), b.conversations, Target, devices);
    if !talks {
      talks := AnyWith(Entries(b.byDst, k), b.conversations, Source, devices);
    }
  }

  method AnyWith(filed: seq<nat>, cs: seq<Conversation>, end: Side, devices: set<string>) returns (found: bool)
    ensures found <==> exists i :: i in filed && i < |cs| && cs[i].End(end) in devices
  {
    for j := 0 to |filed|
      invariant forall i :: 0 <= i < j ==> !(filed[i] < |cs| && cs[filed[i]].End(end) in devices)
    {
      var i := filed[j];
      if i < |cs| && cs[i].End(end) in devices {
        return true;
      }
    }
    found := false;
  }

  /** One loop over the nodes, each of which it rewrites in place. */
  method Sweep(b: B.Builder, p: Policy, pass: Pass, devices: set<string>)
    modifies b`nodes
    ensures b.Model() == Swept(old(b.Model()), b.conversations, p, pass, devices)
  {
    hide SweptNode;
    ghost var g := b.Model();
    var left := b.nodes.Keys;
    while left != {}
      invariant left <= g.nodes.Keys && b.nodes.Keys == g.nodes.Keys
      invariant forall k :: k in left ==> b.nodes[k] == g.nodes[k]
      invariant forall k :: k in g.nodes && k !in left ==>
        b.nodes[k] == SweptNode(g, b.conversations, p, pass, devices, k)
      decreases left
    {
      var k :| k in left;
      SweptNodeLocal(b.Model(), g, b.conversations, p, pass, devices, k);
      SweepNode(b, p, pass, devices, k);
      left := left - {k};
    }
  }

  lemma SweptNodeLocal(g: Graph, h: Graph, cs: seq<Conversation>, p: Policy, pass: Pass, devices: set<string>,
        k: string)
    requires k in g.nodes && k in h.nodes && g.nodes[k] == h.nodes[k] && g.bySrc == h.bySrc && g.byDst == h.byDst
    ensures SweptNode(g, cs, p, pass, devices, k) == SweptNode(h, cs, p, pass, devices, k)
  {
    TalksIgnoresNodes(g, h, cs, devices, k);
  }

  method SweepNode(b: B.Builder, p: Policy, pass: Pass, devices: set<string>, k: string)
    requires k in b.nodes
    modifies b`nodes
    ensures b.nodes == old(b.nodes)[k := SweptNode(old(b.Model()), b.conversations, p, pass, devices, k)]
  {
    var talks := Talks(b, devices, k);
    var n := b.nodes[k];
    b.nodes := b.nodes[k := n.(level := LevelAfter(pass, p, k, n, SpeaksOt(p, n), talks))];
  }

  lemma TalksIgnoresNodes(g: Graph, h: Graph, cs: seq<Conversation>, devices: set<string>, k: string)
    requires g.bySrc == h.bySrc && g.byDst == h.byDst
    ensures TalksTo(g, cs, devices, k) == TalksTo(h, cs, devices, k)
  {
  }

  method InferLevels(b: B.Builder, p: Policy)
    modifies b`nodes
    ensures b.Model() == Levelled(old(b.Model()), b.conversations, p)
  {
    Sweep(b, p, Subnets, {});
    Sweep(b, p, Broadcasts, {});
    Sweep(b, p, Publics, {});
    Sweep(b, p, First, {});
    var devices := Devices(b.nodes);
    Sweep(b, p, Second, devices);
  }

  // ---- what the levels mean ----

  ghost predicate Unlevelled(g: Graph) {
    forall k :: k in g.nodes ==> g.nodes[k].level == UNKNOWN
  }

  lemma {:induction false} BuiltUnlevelled(cs: seq<Conversation>)
    ensures forall k :: k in NodesOf(cs) ==> NodesOf(cs)[k].level == UNKNOWN
  {
    if cs != [] {
      BuiltUnlevelled(cs[..|cs| - 1]);
    }
  }

  lemma {:induction false} MergedUnlevelled(g: Graph, keys: seq<string>, table: map<string, string>)
    requires Unlevelled(g)
    ensures Unlevelled(MergeAll(g, keys, table))
  {
    if keys != [] {
      MergedUnlevelled(g, keys[..|keys| - 1], table);
    }
  }

  /** The level a key has before the first pass. */
  function Preset(p: Policy, k: string): int {
    var level := if k in p.mapped && k !in p.broadcast then p.mapped[k] else UNKNOWN;
    if level == UNKNOWN && k in p.external then 5 else level
  }

  /** The level the first pass leaves a key with, given whether its node speaks an OT protocol. */
  function FirstLevel(p: Policy, k: string, n: Node, speaks: bool): int {
    if Preset(p, k) != UNKNOWN then Preset(p, k)
    else if !speaks then UNKNOWN
    else if n.responds && !n.initiates then 1
    else if n.initiates then 2
    else UNKNOWN
  }

  function FinalLevel(p: Policy, k: string, n: Node, speaks: bool, talks: bool): int {
    var first := FirstLevel(p, k, n, speaks);
    if first != UNKNOWN then first
    else if n.responds && !n.initiates then (if talks then 2 else 4)
    else if n.initiates then (if talks then 3 else 4)
    else UNKNOWN
  }

  /** The keys the first pass leaves at level 0, 1 or 2. */
  function OtKeys(g: Graph, p: Policy): set<string> {
    set k | k in g.nodes && FirstLevel(p, k, g.nodes[k], SpeaksOt(p, g.nodes[k])) in {0, 1, 2}
  }

  function Level(g: Graph, cs: seq<Conversation>, p: Policy, k: string): int
    requires k in g.nodes
  {
    FinalLevel(p, k, g.nodes[k], SpeaksOt(p, g.nodes[k]), TalksTo(g, cs, OtKeys(g, p), k))
  }

  // The sweeps compute these levels: first one node through the first four of them ...
  lemma FirstFour(g: Graph, cs: seq<Conversation>, p: Policy, k: string)
    requires k in g.nodes && g.nodes[k].level == UNKNOWN
    ensures var first, n := BeforeSecond(g, cs, p), g.nodes[k];
            k in first.nodes && first.nodes[k] == n.(level := FirstLevel(p, k, n, SpeaksOt(p, n)))
  {
    var n, speaks := g.nodes[k], SpeaksOt(p, g.nodes[k]);
    var n1 := Early(g, cs, p, Subnets, k, speaks);
    var n2 := Early(Swept(g, cs, p, Subnets, {}), cs, p, Broadcasts, k, speaks);
    var n3 := Early(Swept(Swept(g, cs, p, Subnets, {}), cs, p, Broadcasts, {}), cs, p, Publics, k, speaks);
    var n4 := Early(Swept(Swept(Swept(g, cs, p, Subnets, {}), cs, p, Broadcasts, {}), cs, p, Publics, {}),
                    cs, p, First, k, speaks);
    EarlyLevels(p, k, n, speaks);
  }

  // The four levels a node goes through, with everything but the level left alone.
  lemma EarlyLevels(p: Policy, k: string, n: Node, speaks: bool)
    requires n.level == UNKNOWN
    ensures var n1 := n.(level := LevelAfter(Subnets, p, k, n, speaks, false));
            var n2 := n1.(level := LevelAfter(Broadcasts, p, k, n1, speaks, false));
            var n3 := n2.(level := LevelAfter(Publics, p, k, n2, speaks, false));
            n3.(level := LevelAfter(First, p, k, n3, speaks, false)) == n.(level := FirstLevel(p, k, n, speaks))
  {
  }

  lemma Early(g: Graph, cs: seq<Conversation>, p: Policy, pass: Pass, k: string, speaks: bool) returns (n: Node)
    requires pass != Second && k in g.nodes && speaks == SpeaksOt(p, g.nodes[k])
    ensures k in Swept(g, cs, p, pass, {}).nodes && n == Swept(g, cs, p, pass, {}).nodes[k]
    ensures n == g.nodes[k].(level := LevelAfter(pass, p, k, g.nodes[k], speaks, false))
    ensures SpeaksOt(p, n) == speaks
  {
    n := Relevelled(g, cs, p, pass, {}, k, speaks);
  }

  lemma Relevelled(g: Graph, cs: seq<Conversation>, p: Policy, pass: Pass, devices: set<string>, k: string,
        speaks: bool)
    returns (n: Node)
    requires k in g.nodes && speaks == SpeaksOt(p, g.nodes[k])
    ensures k in Swept(g, cs, p, pass, devices).nodes && n == Swept(g, cs, p, pass, devices).nodes[k]
    ensures n == g.nodes[k].(level := LevelAfter(pass, p, k, g.nodes[k], speaks, TalksTo(g, cs, devices, k)))
    ensures SpeaksOt(p, n) == speaks
  {
    n := Swept(g, cs, p, pass, devices).nodes[k];
    assert n.protocols == g.nodes[k].protocols;
  }

  /** ... and then all of them: the program's five loops leave exactly the levels defined above. */
  lemma LevelsComputed(g: Graph, cs: seq<Conversation>, p: Policy, k: string)
    requires Unlevelled(g) && k in g.nodes
    ensures k in Levelled(g, cs, p).nodes
    ensures Levelled(g, cs, p).nodes[k] == g.nodes[k].(level := Level(g, cs, p, k))
  {
    hide Swept, FinalLevel, BeforeSecond, FirstLevel, TalksTo, OtKeys;
    var first := BeforeSecond(g, cs, p);
    FirstFour(g, cs, p, k);
    DevicesAreOtKeys(g, cs, p);
    BeforeKeepsIndex(g, cs, p);
    var speaks := SpeaksOt(p, g.nodes[k]);
    assert first.nodes[k].protocols == g.nodes[k].protocols;
    assert SpeaksOt(p, first.nodes[k]) == speaks;
    var n := Relevelled(first, cs, p, Second, Devices(first.nodes), k, speaks);
    TalksIgnoresNodes(first, g, cs, OtKeys(g, p), k);
    SecondFinishes(p, k, g.nodes[k], speaks, TalksTo(g, cs, OtKeys(g, p), k));
  }

  lemma BeforeKeepsIndex(g: Graph, cs: seq<Conversation>, p: Policy)
    ensures BeforeSecond(g, cs, p).bySrc == g.bySrc && BeforeSecond(g, cs, p).byDst == g.byDst
  {
  }

  lemma SecondFinishes(p: Policy, k: string, n: Node, speaks: bool, talks: bool)
    ensures LevelAfter(Second, p, k, n.(level := FirstLevel(p, k, n, speaks)), speaks, talks)
            == FinalLevel(p, k, n, speaks, talks)
  {
  }

  lemma DevicesAreOtKeys(g: Graph, cs: seq<Conversation>, p: Policy)
    requires Unlevelled(g)
    ensures Devices(BeforeSecond(g, cs, p).nodes) == OtKeys(g, p)
  {
    var first := BeforeSecond(g, cs, p);
    forall k ensures k in Devices(first.nodes) <==> k in OtKeys(g, p) {
      DeviceIsOtKey(g, cs, p, k);
    }
  }

  lemma DeviceIsOtKey(g: Graph, cs: seq<Conversation>, p: Policy, k: string)
    requires Unlevelled(g)
    ensures k in Devices(BeforeSecond(g, cs, p).nodes) <==> k in OtKeys(g, p)
  {
    assert k in BeforeSecond(g, cs, p).nodes <==> k in g.nodes;
    if k in g.nodes {
      FirstFour(g, cs, p, k);
    }
  }

  /** Every node ends with a level. */
  lemma EveryNodeLevelled(g: Graph, cs: seq<Conversation>, home: Homes, p: Policy, k: string)
    requires NodesLinked(g, cs, home) && RolesLinked(g, cs, Source, home) && RolesLinked(g, cs, Target, home)
    requires k in g.nodes
    ensures Level(g, cs, p, k) != UNKNOWN
  {
    assert Ends(home, cs, k);
    var i: nat, s :| Sits(home, cs, s, i, k);
    assert g.nodes[k].Plays(Source) || g.nodes[k].Plays(Target);
  }

  /** Conversation `i` has `k` at home on side `s` and an OT device's key on the other. */
  predicate Meets(cs: seq<Conversation>, home: Homes, devices: set<string>, k: string, s: Side, i: nat) {
    Sits(home, cs, s, i, k) && cs[i].End(Opposite(s)) in devices
  }

  function Opposite(s: Side): Side { if s.Source? then Target else Source }

  ghost predicate Converses(cs: seq<Conversation>, home: Homes, devices: set<string>, k: string) {
    exists i: nat, s :: Meets(cs, home, devices, k, s, i)
  }

  lemma TalksMeans(g: Graph, cs: seq<Conversation>, home: Homes, devices: set<string>, k: string)
    requires IndexLinked(g, cs, Source, home) && IndexLinked(g, cs, Target, home)
    ensures TalksTo(g, cs, devices, k) <==> Converses(cs, home, devices, k)
  {
    FiledMeans(g, cs, Source, home, devices, k);
    FiledMeans(g, cs, Target, home, devices, k);
  }

  lemma FiledMeans(g: Graph, cs: seq<Conversation>, s: Side, home: Homes, devices: set<string>, k: string)
    requires IndexLinked(g, cs, s, home)
    ensures forall i: nat :: Meets(cs, home, devices, k, s, i) <==>
              i in Entries(g.By(s), k) && i < |cs| && cs[i].End(Opposite(s)) in devices
  {
    forall i: nat ensures i in Entries(g.By(s), k) <==> Sits(home, cs, s, i, k) {
    }
  }

  /** A level-3 node was put there by its subnet, or converses with a device the first pass placed at 0 to 2. */
  lemma LevelThreeTalks(g: Graph, cs: seq<Conversation>, home: Homes, p: Policy, k: string)
    requires IndexLinked(g, cs, Source, home) && IndexLinked(g, cs, Target, home) && k in g.nodes
    requires Level(g, cs, p, k) == 3
    ensures Preset(p, k) == 3 || Converses(cs, home, OtKeys(g, p), k)
  {
    TalksMeans(g, cs, home, OtKeys(g, p), k);
  }

  /**
   A node left to the second pass ends at level 4 exactly when no conversation filed under it names, by the
   conversation's own key, a device of the first pass at its other end.
   */
  lemma LevelFourExact(g: Graph, cs: seq<Conversation>, home: Homes, p: Policy, k: string)
    requires NodesLinked(g, cs, home) && RolesLinked(g, cs, Source, home) && RolesLinked(g, cs, Target, home)
    requires IndexLinked(g, cs, Source, home) && IndexLinked(g, cs, Target, home)
    requires k in g.nodes && FirstLevel(p, k, g.nodes[k], SpeaksOt(p, g.nodes[k])) == UNKNOWN
    ensures Level(g, cs, p, k) == 4 <==> !Converses(cs, home, OtKeys(g, p), k)
  {
    EveryNodeLevelled(g, cs, home, p, k);
    TalksMeans(g, cs, home, OtKeys(g, p), k);
  }

  /**
   Separation. If a conversation joins a level-0 or level-1 node to a level-4 node, then the latter's level was
   dictated by its subnet, or the former holds the conversation only through a merge.
   */
  lemma Separation(g: Graph, cs: seq<Conversation>, home: Homes, p: Policy, i: nat, s: Side)
    requires NodesLinked(g, cs, home) && IndexLinked(g, cs, Source, home) && IndexLinked(g, cs, Target, home)
    requires i < |cs|
    ensures var low, high := Home(home, cs[i].End(s)), Home(home, cs[i].End(Opposite(s)));
            && low in g.nodes && high in g.nodes
            && (Level(g, cs, p, low) in {0, 1} && Level(g, cs, p, high) == 4 ==>
                  Preset(p, high) == 4 || low != cs[i].End(s))
  {
    var t := Opposite(s);
    var low, high := Home(home, cs[i].End(s)), Home(home, cs[i].End(t));
    assert Sits(home, cs, s, i, low) && Sits(home, cs, t, i, high);
    assert Ends(home, cs, low) && Ends(home, cs, high);
    var devices := OtKeys(g, p);
    if low in devices && low == cs[i].End(s) {
      assert Meets(cs, home, devices, high, t, i);
      TalksMeans(g, cs, home, devices, high);
      TalkersStayBelowFour(g, cs, p, high);
    } else if Level(g, cs, p, low) in {0, 1} {
      LowLevelsAreDevices(g, cs, p, low);
    }
  }

  lemma TalkersStayBelowFour(g: Graph, cs: seq<Conversation>, p: Policy, k: string)
    requires k in g.nodes && TalksTo(g, cs, OtKeys(g, p), k)
    ensures Level(g, cs, p, k) == 4 ==> Preset(p, k) == 4
  {
  }

  lemma LowLevelsAreDevices(g: Graph, cs: seq<Conversation>, p: Policy, k: string)
    requires k in g.nodes && Level(g, cs, p, k) in {0, 1}
    ensures k in OtKeys(g, p)
  {
  }

  function FirstOf(g: Graph, p: Policy, k: string): int
    requires k in g.nodes
  {
    FirstLevel(p, k, g.nodes[k], SpeaksOt(p, g.nodes[k]))
  }

  /** A conversation joins level 0 or 1 to level 4 exactly when the first pass left these levels on its ends'
      homes, or left the second unknown with no conversation naming a device. */
  lemma SeparationExact(g: Graph, cs: seq<Conversation>, home: Homes, p: Policy, i: nat, s: Side)
    requires NodesLinked(g, cs, home) && RolesLinked(g, cs, Source, home) && RolesLinked(g, cs, Target, home)
    requires IndexLinked(g, cs, Source, home) && IndexLinked(g, cs, Target, home)
    requires i < |cs|
    ensures var low, high := Home(home, cs[i].End(s)), Home(home, cs[i].End(Opposite(s)));
            && low in g.nodes && high in g.nodes
            && (Level(g, cs, p, low) in {0, 1} && Level(g, cs, p, high) == 4 <==>
                  FirstOf(g, p, low) in {0, 1} &&
                  (FirstOf(g, p, high) == 4 ||
                   (FirstOf(g, p, high) == UNKNOWN && !Converses(cs, home, OtKeys(g, p), high))))
  {
    var low, high := Home(home, cs[i].End(s)), Home(home, cs[i].End(Opposite(s)));
    assert Sits(home, cs, s, i, low) && Sits(home, cs, Opposite(s), i, high);
    assert Ends(home, cs, low) && Ends(home, cs, high);
    LowFromFirst(g, cs, p, low);
    if FirstOf(g, p, high) == UNKNOWN {
      LevelFourExact(g, cs, home, p, high);
    } else {
      KnownStays(g, cs, p, high);
    }
  }

  lemma LowFromFirst(g: Graph, cs: seq<Conversation>, p: Policy, k: string)
    requires k in g.nodes
    ensures Level(g, cs, p, k) in {0, 1} <==> FirstOf(g, p, k) in {0, 1}
  {
  }

  lemma KnownStays(g: Graph, cs: seq<Conversation>, p: Policy, k: string)
    requires k in g.nodes && FirstOf(g, p, k) != UNKNOWN
    ensures Level(g, cs, p, k) == FirstOf(g, p, k)
  {
  }

  // ---- the cross-level check ----

  function LevelIn(nodes: Nodes, k: string): int {
    if k in nodes then nodes[k].level else UNKNOWN
  }

  predicate Crosses(a: int, b: int) {
    (a in {0, 1} && b >= 3) || (a >= 3 && b in {0, 1})
  }

  predicate Violates(nodes: Nodes, e: Edge) {
    e.key.src in nodes && e.key.dst in nodes && Crosses(nodes[e.key.src].level, nodes[e.key.dst].level)
  }

  function Crossing(nodes: Nodes, edges: seq<Edge>): seq<(string, string)> {
    if edges == [] then []
    else
      var e := edges[|edges| - 1];
      Crossing(nodes, edges[..|edges| - 1]) + (if Violates(nodes, e) then [(e.key.src, e.key.dst)] else [])
  }

  /** One end is a node at level 0 or 1 and the other one at level 3 or above. */
  predicate Apart(nodes: Nodes, a: string, b: string) {
    && a in nodes && b in nodes
    && (((nodes[a].level == 0 || nodes[a].level == 1) && 3 <= nodes[b].level)
        || ((nodes[b].level == 0 || nodes[b].level == 1) && 3 <= nodes[a].level))
  }

  predicate Joins(e: Edge, v: (string, string)) {
    e.key.src == v.0 && e.key.dst == v.1
  }

  function ApartCount(nodes: Nodes, edges: seq<Edge>): nat {
    if edges == [] then 0
    else ApartCount(nodes, edges[1..]) + (if Apart(nodes, edges[0].key.src, edges[0].key.dst) then 1 else 0)
  }

  lemma {:induction false} ApartCountSnoc(nodes: Nodes, edges: seq<Edge>, e: Edge)
    ensures ApartCount(nodes, edges + [e]) ==
              ApartCount(nodes, edges) + (if Apart(nodes, e.key.src, e.key.dst) then 1 else 0)
  {
    hide Apart;
    if edges == [] {
      assert edges + [e] == [e] && [e][1..] == [];
    } else {
      assert (edges + [e])[1..] == edges[1..] + [e];
      ApartCountSnoc(nodes, edges[1..], e);
    }
  }

  /** What is reported: exactly the end pairs of edges whose ends are apart, one for each such edge. */
  lemma {:induction false} CrossingExact(nodes: Nodes, edges: seq<Edge>, v: (string, string))
    ensures v in Crossing(nodes, edges) <==> Apart(nodes, v.0, v.1) && exists e :: e in edges && Joins(e, v)
    ensures |Crossing(nodes, edges)| == ApartCount(nodes, edges)
  {
    if edges != [] {
      var init, e := edges[..|edges| - 1], edges[|edges| - 1];
      CrossingExact(nodes, init, v);
      assert edges == init + [e];
      ApartCountSnoc(nodes, init, e);
      assert Violates(nodes, e) <==> Apart(nodes, e.key.src, e.key.dst);
      assert Joins(e, v) <==> v == (e.key.src, e.key.dst);
      hide Apart, Violates, Joins;
      assert e in edges;
      if exists x :: x in init && Joins(x, v) {
        var x :| x in init && Joins(x, v);
        assert x in edges;
      }
    }
  }

  /** The violations, one per edge in order. */
  method CheckCrossPurdue(nodes: Nodes, edges: seq<Edge>) returns (violations: seq<(string, string)>)
    ensures violations == Crossing(nodes, edges) && |violations| == ApartCount(nodes, edges)
    ensures forall v :: v in violations <==> Apart(nodes, v.0, v.1) && exists e :: e in edges && Joins(e, v)
  {
    violations := [];
    for j := 0 to |edges|
      invariant violations == Crossing(nodes, edges[..j])
    {
      assert edges[..j + 1][..j] == edges[..j];
      var src, dst := edges[j].key.src, edges[j].key.dst;
      if src in nodes && dst in nodes && Crosses(nodes[src].level, nodes[dst].level) {
        violations := violations + [(src, dst)];
      }
    }
    assert edges[..|edges|] == edges;
    CrossingExact(nodes, edges, ("", ""));
    forall v ensures v in violations <==> Apart(nodes, v.0, v.1) && exists e :: e in edges && Joins(e, v) {
      CrossingExact(nodes, edges, v);
    }
  }

  /** Straight after the two passes, with no subnet map and nothing merged, the pair of an edge is reported exactly when
      one end is at level 1 and the other at level 3 or 5. */
  lemma ViolationsInvolveThreeOrFive(cs: seq<Conversation>, skip: bool, p: Policy, j: nat)
    requires p.mapped == map[] && j < |Build(cs, skip).edges|
    ensures var g := Levelled(Build(cs, skip), cs, p);
            var src, dst := g.edges[j].key.src, g.edges[j].key.dst;
            && g.edges == Build(cs, skip).edges && src in g.nodes && dst in g.nodes
            && ((src, dst) in Crossing(g.nodes, g.edges) <==>
                  (g.nodes[src].level == 1 && g.nodes[dst].level in {3, 5}) ||
                  (g.nodes[dst].level == 1 && g.nodes[src].level in {3, 5}))
  {
    hide Level, Preset;
    var g, e := Build(cs, skip), EdgesOf(cs, skip)[j].key;
    BuildLinked(cs, skip);
    BuiltUnlevelled(cs);
    BuiltEdgeEnds(cs, skip, j);
    var i: nat :| i < |cs| && cs[i].Src() == e.src && cs[i].Dst() == e.dst;
    Separation(g, cs, map[], p, i, Source);
    Separation(g, cs, map[], p, i, Target);
    LevelsComputed(g, cs, p, e.src);
    LevelsComputed(g, cs, p, e.dst);
    UnmappedLevel(g, cs, p, e.src);
    UnmappedLevel(g, cs, p, e.dst);
    ReportedPair(Levelled(g, cs, p), j);
    LevelledKeepsEdges(g, cs, p);
  }

  lemma LevelledKeepsEdges(g: Graph, cs: seq<Conversation>, p: Policy)
    ensures Levelled(g, cs, p).edges == g.edges
  {
  }

  lemma ReportedPair(g: Graph, j: nat)
    requires j < |g.edges|
    ensures var v := (g.edges[j].key.src, g.edges[j].key.dst);
            v in Crossing(g.nodes, g.edges) <==> Apart(g.nodes, v.0, v.1)
  {
    var v := (g.edges[j].key.src, g.edges[j].key.dst);
    CrossingExact(g.nodes, g.edges, v);
    assert g.edges[j] in g.edges && Joins(g.edges[j], v);
  }

  lemma UnmappedLevel(g: Graph, cs: seq<Conversation>, p: Policy, k: string)
    requires k in g.nodes && p.mapped == map[]
    ensures Level(g, cs, p, k) in {UNKNOWN, 1, 2, 3, 4, 5} && Preset(p, k) in {UNKNOWN, 5}
  {
    WithoutSubnets(p, k);
    LevelRange(g, cs, p, k);
  }

  lemma WithoutSubnets(p: Policy, k: string)
    requires p.mapped == map[]
    ensures Preset(p, k) in {UNKNOWN, 5}
  {
  }

  lemma LevelRange(g: Graph, cs: seq<Conversation>, p: Policy, k: string)
    requires k in g.nodes && Preset(p, k) in {UNKNOWN, 5}
    ensures Level(g, cs, p, k) in {UNKNOWN, 1, 2, 3, 4, 5}
  {
  }
}
