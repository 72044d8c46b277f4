/**
 The levels left on the builder's graph, whatever was merged: what the two passes guarantee of them, and
 exactly when a conversation still joins a controller to enterprise equipment.
 */
module PurdueLevels {
  import opened Wrappers
  import opened KeyedFold
  import opened TopologyGraph
  import opened TopologyIntegrity
  import opened Purdue

  function Topology(cs: seq<Conversation>, skip: bool, keys: seq<string>, table: map<string, string>): Graph {
    MergeAll(Build(cs, skip), keys, table)
  }

  /** The level the five loops leave on a node of the builder's graph. */
  function LevelLeft(cs: seq<Conversation>, skip: bool, keys: seq<string>, table: map<string, string>, p: Policy,
        k: string): int {
    LevelIn(Levelled(Topology(cs, skip, keys, table), cs, p).nodes, k)
  }

  lemma LeftIsLevel(cs: seq<Conversation>, skip: bool, keys: seq<string>, table: map<string, string>, p: Policy,
        k: string)
    requires k in Topology(cs, skip, keys, table).nodes
    ensures LevelLeft(cs, skip, keys, table, p, k) == Level(Topology(cs, skip, keys, table), cs, p, k)
  {
    BuiltUnlevelled(cs);
    MergedUnlevelled(Build(cs, skip), keys, table);
    LevelsComputed(Topology(cs, skip, keys, table), cs, p, k);
  }

  /** Every node of the builder's graph ends with a level. */
  lemma EveryNodeLevelled(cs: seq<Conversation>, skip: bool, keys: seq<string>, table: map<string, string>, p: Policy,
        k: string)
    requires NoSelf(Build(cs, skip), keys, table) && k in Topology(cs, skip, keys, table).nodes
    ensures LevelLeft(cs, skip, keys, table, p, k) != UNKNOWN
  {
    PassLinked(cs, skip, keys, table);
    LeftIsLevel(cs, skip, keys, table, p, k);
    Purdue.EveryNodeLevelled(Topology(cs, skip, keys, table), cs, HomesOf(Build(cs, skip), keys, table), p, k);
  }

  /** A node left at level 3 was put there by its subnet, or converses with a device the first pass placed at 0 to 2. */
  lemma LevelThreeTalks(cs: seq<Conversation>, skip: bool, keys: seq<string>, table: map<string, string>, p: Policy,
        k: string)
    requires NoSelf(Build(cs, skip), keys, table) && k in Topology(cs, skip, keys, table).nodes
    requires LevelLeft(cs, skip, keys, table, p, k) == 3
    ensures var g, home := Topology(cs, skip, keys, table), HomesOf(Build(cs, skip), keys, table);
            Preset(p, k) == 3 || Converses(cs, home, OtKeys(g, p), k)
  {
    PassLinked(cs, skip, keys, table);
    LeftIsLevel(cs, skip, keys, table, p, k);
    Purdue.LevelThreeTalks(Topology(cs, skip, keys, table), cs, HomesOf(Build(cs, skip), keys, table), p, k);
  }

  /**
   A node left to the second pass ends at level 4 exactly when no conversation filed under it names, by the
   conversation's own key, a device of the first pass at its other end.
   */
  lemma LevelFourExact(cs: seq<Conversation>, skip: bool, keys: seq<string>, table: map<string, string>, p: Policy,
        k: string)
    requires NoSelf(Build(cs, skip), keys, table) && k in Topology(cs, skip, keys, table).nodes
    requires FirstOf(Topology(cs, skip, keys, table), p, k) == UNKNOWN
    ensures var g, home := Topology(cs, skip, keys, table), HomesOf(Build(cs, skip), keys, table);
            LevelLeft(cs, skip, keys, table, p, k) == 4 <==> !Converses(cs, home, OtKeys(g, p), k)
  {
    PassLinked(cs, skip, keys, table);
    LeftIsLevel(cs, skip, keys, table, p, k);
    Purdue.LevelFourExact(Topology(cs, skip, keys, table), cs, HomesOf(Build(cs, skip), keys, table), p, k);
  }

  /** A conversation that breaks separation: one end's home has first-pass level 0 or 1, the other's is 4, or is
      unknown with no conversation naming a first-pass device. */
  ghost predicate Breaks(g: Graph, cs: seq<Conversation>, home: Homes, p: Policy, low: string, high: string)
    requires low in g.nodes && high in g.nodes
  {
    && FirstOf(g, p, low) in {0, 1}
    && (FirstOf(g, p, high) == 4 || (FirstOf(g, p, high) == UNKNOWN && !Converses(cs, home, OtKeys(g, p), high)))
  }

  /** Separation, exactly: a conversation joins a node left at level 0 or 1 to one left at 4 just when it breaks it. */
  lemma Separation(cs: seq<Conversation>, skip: bool, keys: seq<string>, table: map<string, string>, p: Policy,
        i: nat, s: Side)
    requires NoSelf(Build(cs, skip), keys, table) && i < |cs|
    ensures var g, home := Topology(cs, skip, keys, table), HomesOf(Build(cs, skip), keys, table);
            var low, high := Home(home, cs[i].End(s)), Home(home, cs[i].End(Opposite(s)));
            && low in g.nodes && high in g.nodes
            && (LevelLeft(cs, skip, keys, table, p, low) in {0, 1} &&
                  LevelLeft(cs, skip, keys, table, p, high) == 4 <==>
                  Breaks(g, cs, home, p, low, high))
  {
    var g, home := Topology(cs, skip, keys, table), HomesOf(Build(cs, skip), keys, table);
    PassLinked(cs, skip, keys, table);
    SeparationExact(g, cs, home, p, i, s);
    LeftIsLevel(cs, skip, keys, table, p, Home(home, cs[i].End(s)));
    LeftIsLevel(cs, skip, keys, table, p, Home(home, cs[i].End(Opposite(s))));
  }

  /** So it holds wherever the low end kept its own key and no subnet dictates level 4. */
  lemma SeparatedUnmerged(cs: seq<Conversation>, skip: bool, keys: seq<string>, table: map<string, string>, p: Policy,
        i: nat, s: Side)
    requires NoSelf(Build(cs, skip), keys, table) && i < |cs|
    ensures var home := HomesOf(Build(cs, skip), keys, table);
            var low, high := Home(home, cs[i].End(s)), Home(home, cs[i].End(Opposite(s)));
            low == cs[i].End(s) && Preset(p, high) != 4 ==>
              !(LevelLeft(cs, skip, keys, table, p, low) in {0, 1} && LevelLeft(cs, skip, keys, table, p, high) == 4)
  {
    var g, home := Topology(cs, skip, keys, table), HomesOf(Build(cs, skip), keys, table);
    PassLinked(cs, skip, keys, table);
    Purdue.Separation(g, cs, home, p, i, s);
    LeftIsLevel(cs, skip, keys, table, p, Home(home, cs[i].End(s)));
    LeftIsLevel(cs, skip, keys, table, p, Home(home, cs[i].End(Opposite(s))));
  }

  // ---- the levels, told from the conversations ----

  /** The level an address alone gives: of its subnet, unless it is a broadcast address; else 5 for a public one. */
  function ByAddress(p: Policy, k: string): Option<int> {
    if k in p.mapped && k !in p.broadcast && p.mapped[k] != -1 then Some(p.mapped[k])
    else if k in p.external then Some(5)
    else None
  }

  /** Some conversation sitting at `k` is in a protocol of operational technology. */
  ghost predicate Operational(cs: seq<Conversation>, home: Homes, p: Policy, k: string) {
    exists x :: x in p.ot && Speaks(cs, home, k, x)
  }

  ghost predicate Starts(cs: seq<Conversation>, home: Homes, k: string) {
    exists i: nat :: Sits(home, cs, Source, i, k)
  }

  /** A device of the control levels: its subnet says so, or, when its address says nothing, its protocols do. */
  ghost predicate Device(cs: seq<Conversation>, home: Homes, p: Policy, k: string) {
    match ByAddress(p, k)
    case Some(level) => 0 <= level <= 2
    case None => Operational(cs, home, p, k)
  }

  /** A conversation sitting at `k` names, by its own key, a device that is a node at its other end. */
  ghost predicate Contacts(cs: seq<Conversation>, home: Homes, p: Policy, nodes: set<string>, k: string) {
    || (exists i: nat :: Sits(home, cs, Source, i, k) && cs[i].Dst() in nodes && Device(cs, home, p, cs[i].Dst()))
    || (exists i: nat :: Sits(home, cs, Target, i, k) && cs[i].Src() in nodes && Device(cs, home, p, cs[i].Src()))
  }

  ghost function LevelTold(cs: seq<Conversation>, home: Homes, p: Policy, nodes: set<string>, k: string): int {
    match ByAddress(p, k)
    case Some(level) => level
    case None =>
      if Operational(cs, home, p, k) then (if Starts(cs, home, k) then 2 else 1)
      else if Contacts(cs, home, p, nodes, k) then (if Starts(cs, home, k) then 3 else 2)
      else 4
  }

  lemma SpeaksOperational(g: Graph, cs: seq<Conversation>, home: Homes, p: Policy, k: string)
    requires ProtocolsLinked(g, cs, home) && k in g.nodes
    ensures SpeaksOt(p, g.nodes[k]) <==> Operational(cs, home, p, k)
  {
    if SpeaksOt(p, g.nodes[k]) {
      var x :| x in g.nodes[k].protocols && x in p.ot;
      assert Speaks(cs, home, k, x);
    }
  }

  // The two passes over one node that plays a role.
  lemma OneNode(p: Policy, k: string, n: Node, speaks: bool, talks: bool)
    requires n.initiates || n.responds
    ensures FirstLevel(p, k, n, speaks) in {0, 1, 2} <==>
              match ByAddress(p, k) case Some(level) => 0 <= level <= 2 case None => speaks
    ensures FinalLevel(p, k, n, speaks, talks) ==
              match ByAddress(p, k)
              case Some(level) => level
              case None =>
                if speaks then (if n.initiates then 2 else 1)
                else if talks then (if n.initiates then 3 else 2)
                else 4
  {
  }

  lemma NodePlays(g: Graph, cs: seq<Conversation>, skip: bool, home: Homes, k: string)
    requires Linked(g, cs, skip, home) && k in g.nodes
    ensures g.nodes[k].initiates || g.nodes[k].responds
    ensures g.nodes[k].initiates <==> Starts(cs, home, k)
  {
    assert Ends(home, cs, k);
    var i: nat, s :| Sits(home, cs, s, i, k);
    assert g.nodes[k].Plays(Source) || g.nodes[k].Plays(Target);
    assert g.nodes[k].Plays(Source) <==> g.nodes[k].initiates;
  }

  lemma DeviceKeys(g: Graph, cs: seq<Conversation>, skip: bool, home: Homes, p: Policy, k: string)
    requires Linked(g, cs, skip, home)
    ensures k in OtKeys(g, p) <==> k in g.nodes.Keys && Device(cs, home, p, k)
  {
    if k in g.nodes {
      SpeaksOperational(g, cs, home, p, k);
      NodePlays(g, cs, skip, home, k);
      OneNode(p, k, g.nodes[k], SpeaksOt(p, g.nodes[k]), false);
      hide FirstLevel, Linked, SpeaksOt, Operational, ByAddress;
    }
  }

  ghost predicate ContactsVia(cs: seq<Conversation>, home: Homes, devices: set<string>, k: string) {
    || (exists i: nat :: Sits(home, cs, Source, i, k) && cs[i].Dst() in devices)
    || (exists i: nat :: Sits(home, cs, Target, i, k) && cs[i].Src() in devices)
  }

  lemma ConversesVia(cs: seq<Conversation>, home: Homes, devices: set<string>, k: string)
    ensures Converses(cs, home, devices, k) <==> ContactsVia(cs, home, devices, k)
  {
    if i: nat, s :| Meets(cs, home, devices, k, s, i) {
      assert cs[i].End(Target) == cs[i].Dst() && cs[i].End(Source) == cs[i].Src();
      assert Sits(home, cs, s, i, k);
    }
    if i: nat :| Sits(home, cs, Source, i, k) && cs[i].Dst() in devices {
      assert Meets(cs, home, devices, k, Source, i);
    }
    if i: nat :| Sits(home, cs, Target, i, k) && cs[i].Src() in devices {
      assert Meets(cs, home, devices, k, Target, i);
    }
  }

  lemma ContactsDevices(g: Graph, cs: seq<Conversation>, skip: bool, home: Homes, p: Policy, k: string)
    requires Linked(g, cs, skip, home)
    ensures Converses(cs, home, OtKeys(g, p), k) <==> Contacts(cs, home, p, g.nodes.Keys, k)
  {
    forall x: string ensures x in OtKeys(g, p) <==> x in g.nodes.Keys && Device(cs, home, p, x) {
      DeviceKeys(g, cs, skip, home, p, x);
    }
    ConversesVia(cs, home, OtKeys(g, p), k);
    hide OtKeys, Device, Linked, Sits, Converses;
  }

  /** The level of every node of the builder's graph, whatever was merged, from the conversations that sit there. */
  lemma LevelExact(cs: seq<Conversation>, skip: bool, keys: seq<string>, table: map<string, string>, p: Policy,
        k: string)
    requires NoSelf(Build(cs, skip), keys, table) && k in Topology(cs, skip, keys, table).nodes
    ensures var g, home := Topology(cs, skip, keys, table), HomesOf(Build(cs, skip), keys, table);
            LevelLeft(cs, skip, keys, table, p, k) == LevelTold(cs, home, p, g.nodes.Keys, k)
  {
    var g, home := Topology(cs, skip, keys, table), HomesOf(Build(cs, skip), keys, table);
    PassLinked(cs, skip, keys, table);
    LeftIsLevel(cs, skip, keys, table, p, k);
    LevelOfLinked(g, cs, skip, home, p, k);
  }

  lemma LevelOfLinked(g: Graph, cs: seq<Conversation>, skip: bool, home: Homes, p: Policy, k: string)
    requires Linked(g, cs, skip, home) && k in g.nodes
    ensures Level(g, cs, p, k) == LevelTold(cs, home, p, g.nodes.Keys, k)
  {
    SpeaksOperational(g, cs, home, p, k);
    ContactsDevices(g, cs, skip, home, p, k);
    TalksMeans(g, cs, home, OtKeys(g, p), k);
    NodePlays(g, cs, skip, home, k);
    OneNode(p, k, g.nodes[k], SpeaksOt(p, g.nodes[k]), TalksTo(g, cs, OtKeys(g, p), k));
    hide Contacts, Operational, OtKeys, Converses, TalksTo, SpeaksOt, Linked, Starts, FinalLevel, ByAddress;
  }
}
