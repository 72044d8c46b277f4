/**
 The second Purdue pass compares the conversations' own keys with the keys left after merging. A device that
 absorbed a layer-2 node is therefore not recognised by that node's peers: a concrete case.
 */
module PurdueAfterMerge {
  import opened Wrappers
  import opened KeyedFold
  import opened TopologyGraph
  import opened TopologyIntegrity
  import opened Purdue
  import L = PurdueLevels
  import Text

  const BROWSER := Conversation("9", "", "", "0:1", "HTTP", "HTTP", 80, "tcp", 100, "", "", false, false, 1, "", "")
  const POLLER := Conversation("8", "", "7", "0:1", "Modbus", "Modbus", 502, "tcp", 100, "", "", false, false, 1, "",
        "")
  const PLANT := [BROWSER, POLLER]
  const POLICY := Policy(map[], {}, {}, {"Modbus"})
  const MOVED: Homes := map["0:1" := "7"]

  lemma NamesDiffer()
    ensures "9" != "8" && "9" != "7" && "8" != "7" && "0:1" != "7" && "0:1" != "8" && "0:1" != "9" && "HTTP" != "Modbus"
  {
    assert "9"[0] != "8"[0] && "9"[0] != "7"[0] && "8"[0] != "7"[0] && |"0:1"| == 3 && |"HTTP"| != |"Modbus"|;
  }

  // Where the four ends of the two conversations sit after the merge.
  lemma Seats()
    ensures forall i: nat, s, k :: Sits(MOVED, PLANT, s, i, k) <==>
              || (i == 0 && s == Source && k == "9") || (i == 0 && s == Target && k == "7")
              || (i == 1 && s == Source && k == "8") || (i == 1 && s == Target && k == "7")
  {
    NamesDiffer();
  }

  // A key that the MAC table ties to another node's address is merged into that node.
  lemma MergeOfKey(cs: seq<Conversation>, mac: string, ip: string) returns (g: Graph)
    requires forall i :: 0 <= i < |cs| ==> cs[i].mgmt == ""
    requires Ends(map[], cs, mac) && Ends(map[], cs, ip) && mac != ip && ip != ""
    requires Text.Lower(mac) in MacTable(cs) && MacTable(cs)[Text.Lower(mac)] == ip
    ensures g == MergeAll(Build(cs, false), [mac], MacTable(cs))
    ensures Linked(g, cs, false, map[mac := ip])
  {
    var g0 := Build(cs, false);
    BuildLinked(cs, false);
    NoAdvertisement(cs);
    PassOfOne(g0, mac, MacTable(cs));
    OneMergeLinked(g0, cs, mac, ip);
    g := MergeOne(g0, mac, ip);
  }

  lemma OneMergeLinked(g: Graph, cs: seq<Conversation>, mac: string, ip: string)
    requires Linked(g, cs, false, map[]) && mac in g.nodes && ip in g.nodes && mac != ip
    ensures Linked(MergeOne(g, mac, ip), cs, false, map[mac := ip])
  {
    MergeLinked(g, cs, false, map[], mac, ip);
    assert Moved(map[], mac, ip) == map[mac := ip];
  }

  lemma EndsOfTwo(a: Conversation, b: Conversation)
    ensures Ends(map[], [a, b], a.Dst()) && Ends(map[], [a, b], b.Dst())
  {
    assert Sits(map[], [a, b], Target, 0, a.Dst()) && Sits(map[], [a, b], Target, 1, b.Dst());
  }

  lemma MergedPlant() returns (g: Graph)
    ensures g == MergeAll(Build(PLANT, false), ["0:1"], MacTable(PLANT))
    ensures Linked(g, PLANT, false, MOVED)
  {
    NamesDiffer();
    assert Text.Lower("0:1") == "0:1";
    TableOf(BROWSER, POLLER);
    EndsOfTwo(BROWSER, POLLER);
    g := MergeOfKey(PLANT, "0:1", "7");
  }

  lemma PassOfOne(g: Graph, key: string, table: map<string, string>)
    ensures MergeAll(g, [key], table) == MergeStep(g, key, table)
  {
    assert [key][..0] == [];
  }

  lemma TableOf(a: Conversation, b: Conversation)
    requires a.srcMac == b.srcMac == "" && a.dstIp == "" && b.dstMac != "" && b.dstIp != ""
    ensures MacTable([a, b]) == map[Text.Lower(b.dstMac) := b.dstIp]
  {
    assert [a, b][..1] == [a] && [a][..0] == [];
    assert MacTable([a]) == map[];
  }

  lemma {:induction false} NoAdvertisement(cs: seq<Conversation>)
    ensures (forall i :: 0 <= i < |cs| ==> cs[i].mgmt == "") ==> forall k :: k in NodesOf(cs) ==>
          NodesOf(cs)[k].mgmt == ""
  {
    if cs != [] {
      assert forall i :: 0 <= i < |cs| - 1 ==> cs[..|cs| - 1][i] == cs[i];
      NoAdvertisement(cs[..|cs| - 1]);
    }
  }

  lemma Controller(g: Graph)
    requires NodesLinked(g, PLANT, MOVED) && ProtocolsLinked(g, PLANT, MOVED)
    ensures "7" in g.nodes && SpeaksOt(POLICY, g.nodes["7"])
  {
    Seats();
    assert Sits(MOVED, PLANT, Target, 1, "7") && PLANT[1].display == "Modbus";
    assert Ends(MOVED, PLANT, "7") && Speaks(PLANT, MOVED, "7", "Modbus");
    assert "Modbus" in g.nodes["7"].protocols;
  }

  lemma ControllerRoles(g: Graph)
    requires RolesLinked(g, PLANT, Source, MOVED) && RolesLinked(g, PLANT, Target, MOVED) && "7" in g.nodes
    ensures g.nodes["7"].responds && !g.nodes["7"].initiates
  {
    Seats();
    NamesDiffer();
    assert Sits(MOVED, PLANT, Target, 1, "7");
    assert g.nodes["7"].Plays(Target) && !g.nodes["7"].Plays(Source);
  }

  lemma ControllerIsLevelOne(g: Graph)
    requires Linked(g, PLANT, false, MOVED)
    ensures "7" in g.nodes && Level(g, PLANT, POLICY, "7") == 1
  {
    Controller(g);
    ControllerRoles(g);
    assert Preset(POLICY, "7") == UNKNOWN;
  }

  lemma Browser(g: Graph)
    requires NodesLinked(g, PLANT, MOVED) && ProtocolsLinked(g, PLANT, MOVED) && RolesLinked(g, PLANT, Source, MOVED)
    ensures "9" in g.nodes && g.nodes["9"].initiates && !SpeaksOt(POLICY, g.nodes["9"])
  {
    Seats();
    NamesDiffer();
    assert Sits(MOVED, PLANT, Source, 0, "9");
    assert Ends(MOVED, PLANT, "9") && g.nodes["9"].Plays(Source);
    assert !Speaks(PLANT, MOVED, "9", "Modbus");
  }

  lemma BrowserMeetsNoDevice(devices: set<string>)
    requires "0:1" !in devices
    ensures !Converses(PLANT, MOVED, devices, "9")
  {
    Seats();
    NamesDiffer();
    forall i: nat, s ensures !Meets(PLANT, MOVED, devices, "9", s, i) {
      if Sits(MOVED, PLANT, s, i, "9") {
        assert i == 0 && s == Source && PLANT[0].End(Opposite(s)) == "0:1";
      }
    }
  }

  lemma BrowserIsLevelFour(g: Graph)
    requires Linked(g, PLANT, false, MOVED)
    ensures "9" in g.nodes && Level(g, PLANT, POLICY, "9") == 4
  {
    Browser(g);
    assert "0:1" in MOVED && "0:1" !in OtKeys(g, POLICY);
    BrowserMeetsNoDevice(OtKeys(g, POLICY));
    TalksMeans(g, PLANT, MOVED, OtKeys(g, POLICY), "9");
    assert Preset(POLICY, "9") == UNKNOWN;
  }

  /**
   After the merge the levels left are 1 on the controller and 4 on a host with an edge to it, for the pass saw
   only the controller's old MAC key; the cross-level check reports the edge. Without merging, the levels left
   on these conversations' ends never break separation (`UnmergedPlantSeparated`).
   */
  lemma SeparationFailsAfterMerge()
    ensures var table := MacTable(PLANT);
            var g := MergeAll(Build(PLANT, false), ["0:1"], table);
            && L.LevelLeft(PLANT, false, ["0:1"], table, POLICY, "7") == 1
            && L.LevelLeft(PLANT, false, ["0:1"], table, POLICY, "9") == 4
            && ("9", "7") in Crossing(Levelled(g, PLANT, POLICY).nodes, Levelled(g, PLANT, POLICY).edges)
  {
    var g := MergedPlant();
    ControllerIsLevelOne(g);
    BrowserIsLevelFour(g);
    BrowserEdge(g);
    LevelsOfPlant(g);
    FirstCrosses(Levelled(g, PLANT, POLICY).nodes, g.edges);
  }

  lemma LevelsOfPlant(g: Graph)
    requires g == MergeAll(Build(PLANT, false), ["0:1"], MacTable(PLANT)) && "7" in g.nodes && "9" in g.nodes
    ensures var nodes := Levelled(g, PLANT, POLICY).nodes;
            && "7" in nodes && "9" in nodes && Levelled(g, PLANT, POLICY).edges == g.edges
            && nodes["7"].level == Level(g, PLANT, POLICY, "7") && nodes["9"].level == Level(g, PLANT, POLICY, "9")
  {
    BuiltUnlevelled(PLANT);
    MergedUnlevelled(Build(PLANT, false), ["0:1"], MacTable(PLANT));
    LevelsComputed(g, PLANT, POLICY, "7");
    LevelsComputed(g, PLANT, POLICY, "9");
  }

  lemma {:induction false} FirstCrosses(nodes: Nodes, edges: seq<Edge>)
    requires edges != [] && Violates(nodes, edges[0])
    ensures (edges[0].key.src, edges[0].key.dst) in Crossing(nodes, edges)
  {
    if |edges| > 1 {
      FirstCrosses(nodes, edges[..|edges| - 1]);
    }
  }

  /** Without the merge the same conversations do not break separation. */
  lemma UnmergedPlantSeparated(i: nat, s: Side)
    requires i < |PLANT|
    ensures !(L.LevelLeft(PLANT, false, [], MacTable(PLANT), POLICY, PLANT[i].End(s)) in {0, 1}
              && L.LevelLeft(PLANT, false, [], MacTable(PLANT), POLICY, PLANT[i].End(Opposite(s))) == 4)
  {
    L.SeparatedUnmerged(PLANT, false, [], MacTable(PLANT), POLICY, i, s);
    assert HomesOf(Build(PLANT, false), [], MacTable(PLANT)) == map[];
    assert Preset(POLICY, PLANT[i].End(Opposite(s))) == UNKNOWN;
  }

  lemma BrowserEdge(g: Graph)
    requires EdgesLinked(g, PLANT, false, MOVED)
    ensures |g.edges| == 2 && g.edges[0].key.src == "9" && g.edges[0].key.dst == "7"
  {
    NamesDiffer();
    TwoEdges(BROWSER, POLLER);
    assert EdgesOf(PLANT, false)[0] == EdgeFor(BROWSER);
  }

  lemma TwoEdges(a: Conversation, b: Conversation)
    requires EdgeFor(a).key.src != EdgeFor(b).key.src
    ensures EdgesOf([a, b], false) == [EdgeFor(a), EdgeFor(b)]
  {
    var x, y := EdgeFor(a), EdgeFor(b);
    assert [a, b][..1] == [a] && [a][..0] == [];
    assert Links([a], false) == [] + [x] == [x];
    assert Links([a, b], false) == Links([a], false) + [y] == [x, y];
    assert [x, y][..1] == [x] && [x][..0] == [];
    assert Into(AddStats, [], [x]) == Put(AddStats, Into(AddStats, [], []), x) == [x];
    assert [x][1..] == [];
    assert Put(AddStats, [x], y) == [x] + Put(AddStats, [], y) == [x, y];
  }
}
