/**
 When a node resolves to itself. A key with a colon may be an IPv6 address rather than a MAC address, and
 such a node can come to advertise its own key: the pass then deletes it and leaves its edges dangling.
 */
module TopologySelfMerge {
  import opened Wrappers
  import opened KeyedFold
  import opened TopologyGraph
  import opened TopologyIntegrity

  /** One merge step keeps every edge on existing nodes exactly when it is no self-merge, or no edge touches the key. */
  lemma StepKeepsEndpoints(g: Graph, key: string, target: string)
    requires EndpointsExist(g) && key in g.nodes && target in g.nodes
    ensures EndpointsExist(MergeOne(g, key, target)) <==>
              (target != key || forall j :: 0 <= j < |g.edges| ==>
                    g.edges[j].key.src != key && g.edges[j].key.dst != key)
  {
    var g' := MergeOne(g, key, target);
    assert forall j :: 0 <= j < |g.edges| ==> g'.edges[j] == RekeyEdge(g.edges[j], key, target);
    if target == key {
      if j :| 0 <= j < |g.edges| && (g.edges[j].key.src == key || g.edges[j].key.dst == key) {
        assert g'.edges[j].key.src == key || g'.edges[j].key.dst == key;
      }
    }
  }

  // ---- without IPv6 addresses it cannot happen ----

  predicate ColonFree(cs: seq<Conversation>) {
    forall i :: 0 <= i < |cs| ==> !HasColon(cs[i].mgmt) && !HasColon(cs[i].srcIp) && !HasColon(cs[i].dstIp)
  }

  predicate ColonFreeMgmt(nodes: Nodes) {
    forall k :: k in nodes ==> !HasColon(nodes[k].mgmt)
  }

  lemma {:induction false} BuiltMgmt(cs: seq<Conversation>)
    requires ColonFree(cs)
    ensures ColonFreeMgmt(NodesOf(cs))
  {
    if cs != [] {
      assert forall i :: 0 <= i < |cs| - 1 ==> cs[..|cs| - 1][i] == cs[i];
      BuiltMgmt(cs[..|cs| - 1]);
    }
  }

  lemma {:induction false} TableValues(cs: seq<Conversation>)
    requires ColonFree(cs)
    ensures forall k :: k in MacTable(cs) ==> !HasColon(MacTable(cs)[k])
  {
    if cs != [] {
      assert forall i :: 0 <= i < |cs| - 1 ==> cs[..|cs| - 1][i] == cs[i];
      TableValues(cs[..|cs| - 1]);
    }
  }

  /** If no address a node could resolve to holds a colon, no node of the pass ever resolves to itself. */
  lemma {:induction false} NoSelfWithoutIPv6(cs: seq<Conversation>, skip: bool, keys: seq<string>)
    requires ColonFree(cs) && forall k :: k in keys ==> HasColon(k)
    ensures NoSelf(Build(cs, skip), keys, MacTable(cs))
    ensures ColonFreeMgmt(MergeAll(Build(cs, skip), keys, MacTable(cs)).nodes)
  {
    if keys == [] {
      BuiltMgmt(cs);
    } else {
      var init, key := keys[..|keys| - 1], keys[|keys| - 1];
      NoSelfWithoutIPv6(cs, skip, init);
      TableValues(cs);
      var g := MergeAll(Build(cs, skip), init, MacTable(cs));
      var t := TargetOf(g, key, MacTable(cs));
      if t.Some? {
        assert !HasColon(t.value) && HasColon(key);
      }
    }
  }

  // ---- with one it can ----

  const SWITCH := Conversation("", "0:1", "", "0:2", "LLDP", "LLDP", 0, "", 60, "", "", false, false, 0, "f:1", "")
  const TRAFFIC := Conversation("f:1", "", "9", "", "HTTP", "HTTP", 80, "tcp", 900, "", "", false, false, 1, "", "")
  const KEYS := ["0:1", "0:2", "f:1"]

  lemma NamesDiffer()
    ensures "0:1" != "0:2" && "0:1" != "f:1" && "0:2" != "f:1" && "9" != "0:1" && "9" != "0:2" && "9" != "f:1"
  {
    assert "0:1"[2] != "0:2"[2] && "0:1"[0] != "f:1"[0] && "0:2"[0] != "f:1"[0] && |"9"| != |"0:1"|;
  }

  lemma NodesOfTwo(a: Conversation, b: Conversation)
    ensures NodesOf([a, b]) == AddEnds(AddEnds(map[], a), b)
  {
    assert [a, b][..1] == [a] && [a][..0] == [];
    assert NodesOf([a]) == AddEnds(NodesOf([]), a);
  }

  lemma EdgesOfTwo(a: Conversation, b: Conversation)
    requires EdgeFor(a).key != EdgeFor(b).key
    ensures EdgesOf([a, b], false) == [EdgeFor(a), EdgeFor(b)]
  {
    var x, y := EdgeFor(a), EdgeFor(b);
    assert [a, b][..1] == [a] && [a][..0] == [];
    assert Links([a], false) == [] + [x] == [x];
    assert Links([a, b], false) == Links([a], false) + [y] == [x, y];
    assert [x, y][..1] == [x] && [x][..0] == [];
    assert Into(AddStats, [], [x]) == Put(AddStats, Into(AddStats, [], []), x) == [x];
    assert [x][1..] == [];
    assert Put(AddStats, [x], y) == [x] + Put(AddStats, [], y) == [x, y];
  }

  /** The management address of a node, none if there is no such node. */
  function MgmtAt(nodes: Nodes, k: string): string {
    if k in nodes then nodes[k].mgmt else ""
  }

  lemma MgmtAfter(nodes: Nodes, c: Conversation, k: string)
    ensures AddEnds(nodes, c).Keys == nodes.Keys + {c.Src(), c.Dst()}
    ensures MgmtAt(AddEnds(nodes, c), k) ==
              if k == c.Src() then FirstSaid(MgmtAt(nodes, k), c.mgmt) else MgmtAt(nodes, k)
  {
  }

  lemma NodesOfExample()
    ensures var nodes := NodesOf([SWITCH, TRAFFIC]);
            && nodes.Keys == {"0:1", "0:2", "f:1", "9"}
            && nodes["0:1"].mgmt == "f:1" && nodes["0:2"].mgmt == "" && nodes["f:1"].mgmt == ""
  {
    hide AddEnds;
    NamesDiffer();
    NodesOfTwo(SWITCH, TRAFFIC);
    var first, nodes := AddEnds(map[], SWITCH), NodesOf([SWITCH, TRAFFIC]);
    forall k ensures MgmtAt(nodes, k) == if k == "0:1" then "f:1" else "" {
      MgmtAfter(map[], SWITCH, k);
      MgmtAfter(first, TRAFFIC, k);
    }
    MgmtAfter(map[], SWITCH, "");
    MgmtAfter(first, TRAFFIC, "");
    assert MgmtAt(nodes, "0:1") == "f:1" && MgmtAt(nodes, "0:2") == "" && MgmtAt(nodes, "f:1") == "";
  }

  lemma TableOfExample()
    ensures MacTable([SWITCH, TRAFFIC]) == map[]
  {
    assert [SWITCH, TRAFFIC][..1] == [SWITCH] && [SWITCH][..0] == [];
    assert MacTable([SWITCH]) == map[];
  }

  lemma EdgesOfExample()
    ensures EdgesOf([SWITCH, TRAFFIC], false) == [EdgeFor(SWITCH), EdgeFor(TRAFFIC)]
  {
    NamesDiffer();
    assert EdgeFor(SWITCH).key.src == "0:1" && EdgeFor(TRAFFIC).key.src == "f:1";
    EdgesOfTwo(SWITCH, TRAFFIC);
  }

  /**
   A switch that announces an IPv6 management address, and traffic from that address: the switch's MAC node
   hands its management address to the IPv6 node, which then resolves to itself and is deleted.
   */
  lemma IPv6ManagementAddressDangles()
    ensures !EndpointsExist(MergeAll(Build([SWITCH, TRAFFIC], false), KEYS, MacTable([SWITCH, TRAFFIC])))
  {
    NodesOfExample();
    TableOfExample();
    EdgesOfExample();
    var table: map<string, string> := map[];
    var g0 := Build([SWITCH, TRAFFIC], false);
    assert KEYS[..2] == ["0:1", "0:2"] && ["0:1", "0:2"][..1] == ["0:1"] && ["0:1"][..0] == [];
    assert TargetOf(g0, "0:1", table) == Some("f:1");
    var g1 := MergeOne(g0, "0:1", "f:1");
    assert MergeAll(g0, ["0:1"], table) == g1;
    assert g1.nodes["f:1"].mgmt == "f:1" && g1.edges[1].key.src == "f:1";
    assert TargetOf(g1, "0:2", table) == None;
    assert MergeAll(g0, ["0:1", "0:2"], table) == g1;
    var g2 := MergeOne(g1, "f:1", "f:1");
    assert MergeAll(g0, KEYS, table) == g2;
    assert g2.edges[1].key.src == "f:1" && "f:1" !in g2.nodes;
  }
}
