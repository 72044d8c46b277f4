/** The topology builder: an object whose dictionaries and edge list are filled, then rewritten in place. */
module TopologyBuilder {
  import opened Wrappers
  import opened KeyedFold
  import opened Lists
  import opened TopologyGraph
  import Text
  import I = TopologyIntegrity

  class Builder {
    const conversations: seq<Conversation>
    const skipEphemeral: bool
    var nodes: Nodes
    var edges: seq<Edge>
    var bySrc: Index
    var byDst: Index

    function Model(): Graph
      reads this
    {
      Graph(nodes, edges, bySrc, byDst)
    }

    constructor (conversations: seq<Conversation>, skipEphemeral: bool)
      ensures this.conversations == conversations && this.skipEphemeral == skipEphemeral
      ensures Model() == Graph(map[], [], map[], map[])
    {
      this.conversations, this.skipEphemeral := conversations, skipEphemeral;
      nodes, edges, bySrc, byDst := map[], [], map[], map[];
    }

    method IndexConversations()
      requires bySrc == map[] && byDst == map[]
      modifies this`bySrc, this`byDst
      ensures bySrc == IndexOf(conversations, Source) && byDst == IndexOf(conversations, Target)
    {
      for i := 0 to |conversations|
        invariant bySrc == IndexOf(conversations[..i], Source) && byDst == IndexOf(conversations[..i], Target)
      {
        assert conversations[..i + 1][..i] == conversations[..i];
        var c := conversations[i];
        bySrc := AddId(bySrc, c.Src(), i);
        byDst := AddId(byDst, c.Dst(), i);
      }
      assert conversations[..|conversations|] == conversations;
    }

    method BuildGraph()
      requires nodes == map[]
      modifies this`nodes, this`edges
      ensures nodes == NodesOf(conversations) && edges == EdgesOf(conversations, skipEphemeral)
    {
      var united: seq<Edge> := [];
      for i := 0 to |conversations|
        invariant nodes == NodesOf(conversations[..i])
        invariant united == EdgesOf(conversations[..i], skipEphemeral)
      {
        var c := conversations[i];
        ghost var before := conversations[..i];
        assert conversations[..i + 1] == before + [c];
        NodesSnoc(before, c);
        AddConversation(c);
        united := AddLink(before, c, united);
      }
      assert conversations[..|conversations|] == conversations;
      edges := united;
    }

    /** The edge half of the loop body. */
    method AddLink(ghost before: seq<Conversation>, c: Conversation, united: seq<Edge>) returns (r: seq<Edge>)
      requires united == EdgesOf(before, skipEphemeral)
      ensures r == EdgesOf(before + [c], skipEphemeral)
    {
      EdgesSnoc(before, c, skipEphemeral);
      r := united;
      if !Skipped(c, skipEphemeral) {
        r := UniteEdge(united, EdgeFor(c));
      }
    }

    /** The node half of the loop body: both ends, then what the sender says of itself. */
    method AddConversation(c: Conversation)
      modifies this`nodes
      ensures nodes == AddEnds(old(nodes), c)
    {
      TouchNode(c.Src(), c.srcIp, c.srcMac, Source, c.display);
      TouchNode(c.Dst(), c.dstIp, c.dstMac, Target, c.display);
      var sender := nodes[c.Src()];
      if sender.mgmt == "" {
        sender := sender.(mgmt := c.mgmt);
      }
      if sender.name == "" {
        sender := sender.(name := c.name);
      }
      nodes := nodes[c.Src() := sender];
    }

    method TouchNode(key: string, ip: string, mac: string, s: Side, display: string)
      modifies this`nodes
      ensures nodes == Touched(old(nodes), key, ip, mac, s, display)
      ensures key in nodes && forall k :: k in old(nodes) ==> k in nodes
    {
      if key !in nodes {
        nodes := nodes[key := Node(ip, mac, [], false, false, "", "", -1)];
      }
      var n := nodes[key];
      n := if s.Source? then n.(initiates := true) else n.(responds := true);
      AppendOne(n.protocols, display);
      if display !in n.protocols {
        n := n.(protocols := n.protocols + [display]);
      }
      nodes := nodes[key := n];
    }

    /** The edge dictionary's update: add to the edge of equal key, or append a new one. */
    static method UniteEdge(es: seq<Edge>, x: Edge) returns (r: seq<Edge>)
      ensures r == Put(AddStats, es, x)
    {
      hide AddStats, Put;
      var i := 0;
      while i < |es| && es[i].key != x.key
        invariant 0 <= i <= |es|
        invariant forall j :: 0 <= j < i ==> es[j].key != x.key
      {
        i := i + 1;
      }
      PutAfter(AddStats, es, x, i);
      if i < |es| {
        r := es[..i] + [Item(x.key, AddStats(es[i].value, x.value))] + es[i + 1..];
      } else {
        r := es + [x];
      }
    }

    /** One iteration of the layer-2 merge, for a key that resolves to a node. */
    method MergeNode(key: string, target: string)
      requires key in nodes && target in nodes
      modifies this
      ensures Model() == MergeOne(old(Model()), key, target)
    {
      var from, into := nodes[key], nodes[target];
      into := into.(protocols := AppendNew(into.protocols, from.protocols),
                    initiates := into.initiates || from.initiates, responds := into.responds || from.responds);
      into := into.(mgmt := FirstSaid(into.mgmt, from.mgmt), name := FirstSaid(into.name, from.name),
                    mac := FirstSaid(into.mac, from.mac));
      nodes := nodes[target := into];
      RekeyAll(key, target);
      bySrc := PopOnto(bySrc, key, target);
      byDst := PopOnto(byDst, key, target);
      nodes := nodes - {key};
    }

    /** `index[target].extend(index.pop(key))`: the target's list is looked up before the key is popped. */
    static method PopOnto(ix: Index, key: string, target: string) returns (r: Index)
      ensures r == RekeyIndex(ix, key, target)
    {
      r := ix;
      if key in r {
        var popped := r[key];
        if target == key {
          r := r - {key};
        } else {
          r := r[target := (if target in r then r[target] else []) + popped];
          r := r - {key};
        }
      }
    }

    method RekeyAll(key: string, target: string)
      modifies this`edges
      ensures edges == RekeyEdges(old(edges), key, target)
    {
      for i := 0 to |edges|
        invariant |edges| == |old(edges)|
        invariant forall j :: 0 <= j < i ==> edges[j] == RekeyEdge(old(edges)[j], key, target)
        invariant forall j :: i <= j < |edges| ==> edges[j] == old(edges)[j]
      {
        var k := edges[i].key;
        if k.src == key {
          k := k.(src := target);
        }
        if k.dst == key {
          k := k.(dst := target);
        }
        edges := edges[i := Item(k, edges[i].value)];
      }
    }

    method ReadMacTable() returns (table: map<string, string>)
      ensures table == MacTable(conversations)
    {
      table := map[];
      for i := 0 to |conversations|
        invariant table == MacTable(conversations[..i])
      {
        assert conversations[..i + 1][..i] == conversations[..i];
        var c := conversations[i];
        if c.srcMac != "" && c.srcIp != "" {
          table := table[Text.Lower(c.srcMac) := c.srcIp];
        }
        if c.dstMac != "" && c.dstIp != "" {
          table := table[Text.Lower(c.dstMac) := c.dstIp];
        }
      }
      assert conversations[..|conversations|] == conversations;
    }

    /** The whole pass over the keys that look like MAC addresses, in the dictionary's order, which is left open. */
    method MergeL2Nodes() returns (keys: seq<string>)
      modifies this
      ensures Distinct(keys) && forall k :: k in keys <==> k in old(nodes) && HasColon(k)
      ensures Model() == MergeAll(old(Model()), keys, MacTable(conversations))
    {
      var table := ReadMacTable();
      keys := [];
      var left := set k | k in nodes && HasColon(k);
      ghost var macKeys := left;
      while left != {}
        invariant forall k :: k in macKeys <==> k in keys || k in left
        invariant forall k :: k in keys ==> k !in left
        invariant Distinct(keys)
        invariant Model() == MergeAll(old(Model()), keys, table)
        decreases left
      {
        var key :| key in left;
        assert (keys + [key])[..|keys|] == keys;
        var target := TargetOf(Graph(nodes, edges, bySrc, byDst), key, table);
        if target.Some? {
          MergeNode(key, target.value);
        }
        keys, left := keys + [key], left - {key};
      }
    }

    /**
     Indexes, graph and merge pass. The result keeps its integrity exactly when no node resolved to itself,
     whatever order the pass took.
     */
    method Build() returns (keys: seq<string>)
      requires Model() == Graph(map[], [], map[], map[])
      modifies this
      ensures var built, table := TopologyGraph.Build(conversations, skipEphemeral), MacTable(conversations);
              && Distinct(keys) && (forall k :: k in keys <==> k in built.nodes && HasColon(k))
              && Model() == MergeAll(built, keys, table)
              && (I.Sound(Model(), conversations, skipEphemeral) <==> I.NoSelf(built, keys, table))
    {
      IndexConversations();
      BuildGraph();
      assert Model() == TopologyGraph.Build(conversations, skipEphemeral);
      keys := MergeL2Nodes();
      I.IntegrityExact(conversations, skipEphemeral, keys, MacTable(conversations));
    }
  }

  lemma NodesSnoc(cs: seq<Conversation>, c: Conversation)
    ensures NodesOf(cs + [c]) == AddEnds(NodesOf(cs), c)
  {
    assert (cs + [c])[..|cs|] == cs;
  }

  lemma EdgesSnoc(cs: seq<Conversation>, c: Conversation, skip: bool)
    ensures EdgesOf(cs + [c], skip) ==
              if Skipped(c, skip) then EdgesOf(cs, skip) else Put(AddStats, EdgesOf(cs, skip), EdgeFor(c))
  {
    assert (cs + [c])[..|cs|] == cs;
    var links := Links(cs, skip);
    assert links + [] == links;
    if !Skipped(c, skip) {
      assert (links + [EdgeFor(c)])[..|links|] == links;
    }
  }
}
