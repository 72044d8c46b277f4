/**
 Integrity of the topology through building and merging. `home` records where each merged-away key went;
 a graph is linked to its conversations when it is exactly the built graph with every key sent home.
 */
module TopologyIntegrity {
  import opened Wrappers
  import opened KeyedFold
  import opened Lists
  import opened TopologyGraph

  type Homes = map<string, string>

  function Home(home: Homes, k: string): string { if k in home then home[k] else k }

  /** Conversation `i` has side `s` at home in `k`. */
  predicate Sits(home: Homes, cs: seq<Conversation>, s: Side, i: nat, k: string) {
    i < |cs| && Home(home, cs[i].End(s)) == k
  }

  ghost predicate Ends(home: Homes, cs: seq<Conversation>, k: string) {
    exists i: nat, s :: Sits(home, cs, s, i, k)
  }

  predicate Homed(g: Graph, home: Homes) {
    forall k :: k in home ==> k !in g.nodes && home[k] in g.nodes
  }

  /** A node exists exactly when some conversation ends there. */
  ghost predicate NodesLinked(g: Graph, cs: seq<Conversation>, home: Homes) {
    forall k :: k in g.nodes <==> Ends(home, cs, k)
  }

  predicate EdgesLinked(g: Graph, cs: seq<Conversation>, skip: bool, home: Homes) {
    var built := EdgesOf(cs, skip);
    |g.edges| == |built| &&
    forall j :: 0 <= j < |built| ==>
      && g.edges[j].value == built[j].value
      && g.edges[j].key == built[j].key.(src := Home(home, built[j].key.src), dst := Home(home, built[j].key.dst))
  }

  /** Each conversation sits exactly once in the index, under the home of its key, which is a node. */
  ghost predicate IndexLinked(g: Graph, cs: seq<Conversation>, s: Side, home: Homes) {
    IndexHolds(g.By(s), cs, s, home) && forall k :: k in g.By(s) ==> k in g.nodes
  }

  ghost predicate IndexHolds(ix: Index, cs: seq<Conversation>, s: Side, home: Homes) {
    && (forall k :: k in ix ==> Distinct(ix[k]))
    && (forall k, i: nat :: k in ix ==> (i in ix[k] <==> Sits(home, cs, s, i, k)))
    && (forall k, i: nat :: Sits(home, cs, s, i, k) ==> k in ix)
  }

  /** A node initiates, or responds, exactly when some conversation of its keys does. */
  ghost predicate RolesLinked(g: Graph, cs: seq<Conversation>, s: Side, home: Homes) {
    forall k :: k in g.nodes ==> (g.nodes[k].Plays(s) <==> exists i: nat :: Sits(home, cs, s, i, k))
  }

  ghost predicate Speaks(cs: seq<Conversation>, home: Homes, k: string, p: string) {
    exists i: nat, s :: Sits(home, cs, s, i, k) && cs[i].display == p
  }

  ghost predicate ProtocolsLinked(g: Graph, cs: seq<Conversation>, home: Homes) {
    forall k, p :: k in g.nodes ==> (p in g.nodes[k].protocols <==> Speaks(cs, home, k, p))
  }

  ghost predicate Linked(g: Graph, cs: seq<Conversation>, skip: bool, home: Homes) {
    && Homed(g, home)
    && NodesLinked(g, cs, home)
    && EdgesLinked(g, cs, skip, home)
    && IndexLinked(g, cs, Source, home) && IndexLinked(g, cs, Target, home)
    && RolesLinked(g, cs, Source, home) && RolesLinked(g, cs, Target, home)
    && ProtocolsLinked(g, cs, home)
  }

  // ---- the built graph ----

  lemma TouchedNodes(nodes: Nodes, key: string, ip: string, mac: string, s: Side, display: string, k: string)
    requires k in Touched(nodes, key, ip, mac, s, display)
    ensures var n := Touched(nodes, key, ip, mac, s, display)[k];
            && (k != key ==> k in nodes && n == nodes[k])
            && (k == key ==> n.Plays(s) && display in n.protocols)
            && (forall t: Side :: t != s && k == key ==> (n.Plays(t) <==> k in nodes && nodes[k].Plays(t)))
            && (forall p :: p in n.protocols <==> (k in nodes && p in nodes[k].protocols) || (k == key && p == display))
  {
    if k == key {
      AppendOne(if key in nodes then nodes[key].protocols else [], display);
    }
  }

  // One conversation's effect on the nodes.
  lemma AddEndsNodes(nodes: Nodes, c: Conversation, k: string)
    ensures k in AddEnds(nodes, c) <==> k in nodes || k == c.Src() || k == c.Dst()
    ensures k in AddEnds(nodes, c) ==>
              var n := AddEnds(nodes, c)[k];
              && (n.initiates <==> (k in nodes && nodes[k].initiates) || k == c.Src())
              && (n.responds <==> (k in nodes && nodes[k].responds) || k == c.Dst())
              && (forall p :: p in n.protocols <==>
                    (k in nodes && p in nodes[k].protocols) || ((k == c.Src() || k == c.Dst()) && p == c.display))
  {
    var sourced := Touched(nodes, c.Src(), c.srcIp, c.srcMac, Source, c.display);
    var both := Touched(sourced, c.Dst(), c.dstIp, c.dstMac, Target, c.display);
    if k in both {
      TouchedNodes(sourced, c.Dst(), c.dstIp, c.dstMac, Target, c.display, k);
      if k in sourced {
        TouchedNodes(nodes, c.Src(), c.srcIp, c.srcMac, Source, c.display, k);
      }
    }
  }

  // With nothing merged, one more conversation sits where its keys say.
  lemma SitsMore(cs: seq<Conversation>, k: string)
    requires cs != []
    ensures var init, last := cs[..|cs| - 1], |cs| - 1;
            && (forall i: nat, s :: Sits(map[], cs, s, i, k) <==>
                  Sits(map[], init, s, i, k) || (i == last && cs[last].End(s) == k))
            && (forall i: nat, s :: Sits(map[], init, s, i, k) ==> init[i] == cs[i])
  {
  }

  lemma {:induction false} BuiltNodes(cs: seq<Conversation>, k: string)
    ensures k in NodesOf(cs) <==> Ends(map[], cs, k)
    ensures k in NodesOf(cs) ==>
              && (NodesOf(cs)[k].initiates <==> exists i: nat :: Sits(map[], cs, Source, i, k))
              && (NodesOf(cs)[k].responds <==> exists i: nat :: Sits(map[], cs, Target, i, k))
  {
    if cs != [] {
      var init, c, last := cs[..|cs| - 1], cs[|cs| - 1], |cs| - 1;
      BuiltNodes(init, k);
      AddEndsNodes(NodesOf(init), c, k);
      SitsMore(cs, k);
      assert c.Src() == k ==> Sits(map[], cs, Source, last, k);
      assert c.Dst() == k ==> Sits(map[], cs, Target, last, k);
      assert c.End(Source) == c.Src() && c.End(Target) == c.Dst();
      if i: nat, s :| Sits(map[], init, s, i, k) {
        assert Sits(map[], cs, s, i, k);
      }
    }
  }

  lemma {:induction false} BuiltProtocols(cs: seq<Conversation>, k: string, p: string)
    requires k in NodesOf(cs)
    ensures p in NodesOf(cs)[k].protocols <==> Speaks(cs, map[], k, p)
  {
    var init, c, last := cs[..|cs| - 1], cs[|cs| - 1], |cs| - 1;
    AddEndsNodes(NodesOf(init), c, k);
    SitsMore(cs, k);
    assert c.Src() == k ==> Sits(map[], cs, Source, last, k);
    assert c.Dst() == k ==> Sits(map[], cs, Target, last, k);
    assert c.End(Source) == c.Src() && c.End(Target) == c.Dst();
    if k in NodesOf(init) {
      BuiltProtocols(init, k, p);
    } else {
      BuiltNodes(init, k);
    }
    if Speaks(init, map[], k, p) {
      var i: nat, s :| Sits(map[], init, s, i, k) && init[i].display == p;
      assert Sits(map[], cs, s, i, k) && cs[i].display == p;
    }
  }

  lemma {:induction false} BuiltIndex(cs: seq<Conversation>, s: Side)
    ensures IndexHolds(IndexOf(cs, s), cs, s, map[])
    ensures forall k :: k in IndexOf(cs, s) ==> Seated(cs, s, k)
  {
    if cs != [] {
      BuiltIndex(cs[..|cs| - 1], s);
      hide IndexOf;
      forall k
        ensures EntryHolds(IndexOf(cs, s), cs, s, k)
        ensures k in IndexOf(cs, s) ==> Seated(cs, s, k)
      {
        BuiltEntry(cs, s, k);
      }
      EachHolds(IndexOf(cs, s), cs, s);
    }
  }

  ghost predicate Seated(cs: seq<Conversation>, s: Side, k: string) {
    exists i: nat :: Sits(map[], cs, s, i, k)
  }

  /** What the index should say of one key, before anything is merged. */
  ghost predicate EntryHolds(ix: Index, cs: seq<Conversation>, s: Side, k: string) {
    && (k in ix ==> Distinct(ix[k]))
    && (forall i: nat :: k in ix ==> (i in ix[k] <==> Sits(map[], cs, s, i, k)))
    && (forall i: nat :: Sits(map[], cs, s, i, k) ==> k in ix)
  }

  lemma EachHolds(ix: Index, cs: seq<Conversation>, s: Side)
    requires forall k :: EntryHolds(ix, cs, s, k)
    ensures IndexHolds(ix, cs, s, map[])
  {
    forall k ensures k in ix ==> Distinct(ix[k]) {
      assert EntryHolds(ix, cs, s, k);
    }
    forall k, i: nat
      ensures k in ix ==> (i in ix[k] <==> Sits(map[], cs, s, i, k))
      ensures Sits(map[], cs, s, i, k) ==> k in ix
    {
      assert EntryHolds(ix, cs, s, k);
    }
  }

  lemma BuiltEntry(cs: seq<Conversation>, s: Side, k: string)
    requires cs != [] && IndexHolds(IndexOf(cs[..|cs| - 1], s), cs[..|cs| - 1], s, map[])
    requires k in IndexOf(cs[..|cs| - 1], s) ==> Seated(cs[..|cs| - 1], s, k)
    ensures EntryHolds(IndexOf(cs, s), cs, s, k)
    ensures k in IndexOf(cs, s) ==> Seated(cs, s, k)
  {
    var init, last := cs[..|cs| - 1], |cs| - 1;
    var ix, ix', own := IndexOf(init, s), IndexOf(cs, s), cs[last].End(s);
    SitsMore(cs, k);
    if k == own {
      var held: seq<nat> := if own in ix then ix[own] else [];
      assert ix'[own] == held + [last];
      assert Sits(map[], cs, s, last, own);
      assert forall i: nat :: i in held ==> Sits(map[], init, s, i, own);
      DisjointConcat(held, [last]);
    }
  }

  /** Building links the graph to its conversations. */
  lemma BuildLinked(cs: seq<Conversation>, skip: bool)
    ensures Linked(Build(cs, skip), cs, skip, map[])
  {
    BuiltNodesLinked(cs, skip);
    BuiltProtocolsLinked(cs, skip);
    BuiltIndexLinked(cs, skip, Source);
    BuiltIndexLinked(cs, skip, Target);
    BuiltEdgesLinked(cs, skip);
  }

  lemma BuiltProtocolsLinked(cs: seq<Conversation>, skip: bool)
    ensures ProtocolsLinked(Build(cs, skip), cs, map[])
  {
    var g := Build(cs, skip);
    forall k, p | k in g.nodes ensures p in g.nodes[k].protocols <==> Speaks(cs, map[], k, p) {
      BuiltProtocols(cs, k, p);
    }
  }

  lemma BuiltIndexLinked(cs: seq<Conversation>, skip: bool, s: Side)
    ensures IndexLinked(Build(cs, skip), cs, s, map[])
  {
    BuiltIndex(cs, s);
    forall k | k in IndexOf(cs, s) ensures k in NodesOf(cs) {
      var i: nat :| Sits(map[], cs, s, i, k);
      BuiltNodes(cs, k);
    }
  }

  lemma BuiltEdgesLinked(cs: seq<Conversation>, skip: bool)
    ensures EdgesLinked(Build(cs, skip), cs, skip, map[])
  {
    var built := EdgesOf(cs, skip);
    forall j | 0 <= j < |built|
      ensures built[j].key == built[j].key.(src := Home(map[], built[j].key.src), dst := Home(map[], built[j].key.dst))
    {
    }
  }

  lemma BuiltNodesLinked(cs: seq<Conversation>, skip: bool)
    ensures var g := Build(cs, skip);
            && NodesLinked(g, cs, map[])
            && RolesLinked(g, cs, Source, map[]) && RolesLinked(g, cs, Target, map[])
  {
    var g := Build(cs, skip);
    forall k
      ensures k in g.nodes <==> Ends(map[], cs, k)
      ensures k in g.nodes ==> (g.nodes[k].Plays(Source) <==> exists i: nat :: Sits(map[], cs, Source, i, k))
      ensures k in g.nodes ==> (g.nodes[k].Plays(Target) <==> exists i: nat :: Sits(map[], cs, Target, i, k))
    {
      BuiltNodes(cs, k);
    }
  }

  // ---- one merge ----

  function Moved(home: Homes, key: string, target: string): Homes {
    (map k | k in home :: Rekey(home[k], key, target))[key := target]
  }

  lemma HomeMoves(g: Graph, home: Homes, key: string, target: string, k: string)
    requires Homed(g, home) && key in g.nodes
    ensures Home(Moved(home, key, target), k) == Rekey(Home(home, k), key, target)
  {
  }

  lemma HomedAfter(g: Graph, home: Homes, key: string, target: string)
    requires Homed(g, home) && key in g.nodes && target in g.nodes && key != target
    ensures Homed(MergeOne(g, key, target), Moved(home, key, target))
  {
  }

  lemma EdgesAfter(g: Graph, cs: seq<Conversation>, skip: bool, home: Homes, key: string, target: string)
    requires Homed(g, home) && EdgesLinked(g, cs, skip, home) && key in g.nodes && target in g.nodes
    ensures EdgesLinked(MergeOne(g, key, target), cs, skip, Moved(home, key, target))
  {
    var built, g' := EdgesOf(cs, skip), MergeOne(g, key, target);
    forall j | 0 <= j < |built|
      ensures g'.edges[j].value == built[j].value
      ensures g'.edges[j].key == built[j].key.(src := Home(Moved(home, key, target), built[j].key.src),
                                               dst := Home(Moved(home, key, target), built[j].key.dst))
    {
      HomeMoves(g, home, key, target, built[j].key.src);
      HomeMoves(g, home, key, target, built[j].key.dst);
    }
  }

  // Who sits where after a merge: the target also has what the merged key had.
  lemma SitsAfter(g: Graph, cs: seq<Conversation>, home: Homes, key: string, target: string, k: string)
    requires Homed(g, home) && key in g.nodes && key != target
    ensures forall i: nat, s :: Sits(Moved(home, key, target), cs, s, i, k) <==>
              k != key && (Sits(home, cs, s, i, k) || (k == target && Sits(home, cs, s, i, key)))
  {
    forall i: nat, s
      ensures Sits(Moved(home, key, target), cs, s, i, k) <==>
                k != key && (Sits(home, cs, s, i, k) || (k == target && Sits(home, cs, s, i, key)))
    {
      if i < |cs| {
        HomeMoves(g, home, key, target, cs[i].End(s));
      }
    }
  }

  lemma IndexAfter(g: Graph, cs: seq<Conversation>, s: Side, home: Homes, key: string, target: string)
    requires Homed(g, home) && IndexLinked(g, cs, s, home) && key in g.nodes && target in g.nodes && key != target
    ensures IndexLinked(MergeOne(g, key, target), cs, s, Moved(home, key, target))
  {
    hide Sits, Moved, Homed;
    var ix' := MergeOne(g, key, target).By(s);
    assert ix' == RekeyIndex(g.By(s), key, target);
    forall k
      ensures k in ix' ==> Distinct(ix'[k])
      ensures forall i: nat :: k in ix' ==> (i in ix'[k] <==> Sits(Moved(home, key, target), cs, s, i, k))
      ensures forall i: nat :: Sits(Moved(home, key, target), cs, s, i, k) ==> k in ix'
    {
      SitsAfter(g, cs, home, key, target, k);
      EntryAfter(g.By(s), cs, s, home, key, target, k);
      forall i: nat ensures Sits(Moved(home, key, target), cs, s, i, k) <==> SitsMoved(home, cs, s, i, key, target, k) {
      }
    }
  }

  /** Once `key` is merged into `target`, the conversation sits at `k`. */
  predicate SitsMoved(home: Homes, cs: seq<Conversation>, s: Side, i: nat, key: string, target: string, k: string) {
    k != key && (Sits(home, cs, s, i, k) || (k == target && Sits(home, cs, s, i, key)))
  }

  // One entry of a rekeyed index.
  lemma EntryAfter(ix: Index, cs: seq<Conversation>, s: Side, home: Homes, key: string, target: string, k: string)
    requires IndexHolds(ix, cs, s, home) && key != target
    ensures var ix' := RekeyIndex(ix, key, target);
            && (k in ix' ==> Distinct(ix'[k]))
            && (forall i: nat :: k in ix' ==> (i in ix'[k] <==> SitsMoved(home, cs, s, i, key, target, k)))
            && (forall i: nat :: SitsMoved(home, cs, s, i, key, target, k) ==> k in ix')
  {
    if k == target && key in ix {
      var held := if target in ix then ix[target] else [];
      forall i: nat | i in held ensures i !in ix[key] {
        assert Sits(home, cs, s, i, target);
        SitsOnce(home, cs, s, i, key, target);
      }
      DisjointConcat(held, ix[key]);
    }
  }

  lemma SitsOnce(home: Homes, cs: seq<Conversation>, s: Side, i: nat, a: string, b: string)
    requires a != b && Sits(home, cs, s, i, b)
    ensures !Sits(home, cs, s, i, a)
  {
  }

  lemma DisjointConcat(a: seq<nat>, b: seq<nat>)
    requires Distinct(a) && Distinct(b) && forall i :: i in a ==> i !in b
    ensures Distinct(a + b) && forall i :: i in a + b <==> i in a || i in b
  {
    forall i, j | 0 <= i < j < |a + b| ensures (a + b)[i] != (a + b)[j] {
      if i < |a| <= j {
        assert (a + b)[i] in a && (a + b)[j] in b;
      }
    }
  }

  lemma NodesAfter(g: Graph, cs: seq<Conversation>, home: Homes, key: string, target: string)
    requires Homed(g, home) && NodesLinked(g, cs, home) && key in g.nodes && target in g.nodes && key != target
    ensures NodesLinked(MergeOne(g, key, target), cs, Moved(home, key, target))
  {
    hide Ends, Moved, Homed;
    forall k ensures k in MergeOne(g, key, target).nodes <==> Ends(Moved(home, key, target), cs, k) {
      EndsAfter(g, cs, home, key, target, k);
    }
  }

  lemma EndsAfter(g: Graph, cs: seq<Conversation>, home: Homes, key: string, target: string, k: string)
    requires Homed(g, home) && key in g.nodes && key != target
    ensures Ends(Moved(home, key, target), cs, k) <==>
              k != key && (Ends(home, cs, k) || (k == target && Ends(home, cs, key)))
  {
    SitsAfter(g, cs, home, key, target, k);
    if i: nat, s :| Sits(Moved(home, key, target), cs, s, i, k) {
      assert Sits(home, cs, s, i, k) || (k == target && Sits(home, cs, s, i, key));
    }
    if k != key {
      if i: nat, s :| Sits(home, cs, s, i, k) {
        assert Sits(Moved(home, key, target), cs, s, i, k);
      }
      if i: nat, s :| k == target && Sits(home, cs, s, i, key) {
        assert Sits(Moved(home, key, target), cs, s, i, k);
      }
    }
  }

  lemma RolesAfter(g: Graph, cs: seq<Conversation>, s: Side, home: Homes, key: string, target: string)
    requires Homed(g, home) && RolesLinked(g, cs, s, home) && key in g.nodes && target in g.nodes && key != target
    ensures RolesLinked(MergeOne(g, key, target), cs, s, Moved(home, key, target))
  {
    var g', home' := MergeOne(g, key, target), Moved(home, key, target);
    forall k | k in g'.nodes ensures g'.nodes[k].Plays(s) <==> exists i: nat :: Sits(home', cs, s, i, k) {
      SitsAfter(g, cs, home, key, target, k);
      if g'.nodes[k].Plays(s) {
        var from := if g.nodes[k].Plays(s) then k else key;
        var i: nat :| Sits(home, cs, s, i, from);
        assert Sits(home', cs, s, i, k);
      }
      if i: nat :| Sits(home', cs, s, i, k) {
        assert Sits(home, cs, s, i, k) || (k == target && Sits(home, cs, s, i, key));
      }
    }
  }

  lemma ProtocolsAfter(g: Graph, cs: seq<Conversation>, home: Homes, key: string, target: string)
    requires Homed(g, home) && ProtocolsLinked(g, cs, home) && key in g.nodes && target in g.nodes && key != target
    ensures ProtocolsLinked(MergeOne(g, key, target), cs, Moved(home, key, target))
  {
    var g', home' := MergeOne(g, key, target), Moved(home, key, target);
    AppendNewContents(g.nodes[target].protocols, g.nodes[key].protocols);
    forall k, p | k in g'.nodes ensures p in g'.nodes[k].protocols <==> Speaks(cs, home', k, p) {
      assert p in g'.nodes[k].protocols <==>
             p in g.nodes[k].protocols || (k == target && p in g.nodes[key].protocols);
      SpeaksAfter(g, cs, home, key, target, k, p);
    }
  }

  lemma SpeaksAfter(g: Graph, cs: seq<Conversation>, home: Homes, key: string, target: string, k: string, p: string)
    requires Homed(g, home) && key in g.nodes && key != target && k != key
    ensures Speaks(cs, Moved(home, key, target), k, p) <==>
              Speaks(cs, home, k, p) || (k == target && Speaks(cs, home, key, p))
  {
    var home' := Moved(home, key, target);
    SitsAfter(g, cs, home, key, target, k);
    if Speaks(cs, home, k, p) {
      var i: nat, s :| Sits(home, cs, s, i, k) && cs[i].display == p;
      assert Sits(home', cs, s, i, k);
    }
    if k == target && Speaks(cs, home, key, p) {
      var i: nat, s :| Sits(home, cs, s, i, key) && cs[i].display == p;
      assert Sits(home', cs, s, i, k);
    }
  }

  /** Merging a node into another one keeps the graph linked, with the merged key sent to its target. */
  lemma MergeLinked(g: Graph, cs: seq<Conversation>, skip: bool, home: Homes, key: string, target: string)
    requires Linked(g, cs, skip, home) && key in g.nodes && target in g.nodes && key != target
    ensures Linked(MergeOne(g, key, target), cs, skip, Moved(home, key, target))
  {
    HomedAfter(g, home, key, target);
    NodesAfter(g, cs, home, key, target);
    EdgesAfter(g, cs, skip, home, key, target);
    IndexAfter(g, cs, Source, home, key, target);
    IndexAfter(g, cs, Target, home, key, target);
    RolesAfter(g, cs, Source, home, key, target);
    RolesAfter(g, cs, Target, home, key, target);
    ProtocolsAfter(g, cs, home, key, target);
  }

  // ---- a whole pass ----

  /** No key of the pass resolves to itself when its turn comes. */
  predicate NoSelf(g: Graph, keys: seq<string>, table: map<string, string>) {
    keys == [] ||
    (var init, key := keys[..|keys| - 1], keys[|keys| - 1];
     NoSelf(g, init, table) && TargetOf(MergeAll(g, init, table), key, table) != Some(key))
  }

  /** Where a pass without self-merges sends each merged-away key. */
  function HomesOf(g: Graph, keys: seq<string>, table: map<string, string>): Homes {
    if keys == [] then map[]
    else
      var init, key := keys[..|keys| - 1], keys[|keys| - 1];
      match TargetOf(MergeAll(g, init, table), key, table)
      case None => HomesOf(g, init, table)
      case Some(t) => Moved(HomesOf(g, init, table), key, t)
  }

  /** Over any sequence of merges in which no node resolves to itself, the graph stays linked. */
  lemma {:induction false} PassLinked(cs: seq<Conversation>, skip: bool, keys: seq<string>, table: map<string, string>)
    requires NoSelf(Build(cs, skip), keys, table)
    ensures Linked(MergeAll(Build(cs, skip), keys, table), cs, skip, HomesOf(Build(cs, skip), keys, table))
  {
    if keys == [] {
      BuildLinked(cs, skip);
    } else {
      var init, key := keys[..|keys| - 1], keys[|keys| - 1];
      PassLinked(cs, skip, init, table);
      var g, home := MergeAll(Build(cs, skip), init, table), HomesOf(Build(cs, skip), init, table);
      var t := TargetOf(g, key, table);
      if t.Some? {
        MergeLinked(g, cs, skip, home, key, t.value);
      }
    }
  }

  // ---- what linkage gives ----

  predicate EndpointsExist(g: Graph) {
    forall j :: 0 <= j < |g.edges| ==> g.edges[j].key.src in g.nodes && g.edges[j].key.dst in g.nodes
  }

  lemma {:induction false} LinkEnds(cs: seq<Conversation>, skip: bool, x: Edge)
    requires x in Links(cs, skip)
    ensures exists i :: 0 <= i < |cs| && cs[i].Src() == x.key.src && cs[i].Dst() == x.key.dst
  {
    var init, c := cs[..|cs| - 1], cs[|cs| - 1];
    if x in Links(init, skip) {
      LinkEnds(init, skip, x);
      var i :| 0 <= i < |init| && init[i].Src() == x.key.src && init[i].Dst() == x.key.dst;
      assert cs[i] == init[i];
    } else {
      assert cs[|cs| - 1].Src() == x.key.src;
    }
  }

  lemma BuiltEdgeEnds(cs: seq<Conversation>, skip: bool, j: nat)
    requires j < |EdgesOf(cs, skip)|
    ensures exists i :: 0 <= i < |cs| && cs[i].Src() == EdgesOf(cs, skip)[j].key.src
                                      && cs[i].Dst() == EdgesOf(cs, skip)[j].key.dst
  {
    var e := EdgesOf(cs, skip)[j];
    assert e in EdgesOf(cs, skip);
    MergedKey(AddStats, Links(cs, skip), e);
    var x :| x in Links(cs, skip) && x.key == e.key;
    LinkEnds(cs, skip, x);
  }

  function Kept(cs: seq<Conversation>, skip: bool): nat {
    if cs == [] then 0 else Kept(cs[..|cs| - 1], skip) + (if Skipped(cs[|cs| - 1], skip) then 0 else 1)
  }

  function KeptBytes(cs: seq<Conversation>, skip: bool): int {
    if cs == [] then 0
    else KeptBytes(cs[..|cs| - 1], skip) + (if Skipped(cs[|cs| - 1], skip) then 0 else cs[|cs| - 1].bytes)
  }

  lemma LinkNext(w: Stats -> int, cs: seq<Conversation>, skip: bool)
    requires cs != []
    ensures var init, c := cs[..|cs| - 1], cs[|cs| - 1];
            Sum(w, Links(cs, skip)) ==
              Sum(w, Links(init, skip)) + (if Skipped(c, skip) then 0 else w(EdgeFor(c).value))
  {
    hide Skipped, EdgeFor;
    var init, c := cs[..|cs| - 1], cs[|cs| - 1];
    if Skipped(c, skip) {
      assert Links(cs, skip) == Links(init, skip);
    } else {
      var links := Links(cs, skip);
      assert links == Links(init, skip) + [EdgeFor(c)];
      assert links[..|links| - 1] == Links(init, skip);
      SumSnoc(w, links);
    }
  }

  lemma {:induction false} LinkTotals(cs: seq<Conversation>, skip: bool)
    ensures Sum((v: Stats) => v.conversations, Links(cs, skip)) == Kept(cs, skip)
    ensures Sum((v: Stats) => v.bytes, Links(cs, skip)) == KeptBytes(cs, skip)
  {
    if cs != [] {
      LinkTotals(cs[..|cs| - 1], skip);
      LinkNext((v: Stats) => v.conversations, cs, skip);
      LinkNext((v: Stats) => v.bytes, cs, skip);
    }
  }

  lemma {:induction false} SumByValues(w: Stats -> int, xs: seq<Edge>, ys: seq<Edge>)
    requires |xs| == |ys| && forall j :: 0 <= j < |xs| ==> xs[j].value == ys[j].value
    ensures Sum(w, xs) == Sum(w, ys)
  {
    if xs != [] {
      SumByValues(w, xs[1..], ys[1..]);
    }
  }

  /** Whatever was merged, every edge joins existing nodes ... */
  lemma EndpointsLinked(g: Graph, cs: seq<Conversation>, skip: bool, home: Homes)
    requires Linked(g, cs, skip, home)
    ensures EndpointsExist(g)
  {
    var built := EdgesOf(cs, skip);
    forall j | 0 <= j < |g.edges| ensures g.edges[j].key.src in g.nodes && g.edges[j].key.dst in g.nodes {
      BuiltEdgeEnds(cs, skip, j);
      var i: nat :| i < |cs| && cs[i].Src() == built[j].key.src && cs[i].Dst() == built[j].key.dst;
      assert Sits(home, cs, Source, i, g.edges[j].key.src) && Sits(home, cs, Target, i, g.edges[j].key.dst);
    }
  }

  /** ... no conversation or byte of a kept conversation is lost from the edges ... */
  lemma EdgesConserve(g: Graph, cs: seq<Conversation>, skip: bool, home: Homes)
    requires EdgesLinked(g, cs, skip, home)
    ensures Sum((v: Stats) => v.conversations, g.edges) == Kept(cs, skip)
    ensures Sum((v: Stats) => v.bytes, g.edges) == KeptBytes(cs, skip)
  {
    var built := EdgesOf(cs, skip);
    LinkTotals(cs, skip);
    SumConserved(AddStats, (v: Stats) => v.conversations, Links(cs, skip));
    SumConserved(AddStats, (v: Stats) => v.bytes, Links(cs, skip));
    SumByValues((v: Stats) => v.conversations, built, g.edges);
    SumByValues((v: Stats) => v.bytes, built, g.edges);
  }

  ghost predicate Filed(g: Graph, s: Side, i: nat) {
    exists k :: k in g.nodes && k in g.By(s) && i in g.By(s)[k] && Distinct(g.By(s)[k])
      && forall k' :: k' in g.By(s) && i in g.By(s)[k'] ==> k' == k
  }

  ghost predicate Sound(g: Graph, cs: seq<Conversation>, skip: bool) {
    && EndpointsExist(g)
    && Sum((v: Stats) => v.conversations, g.edges) == Kept(cs, skip)
    && Sum((v: Stats) => v.bytes, g.edges) == KeptBytes(cs, skip)
    && (forall i: nat :: i < |cs| ==> Filed(g, Source, i))
    && (forall i: nat :: i < |cs| ==> Filed(g, Target, i))
  }

  lemma LinkedIsSound(g: Graph, cs: seq<Conversation>, skip: bool, home: Homes)
    requires Linked(g, cs, skip, home)
    ensures Sound(g, cs, skip)
  {
    EndpointsLinked(g, cs, skip, home);
    EdgesConserve(g, cs, skip, home);
    AllFiled(g, cs, Source, home);
    AllFiled(g, cs, Target, home);
  }

  /** ... and each conversation is filed once per index, under one existing node. */
  lemma AllFiled(g: Graph, cs: seq<Conversation>, s: Side, home: Homes)
    requires IndexLinked(g, cs, s, home)
    ensures forall i: nat :: i < |cs| ==> Filed(g, s, i)
  {
    forall i: nat | i < |cs| ensures Filed(g, s, i) {
      var k := Home(home, cs[i].End(s));
      assert Sits(home, cs, s, i, k);
      assert k in g.nodes && k in g.By(s) && i in g.By(s)[k] && Distinct(g.By(s)[k]);
      assert forall k' :: k' in g.By(s) && i in g.By(s)[k'] ==> Sits(home, cs, s, i, k');
    }
  }

  // ---- a self-merge loses conversations ----

  /** Conversation `i` is filed under no key. */
  predicate Lost(ix: Index, i: nat) {
    forall k :: k in ix ==> i !in ix[k]
  }

  lemma LostStays(ix: Index, i: nat, key: string, target: string)
    requires Lost(ix, i)
    ensures Lost(RekeyIndex(ix, key, target), i)
  {
  }

  lemma LostAfterStep(g: Graph, s: Side, i: nat, key: string, table: map<string, string>)
    requires Lost(g.By(s), i)
    ensures Lost(MergeStep(g, key, table).By(s), i)
  {
    var t := TargetOf(g, key, table);
    if t.Some? {
      LostStays(g.By(s), i, key, t.value);
    }
  }

  lemma LostIsUnsound(g: Graph, cs: seq<Conversation>, skip: bool, s: Side, i: nat)
    requires i < |cs| && Lost(g.By(s), i)
    ensures !Sound(g, cs, skip)
  {
    assert !Filed(g, s, i);
  }

  // A linked node holds a conversation that is filed nowhere else; merged into itself, it takes it away.
  lemma SelfMergeLoses(g: Graph, cs: seq<Conversation>, home: Homes, key: string) returns (s: Side, i: nat)
    requires NodesLinked(g, cs, home) && IndexLinked(g, cs, Source, home) && IndexLinked(g, cs, Target, home)
    requires key in g.nodes
    ensures i < |cs| && Lost(MergeOne(g, key, key).By(s), i)
  {
    hide MergeOne, IndexHolds;
    assert Ends(home, cs, key);
    i, s :| Sits(home, cs, s, i, key);
    assert IndexLinked(g, cs, s, home);
    OnlyThere(g.By(s), cs, s, home, i, key);
    MergedIndex(g, s, key, key);
  }

  lemma OnlyThere(ix: Index, cs: seq<Conversation>, s: Side, home: Homes, i: nat, key: string)
    requires IndexHolds(ix, cs, s, home) && Sits(home, cs, s, i, key)
    ensures Lost(RekeyIndex(ix, key, key), i)
  {
    forall k | k in ix && i in ix[k] ensures k == key {
      assert Sits(home, cs, s, i, k);
    }
  }

  lemma MergedIndex(g: Graph, s: Side, key: string, target: string)
    requires key in g.nodes && target in g.nodes
    ensures MergeOne(g, key, target).By(s) == RekeyIndex(g.By(s), key, target)
  {
  }

  lemma {:induction false} PassLoses(cs: seq<Conversation>, skip: bool, keys: seq<string>, table: map<string, string>)
    returns (s: Side, i: nat)
    requires !NoSelf(Build(cs, skip), keys, table)
    ensures i < |cs| && Lost(MergeAll(Build(cs, skip), keys, table).By(s), i)
  {
    var init, key := keys[..|keys| - 1], keys[|keys| - 1];
    var g := MergeAll(Build(cs, skip), init, table);
    if NoSelf(Build(cs, skip), init, table) {
      PassLinked(cs, skip, init, table);
      s, i := SelfMergeLoses(g, cs, HomesOf(Build(cs, skip), init, table), key);
    } else {
      s, i := PassLoses(cs, skip, init, table);
      LostAfterStep(g, s, i, key, table);
    }
  }

  /**
   Integrity of the builder's result, over every order in which the pass may visit its keys: it holds exactly
   when no node resolves to itself when its turn comes.
   */
  lemma IntegrityExact(cs: seq<Conversation>, skip: bool, keys: seq<string>, table: map<string, string>)
    ensures Sound(MergeAll(Build(cs, skip), keys, table), cs, skip) <==> NoSelf(Build(cs, skip), keys, table)
  {
    hide NoSelf, MergeAll, Linked, Sound, Lost;
    var g := MergeAll(Build(cs, skip), keys, table);
    if NoSelf(Build(cs, skip), keys, table) {
      PassLinked(cs, skip, keys, table);
      LinkedIsSound(g, cs, skip, HomesOf(Build(cs, skip), keys, table));
    } else {
      var s, i := PassLoses(cs, skip, keys, table);
      LostIsUnsound(g, cs, skip, s, i);
    }
  }
}
