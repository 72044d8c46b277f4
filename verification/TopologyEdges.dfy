/**
 What the built graph says of the conversations, told from the conversations alone: which edges there are and what each
 adds up, and where a node's addresses and names come from.
 */
module TopologyEdges {
  import opened Wrappers
  import opened KeyedFold
  import opened Lists
  import opened TopologyGraph
  import Text

  // ---- edges ----

  /** The conversation is drawn as this edge: of a host pair, a protocol, a port below the ephemeral range (or any, when
      nothing is skipped) and a transport. A host is its IP address, or its MAC address when it has none. */
  predicate Drawn(c: Conversation, skip: bool, k: EdgeKey) {
    && (!skip || c.port < 49152)
    && k.src == (if c.srcIp != "" then c.srcIp else c.srcMac)
    && k.dst == (if c.dstIp != "" then c.dstIp else c.dstMac)
    && k.protocol == c.protocol && k.port == c.port && k.transport == c.transport
  }

  predicate DrawnAt(cs: seq<Conversation>, skip: bool, k: EdgeKey, i: nat) {
    i < |cs| && Drawn(cs[i], skip, k)
  }

  function Count(cs: seq<Conversation>, skip: bool, k: EdgeKey): nat {
    if cs == [] then 0 else Count(cs[1..], skip, k) + (if Drawn(cs[0], skip, k) then 1 else 0)
  }

  function Bytes(cs: seq<Conversation>, skip: bool, k: EdgeKey): int {
    if cs == [] then 0 else Bytes(cs[1..], skip, k) + (if Drawn(cs[0], skip, k) then cs[0].bytes else 0)
  }

  function SourcePorts(cs: seq<Conversation>, skip: bool, k: EdgeKey): nat {
    if cs == [] then 0 else SourcePorts(cs[1..], skip, k) + (if Drawn(cs[0], skip, k) then cs[0].srcPorts else 0)
  }

  ghost predicate Writing(cs: seq<Conversation>, skip: bool, k: EdgeKey) {
    exists i: nat :: DrawnAt(cs, skip, k, i) && cs[i].writes
  }

  ghost predicate Programming(cs: seq<Conversation>, skip: bool, k: EdgeKey) {
    exists i: nat :: DrawnAt(cs, skip, k, i) && cs[i].program
  }

  /** `first` is the least time given, empty if none is; `last` the greatest. */
  ghost predicate Spans(first: string, last: string, cs: seq<Conversation>, skip: bool, k: EdgeKey) {
    && (exists i: nat :: DrawnAt(cs, skip, k, i) && cs[i].first == first)
    && (exists i: nat :: DrawnAt(cs, skip, k, i) && cs[i].last == last)
    && (forall i: nat :: DrawnAt(cs, skip, k, i) && cs[i].first != "" ==> first != "" && !Text.Less(cs[i].first, first))
    && (forall i: nat :: DrawnAt(cs, skip, k, i) ==> !Text.Less(last, cs[i].last))
  }

  /** The edge adds up exactly the conversations drawn as it. */
  ghost predicate Sums(v: Stats, cs: seq<Conversation>, skip: bool, k: EdgeKey) {
    && v.conversations == Count(cs, skip, k) && v.conversations > 0
    && v.bytes == Bytes(cs, skip, k)
    && v.srcPorts == SourcePorts(cs, skip, k)
    && (v.writes <==> Writing(cs, skip, k))
    && (v.program <==> Programming(cs, skip, k))
    && Spans(v.first, v.last, cs, skip, k)
  }

  lemma {:induction false} SumsSnoc(cs: seq<Conversation>, c: Conversation, skip: bool, k: EdgeKey)
    ensures Count(cs + [c], skip, k) == Count(cs, skip, k) + (if Drawn(c, skip, k) then 1 else 0)
    ensures Bytes(cs + [c], skip, k) == Bytes(cs, skip, k) + (if Drawn(c, skip, k) then c.bytes else 0)
    ensures SourcePorts(cs + [c], skip, k) == SourcePorts(cs, skip, k) + (if Drawn(c, skip, k) then c.srcPorts else 0)
  {
    hide Drawn;
    if cs == [] {
      assert cs + [c] == [c] && [c][1..] == [];
    } else {
      assert (cs + [c])[1..] == cs[1..] + [c];
      SumsSnoc(cs[1..], c, skip, k);
    }
  }

  lemma DrawnSnoc(cs: seq<Conversation>, c: Conversation, skip: bool, k: EdgeKey)
    ensures forall i: nat :: DrawnAt(cs + [c], skip, k, i) <==>
              DrawnAt(cs, skip, k, i) || (i == |cs| && Drawn(c, skip, k))
    ensures forall i: nat :: DrawnAt(cs, skip, k, i) ==> (cs + [c])[i] == cs[i]
  {
  }

  lemma OtherEdge(v: Stats, cs: seq<Conversation>, c: Conversation, skip: bool, k: EdgeKey)
    requires !Drawn(c, skip, k)
    ensures Sums(v, cs + [c], skip, k) <==> Sums(v, cs, skip, k)
  {
    hide Drawn;
    SumsSnoc(cs, c, skip, k);
    DrawnSnoc(cs, c, skip, k);
    forall i: nat ensures DrawnAt(cs + [c], skip, k, i) <==> DrawnAt(cs, skip, k, i) {
    }
    assert Writing(cs + [c], skip, k) <==> Writing(cs, skip, k);
    assert Programming(cs + [c], skip, k) <==> Programming(cs, skip, k);
    SpansOther(v.first, v.last, cs, c, skip, k);
  }

  lemma SpansOther(first: string, last: string, cs: seq<Conversation>, c: Conversation, skip: bool, k: EdgeKey)
    requires !Drawn(c, skip, k)
    ensures Spans(first, last, cs + [c], skip, k) <==> Spans(first, last, cs, skip, k)
  {
    hide Drawn;
    DrawnSnoc(cs, c, skip, k);
  }

  lemma FirstDrawn(cs: seq<Conversation>, c: Conversation, skip: bool, k: EdgeKey)
    requires Drawn(c, skip, k) && forall i: nat :: !DrawnAt(cs, skip, k, i)
    ensures Spans(c.first, c.last, cs + [c], skip, k)
    ensures Writing(cs + [c], skip, k) <==> c.writes
    ensures Programming(cs + [c], skip, k) <==> c.program
  {
    hide Drawn;
    DrawnSnoc(cs, c, skip, k);
    assert DrawnAt(cs + [c], skip, k, |cs|);
    Text.Irreflexive(c.first);
    Text.Irreflexive(c.last);
  }

  lemma {:induction false} NoneDrawn(cs: seq<Conversation>, skip: bool, k: EdgeKey)
    requires forall i: nat :: !DrawnAt(cs, skip, k, i)
    ensures Count(cs, skip, k) == 0 && Bytes(cs, skip, k) == 0 && SourcePorts(cs, skip, k) == 0
  {
    hide Drawn;
    if cs != [] {
      assert !DrawnAt(cs, skip, k, 0);
      forall i: nat ensures !DrawnAt(cs[1..], skip, k, i) {
        assert !DrawnAt(cs, skip, k, i + 1);
      }
      NoneDrawn(cs[1..], skip, k);
    }
  }

  lemma SpansNext(first: string, last: string, cs: seq<Conversation>, c: Conversation, skip: bool, k: EdgeKey)
    requires Drawn(c, skip, k) && Spans(first, last, cs, skip, k)
    ensures Spans(Text.Earlier(first, c.first), Text.Later(last, c.last), cs + [c], skip, k)
  {
    hide Drawn;
    DrawnSnoc(cs, c, skip, k);
    var all, first', last' := cs + [c], Text.Earlier(first, c.first), Text.Later(last, c.last);
    assert DrawnAt(all, skip, k, |cs|) && all[|cs|] == c;
    forall i: nat | DrawnAt(all, skip, k, i)
      ensures all[i].first != "" ==> first' != "" && !Text.Less(all[i].first, first')
      ensures !Text.Less(last', all[i].last)
    {
      Text.Orders(all[i].first, first, c.first);
      Text.Orders(all[i].last, last, c.last);
      Text.Total(first, c.first);
      Text.Total(last, c.last);
    }
    var i: nat :| DrawnAt(cs, skip, k, i) && cs[i].first == first;
    assert DrawnAt(all, skip, k, i) && all[i].first == first;
    var j: nat :| DrawnAt(cs, skip, k, j) && cs[j].last == last;
    assert DrawnAt(all, skip, k, j) && all[j].last == last;
  }

  lemma FlagsNext(cs: seq<Conversation>, c: Conversation, skip: bool, k: EdgeKey)
    requires Drawn(c, skip, k)
    ensures Writing(cs + [c], skip, k) <==> Writing(cs, skip, k) || c.writes
    ensures Programming(cs + [c], skip, k) <==> Programming(cs, skip, k) || c.program
  {
    hide Drawn;
    DrawnSnoc(cs, c, skip, k);
    var all := cs + [c];
    assert DrawnAt(all, skip, k, |cs|) && all[|cs|] == c;
    if i: nat :| DrawnAt(cs, skip, k, i) && cs[i].writes {
      assert DrawnAt(all, skip, k, i) && all[i].writes;
    }
    if i: nat :| DrawnAt(cs, skip, k, i) && cs[i].program {
      assert DrawnAt(all, skip, k, i) && all[i].program;
    }
  }

  lemma OneMore(v: Stats, cs: seq<Conversation>, c: Conversation, skip: bool, k: EdgeKey)
    requires Drawn(c, skip, k) && Sums(v, cs, skip, k)
    ensures Sums(AddStats(v, EdgeFor(c).value), cs + [c], skip, k)
  {
    hide Drawn, Spans, Writing, Programming;
    SumsSnoc(cs, c, skip, k);
    SpansNext(v.first, v.last, cs, c, skip, k);
    FlagsNext(cs, c, skip, k);
  }

  lemma LinkNext(cs: seq<Conversation>, c: Conversation, skip: bool, k: EdgeKey)
    ensures Get(EdgesOf(cs + [c], skip), k) ==
              if !Drawn(c, skip, k) then Get(EdgesOf(cs, skip), k)
              else match Get(EdgesOf(cs, skip), k) {
                   case None => Some(EdgeFor(c).value)
                   case Some(v) => Some(AddStats(v, EdgeFor(c).value))
                 }
  {
    hide AddStats;
    assert (cs + [c])[..|cs|] == cs;
    if !Skipped(c, skip) {
      var links := Links(cs, skip);
      assert Links(cs + [c], skip) == links + [EdgeFor(c)];
      assert (links + [EdgeFor(c)])[..|links|] == links;
      GetPut(AddStats, EdgesOf(cs, skip), EdgeFor(c), k);
      assert EdgeFor(c).key == k <==> Drawn(c, skip, k);
    } else {
      assert Links(cs + [c], skip) == Links(cs, skip) + [] == Links(cs, skip);
    }
  }

  lemma {:induction false} EdgeMeans(cs: seq<Conversation>, skip: bool, k: EdgeKey)
    ensures match Get(EdgesOf(cs, skip), k)
            case None => forall i: nat :: !DrawnAt(cs, skip, k, i)
            case Some(v) => Sums(v, cs, skip, k)
  {
    if cs != [] {
      var init, c := cs[..|cs| - 1], cs[|cs| - 1];
      EdgeMeans(init, skip, k);
      assert cs == init + [c];
      LinkNext(init, c, skip, k);
      hide EdgesOf, Drawn, Sums, AddStats, EdgeFor;
      StepMeans(Get(EdgesOf(init, skip), k), Get(EdgesOf(cs, skip), k), init, c, skip, k);
    }
  }

  ghost predicate Means(held: Option<Stats>, cs: seq<Conversation>, skip: bool, k: EdgeKey) {
    match held
    case None => forall i: nat :: !DrawnAt(cs, skip, k, i)
    case Some(v) => Sums(v, cs, skip, k)
  }

  lemma StepMeans(held: Option<Stats>, next: Option<Stats>, cs: seq<Conversation>, c: Conversation, skip: bool,
        k: EdgeKey)
    requires Means(held, cs, skip, k)
    requires next == if !Drawn(c, skip, k) then held
                     else match held {
                          case None => Some(EdgeFor(c).value)
                          case Some(v) => Some(AddStats(v, EdgeFor(c).value))
                        }
    ensures Means(next, cs + [c], skip, k)
  {
    hide Drawn, Sums, AddStats;
    if !Drawn(c, skip, k) {
      match held {
        case None => DrawnSnoc(cs, c, skip, k);
        case Some(v) => OtherEdge(v, cs, c, skip, k);
      }
    } else {
      match held {
        case None => FirstSums(cs, c, skip, k);
        case Some(v) => OneMore(v, cs, c, skip, k);
      }
    }
  }

  lemma FirstSums(cs: seq<Conversation>, c: Conversation, skip: bool, k: EdgeKey)
    requires Drawn(c, skip, k) && forall i: nat :: !DrawnAt(cs, skip, k, i)
    ensures Sums(EdgeFor(c).value, cs + [c], skip, k)
  {
    hide Drawn, Spans, Writing, Programming;
    NoneDrawn(cs, skip, k);
    SumsSnoc(cs, c, skip, k);
    FirstDrawn(cs, c, skip, k);
  }

  /**
   The edges of a built graph: no two have the same two hosts, protocol, port and transport; there is one for
   exactly the combinations some kept conversation has; and each adds up exactly those conversations.
   */
  lemma EdgesExact(cs: seq<Conversation>, skip: bool)
    ensures var edges := Build(cs, skip).edges;
            && (forall i, j :: 0 <= i < j < |edges| ==> edges[i].key != edges[j].key)
            && (forall e :: e in edges ==> Sums(e.value, cs, skip, e.key))
            && (forall k, i: nat :: DrawnAt(cs, skip, k, i) ==> exists e :: e in edges && e.key == k)
  {
    hide Sums, DrawnAt, Links;
    var edges := EdgesOf(cs, skip);
    MergedOncePerKey(AddStats, [], Links(cs, skip));
    KeysDiffer(edges);
    forall e | e in edges ensures Sums(e.value, cs, skip, e.key) {
      GetHeld(edges, e);
      EdgeMeans(cs, skip, e.key);
    }
    forall k, i: nat | DrawnAt(cs, skip, k, i) ensures exists e :: e in edges && e.key == k {
      EdgeMeans(cs, skip, k);
      GetHolds(edges, k);
    }
  }

  // ---- nodes ----

  /** One end of a conversation: the key of its node, and the addresses it gives. */
  datatype EndOf = EndOf(key: string, ip: string, mac: string)

  function SourceOf(c: Conversation): EndOf {
    EndOf(if c.srcIp != "" then c.srcIp else c.srcMac, c.srcIp, c.srcMac)
  }

  function TargetEnd(c: Conversation): EndOf {
    EndOf(if c.dstIp != "" then c.dstIp else c.dstMac, c.dstIp, c.dstMac)
  }

  /** The ends of the conversations, in the order in which they are met. */
  function EndsIn(cs: seq<Conversation>): seq<EndOf> {
    if cs == [] then [] else EndsIn(cs[..|cs| - 1]) + [SourceOf(cs[|cs| - 1]), TargetEnd(cs[|cs| - 1])]
  }

  /** The node's addresses are those of the first end with its key. */
  predicate FirstMet(n: Node, ends: seq<EndOf>, k: string) {
    exists i :: 0 <= i < |ends| && ends[i] == EndOf(k, n.ip, n.mac) && forall j :: 0 <= j < i ==> ends[j].key != k
  }

  /** `word` is the first that a conversation sent from `k` says, empty if none says any. */
  predicate FirstWord(say: Conversation -> string, cs: seq<Conversation>, k: string, word: string) {
    if word == "" then forall i :: 0 <= i < |cs| && SourceOf(cs[i]).key == k ==> say(cs[i]) == ""
    else exists i :: 0 <= i < |cs| && SourceOf(cs[i]).key == k && say(cs[i]) == word
                     && forall j :: 0 <= j < i && SourceOf(cs[j]).key == k ==> say(cs[j]) == ""
  }

  function Name(c: Conversation): string { c.name }
  function Management(c: Conversation): string { c.mgmt }

  predicate Met(ends: seq<EndOf>, k: string) {
    exists i :: 0 <= i < |ends| && ends[i].key == k
  }

  lemma MetNext(ends: seq<EndOf>, x: EndOf, y: EndOf, k: string)
    ensures Met(ends + [x, y], k) <==> Met(ends, k) || x.key == k || y.key == k
  {
    var all := ends + [x, y];
    assert all[|ends|] == x && all[|ends| + 1] == y;
    if i :| 0 <= i < |ends| && ends[i].key == k {
      assert all[i].key == k;
    }
  }

  lemma FirstMetLater(n: Node, ends: seq<EndOf>, more: seq<EndOf>, k: string)
    requires FirstMet(n, ends, k)
    ensures FirstMet(n, ends + more, k)
  {
    var i :| 0 <= i < |ends| && ends[i] == EndOf(k, n.ip, n.mac) && forall j :: 0 <= j < i ==> ends[j].key != k;
    assert (ends + more)[i] == ends[i];
    assert forall j :: 0 <= j < i ==> (ends + more)[j] == ends[j];
  }

  lemma FirstMetNow(n: Node, ends: seq<EndOf>, x: EndOf, y: EndOf, k: string)
    requires !Met(ends, k)
    requires x == EndOf(k, n.ip, n.mac) || (x.key != k && y == EndOf(k, n.ip, n.mac))
    ensures FirstMet(n, ends + [x, y], k)
  {
    var all := ends + [x, y];
    assert all[|ends|] == x && all[|ends| + 1] == y;
    assert forall j :: 0 <= j < |ends| ==> all[j] == ends[j];
  }

  lemma WordNext(say: Conversation -> string, cs: seq<Conversation>, c: Conversation, k: string, word: string)
    requires FirstWord(say, cs, k, word)
    ensures FirstWord(say, cs + [c], k, if word == "" && SourceOf(c).key == k then say(c) else word)
  {
    var all := cs + [c];
    assert all[|cs|] == c && forall i :: 0 <= i < |cs| ==> all[i] == cs[i];
    if word != "" {
      var i :| 0 <= i < |cs| && SourceOf(cs[i]).key == k && say(cs[i]) == word
               && forall j :: 0 <= j < i && SourceOf(cs[j]).key == k ==> say(cs[j]) == "";
      assert SourceOf(all[i]).key == k && say(all[i]) == word;
    } else if SourceOf(c).key == k && say(c) != "" {
      assert SourceOf(all[|cs|]).key == k;
    }
  }

  // What one conversation does to the addresses and words of a node.
  lemma NodeNext(nodes: Nodes, c: Conversation, k: string)
    ensures k in AddEnds(nodes, c) <==> k in nodes || k == SourceOf(c).key || k == TargetEnd(c).key
    ensures k in AddEnds(nodes, c) ==>
              var n := AddEnds(nodes, c)[k];
              var held := if k in nodes then nodes[k] else Node("", "", [], false, false, "", "", -1);
              && (k in nodes ==> n.ip == held.ip && n.mac == held.mac)
              && (k !in nodes && k == SourceOf(c).key ==> SourceOf(c) == EndOf(k, n.ip, n.mac))
              && (k !in nodes && k != SourceOf(c).key ==> TargetEnd(c) == EndOf(k, n.ip, n.mac))
              && n.name == (if held.name == "" && k == SourceOf(c).key then c.name else held.name)
              && n.mgmt == (if held.mgmt == "" && k == SourceOf(c).key then c.mgmt else held.mgmt)
  {
  }

  lemma NothingMet(k: string)
    ensures !Met(EndsIn([]), k) && FirstWord(Name, [], k, "") && FirstWord(Management, [], k, "")
  {
  }

  /** A node carries the addresses of the first end met with its key, and the first name and management address that
      its own conversations say. */
  lemma {:induction false} NodesExact(cs: seq<Conversation>, k: string)
    ensures k in NodesOf(cs) <==> Met(EndsIn(cs), k)
    ensures k in NodesOf(cs) ==>
              var n := NodesOf(cs)[k];
              FirstMet(n, EndsIn(cs), k) && FirstWord(Name, cs, k, n.name) && FirstWord(Management, cs, k, n.mgmt)
    ensures k !in NodesOf(cs) ==> FirstWord(Name, cs, k, "") && FirstWord(Management, cs, k, "")
  {
    if cs == [] {
      NothingMet(k);
    } else {
      var init, c := cs[..|cs| - 1], cs[|cs| - 1];
      var ends, two := EndsIn(init), [SourceOf(c), TargetEnd(c)];
      NodesExact(init, k);
      NodeNext(NodesOf(init), c, k);
      MetNext(ends, SourceOf(c), TargetEnd(c), k);
      hide AddEnds, Met, FirstMet, FirstWord;
      assert cs == init + [c] && EndsIn(cs) == ends + two;
      var held := if k in NodesOf(init) then NodesOf(init)[k] else Node("", "", [], false, false, "", "", -1);
      WordNext(Name, init, c, k, held.name);
      WordNext(Management, init, c, k, held.mgmt);
      if k in NodesOf(init) {
        FirstMetLater(held, ends, two, k);
      } else if k in NodesOf(cs) {
        FirstMetNow(NodesOf(cs)[k], ends, SourceOf(c), TargetEnd(c), k);
      }
    }
  }

  // ---- what a merge resolves to and moves ----

  /** The address table gives a MAC address, in lower case, the IP address beside its last appearance with one. */
  predicate LastBeside(ends: seq<EndOf>, mac: string, ip: string) {
    exists i :: 0 <= i < |ends| && ends[i].ip == ip && ip != "" && ends[i].mac != "" &&
      Text.Lower(ends[i].mac) == mac &&
      forall j :: i < j < |ends| && ends[j].ip != "" && ends[j].mac != "" ==> Text.Lower(ends[j].mac) != mac
  }

  predicate NeverBeside(ends: seq<EndOf>, mac: string) {
    forall j :: 0 <= j < |ends| && ends[j].ip != "" && ends[j].mac != "" ==> Text.Lower(ends[j].mac) != mac
  }

  ghost predicate TableSays(table: map<string, string>, ends: seq<EndOf>, mac: string) {
    if mac in table then LastBeside(ends, mac, table[mac]) else NeverBeside(ends, mac)
  }

  function Noted(table: map<string, string>, x: EndOf): map<string, string> {
    if x.mac != "" && x.ip != "" then table[Text.Lower(x.mac) := x.ip] else table
  }

  lemma TableNext(table: map<string, string>, ends: seq<EndOf>, x: EndOf, mac: string)
    requires TableSays(table, ends, mac)
    ensures TableSays(Noted(table, x), ends + [x], mac)
  {
    var all := ends + [x];
    assert all[|ends|] == x && forall i :: 0 <= i < |ends| ==> all[i] == ends[i];
    if x.mac != "" && x.ip != "" && Text.Lower(x.mac) == mac {
      assert LastBeside(all, mac, x.ip);
    } else if mac in table {
      var i :| 0 <= i < |ends| && ends[i].ip == table[mac] && table[mac] != "" && ends[i].mac != ""
               && Text.Lower(ends[i].mac) == mac
               && forall j :: i < j < |ends| && ends[j].ip != "" && ends[j].mac != "" ==>
                    Text.Lower(ends[j].mac) != mac;
      assert all[i] == ends[i];
    }
  }

  lemma {:induction false} MacTableExact(cs: seq<Conversation>, mac: string)
    ensures TableSays(MacTable(cs), EndsIn(cs), mac)
  {
    if cs != [] {
      var init, c := cs[..|cs| - 1], cs[|cs| - 1];
      MacTableExact(init, mac);
      var ends, x, y := EndsIn(init), SourceOf(c), TargetEnd(c);
      TableNext(MacTable(init), ends, x, mac);
      TableNext(Noted(MacTable(init), x), ends + [x], y, mac);
      assert EndsIn(cs) == ends + [x] + [y];
    }
  }

  /** A node is merged into the one its management address names, or, if it has none, into the one the table names for
      its key; only into one that exists. */
  lemma TargetExact(g: Graph, key: string, table: map<string, string>, t: string)
    ensures TargetOf(g, key, table) == Some(t) <==>
              && key in g.nodes && t in g.nodes && t != ""
              && (g.nodes[key].mgmt != "" ==> g.nodes[key].mgmt == t)
              && (g.nodes[key].mgmt == "" ==> Text.Lower(key) in table && table[Text.Lower(key)] == t)
  {
  }

  /** The merged node keeps its addresses and words where it has any, and takes the other's where it has none. */
  lemma MergedNode(g: Graph, key: string, target: string)
    requires key in g.nodes && target in g.nodes && key != target
    ensures var a, b, n := g.nodes[target], g.nodes[key], MergeOne(g, key, target).nodes[target];
            && n.ip == a.ip && n.level == a.level
            && n.mac == (if a.mac != "" then a.mac else b.mac)
            && n.mgmt == (if a.mgmt != "" then a.mgmt else b.mgmt)
            && n.name == (if a.name != "" then a.name else b.name)
            && a.protocols <= n.protocols
            && (forall p :: p in n.protocols <==> p in a.protocols || p in b.protocols)
            && (n.initiates <==> a.initiates || b.initiates) && (n.responds <==> a.responds || b.responds)
    ensures forall k :: k in g.nodes && k != key && k != target ==> MergeOne(g, key, target).nodes[k] == g.nodes[k]
  {
    AppendNewContents(g.nodes[target].protocols, g.nodes[key].protocols);
  }
}
