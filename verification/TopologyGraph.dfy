/**
 The topology graph: what building it from conversations, merging a layer-2 node into its IP-keyed
 counterpart, and a whole pass of such merges do to nodes, edges and the two conversation indexes.
 */
module TopologyGraph {
  import opened Wrappers
  import opened KeyedFold
  import opened Lists
  import Text

  const EPHEMERAL_PORT_MIN := 49152

  /** `display` is the protocol with a trailing port number dropped; `mgmt` and `name` are what an LLDP or CDP
      sender says of itself, blank otherwise. */
  datatype Conversation = Conversation(
    srcIp: string, srcMac: string, dstIp: string, dstMac: string, protocol: string, display: string, port: nat,
    transport: string, bytes: int, first: string, last: string, writes: bool, program: bool, srcPorts: nat,
    mgmt: string, name: string)
  {
    /** A node is keyed by its IP address, or by its MAC address when it has none. */
    function Src(): string { if srcIp != "" then srcIp else srcMac }
    function Dst(): string { if dstIp != "" then dstIp else dstMac }
    function End(s: Side): string { if s.Source? then Src() else Dst() }
  }

  datatype Side = Source | Target

  datatype Node = Node(ip: string, mac: string, protocols: seq<string>, initiates: bool, responds: bool,
                       mgmt: string, name: string, level: int)
  {
    predicate Plays(s: Side) { if s.Source? then initiates else responds }
  }

  datatype EdgeKey = EdgeKey(src: string, dst: string, protocol: string, port: nat, transport: string)

  datatype Stats = Stats(conversations: nat, bytes: int, first: string, last: string, writes: bool, program: bool,
                         srcPorts: nat)

  type Edge = Item<EdgeKey, Stats>

  type Nodes = map<string, Node>
  type Index = map<string, seq<nat>>

  datatype Graph = Graph(nodes: Nodes, edges: seq<Edge>, bySrc: Index, byDst: Index)
  {
    function By(s: Side): Index { if s.Source? then bySrc else byDst }
  }

  function FirstSaid(a: string, b: string): string { if a == "" then b else a }

  // ---- building ----

  function Touched(nodes: Nodes, key: string, ip: string, mac: string, s: Side, display: string): Nodes {
    var n := if key in nodes then nodes[key] else Node(ip, mac, [], false, false, "", "", -1);
    var n' := if s.Source? then n.(initiates := true) else n.(responds := true);
    nodes[key := n'.(protocols := AppendNew(n.protocols, [display]))]
  }

  function Advertised(nodes: Nodes, key: string, mgmt: string, name: string): Nodes {
    if key in nodes
    then nodes[key := nodes[key].(mgmt := FirstSaid(nodes[key].mgmt, mgmt), name := FirstSaid(nodes[key].name, name))]
    else nodes
  }

  function AddEnds(nodes: Nodes, c: Conversation): Nodes {
    var sourced := Touched(nodes, c.Src(), c.srcIp, c.srcMac, Source, c.display);
    var both := Touched(sourced, c.Dst(), c.dstIp, c.dstMac, Target, c.display);
    Advertised(both, c.Src(), c.mgmt, c.name)
  }

  function NodesOf(cs: seq<Conversation>): Nodes {
    if cs == [] then map[] else AddEnds(NodesOf(cs[..|cs| - 1]), cs[|cs| - 1])
  }

  function AddStats(a: Stats, b: Stats): Stats {
    Stats(a.conversations + b.conversations, a.bytes + b.bytes, Text.Earlier(a.first, b.first),
          Text.Later(a.last, b.last), a.writes || b.writes, a.program || b.program, a.srcPorts + b.srcPorts)
  }

  function EdgeFor(c: Conversation): Edge {
    Item(EdgeKey(c.Src(), c.Dst(), c.protocol, c.port, c.transport),
         Stats(1, c.bytes, c.first, c.last, c.writes, c.program, c.srcPorts))
  }

  predicate Skipped(c: Conversation, skipEphemeral: bool) {
    skipEphemeral && c.port >= EPHEMERAL_PORT_MIN
  }

  /** One edge per kept conversation, before those of equal key are united. */
  function Links(cs: seq<Conversation>, skip: bool): seq<Edge> {
    if cs == [] then []
    else
      var c := cs[|cs| - 1];
      Links(cs[..|cs| - 1], skip) + (if Skipped(c, skip) then [] else [EdgeFor(c)])
  }

  function EdgesOf(cs: seq<Conversation>, skip: bool): seq<Edge> {
    Merged(AddStats, Links(cs, skip))
  }

  function AddId(ix: Index, key: string, i: nat): Index {
    ix[key := (if key in ix then ix[key] else []) + [i]]
  }

  /** For every node key, the conversations with it at one end, in order. */
  function IndexOf(cs: seq<Conversation>, s: Side): Index {
    if cs == [] then map[] else AddId(IndexOf(cs[..|cs| - 1], s), cs[|cs| - 1].End(s), |cs| - 1)
  }

  function Build(cs: seq<Conversation>, skip: bool): Graph {
    Graph(NodesOf(cs), EdgesOf(cs, skip), IndexOf(cs, Source), IndexOf(cs, Target))
  }

  // ---- merging one node into another ----

  function Absorbed(into: Node, from: Node): Node {
    into.(protocols := AppendNew(into.protocols, from.protocols), initiates := into.initiates || from.initiates,
          responds := into.responds || from.responds, mgmt := FirstSaid(into.mgmt, from.mgmt),
          name := FirstSaid(into.name, from.name), mac := FirstSaid(into.mac, from.mac))
  }

  function Rekey(x: string, key: string, target: string): string { if x == key then target else x }

  function RekeyEdge(e: Edge, key: string, target: string): Edge {
    e.(key := e.key.(src := Rekey(e.key.src, key, target), dst := Rekey(e.key.dst, key, target)))
  }

  function RekeyEdges(es: seq<Edge>, key: string, target: string): seq<Edge> {
    seq(|es|, i requires 0 <= i < |es| => RekeyEdge(es[i], key, target))
  }

  /** Popping a key's list onto the target's. When they are the same key the popped list is lost. */
  function RekeyIndex(ix: Index, key: string, target: string): Index {
    if key !in ix then ix
    else if key == target then ix - {key}
    else (ix - {key})[target := (if target in ix then ix[target] else []) + ix[key]]
  }

  function MergeOne(g: Graph, key: string, target: string): Graph
    requires key in g.nodes && target in g.nodes
  {
    Graph(g.nodes[target := Absorbed(g.nodes[target], g.nodes[key])] - {key},
          RekeyEdges(g.edges, key, target), RekeyIndex(g.bySrc, key, target), RekeyIndex(g.byDst, key, target))
  }

  // ---- a pass of merges ----

  /** MAC to IP address over all conversations; later ones win. */
  function MacTable(cs: seq<Conversation>): map<string, string> {
    if cs == [] then map[]
    else
      var t, c := MacTable(cs[..|cs| - 1]), cs[|cs| - 1];
      var t' := if c.srcMac != "" && c.srcIp != "" then t[Text.Lower(c.srcMac) := c.srcIp] else t;
      if c.dstMac != "" && c.dstIp != "" then t'[Text.Lower(c.dstMac) := c.dstIp] else t'
  }

  function Resolve(n: Node, key: string, table: map<string, string>): string {
    if n.mgmt != "" then n.mgmt else if Text.Lower(key) in table then table[Text.Lower(key)] else ""
  }

  /** The node that `key` is about to be merged into, if any. */
  function TargetOf(g: Graph, key: string, table: map<string, string>): Option<string> {
    if key !in g.nodes then None
    else
      var t := Resolve(g.nodes[key], key, table);
      if t == "" || t !in g.nodes then None else Some(t)
  }

  function MergeStep(g: Graph, key: string, table: map<string, string>): Graph {
    match TargetOf(g, key, table) case None => g case Some(t) => MergeOne(g, key, t)
  }

  function MergeAll(g: Graph, keys: seq<string>, table: map<string, string>): Graph {
    if keys == [] then g else MergeStep(MergeAll(g, keys[..|keys| - 1], table), keys[|keys| - 1], table)
  }

  predicate HasColon(s: string) { ':' in s }
}
