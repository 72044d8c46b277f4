/**
 What a conversation built from decoded events says, told from the events themselves.
 */
module BronzeFacts {
  import opened Wrappers
  import opened KeyedFold
  import opened Lists
  import opened Bronze
  import Text

  /** The registered service ports, protocol by protocol. */
  const SERVICES: set<(string, int)> := {
    ("dhcp", 67), ("dhcp", 68), ("dns", 53), ("dns", 5353), ("dnp3", 20000), ("ethernet_ip", 44818), ("http", 80),
    ("http", 8080), ("modbus", 502), ("opc_ua", 4840), ("profinet", 34964), ("s7comm", 102), ("snmp", 161),
    ("snmp", 162)
  }

  lemma RegisteredExact(protocol: string, port: int)
    ensures port in Registered(protocol) <==> (protocol, port) in SERVICES
  {
  }

  /** How much a port looks like a server's: 3 when registered, 2 below 49152, 1 above, 0 when not given. */
  function Weight(protocol: string, port: int): int {
    if (protocol, port) in SERVICES then 3 else if port == 0 then 0 else if port < 49152 then 2 else 1
  }

  /** The client's end: the source, unless its port looks more like a server's than the destination's. */
  function Client(e: Envelope): End {
    if Weight(e.protocol, e.src.port) > Weight(e.protocol, e.dst.port) then e.dst else e.src
  }

  function Server(e: Envelope): End {
    if Weight(e.protocol, e.src.port) > Weight(e.protocol, e.dst.port) then e.src else e.dst
  }

  lemma NormaliseExact(e: Envelope, status: Status)
    ensures Normalise(e, status) == Flow(Client(e), Server(e), Server(e).port, e.transport, e.protocol)
  {
    RegisteredExact(e.protocol, e.src.port);
    RegisteredExact(e.protocol, e.dst.port);
    hide Normalise;
    TurnedWhenOutranked(e, status);
  }

  /** The conversation an event belongs to: a transaction to that of its client, server, protocol and transport, a
      link-layer observation to that of its two ends, known by MAC address or else by the identifier given. */
  predicate Belongs(x: Event, k: Key) {
    match x
    case Transaction(e, _, _) =>
      k == FlowKey(Client(e).ip, Server(e).ip, Client(e).mac, Server(e).mac, e.protocol, Server(e).port, e.transport)
    case Topology(e, localId, remoteId) =>
      k == LinkKey(e.protocol, if e.src.mac == "" then localId else e.src.mac,
                   if e.dst.mac == "" then remoteId else e.dst.mac)
    case Asset => false
    case Unknown => false
  }

  function Held(xs: seq<Event>, k: Key): seq<Event> {
    if xs == [] then []
    else Held(xs[..|xs| - 1], k) + (if Belongs(xs[|xs| - 1], k) then [xs[|xs| - 1]] else [])
  }

  predicate Counting(x: Event) { x.Transaction? || x.Topology? }

  predicate AllCounting(qs: seq<Event>) {
    forall i :: 0 <= i < |qs| ==> Counting(qs[i])
  }

  /** An event that does not say how many packets it stands for stands for one. */
  function Packets(qs: seq<Event>): int
    requires AllCounting(qs)
  {
    if qs == [] then 0
    else
      var e := qs[|qs| - 1].env;
      Packets(qs[..|qs| - 1]) + (if e.packets == 0 then 1 else e.packets)
  }

  function Bytes(qs: seq<Event>): int
    requires AllCounting(qs)
  {
    if qs == [] then 0 else Bytes(qs[..|qs| - 1]) + qs[|qs| - 1].env.bytes
  }

  function Stamps(qs: seq<Event>): seq<string>
    requires AllCounting(qs)
  {
    if qs == [] then []
    else
      var t := qs[|qs| - 1].env.time;
      Stamps(qs[..|qs| - 1]) + (if t != "" then [t] else [])
  }

  function ClientPort(x: Event): int
    requires Counting(x)
  {
    if x.Transaction? then Client(x.env).port else 0
  }

  predicate FirstClientPort(qs: seq<Event>, port: int)
    requires AllCounting(qs)
  {
    if port == 0 then forall i :: 0 <= i < |qs| ==> ClientPort(qs[i]) == 0
    else exists i :: 0 <= i < |qs| && ClientPort(qs[i]) == port && forall j :: 0 <= j < i ==> ClientPort(qs[j]) == 0
  }

  function ClientPorts(qs: seq<Event>): set<int>
    requires AllCounting(qs)
  {
    if qs == [] then {}
    else ClientPorts(qs[..|qs| - 1]) + (if qs[|qs| - 1].Transaction? then {Client(qs[|qs| - 1].env).port} else {})
  }

  function Operations(qs: seq<Event>): seq<string> {
    if qs == [] then []
    else
      var x := qs[|qs| - 1];
      Operations(qs[..|qs| - 1]) + (if x.Transaction? && x.operation != "" then [x.operation] else [])
  }

  /** The last time is the greatest any of the events gives, empty if none gives one. */
  predicate Latest(qs: seq<Event>, last: string)
    requires AllCounting(qs)
  {
    && (forall i :: 0 <= i < |qs| ==> !Text.Less(last, qs[i].env.time))
    && exists i :: 0 <= i < |qs| && qs[i].env.time == last
  }

  /** The first time is the least given, if the first event gives one; otherwise there is none. */
  predicate FirstTime(qs: seq<Event>, first: string)
    requires AllCounting(qs) && qs != []
  {
    if qs[0].env.time == "" then first == ""
    else
      && (forall i :: 0 <= i < |qs| && qs[i].env.time != "" ==> !Text.Less(qs[i].env.time, first))
      && first != "" && exists i :: 0 <= i < |qs| && qs[i].env.time == first
  }

  /** The first thirty-two different ones. */
  function FirstDifferent(operations: seq<string>): seq<string> {
    var all := AppendNew([], operations);
    if |all| <= 32 then all else all[..32]
  }

  ghost predicate Tells(a: Aggregate, qs: seq<Event>) {
    && qs != [] && AllCounting(qs)
    && a.packets == Packets(qs) && a.bytes == Bytes(qs)
    && FirstTime(qs, a.first) && Latest(qs, a.last) && a.times == Stamps(qs)
    && FirstClientPort(qs, a.srcPort) && a.portsSeen == ClientPorts(qs)
    && a.operations == FirstDifferent(Operations(qs))
  }

  lemma Snoc(qs: seq<Event>, x: Event)
    requires AllCounting(qs) && Counting(x)
    ensures AllCounting(qs + [x])
    ensures Packets(qs + [x]) == Packets(qs) + (if x.env.packets == 0 then 1 else x.env.packets)
    ensures Bytes(qs + [x]) == Bytes(qs) + x.env.bytes
    ensures Stamps(qs + [x]) == Stamps(qs) + (if x.env.time != "" then [x.env.time] else [])
    ensures ClientPorts(qs + [x]) == ClientPorts(qs) + (if x.Transaction? then {Client(x.env).port} else {})
    ensures Operations(qs + [x]) ==
              Operations(qs) + (if x.Transaction? && x.operation != "" then [x.operation] else [])
  {
    assert (qs + [x])[..|qs|] == qs;
  }

  lemma PortSnoc(qs: seq<Event>, x: Event, port: int)
    requires AllCounting(qs) && Counting(x) && FirstClientPort(qs, port) && AllCounting(qs + [x])
    ensures FirstClientPort(qs + [x], if port == 0 then ClientPort(x) else port)
  {
    var all := qs + [x];
    assert all[|qs|] == x && forall i :: 0 <= i < |qs| ==> all[i] == qs[i];
    if port != 0 {
      var i :| 0 <= i < |qs| && ClientPort(qs[i]) == port && forall j :: 0 <= j < i ==> ClientPort(qs[j]) == 0;
      assert ClientPort(all[i]) == port;
    }
  }

  lemma LatestSnoc(qs: seq<Event>, x: Event, last: string)
    requires AllCounting(qs) && Counting(x) && Latest(qs, last) && AllCounting(qs + [x])
    ensures Latest(qs + [x], Last(last, x.env.time))
  {
    var all, t := qs + [x], x.env.time;
    var last' := Last(last, t);
    assert all[|qs|] == x && forall i :: 0 <= i < |qs| ==> all[i] == qs[i];
    Text.Irreflexive(t);
    forall i | 0 <= i < |all| ensures !Text.Less(last', all[i].env.time) {
      Text.Orders(last, t, all[i].env.time);
      Text.Total(last, t);
    }
    if last' == last {
      var i :| 0 <= i < |qs| && qs[i].env.time == last;
      assert all[i].env.time == last;
    }
  }

  lemma FirstSnoc(qs: seq<Event>, x: Event, first: string)
    requires AllCounting(qs) && qs != [] && Counting(x) && FirstTime(qs, first) && AllCounting(qs + [x])
    ensures FirstTime(qs + [x], First(first, x.env.time))
  {
    var all, t := qs + [x], x.env.time;
    var first' := First(first, t);
    assert all[|qs|] == x && forall i :: 0 <= i < |qs| ==> all[i] == qs[i];
    if qs[0].env.time != "" {
      Text.Irreflexive(t);
      forall i | 0 <= i < |all| && all[i].env.time != "" ensures !Text.Less(all[i].env.time, first') {
        Text.Orders(first, t, all[i].env.time);
        Text.Total(first, t);
      }
      if first' == first {
        var i :| 0 <= i < |qs| && qs[i].env.time == first;
        assert all[i].env.time == first;
      }
    }
  }

  // What an event contributes, said without the flow it is turned into.
  lemma ContributionExact(x: Event, k: Key)
    ensures Contribution(x).Some? <==> Counting(x)
    ensures Counting(x) ==>
              var c := Contribution(x).value;
              && (c.key == k <==> Belongs(x, k))
              && c.value == Aggregate(if x.env.packets == 0 then 1 else x.env.packets, x.env.bytes,
                                      x.env.time, x.env.time,
                                      if x.env.time != "" then [x.env.time] else [], ClientPort(x),
                                      if x.Transaction? then {Client(x.env).port} else {},
                                      if x.Transaction? && x.operation != "" then [x.operation] else [])
  {
    if x.Transaction? {
      NormaliseExact(x.env, x.status);
      hide Normalise;
    }
  }

  lemma OneHeld(x: Event, c: Aggregate)
    requires Counting(x) && Contribution(x).Some? && Contribution(x).value.value == c
    ensures Tells(c, [x])
  {
    ContributionExact(x, Contribution(x).value.key);
    hide Contribution;
    Snoc([], x);
    assert [] + [x] == [x];
    Text.Irreflexive(x.env.time);
    AppendSingle(c.operations);
    OperationsKept([], c.operations);
    assert [x][0] == x;
    assert FirstClientPort([], 0);
    PortSnoc([], x, 0);
  }

  lemma OneMore(a: Aggregate, qs: seq<Event>, x: Event)
    requires Tells(a, qs) && Counting(x) && Contribution(x).Some?
    ensures Tells(Combine(a, Contribution(x).value.value), qs + [x])
  {
    ContributionExact(x, Contribution(x).value.key);
    var c := Contribution(x).value.value;
    hide Contribution;
    Snoc(qs, x);
    PortSnoc(qs, x, a.srcPort);
    LatestSnoc(qs, x, a.last);
    FirstSnoc(qs, x, a.first);
    AppendLimitedConcat([], Operations(qs), c.operations);
    OperationsKept([], Operations(qs));
    OperationsKept([], Operations(qs) + c.operations);
    hide Packets, Bytes, Stamps, FirstClientPort, ClientPorts, Operations, Latest, FirstTime, AppendLimited, AppendNew;
    hide First, Last;
    assert (qs + [x])[0] == qs[0];
  }

  ghost predicate Says(held: Option<Aggregate>, qs: seq<Event>) {
    match held case None => qs == [] case Some(a) => Tells(a, qs)
  }

  /** A conversation exists for exactly the keys some event belongs to, and tells of those events, and of them alone:
      packets, bytes, first and last time, all times, the first client port, all of them, and the first thirty-two
      different operations. */
  lemma {:induction false} ConversationExact(xs: seq<Event>, k: Key)
    ensures Says(Get(Merged(Combine, Entries(xs)), k), Held(xs, k))
  {
    if xs != [] {
      var init, x := xs[..|xs| - 1], xs[|xs| - 1];
      ConversationExact(init, k);
      ContributionExact(x, k);
      EntriesNext(xs, k);
      assert Held(init, k) + [] == Held(init, k);
      if Belongs(x, k) {
        BelongsCounts(x, k);
        SaysNext(Get(Merged(Combine, Entries(init)), k), Held(init, k), x);
      }
      hide Says, Contribution, Combine, Entries, Belongs, Counting;
    }
  }

  lemma SaysNext(held: Option<Aggregate>, qs: seq<Event>, x: Event)
    requires Says(held, qs) && Counting(x) && Contribution(x).Some?
    ensures var c := Contribution(x).value.value;
            Says(Some(match held case None => c case Some(a) => Combine(a, c)), qs + [x])
  {
    var c := Contribution(x).value.value;
    hide Tells, Contribution, Combine, Counting;
    match held {
      case None =>
        OneHeld(x, c);
        assert [] + [x] == [x];
      case Some(a) => OneMore(a, qs, x);
    }
  }

  lemma BelongsCounts(x: Event, k: Key)
    requires Belongs(x, k)
    ensures Counting(x)
  {
  }

  lemma EntriesNext(xs: seq<Event>, k: Key)
    requires xs != []
    ensures var init, x := xs[..|xs| - 1], xs[|xs| - 1];
            var held := Get(Merged(Combine, Entries(init)), k);
            Get(Merged(Combine, Entries(xs)), k) ==
              if Contribution(x).None? || Contribution(x).value.key != k then held
              else match held {
                   case None => Some(Contribution(x).value.value)
                   case Some(a) => Some(Combine(a, Contribution(x).value.value))
                 }
  {
    var init, x := xs[..|xs| - 1], xs[|xs| - 1];
    var before := Entries(init);
    match Contribution(x) {
      case None => assert Entries(xs) == before + [] == before;
      case Some(c) =>
        assert Entries(xs) == before + [c] && (before + [c])[..|before|] == before;
        GetPut(Combine, Merged(Combine, before), c, k);
    }
  }
}
