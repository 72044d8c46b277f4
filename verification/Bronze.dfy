/**
 The adapter for decoded ("Bronze") events: every request or response is turned so that it runs from client
 to server, and events of one flow are added up. Protocol and transport names are taken in lower case.
 */
module Bronze {
  import opened Wrappers
  import opened KeyedFold
  import opened Lists
  import opened Text

  datatype End = End(ip: string, mac: string, port: int)

  /** `packets` and `bytes` are 0, and `time` is empty, when the event does not say. */
  datatype Envelope = Envelope(protocol: string, transport: string, src: End, dst: End,
                               packets: int, bytes: int, time: string)

  datatype Status = Response | Request | OtherStatus

  datatype Flow = Flow(src: End, dst: End, service: int, transport: string, protocol: string)

  function Registered(protocol: string): set<int> {
    match protocol
    case "dhcp" => {67, 68}
    case "dns" => {53, 5353}
    case "dnp3" => {20000}
    case "ethernet_ip" => {44818}
    case "http" => {80, 8080}
    case "modbus" => {502}
    case "opc_ua" => {4840}
    case "profinet" => {34964}
    case "s7comm" => {102}
    case "snmp" => {161, 162}
    case _ => {}
  }

  const EPHEMERAL := 49152

  function ServicePort(protocol: string, src: int, dst: int): int {
    if dst in Registered(protocol) then dst
    else if src in Registered(protocol) then src
    else if dst != 0 && dst < EPHEMERAL then dst
    else if src != 0 && src < EPHEMERAL then src
    else if dst != 0 then dst
    else src
  }

  function Reversed(service: int, src: int, dst: int, status: Status): bool {
    match status
    case Response => service != 0 && src == service && dst != service
    case Request => service != 0 && src == service && dst != service
    case OtherStatus => service != 0 && src == service && dst != service
  }

  function Normalise(e: Envelope, status: Status): Flow {
    var service := ServicePort(e.protocol, e.src.port, e.dst.port);
    if Reversed(service, e.src.port, e.dst.port, status)
    then Flow(e.dst, e.src, service, e.transport, e.protocol)
    else Flow(e.src, e.dst, service, e.transport, e.protocol)
  }

  // ---- which end is the server ----

  /** How server-like a port is: registered for the protocol, then below the ephemeral range, then any, then none. */
  function Rank(protocol: string, port: int): int {
    if port in Registered(protocol) then 3 else if port == 0 then 0 else if port < EPHEMERAL then 2 else 1
  }

  /** An event is turned exactly when its source port outranks its destination port, whatever its status. */
  lemma TurnedWhenOutranked(e: Envelope, status: Status)
    ensures Normalise(e, status) ==
              if Rank(e.protocol, e.src.port) > Rank(e.protocol, e.dst.port)
              then Flow(e.dst, e.src, e.src.port, e.transport, e.protocol)
              else Flow(e.src, e.dst, e.dst.port, e.transport, e.protocol)
  {
    assert 0 !in Registered(e.protocol);
  }

  function Reread(f: Flow, e: Envelope): Envelope {
    e.(src := f.src, dst := f.dst, transport := f.transport, protocol := f.protocol)
  }

  /** A normalised event is already normal, under any status, and runs towards its service port. */
  lemma NormaliseIdempotent(e: Envelope, status: Status, again: Status)
    ensures var f := Normalise(e, status);
            && Normalise(Reread(f, e), again) == f
            && f.service == f.dst.port
            && Rank(f.protocol, f.src.port) <= Rank(f.protocol, f.dst.port)
  {
    TurnedWhenOutranked(e, status);
    TurnedWhenOutranked(Reread(Normalise(e, status), e), again);
  }

  function Mirror(e: Envelope): Envelope {
    e.(src := e.dst, dst := e.src)
  }

  datatype Key =
    | FlowKey(srcIp: string, dstIp: string, srcMac: string, dstMac: string, protocol: string, service: int,
          transport: string)
    | LinkKey(linkProtocol: string, linkSrc: string, linkDst: string)

  function KeyOf(f: Flow): Key {
    FlowKey(f.src.ip, f.dst.ip, f.src.mac, f.dst.mac, f.protocol, f.service, f.transport)
  }

  predicate Decided(e: Envelope) {
    Rank(e.protocol, e.src.port) != Rank(e.protocol, e.dst.port)
  }

  /** The two directions of a flow are one conversation exactly when the ports differ in rank, or nothing tells the
      ends apart. */
  lemma DirectionsMeet(e: Envelope, status: Status, other: Status)
    ensures KeyOf(Normalise(e, status)) == KeyOf(Normalise(Mirror(e), other)) <==> Decided(e) || e.src == e.dst
    ensures Decided(e) ==> Normalise(e, status) == Normalise(Mirror(e), other)
  {
    TurnedWhenOutranked(e, status);
    TurnedWhenOutranked(Mirror(e), other);
    if e.src.ip == e.dst.ip && e.src.mac == e.dst.mac && e.src.port == e.dst.port {
      assert e.src == e.dst;
    }
  }

  /** In particular, when exactly one of the ports is registered for the protocol. */
  lemma OneRegisteredPort(e: Envelope, status: Status, other: Status)
    requires (e.src.port in Registered(e.protocol)) != (e.dst.port in Registered(e.protocol))
    ensures Normalise(e, status) == Normalise(Mirror(e), other)
    ensures Normalise(e, status).service in Registered(e.protocol)
  {
    DirectionsMeet(e, status, other);
    TurnedWhenOutranked(e, status);
  }

  // ---- adding events up ----

  datatype Event =
    | Transaction(env: Envelope, status: Status, operation: string)
    | Topology(env: Envelope, localId: string, remoteId: string)
    | Asset
    | Unknown

  datatype Aggregate = Aggregate(packets: int, bytes: int, first: string, last: string, times: seq<string>,
                                 srcPort: int, portsSeen: set<int>, operations: seq<string>)

  type Entry = Item<Key, Aggregate>

  const MAX_OPERATIONS := 32

  function AppendLimited(current: seq<string>, incoming: seq<string>): seq<string>
    decreases |incoming|
  {
    if incoming == [] then current
    else
      AppendLimited(if incoming[0] in current || |current| >= MAX_OPERATIONS then current else current + [incoming[0]],
                    incoming[1..])
  }

  function CountOf(e: Envelope): int {
    if e.packets != 0 then e.packets else 1
  }

  /** What one event adds to its aggregate; asset observations and unknown events add nothing. */
  function Contribution(x: Event): Option<Entry> {
    match x
    case Transaction(e, status, operation) =>
      var f := Normalise(e, status);
      Some(Item(KeyOf(f),
                Aggregate(CountOf(e), e.bytes, e.time, e.time, if e.time != "" then [e.time] else [],
                          f.src.port, {f.src.port}, if operation != "" then [operation] else [])))
    case Topology(e, localId, remoteId) =>
      Some(Item(LinkKey(e.protocol,
                        if e.src.mac != "" then e.src.mac else localId,
                        if e.dst.mac != "" then e.dst.mac else remoteId),
                Aggregate(CountOf(e), e.bytes, e.time, e.time, if e.time != "" then [e.time] else [], 0, {}, [])))
    case Asset => None
    case Unknown => None
  }

  /** The first time seen: the least, but an aggregate that began without a time keeps none. */
  function First(held: string, time: string): string {
    if time != "" && Less(time, held) then time else held
  }

  function Last(held: string, time: string): string {
    if time != "" && Less(held, time) then time else held
  }

  function Combine(a: Aggregate, b: Aggregate): Aggregate {
    Aggregate(a.packets + b.packets, a.bytes + b.bytes, First(a.first, b.first), Last(a.last, b.last),
              a.times + b.times, if a.srcPort == 0 then b.srcPort else a.srcPort, a.portsSeen + b.portsSeen,
              AppendLimited(a.operations, b.operations))
  }

  function Entries(xs: seq<Event>): seq<Entry> {
    if xs == [] then []
    else Entries(xs[..|xs| - 1]) + (match Contribution(xs[|xs| - 1]) case Some(c) => [c] case None => [])
  }

  method BuildConversations(xs: seq<Event>) returns (held: seq<Entry>)
    ensures held == Merged(Combine, Entries(xs))
  {
    held := [];
    for i := 0 to |xs|
      invariant held == Merged(Combine, Entries(xs[..i]))
    {
      assert xs[..i + 1][..i] == xs[..i];
      match Contribution(xs[i]) {
        case None =>
          assert Entries(xs[..i + 1]) == Entries(xs[..i]);
        case Some(c) =>
          ghost var before := Entries(xs[..i]);
          assert (before + [c])[..|before|] == before;
          assert Entries(xs[..i + 1]) == before + [c];
          held := Put(Combine, held, c);
      }
    }
    assert xs[..|xs|] == xs;
  }

  /** `ys` is `xs` with some events of decided direction turned round, under any status. */
  ghost predicate Turned(xs: seq<Event>, ys: seq<Event>) {
    |xs| == |ys| && forall i :: 0 <= i < |xs| ==> TurnedAt(xs[i], ys[i])
  }

  predicate TurnedAt(x: Event, y: Event) {
    || x == y
    || (x.Transaction? && y.Transaction? && x.operation == y.operation && y.env == Mirror(x.env) && Decided(x.env))
  }

  /** Turning such events round changes nothing in the conversations built. */
  lemma {:induction false} DirectionIrrelevant(xs: seq<Event>, ys: seq<Event>)
    requires Turned(xs, ys)
    ensures Entries(xs) == Entries(ys)
    ensures Merged(Combine, Entries(xs)) == Merged(Combine, Entries(ys))
  {
    if xs != [] {
      DirectionIrrelevant(xs[..|xs| - 1], ys[..|ys| - 1]);
      var x, y := xs[|xs| - 1], ys[|ys| - 1];
      assert TurnedAt(x, y);
      if x != y {
        DirectionsMeet(x.env, x.status, y.status);
      }
    }
  }

  function PacketsIn(xs: seq<Event>): int {
    if xs == [] then 0
    else PacketsIn(xs[..|xs| - 1]) +
          (var x := xs[|xs| - 1]; if x.Transaction? || x.Topology? then CountOf(x.env) else 0)
  }

  function BytesIn(xs: seq<Event>): int {
    if xs == [] then 0
    else BytesIn(xs[..|xs| - 1]) + (var x := xs[|xs| - 1]; if x.Transaction? || x.Topology? then x.env.bytes else 0)
  }

  lemma {:induction false} EntriesWeigh(xs: seq<Event>)
    ensures Sum((a: Aggregate) => a.packets, Entries(xs)) == PacketsIn(xs)
    ensures Sum((a: Aggregate) => a.bytes, Entries(xs)) == BytesIn(xs)
  {
    if xs != [] {
      var init := Entries(xs[..|xs| - 1]);
      EntriesWeigh(xs[..|xs| - 1]);
      match Contribution(xs[|xs| - 1]) {
        case None =>
          assert init + [] == init;
        case Some(c) =>
          assert (init + [c])[..|init|] == init;
          SumSnoc((a: Aggregate) => a.packets, init + [c]);
          SumSnoc((a: Aggregate) => a.bytes, init + [c]);
      }
    }
  }

  /** One conversation per key, and every packet and byte of a transaction or topology event is in one of them. */
  lemma TotalsConserved(xs: seq<Event>)
    ensures var held := Merged(Combine, Entries(xs));
            && OncePerKey(held)
            && Sum((a: Aggregate) => a.packets, held) == PacketsIn(xs)
            && Sum((a: Aggregate) => a.bytes, held) == BytesIn(xs)
  {
    MergedOncePerKey(Combine, [], Entries(xs));
    SumConserved(Combine, (a: Aggregate) => a.packets, Entries(xs));
    SumConserved(Combine, (a: Aggregate) => a.bytes, Entries(xs));
    EntriesWeigh(xs);
  }

  // ---- the first time seen ----

  /** The first time seen after the events stamped `times`, the aggregate having been made by the first of them. */
  function FirstSeen(times: seq<string>): string
    requires times != []
  {
    if |times| == 1 then times[0] else First(FirstSeen(times[..|times| - 1]), times[|times| - 1])
  }

  function Earliest(times: seq<string>): string {
    if times == [] then "" else Earlier(Earliest(times[..|times| - 1]), times[|times| - 1])
  }

  predicate NoneTimed(times: seq<string>) {
    forall i :: 0 <= i < |times| ==> times[i] == ""
  }

  lemma {:induction false} EarliestIsATime(times: seq<string>)
    ensures Earliest(times) == "" <==> NoneTimed(times)
  {
    if times != [] {
      var init := times[..|times| - 1];
      EarliestIsATime(init);
      assert NoneTimed(times) <==> NoneTimed(init) && times[|times| - 1] == "" by {
        assert forall i :: 0 <= i < |init| ==> init[i] == times[i];
      }
    }
  }

  /** It is the earliest time given exactly when the first event carried a time, or none did. */
  lemma {:induction false} FirstSeenIsEarliest(times: seq<string>)
    requires times != []
    ensures times[0] == "" ==> FirstSeen(times) == ""
    ensures times[0] != "" ==> FirstSeen(times) != ""
    ensures FirstSeen(times) == Earliest(times) <==> times[0] != "" || NoneTimed(times)
  {
    EarliestIsATime(times);
    var init, last := times[..|times| - 1], times[|times| - 1];
    if |times| > 1 {
      FirstSeenIsEarliest(init);
      assert init[0] == times[0];
      assert FirstSeen(times) == First(FirstSeen(init), last);
      assert Earliest(times) == Earlier(Earliest(init), last);
    } else {
      assert init == [] && Earliest(times) == last;
    }
  }

  /** The operations kept are the first thirty-two different ones. */
  lemma {:induction false} OperationsKept(current: seq<string>, incoming: seq<string>)
    requires |current| <= 32
    ensures var all := AppendNew(current, incoming);
            AppendLimited(current, incoming) == if |all| <= 32 then all else all[..32]
    decreases |incoming|
  {
    if incoming != [] {
      var x, rest := incoming[0], incoming[1..];
      if x in current {
        OperationsKept(current, rest);
      } else if |current| < 32 {
        OperationsKept(current + [x], rest);
      } else {
        OperationsKept(current, rest);
        AppendNewContents(current, rest);
        AppendNewContents(current + [x], rest);
        assert AppendNew(current + [x], rest)[..|current|] == current;
        assert AppendNew(current, rest)[..|current|] == current;
      }
    }
  }

  function TimesOf(xs: seq<Entry>, k: Key): seq<string> {
    if xs == [] then []
    else TimesOf(xs[..|xs| - 1], k) + (var x := xs[|xs| - 1]; if x.key == k then [x.value.first] else [])
  }

  function OperationsOf(xs: seq<Entry>, k: Key): seq<string> {
    if xs == [] then []
    else OperationsOf(xs[..|xs| - 1], k) + (var x := xs[|xs| - 1]; if x.key == k then x.value.operations else [])
  }

  lemma {:induction false} AppendLimitedConcat(current: seq<string>, xs: seq<string>, ys: seq<string>)
    ensures AppendLimited(current, xs + ys) == AppendLimited(AppendLimited(current, xs), ys)
    decreases |xs|
  {
    if xs == [] {
      assert xs + ys == ys;
    } else {
      assert (xs + ys)[1..] == xs[1..] + ys;
      var next := if xs[0] in current || |current| >= MAX_OPERATIONS then current else current + [xs[0]];
      AppendLimitedConcat(next, xs[1..], ys);
    }
  }

  predicate Single(xs: seq<Entry>) {
    forall i :: 0 <= i < |xs| ==> |xs[i].value.operations| <= 1
  }

  lemma AppendSingle(ops: seq<string>)
    requires |ops| <= 1
    ensures AppendLimited([], ops) == ops
  {
    if ops != [] {
      assert ops[1..] == [] && [] + [ops[0]] == ops;
    }
  }

  ghost predicate Tells(held: Option<Aggregate>, times: seq<string>, operations: seq<string>) {
    match held
    case None => times == [] && operations == []
    case Some(a) => times != [] && a.first == FirstSeen(times) && a.operations == AppendLimited([], operations)
  }

  lemma TellsNext(held: Option<Aggregate>, times: seq<string>, operations: seq<string>, next: Aggregate)
    requires Tells(held, times, operations) && |next.operations| <= 1
    ensures Tells(Some(match held case None => next case Some(a) => Combine(a, next)),
                  times + [next.first], operations + next.operations)
  {
    AppendSingle(next.operations);
    AppendLimitedConcat([], operations, next.operations);
    assert (times + [next.first])[..|times|] == times;
    assert [] + next.operations == next.operations;
  }

  lemma {:induction false} EntriesTell(xs: seq<Entry>, k: Key)
    requires Single(xs)
    ensures Tells(Get(Merged(Combine, xs), k), TimesOf(xs, k), OperationsOf(xs, k))
  {
    if xs != [] {
      var init, x := xs[..|xs| - 1], xs[|xs| - 1];
      EntriesTell(init, k);
      GetPut(Combine, Merged(Combine, init), x, k);
      if x.key == k {
        TellsNext(Get(Merged(Combine, init), k), TimesOf(init, k), OperationsOf(init, k), x.value);
      } else {
        assert TimesOf(xs, k) == TimesOf(init, k) && OperationsOf(xs, k) == OperationsOf(init, k);
      }
    }
  }

  lemma {:induction false} EntriesSingle(xs: seq<Event>)
    ensures Single(Entries(xs))
  {
    if xs != [] {
      EntriesSingle(xs[..|xs| - 1]);
    }
  }

  /** A conversation's first time and operations are those of the events of its key, in order. */
  lemma ConversationOf(xs: seq<Event>, k: Key)
    ensures Tells(Get(Merged(Combine, Entries(xs)), k), TimesOf(Entries(xs), k), OperationsOf(Entries(xs), k))
  {
    EntriesSingle(xs);
    EntriesTell(Entries(xs), k);
  }

  /** Two events of one flow, the first without a time: the conversation never gets a first time, though one was
      given. */
  lemma FirstTimeLost(e: Envelope, status: Status, time: string)
    requires time != ""
    ensures var xs := [Transaction(e.(time := ""), status, "")] + [Transaction(e.(time := time), status, "")];
            var k := KeyOf(Normalise(e, status));
            && Get(Merged(Combine, Entries(xs)), k).Some? && Get(Merged(Combine, Entries(xs)), k).value.first == ""
            && TimesOf(Entries(xs), k) == ["", time] && Earliest(["", time]) == time
  {
    var x, y := Transaction(e.(time := ""), status, ""), Transaction(e.(time := time), status, "");
    var k := KeyOf(Normalise(e, status));
    TwoEntries(x, y);
    var a, b := Contribution(x).value, Contribution(y).value;
    assert a.key == k && b.key == k && a.value.first == "" && b.value.first == time;
    TwoTimes(a, b, k);
    assert [""] + [time] == ["", time];
    ConversationOf([x] + [y], k);
    EarliestOfTwo(time);
    FirstSeenIsEarliest(["", time]);
  }

  lemma TwoEntries(x: Event, y: Event)
    requires Contribution(x).Some? && Contribution(y).Some?
    ensures Entries([x] + [y]) == [Contribution(x).value] + [Contribution(y).value]
  {
    var one, two := [x], [x] + [y];
    assert one[..|one| - 1] == [] && two[..|two| - 1] == one;
    assert Entries(one) == Entries([]) + [Contribution(x).value] == [Contribution(x).value];
  }

  lemma TwoTimes(a: Entry, b: Entry, k: Key)
    requires a.key == k && b.key == k
    ensures TimesOf([a] + [b], k) == [a.value.first] + [b.value.first]
  {
    var one, two := [a], [a] + [b];
    assert one[..|one| - 1] == [] && two[..|two| - 1] == one;
    assert TimesOf(one, k) == TimesOf([], k) + [a.value.first] == [a.value.first];
  }

  lemma EarliestOfTwo(time: string)
    requires time != ""
    ensures Earliest(["", time]) == time
  {
    var one, two := [""], ["", time];
    assert one[..|one| - 1] == [] && two[..|two| - 1] == one;
    assert Earliest(one) == "";
  }
}
