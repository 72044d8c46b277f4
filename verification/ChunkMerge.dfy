/**
 Merging the conversations of separately dissected chunks of one capture. Field order, defaults and the
 handling of blanks follow the program: a missing field reads as zero, the empty string or no items.
 */
module ChunkMerge {
  import opened Wrappers
  import opened KeyedFold
  import opened Lists
  import Text
  import J = Json

  datatype Key = Key(srcMac: string, dstMac: string, protocol: string, port: int)

  /** Modbus functions, S7 functions, DNP3 objects, OPC sessions, IEC 104 type ids and causes, source ports,
      DNS queries and DNS query types. */
  const LIST_FIELDS := 9

  /** The CIP, PROFINET, BACnet, OMRON, MMS and GOOSE identities, and layer-2 discovery. */
  const IDENTITY_FIELDS := 7

  type ItemLists = s: seq<seq<J.Json>> | |s| == LIST_FIELDS witness seq(LIST_FIELDS, _ => [])
  type Identities = s: seq<J.Json> | |s| == IDENTITY_FIELDS witness seq(IDENTITY_FIELDS, _ => J.Null)

  datatype Beacon = Beacon(score: real, interval: real, jitter: real)

  datatype Core = Core(packets: int, bytes: int, writes: int, first: string, last: string,
                       srcIp: string, dstIp: string, transport: string, srcPort: int, lists: ItemLists,
                       programAccess: bool, noSecurity: bool, beacon: Beacon, entropy: real)

  datatype Conversation = Conversation(core: Core, identities: Identities)

  function FirstSaid(a: string, b: string): string { if a == "" then b else a }

  function Stronger(a: Beacon, b: Beacon): Beacon { if b.score > a.score then b else a }

  function UniteLists(a: ItemLists, b: ItemLists): ItemLists {
    seq(LIST_FIELDS, i requires 0 <= i < LIST_FIELDS => AppendNew(a[i], b[i]))
  }

  function CombineCore(a: Core, b: Core): Core {
    Core(a.packets + b.packets, a.bytes + b.bytes, a.writes + b.writes,
         Text.Earlier(a.first, b.first), Text.Later(a.last, b.last),
         FirstSaid(a.srcIp, b.srcIp), FirstSaid(a.dstIp, b.dstIp), FirstSaid(a.transport, b.transport),
         if a.srcPort == 0 then b.srcPort else a.srcPort,
         UniteLists(a.lists, b.lists),
         a.programAccess || b.programAccess, a.noSecurity || b.noSecurity,
         Stronger(a.beacon, b.beacon), if b.entropy > a.entropy then b.entropy else a.entropy)
  }

  function CombineIdentities(a: Identities, b: Identities): Identities {
    seq(IDENTITY_FIELDS, i requires 0 <= i < IDENTITY_FIELDS => J.MergeNested(a[i], b[i]))
  }

  function Combine(a: Conversation, b: Conversation): Conversation {
    Conversation(CombineCore(a.core, b.core), CombineIdentities(a.identities, b.identities))
  }

  type Entry = Item<Key, Conversation>

  // ---- the merge as the program runs it ----

  /** The inner loop over one list field. `seen` holds the markers of the items already listed. */
  method Unite(held: seq<J.Json>, incoming: seq<J.Json>) returns (current: seq<J.Json>)
    ensures current == AppendNew(held, incoming)
  {
    current := held;
    var seen := set x | x in held;
    for i := 0 to |incoming|
      invariant forall x :: x in seen <==> x in current
      invariant AppendNew(held, incoming) == AppendNew(current, incoming[i..])
    {
      assert incoming[i..][1..] == incoming[i + 1..];
      if incoming[i] !in seen {
        current := current + [incoming[i]];
        seen := seen + {incoming[i]};
      }
    }
  }

  method UniteAll(a: ItemLists, b: ItemLists) returns (lists: ItemLists)
    ensures lists == UniteLists(a, b)
  {
    var united: seq<seq<J.Json>> := [];
    for i := 0 to LIST_FIELDS
      invariant |united| == i && forall j :: 0 <= j < i ==> united[j] == AppendNew(a[j], b[j])
    {
      var one := Unite(a[i], b[i]);
      united := united + [one];
    }
    lists := united;
  }

  method MergeIdentities(a: Identities, b: Identities) returns (identities: Identities)
    ensures identities == CombineIdentities(a, b)
  {
    var merged: seq<J.Json> := [];
    for i := 0 to IDENTITY_FIELDS
      invariant |merged| == i && forall j :: 0 <= j < i ==> merged[j] == J.MergeNested(a[j], b[j])
    {
      merged := merged + [J.MergeNested(a[i], b[i])];
    }
    identities := merged;
  }

  /** The body of the loop over conversations, for a key already held. */
  method Absorb(existing: Conversation, conv: Conversation) returns (merged: Conversation)
    ensures merged == Combine(existing, conv)
  {
    var a, b := existing.core, conv.core;
    var lists := UniteAll(a.lists, b.lists);
    var identities := MergeIdentities(existing.identities, conv.identities);
    var first, last := Widen(a.first, a.last, b.first, b.last);
    var beacon, entropy := a.beacon, a.entropy;
    if b.beacon.score > beacon.score {
      beacon := b.beacon;
    }
    if b.entropy > entropy {
      entropy := b.entropy;
    }
    var core := Core(
      a.packets + b.packets, a.bytes + b.bytes, a.writes + b.writes, first, last,
      FirstSaid(a.srcIp, b.srcIp), FirstSaid(a.dstIp, b.dstIp), FirstSaid(a.transport, b.transport),
      if a.srcPort == 0 then b.srcPort else a.srcPort, lists,
      a.programAccess || b.programAccess, a.noSecurity || b.noSecurity, beacon, entropy);
    merged := Conversation(core, identities);
  }

  method Widen(first: string, last: string, first': string, last': string) returns (lo: string, hi: string)
    ensures lo == Text.Earlier(first, first') && hi == Text.Later(last, last')
  {
    lo, hi := first, last;
    if first' != "" && (lo == "" || Text.Less(first', lo)) {
      lo := first';
    }
    if last' != "" && (hi == "" || Text.Less(hi, last')) {
      hi := last';
    }
  }

  function All(reports: seq<seq<Entry>>): seq<Entry> {
    if reports == [] then [] else All(reports[..|reports| - 1]) + reports[|reports| - 1]
  }

  /** A dictionary's items, listed in insertion order. */
  function Listing(order: seq<Key>, convs: map<Key, Conversation>): seq<Entry>
    requires forall k :: k in order ==> k in convs
  {
    if order == [] then [] else [Item(order[0], convs[order[0]])] + Listing(order[1..], convs)
  }

  method Take(order: seq<Key>, convs: map<Key, Conversation>, x: Entry)
    returns (order': seq<Key>, convs': map<Key, Conversation>)
    requires Indexed(order, convs)
    ensures Indexed(order', convs')
    ensures Listing(order', convs') == Put(Combine, Listing(order, convs), x)
  {
    if x.key !in convs {
      ListingInserts(order, convs, x);
      order', convs' := order + [x.key], convs[x.key := x.value];
    } else {
      var merged := Absorb(convs[x.key], x.value);
      ListingUpdates(order, convs, x);
      order', convs' := order, convs[x.key := merged];
    }
  }

  method MergeChunks(reports: seq<seq<Entry>>) returns (r: seq<Entry>)
    ensures r == Merged(Combine, All(reports))
  {
    var order: seq<Key>, convs: map<Key, Conversation> := [], map[];
    for i := 0 to |reports|
      invariant Indexed(order, convs)
      invariant Listing(order, convs) == Merged(Combine, All(reports[..i]))
    {
      assert reports[..i + 1][..i] == reports[..i];
      order, convs := TakeReport(order, convs, reports[i], All(reports[..i]));
    }
    assert reports[..|reports|] == reports;
    r := [];
    for i := 0 to |order|
      invariant Listing(order, convs) == r + Listing(order[i..], convs)
    {
      assert order[i..][1..] == order[i + 1..];
      r := r + [Item(order[i], convs[order[i]])];
    }
  }

  method TakeReport(order: seq<Key>, convs: map<Key, Conversation>, report: seq<Entry>, ghost before: seq<Entry>)
    returns (order': seq<Key>, convs': map<Key, Conversation>)
    requires Indexed(order, convs) && Listing(order, convs) == Merged(Combine, before)
    ensures Indexed(order', convs') && Listing(order', convs') == Merged(Combine, before + report)
  {
    hide Combine;
    order', convs' := order, convs;
    assert before + report[..0] == before;
    for j := 0 to |report|
      invariant Indexed(order', convs')
      invariant Listing(order', convs') == Merged(Combine, before + report[..j])
    {
      assert before + report[..j + 1] == before + report[..j] + [report[j]];
      MergedSnoc(before + report[..j], report[j]);
      order', convs' := Take(order', convs', report[j]);
    }
    assert report[..|report|] == report;
  }

  ghost predicate Indexed(order: seq<Key>, convs: map<Key, Conversation>) {
    Distinct(order) && forall k :: k in convs <==> k in order
  }

  lemma MergedSnoc(xs: seq<Entry>, x: Entry)
    ensures Merged(Combine, xs + [x]) == Put(Combine, Merged(Combine, xs), x)
  {
    assert (xs + [x])[..|xs|] == xs;
  }

  lemma {:induction false} ListingInserts(order: seq<Key>, convs: map<Key, Conversation>, x: Entry)
    requires (forall k :: k in order ==> k in convs) && x.key !in order
    ensures Listing(order + [x.key], convs[x.key := x.value]) == Put(Combine, Listing(order, convs), x)
  {
    var convs' := convs[x.key := x.value];
    if order == [] {
      assert [x.key][1..] == [];
    } else {
      assert (order + [x.key])[1..] == order[1..] + [x.key];
      ListingInserts(order[1..], convs, x);
      assert Listing(order, convs)[1..] == Listing(order[1..], convs);
    }
  }

  lemma {:induction false} ListingUpdates(order: seq<Key>, convs: map<Key, Conversation>, x: Entry)
    requires (forall k :: k in order ==> k in convs) && x.key in order && Distinct(order)
    ensures Listing(order, convs[x.key := Combine(convs[x.key], x.value)]) == Put(Combine, Listing(order, convs), x)
  {
    var convs' := convs[x.key := Combine(convs[x.key], x.value)];
    assert Listing(order, convs)[1..] == Listing(order[1..], convs);
    if order[0] == x.key {
      ListingElsewhere(order[1..], convs, convs', x.key);
    } else {
      ListingUpdates(order[1..], convs, x);
    }
  }

  lemma {:induction false} ListingElsewhere(order: seq<Key>, convs: map<Key, Conversation>,
                                           convs': map<Key, Conversation>, key: Key)
    requires forall k :: k in order ==> k in convs && k in convs' && convs[k] == convs'[k]
    ensures Listing(order, convs) == Listing(order, convs')
  {
    if order != [] {
      ListingElsewhere(order[1..], convs, convs', key);
    }
  }

  // ---- where the capture was cut does not matter ----

  lemma CombineCoreAssociates(a: Core, b: Core, c: Core)
    ensures CombineCore(CombineCore(a, b), c) == CombineCore(a, CombineCore(b, c))
  {
    Text.EarlierAssociates(a.first, b.first, c.first);
    Text.LaterAssociates(a.last, b.last, c.last);
    var l, r := CombineCore(CombineCore(a, b), c), CombineCore(a, CombineCore(b, c));
    forall i | 0 <= i < LIST_FIELDS ensures l.lists[i] == r.lists[i] {
      AppendNewAssociates(a.lists[i], b.lists[i], c.lists[i]);
    }
    assert l.lists == r.lists;
  }

  function Cores(xs: seq<Entry>): seq<Item<Key, Core>> {
    Project((c: Conversation) => c.core, xs)
  }

  lemma CoresMerge(xs: seq<Entry>)
    ensures Cores(Merged(Combine, xs)) == Merged(CombineCore, Cores(xs))
  {
    ProjectMerged((c: Conversation) => c.core, Combine, CombineCore, xs);
  }

  /**
   Chunk-split independence. On every field but the protocol identities, merging two stretches of a
   capture and then merging the results equals merging the whole: same conversations, same order.
   */
  lemma ChunkSplitIndependent(xs: seq<Entry>, ys: seq<Entry>)
    ensures Cores(Merged(Combine, Merged(Combine, xs) + Merged(Combine, ys))) == Cores(Merged(Combine, xs + ys))
  {
    forall a, b, c ensures CombineCore(CombineCore(a, b), c) == CombineCore(a, CombineCore(b, c)) {
      CombineCoreAssociates(a, b, c);
    }
    CoresMerge(xs);
    CoresMerge(ys);
    CoresMerge(xs + ys);
    CoresMerge(Merged(Combine, xs) + Merged(Combine, ys));
    ProjectConcat((c: Conversation) => c.core, xs, ys);
    ProjectConcat((c: Conversation) => c.core, Merged(Combine, xs), Merged(Combine, ys));
    SplitIndependent(CombineCore, Cores(xs), Cores(ys));
  }

  /** One conversation per key, and no packet or byte gained or lost. */
  lemma KeysAndTotals(xs: seq<Entry>)
    ensures OncePerKey(Merged(Combine, xs))
    ensures Sum((c: Conversation) => c.core.packets, Merged(Combine, xs)) ==
          Sum((c: Conversation) => c.core.packets, xs)
    ensures Sum((c: Conversation) => c.core.bytes, Merged(Combine, xs)) == Sum((c: Conversation) => c.core.bytes, xs)
    ensures Sum((c: Conversation) => c.core.writes, Merged(Combine, xs)) == Sum((c: Conversation) => c.core.writes, xs)
  {
    MergedOncePerKey(Combine, [], xs);
    SumConserved(Combine, (c: Conversation) => c.core.packets, xs);
    SumConserved(Combine, (c: Conversation) => c.core.bytes, xs);
    SumConserved(Combine, (c: Conversation) => c.core.writes, xs);
  }

  // ---- what the merged fields are ----

  ghost predicate Has(xs: seq<Entry>, k: Key, j: int) {
    0 <= j < |xs| && xs[j].key == k
  }

  // One more entry: the shape of every induction below.
  lemma OneMore(xs: seq<Entry>, k: Key)
    requires xs != []
    ensures var init, x := xs[..|xs| - 1], xs[|xs| - 1];
            && (forall j :: Has(xs, k, j) <==> Has(init, k, j) || (j == |xs| - 1 && x.key == k))
            && (forall j :: Has(init, k, j) ==> init[j] == xs[j])
            && Get(Merged(Combine, xs), k) ==
                 (if x.key != k then Get(Merged(Combine, init), k)
                  else match Get(Merged(Combine, init), k) {
                    case None => Some(x.value)
                    case Some(v) => Some(Combine(v, x.value)) })
  {
    GetPut(Combine, Merged(Combine, xs[..|xs| - 1]), xs[|xs| - 1], k);
  }

  /** A key is present exactly when some chunk had it. */
  lemma {:induction false} Present(xs: seq<Entry>, k: Key)
    ensures Get(Merged(Combine, xs), k) != None <==> exists j :: Has(xs, k, j)
  {
    if xs != [] {
      Present(xs[..|xs| - 1], k);
      OneMore(xs, k);
      if xs[|xs| - 1].key == k {
        assert Has(xs, k, |xs| - 1);
      }
    }
  }

  /** A list field holds the union of the chunks' items, and a flag is set when some chunk set it. */
  lemma {:induction false} ListsUniteAndFlagsSpread(xs: seq<Entry>, k: Key, i: nat, item: J.Json)
    requires i < LIST_FIELDS && Get(Merged(Combine, xs), k) != None
    ensures var c := Get(Merged(Combine, xs), k).value.core;
            && (item in c.lists[i] <==> exists j :: Has(xs, k, j) && item in xs[j].value.core.lists[i])
            && (c.programAccess <==> exists j :: Has(xs, k, j) && xs[j].value.core.programAccess)
            && (c.noSecurity <==> exists j :: Has(xs, k, j) && xs[j].value.core.noSecurity)
  {
    var init, x := xs[..|xs| - 1], xs[|xs| - 1];
    OneMore(xs, k);
    var held := Get(Merged(Combine, init), k);
    assert x.key == k ==> Has(xs, k, |xs| - 1);
    if held != None {
      ListsUniteAndFlagsSpread(init, k, i, item);
      AppendNewContents(held.value.core.lists[i], x.value.core.lists[i]);
    } else {
      Present(init, k);
    }
  }

  /** The beacon score, interval and jitter come together from one chunk, the first of those with the highest score. */
  lemma {:induction false} BeaconIsStrongest(xs: seq<Entry>, k: Key)
    requires Get(Merged(Combine, xs), k) != None
    ensures var b := Get(Merged(Combine, xs), k).value.core.beacon;
            && (exists j :: Has(xs, k, j) && xs[j].value.core.beacon == b
                            && forall i :: Has(xs, k, i) && i < j ==> xs[i].value.core.beacon.score < b.score)
            && (forall j :: Has(xs, k, j) ==> xs[j].value.core.beacon.score <= b.score)
  {
    var init, x := xs[..|xs| - 1], xs[|xs| - 1];
    OneMore(xs, k);
    assert x.key == k ==> Has(xs, k, |xs| - 1);
    if Get(Merged(Combine, init), k) != None {
      BeaconIsStrongest(init, k);
      var b := Get(Merged(Combine, init), k).value.core.beacon;
      var j :| Has(init, k, j) && init[j].value.core.beacon == b
               && forall i :: Has(init, k, i) && i < j ==> init[i].value.core.beacon.score < b.score;
      assert Has(xs, k, j) && xs[j] == init[j];
    } else {
      Present(init, k);
    }
  }

  /** First and last seen are the least and greatest times any chunk gave, blank only when none gave one. */
  lemma TimesAreExtreme(xs: seq<Entry>, k: Key)
    requires Get(Merged(Combine, xs), k) != None
    ensures var c := Get(Merged(Combine, xs), k).value.core;
            && (exists j :: Has(xs, k, j) && xs[j].value.core.first == c.first)
            && (exists j :: Has(xs, k, j) && xs[j].value.core.last == c.last)
            && (forall j :: Has(xs, k, j) && xs[j].value.core.first != "" ==>
                  c.first != "" && !Text.Less(xs[j].value.core.first, c.first))
            && (forall j :: Has(xs, k, j) && xs[j].value.core.last != "" ==>
                  c.last != "" && !Text.Less(c.last, xs[j].value.core.last))
  {
    FirstIsLeast(xs, k);
    LastIsGreatest(xs, k);
  }

  lemma {:induction false} FirstIsLeast(xs: seq<Entry>, k: Key)
    requires Get(Merged(Combine, xs), k) != None
    ensures var first := Get(Merged(Combine, xs), k).value.core.first;
            && (exists j :: Has(xs, k, j) && xs[j].value.core.first == first)
            && (forall j :: Has(xs, k, j) && xs[j].value.core.first != "" ==>
                  first != "" && !Text.Less(xs[j].value.core.first, first))
  {
    var init, x := xs[..|xs| - 1], xs[|xs| - 1];
    OneMore(xs, k);
    assert x.key == k ==> Has(xs, k, |xs| - 1);
    Text.Irreflexive(x.value.core.first);
    if Get(Merged(Combine, init), k) != None {
      FirstIsLeast(init, k);
      var first := Get(Merged(Combine, init), k).value.core.first;
      var f :| Has(init, k, f) && init[f].value.core.first == first;
      assert Has(xs, k, f) && xs[f] == init[f];
      forall j | Has(init, k, j) ensures NoEarlier(init[j].value.core.first, first, x.value.core.first) {
        Text.Orders(init[j].value.core.first, first, x.value.core.first);
        Text.Total(first, init[j].value.core.first);
        Text.Total(first, x.value.core.first);
      }
    } else {
      Present(init, k);
    }
  }

  lemma {:induction false} LastIsGreatest(xs: seq<Entry>, k: Key)
    requires Get(Merged(Combine, xs), k) != None
    ensures var last := Get(Merged(Combine, xs), k).value.core.last;
            && (exists j :: Has(xs, k, j) && xs[j].value.core.last == last)
            && (forall j :: Has(xs, k, j) && xs[j].value.core.last != "" ==>
                  last != "" && !Text.Less(last, xs[j].value.core.last))
  {
    var init, x := xs[..|xs| - 1], xs[|xs| - 1];
    OneMore(xs, k);
    assert x.key == k ==> Has(xs, k, |xs| - 1);
    Text.Irreflexive(x.value.core.last);
    if Get(Merged(Combine, init), k) != None {
      LastIsGreatest(init, k);
      var last := Get(Merged(Combine, init), k).value.core.last;
      var l :| Has(init, k, l) && init[l].value.core.last == last;
      assert Has(xs, k, l) && xs[l] == init[l];
      forall j | Has(init, k, j) ensures NoLater(init[j].value.core.last, last, x.value.core.last) {
        Text.Orders(init[j].value.core.last, last, x.value.core.last);
        Text.Total(last, init[j].value.core.last);
        Text.Total(last, x.value.core.last);
      }
    } else {
      Present(init, k);
    }
  }

  predicate NoEarlier(t: string, held: string, incoming: string) {
    t != "" && held != "" && !Text.Less(t, held) ==>
      Text.Earlier(held, incoming) != "" && !Text.Less(t, Text.Earlier(held, incoming))
  }

  predicate NoLater(t: string, held: string, incoming: string) {
    t != "" && held != "" && !Text.Less(held, t) ==>
      Text.Later(held, incoming) != "" && !Text.Less(Text.Later(held, incoming), t)
  }

  // ---- the fields that keep the first word, and the sums, by key ----

  /** `word` is the first one said by the entries of the key, empty if none says any. */
  ghost predicate FirstGiven(say: Core -> string, xs: seq<Entry>, k: Key, word: string) {
    if word == "" then forall j :: Has(xs, k, j) ==> say(xs[j].value.core) == ""
    else exists j :: Has(xs, k, j) && say(xs[j].value.core) == word
                     && forall i :: Has(xs, k, i) && i < j ==> say(xs[i].value.core) == ""
  }

  ghost predicate FirstPort(xs: seq<Entry>, k: Key, port: int) {
    if port == 0 then forall j :: Has(xs, k, j) ==> xs[j].value.core.srcPort == 0
    else exists j :: Has(xs, k, j) && xs[j].value.core.srcPort == port
                     && forall i :: Has(xs, k, i) && i < j ==> xs[i].value.core.srcPort == 0
  }

  ghost predicate Highest(xs: seq<Entry>, k: Key, entropy: real) {
    && (forall j :: Has(xs, k, j) ==> xs[j].value.core.entropy <= entropy)
    && exists j :: Has(xs, k, j) && xs[j].value.core.entropy == entropy
  }

  function SumOf(amount: Core -> int, xs: seq<Entry>, k: Key): int {
    if xs == [] then 0
    else SumOf(amount, xs[..|xs| - 1], k) + (var x := xs[|xs| - 1]; if x.key == k then amount(x.value.core) else 0)
  }

  function SrcIpOf(c: Core): string { c.srcIp }
  function DstIpOf(c: Core): string { c.dstIp }
  function TransportOf(c: Core): string { c.transport }
  function PacketsOf(c: Core): int { c.packets }
  function BytesOf(c: Core): int { c.bytes }
  function WritesOf(c: Core): int { c.writes }

  ghost predicate Fields(c: Core, xs: seq<Entry>, k: Key) {
    && FirstGiven(SrcIpOf, xs, k, c.srcIp)
    && FirstGiven(DstIpOf, xs, k, c.dstIp)
    && FirstGiven(TransportOf, xs, k, c.transport)
    && FirstPort(xs, k, c.srcPort)
    && Highest(xs, k, c.entropy)
    && c.packets == SumOf(PacketsOf, xs, k)
    && c.bytes == SumOf(BytesOf, xs, k)
    && c.writes == SumOf(WritesOf, xs, k)
  }

  lemma HasSnoc(xs: seq<Entry>, x: Entry, k: Key)
    ensures forall j :: Has(xs + [x], k, j) <==> Has(xs, k, j) || (j == |xs| && x.key == k)
    ensures forall j :: Has(xs, k, j) ==> (xs + [x])[j] == xs[j]
  {
  }

  lemma GivenNext(say: Core -> string, xs: seq<Entry>, x: Entry, k: Key, word: string)
    requires FirstGiven(say, xs, k, word)
    ensures FirstGiven(say, xs + [x], k, if x.key == k && word == "" then say(x.value.core) else word)
  {
    HasSnoc(xs, x, k);
    if word != "" {
      var j :| Has(xs, k, j) && say(xs[j].value.core) == word
               && forall i :: Has(xs, k, i) && i < j ==> say(xs[i].value.core) == "";
      assert Has(xs + [x], k, j);
    } else if x.key == k && say(x.value.core) != "" {
      assert Has(xs + [x], k, |xs|);
    }
  }

  lemma PortNext(xs: seq<Entry>, x: Entry, k: Key, port: int)
    requires FirstPort(xs, k, port)
    ensures FirstPort(xs + [x], k, if x.key == k && port == 0 then x.value.core.srcPort else port)
  {
    HasSnoc(xs, x, k);
    if port != 0 {
      var j :| Has(xs, k, j) && xs[j].value.core.srcPort == port
               && forall i :: Has(xs, k, i) && i < j ==> xs[i].value.core.srcPort == 0;
      assert Has(xs + [x], k, j);
    } else if x.key == k && x.value.core.srcPort != 0 {
      assert Has(xs + [x], k, |xs|);
    }
  }

  lemma HighestNext(xs: seq<Entry>, x: Entry, k: Key, entropy: real)
    requires if exists j :: Has(xs, k, j) then Highest(xs, k, entropy)
             else x.key == k && entropy == x.value.core.entropy
    ensures Highest(xs + [x], k, if x.key == k && x.value.core.entropy > entropy then x.value.core.entropy else entropy)
  {
    HasSnoc(xs, x, k);
    if x.key == k {
      assert Has(xs + [x], k, |xs|);
    }
    if exists j :: Has(xs, k, j) {
      var j :| Has(xs, k, j) && xs[j].value.core.entropy == entropy;
      assert Has(xs + [x], k, j);
    }
  }

  lemma SumNext(amount: Core -> int, xs: seq<Entry>, x: Entry, k: Key)
    ensures SumOf(amount, xs + [x], k) == SumOf(amount, xs, k) + (if x.key == k then amount(x.value.core) else 0)
  {
    assert (xs + [x])[..|xs|] == xs;
  }

  lemma {:induction false} NoneGiven(xs: seq<Entry>, k: Key, amount: Core -> int)
    requires forall j :: !Has(xs, k, j)
    ensures SumOf(amount, xs, k) == 0
  {
    if xs != [] {
      var init := xs[..|xs| - 1];
      assert !Has(xs, k, |xs| - 1);
      forall j ensures !Has(init, k, j) {
        assert !Has(xs, k, j);
      }
      NoneGiven(init, k, amount);
    }
  }

  // A key's first entry is what the fields say; another entry of the key, or of another one, moves them so.
  lemma FieldsFirst(xs: seq<Entry>, x: Entry, k: Key)
    requires x.key == k && forall j :: !Has(xs, k, j)
    ensures Fields(x.value.core, xs + [x], k)
  {
    GivenNext(SrcIpOf, xs, x, k, "");
    GivenNext(DstIpOf, xs, x, k, "");
    GivenNext(TransportOf, xs, x, k, "");
    PortNext(xs, x, k, 0);
    HighestNext(xs, x, k, x.value.core.entropy);
    SumsNext(xs, x, k);
    NoneGiven(xs, k, PacketsOf);
    NoneGiven(xs, k, BytesOf);
    NoneGiven(xs, k, WritesOf);
  }

  lemma SumsNext(xs: seq<Entry>, x: Entry, k: Key)
    ensures SumOf(PacketsOf, xs + [x], k) ==
              SumOf(PacketsOf, xs, k) + (if x.key == k then x.value.core.packets else 0)
    ensures SumOf(BytesOf, xs + [x], k) ==
              SumOf(BytesOf, xs, k) + (if x.key == k then x.value.core.bytes else 0)
    ensures SumOf(WritesOf, xs + [x], k) ==
              SumOf(WritesOf, xs, k) + (if x.key == k then x.value.core.writes else 0)
  {
    SumNext(PacketsOf, xs, x, k);
    SumNext(BytesOf, xs, x, k);
    SumNext(WritesOf, xs, x, k);
  }

  lemma FieldsNext(c: Core, xs: seq<Entry>, x: Entry, k: Key)
    requires Fields(c, xs, k)
    ensures Fields(if x.key == k then CombineCore(c, x.value.core) else c, xs + [x], k)
  {
    assert exists j :: Has(xs, k, j);
    hide FirstGiven, FirstPort, Highest, SumOf, Has, UniteLists, Text.Earlier, Text.Later, Stronger;
    HighestNext(xs, x, k, c.entropy);
    SumsNext(xs, x, k);
    SaidNext(c, xs, x, k);
  }

  lemma SaidNext(c: Core, xs: seq<Entry>, x: Entry, k: Key)
    requires FirstGiven(SrcIpOf, xs, k, c.srcIp) && FirstGiven(DstIpOf, xs, k, c.dstIp)
    requires FirstGiven(TransportOf, xs, k, c.transport) && FirstPort(xs, k, c.srcPort)
    ensures var d := if x.key == k then CombineCore(c, x.value.core) else c;
            && FirstGiven(SrcIpOf, xs + [x], k, d.srcIp) && FirstGiven(DstIpOf, xs + [x], k, d.dstIp)
            && FirstGiven(TransportOf, xs + [x], k, d.transport) && FirstPort(xs + [x], k, d.srcPort)
  {
    hide FirstGiven, FirstPort, UniteLists, Text.Earlier, Text.Later, Stronger;
    GivenNext(SrcIpOf, xs, x, k, c.srcIp);
    GivenNext(DstIpOf, xs, x, k, c.dstIp);
    GivenNext(TransportOf, xs, x, k, c.transport);
    PortNext(xs, x, k, c.srcPort);
  }

  /** Of a merged conversation the addresses, the transport and the source port are the first that any chunk gives for
      its key, the entropy is the highest, and packets, bytes and writes are the sums. */
  lemma {:induction false} FieldsExact(xs: seq<Entry>, k: Key)
    requires Get(Merged(Combine, xs), k) != None
    ensures Fields(Get(Merged(Combine, xs), k).value.core, xs, k)
  {
    var init, x := xs[..|xs| - 1], xs[|xs| - 1];
    OneMore(xs, k);
    assert xs == init + [x];
    var held := Get(Merged(Combine, init), k);
    if held != None {
      FieldsExact(init, k);
      FieldsNext(held.value.core, init, x, k);
    } else {
      Present(init, k);
      FieldsFirst(init, x, k);
    }
  }
}
