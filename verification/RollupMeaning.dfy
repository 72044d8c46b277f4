/**
 What the roll-up says of findings and assets: how many reports have them, since when and until when, and every
 address and level seen.
 */
module RollupMeaning {
  import opened Wrappers
  import opened KeyedFold
  import opened Unordered
  import opened Text
  import opened Rollup

  /** `first` is the least non-empty time of a report that has the thing, `last` the greatest. */
  ghost predicate Dated(has: Report -> bool, rs: seq<Report>, first: string, last: string) {
    && (exists r :: r in rs && has(r) && r.modified == first)
    && (exists r :: r in rs && has(r) && r.modified == last)
    && (forall r :: r in rs && has(r) ==> !Less(last, r.modified))
    && (forall r :: r in rs && has(r) && r.modified != "" ==> first != "" && !Less(r.modified, first))
  }

  lemma DatedOne(has: Report -> bool, rs: seq<Report>, r: Report)
    requires has(r) && forall q :: q in rs ==> !has(q)
    ensures Dated(has, rs + [r], r.modified, r.modified)
  {
    assert r in rs + [r];
    forall q | q in rs + [r] && has(q) ensures q == r {
    }
    Irreflexive(r.modified);
  }

  lemma DatedNext(has: Report -> bool, rs: seq<Report>, r: Report, first: string, last: string)
    requires has(r) && Dated(has, rs, first, last)
    ensures Dated(has, rs + [r], Earlier(first, r.modified), Later(last, r.modified))
  {
    var f :| f in rs && has(f) && f.modified == first;
    var l :| l in rs && has(l) && l.modified == last;
    assert f in rs + [r] && l in rs + [r] && r in rs + [r];
    forall q | q in rs + [r] && has(q)
      ensures !Less(Later(last, r.modified), q.modified)
      ensures q.modified != "" ==> Earlier(first, r.modified) != "" && !Less(q.modified, Earlier(first, r.modified))
    {
      assert q in rs || q == r;
      Bounds(first, last, r.modified, q.modified);
    }
  }

  lemma Bounds(first: string, last: string, next: string, t: string)
    requires t == next || (!Less(last, t) && (t != "" ==> first != "" && !Less(t, first)))
    ensures !Less(Later(last, next), t)
    ensures t != "" ==> Earlier(first, next) != "" && !Less(t, Earlier(first, next))
  {
    Orders(last, next, t);
    Orders(first, next, t);
    Text.Total(last, next);
    Text.Total(first, next);
    Text.Total(first, t);
    Text.Total(last, t);
    Irreflexive(t);
  }

  lemma DatedOther(has: Report -> bool, rs: seq<Report>, r: Report, first: string, last: string)
    requires !has(r) && Dated(has, rs, first, last)
    ensures Dated(has, rs + [r], first, last)
  {
    var f :| f in rs && has(f) && f.modified == first;
    var l :| l in rs && has(l) && l.modified == last;
    assert f in rs + [r] && l in rs + [r];
  }

  function HasFinding(k: FindingKey): Report -> bool {
    (r: Report) => Holds(r.findings, k)
  }

  ghost predicate FactsDated(facts: Option<Facts>, rs: seq<Report>, k: FindingKey) {
    match facts
    case None => forall r :: r in rs ==> !HasFinding(k)(r)
    case Some(v) => Dated(HasFinding(k), rs, v.first, v.last)
  }

  lemma {:induction false} ToldDates(rs: seq<Report>, k: FindingKey)
    ensures FactsDated(Told(JoinFacts, FactItems, rs, k), rs, k)
  {
    if rs != [] {
      var init, r := rs[..|rs| - 1], rs[|rs| - 1];
      assert rs == init + [r];
      ToldDates(init, k);
      ReportFacts(r.findings, r.modified, k);
      FactsNext(Told(JoinFacts, FactItems, init, k), Get(Merged(JoinFacts, FactItems(r)), k), init, r, k);
    }
  }

  lemma FactsNext(told: Option<Facts>, own: Option<Facts>, rs: seq<Report>, r: Report, k: FindingKey)
    requires FactsDated(told, rs, k) && (own.Some? <==> HasFinding(k)(r))
    requires own.Some? ==> own.value.first == r.modified && own.value.last == r.modified
    ensures FactsDated(Unordered.Join(JoinFacts, told, own), rs + [r], k)
  {
    match told {
      case None =>
        if own.Some? {
          DatedOne(HasFinding(k), rs, r);
        }
      case Some(v) =>
        if own.Some? {
          DatedNext(HasFinding(k), rs, r, v.first, v.last);
        } else {
          DatedOther(HasFinding(k), rs, r, v.first, v.last);
        }
    }
  }

  /** A finding's first time is the least non-empty time of the reports that have it, its last the greatest. */
  lemma FindingDates(rs: seq<Report>, k: FindingKey)
    ensures FactsDated(FindingFacts(rs, k), rs, k)
  {
    FactsFold(rs);
    JoinFactsLaws();
    FoldTells(JoinFacts, FactItems, rs, k);
    ToldDates(rs, k);
  }

  // ---- assets ----

  /** A node is the asset of its MAC address, or, if it has none, of its IP address. */
  predicate Identified(n: Node, k: string) {
    if n.mac != "" then k == n.mac else n.ip != "" && k == n.ip
  }

  predicate ShowsAsset(nodes: seq<Node>, k: string) {
    exists n :: n in nodes && Identified(n, k)
  }

  lemma {:induction false} ShowsExact(nodes: seq<Node>, k: string)
    ensures Shows(nodes, k) <==> ShowsAsset(nodes, k)
  {
    if nodes != [] {
      var init, n := nodes[..|nodes| - 1], nodes[|nodes| - 1];
      ShowsExact(init, k);
      assert AssetKey(n) == Some(k) <==> Identified(n, k);
      assert forall m :: m in nodes <==> m in init || m == n by {
        assert nodes == init + [n];
      }
    }
  }

  function HasAsset(k: string): Report -> bool {
    (r: Report) => ShowsAsset(r.nodes, k)
  }

  function Count(k: string): Report -> int {
    (r: Report) => if ShowsAsset(r.nodes, k) then 1 else 0
  }

  /** Some node of the asset has the given MAC address, IP address or level. */
  ghost predicate NodeMac(nodes: seq<Node>, k: string, x: string) {
    x != "" && exists n :: n in nodes && Identified(n, k) && n.mac == x
  }

  ghost predicate NodeIp(nodes: seq<Node>, k: string, x: string) {
    x != "" && exists n :: n in nodes && Identified(n, k) && n.ip == x
  }

  ghost predicate NodeLevel(nodes: seq<Node>, k: string, x: int) {
    exists n :: n in nodes && Identified(n, k) && n.level == Some(x)
  }

  /** Exactly the addresses and levels of the asset's nodes are kept. */
  ghost predicate Seen(v: AssetFacts, nodes: seq<Node>, k: string) {
    && (forall x :: x in v.macs <==> NodeMac(nodes, k, x))
    && (forall x :: x in v.ips <==> NodeIp(nodes, k, x))
    && (forall x :: x in v.levels <==> NodeLevel(nodes, k, x))
  }

  lemma NodesConcat(a: seq<Node>, b: seq<Node>, k: string)
    ensures forall x :: NodeMac(a + b, k, x) <==> NodeMac(a, k, x) || NodeMac(b, k, x)
    ensures forall x :: NodeIp(a + b, k, x) <==> NodeIp(a, k, x) || NodeIp(b, k, x)
    ensures forall x :: NodeLevel(a + b, k, x) <==> NodeLevel(a, k, x) || NodeLevel(b, k, x)
  {
    assert forall n :: n in a + b <==> n in a || n in b;
  }

  ghost predicate Nothing(nodes: seq<Node>, k: string) {
    forall n :: n in nodes ==> !Identified(n, k)
  }

  ghost predicate AssetSeen(o: Option<AssetFacts>, nodes: seq<Node>, k: string) {
    match o case None => Nothing(nodes, k) case Some(v) => Seen(v, nodes, k)
  }

  lemma JoinSeen(a: Option<AssetFacts>, b: Option<AssetFacts>, ns: seq<Node>, ms: seq<Node>, k: string)
    requires AssetSeen(a, ns, k) && AssetSeen(b, ms, k)
    ensures AssetSeen(Unordered.Join(JoinAsset, a, b), ns + ms, k)
  {
    NodesConcat(ns, ms, k);
    assert forall n :: n in ns + ms <==> n in ns || n in ms;
  }

  lemma OneNode(n: Node, k: string, repeated: bool, modified: string)
    requires Identified(n, k)
    ensures Seen(AssetItem(n, k, repeated, modified).value, [n], k)
  {
    assert n in [n];
    assert forall m :: m in [n] ==> m == n;
  }

  lemma {:induction false} ReportAsset(nodes: seq<Node>, modified: string, k: string)
    ensures var held := Get(Merged(JoinAsset, NodeItems(nodes, modified)), k);
            && (held.Some? <==> Shows(nodes, k)) && AssetSeen(held, nodes, k)
            && (held.Some? ==> held.value.reports == 1 && held.value.first == modified && held.value.last == modified)
  {
    if nodes != [] {
      var init, n := nodes[..|nodes| - 1], nodes[|nodes| - 1];
      assert nodes == init + [n];
      ReportAsset(init, modified, k);
      assert nodes[..|nodes|] == nodes;
      NodeNext([], nodes, |nodes| - 1, modified);
      var before := Merged(JoinAsset, NodeItems(init, modified));
      Irreflexive(modified);
      match AssetKey(n) {
        case None =>
          JoinSeen(Get(before, k), None, init, [n], k);
        case Some(key) =>
          var x := AssetItem(n, key, Shows(init, key), modified);
          GetPut(JoinAsset, before, x, k);
          if key == k {
            OneNode(n, k, Shows(init, key), modified);
            JoinSeen(Get(before, k), Some(x.value), init, [n], k);
          } else {
            JoinSeen(Get(before, k), None, init, [n], k);
          }
      }
    }
  }

  function NodesIn(r: Report): seq<Node> { r.nodes }

  ghost predicate AssetTold(o: Option<AssetFacts>, rs: seq<Report>, k: string) {
    && AssetSeen(o, Flat(NodesIn, rs), k)
    && match o
       case None => Unordered.Total(Count(k), rs) == 0 && forall r :: r in rs ==> !HasAsset(k)(r)
       case Some(v) => v.reports == Unordered.Total(Count(k), rs) && Dated(HasAsset(k), rs, v.first, v.last)
  }

  lemma AssetNext(told: Option<AssetFacts>, own: Option<AssetFacts>, rs: seq<Report>, r: Report, k: string)
    requires AssetTold(told, rs, k) && AssetSeen(own, r.nodes, k) && (own.Some? <==> HasAsset(k)(r))
    requires own.Some? ==> own.value.reports == 1 && own.value.first == r.modified && own.value.last == r.modified
    ensures AssetTold(Unordered.Join(JoinAsset, told, own), rs + [r], k)
  {
    assert (rs + [r])[..|rs|] == rs;
    JoinSeen(told, own, Flat(NodesIn, rs), r.nodes, k);
    match told {
      case None =>
        if own.Some? {
          DatedOne(HasAsset(k), rs, r);
        }
      case Some(v) =>
        if own.Some? {
          DatedNext(HasAsset(k), rs, r, v.first, v.last);
        } else {
          DatedOther(HasAsset(k), rs, r, v.first, v.last);
        }
    }
  }

  lemma {:induction false} ToldAssets(rs: seq<Report>, k: string)
    ensures AssetTold(Told(JoinAsset, AssetItems, rs, k), rs, k)
  {
    if rs != [] {
      var init, r := rs[..|rs| - 1], rs[|rs| - 1];
      assert rs == init + [r];
      ToldAssets(init, k);
      ReportAsset(r.nodes, r.modified, k);
      ShowsExact(r.nodes, k);
      AssetNext(Told(JoinAsset, AssetItems, init, k), Get(Merged(JoinAsset, AssetItems(r)), k), init, r, k);
    }
  }

  /** An asset's report count is the reports that show it, its times are the least non-empty and the greatest of
      theirs, and its addresses and levels are exactly those of its nodes. */
  lemma AssetMeaning(rs: seq<Report>, k: string)
    ensures AssetTold(Get(Assets(rs), k), rs, k)
  {
    JoinAssetLaws();
    FoldTells(JoinAsset, AssetItems, rs, k);
    ToldAssets(rs, k);
  }
}
