/**
 The roll-up of a project's reports: assets and findings are deduplicated across reports, with counts,
 the worst severity, and the first and last report time. Text values are taken trimmed and in the case the
 program gives them; a finding's nodes and edges are compared without regard to order, hence multisets.
 */
module Rollup {
  import opened Wrappers
  import opened KeyedFold
  import opened Unordered
  import opened Text

  datatype FindingKey = FindingKey(category: string, nodes: multiset<string>, edges: multiset<string>)

  datatype Finding = Finding(key: FindingKey, severity: string, cvss: real, description: string)

  datatype Node = Node(mac: string, ip: string, level: Option<int>)

  datatype Report = Report(modified: string, nodes: seq<Node>, findings: seq<Finding>)

  /** 0 for the most severe; a severity the program does not know counts as medium. */
  function SeverityRank(text: string): (r: nat)
    ensures r < 5
  {
    match text
    case "CRITICAL" => 0
    case "HIGH" => 1
    case "MEDIUM" => 2
    case "LOW" => 3
    case "INFO" => 4
    case _ => 2
  }

  // ---- findings ----

  datatype Facts = Facts(occurrences: int, rank: nat, cvss: real, first: string, last: string)

  datatype Entry = Entry(facts: Facts, description: string)

  function FactsOf(e: Entry): Facts { e.facts }
  function OccurrencesOf(e: Entry): int { e.facts.occurrences }

  function JoinFacts(a: Facts, b: Facts): Facts {
    Facts(a.occurrences + b.occurrences,
          if b.rank < a.rank then b.rank else a.rank,
          if b.cvss > a.cvss then b.cvss else a.cvss,
          Earlier(a.first, b.first),
          Later(a.last, b.last))
  }

  /** A strictly later report also replaces the description, when it has one. */
  function JoinEntry(a: Entry, b: Entry): Entry {
    Entry(JoinFacts(a.facts, b.facts),
          if Less(a.facts.last, b.facts.last) && b.description != "" then b.description else a.description)
  }

  predicate Holds(fs: seq<Finding>, k: FindingKey) {
    fs != [] && (fs[|fs| - 1].key == k || Holds(fs[..|fs| - 1], k))
  }

  function ItemOf(f: Finding, repeated: bool, modified: string): Item<FindingKey, Entry> {
    Item(f.key,
          Entry(Facts(if repeated then 0 else 1, SeverityRank(f.severity), f.cvss, modified, modified), f.description))
  }

  /** Only the first finding of its key in a report counts as an occurrence. */
  function ItemsOf(fs: seq<Finding>, modified: string): seq<Item<FindingKey, Entry>> {
    if fs == [] then []
    else
      var init, f := fs[..|fs| - 1], fs[|fs| - 1];
      ItemsOf(init, modified) + [ItemOf(f, Holds(init, f.key), modified)]
  }

  function FindingItems(r: Report): seq<Item<FindingKey, Entry>> {
    ItemsOf(r.findings, r.modified)
  }

  function Findings(rs: seq<Report>): seq<Item<FindingKey, Entry>> {
    Merged(JoinEntry, Flat(FindingItems, rs))
  }

  /** The number of first occurrences of the given severity. */
  function Tally(fs: seq<Finding>, rank: nat): int {
    if fs == [] then 0
    else
      var init, f := fs[..|fs| - 1], fs[|fs| - 1];
      Tally(init, rank) + (if !Holds(init, f.key) && SeverityRank(f.severity) == rank then 1 else 0)
  }

  function Tallies(rs: seq<Report>, rank: nat): int {
    Unordered.Total((r: Report) => Tally(r.findings, rank), rs)
  }

  // ---- assets ----

  datatype AssetFacts = AssetFacts(reports: int, first: string, last: string,
                                   macs: set<string>, ips: set<string>, levels: set<int>)

  function JoinAsset(a: AssetFacts, b: AssetFacts): AssetFacts {
    AssetFacts(a.reports + b.reports, Earlier(a.first, b.first), Later(a.last, b.last),
               a.macs + b.macs, a.ips + b.ips, a.levels + b.levels)
  }

  /** A node is known by its MAC address, else by its IP address, else not at all. */
  function AssetKey(n: Node): Option<string> {
    if n.mac != "" then Some(n.mac) else if n.ip != "" then Some(n.ip) else None
  }

  predicate Shows(nodes: seq<Node>, k: string) {
    nodes != [] && (AssetKey(nodes[|nodes| - 1]) == Some(k) || Shows(nodes[..|nodes| - 1], k))
  }

  function AssetItem(n: Node, k: string, repeated: bool, modified: string): Item<string, AssetFacts> {
    Item(k, AssetFacts(if repeated then 0 else 1, modified, modified,
                       if n.mac != "" then {n.mac} else {}, if n.ip != "" then {n.ip} else {},
                       if n.level.Some? then {n.level.value} else {}))
  }

  function NodeItems(nodes: seq<Node>, modified: string): seq<Item<string, AssetFacts>> {
    if nodes == [] then []
    else
      var init, n := nodes[..|nodes| - 1], nodes[|nodes| - 1];
      NodeItems(init, modified) +
            (match AssetKey(n) case None => [] case Some(k) => [AssetItem(n, k, Shows(init, k), modified)])
  }

  function AssetItems(r: Report): seq<Item<string, AssetFacts>> {
    NodeItems(r.nodes, r.modified)
  }

  function Assets(rs: seq<Report>): seq<Item<string, AssetFacts>> {
    Merged(JoinAsset, Flat(AssetItems, rs))
  }

  // ---- the computation ----

  /** Reports that do not load are passed over. */
  function Readable(loaded: seq<Option<Report>>): seq<Report> {
    if loaded == [] then []
    else Readable(loaded[..|loaded| - 1]) + (match loaded[|loaded| - 1] case None => [] case Some(r) => [r])
  }

  method Aggregate(loaded: seq<Option<Report>>)
    returns (count: nat, assets: seq<Item<string, AssetFacts>>, findings: seq<Item<FindingKey, Entry>>,
          histogram: array<int>)
    ensures var rs := Readable(loaded);
            && count == |rs| && assets == Assets(rs) && findings == Findings(rs)
            && histogram.Length == 5 && forall s :: 0 <= s < 5 ==> histogram[s] == Tallies(rs, s)
  {
    count, assets, findings := 0, [], [];
    histogram := new int[5](_ => 0);
    for i := 0 to |loaded|
      invariant count == |Readable(loaded[..i])|
      invariant assets == Assets(Readable(loaded[..i])) && findings == Findings(Readable(loaded[..i]))
      invariant fresh(histogram) && histogram.Length == 5
      invariant forall s :: 0 <= s < 5 ==> histogram[s] == Tallies(Readable(loaded[..i]), s)
    {
      assert loaded[..i + 1][..i] == loaded[..i];
      ghost var before := Readable(loaded[..i]);
      match loaded[i] {
        case None =>
          assert Readable(loaded[..i + 1]) == before;
        case Some(r) =>
          count := count + 1;
          assert Readable(loaded[..i + 1]) == before + [r];
          ReportNext(before, r);
          assets := AddAssets(assets, r);
          findings := AddFindings(findings, histogram, r);
      }
    }
    assert loaded[..|loaded|] == loaded;
  }

  lemma ReportNext(rs: seq<Report>, r: Report)
    ensures Assets(rs + [r]) == Into(JoinAsset, Assets(rs), AssetItems(r))
    ensures Findings(rs + [r]) == Into(JoinEntry, Findings(rs), FindingItems(r))
    ensures forall s :: Tallies(rs + [r], s) == Tallies(rs, s) + Tally(r.findings, s)
  {
    assert (rs + [r])[..|rs|] == rs;
    IntoConcat(JoinAsset, [], Flat(AssetItems, rs), AssetItems(r));
    IntoConcat(JoinEntry, [], Flat(FindingItems, rs), FindingItems(r));
  }

  method AddAssets(held: seq<Item<string, AssetFacts>>, r: Report) returns (assets: seq<Item<string, AssetFacts>>)
    ensures assets == Into(JoinAsset, held, AssetItems(r))
  {
    assets := held;
    var seen: set<string> := {};
    for i := 0 to |r.nodes|
      invariant assets == Into(JoinAsset, held, NodeItems(r.nodes[..i], r.modified))
      invariant forall k :: k in seen <==> Shows(r.nodes[..i], k)
    {
      NodeNext(held, r.nodes, i, r.modified);
      match AssetKey(r.nodes[i]) {
        case None =>
        case Some(k) =>
          assets := Put(JoinAsset, assets, AssetItem(r.nodes[i], k, k in seen, r.modified));
          seen := seen + {k};
      }
    }
    assert r.nodes[..|r.nodes|] == r.nodes;
  }

  lemma NodeNext(held: seq<Item<string, AssetFacts>>, nodes: seq<Node>, i: nat, modified: string)
    requires i < |nodes|
    ensures match AssetKey(nodes[i])
            case None =>
              && Into(JoinAsset, held, NodeItems(nodes[..i + 1], modified)) ==
                    Into(JoinAsset, held, NodeItems(nodes[..i], modified))
              && forall k :: Shows(nodes[..i + 1], k) <==> Shows(nodes[..i], k)
            case Some(key) =>
              && Into(JoinAsset, held, NodeItems(nodes[..i + 1], modified)) ==
                   Put(JoinAsset, Into(JoinAsset, held, NodeItems(nodes[..i], modified)),
                       AssetItem(nodes[i], key, Shows(nodes[..i], key), modified))
              && forall k :: Shows(nodes[..i + 1], k) <==> k == key || Shows(nodes[..i], k)
  {
    assert nodes[..i + 1][..i] == nodes[..i];
    var before := NodeItems(nodes[..i], modified);
    match AssetKey(nodes[i]) {
      case None =>
        assert NodeItems(nodes[..i + 1], modified) == before;
      case Some(key) =>
        var x := AssetItem(nodes[i], key, Shows(nodes[..i], key), modified);
        assert NodeItems(nodes[..i + 1], modified) == before + [x];
        assert (before + [x])[..|before|] == before;
    }
  }

  method AddFindings(held: seq<Item<FindingKey, Entry>>, histogram: array<int>, r: Report)
    returns (findings: seq<Item<FindingKey, Entry>>)
    requires histogram.Length == 5
    modifies histogram
    ensures findings == Into(JoinEntry, held, FindingItems(r))
    ensures forall s :: 0 <= s < 5 ==> histogram[s] == old(histogram[s]) + Tally(r.findings, s)
  {
    findings := held;
    var seen: set<FindingKey> := {};
    for i := 0 to |r.findings|
      invariant findings == Into(JoinEntry, held, ItemsOf(r.findings[..i], r.modified))
      invariant forall k :: k in seen <==> Holds(r.findings[..i], k)
      invariant forall s :: 0 <= s < 5 ==> histogram[s] == old(histogram[s]) + Tally(r.findings[..i], s)
    {
      assert r.findings[..i + 1][..i] == r.findings[..i];
      var f := r.findings[i];
      var x := ItemOf(f, f.key in seen, r.modified);
      ghost var before := ItemsOf(r.findings[..i], r.modified);
      assert ItemsOf(r.findings[..i + 1], r.modified) == before + [x];
      assert (before + [x])[..|before|] == before;
      findings := Put(JoinEntry, findings, x);
      if f.key !in seen {
        seen := seen + {f.key};
        histogram[SeverityRank(f.severity)] := histogram[SeverityRank(f.severity)] + 1;
      }
    }
    assert r.findings[..|r.findings|] == r.findings;
  }

  // ---- order does not matter ----

  lemma EarlierCommutes(a: string, b: string)
    ensures Earlier(a, b) == Earlier(b, a) && Later(a, b) == Later(b, a)
  {
    Text.Total(a, b);
    Asymmetric(a, b);
  }

  lemma JoinFactsLaws()
    ensures Associative(JoinFacts) && Commutative(JoinFacts)
  {
    forall a: Facts, b: Facts ensures JoinFacts(a, b) == JoinFacts(b, a) {
      EarlierCommutes(a.first, b.first);
      EarlierCommutes(a.last, b.last);
    }
    forall a: Facts, b: Facts, c: Facts ensures JoinFacts(JoinFacts(a, b), c) == JoinFacts(a, JoinFacts(b, c)) {
      EarlierAssociates(a.first, b.first, c.first);
      LaterAssociates(a.last, b.last, c.last);
    }
  }

  lemma JoinAssetLaws()
    ensures Associative(JoinAsset) && Commutative(JoinAsset)
  {
    forall a: AssetFacts, b: AssetFacts ensures JoinAsset(a, b) == JoinAsset(b, a) {
      EarlierCommutes(a.first, b.first);
      EarlierCommutes(a.last, b.last);
    }
    forall a: AssetFacts, b: AssetFacts, c: AssetFacts
          ensures JoinAsset(JoinAsset(a, b), c) == JoinAsset(a, JoinAsset(b, c)) {
      EarlierAssociates(a.first, b.first, c.first);
      LaterAssociates(a.last, b.last, c.last);
    }
  }

  function FactItems(r: Report): seq<Item<FindingKey, Facts>> {
    Project(FactsOf, FindingItems(r))
  }

  lemma {:induction false} FlatFacts(rs: seq<Report>)
    ensures Project(FactsOf, Flat(FindingItems, rs)) == Flat(FactItems, rs)
  {
    if rs != [] {
      FlatFacts(rs[..|rs| - 1]);
      ProjectConcat(FactsOf, Flat(FindingItems, rs[..|rs| - 1]), FindingItems(rs[|rs| - 1]));
    }
  }

  lemma FactsFold(rs: seq<Report>)
    ensures Project(FactsOf, Findings(rs)) == Merged(JoinFacts, Flat(FactItems, rs))
  {
    ProjectMerged(FactsOf, JoinEntry, JoinFacts, Flat(FindingItems, rs));
    FlatFacts(rs);
  }

  function FindingFacts(rs: seq<Report>, k: FindingKey): Option<Facts> {
    Get(Project(FactsOf, Findings(rs)), k)
  }

  /** Occurrences, severity, CVSS and the first and last times of every finding are the same in any order of the
      reports. */
  lemma FindingsOrderIrrelevant(rs: seq<Report>, ss: seq<Report>, k: FindingKey)
    requires multiset(rs) == multiset(ss)
    ensures FindingFacts(rs, k) == FindingFacts(ss, k)
  {
    FactsFold(rs);
    FactsFold(ss);
    JoinFactsLaws();
    OrderIrrelevant(JoinFacts, FactItems, rs, ss, k);
  }

  /** Everything kept of an asset is the same in any order of the reports. */
  lemma AssetsOrderIrrelevant(rs: seq<Report>, ss: seq<Report>, k: string)
    requires multiset(rs) == multiset(ss)
    ensures Get(Assets(rs), k) == Get(Assets(ss), k)
  {
    JoinAssetLaws();
    OrderIrrelevant(JoinAsset, AssetItems, rs, ss, k);
  }

  lemma HistogramOrderIrrelevant(rs: seq<Report>, ss: seq<Report>, rank: nat)
    requires multiset(rs) == multiset(ss)
    ensures Tallies(rs, rank) == Tallies(ss, rank)
  {
    TotalUnordered((r: Report) => Tally(r.findings, rank), rs, ss);
  }

  // ---- what the numbers mean ----

  function FactItemsOf(fs: seq<Finding>, modified: string): seq<Item<FindingKey, Facts>> {
    Project(FactsOf, ItemsOf(fs, modified))
  }

  lemma FactItemsNext(fs: seq<Finding>, modified: string)
    requires fs != []
    ensures var init, f := fs[..|fs| - 1], fs[|fs| - 1];
            var x := ItemOf(f, Holds(init, f.key), modified);
            && Merged(JoinFacts, FactItemsOf(fs, modified)) ==
                 Put(JoinFacts, Merged(JoinFacts, FactItemsOf(init, modified)), Item(f.key, x.value.facts))
  {
    var init, f := fs[..|fs| - 1], fs[|fs| - 1];
    var x := ItemOf(f, Holds(init, f.key), modified);
    ProjectConcat(FactsOf, ItemsOf(init, modified), [x]);
    assert [x][1..] == [] && Project(FactsOf, [x]) == [Item(f.key, x.value.facts)];
    var before := FactItemsOf(init, modified);
    assert (before + [Item(f.key, x.value.facts)])[..|before|] == before;
  }

  ghost predicate Rated(fs: seq<Finding>, k: FindingKey, rank: nat) {
    exists f :: f in fs && f.key == k && SeverityRank(f.severity) == rank
  }

  ghost predicate Scored(fs: seq<Finding>, k: FindingKey, cvss: real) {
    exists f :: f in fs && f.key == k && f.cvss == cvss
  }

  /** The facts give the most severe rating and the highest score of any finding of the key. */
  ghost predicate Worst(facts: Option<Facts>, fs: seq<Finding>, k: FindingKey) {
    match facts
    case None => forall f :: f in fs ==> f.key != k
    case Some(v) =>
      && Rated(fs, k, v.rank) && Scored(fs, k, v.cvss)
      && forall f :: f in fs && f.key == k ==> v.rank <= SeverityRank(f.severity) && f.cvss <= v.cvss
  }

  lemma RatedLonger(fs: seq<Finding>, gs: seq<Finding>, k: FindingKey, rank: nat, cvss: real)
    ensures Rated(fs, k, rank) || Rated(gs, k, rank) ==> Rated(fs + gs, k, rank)
    ensures Scored(fs, k, cvss) || Scored(gs, k, cvss) ==> Scored(fs + gs, k, cvss)
  {
    assert forall f :: f in fs || f in gs ==> f in fs + gs;
  }

  lemma JoinWorst(a: Option<Facts>, b: Option<Facts>, fs: seq<Finding>, gs: seq<Finding>, k: FindingKey)
    requires Worst(a, fs, k) && Worst(b, gs, k)
    ensures Worst(Unordered.Join(JoinFacts, a, b), fs + gs, k)
  {
    assert forall f :: f in fs + gs ==> f in fs || f in gs;
    match Unordered.Join(JoinFacts, a, b) {
      case None =>
      case Some(v) => RatedLonger(fs, gs, k, v.rank, v.cvss);
    }
  }

  lemma {:induction false} ReportFacts(fs: seq<Finding>, modified: string, k: FindingKey)
    ensures var held := Get(Merged(JoinFacts, FactItemsOf(fs, modified)), k);
            && Worst(held, fs, k) && (held.Some? <==> Holds(fs, k)) && (held.Some? ==> held.value.occurrences == 1)
            && (held.Some? ==> held.value.first == modified && held.value.last == modified)
  {
    if fs != [] {
      var init, f := fs[..|fs| - 1], fs[|fs| - 1];
      ReportFacts(init, modified, k);
      FactItemsNext(fs, modified);
      var x := ItemOf(f, Holds(init, f.key), modified).value.facts;
      var before := Merged(JoinFacts, FactItemsOf(init, modified));
      GetPut(JoinFacts, before, Item(f.key, x), k);
      assert fs == init + [f];
      var one: Option<Facts> := if f.key == k then Some(x) else None;
      assert Worst(one, [f], k) by {
        assert f in [f];
      }
      JoinWorst(Get(before, k), one, init, [f], k);
      Irreflexive(modified);
    }
  }

  /** 1 if the report has a finding of the key, else 0. */
  function Has(r: Report, k: FindingKey): int {
    if exists f :: f in r.findings && f.key == k then 1 else 0
  }

  lemma {:induction false} HoldsExact(fs: seq<Finding>, k: FindingKey)
    ensures Holds(fs, k) <==> exists f :: f in fs && f.key == k
  {
    if fs != [] {
      HoldsExact(fs[..|fs| - 1], k);
      assert fs == fs[..|fs| - 1] + [fs[|fs| - 1]];
    }
  }

  /** Critical before high before medium before low before informational; any other text counts as medium. */
  lemma RanksExact(text: string)
    ensures SeverityRank("CRITICAL") < SeverityRank("HIGH") < SeverityRank("MEDIUM")
    ensures SeverityRank("MEDIUM") < SeverityRank("LOW") < SeverityRank("INFO")
    ensures text !in {"CRITICAL", "HIGH", "MEDIUM", "LOW", "INFO"} ==> SeverityRank(text) == SeverityRank("MEDIUM")
  {
  }

  function FindingsIn(r: Report): seq<Finding> { r.findings }

  lemma {:induction false} ToldFacts(rs: seq<Report>, k: FindingKey)
    ensures var told := Told(JoinFacts, FactItems, rs, k);
            var reports := Unordered.Total((r: Report) => Has(r, k), rs);
            && Worst(told, Flat(FindingsIn, rs), k)
            && 0 <= reports <= |rs|
            && (match told case None => reports == 0 case Some(v) => v.occurrences == reports && reports > 0)
  {
    if rs != [] {
      var init, last := rs[..|rs| - 1], rs[|rs| - 1];
      ToldFacts(init, k);
      ReportFacts(last.findings, last.modified, k);
      HoldsExact(last.findings, k);
      JoinWorst(Told(JoinFacts, FactItems, init, k), Get(Merged(JoinFacts, FactItems(last)), k),
                Flat(FindingsIn, init), last.findings, k);
    }
  }

  /** A finding's occurrences are the reports that have it, and its severity and score are the worst any of them
      gives. */
  lemma FindingMeaning(rs: seq<Report>, k: FindingKey)
    ensures var facts := FindingFacts(rs, k);
            var reports := Unordered.Total((r: Report) => Has(r, k), rs);
            && Worst(facts, Flat(FindingsIn, rs), k)
            && reports <= |rs|
            && (match facts case None => reports == 0 case Some(v) => v.occurrences == reports && reports > 0)
  {
    FactsFold(rs);
    JoinFactsLaws();
    FoldTells(JoinFacts, FactItems, rs, k);
    ToldFacts(rs, k);
  }

  lemma {:induction false} SumConcat<K, V>(w: V -> int, xs: seq<Item<K, V>>, ys: seq<Item<K, V>>)
    ensures Sum(w, xs + ys) == Sum(w, xs) + Sum(w, ys)
  {
    if xs == [] {
      assert xs + ys == ys;
    } else {
      assert (xs + ys)[1..] == xs[1..] + ys;
      SumConcat(w, xs[1..], ys);
    }
  }

  function TallyAll(fs: seq<Finding>): int {
    Tally(fs, 0) + Tally(fs, 1) + Tally(fs, 2) + Tally(fs, 3) + Tally(fs, 4)
  }

  function TalliesAll(rs: seq<Report>): int {
    Tallies(rs, 0) + Tallies(rs, 1) + Tallies(rs, 2) + Tallies(rs, 3) + Tallies(rs, 4)
  }

  lemma {:induction false} TallyCounts(fs: seq<Finding>, modified: string)
    ensures TallyAll(fs) == Sum(OccurrencesOf, ItemsOf(fs, modified))
  {
    if fs != [] {
      var init, f := fs[..|fs| - 1], fs[|fs| - 1];
      TallyCounts(init, modified);
      var x := ItemOf(f, Holds(init, f.key), modified);
      SumConcat(OccurrencesOf, ItemsOf(init, modified), [x]);
      assert [x][1..] == [];
    }
  }

  lemma {:induction false} TalliesCount(rs: seq<Report>)
    ensures TalliesAll(rs) == Sum(OccurrencesOf, Flat(FindingItems, rs))
  {
    if rs != [] {
      var init, last := rs[..|rs| - 1], rs[|rs| - 1];
      TalliesCount(init);
      TallyCounts(last.findings, last.modified);
      SumConcat(OccurrencesOf, Flat(FindingItems, init), FindingItems(last));
      assert forall s :: Tallies(rs, s) == Tallies(init, s) + Tally(last.findings, s);
    }
  }

  /** The severity histogram adds up to the occurrences of all findings. */
  lemma HistogramConserved(rs: seq<Report>)
    ensures TalliesAll(rs) == Sum(OccurrencesOf, Findings(rs)) && OncePerKey(Findings(rs))
  {
    TalliesCount(rs);
    SumConserved(JoinEntry, OccurrencesOf, Flat(FindingItems, rs));
    MergedOncePerKey(JoinEntry, [], Flat(FindingItems, rs));
  }

  // ---- the description ----

  function DescriptionOf(rs: seq<Report>, k: FindingKey): Option<string> {
    match Get(Findings(rs), k) case None => None case Some(e) => Some(e.description)
  }
}
