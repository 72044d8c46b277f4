/**
 Scanning reports for indicators of compromise. At most fifty matches are kept per report and at most a
 thousand hits in all. Indicator values and report texts are taken with the normal form of their type: domain names
 and hashes in lower case, addresses as the program writes them.
 */
module Iocs {
  import opened Wrappers
  import opened KeyedFold
  import Strings = Text

  datatype Type = Ip | Mac | Oui | Domain | Sha256 | Md5

  datatype Indicator = Indicator(kind: Type, value: string, severity: string)

  /** A text of a report: what a match shows of it, and the normal form that is compared. */
  datatype Text = Text(shown: string, compared: string)

  datatype Conv = Conv(srcIp: string, dstIp: string, srcMac: string, dstMac: string, queries: seq<seq<Text>>)
  datatype C2 = C2(dst: string, src: string, dstMac: string, srcMac: string)
  datatype Node = Node(ip: string, mac: string)
  datatype Malware = Malware(sha256: string, md5: string)

  /** A DNS query is the list of its texts; `affected` lists the addresses each finding names. */
  datatype Report = Report(nodes: seq<Node>, convs: seq<Conv>, c2: seq<C2>, affected: seq<seq<Text>>,
        malware: seq<Malware>)

  datatype Match = Match(place: string, text: Text)

  /** A place of a report that may match: the first of its texts that does counts. */
  datatype Place = Place(name: string, texts: seq<Text>)

  /** An address or a hash is shown in its normal form. */
  function At(name: string, address: string): Place {
    Place(name, [Text(address, address)])
  }

  const PER_REPORT := 50
  const IN_ALL := 1000

  function Each<T>(xs: seq<T>, places: T -> seq<Place>): seq<Place> {
    if xs == [] then [] else places(xs[0]) + Each(xs[1..], places)
  }

  function Named(name: string, texts: seq<Text>): seq<Place> {
    if texts == [] then [] else [Place(name, [texts[0]])] + Named(name, texts[1..])
  }

  function Queries(queries: seq<seq<Text>>): seq<Place> {
    if queries == [] then [] else [Place("conversation.dns_queries", queries[0])] + Queries(queries[1..])
  }

  /** Where an indicator of a type is looked for, in order. */
  function Places(kind: Type, r: Report): seq<Place> {
    match kind
    case Ip =>
      Each(r.nodes, (n: Node) => [At("node.ip", n.ip)]) +
      Each(r.convs, (c: Conv) => [At("conversation.src_ip", c.srcIp), At("conversation.dst_ip", c.dstIp)]) +
      Each(r.c2, (i: C2) => [At("c2_indicator.dst", i.dst), At("c2_indicator.src", i.src)]) +
      Each(r.affected, (a: seq<Text>) => Named("risk_finding.affected_nodes", a))
    case Mac =>
      Each(r.nodes, (n: Node) => [At("node.mac", n.mac)]) +
      Each(r.convs,
            (c: Conv) => [At("conversation.src_mac", c.srcMac), At("conversation.dst_mac", c.dstMac)]) +
      Each(r.c2, (i: C2) => [At("c2_indicator.dst_mac", i.dstMac), At("c2_indicator.src_mac", i.srcMac)])
    case Oui =>
      Each(r.nodes, (n: Node) => [At("node.mac (oui)", n.mac)]) +
      Each(r.convs, (c: Conv) => [At("conversation.src_mac (oui)", c.srcMac),
            At("conversation.dst_mac (oui)", c.dstMac)])
    case Domain => Each(r.convs, (c: Conv) => Queries(c.queries))
    case Sha256 => Each(r.malware, (m: Malware) => [At("malware_finding.sha256", m.sha256)])
    case Md5 => Each(r.malware, (m: Malware) => [At("malware_finding.md5", m.md5)])
  }

  predicate Contains(text: string, part: string) {
    part <= text || (text != "" && Contains(text[1..], part))
  }

  /** The first eight characters of a MAC address are its vendor prefix. */
  predicate Matches(i: Indicator, text: string) {
    match i.kind
    case Oui => (if |text| <= 8 then text else text[..8]) == i.value
    case Domain => Contains(text, i.value)
    case _ => text == i.value
  }

  function FirstMatch(i: Indicator, texts: seq<Text>): Option<Text> {
    if texts == [] then None
    else if Matches(i, texts[0].compared) then Some(texts[0])
    else FirstMatch(i, texts[1..])
  }

  /** Every match of an indicator among some places. */
  function Found(i: Indicator, places: seq<Place>): seq<Match> {
    if places == [] then []
    else
      var p := places[|places| - 1];
      Found(i, places[..|places| - 1]) +
            (match FirstMatch(i, p.texts) case None => [] case Some(t) => [Match(p.name, t)])
  }

  function Prefix<T>(s: seq<T>, n: int): (r: seq<T>)
    ensures r <= s && |r| == if n <= 0 then 0 else if n <= |s| then n else |s|
  {
    if n <= 0 then [] else if n <= |s| then s[..n] else s
  }

  datatype Hit = Hit(indicator: Indicator, matches: seq<Match>)

  function Scanned(r: Report, wanted: seq<Indicator>): seq<Hit> {
    if wanted == [] then []
    else
      var before, i := Scanned(r, wanted[..|wanted| - 1]), wanted[|wanted| - 1];
      var kept := Kept(r, i, Count(before));
      if kept == [] then before else before + [Hit(i, kept)]
  }

  function Count(hs: seq<Hit>): nat {
    if hs == [] then 0 else Count(hs[..|hs| - 1]) + |hs[|hs| - 1].matches|
  }

  method FindMatches(i: Indicator, places: seq<Place>, used: nat) returns (matches: seq<Match>)
    ensures matches == Prefix(Found(i, places), PER_REPORT - used)
  {
    matches := [];
    for k := 0 to |places|
      invariant matches == Prefix(Found(i, places[..k]), PER_REPORT - used)
    {
      assert places[..k + 1][..k] == places[..k];
      match FirstMatch(i, places[k].texts) {
        case None =>
          assert Found(i, places[..k + 1]) == Found(i, places[..k]);
        case Some(t) =>
          PrefixSnoc(Found(i, places[..k]), Match(places[k].name, t), PER_REPORT - used);
          if used + |matches| < PER_REPORT {
            matches := matches + [Match(places[k].name, t)];
          }
      }
    }
    assert places[..|places|] == places;
  }

  lemma PrefixSnoc<T>(s: seq<T>, x: T, n: int)
    ensures Prefix(s + [x], n) == if |Prefix(s, n)| < n then Prefix(s, n) + [x] else Prefix(s, n)
  {
  }

  method ScanReport(r: Report, wanted: seq<Indicator>) returns (hits: seq<Hit>)
    ensures hits == Scanned(r, wanted)
  {
    hide Found, Places, Prefix;
    hits := [];
    var used := 0;
    for k := 0 to |wanted|
      invariant hits == Scanned(r, wanted[..k]) && used == Count(hits)
    {
      if used >= PER_REPORT {
        FullStays(r, wanted, k);
        return;
      }
      ScannedNext(r, wanted, k);
      var matches := FindMatches(wanted[k], Places(wanted[k].kind, r), used);
      used := used + |matches|;
      if matches != [] {
        hits := hits + [Hit(wanted[k], matches)];
      }
    }
    assert wanted[..|wanted|] == wanted;
  }

  function Kept(r: Report, i: Indicator, used: nat): seq<Match> {
    Prefix(Found(i, Places(i.kind, r)), PER_REPORT - used)
  }

  lemma ScannedNext(r: Report, wanted: seq<Indicator>, k: nat)
    requires k < |wanted|
    ensures var before := Scanned(r, wanted[..k]);
            var kept := Kept(r, wanted[k], Count(before));
            && Scanned(r, wanted[..k + 1]) == (if kept == [] then before else before + [Hit(wanted[k], kept)])
            && Count(Scanned(r, wanted[..k + 1])) == Count(before) + |kept|
  {
    assert wanted[..k + 1][..k] == wanted[..k];
    var before := Scanned(r, wanted[..k]);
    var hit := Hit(wanted[k], Kept(r, wanted[k], Count(before)));
    assert (before + [hit])[..|before|] == before;
  }

  lemma {:induction false} FullStays(r: Report, wanted: seq<Indicator>, k: nat)
    requires k <= |wanted| && Count(Scanned(r, wanted[..k])) >= PER_REPORT
    ensures Scanned(r, wanted) == Scanned(r, wanted[..k])
    decreases |wanted| - k
  {
    if k == |wanted| {
      assert wanted[..k] == wanted;
    } else {
      ScannedNext(r, wanted, k);
      FullStays(r, wanted, k + 1);
    }
  }

  // ---- the cap of one report ----

  datatype Pair = Pair(indicator: Indicator, found: Match)

  function Pairs(i: Indicator, ms: seq<Match>): seq<Pair> {
    if ms == [] then [] else [Pair(i, ms[0])] + Pairs(i, ms[1..])
  }

  function Listed(hs: seq<Hit>): seq<Pair> {
    if hs == [] then [] else Listed(hs[..|hs| - 1]) + Pairs(hs[|hs| - 1].indicator, hs[|hs| - 1].matches)
  }

  /** Every match of every indicator in a report, in order, without any cap. */
  function All(r: Report, wanted: seq<Indicator>): seq<Pair> {
    if wanted == [] then []
    else
      var i := wanted[|wanted| - 1];
      All(r, wanted[..|wanted| - 1]) + Pairs(i, Found(i, Places(i.kind, r)))
  }

  lemma {:induction false} PairsPrefix(i: Indicator, ms: seq<Match>, n: int)
    ensures Pairs(i, Prefix(ms, n)) == Prefix(Pairs(i, ms), n) && |Pairs(i, ms)| == |ms|
  {
    if ms != [] {
      PairsPrefix(i, ms[1..], n - 1);
      if n > 0 {
        assert Prefix(ms, n)[1..] == Prefix(ms[1..], n - 1);
        assert Prefix(Pairs(i, ms), n) == [Pair(i, ms[0])] + Prefix(Pairs(i, ms[1..]), n - 1);
      }
    }
  }

  lemma PrefixConcat<T>(a: seq<T>, b: seq<T>, n: nat)
    ensures Prefix(a + b, n) == Prefix(a, n) + Prefix(b, n - |Prefix(a, n)|)
  {
  }

  /** The hits of a report list the first fifty of all its matches, in order, and no hit is without a match. */
  lemma {:induction false} ReportKeepsFirst(r: Report, wanted: seq<Indicator>)
    ensures Listed(Scanned(r, wanted)) == Prefix(All(r, wanted), 50)
    ensures Count(Scanned(r, wanted)) == |Listed(Scanned(r, wanted))|
    ensures forall h :: h in Scanned(r, wanted) ==> h.matches != []
  {
    if wanted != [] {
      var init, i := wanted[..|wanted| - 1], wanted[|wanted| - 1];
      ReportKeepsFirst(r, init);
      var before, found := Scanned(r, init), Found(i, Places(i.kind, r));
      var kept := Kept(r, i, Count(before));
      PairsPrefix(i, found, 50 - Count(before));
      PairsPrefix(i, kept, 0);
      PrefixConcat(All(r, init), Pairs(i, found), 50);
      if kept != [] {
        assert (before + [Hit(i, kept)])[..|before|] == before;
      }
    }
  }

  /** So a report's matches are all there exactly when there are no more than fifty. */
  lemma ReportComplete(r: Report, wanted: seq<Indicator>)
    ensures Listed(Scanned(r, wanted)) == All(r, wanted) <==> |All(r, wanted)| <= 50
    ensures Count(Scanned(r, wanted)) <= 50
  {
    ReportKeepsFirst(r, wanted);
  }

  // ---- the cap over all reports ----

  datatype Located = Located(report: string, hit: Hit)

  datatype Source = Source(file: string, report: Option<Report>)

  datatype Result = Result(scanned: nat, hits: seq<Located>, truncated: bool)

  function Tagged(file: string, hs: seq<Hit>): seq<Located> {
    if hs == [] then [] else Tagged(file, hs[..|hs| - 1]) + [Located(file, hs[|hs| - 1])]
  }

  function From(s: Source, wanted: seq<Indicator>): seq<Located> {
    match s.report
    case None => []
    case Some(r) => Tagged(s.file, Scanned(r, wanted))
  }

  /** The hits of every readable report, without the cap over all reports. */
  function Everything(ss: seq<Source>, wanted: seq<Indicator>): seq<Located> {
    if ss == [] then [] else Everything(ss[..|ss| - 1], wanted) + From(ss[|ss| - 1], wanted)
  }

  /** The readable reports reached before the list is full. */
  function Reached(ss: seq<Source>, wanted: seq<Indicator>): nat {
    if ss == [] then 0
    else
      var init := ss[..|ss| - 1];
      Reached(init, wanted) + (if ss[|ss| - 1].report.Some? && |Everything(init, wanted)| < IN_ALL then 1 else 0)
  }

  method Add(held: seq<Located>, file: string, hs: seq<Hit>) returns (hits: seq<Located>, full: bool)
    requires |held| <= IN_ALL
    ensures hits == Prefix(held + Tagged(file, hs), IN_ALL)
    ensures full <==> |held| + |hs| > IN_ALL
  {
    hits, full := held, false;
    assert hs[..0] == [] && held + [] == held;
    for k := 0 to |hs|
      invariant !full && hits == held + Tagged(file, hs[..k]) && |hits| == |held| + k <= IN_ALL
    {
      assert hs[..k + 1][..k] == hs[..k];
      if |hits| >= IN_ALL {
        full := true;
        TaggedPrefix(file, hs, k);
        return;
      }
      hits := hits + [Located(file, hs[k])];
    }
    assert hs[..|hs|] == hs;
  }

  lemma {:induction false} TaggedPrefix(file: string, hs: seq<Hit>, k: nat)
    requires k <= |hs|
    ensures Tagged(file, hs[..k]) <= Tagged(file, hs) && |Tagged(file, hs[..k])| == k && |Tagged(file, hs)| == |hs|
  {
    if k == |hs| {
      assert hs[..k] == hs;
      if hs != [] {
        TaggedPrefix(file, hs[..|hs| - 1], |hs| - 1);
        assert hs[..|hs| - 1][..|hs| - 1] == hs[..|hs| - 1];
      }
    } else {
      TaggedPrefix(file, hs[..|hs| - 1], k);
      assert hs[..|hs| - 1][..k] == hs[..k];
    }
  }

  /** The scan over all reports stops early when the list is full before a report, or fills within one. */
  predicate Overfull(ss: seq<Source>, wanted: seq<Indicator>) {
    |Everything(ss, wanted)| > IN_ALL || (ss != [] && |Everything(ss[..|ss| - 1], wanted)| >= IN_ALL)
  }

  method ScanOne(held: seq<Located>, s: Source, r: Report, wanted: seq<Indicator>)
    returns (hits: seq<Located>, full: bool)
    requires |held| < IN_ALL && s.report == Some(r)
    ensures hits == Prefix(held + From(s, wanted), IN_ALL)
    ensures full <==> |held + From(s, wanted)| > IN_ALL
  {
    var more := ScanReport(r, wanted);
    TaggedPrefix(s.file, more, |more|);
    hits, full := Add(held, s.file, more);
  }

  method Scan(ss: seq<Source>, wanted: seq<Indicator>) returns (result: Result)
    ensures result.hits == Prefix(Everything(ss, wanted), 1000)
    ensures result.truncated <==> Overfull(ss, wanted)
    ensures result.scanned == Reached(ss, wanted)
  {
    var hits: seq<Located>, truncated, scanned := [], false, 0;
    for k := 0 to |ss|
      invariant hits == Prefix(Everything(ss[..k], wanted), IN_ALL)
      invariant truncated <==> |Everything(ss[..k], wanted)| > IN_ALL
      invariant k > 0 ==> |Everything(ss[..k - 1], wanted)| < IN_ALL
      invariant scanned == Reached(ss[..k], wanted)
    {
      if |hits| >= IN_ALL {
        Stopped(ss, wanted, k);
        result := Result(scanned, hits, true);
        return;
      }
      EverythingNext(ss, wanted, k);
      assert hits == Everything(ss[..k], wanted);
      match ss[k].report {
        case None =>
        case Some(r) =>
          scanned := scanned + 1;
          hits, truncated := ScanOne(hits, ss[k], r, wanted);
      }
    }
    assert ss[..|ss|] == ss;
    result := Result(scanned, hits, truncated);
  }

  lemma Stopped(ss: seq<Source>, wanted: seq<Indicator>, k: nat)
    requires k < |ss| && |Everything(ss[..k], wanted)| >= IN_ALL
    ensures Prefix(Everything(ss, wanted), IN_ALL) == Prefix(Everything(ss[..k], wanted), IN_ALL)
    ensures Overfull(ss, wanted) && Reached(ss, wanted) == Reached(ss[..k], wanted)
  {
    Grows(ss, wanted, k);
    ReachedFull(ss, wanted, k);
  }

  lemma EverythingNext(ss: seq<Source>, wanted: seq<Indicator>, k: nat)
    requires k < |ss|
    ensures Everything(ss[..k + 1], wanted) == Everything(ss[..k], wanted) + From(ss[k], wanted)
    ensures ss[k].report == None ==> Everything(ss[..k + 1], wanted) == Everything(ss[..k], wanted)
    ensures Reached(ss[..k + 1], wanted) ==
              Reached(ss[..k], wanted) + (if ss[k].report.Some? && |Everything(ss[..k], wanted)| < IN_ALL then 1 else 0)
  {
    assert ss[..k + 1][..k] == ss[..k];
  }

  lemma {:induction false} ReachedFull(ss: seq<Source>, wanted: seq<Indicator>, k: nat)
    requires k <= |ss| && |Everything(ss[..k], wanted)| >= IN_ALL
    ensures Reached(ss, wanted) == Reached(ss[..k], wanted)
    decreases |ss| - k
  {
    if k == |ss| {
      assert ss[..k] == ss;
    } else {
      EverythingNext(ss, wanted, k);
      ReachedFull(ss, wanted, k + 1);
    }
  }

  lemma {:induction false} Grows(ss: seq<Source>, wanted: seq<Indicator>, k: nat)
    requires k < |ss|
    ensures Everything(ss[..k], wanted) <= Everything(ss[..|ss| - 1], wanted) <= Everything(ss, wanted)
    decreases |ss| - k
  {
    assert ss[..|ss|] == ss;
    EverythingNext(ss, wanted, k);
    if k < |ss| - 1 {
      Grows(ss, wanted, k + 1);
    }
  }

  /** Nothing is missing from the list unless it says it is truncated; it may say so when nothing is missing. */
  lemma TruncationTold(ss: seq<Source>, wanted: seq<Indicator>)
    ensures !Overfull(ss, wanted) ==> Prefix(Everything(ss, wanted), 1000) == Everything(ss, wanted)
    ensures Overfull(ss, wanted) && Prefix(Everything(ss, wanted), 1000) == Everything(ss, wanted) <==>
              |Everything(ss, wanted)| == 1000 && ss != [] &&
                    Everything(ss[..|ss| - 1], wanted) == Everything(ss, wanted)
  {
    if ss != [] {
      Grows(ss, wanted, |ss| - 1);
    }
  }

  // ---- where is looked ----

  predicate InNodes(r: Report, p: Place, name: string, of: Node -> string) {
    exists n :: n in r.nodes && p == Place(name, [Text(of(n), of(n))])
  }

  predicate InConvs(r: Report, p: Place, name: string, of: Conv -> string) {
    exists c :: c in r.convs && p == Place(name, [Text(of(c), of(c))])
  }

  predicate InC2(r: Report, p: Place, name: string, of: C2 -> string) {
    exists i :: i in r.c2 && p == Place(name, [Text(of(i), of(i))])
  }

  predicate InMalware(r: Report, p: Place, name: string, of: Malware -> string) {
    exists m :: m in r.malware && p == Place(name, [Text(of(m), of(m))])
  }

  predicate InAffected(r: Report, p: Place) {
    exists a, t :: a in r.affected && t in a && p == Place("risk_finding.affected_nodes", [t])
  }

  predicate InQueries(r: Report, p: Place) {
    exists c :: c in r.convs && p.texts in c.queries && p.name == "conversation.dns_queries"
  }

  function NodeIp(n: Node): string { n.ip }
  function NodeMac(n: Node): string { n.mac }
  function SrcIp(c: Conv): string { c.srcIp }
  function DstIp(c: Conv): string { c.dstIp }
  function SrcMac(c: Conv): string { c.srcMac }
  function DstMac(c: Conv): string { c.dstMac }
  function C2Dst(i: C2): string { i.dst }
  function C2Src(i: C2): string { i.src }
  function C2DstMac(i: C2): string { i.dstMac }
  function C2SrcMac(i: C2): string { i.srcMac }
  function ShaOf(m: Malware): string { m.sha256 }
  function Md5Of(m: Malware): string { m.md5 }

  /** Where an indicator of each type may match: which fields of which entries of the report. */
  predicate LookedAt(kind: Type, r: Report, p: Place) {
    match kind
    case Ip =>
      || InNodes(r, p, "node.ip", NodeIp)
      || InConvs(r, p, "conversation.src_ip", SrcIp) || InConvs(r, p, "conversation.dst_ip", DstIp)
      || InC2(r, p, "c2_indicator.dst", C2Dst) || InC2(r, p, "c2_indicator.src", C2Src)
      || InAffected(r, p)
    case Mac =>
      || InNodes(r, p, "node.mac", NodeMac)
      || InConvs(r, p, "conversation.src_mac", SrcMac) || InConvs(r, p, "conversation.dst_mac", DstMac)
      || InC2(r, p, "c2_indicator.dst_mac", C2DstMac) || InC2(r, p, "c2_indicator.src_mac", C2SrcMac)
    case Oui =>
      || InNodes(r, p, "node.mac (oui)", NodeMac)
      || InConvs(r, p, "conversation.src_mac (oui)", SrcMac) || InConvs(r, p, "conversation.dst_mac (oui)", DstMac)
    case Domain => InQueries(r, p)
    case Sha256 => InMalware(r, p, "malware_finding.sha256", ShaOf)
    case Md5 => InMalware(r, p, "malware_finding.md5", Md5Of)
  }

  lemma {:induction false} EachExact<T>(xs: seq<T>, places: T -> seq<Place>, p: Place)
    ensures p in Each(xs, places) <==> exists x :: x in xs && p in places(x)
  {
    if xs != [] {
      EachExact(xs[1..], places, p);
      assert xs == [xs[0]] + xs[1..];
    }
  }

  lemma {:induction false} NamedExact(name: string, texts: seq<Text>, p: Place)
    ensures p in Named(name, texts) <==> exists t :: t in texts && p == Place(name, [t])
  {
    if texts != [] {
      NamedExact(name, texts[1..], p);
      assert texts == [texts[0]] + texts[1..];
    }
  }

  lemma {:induction false} QueriesExact(queries: seq<seq<Text>>, p: Place)
    ensures p in Queries(queries) <==> p.name == "conversation.dns_queries" && p.texts in queries
  {
    if queries != [] {
      QueriesExact(queries[1..], p);
      assert queries == [queries[0]] + queries[1..];
    }
  }

  /** The places of a report are exactly those. */
  lemma PlacesExact(kind: Type, r: Report, p: Place)
    ensures p in Places(kind, r) <==> LookedAt(kind, r, p)
  {
    match kind {
      case Ip => IpPlaces(r, p);
      case Mac => MacPlaces(r, p);
      case Oui =>
        EachExact(r.nodes, (n: Node) => [At("node.mac (oui)", n.mac)], p);
        EachExact(r.convs, (c: Conv) => [At("conversation.src_mac (oui)", c.srcMac),
              At("conversation.dst_mac (oui)", c.dstMac)], p);
      case Domain =>
        EachExact(r.convs, (c: Conv) => Queries(c.queries), p);
        forall c | c in r.convs ensures p in Queries(c.queries) <==>
                                        p.name == "conversation.dns_queries" && p.texts in c.queries {
          QueriesExact(c.queries, p);
        }
      case Sha256 => EachExact(r.malware, (m: Malware) => [At("malware_finding.sha256", m.sha256)], p);
      case Md5 => EachExact(r.malware, (m: Malware) => [At("malware_finding.md5", m.md5)], p);
    }
  }

  lemma IpPlaces(r: Report, p: Place)
    ensures p in Places(Ip, r) <==> LookedAt(Ip, r, p)
  {
    EachExact(r.nodes, (n: Node) => [At("node.ip", n.ip)], p);
    EachExact(r.convs, (c: Conv) => [At("conversation.src_ip", c.srcIp), At("conversation.dst_ip", c.dstIp)], p);
    EachExact(r.c2, (i: C2) => [At("c2_indicator.dst", i.dst), At("c2_indicator.src", i.src)], p);
    EachExact(r.affected, (a: seq<Text>) => Named("risk_finding.affected_nodes", a), p);
    forall a | a in r.affected
      ensures p in Named("risk_finding.affected_nodes", a) <==>
              exists t :: t in a && p == Place("risk_finding.affected_nodes", [t])
    {
      NamedExact("risk_finding.affected_nodes", a, p);
    }
  }

  lemma MacPlaces(r: Report, p: Place)
    ensures p in Places(Mac, r) <==> LookedAt(Mac, r, p)
  {
    EachExact(r.nodes, (n: Node) => [At("node.mac", n.mac)], p);
    EachExact(r.convs, (c: Conv) => [At("conversation.src_mac", c.srcMac), At("conversation.dst_mac", c.dstMac)], p);
    EachExact(r.c2, (i: C2) => [At("c2_indicator.dst_mac", i.dstMac), At("c2_indicator.src_mac", i.srcMac)], p);
  }

  // ---- matches are exactly what the rule says ----

  lemma {:induction false} FirstMatchExact(i: Indicator, texts: seq<Text>)
    ensures match FirstMatch(i, texts)
            case None => forall t :: t in texts ==> !Matches(i, t.compared)
            case Some(t) => t in texts && Matches(i, t.compared)
  {
    if texts != [] {
      FirstMatchExact(i, texts[1..]);
    }
  }

  predicate Satisfied(i: Indicator, p: Place) {
    exists t :: t in p.texts && Matches(i, t.compared)
  }

  /** Every match comes from a place that satisfies the rule, and every such place gives one. */
  lemma {:induction false} FoundExact(i: Indicator, places: seq<Place>)
    ensures forall m :: m in Found(i, places) ==>
              Matches(i, m.text.compared) && exists p :: p in places && p.name == m.place && m.text in p.texts
    ensures forall p :: p in places && Satisfied(i, p) ==>
              exists m :: m in Found(i, places) && m.place == p.name && m.text in p.texts
    ensures |Found(i, places)| == Satisfying(i, places)
  {
    if places != [] {
      var init, last := places[..|places| - 1], places[|places| - 1];
      FoundExact(i, init);
      FirstMatchExact(i, last.texts);
      assert places == init + [last];
      var more := match FirstMatch(i, last.texts) case None => [] case Some(t) => [Match(last.name, t)];
      assert Found(i, places) == Found(i, init) + more;
      hide Found, FirstMatch, Matches;
      forall m | m in Found(i, places)
        ensures Matches(i, m.text.compared) && exists p :: p in places && p.name == m.place && m.text in p.texts
      {
        if m in more {
          assert last in places;
        }
      }
      if more != [] {
        assert more[0] in Found(i, places);
      }
    }
  }

  function Satisfying(i: Indicator, places: seq<Place>): nat {
    if places == [] then 0
    else Satisfying(i, places[..|places| - 1]) + (if Satisfied(i, places[|places| - 1]) then 1 else 0)
  }

  lemma {:induction false} ContainsChars(text: string, part: string, c: char)
    requires Contains(text, part) && c in part
    ensures c in text
  {
    if part <= text {
      var j :| 0 <= j < |part| && part[j] == c;
      assert text[j] == c;
    } else {
      ContainsChars(text[1..], part, c);
    }
  }

  /** There are no wildcards: a star in an indicator matches only a star. */
  lemma WildcardIsLiteral(i: Indicator, text: string)
    requires i.kind == Domain && '*' in i.value && Matches(i, text)
    ensures '*' in text
  {
    ContainsChars(text, i.value, '*');
  }

  // ---- the summary ----

  function Total(hs: seq<Located>): nat {
    if hs == [] then 0 else Total(hs[..|hs| - 1]) + |hs[|hs| - 1].hit.matches|
  }

  function SeverityOf(h: Located): string {
    Strings.Lower(if h.hit.indicator.severity == "" then "unknown" else h.hit.indicator.severity)
  }

  function TypeName(t: Type): string {
    match t
    case Ip => "ip"
    case Mac => "mac"
    case Oui => "oui"
    case Domain => "domain"
    case Sha256 => "sha256"
    case Md5 => "md5"
  }

  /** What the breakdowns go by: the severity in lower case, "unknown" if none is given, and the type's own name. */
  lemma KeysExact(h: Located)
    ensures h.hit.indicator.severity != "" ==> SeverityOf(h) == Strings.Lower(h.hit.indicator.severity)
    ensures h.hit.indicator.severity == "" ==> SeverityOf(h) == "unknown"
    ensures TypeOf(h) in {"ip", "mac", "oui", "domain", "sha256", "md5"}
    ensures forall t: Type :: t != h.hit.indicator.kind ==> TypeName(t) != TypeOf(h)
    ensures h.hit.indicator.kind == Ip ==> TypeOf(h) == "ip"
    ensures h.hit.indicator.kind == Mac ==> TypeOf(h) == "mac"
    ensures h.hit.indicator.kind == Oui ==> TypeOf(h) == "oui"
    ensures h.hit.indicator.kind == Domain ==> TypeOf(h) == "domain"
    ensures h.hit.indicator.kind == Sha256 ==> TypeOf(h) == "sha256"
    ensures h.hit.indicator.kind == Md5 ==> TypeOf(h) == "md5"
  {
    var unknown := "unknown";
    assert Strings.Lower(unknown) == unknown;
    assert "mac"[0] != "oui"[0] && "md5"[2] == '5' && "mac"[2] == 'c' && "oui"[2] == 'i' && "domain"[0] != "sha256"[0];
  }

  /** The matches whose key is `k`. */
  function Under(hs: seq<Located>, key: Located -> string, k: string): nat {
    if hs == [] then 0
    else Under(hs[..|hs| - 1], key, k) + (if key(hs[|hs| - 1]) == k then |hs[|hs| - 1].hit.matches| else 0)
  }

  function Plus(a: int, b: int): int { a + b }
  function Itself(n: int): int { n }

  function Weighed(hs: seq<Located>, key: Located -> string): seq<Item<string, int>> {
    if hs == [] then []
    else Weighed(hs[..|hs| - 1], key) + [Item(key(hs[|hs| - 1]), |hs[|hs| - 1].hit.matches|)]
  }

  function TypeOf(h: Located): string { TypeName(h.hit.indicator.kind) }

  datatype Summary = Summary(total: int, bySeverity: seq<Item<string, int>>, byType: seq<Item<string, int>>)

  method Summarise(hs: seq<Located>) returns (s: Summary)
    ensures s.total == Total(hs)
    ensures s.bySeverity == Merged(Plus, Weighed(hs, SeverityOf)) && s.byType == Merged(Plus, Weighed(hs, TypeOf))
  {
    var total, bySeverity, byType := 0, [], [];
    for k := 0 to |hs|
      invariant total == Total(hs[..k])
      invariant bySeverity == Merged(Plus, Weighed(hs[..k], SeverityOf)) &&
            byType == Merged(Plus, Weighed(hs[..k], TypeOf))
    {
      assert hs[..k + 1][..k] == hs[..k];
      WeighedNext(hs, k, SeverityOf);
      WeighedNext(hs, k, TypeOf);
      var n := |hs[k].hit.matches|;
      bySeverity := Put(Plus, bySeverity, Item(SeverityOf(hs[k]), n));
      byType := Put(Plus, byType, Item(TypeOf(hs[k]), n));
      total := total + n;
    }
    assert hs[..|hs|] == hs;
    s := Summary(total, bySeverity, byType);
  }

  lemma WeighedNext(hs: seq<Located>, k: nat, key: Located -> string)
    requires k < |hs|
    ensures Merged(Plus, Weighed(hs[..k + 1], key)) ==
              Put(Plus, Merged(Plus, Weighed(hs[..k], key)), Item(key(hs[k]), |hs[k].hit.matches|))
  {
    assert hs[..k + 1][..k] == hs[..k];
    var before := Weighed(hs[..k], key);
    assert (before + [Item(key(hs[k]), |hs[k].hit.matches|)])[..|before|] == before;
  }

  lemma {:induction false} WeighedSum(hs: seq<Located>, key: Located -> string)
    ensures Sum(Itself, Weighed(hs, key)) == Total(hs)
  {
    if hs != [] {
      WeighedSum(hs[..|hs| - 1], key);
      SumSnoc(Itself, Weighed(hs, key));
      var before := Weighed(hs[..|hs| - 1], key);
      assert Weighed(hs, key)[..|before|] == before;
    }
  }

  lemma {:induction false} WeighedKey(hs: seq<Located>, key: Located -> string, k: string)
    ensures match Get(Merged(Plus, Weighed(hs, key)), k)
            case None => Under(hs, key, k) == 0
            case Some(n) => n == Under(hs, key, k)
  {
    if hs != [] {
      WeighedKey(hs[..|hs| - 1], key, k);
      assert hs[..|hs| - 1 + 1] == hs;
      WeighedNext(hs, |hs| - 1, key);
      GetPut(Plus, Merged(Plus, Weighed(hs[..|hs| - 1], key)),
             Item(key(hs[|hs| - 1]), |hs[|hs| - 1].hit.matches|), k);
    }
  }

  /** Each breakdown has one entry per key, holding the matches of that key, and adds up to the total. */
  lemma SummaryAddsUp(hs: seq<Located>, key: Located -> string, k: string)
    ensures var sums := Merged(Plus, Weighed(hs, key));
            && OncePerKey(sums)
            && Sum(Itself, sums) == Total(hs)
            && (match Get(sums, k) case None => Under(hs, key, k) == 0 case Some(n) => n == Under(hs, key, k))
  {
    MergedOncePerKey(Plus, [], Weighed(hs, key));
    SumConserved(Plus, Itself, Weighed(hs, key));
    WeighedSum(hs, key);
    WeighedKey(hs, key, k);
  }
}
