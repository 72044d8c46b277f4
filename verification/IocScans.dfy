/**
 What a whole indicator scan reports: when every match is in its result, how one can be lost without a sign, and
 when its matches are exact.
 */
module IocScans {
  import opened Wrappers
  import opened Iocs

  // ---- a whole scan ----

  datatype Sighting = Sighting(report: string, pair: Pair)

  function Tag(file: string, ps: seq<Pair>): (r: seq<Sighting>)
    ensures |r| == |ps|
  {
    if ps == [] then [] else Tag(file, ps[..|ps| - 1]) + [Sighting(file, ps[|ps| - 1])]
  }

  /** Every match of a source's report, none if it cannot be read. */
  function AllIn(s: Source, wanted: seq<Indicator>): seq<Sighting> {
    match s.report
    case None => []
    case Some(r) => Tag(s.file, All(r, wanted))
  }

  function AllOf(ss: seq<Source>, wanted: seq<Indicator>): seq<Sighting> {
    if ss == [] then [] else AllOf(ss[..|ss| - 1], wanted) + AllIn(ss[|ss| - 1], wanted)
  }

  function SpreadOne(h: Located): seq<Sighting> {
    Tag(h.report, Pairs(h.hit.indicator, h.hit.matches))
  }

  /** The matches a list of hits holds, in order. */
  function Spread(hs: seq<Located>): seq<Sighting> {
    if hs == [] then [] else Spread(hs[..|hs| - 1]) + SpreadOne(hs[|hs| - 1])
  }

  predicate Uncut(s: Source, wanted: seq<Indicator>) {
    s.report.Some? ==> |All(s.report.value, wanted)| <= 50
  }

  predicate AllUncut(ss: seq<Source>, wanted: seq<Indicator>) {
    forall i :: 0 <= i < |ss| ==> Uncut(ss[i], wanted)
  }

  lemma {:induction false} SpreadConcat(a: seq<Located>, b: seq<Located>)
    ensures Spread(a + b) == Spread(a) + Spread(b)
    decreases |b|
  {
    if b == [] {
      assert a + b == a;
    } else {
      assert (a + b)[..|a + b| - 1] == a + b[..|b| - 1];
      SpreadConcat(a, b[..|b| - 1]);
    }
  }

  lemma {:induction false} TagConcat(file: string, a: seq<Pair>, b: seq<Pair>)
    ensures Tag(file, a + b) == Tag(file, a) + Tag(file, b)
    decreases |b|
  {
    if b == [] {
      assert a + b == a;
    } else {
      assert (a + b)[..|a + b| - 1] == a + b[..|b| - 1];
      TagConcat(file, a, b[..|b| - 1]);
    }
  }

  lemma {:induction false} SpreadTagged(file: string, hs: seq<Hit>)
    ensures Spread(Tagged(file, hs)) == Tag(file, Listed(hs))
  {
    if hs != [] {
      var init, h := hs[..|hs| - 1], hs[|hs| - 1];
      SpreadTagged(file, init);
      var before := Tagged(file, init);
      assert (before + [Located(file, h)])[..|before|] == before;
      TagConcat(file, Listed(init), Pairs(h.indicator, h.matches));
    }
  }

  predicate Telling(hs: seq<Located>) {
    forall i :: 0 <= i < |hs| ==> hs[i].hit.matches != []
  }

  lemma {:induction false} TaggedTelling(file: string, hs: seq<Hit>)
    requires forall h :: h in hs ==> h.matches != []
    ensures Telling(Tagged(file, hs))
  {
    if hs != [] {
      TaggedTelling(file, hs[..|hs| - 1]);
      assert hs[|hs| - 1] in hs;
    }
  }

  // One report: its hits hold all its matches, or fewer.
  lemma OneSource(s: Source, wanted: seq<Indicator>)
    ensures |Spread(From(s, wanted))| <= |AllIn(s, wanted)| && Telling(From(s, wanted))
    ensures Uncut(s, wanted) ==> Spread(From(s, wanted)) == AllIn(s, wanted)
    ensures !Uncut(s, wanted) ==> |Spread(From(s, wanted))| < |AllIn(s, wanted)|
  {
    hide Scanned, All, Listed, Spread, Tag, Tagged;
    match s.report {
      case None => SpreadNothing();
      case Some(r) =>
        ReportKeepsFirst(r, wanted);
        assert |All(r, wanted)| <= 50 ==> Prefix(All(r, wanted), 50) == All(r, wanted);
        TagLength(s.file, All(r, wanted));
        TagLength(s.file, Listed(Scanned(r, wanted)));
        SpreadTagged(s.file, Scanned(r, wanted));
        TaggedTelling(s.file, Scanned(r, wanted));
    }
  }

  lemma TagLength(file: string, ps: seq<Pair>)
    ensures |Tag(file, ps)| == |ps|
  {
  }

  lemma SpreadNothing()
    ensures Spread([]) == []
  {
  }

  lemma {:induction false} EverythingSpread(ss: seq<Source>, wanted: seq<Indicator>)
    ensures var held := Spread(Everything(ss, wanted));
            && |held| <= |AllOf(ss, wanted)| && Telling(Everything(ss, wanted))
            && (if AllUncut(ss, wanted) then held == AllOf(ss, wanted) else |held| < |AllOf(ss, wanted)|)
  {
    hide From, Uncut, Spread, AllIn;
    if ss != [] {
      var init, s := ss[..|ss| - 1], ss[|ss| - 1];
      EverythingSpread(init, wanted);
      OneSource(s, wanted);
      SpreadConcat(Everything(init, wanted), From(s, wanted));
      UncutSnoc(init, s, wanted);
      assert ss == init + [s];
      TellingConcat(Everything(init, wanted), From(s, wanted));
    } else {
      SpreadNothing();
    }
  }

  lemma UncutSnoc(ss: seq<Source>, s: Source, wanted: seq<Indicator>)
    ensures AllUncut(ss + [s], wanted) <==> AllUncut(ss, wanted) && Uncut(s, wanted)
  {
    var all := ss + [s];
    assert all[|ss|] == s && forall i :: 0 <= i < |ss| ==> all[i] == ss[i];
  }

  lemma TellingConcat(a: seq<Located>, b: seq<Located>)
    requires Telling(a) && Telling(b)
    ensures Telling(a + b)
  {
  }

  lemma {:induction false} SpreadGrows(hs: seq<Located>, n: nat)
    requires Telling(hs) && n < |hs|
    ensures |Spread(hs[..n])| < |Spread(hs)|
  {
    var init, h := hs[..|hs| - 1], hs[|hs| - 1];
    PairsPrefix(h.hit.indicator, h.hit.matches, 0);
    assert |SpreadOne(h)| > 0;
    if n < |init| {
      SpreadGrows(init, n);
      assert init[..n] == hs[..n];
    } else {
      assert hs[..n] == init;
    }
  }

  /** The result of a scan holds every match of every readable report exactly when all hits fit the list and no
      readable report has more than fifty matches. */
  lemma ScanComplete(ss: seq<Source>, wanted: seq<Indicator>)
    ensures Spread(Prefix(Everything(ss, wanted), 1000)) == AllOf(ss, wanted) <==>
              |Everything(ss, wanted)| <= 1000 && AllUncut(ss, wanted)
  {
    var all := Everything(ss, wanted);
    EverythingSpread(ss, wanted);
    if |all| > 1000 {
      SpreadGrows(all, 1000);
    } else {
      assert Prefix(all, 1000) == all;
    }
  }

  // ---- losing matches without a sign ----

  function Machines(n: nat, address: string): seq<Node> {
    seq(n, _ => Node(address, ""))
  }

  function Crowd(n: nat, address: string): Report {
    Report(Machines(n, address), [], [], [], [])
  }

  predicate AllAre(places: seq<Place>, p: Place) {
    forall i :: 0 <= i < |places| ==> places[i] == p
  }

  lemma {:induction false} CrowdPlaces(f: Node -> seq<Place>, n: nat, address: string, p: Place)
    requires f(Node(address, "")) == [p]
    ensures |Each(Machines(n, address), f)| == n && AllAre(Each(Machines(n, address), f), p)
  {
    if n > 0 {
      assert Machines(n, address)[1..] == Machines(n - 1, address);
      CrowdPlaces(f, n - 1, address, p);
    }
  }

  lemma {:induction false} FoundThroughout(i: Indicator, places: seq<Place>, p: Place)
    requires AllAre(places, p) && FirstMatch(i, p.texts).Some?
    ensures |Found(i, places)| == |places|
  {
    if places != [] {
      FoundThroughout(i, places[..|places| - 1], p);
    }
  }

  lemma CrowdFound(n: nat, address: string)
    ensures |Found(Indicator(Ip, address, ""), Places(Ip, Crowd(n, address)))| == n
  {
    var i, r := Indicator(Ip, address, ""), Crowd(n, address);
    var f, p := (m: Node) => [At("node.ip", m.ip)], At("node.ip", address);
    CrowdPlaces(f, n, address, p);
    assert Places(Ip, r) == Each(r.nodes, f);
    assert FirstMatch(i, p.texts) == Some(Text(address, address));
    FoundThroughout(i, Places(Ip, r), p);
  }

  lemma CrowdMatches(n: nat, address: string)
    ensures |All(Crowd(n, address), [Indicator(Ip, address, "")])| == n
  {
    hide Found, Places;
    var i, r := Indicator(Ip, address, ""), Crowd(n, address);
    CrowdFound(n, address);
    OneWanted(r, i);
    PairsPrefix(i, Found(i, Places(i.kind, r)), 0);
  }

  lemma OneWanted(r: Report, i: Indicator)
    ensures All(r, [i]) == Pairs(i, Found(i, Places(i.kind, r))) && |Scanned(r, [i])| <= 1
  {
    hide Found, Places;
    var one := [i];
    assert one[..|one| - 1] == [];
  }

  /** A report with fifty-one machines at the wanted address: a match is lost, and nothing says so. */
  lemma LostSilently(file: string, address: string)
    ensures var ss, wanted := [Source(file, Some(Crowd(51, address)))], [Indicator(Ip, address, "")];
            !Overfull(ss, wanted) && Spread(Prefix(Everything(ss, wanted), 1000)) != AllOf(ss, wanted)
  {
    var s, wanted := Source(file, Some(Crowd(51, address))), [Indicator(Ip, address, "")];
    var ss := [s];
    CrowdMatches(51, address);
    ScanComplete(ss, wanted);
    assert !Uncut(ss[0], wanted);
    assert ss[..|ss| - 1] == [];
    OneWanted(Crowd(51, address), wanted[0]);
    TaggedPrefix(file, Scanned(Crowd(51, address), wanted), 0);
    assert Everything(ss, wanted) == [] + From(s, wanted);
  }

  // ---- are matches exact? ----

  /** The rule matches are said to follow: equality, for a vendor prefix that of the first eight characters. */
  predicate Equals(i: Indicator, text: string) {
    (if i.kind == Oui && |text| > 8 then text[..8] else text) == i.value
  }

  function FirstEqual(i: Indicator, texts: seq<Text>): Option<Text> {
    if texts == [] then None else if Equals(i, texts[0].compared) then Some(texts[0]) else FirstEqual(i, texts[1..])
  }

  /** What a scan by that rule would find among some places. */
  function FoundEqual(i: Indicator, places: seq<Place>): seq<Match> {
    if places == [] then []
    else
      var p := places[|places| - 1];
      FoundEqual(i, places[..|places| - 1]) +
            (match FirstEqual(i, p.texts) case None => [] case Some(t) => [Match(p.name, t)])
  }

  /** No text of the query has the name inside it, unless an earlier one is the name, or it is itself. */
  predicate Plain(name: string, query: seq<Text>) {
    forall n :: 0 <= n < |query| && Contains(query[n].compared, name) ==> NamedBy(name, query, n)
  }

  predicate NamedBy(name: string, query: seq<Text>, n: nat)
    requires n < |query|
  {
    exists m :: 0 <= m <= n && query[m].compared == name
  }

  lemma ContainsItself(text: string)
    ensures Contains(text, text)
  {
  }

  /** The first text with the name in it is the name exactly when the query is plain. */
  lemma {:induction false} FirstPlain(i: Indicator, query: seq<Text>)
    requires i.kind == Domain
    ensures FirstMatch(i, query) == FirstEqual(i, query) <==> Plain(i.value, query)
  {
    if query != [] {
      var t, rest := query[0].compared, query[1..];
      if t != i.value && !Contains(t, i.value) {
        FirstPlain(i, rest);
        PlainRest(i.value, query);
      } else {
        ContainsItself(t);
        FirstEqualMeans(i, query);
      }
    }
  }

  lemma NamedRest(name: string, query: seq<Text>, n: nat)
    requires n < |query| - 1 && query[0].compared != name
    ensures NamedBy(name, query, n + 1) <==> NamedBy(name, query[1..], n)
  {
    var rest := query[1..];
    if NamedBy(name, query, n + 1) {
      var m :| 0 <= m <= n + 1 && query[m].compared == name;
      assert rest[m - 1] == query[m];
    }
    if NamedBy(name, rest, n) {
      var m :| 0 <= m <= n && rest[m].compared == name;
      assert query[m + 1] == rest[m];
    }
  }

  lemma PlainRest(name: string, query: seq<Text>)
    requires query != [] && query[0].compared != name && !Contains(query[0].compared, name)
    ensures Plain(name, query) <==> Plain(name, query[1..])
  {
    hide Contains, NamedBy;
    var rest := query[1..];
    forall n: nat | n < |rest|
      ensures rest[n] == query[n + 1] && (NamedBy(name, query, n + 1) <==> NamedBy(name, rest, n))
    {
      NamedRest(name, query, n);
    }
    if Plain(name, rest) {
      forall n | 0 <= n < |query| && Contains(query[n].compared, name) ensures NamedBy(name, query, n) {
        assert rest[n - 1] == query[n];
      }
    }
  }

  lemma {:induction false} FirstEqualMeans(i: Indicator, texts: seq<Text>)
    ensures FirstEqual(i, texts).Some? ==> Equals(i, FirstEqual(i, texts).value.compared)
  {
    if texts != [] {
      FirstEqualMeans(i, texts[1..]);
    }
  }

  // What equals the value also matches; outside domain names nothing else does.
  lemma {:induction false} OnePlace(i: Indicator, texts: seq<Text>)
    ensures i.kind != Domain ==> FirstMatch(i, texts) == FirstEqual(i, texts)
    ensures FirstEqual(i, texts).Some? ==> FirstMatch(i, texts).Some?
  {
    if texts != [] {
      OnePlace(i, texts[1..]);
      ContainsItself(texts[0].compared);
    }
  }

  predicate SamePlaces(i: Indicator, places: seq<Place>) {
    forall p :: p in places ==> FirstMatch(i, p.texts) == FirstEqual(i, p.texts)
  }

  lemma {:induction false} SameFound(i: Indicator, places: seq<Place>)
    ensures |FoundEqual(i, places)| <= |Found(i, places)|
    ensures Found(i, places) == FoundEqual(i, places) <==> SamePlaces(i, places)
  {
    if places != [] {
      var init, p := places[..|places| - 1], places[|places| - 1];
      SameFound(i, init);
      OnePlace(i, p.texts);
      assert places == init + [p];
      OneMoreFound(Found(i, init), FoundEqual(i, init), p.name, FirstMatch(i, p.texts), FirstEqual(i, p.texts));
    }
  }

  lemma OneMoreFound(a: seq<Match>, b: seq<Match>, name: string, x: Option<Text>, y: Option<Text>)
    requires |b| <= |a| && (y.Some? ==> x.Some?)
    ensures var a' := a + (match x case None => [] case Some(t) => [Match(name, t)]);
            var b' := b + (match y case None => [] case Some(t) => [Match(name, t)]);
            |b'| <= |a'| && (a' == b' <==> a == b && x == y)
  {
    var a' := a + (match x case None => [] case Some(t) => [Match(name, t)]);
    var b' := b + (match y case None => [] case Some(t) => [Match(name, t)]);
    if a' == b' {
      assert a == a'[..|a|] && b == b'[..|b|] && |a| == |b|;
      if x.Some? {
        assert a'[|a|] == b'[|a|];
      }
    }
  }

  /** Every query of the report is plain. */
  ghost predicate AllPlain(name: string, r: Report) {
    forall c, q :: c in r.convs && q in c.queries ==> Plain(name, q)
  }

  /**
   Matches are said to be exact. An indicator finds in a report what equality would, at the same places, for every
   type but domain names; for those exactly when no query has the name inside a longer text before the name itself.
   */
  lemma MatchesExact(i: Indicator, r: Report)
    ensures Found(i, Places(i.kind, r)) == FoundEqual(i, Places(i.kind, r)) <==>
              (i.kind == Domain ==> AllPlain(i.value, r))
  {
    var places := Places(i.kind, r);
    SameFound(i, places);
    if i.kind != Domain {
      forall p | p in places ensures FirstMatch(i, p.texts) == FirstEqual(i, p.texts) {
        OnePlace(i, p.texts);
      }
    } else {
      DomainPlaces(i, r);
    }
  }

  lemma DomainPlaces(i: Indicator, r: Report)
    requires i.kind == Domain
    ensures SamePlaces(i, Places(Domain, r)) <==> AllPlain(i.value, r)
  {
    var places := Places(Domain, r);
    if SamePlaces(i, places) {
      forall c, q | c in r.convs && q in c.queries ensures Plain(i.value, q) {
        var p := Place("conversation.dns_queries", q);
        PlacesExact(Domain, r, p);
        assert p in places;
        FirstPlain(i, q);
      }
    }
    if AllPlain(i.value, r) {
      forall p | p in places ensures FirstMatch(i, p.texts) == FirstEqual(i, p.texts) {
        PlacesExact(Domain, r, p);
        FirstPlain(i, p.texts);
      }
    }
  }

  // ---- a longer name matches ----

  const WANTED := Indicator(Domain, "evil.com", "")
  const LONGER := Text("notevil.com", "notevil.com")
  const LOOKUP := Place("conversation.dns_queries", [LONGER])

  /** A report with one query, for a name that merely ends in the wanted one: it is a match. */
  lemma LongerNameMatches()
    ensures var r := Report([], [Conv("", "", "", "", [[LONGER]])], [], [], []);
            && Found(WANTED, Places(Domain, r)) == [Match("conversation.dns_queries", LONGER)]
            && FoundEqual(WANTED, Places(Domain, r)) == []
  {
    var c := Conv("", "", "", "", [[LONGER]]);
    OneQuery(c, Report([], [c], [], [], []), LONGER);
    EndsInWanted();
    OnePlaceFound(WANTED, LOOKUP);
  }

  lemma EndsInWanted()
    ensures FirstMatch(WANTED, LOOKUP.texts) == Some(LONGER) && FirstEqual(WANTED, LOOKUP.texts) == None
  {
    var text := LONGER.compared;
    assert text[1..][1..][1..] == WANTED.value;
    assert Contains(text[1..][1..][1..], WANTED.value);
    assert |text| == 11 && |WANTED.value| == 8;
    assert LOOKUP.texts[1..] == [];
  }

  lemma OnePlaceFound(i: Indicator, p: Place)
    ensures Found(i, [p]) == match FirstMatch(i, p.texts) case None => [] case Some(t) => [Match(p.name, t)]
    ensures FoundEqual(i, [p]) == match FirstEqual(i, p.texts) case None => [] case Some(t) => [Match(p.name, t)]
  {
    var places := [p];
    assert places[..|places| - 1] == [];
  }

  lemma OneQuery(c: Conv, r: Report, q: Text)
    requires r.convs == [c] && c.queries == [[q]]
    ensures Places(Domain, r) == [Place("conversation.dns_queries", [q])]
  {
    var f := (c: Conv) => Queries(c.queries);
    OneEach(r.convs, f);
    assert Places(Domain, r) == Each(r.convs, f) == Queries(c.queries);
    assert c.queries[0] == [q] && Queries(c.queries[1..]) == [];
  }

  lemma OneEach<T>(xs: seq<T>, f: T -> seq<Place>)
    requires |xs| == 1
    ensures Each(xs, f) == f(xs[0])
  {
    assert Each(xs[1..], f) == [];
    assert f(xs[0]) + [] == f(xs[0]);
  }
}
