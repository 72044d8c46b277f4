/**
 A finding's description across reports: which one the roll-up keeps, and exactly when the order of the
 reports does not matter to it.
 */
module RollupDescription {
  import opened Wrappers
  import opened KeyedFold
  import opened Unordered
  import opened Text
  import opened Rollup

  /** The description of the first finding of `k` in a report. */
  function FirstText(fs: seq<Finding>, k: FindingKey): string {
    if fs == [] then ""
    else if Holds(fs[..|fs| - 1], k) then FirstText(fs[..|fs| - 1], k)
    else if fs[|fs| - 1].key == k then fs[|fs| - 1].description
    else ""
  }

  predicate Reports(r: Report, k: FindingKey) { Holds(r.findings, k) }

  function TextOf(r: Report, k: FindingKey): string { FirstText(r.findings, k) }

  // ---- what is kept, report by report ----

  /** The time of the latest report so far, and the description kept. */
  datatype Memory = Memory(last: string, text: string)

  function Heard(m: Option<Memory>, modified: string, text: string): Memory {
    match m
    case None => Memory(modified, text)
    case Some(h) => Memory(Later(h.last, modified), if Less(h.last, modified) && text != "" then text else h.text)
  }

  function Recall(rs: seq<Report>, k: FindingKey): Option<Memory> {
    if rs == [] then None
    else
      var m, r := Recall(rs[..|rs| - 1], k), rs[|rs| - 1];
      if Reports(r, k) then Some(Heard(m, r.modified, TextOf(r, k))) else m
  }

  function MemoryOf(e: Option<Entry>): Option<Memory> {
    match e case None => None case Some(x) => Some(Memory(x.facts.last, x.description))
  }

  lemma {:induction false} OneReport(held: seq<Item<FindingKey, Entry>>, fs: seq<Finding>, modified: string,
        k: FindingKey)
    ensures var before := MemoryOf(Get(held, k));
            MemoryOf(Get(Into(JoinEntry, held, ItemsOf(fs, modified)), k)) ==
              if Holds(fs, k) then Some(Heard(before, modified, FirstText(fs, k))) else before
  {
    if fs != [] {
      var init, f := fs[..|fs| - 1], fs[|fs| - 1];
      OneReport(held, init, modified, k);
      var x, items := ItemOf(f, Holds(init, f.key), modified), ItemsOf(init, modified);
      assert (items + [x])[..|items|] == items;
      GetPut(JoinEntry, Into(JoinEntry, held, items), x, k);
      Again(MemoryOf(Get(held, k)), modified, FirstText(init, k), f.description);
    }
  }

  // A second finding of the same report is never strictly later.
  lemma Again(m: Option<Memory>, modified: string, text: string, other: string)
    ensures var h := Heard(m, modified, text);
            Later(h.last, modified) == h.last && !Less(h.last, modified)
  {
    Irreflexive(modified);
    if m.Some? {
      Text.Total(m.value.last, modified);
      Asymmetric(m.value.last, modified);
    }
  }

  lemma {:induction false} RecallIsKept(rs: seq<Report>, k: FindingKey)
    ensures MemoryOf(Get(Findings(rs), k)) == Recall(rs, k)
  {
    if rs != [] {
      var init, r := rs[..|rs| - 1], rs[|rs| - 1];
      RecallIsKept(init, k);
      ReportNext(init, r);
      assert rs == init + [r];
      OneReport(Findings(init), r.findings, r.modified, k);
    }
  }

  // ---- the latest reports decide ----

  /** `r` has the finding, and no report that has it is later. */
  ghost predicate Latest(rs: seq<Report>, k: FindingKey, r: Report) {
    r in rs && Reports(r, k) && forall q :: q in rs && Reports(q, k) ==> !Less(r.modified, q.modified)
  }

  ghost predicate Newest(rs: seq<Report>, k: FindingKey, last: string) {
    && (exists r :: r in rs && Reports(r, k) && r.modified == last)
    && (forall q :: q in rs && Reports(q, k) ==> !Less(last, q.modified))
  }

  lemma {:induction false} RecallLast(rs: seq<Report>, k: FindingKey)
    ensures match Recall(rs, k)
            case None => forall r :: r in rs ==> !Reports(r, k)
            case Some(m) => Newest(rs, k, m.last)
  {
    if rs != [] {
      var init, r := rs[..|rs| - 1], rs[|rs| - 1];
      assert rs == init + [r];
      RecallLast(init, k);
      match Recall(init, k) {
        case None =>
          assert forall q :: q in rs && Reports(q, k) ==> q == r;
          Irreflexive(r.modified);
        case Some(m) => NewestNext(init, r, k, m.last);
      }
    }
  }

  lemma NewestNext(rs: seq<Report>, r: Report, k: FindingKey, last: string)
    requires Newest(rs, k, last)
    ensures Newest(rs + [r], k, if Reports(r, k) then Later(last, r.modified) else last)
  {
    var h :| h in rs && Reports(h, k) && h.modified == last;
    assert h in rs + [r] && r in rs + [r];
    var next := if Reports(r, k) then Later(last, r.modified) else last;
    forall q | q in rs + [r] && Reports(q, k) ensures !Less(next, q.modified) {
      assert q in rs || q == r;
      Orders(last, r.modified, q.modified);
      Text.Total(last, r.modified);
      Irreflexive(r.modified);
    }
  }

  /** If the latest reports all say `d`, and `d` is not empty, `d` is what is kept. */
  lemma {:induction false} LatestSay(rs: seq<Report>, k: FindingKey, d: string)
    requires d != "" && Recall(rs, k).Some?
    requires forall r :: Latest(rs, k, r) ==> TextOf(r, k) == d
    ensures Recall(rs, k).value.text == d
  {
    var init, r := rs[..|rs| - 1], rs[|rs| - 1];
    assert rs == init + [r];
    RecallLast(init, k);
    var m := Recall(init, k);
    if Reports(r, k) && (m == None || Less(m.value.last, r.modified)) {
      OnlyLatest(init, r, k);
    } else {
      forall q | Latest(init, k, q) ensures Latest(rs, k, q) {
        StillLatest(init, r, k, m.value.last, q);
      }
      LatestSay(init, k, d);
    }
  }

  lemma OnlyLatest(rs: seq<Report>, r: Report, k: FindingKey)
    requires Reports(r, k)
    requires match Recall(rs, k) case None => true case Some(m) => Less(m.last, r.modified)
    ensures Latest(rs + [r], k, r)
  {
    RecallLast(rs, k);
    forall q | q in rs + [r] && Reports(q, k) ensures !Less(r.modified, q.modified) {
      Irreflexive(r.modified);
      if q in rs {
        Orders(Recall(rs, k).value.last, r.modified, q.modified);
      }
    }
  }

  lemma StillLatest(rs: seq<Report>, r: Report, k: FindingKey, last: string, q: Report)
    requires Newest(rs, k, last) && Latest(rs, k, q) && (Reports(r, k) ==> !Less(last, r.modified))
    ensures Latest(rs + [r], k, q)
  {
    var h :| h in rs && Reports(h, k) && h.modified == last;
    Text.Total(last, q.modified);
    assert q.modified == last;
    assert q in rs + [r];
  }

  /** If no report says anything, nothing is kept. */
  lemma {:induction false} NoneSay(rs: seq<Report>, k: FindingKey)
    requires forall r :: r in rs && Reports(r, k) ==> TextOf(r, k) == ""
    ensures Recall(rs, k).Some? ==> Recall(rs, k).value.text == ""
  {
    if rs != [] {
      assert rs == rs[..|rs| - 1] + [rs[|rs| - 1]];
      NoneSay(rs[..|rs| - 1], k);
    }
  }

  // ---- the first report decides, if nothing later replaces it ----

  lemma FirstHeard(r: Report, k: FindingKey)
    requires Reports(r, k)
    ensures Recall([r], k) == Some(Memory(r.modified, TextOf(r, k)))
  {
    var one := [r];
    assert one[..|one| - 1] == [];
  }

  /** What the latest report says is kept when it comes first. */
  lemma {:induction false} LatestFirst(r: Report, rest: seq<Report>, k: FindingKey)
    requires Reports(r, k) && forall q :: q in rest && Reports(q, k) ==> !Less(r.modified, q.modified)
    ensures Recall([r] + rest, k) == Some(Memory(r.modified, TextOf(r, k)))
  {
    if rest == [] {
      assert [r] + rest == [r];
      FirstHeard(r, k);
    } else {
      var init, q := rest[..|rest| - 1], rest[|rest| - 1];
      assert rest == init + [q];
      LatestFirst(r, init, k);
      assert ([r] + rest)[..|rest|] == [r] + init;
      Text.Total(r.modified, q.modified);
    }
  }

  /** A first report that says something is never reduced to silence. */
  lemma {:induction false} TextFirst(r: Report, rest: seq<Report>, k: FindingKey)
    requires Reports(r, k) && TextOf(r, k) != ""
    ensures Recall([r] + rest, k).Some? && Recall([r] + rest, k).value.text != ""
  {
    hide Reports, TextOf, Text.Less, Later;
    if rest == [] {
      assert [r] + rest == [r];
      FirstHeard(r, k);
    } else {
      assert rest == rest[..|rest| - 1] + [rest[|rest| - 1]];
      TextFirst(r, rest[..|rest| - 1], k);
      assert ([r] + rest)[..|rest|] == [r] + rest[..|rest| - 1];
    }
  }

  // ---- exactly when order is irrelevant ----

  /** The latest reports say the same, and if they say nothing no report does. */
  ghost predicate Settled(rs: seq<Report>, k: FindingKey) {
    forall r, q :: Latest(rs, k, r) && q in rs && Reports(q, k) ==>
      && (Latest(rs, k, q) ==> TextOf(r, k) == TextOf(q, k))
      && (TextOf(r, k) == "" ==> TextOf(q, k) == "")
  }

  ghost predicate AnyOrder(rs: seq<Report>, k: FindingKey) {
    forall ss :: multiset(ss) == multiset(rs) ==> DescriptionOf(ss, k) == DescriptionOf(rs, k)
  }

  lemma DescriptionIsText(rs: seq<Report>, k: FindingKey)
    ensures DescriptionOf(rs, k) == match Recall(rs, k) case None => None case Some(m) => Some(m.text)
  {
    RecallIsKept(rs, k);
  }

  /** Some order begins with a given report. */
  lemma Foremost(rs: seq<Report>, r: Report) returns (rest: seq<Report>)
    requires r in rs
    ensures multiset([r] + rest) == multiset(rs) && forall q :: q in rest ==> q in rs
  {
    var j :| 0 <= j < |rs| && rs[j] == r;
    rest := Without(rs, j);
    WithoutMultiset(rs, j);
  }

  lemma LatestIndeed(rs: seq<Report>, k: FindingKey, r: Report)
    requires AnyOrder(rs, k) && Latest(rs, k, r)
    ensures DescriptionOf(rs, k) == Some(TextOf(r, k))
  {
    var rest := Foremost(rs, r);
    LatestFirst(r, rest, k);
    DescriptionIsText([r] + rest, k);
  }

  lemma AnyOrderSettles(rs: seq<Report>, k: FindingKey)
    requires AnyOrder(rs, k)
    ensures Settled(rs, k)
  {
    forall r, q | Latest(rs, k, r) && q in rs && Reports(q, k)
      ensures Latest(rs, k, q) ==> TextOf(r, k) == TextOf(q, k)
      ensures TextOf(r, k) == "" ==> TextOf(q, k) == ""
    {
      LatestIndeed(rs, k, r);
      if Latest(rs, k, q) {
        LatestIndeed(rs, k, q);
      }
      if TextOf(q, k) != "" {
        var rest := Foremost(rs, q);
        TextFirst(q, rest, k);
        DescriptionIsText([q] + rest, k);
      }
    }
  }

  lemma SameReports(rs: seq<Report>, ss: seq<Report>)
    requires multiset(ss) == multiset(rs)
    ensures forall r :: r in ss <==> r in rs
  {
    forall r ensures r in ss <==> r in rs {
      assert r in ss <==> r in multiset(ss);
      assert r in rs <==> r in multiset(rs);
    }
  }

  lemma LatestExists(rs: seq<Report>, k: FindingKey) returns (r: Report)
    requires Recall(rs, k).Some?
    ensures Latest(rs, k, r)
  {
    RecallLast(rs, k);
    var last := Recall(rs, k).value.last;
    r :| r in rs && Reports(r, k) && r.modified == last;
  }

  lemma SettledText(rs: seq<Report>, k: FindingKey, r: Report)
    requires Settled(rs, k) && Latest(rs, k, r)
    ensures DescriptionOf(rs, k) == Some(TextOf(r, k))
  {
    DescriptionIsText(rs, k);
    RecallLast(rs, k);
    if TextOf(r, k) == "" {
      NoneSay(rs, k);
    } else {
      LatestSay(rs, k, TextOf(r, k));
    }
  }

  lemma SettledMoves(rs: seq<Report>, ss: seq<Report>, k: FindingKey)
    requires Settled(rs, k) && multiset(ss) == multiset(rs)
    ensures DescriptionOf(ss, k) == DescriptionOf(rs, k)
  {
    SameReports(rs, ss);
    DescriptionIsText(rs, k);
    DescriptionIsText(ss, k);
    RecallLast(rs, k);
    RecallLast(ss, k);
    if Recall(rs, k).Some? {
      var r := LatestExists(rs, k);
      assert forall q :: Latest(ss, k, q) <==> Latest(rs, k, q);
      SettledText(rs, k, r);
      SettledText(ss, k, r);
    }
  }

  /**
   The description of a finding is the same in every order of the reports exactly when the latest reports that
   have it all say the same, and, if what they say is nothing, no report that has it says anything.
   */
  lemma DescriptionOrderExact(rs: seq<Report>, k: FindingKey)
    ensures AnyOrder(rs, k) <==> Settled(rs, k)
  {
    if AnyOrder(rs, k) {
      AnyOrderSettles(rs, k);
    }
    if Settled(rs, k) {
      forall ss | multiset(ss) == multiset(rs) ensures DescriptionOf(ss, k) == DescriptionOf(rs, k) {
        SettledMoves(rs, ss, k);
      }
    }
  }
}
