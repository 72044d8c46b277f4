/**
 The severity histogram against the rolled-up findings: it counts each report's first rating of a finding, while the
 finding itself keeps the worst rating of all.
 */
module RollupHistogram {
  import opened Wrappers
  import opened KeyedFold
  import opened Unordered
  import opened Rollup

  /** The severity the roll-up gives a finding. */
  function Rolled(rs: seq<Report>, k: FindingKey): nat {
    match FindingFacts(rs, k) case None => 0 case Some(v) => v.rank
  }

  /** The severity of the first finding of a key in a report. */
  function FirstRank(fs: seq<Finding>, k: FindingKey): nat
    requires Holds(fs, k)
  {
    var init := fs[..|fs| - 1];
    if Holds(init, k) then FirstRank(init, k) else SeverityRank(fs[|fs| - 1].severity)
  }

  /** The occurrences of the rolled-up findings of one severity. */
  function Occurring(xs: seq<Item<FindingKey, Entry>>, rank: nat): int {
    if xs == [] then 0
    else (if xs[0].value.facts.rank == rank then xs[0].value.facts.occurrences else 0) + Occurring(xs[1..], rank)
  }

  /** The findings that a report first rates no more severe than `rank` and the roll-up rates more severe. */
  function PromotedIn(fs: seq<Finding>, rolled: FindingKey -> nat, rank: nat): nat {
    if fs == [] then 0
    else
      var init, f := fs[..|fs| - 1], fs[|fs| - 1];
      PromotedIn(init, rolled, rank) +
            (if !Holds(init, f.key) && rolled(f.key) < rank <= SeverityRank(f.severity) then 1 else 0)
  }

  function Promotions(rs: seq<Report>, rolled: FindingKey -> nat, rank: nat): nat {
    if rs == [] then 0
    else Promotions(rs[..|rs| - 1], rolled, rank) + PromotedIn(rs[|rs| - 1].findings, rolled, rank)
  }

  function Promoted(rs: seq<Report>, rank: nat): nat {
    Promotions(rs, (k: FindingKey) => Rolled(rs, k), rank)
  }

  // ---- sums over keys ----

  function SumWhere(good: FindingKey -> bool, xs: seq<Item<FindingKey, Entry>>): int {
    if xs == [] then 0
    else (if good(xs[0].key) then OccurrencesOf(xs[0].value) else 0) + SumWhere(good, xs[1..])
  }

  lemma {:induction false} SumWherePut(good: FindingKey -> bool, held: seq<Item<FindingKey, Entry>>,
        x: Item<FindingKey, Entry>)
    ensures SumWhere(good, Put(JoinEntry, held, x)) ==
              SumWhere(good, held) + (if good(x.key) then OccurrencesOf(x.value) else 0)
  {
    var put := Put(JoinEntry, held, x);
    if held == [] {
      assert put[1..] == [];
    } else if held[0].key == x.key {
      assert put[1..] == held[1..];
    } else {
      assert put[1..] == Put(JoinEntry, held[1..], x);
      SumWherePut(good, held[1..], x);
    }
  }

  lemma {:induction false} SumWhereConcat(good: FindingKey -> bool, xs: seq<Item<FindingKey, Entry>>,
        ys: seq<Item<FindingKey, Entry>>)
    ensures SumWhere(good, xs + ys) == SumWhere(good, xs) + SumWhere(good, ys)
  {
    if xs == [] {
      assert xs + ys == ys;
    } else {
      assert (xs + ys)[1..] == xs[1..] + ys;
      SumWhereConcat(good, xs[1..], ys);
    }
  }

  lemma {:induction false} SumWhereMerged(good: FindingKey -> bool, xs: seq<Item<FindingKey, Entry>>)
    ensures SumWhere(good, Merged(JoinEntry, xs)) == SumWhere(good, xs)
  {
    if xs != [] {
      var init, x := xs[..|xs| - 1], xs[|xs| - 1];
      SumWhereMerged(good, init);
      SumWherePut(good, Merged(JoinEntry, init), x);
      assert xs == init + [x] && [x][1..] == [];
      SumWhereConcat(good, init, [x]);
    }
  }

  // ---- one report ----

  /** The first findings of their keys rated above `rank`. */
  function TallyAbove(fs: seq<Finding>, rank: nat): int {
    if rank == 0 then 0 else TallyAbove(fs, rank - 1) + Tally(fs, rank - 1)
  }

  lemma {:induction false} TallyNext(fs: seq<Finding>, rank: nat)
    requires fs != []
    ensures var init, f := fs[..|fs| - 1], fs[|fs| - 1];
            TallyAbove(fs, rank) ==
              TallyAbove(init, rank) + (if !Holds(init, f.key) && SeverityRank(f.severity) < rank then 1 else 0)
  {
    if rank > 0 {
      TallyNext(fs, rank - 1);
    }
  }

  lemma {:induction false} NoneAbove(rank: nat)
    ensures TallyAbove([], rank) == 0
  {
    if rank > 0 {
      NoneAbove(rank - 1);
    }
  }

  lemma {:induction false} ReportAbove(fs: seq<Finding>, modified: string, rolled: FindingKey -> nat, rank: nat)
    requires forall f :: f in fs ==> rolled(f.key) <= SeverityRank(f.severity)
    ensures SumWhere(k => rolled(k) < rank, ItemsOf(fs, modified)) ==
              TallyAbove(fs, rank) + PromotedIn(fs, rolled, rank)
  {
    var good := (k: FindingKey) => rolled(k) < rank;
    if fs == [] {
      NoneAbove(rank);
    } else {
      var init, f := fs[..|fs| - 1], fs[|fs| - 1];
      ReportAbove(init, modified, rolled, rank);
      TallyNext(fs, rank);
      var x := ItemOf(f, Holds(init, f.key), modified);
      SumWhereConcat(good, ItemsOf(init, modified), [x]);
      assert [x][1..] == [];
      assert f in fs;
    }
  }

  // ---- all reports ----

  function TalliesAbove(rs: seq<Report>, rank: nat): int {
    if rank == 0 then 0 else TalliesAbove(rs, rank - 1) + Tallies(rs, rank - 1)
  }

  lemma {:induction false} TalliesNext(rs: seq<Report>, rank: nat)
    requires rs != []
    ensures TalliesAbove(rs, rank) == TalliesAbove(rs[..|rs| - 1], rank) + TallyAbove(rs[|rs| - 1].findings, rank)
  {
    if rank > 0 {
      TalliesNext(rs, rank - 1);
    }
  }

  lemma {:induction false} NoReports(rank: nat)
    ensures TalliesAbove([], rank) == 0
  {
    if rank > 0 {
      NoReports(rank - 1);
    }
  }

  /** The given severities are at least as bad as every rating. */
  predicate Bounds(rolled: FindingKey -> nat, rs: seq<Report>) {
    forall r, f :: r in rs && f in r.findings ==> rolled(f.key) <= SeverityRank(f.severity)
  }

  lemma {:induction false} AllAbove(rs: seq<Report>, rolled: FindingKey -> nat, rank: nat)
    requires Bounds(rolled, rs)
    ensures SumWhere(k => rolled(k) < rank, Flat(FindingItems, rs)) ==
              TalliesAbove(rs, rank) + Promotions(rs, rolled, rank)
  {
    var good := (k: FindingKey) => rolled(k) < rank;
    if rs == [] {
      NoReports(rank);
    } else {
      var init, r := rs[..|rs| - 1], rs[|rs| - 1];
      assert r in rs;
      AllAbove(init, rolled, rank);
      TalliesNext(rs, rank);
      ReportAbove(r.findings, r.modified, rolled, rank);
      SumWhereConcat(good, Flat(FindingItems, init), FindingItems(r));
    }
  }

  // ---- the rolled-up findings ----

  function OccurringAbove(xs: seq<Item<FindingKey, Entry>>, rank: nat): int {
    if rank == 0 then 0 else OccurringAbove(xs, rank - 1) + Occurring(xs, rank - 1)
  }

  lemma {:induction false} OccurringNext(xs: seq<Item<FindingKey, Entry>>, rank: nat)
    requires xs != []
    ensures OccurringAbove(xs, rank) == OccurringAbove(xs[1..], rank) +
                (if xs[0].value.facts.rank < rank then xs[0].value.facts.occurrences else 0)
  {
    if rank > 0 {
      OccurringNext(xs, rank - 1);
    }
  }

  lemma {:induction false} NoneOccurring(rank: nat)
    ensures OccurringAbove([], rank) == 0
  {
    if rank > 0 {
      NoneOccurring(rank - 1);
    }
  }

  /** The entries have the given severities. */
  predicate Ranked(xs: seq<Item<FindingKey, Entry>>, rolled: FindingKey -> nat) {
    forall x :: x in xs ==> x.value.facts.rank == rolled(x.key)
  }

  lemma {:induction false} EntriesAbove(xs: seq<Item<FindingKey, Entry>>, rolled: FindingKey -> nat, rank: nat)
    requires Ranked(xs, rolled)
    ensures OccurringAbove(xs, rank) == SumWhere(k => rolled(k) < rank, xs)
  {
    if xs == [] {
      NoneOccurring(rank);
    } else {
      OccurringNext(xs, rank);
      EntriesAbove(xs[1..], rolled, rank);
    }
  }

  lemma {:induction false} Held(xs: seq<Item<FindingKey, Entry>>, x: Item<FindingKey, Entry>)
    requires OncePerKey(xs) && x in xs
    ensures Get(Project(FactsOf, xs), x.key) == Some(x.value.facts)
    ensures Get(xs, x.key) == Some(x.value)
  {
    if x != xs[0] {
      Held(xs[1..], x);
    }
    assert Project(FactsOf, xs)[1..] == Project(FactsOf, xs[1..]);
  }

  lemma RolledHeld(rs: seq<Report>)
    ensures Ranked(Findings(rs), (k: FindingKey) => Rolled(rs, k))
  {
    MergedOncePerKey(JoinEntry, [], Flat(FindingItems, rs));
    forall x | x in Findings(rs) ensures x.value.facts.rank == Rolled(rs, x.key) {
      Held(Findings(rs), x);
    }
  }

  lemma {:induction false} Member(rs: seq<Report>, r: Report, f: Finding)
    requires r in rs && f in r.findings
    ensures f in Flat(FindingsIn, rs)
  {
    if r != rs[|rs| - 1] {
      Member(rs[..|rs| - 1], r, f);
    }
  }

  lemma RolledBounds(rs: seq<Report>)
    ensures Bounds((k: FindingKey) => Rolled(rs, k), rs)
  {
    forall r, f | r in rs && f in r.findings ensures Rolled(rs, f.key) <= SeverityRank(f.severity) {
      Member(rs, r, f);
      FindingMeaning(rs, f.key);
    }
  }

  // Down to each severity the rolled-up findings occur as often as the histogram counts, and the promoted ones more.
  lemma CountAbove(rs: seq<Report>, rank: nat)
    ensures OccurringAbove(Findings(rs), rank) == TalliesAbove(rs, rank) + Promoted(rs, rank)
  {
    var rolled := (k: FindingKey) => Rolled(rs, k);
    RolledHeld(rs);
    RolledBounds(rs);
    EntriesAbove(Findings(rs), rolled, rank);
    SumWhereMerged(k => rolled(k) < rank, Flat(FindingItems, rs));
    AllAbove(rs, rolled, rank);
  }

  /**
   The histogram's count of a severity is the occurrences of the findings rolled up to it exactly when as many first
   ratings are promoted into it or above as are promoted above it.
   */
  lemma HistogramExact(rs: seq<Report>, rank: nat)
    ensures Occurring(Findings(rs), rank) == Tallies(rs, rank) + Promoted(rs, rank + 1) - Promoted(rs, rank)
    ensures Tallies(rs, rank) == Occurring(Findings(rs), rank) <==> Promoted(rs, rank + 1) == Promoted(rs, rank)
  {
    CountAbove(rs, rank);
    CountAbove(rs, rank + 1);
  }

  // ---- all severities together ----

  /** Each report's first rating of every finding is the rolled-up one. */
  ghost predicate RatedAlike(rs: seq<Report>, rolled: FindingKey -> nat) {
    forall r, k :: r in rs && Holds(r.findings, k) ==> FirstRank(r.findings, k) == rolled(k)
  }

  lemma {:induction false} FirstRankMeans(fs: seq<Finding>, k: FindingKey)
    requires Holds(fs, k)
    ensures FirstRank(fs, k) < 5 && exists f :: f in fs && f.key == k && SeverityRank(f.severity) == FirstRank(fs, k)
  {
    var init := fs[..|fs| - 1];
    assert fs == init + [fs[|fs| - 1]];
    if Holds(init, k) {
      FirstRankMeans(init, k);
    }
  }

  lemma {:induction false} NonePromotedIn(fs: seq<Finding>, rolled: FindingKey -> nat, rank: nat)
    ensures PromotedIn(fs, rolled, rank) == 0 <==>
              forall k :: Holds(fs, k) ==> !(rolled(k) < rank <= FirstRank(fs, k))
  {
    if fs != [] {
      var init, f := fs[..|fs| - 1], fs[|fs| - 1];
      NonePromotedIn(init, rolled, rank);
      assert forall k :: Holds(fs, k) <==> Holds(init, k) || f.key == k;
      assert forall k :: Holds(init, k) ==> FirstRank(fs, k) == FirstRank(init, k);
      assert !Holds(init, f.key) ==> Holds(fs, f.key) && FirstRank(fs, f.key) == SeverityRank(f.severity);
    }
  }

  lemma {:induction false} NonePromoted(rs: seq<Report>, rolled: FindingKey -> nat, rank: nat)
    ensures Promotions(rs, rolled, rank) == 0 <==>
              forall r, k :: r in rs && Holds(r.findings, k) ==> !(rolled(k) < rank <= FirstRank(r.findings, k))
  {
    if rs != [] {
      var init, r := rs[..|rs| - 1], rs[|rs| - 1];
      NonePromoted(init, rolled, rank);
      NonePromotedIn(r.findings, rolled, rank);
      assert rs == init + [r];
    }
  }

  /** The histogram gives for every severity the occurrences of the findings rolled up to it. */
  predicate Agrees(rs: seq<Report>) {
    forall rank: nat :: rank < 5 ==> Tallies(rs, rank) == Occurring(Findings(rs), rank)
  }

  lemma {:induction false} AgreesAbove(rs: seq<Report>, rank: nat)
    requires Agrees(rs) && rank <= 5
    ensures Promoted(rs, rank) == 0
  {
    CountAbove(rs, rank);
    if rank > 0 {
      AgreesAbove(rs, rank - 1);
      HistogramExact(rs, rank - 1);
    } else {
      assert TalliesAbove(rs, 0) == 0 && OccurringAbove(Findings(rs), 0) == 0;
    }
  }

  /** The whole histogram counts the rolled-up findings exactly when every report that has a finding first rates it as
      the roll-up does. */
  lemma HistogramAgrees(rs: seq<Report>)
    ensures Agrees(rs) <==> RatedAlike(rs, (k: FindingKey) => Rolled(rs, k))
  {
    var rolled := (k: FindingKey) => Rolled(rs, k);
    RolledBounds(rs);
    if Agrees(rs) {
      forall r, k | r in rs && Holds(r.findings, k) ensures FirstRank(r.findings, k) == rolled(k) {
        FirstRankMeans(r.findings, k);
        var f :| f in r.findings && f.key == k && SeverityRank(f.severity) == FirstRank(r.findings, k);
        assert rolled(f.key) <= SeverityRank(f.severity);
        var rank := rolled(k) + 1;
        AgreesAbove(rs, rank);
        NonePromoted(rs, rolled, rank);
      }
    }
    if RatedAlike(rs, rolled) {
      forall rank: nat | rank < 5 ensures Tallies(rs, rank) == Occurring(Findings(rs), rank) {
        NonePromoted(rs, rolled, rank);
        NonePromoted(rs, rolled, rank + 1);
        HistogramExact(rs, rank);
      }
    }
  }

  /** Two reports of one finding, low in the first and critical in the second: the histogram and the findings differ. */
  lemma RatedApart(a: Report, b: Report, k: FindingKey)
    requires a.findings == [Finding(k, "LOW", 0.0, "")] && b.findings == [Finding(k, "CRITICAL", 0.0, "")]
    ensures !Agrees([a, b])
  {
    var rs := [a, b];
    RolledBounds(rs);
    assert b in rs && b.findings[0] in b.findings;
    assert Rolled(rs, k) == 0;
    assert a in rs && a.findings[..|a.findings| - 1] == [];
    assert Holds(a.findings, k) && FirstRank(a.findings, k) == 3;
    HistogramAgrees(rs);
  }
}
