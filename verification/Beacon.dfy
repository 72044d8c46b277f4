/**
 Beacon scoring: gaps between timestamps are binned around their median, and the score is the share of
 gaps in or next to the fullest bin, discounted by their spread. Real arithmetic; no rounding error.
 */
module Beacon {
  import opened Wrappers
  import opened KeyedFold
  import opened Sorting

  datatype Score = Score(score: real, interval: real, jitter: real)

  const NONE := Score(0.0, 0.0, 0.0)

  function Gaps(ts: seq<real>): seq<real> {
    if |ts| < 2 then [] else seq(|ts| - 1, i requires 0 <= i < |ts| - 1 => ts[i + 1] - ts[i])
  }

  /** Gaps of at most ten milliseconds are ignored. */
  function Kept(gaps: seq<real>): (r: seq<real>)
    ensures forall d :: d in r ==> d > 0.01
    ensures |r| <= |gaps|
  {
    if gaps == [] then [] else (if gaps[0] > 0.01 then [gaps[0]] else []) + Kept(gaps[1..])
  }

  /** Python's `round`: to the nearest integer, halves to the even one. */
  function Round(x: real): int {
    var low := x.Floor;
    var part := x - low as real;
    if part < 0.5 || (part == 0.5 && low % 2 == 0) then low else low + 1
  }

  function Width(median: real): real {
    if median * 0.1 > 0.5 then median * 0.1 else 0.5
  }

  function BinOf(d: real, width: real): real
    requires width > 0.0
  {
    Round(d / width) as real * width
  }

  type Bin = Item<real, int>

  function Plus(a: int, b: int): int { a + b }

  function Ones(ds: seq<real>, width: real): seq<Bin>
    requires width > 0.0
  {
    if ds == [] then [] else Ones(ds[..|ds| - 1], width) + [Item(BinOf(ds[|ds| - 1], width), 1)]
  }

  /** The histogram, bins in order of first use. */
  function Bins(ds: seq<real>, width: real): seq<Bin>
    requires width > 0.0
  {
    Merged(Plus, Ones(ds, width))
  }

  /** The first bin of greatest count. */
  function Peak(bins: seq<Bin>): Bin
    requires bins != []
  {
    if |bins| == 1 then bins[0]
    else
      var best, last := Peak(bins[..|bins| - 1]), bins[|bins| - 1];
      if last.value > best.value then last else best
  }

  predicate Near(x: real, peak: real, width: real) {
    -width <= x - peak <= width
  }

  function CountNear(bins: seq<Bin>, peak: real, width: real): int {
    if bins == [] then 0
    else (if Near(bins[0].key, peak, width) then bins[0].value else 0) + CountNear(bins[1..], peak, width)
  }

  function Cluster(ds: seq<real>, peak: real, width: real): seq<real> {
    if ds == [] then []
    else (if Near(ds[0], peak, width) then [ds[0]] else []) + Cluster(ds[1..], peak, width)
  }

  function Highest(s: seq<real>): real
    requires s != []
  {
    if |s| == 1 then s[0] else (var m := Highest(s[1..]); if s[0] > m then s[0] else m)
  }

  function Lowest(s: seq<real>): real
    requires s != []
  {
    if |s| == 1 then s[0] else (var m := Lowest(s[1..]); if s[0] < m then s[0] else m)
  }

  function JitterOf(cluster: seq<real>, interval: real): real {
    if interval > 0.0 && cluster != [] then (Highest(cluster) - Lowest(cluster)) / interval else 1.0
  }

  function Least(a: real, b: real): real { if a < b then a else b }
  function Most(a: real, b: real): real { if a > b then a else b }

  function Clamp(x: real): real { Most(0.0, Least(1.0, x)) }

  /** The score before it is clamped. */
  function RawScore(near: int, total: int, jitter: real): real
    requires total > 0
  {
    near as real / total as real * (1.0 - Least(jitter, 1.0))
  }

  function ScoreOfGaps(ds: seq<real>): Score {
    if |ds| < 5 then NONE
    else
      SortedSorts(ds);
      var median := Sorted(ds)[|ds| / 2];
      if median < 0.1 then NONE
      else
        var width := Width(median);
        var bins := Bins(ds, width);
        BinsNotEmpty(ds, width);
        var peak := Peak(bins).key;
        var jitter := JitterOf(Cluster(ds, peak, width), peak);
        Score(Clamp(RawScore(CountNear(bins, peak, width), |ds|, jitter)), peak, jitter)
  }

  function ScoreOf(ts: seq<real>): Score {
    if |ts| < 10 then NONE else ScoreOfGaps(Kept(Gaps(Sorted(ts))))
  }

  lemma BinsNotEmpty(ds: seq<real>, width: real)
    requires width > 0.0 && ds != []
    ensures Bins(ds, width) != []
  {
    var ones := Ones(ds, width);
    assert ones != [];
  }

  // ---- the computation ----

  method Compute(ts: seq<real>) returns (s: Score)
    ensures s == ScoreOf(ts)
  {
    if |ts| < 10 {
      return NONE;
    }
    var ds := Kept(Gaps(Sorted(ts)));
    if |ds| < 5 {
      return NONE;
    }
    SortedSorts(ds);
    var median := Sorted(ds)[|ds| / 2];
    if median < 0.1 {
      return NONE;
    }
    var width := Width(median);
    var bins := Histogram(ds, width);
    BinsNotEmpty(ds, width);
    var peak := FindPeak(bins);
    var jitter := JitterOf(Cluster(ds, peak, width), peak);
    s := Score(Clamp(RawScore(CountNear(bins, peak, width), |ds|, jitter)), peak, jitter);
  }

  method Histogram(ds: seq<real>, width: real) returns (bins: seq<Bin>)
    requires width > 0.0
    ensures bins == Bins(ds, width)
  {
    bins := [];
    for i := 0 to |ds|
      invariant bins == Bins(ds[..i], width)
    {
      assert ds[..i + 1][..i] == ds[..i];
      var ones := Ones(ds[..i], width);
      assert (ones + [Item(BinOf(ds[i], width), 1)])[..|ones|] == ones;
      bins := Put(Plus, bins, Item(BinOf(ds[i], width), 1));
    }
    assert ds[..|ds|] == ds;
  }

  method FindPeak(bins: seq<Bin>) returns (peak: real)
    requires bins != []
    ensures peak == Peak(bins).key
  {
    var best := bins[0];
    assert bins[..1] == [bins[0]];
    for i := 1 to |bins|
      invariant best == Peak(bins[..i])
    {
      assert bins[..i + 1][..i] == bins[..i];
      if bins[i].value > best.value {
        best := bins[i];
      }
    }
    assert bins[..|bins|] == bins;
    peak := best.key;
  }

  // ---- the score is a proportion ----

  lemma {:induction false} PeakIsABin(bins: seq<Bin>)
    requires bins != []
    ensures Peak(bins) in bins
  {
    if |bins| > 1 {
      PeakIsABin(bins[..|bins| - 1]);
    }
  }

  /** The peak is the first of the fullest bins. */
  lemma {:induction false} PeakIsFullest(bins: seq<Bin>) returns (j: nat)
    requires bins != []
    ensures j < |bins| && bins[j] == Peak(bins)
    ensures forall i :: 0 <= i < |bins| ==> bins[i].value <= bins[j].value
    ensures forall i :: 0 <= i < j ==> bins[i].value < bins[j].value
  {
    if |bins| == 1 {
      j := 0;
    } else {
      j := PeakIsFullest(bins[..|bins| - 1]);
      assert forall i :: 0 <= i < |bins| - 1 ==> bins[..|bins| - 1][i] == bins[i];
      if bins[|bins| - 1].value > bins[j].value {
        j := |bins| - 1;
      }
    }
  }

  /** The gaps whose bin lies within one width of the peak. */
  function GapsNear(ds: seq<real>, peak: real, width: real): nat
    requires width > 0.0
  {
    if ds == [] then 0
    else GapsNear(ds[..|ds| - 1], peak, width) + (if Near(BinOf(ds[|ds| - 1], width), peak, width) then 1 else 0)
  }

  lemma {:induction false} PutNear(bins: seq<Bin>, x: Bin, peak: real, width: real)
    ensures CountNear(Put(Plus, bins, x), peak, width) ==
              CountNear(bins, peak, width) + (if Near(x.key, peak, width) then x.value else 0)
  {
    if bins == [] {
      assert [x][1..] == [];
    } else if bins[0].key == x.key {
      assert Put(Plus, bins, x)[1..] == bins[1..];
    } else {
      assert Put(Plus, bins, x)[1..] == Put(Plus, bins[1..], x);
      PutNear(bins[1..], x, peak, width);
    }
  }

  /** The histogram's count around the peak is the number of gaps binned there. */
  lemma {:induction false} NearCountsGaps(ds: seq<real>, peak: real, width: real)
    requires width > 0.0
    ensures CountNear(Bins(ds, width), peak, width) == GapsNear(ds, peak, width)
  {
    if ds != [] {
      var init, x := ds[..|ds| - 1], Item(BinOf(ds[|ds| - 1], width), 1);
      NearCountsGaps(init, peak, width);
      var ones := Ones(init, width);
      assert (ones + [x])[..|ones|] == ones;
      PutNear(Bins(init, width), x, peak, width);
    }
  }

  lemma RoundIsNear(x: real)
    ensures -0.5 <= Round(x) as real - x <= 0.5
  {
  }

  lemma BinIsNear(d: real, width: real)
    requires width > 0.0
    ensures -width / 2.0 <= BinOf(d, width) - d <= width / 2.0
  {
    var q := d / width;
    RoundIsNear(q);
    var off := Round(q) as real - q;
    assert BinOf(d, width) - d == off * width by {
      assert q * width == d;
    }
    NotNegative(0.5 - off, width);
    NotNegative(off + 0.5, width);
  }

  lemma NotNegative(a: real, b: real)
    requires a >= 0.0 && b >= 0.0
    ensures a * b >= 0.0
    ensures a > 0.0 && b > 0.0 ==> a * b > 0.0
  {
  }

  lemma {:induction false} OnesFrom(ds: seq<real>, width: real, x: Bin)
    requires width > 0.0 && x in Ones(ds, width)
    ensures exists d :: d in ds && x.key == BinOf(d, width)
  {
    var init := ds[..|ds| - 1];
    if x in Ones(init, width) {
      OnesFrom(init, width, x);
      var d :| d in init && x.key == BinOf(d, width);
      assert d in ds;
    } else {
      assert ds[|ds| - 1] in ds;
    }
  }

  lemma {:induction false} ClusterHas(ds: seq<real>, peak: real, width: real, d: real)
    ensures d in Cluster(ds, peak, width) <==> d in ds && Near(d, peak, width)
  {
    if ds != [] {
      ClusterHas(ds[1..], peak, width, d);
    }
  }

  /** The fullest bin always has a gap within half a bin of it, so the cluster is never empty. */
  lemma ClusterNotEmpty(ds: seq<real>, width: real) returns (d: real)
    requires width > 0.0 && ds != [] && Bins(ds, width) != []
    ensures var peak := Peak(Bins(ds, width)).key;
            d in Cluster(ds, peak, width) && peak == BinOf(d, width)
  {
    var bins := Bins(ds, width);
    PeakIsABin(bins);
    MergedKey(Plus, Ones(ds, width), Peak(bins));
    var x :| x in Ones(ds, width) && x.key == Peak(bins).key;
    OnesFrom(ds, width, x);
    d :| d in ds && x.key == BinOf(d, width);
    BinIsNear(d, width);
    ClusterHas(ds, Peak(bins).key, width, d);
  }

  lemma {:induction false} SpreadNotNegative(s: seq<real>)
    requires s != []
    ensures Lowest(s) <= Highest(s)
  {
    if |s| > 1 {
      SpreadNotNegative(s[1..]);
    }
  }

  ghost predicate Positive(bins: seq<Bin>) {
    forall i :: 0 <= i < |bins| ==> bins[i].value >= 0
  }

  lemma {:induction false} PutPositive(bins: seq<Bin>, x: Bin)
    requires Positive(bins) && x.value >= 0
    ensures Positive(Put(Plus, bins, x))
  {
    if bins != [] && bins[0].key != x.key {
      assert forall i :: 0 <= i < |bins[1..]| ==> bins[1..][i] == bins[i + 1];
      PutPositive(bins[1..], x);
    }
  }

  lemma {:induction false} BinCounts(ds: seq<real>, width: real)
    requires width > 0.0
    ensures Positive(Bins(ds, width)) && Sum((v: int) => v, Bins(ds, width)) == |ds|
  {
    if ds != [] {
      var init, x := ds[..|ds| - 1], Item(BinOf(ds[|ds| - 1], width), 1);
      BinCounts(init, width);
      var ones := Ones(init, width);
      assert (ones + [x])[..|ones|] == ones;
      PutPositive(Bins(init, width), x);
      SumPut(Plus, (v: int) => v, Bins(init, width), x);
    }
  }

  lemma {:induction false} NearIsPart(bins: seq<Bin>, peak: real, width: real)
    requires Positive(bins)
    ensures 0 <= CountNear(bins, peak, width) <= Sum((v: int) => v, bins)
  {
    if bins != [] {
      assert forall i :: 0 <= i < |bins[1..]| ==> bins[1..][i] == bins[i + 1];
      NearIsPart(bins[1..], peak, width);
    }
  }

  lemma RawInRange(near: int, total: int, jitter: real)
    requires 0 <= near <= total && total > 0 && jitter >= 0.0
    ensures 0.0 <= RawScore(near, total, jitter) <= 1.0
  {
    var part, rest := near as real / total as real, 1.0 - Least(jitter, 1.0);
    assert part * total as real == near as real;
    assert 0.0 <= part <= 1.0;
    assert 0.0 <= rest <= 1.0;
    NotNegative(part, rest);
    NotNegative(1.0 - part, rest);
  }

  /** Every score lies between 0 and 1 before it is clamped, so clamping never changes it; nothing divides by zero. */
  lemma ScoreInRange(ds: seq<real>, width: real)
    requires width > 0.0 && ds != [] && Bins(ds, width) != []
    ensures var bins := Bins(ds, width);
            var peak := Peak(bins).key;
            var raw := RawScore(CountNear(bins, peak, width), |ds|, JitterOf(Cluster(ds, peak, width), peak));
            0.0 <= raw <= 1.0 && Clamp(raw) == raw
  {
    var bins := Bins(ds, width);
    var peak := Peak(bins).key;
    var cluster := Cluster(ds, peak, width);
    BinCounts(ds, width);
    NearIsPart(bins, peak, width);
    if cluster != [] {
      SpreadNotNegative(cluster);
    }
    RawInRange(CountNear(bins, peak, width), |ds|, JitterOf(cluster, peak));
  }

  /** What the computation would return without the clamp. */
  function UnclampedOfGaps(ds: seq<real>): Score {
    if |ds| < 5 then NONE
    else
      SortedSorts(ds);
      var median := Sorted(ds)[|ds| / 2];
      if median < 0.1 then NONE
      else
        var width := Width(median);
        var bins := Bins(ds, width);
        BinsNotEmpty(ds, width);
        var peak := Peak(bins).key;
        var jitter := JitterOf(Cluster(ds, peak, width), peak);
        Score(RawScore(CountNear(bins, peak, width), |ds|, jitter), peak, jitter)
  }

  function Unclamped(ts: seq<real>): Score {
    if |ts| < 10 then NONE else UnclampedOfGaps(Kept(Gaps(Sorted(ts))))
  }

  /** For every list of timestamps the score lies between 0 and 1 and is what it would be without the clamp. */
  lemma ScoreIsProportion(ts: seq<real>)
    ensures 0.0 <= ScoreOf(ts).score <= 1.0 && ScoreOf(ts) == Unclamped(ts)
  {
    if |ts| >= 10 {
      var ds := Kept(Gaps(Sorted(ts)));
      if |ds| >= 5 {
        SortedSorts(ds);
        var median := Sorted(ds)[|ds| / 2];
        if median >= 0.1 {
          BinsNotEmpty(ds, Width(median));
          ScoreInRange(ds, Width(median));
        }
      }
    }
  }

  // ---- order and origin do not matter ----

  lemma GapsShift(ts: seq<real>, shift: real)
    ensures Gaps(Shifted(ts, shift)) == Gaps(ts)
  {
  }

  /** The result depends neither on the order of the timestamps nor on where their clock starts. */
  lemma OrderAndOriginIrrelevant(ts: seq<real>, us: seq<real>, shift: real)
    requires multiset(us) == multiset(Shifted(ts, shift))
    ensures ScoreOf(us) == ScoreOf(ts)
  {
    assert |multiset(us)| == |us| && |multiset(Shifted(ts, shift))| == |ts|;
    SortedForgetsOrder(us, Shifted(ts, shift));
    SortedShifts(ts, shift);
    GapsShift(Sorted(ts), shift);
  }

  // ---- a perfect beacon ----

  function Beats(start: real, period: real, n: nat): seq<real> {
    seq(n, i => start + i as real * period)
  }

  function Repeat(x: real, n: nat): seq<real> {
    seq(n, _ => x)
  }

  lemma GapsOfBeats(start: real, period: real, n: nat)
    requires n >= 2
    ensures Gaps(Beats(start, period, n)) == Repeat(period, n - 1)
  {
    var ts := Beats(start, period, n);
    forall i | 0 <= i < n - 1 ensures ts[i + 1] - ts[i] == period {
      NextBeat(i, period);
      assert ts[i + 1] == start + (i + 1) as real * period && ts[i] == start + i as real * period;
    }
    assert Gaps(ts) == Repeat(period, n - 1);
  }

  lemma NextBeat(i: int, period: real)
    ensures (i + 1) as real * period == i as real * period + period
  {
    assert (i + 1) as real == i as real + 1.0;
  }

  lemma BeatsOrdered(start: real, period: real, n: nat)
    requires period > 0.0
    ensures Ordered(Beats(start, period, n))
  {
    forall i, j | 0 <= i < j < n ensures Beats(start, period, n)[i] <= Beats(start, period, n)[j] {
      NotNegative(j as real - i as real, period);
    }
  }

  lemma {:induction false} KeptRepeat(x: real, n: nat)
    ensures Kept(Repeat(x, n)) == if x > 0.01 then Repeat(x, n) else []
  {
    if n > 0 {
      assert Repeat(x, n)[1..] == Repeat(x, n - 1);
      KeptRepeat(x, n - 1);
      assert [x] + Repeat(x, n - 1) == Repeat(x, n);
    }
  }

  lemma {:induction false} BinsOfRepeat(x: real, width: real, n: nat)
    requires width > 0.0 && n > 0
    ensures Bins(Repeat(x, n), width) == [Item(BinOf(x, width), n)]
  {
    var ds, one := Repeat(x, n), Item(BinOf(x, width), 1);
    assert ds[..n - 1] == Repeat(x, n - 1);
    var ones := Ones(Repeat(x, n - 1), width);
    assert Ones(ds, width) == ones + [one];
    assert (ones + [one])[..|ones|] == ones;
    assert Bins(ds, width) == Put(Plus, Bins(Repeat(x, n - 1), width), one);
    if n == 1 {
      assert ones == [];
      assert Bins(Repeat(x, n - 1), width) == [];
    } else {
      BinsOfRepeat(x, width, n - 1);
    }
  }

  lemma {:induction false} ClusterOfRepeat(x: real, peak: real, width: real, n: nat)
    requires Near(x, peak, width)
    ensures Cluster(Repeat(x, n), peak, width) == Repeat(x, n)
    ensures n > 0 ==> Highest(Repeat(x, n)) == x == Lowest(Repeat(x, n))
  {
    if n > 0 {
      assert Repeat(x, n)[1..] == Repeat(x, n - 1);
      ClusterOfRepeat(x, peak, width, n - 1);
      assert [x] + Repeat(x, n - 1) == Repeat(x, n);
    }
  }

  lemma RoundUp(q: real)
    requires q > 0.0
    ensures Round(q) >= 0 && (Round(q) > 0 <==> q > 0.5)
  {
  }

  lemma PositiveBin(period: real)
    requires period >= 0.1
    ensures BinOf(period, Width(period)) > 0.0 <==> period > 0.25
    ensures BinOf(period, Width(period)) >= 0.0
  {
    var width := Width(period);
    var q := period / width;
    assert q * width == period;
    Quotient(period, width, q);
    RoundUp(q);
    NotNegative(Round(q) as real, width);
  }

  lemma Quotient(period: real, width: real, q: real)
    requires period >= 0.1 && width == Width(period) && q * width == period
    ensures q > 0.0 && (q > 0.5 <==> period > 0.25)
  {
    if width == 0.5 {
      assert q == period * 2.0;
    } else {
      assert (q - 10.0) * width == 0.0;
      assert q == 10.0;
    }
  }

  lemma MedianOfRepeat(x: real, n: nat)
    requires n >= 1
    ensures |Sorted(Repeat(x, n))| == n && Sorted(Repeat(x, n))[n / 2] == x
  {
    SortedAlready(Repeat(x, n));
  }

  lemma JitterOfRepeat(x: real, n: nat)
    requires n >= 1 && x >= 0.1
    ensures var width := Width(x);
            var peak := BinOf(x, width);
            JitterOf(Cluster(Repeat(x, n), peak, width), peak) == if x > 0.25 then 0.0 else 1.0
  {
    var width := Width(x);
    var peak := BinOf(x, width);
    BinIsNear(x, width);
    PositiveBin(x);
    ClusterOfRepeat(x, peak, width, n);
    assert Repeat(x, n) != [];
  }

  lemma ScoreOfRepeat(x: real, n: nat)
    requires n >= 5 && x >= 0.1
    ensures ScoreOfGaps(Repeat(x, n)) ==
              if x > 0.25 then Score(1.0, BinOf(x, Width(x)), 0.0) else Score(0.0, BinOf(x, Width(x)), 1.0)
  {
    var ds, width := Repeat(x, n), Width(x);
    MedianOfRepeat(x, n);
    BinsOfRepeat(x, width, n);
    var peak := BinOf(x, width);
    OneBin(peak, width, n);
    JitterOfRepeat(x, n);
    var jitter := JitterOf(Cluster(ds, peak, width), peak);
    OneCluster(n, jitter);
    assert |ds| == n;
  }

  lemma OneBin(peak: real, width: real, n: nat)
    requires width > 0.0
    ensures Peak([Item(peak, n)]).key == peak && CountNear([Item(peak, n)], peak, width) == n
  {
    var bins: seq<Bin> := [Item(peak, n)];
    assert bins[1..] == [];
  }

  lemma OneCluster(n: nat, jitter: real)
    requires n > 0 && (jitter == 0.0 || jitter == 1.0)
    ensures Clamp(RawScore(n, n, jitter)) == 1.0 - jitter
  {
    assert n as real / n as real == 1.0;
  }

  /**
   A perfectly regular signal of at least ten beats scores 1, with no jitter and an interval within half a
   bin of its period, exactly when the period exceeds a quarter of a second; otherwise it scores 0.
   */
  lemma PerfectBeacon(start: real, period: real, n: nat)
    requires n >= 10 && period > 0.0
    ensures var s := ScoreOf(Beats(start, period, n));
            && (s.score == 1.0 <==> period > 0.25)
            && (s.score == 0.0 <==> period <= 0.25)
            && (period > 0.25 ==> s.jitter == 0.0 && -Width(period) / 2.0 <= s.interval - period <= Width(period) / 2.0)
  {
    BeatsOrdered(start, period, n);
    SortedAlready(Beats(start, period, n));
    GapsOfBeats(start, period, n);
    KeptRepeat(period, n - 1);
    if period >= 0.1 {
      ScoreOfRepeat(period, n - 1);
      BinIsNear(period, Width(period));
    } else if period > 0.01 {
      SortedAlready(Repeat(period, n - 1));
    }
  }
}
