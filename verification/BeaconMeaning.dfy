/**
 What a beacon score says of the timestamps it is computed from, gap by gap.
 */
module BeaconMeaning {
  import opened Wrappers
  import opened KeyedFold
  import opened Sorting
  import opened Beacon

  /** Rounding is to the nearest integer, and to the even one of two equally near. */
  lemma RoundExact(x: real)
    ensures -0.5 <= Round(x) as real - x <= 0.5
    ensures Round(x) as real - x == 0.5 || x - Round(x) as real == 0.5 ==> Round(x) % 2 == 0
  {
  }

  /** The bin of a gap: a multiple of the width, none nearer. */
  lemma BinExact(d: real, width: real) returns (n: int)
    requires width > 0.0
    ensures BinOf(d, width) == n as real * width
    ensures -width / 2.0 <= BinOf(d, width) - d <= width / 2.0
  {
    BinIsNear(d, width);
    n := Round(d / width);
  }

  /** The gaps longer than ten milliseconds between successive timestamps in order. */
  function LongGaps(ordered: seq<real>): seq<real> {
    if |ordered| < 2 then []
    else
      var d := ordered[1] - ordered[0];
      (if d > 0.01 then [d] else []) + LongGaps(ordered[1..])
  }

  lemma {:induction false} GapsExact(ordered: seq<real>)
    ensures Kept(Gaps(ordered)) == LongGaps(ordered)
  {
    if |ordered| >= 2 {
      GapsExact(ordered[1..]);
      assert Gaps(ordered)[1..] == Gaps(ordered[1..]);
    }
  }

  /** How many gaps fall into a bin. */
  function InBin(ds: seq<real>, width: real, bin: real): nat
    requires width > 0.0
  {
    if ds == [] then 0
    else InBin(ds[..|ds| - 1], width, bin) + (if BinOf(ds[|ds| - 1], width) == bin then 1 else 0)
  }

  /** Some gap falls into the bin, and no bin has more. */
  ghost predicate Fullest(ds: seq<real>, width: real, bin: real)
    requires width > 0.0
  {
    && InBin(ds, width, bin) > 0
    && forall d :: d in ds ==> InBin(ds, width, BinOf(d, width)) <= InBin(ds, width, bin)
  }

  /** How many gaps have a bin within one width of the given one. */
  function BinnedNear(ds: seq<real>, width: real, bin: real): nat
    requires width > 0.0
  {
    if ds == [] then 0
    else
      var b := BinOf(ds[|ds| - 1], width);
      BinnedNear(ds[..|ds| - 1], width, bin) + (if bin - width <= b <= bin + width then 1 else 0)
  }

  /** `spread` is the difference between the longest and the shortest gap within one width of the bin. */
  ghost predicate Spread(ds: seq<real>, width: real, bin: real, spread: real) {
    exists hi, lo :: NearGap(ds, width, bin, hi) && NearGap(ds, width, bin, lo) && spread == hi - lo
                     && forall d :: NearGap(ds, width, bin, d) ==> lo <= d <= hi
  }

  predicate NearGap(ds: seq<real>, width: real, bin: real, d: real) {
    d in ds && bin - width <= d <= bin + width
  }

  /** A part of a total, less the jitter's part of it. */
  function Discount(near: nat, total: nat, jitter: real): real
    requires total > 0
  {
    near as real / total as real * (if jitter < 1.0 then 1.0 - jitter else 0.0)
  }

  /** The score of some gaps: their interval is the fullest bin; the jitter is the spread of the gaps near it over the
      interval, or 1 without one; the score is the part of the gaps binned near it, less the jitter's part of that. */
  ghost predicate Explains(s: Score, ds: seq<real>, width: real)
    requires width > 0.0
  {
    && Fullest(ds, width, s.interval)
    && (if s.interval > 0.0
        then exists spread :: Spread(ds, width, s.interval, spread) && s.jitter == spread / s.interval
        else s.jitter == 1.0)
    && |ds| > 0
    && s.score == Discount(BinnedNear(ds, width, s.interval), |ds|, s.jitter)
  }

  lemma {:induction false} BinHolds(ds: seq<real>, width: real, bin: real)
    requires width > 0.0
    ensures match Get(Bins(ds, width), bin)
            case None => InBin(ds, width, bin) == 0
            case Some(n) => n == InBin(ds, width, bin) > 0
  {
    if ds != [] {
      var init, x := ds[..|ds| - 1], Item(BinOf(ds[|ds| - 1], width), 1);
      BinHolds(init, width, bin);
      var ones := Ones(init, width);
      assert Ones(ds, width) == ones + [x] && (ones + [x])[..|ones|] == ones;
      GetPut(Plus, Bins(init, width), x, bin);
    }
  }

  lemma {:induction false} InOwnBin(ds: seq<real>, width: real, d: real)
    requires width > 0.0 && d in ds
    ensures InBin(ds, width, BinOf(d, width)) > 0
  {
    if d != ds[|ds| - 1] {
      InOwnBin(ds[..|ds| - 1], width, d);
    }
  }

  lemma PeakIsFull(ds: seq<real>, width: real)
    requires width > 0.0 && ds != [] && Bins(ds, width) != []
    ensures Fullest(ds, width, Peak(Bins(ds, width)).key)
  {
    var bins := Bins(ds, width);
    MergedOncePerKey(Plus, [], Ones(ds, width));
    var j := PeakIsFullest(bins);
    assert bins[j] in bins;
    GetHeld(bins, bins[j]);
    BinHolds(ds, width, bins[j].key);
    forall d | d in ds ensures InBin(ds, width, BinOf(d, width)) <= InBin(ds, width, bins[j].key) {
      InOwnBin(ds, width, d);
      BinHolds(ds, width, BinOf(d, width));
      GetHolds(bins, BinOf(d, width));
      var i :| 0 <= i < |bins| && bins[i] == Item(BinOf(d, width), Get(bins, BinOf(d, width)).value);
      assert bins[i].value <= bins[j].value;
    }
  }

  lemma {:induction false} NearExact(ds: seq<real>, width: real, bin: real)
    requires width > 0.0
    ensures BinnedNear(ds, width, bin) == GapsNear(ds, bin, width)
  {
    if ds != [] {
      NearExact(ds[..|ds| - 1], width, bin);
    }
  }

  lemma {:induction false} ExtremesExact(s: seq<real>)
    requires s != []
    ensures Highest(s) in s && Lowest(s) in s && forall d :: d in s ==> Lowest(s) <= d <= Highest(s)
  {
    if |s| > 1 {
      ExtremesExact(s[1..]);
      assert s == [s[0]] + s[1..];
    }
  }

  lemma SpreadExact(ds: seq<real>, width: real, bin: real)
    requires Cluster(ds, bin, width) != []
    ensures Spread(ds, width, bin, Highest(Cluster(ds, bin, width)) - Lowest(Cluster(ds, bin, width)))
  {
    var near := Cluster(ds, bin, width);
    ExtremesExact(near);
    forall d ensures d in near <==> NearGap(ds, width, bin, d) {
      ClusterHas(ds, bin, width, d);
    }
    hide Cluster, Highest, Lowest;
    assert NearGap(ds, width, bin, Highest(near)) && NearGap(ds, width, bin, Lowest(near));
  }

  /** The width of the bins: half a second, or a tenth of the middle gap if that is more. */
  function WidthFor(middle: real): (w: real)
    ensures w > 0.0
  {
    if middle / 10.0 <= 0.5 then 0.5 else middle / 10.0
  }

  lemma ClampIdle(near: int, total: int, jitter: real)
    requires 0 <= near <= total && total > 0 && jitter >= 0.0
    ensures Clamp(RawScore(near, total, jitter)) ==
              near as real / total as real * (if jitter < 1.0 then 1.0 - jitter else 0.0)
  {
    RawInRange(near, total, jitter);
  }

  lemma PartNear(ds: seq<real>, width: real, peak: real, jitter: real)
    requires width > 0.0 && |ds| > 0 && jitter >= 0.0
    ensures Clamp(RawScore(CountNear(Bins(ds, width), peak, width), |ds|, jitter)) ==
              Discount(BinnedNear(ds, width, peak), |ds|, jitter)
  {
    NearCountsGaps(ds, peak, width);
    NearExact(ds, width, peak);
    BinCounts(ds, width);
    NearIsPart(Bins(ds, width), peak, width);
    hide Bins, BinnedNear, GapsNear, CountNear;
    ClampIdle(CountNear(Bins(ds, width), peak, width), |ds|, jitter);
  }

  lemma PeakSpread(ds: seq<real>, width: real) returns (spread: real)
    requires width > 0.0 && ds != [] && Bins(ds, width) != []
    ensures var peak := Peak(Bins(ds, width)).key;
            && Spread(ds, width, peak, spread)
            && JitterOf(Cluster(ds, peak, width), peak) == (if peak > 0.0 then spread / peak else 1.0)
            && JitterOf(Cluster(ds, peak, width), peak) >= 0.0
  {
    var peak := Peak(Bins(ds, width)).key;
    var near := Cluster(ds, peak, width);
    var d := ClusterNotEmpty(ds, width);
    SpreadExact(ds, width, peak);
    SpreadNotNegative(near);
    hide Cluster, Peak, Bins;
    JitterExact(near, peak);
    spread := Highest(near) - Lowest(near);
  }

  lemma GapsScore(ds: seq<real>)
    requires |ds| >= 5 && |Sorted(ds)| == |ds| && Sorted(ds)[|ds| / 2] >= 0.1
    ensures Explains(ScoreOfGaps(ds), ds, WidthFor(Sorted(ds)[|ds| / 2]))
  {
    var middle := Sorted(ds)[|ds| / 2];
    var width := WidthFor(middle);
    assert Width(middle) == width;
    hide *;
    BinsNotEmpty(ds, width);
    var peak := Peak(Bins(ds, width)).key;
    var jitter := JitterOf(Cluster(ds, peak, width), peak);
    PeakIsFull(ds, width);
    var spread := PeakSpread(ds, width);
    PartNear(ds, width, peak, jitter);
    ScoreIs(ds, width, peak, jitter);
    Assemble(ScoreOfGaps(ds), ds, width, spread);
  }

  lemma JitterExact(near: seq<real>, peak: real)
    requires near != [] && Lowest(near) <= Highest(near)
    ensures JitterOf(near, peak) == (if peak > 0.0 then (Highest(near) - Lowest(near)) / peak else 1.0)
    ensures JitterOf(near, peak) >= 0.0
  {
  }

  lemma ScoreIs(ds: seq<real>, width: real, peak: real, jitter: real)
    requires |ds| >= 5 && |Sorted(ds)| == |ds| && Sorted(ds)[|ds| / 2] >= 0.1
    requires width > 0.0 && width == Width(Sorted(ds)[|ds| / 2]) && Bins(ds, width) != []
    requires peak == Peak(Bins(ds, width)).key && jitter == JitterOf(Cluster(ds, peak, width), peak)
    ensures ScoreOfGaps(ds) ==
            Score(Clamp(RawScore(CountNear(Bins(ds, width), peak, width), |ds|, jitter)), peak, jitter)
  {
  }

  lemma Assemble(s: Score, ds: seq<real>, width: real, spread: real)
    requires width > 0.0 && |ds| > 0 && Fullest(ds, width, s.interval) && Spread(ds, width, s.interval, spread)
    requires s.jitter == if s.interval > 0.0 then spread / s.interval else 1.0
    requires s.score == Discount(BinnedNear(ds, width, s.interval), |ds|, s.jitter)
    ensures Explains(s, ds, width)
  {
  }

  /**
   The score of any timestamps. It is zero for fewer than ten of them, for fewer than five gaps longer than ten
   milliseconds, and when the middle one of those is shorter than a tenth of a second; otherwise the gaps explain it.
   */
  lemma ScoreExact(ts: seq<real>)
    ensures var ds := LongGaps(Sorted(ts));
            && |Sorted(ds)| == |ds|
            && if |ts| < 10 || |ds| < 5 || Sorted(ds)[|ds| / 2] < 0.1 then ScoreOf(ts) == Score(0.0, 0.0, 0.0)
               else Explains(ScoreOf(ts), ds, WidthFor(Sorted(ds)[|ds| / 2]))
  {
    var ds := LongGaps(Sorted(ts));
    SortedSorts(ds);
    GapsExact(Sorted(ts));
    if |ts| >= 10 && |ds| >= 5 && Sorted(ds)[|ds| / 2] >= 0.1 {
      GapsScore(ds);
    }
  }
}
