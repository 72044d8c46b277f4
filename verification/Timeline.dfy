/**
 The adaptive activity timeline of a capture: conversations are spread over at most 121 buckets held
 in three parallel arrays. Times are reals, so floating-point rounding plays no part.
 */
module Timeline {
  import opened Wrappers

  datatype Conversation = Conversation(first: Option<real>, last: Option<real>, packets: int, bytes: int)

  datatype Quantity = Packets | Bytes

  /** A conversation that is kept: it has a start, and an end no earlier than it. */
  datatype Entry = Entry(first: real, last: real, packets: int, bytes: int)
  {
    function Amount(q: Quantity): int { if q.Packets? then packets else bytes }
    predicate Ordered() { first <= last }
    predicate Meets(lo: real, hi: real) { first < hi && lo <= last }
  }

  datatype Bucket = Bucket(time: real, packets: int, bytes: int, conversations: int)
  {
    function Amount(q: Quantity): int { if q.Packets? then packets else bytes }
  }

  datatype Timeline = Timeline(first: Option<real>, last: Option<real>, bucketSeconds: nat, buckets: seq<Bucket>)

  function Kept(c: Conversation): Option<Entry> {
    if c.first == None then None
    else
      var last := if c.last == None || c.last.value < c.first.value then c.first.value else c.last.value;
      Some(Entry(c.first.value, last, c.packets, c.bytes))
  }

  function Entries(cs: seq<Conversation>): (es: seq<Entry>)
    ensures forall i :: 0 <= i < |es| ==> es[i].Ordered()
  {
    if cs == [] then []
    else Entries(cs[..|cs| - 1]) + (match Kept(cs[|cs| - 1]) case None => [] case Some(e) => [e])
  }

  function Earliest(es: seq<Entry>): real
    requires es != []
  {
    if |es| == 1 then es[0].first
    else
      var rest, x := Earliest(es[..|es| - 1]), es[|es| - 1].first;
      if x < rest then x else rest
  }

  function Latest(es: seq<Entry>): real
    requires es != []
  {
    if |es| == 1 then es[0].last
    else
      var rest, x := Latest(es[..|es| - 1]), es[|es| - 1].last;
      if x > rest then x else rest
  }

  lemma {:induction false} Extremes(es: seq<Entry>)
    requires es != [] && forall i :: 0 <= i < |es| ==> es[i].Ordered()
    ensures forall i :: 0 <= i < |es| ==> Earliest(es) <= es[i].first && es[i].last <= Latest(es)
    ensures exists i :: 0 <= i < |es| && es[i].first == Earliest(es)
    ensures exists i :: 0 <= i < |es| && es[i].last == Latest(es)
    ensures Earliest(es) <= Latest(es)
  {
    if |es| == 1 {
      assert es[0].first == Earliest(es) && es[0].last == Latest(es);
    } else {
      var init, e := es[..|es| - 1], es[|es| - 1];
      assert e.Ordered();
      Extremes(init);
      forall i | 0 <= i < |es| ensures Earliest(es) <= es[i].first && es[i].last <= Latest(es) {
        if i < |init| {
          assert es[i] == init[i];
        }
      }
      var f :| 0 <= f < |init| && init[f].first == Earliest(init);
      var l :| 0 <= l < |init| && init[l].last == Latest(init);
      assert es[if e.first < Earliest(init) then |es| - 1 else f].first == Earliest(es);
      assert es[if e.last > Latest(init) then |es| - 1 else l].last == Latest(es);
    }
  }

  function Ceil(x: real): int { -((-x).Floor) }

  /** Python's `int` on a float drops the fraction, towards zero. */
  function Truncate(x: real): int { if x < 0.0 then Ceil(x) else x.Floor }

  /** Where the buckets lie: bucket `i` covers `step` seconds from `origin + i * step`. */
  datatype Grid = Grid(origin: real, step: int, size: int)
  {
    function At(i: int): real { origin + (i * step) as real }
    function Slot(t: real): int
      requires step > 0
    {
      ((t - origin) / step as real).Floor
    }
    predicate Covers(e: Entry)
      requires step > 0
    {
      0 <= Slot(e.first) <= Slot(e.last) < size
    }
  }

  function StepFor(span: real): int {
    if span > 0.0 then (if Ceil(span / 120.0) > 1 then Ceil(span / 120.0) else 1) else 1
  }

  function SizeFor(span: real): int {
    if span > 0.0 then Ceil(span / StepFor(span) as real) + 1 else 1
  }

  function GridOf(es: seq<Entry>): Grid
    requires es != []
  {
    var span := Latest(es) - Earliest(es);
    Grid(Earliest(es), StepFor(span), SizeFor(span))
  }

  // Division by the step and the floor of it, without division.
  lemma FloorOfQuotient(x: real, step: int, i: int)
    requires step > 0
    ensures (x / step as real).Floor == i <==> (i * step) as real <= x < ((i + 1) * step) as real
  {
    var s, q := step as real, x / step as real;
    assert q.Floor == i <==> i as real <= q && !(i as real + 1.0 <= q);
    QuotientAtLeast(x, s, i as real);
    QuotientAtLeast(x, s, i as real + 1.0);
    assert (i * step) as real == i as real * s && ((i + 1) * step) as real == (i as real + 1.0) * s;
  }

  lemma QuotientAtLeast(x: real, s: real, a: real)
    requires s > 0.0
    ensures a <= x / s <==> a * s <= x
  {
    Scale(a, x / s, s);
    assert x / s * s == x;
  }

  lemma Scale(a: real, b: real, s: real)
    requires s > 0.0
    ensures a <= b <==> a * s <= b * s
  {
    if a <= b {
      assert (b - a) * s >= 0.0;
    } else {
      assert (a - b) * s > 0.0;
    }
  }

  lemma QuotientMonotone(x: real, y: real, step: int)
    requires step > 0 && x <= y
    ensures (x / step as real).Floor <= (y / step as real).Floor
  {
    Scale(x / step as real, y / step as real, step as real);
  }

  lemma CeilBounds(x: real)
    ensures x <= Ceil(x) as real < x + 1.0
  {
  }

  lemma BoundedQuotient(span: real, step: int, limit: int)
    requires step > 0 && span <= (limit * step) as real
    ensures Ceil(span / step as real) <= limit
  {
    var s, q := step as real, span / step as real;
    assert q * s == span && (limit * step) as real == limit as real * s;
    Scale(q, limit as real, s);
    CeilBounds(q);
  }

  /** There are never more than 121 buckets, each at least one second long. */
  lemma SizeBound(es: seq<Entry>)
    requires es != [] && forall i :: 0 <= i < |es| ==> es[i].Ordered()
    ensures GridOf(es).step >= 1 && 1 <= GridOf(es).size <= 121
  {
    Extremes(es);
    var span := Latest(es) - Earliest(es);
    if span > 0.0 {
      var step := StepFor(span);
      CeilBounds(span / 120.0);
      assert span / 120.0 <= step as real;
      assert span <= (120 * step) as real;
      BoundedQuotient(span, step, 120);
      CeilBounds(span / step as real);
      assert span / step as real > 0.0;
    }
  }

  /** Every conversation falls inside the grid, so clamping its slots changes nothing. */
  lemma ClampsNeverFire(es: seq<Entry>, k: nat)
    requires k < |es| && forall i :: 0 <= i < |es| ==> es[i].Ordered()
    ensures GridOf(es).step > 0 && GridOf(es).Covers(es[k])
  {
    Extremes(es);
    SizeBound(es);
    var g, span := GridOf(es), Latest(es) - Earliest(es);
    var a, b := es[k].first - g.origin, es[k].last - g.origin;
    assert es[k].Ordered() && Earliest(es) <= es[k].first && es[k].last <= Latest(es);
    QuotientMonotone(0.0, a, g.step);
    QuotientMonotone(a, b, g.step);
    QuotientMonotone(b, span, g.step);
    CeilBounds(span / g.step as real);
    FloorOfQuotient(0.0, g.step, 0);
  }

  // ---- the meaning of the three arrays ----

  /** What one of `span` consecutive buckets gets of a total: equal shares, the remainder to the leading ones. */
  function Share(total: int, span: int, offset: int): int
    requires span > 0
  {
    total / span + (if offset < total % span then 1 else 0)
  }

  function Contribution(g: Grid, e: Entry, q: Quantity, i: int): int
    requires g.step > 0 && g.Slot(e.first) <= g.Slot(e.last)
  {
    var lo, hi := g.Slot(e.first), g.Slot(e.last);
    if lo <= i <= hi then Share(e.Amount(q), hi - lo + 1, i - lo) else 0
  }

  predicate Fits(g: Grid, es: seq<Entry>) {
    g.step > 0 && forall k :: 0 <= k < |es| ==> g.Covers(es[k])
  }

  function Load(g: Grid, es: seq<Entry>, q: Quantity, i: int): int
    requires Fits(g, es)
  {
    if es == [] then 0
    else Load(g, es[..|es| - 1], q, i) + Contribution(g, es[|es| - 1], q, i)
  }

  /** How many conversations are active at some moment of bucket `i`'s half-open time slot. */
  function Active(g: Grid, es: seq<Entry>, i: int): (n: int)
    ensures 0 <= n <= |es|
  {
    if es == [] then 0
    else Active(g, es[..|es| - 1], i) + (if es[|es| - 1].Meets(g.At(i), g.At(i + 1)) then 1 else 0)
  }

  function BucketAt(g: Grid, es: seq<Entry>, i: int): Bucket
    requires Fits(g, es)
  {
    Bucket(g.At(i), Load(g, es, Packets, i), Load(g, es, Bytes, i), Active(g, es, i))
  }

  /** The first `n` buckets, silent ones left out. */
  function Emitted(g: Grid, es: seq<Entry>, n: nat): seq<Bucket>
    requires Fits(g, es)
  {
    if n == 0 then []
    else
      var b := BucketAt(g, es, n - 1);
      Emitted(g, es, n - 1) + (if b.packets != 0 || b.bytes != 0 || b.conversations != 0 then [b] else [])
  }

  lemma FitsItsGrid(es: seq<Entry>)
    requires es != [] && forall i :: 0 <= i < |es| ==> es[i].Ordered()
    ensures Fits(GridOf(es), es) && GridOf(es).size >= 1
  {
    SizeBound(es);
    forall k | 0 <= k < |es| ensures GridOf(es).Covers(es[k]) {
      ClampsNeverFire(es, k);
    }
  }

  function TimelineOf(es: seq<Entry>): Timeline
    requires forall i :: 0 <= i < |es| ==> es[i].Ordered()
  {
    if es == [] then Timeline(None, None, 1, [])
    else
      var g := GridOf(es);
      FitsItsGrid(es);
      Timeline(Some(Earliest(es)), Some(Latest(es)), g.step, Emitted(g, es, g.size))
  }

  // ---- the computation ----

  method Compute(cs: seq<Conversation>) returns (t: Timeline)
    ensures t == TimelineOf(Entries(cs))
  {
    var es := [];
    for k := 0 to |cs|
      invariant es == Entries(cs[..k])
    {
      assert cs[..k + 1][..k] == cs[..k];
      var e := Kept(cs[k]);
      if e.Some? {
        es := es + [e.value];
      }
    }
    assert cs[..|cs|] == cs;
    if es == [] {
      return Timeline(None, None, 1, []);
    }
    var first, last := Bounds(es);
    var g := Grid(first, StepFor(last - first), SizeFor(last - first));
    FitsItsGrid(es);
    var buckets := Fill(g, es);
    t := Timeline(Some(first), Some(last), g.step, buckets);
  }

  method Bounds(es: seq<Entry>) returns (first: real, last: real)
    requires es != []
    ensures first == Earliest(es) && last == Latest(es)
  {
    first, last := es[0].first, es[0].last;
    assert es[..1] == [es[0]];
    for k := 1 to |es|
      invariant first == Earliest(es[..k]) && last == Latest(es[..k])
    {
      assert es[..k + 1][..k] == es[..k];
      if es[k].first < first {
        first := es[k].first;
      }
      if es[k].last > last {
        last := es[k].last;
      }
    }
    assert es[..|es|] == es;
  }

  method Fill(g: Grid, es: seq<Entry>) returns (buckets: seq<Bucket>)
    requires Fits(g, es) && g.size >= 1 && forall k :: 0 <= k < |es| ==> es[k].Ordered()
    ensures buckets == Emitted(g, es, g.size)
  {
    var packets, bytes, conversations := new int[g.size](_ => 0), new int[g.size](_ => 0), new int[g.size](_ => 0);
    for k := 0 to |es|
      invariant Filled(g, es[..k], packets[..], bytes[..], conversations[..])
    {
      assert es[..k + 1][..k] == es[..k];
      AddEntry(g, es[..k], es[k], packets, bytes, conversations);
      assert es[..k] + [es[k]] == es[..k + 1];
    }
    assert es[..|es|] == es;
    buckets := [];
    for i := 0 to g.size
      invariant buckets == Emitted(g, es, i)
    {
      assert packets[i] == packets[..][i] && bytes[i] == bytes[..][i] && conversations[i] == conversations[..][i];
      if packets[i] != 0 || bytes[i] != 0 || conversations[i] != 0 {
        buckets := buckets + [Bucket(g.At(i), packets[i], bytes[i], conversations[i])];
      }
    }
  }

  ghost predicate Filled(g: Grid, es: seq<Entry>, packets: seq<int>, bytes: seq<int>, conversations: seq<int>)
    requires Fits(g, es)
  {
    && |packets| == |bytes| == |conversations| == g.size
    && (forall i :: 0 <= i < g.size ==> packets[i] == Load(g, es, Packets, i))
    && (forall i :: 0 <= i < g.size ==> bytes[i] == Load(g, es, Bytes, i))
    && (forall i :: 0 <= i < g.size ==> conversations[i] == Active(g, es, i))
  }

  method AddEntry(g: Grid, ghost before: seq<Entry>, e: Entry,
                  packets: array<int>, bytes: array<int>, conversations: array<int>)
    requires Fits(g, before) && g.Covers(e) && e.Ordered()
    requires packets != bytes && packets != conversations && bytes != conversations
    requires Filled(g, before, packets[..], bytes[..], conversations[..])
    modifies packets, bytes, conversations
    ensures Fits(g, before + [e])
    ensures Filled(g, before + [e], packets[..], bytes[..], conversations[..])
  {
    var lo := Truncate((e.first - g.origin) / g.step as real);
    var hi := Truncate((e.last - g.origin) / g.step as real);
    TruncateIsSlot(g, e);
    var start, end := Clamp(lo, g.size - 1), Clamp(hi, g.size - 1);
    Spread(e, start, end, packets, bytes, conversations);
    assert (before + [e])[..|before|] == before;
    forall i | 0 <= i < g.size
      ensures conversations[i] == old(conversations[i]) + (if e.Meets(g.At(i), g.At(i + 1)) then 1 else 0)
    {
      SlotsAreMeetings(g, e, i);
    }
  }

  /** Spreads a conversation's packets and bytes over the buckets from `start` to `end`. */
  method Spread(e: Entry, start: int, end: int, packets: array<int>, bytes: array<int>, conversations: array<int>)
    requires packets != bytes && packets != conversations && bytes != conversations
    requires 0 <= start <= end < packets.Length == bytes.Length == conversations.Length
    modifies packets, bytes, conversations
    ensures forall i :: 0 <= i < packets.Length ==>
      packets[i] == old(packets[i]) + (if start <= i <= end then Share(e.packets, end - start + 1, i - start) else 0)
    ensures forall i :: 0 <= i < bytes.Length ==>
      bytes[i] == old(bytes[i]) + (if start <= i <= end then Share(e.bytes, end - start + 1, i - start) else 0)
    ensures forall i :: 0 <= i < conversations.Length ==>
      conversations[i] == old(conversations[i]) + (if start <= i <= end then 1 else 0)
  {
    var span := end - start + 1;
    for offset := 0 to span
      invariant forall i :: 0 <= i < packets.Length ==>
        packets[i] == old(packets[i]) + (if start <= i < start + offset then Share(e.packets, span, i - start) else 0)
      invariant forall i :: 0 <= i < bytes.Length ==>
        bytes[i] == old(bytes[i]) + (if start <= i < start + offset then Share(e.bytes, span, i - start) else 0)
      invariant forall i :: 0 <= i < conversations.Length ==>
        conversations[i] == old(conversations[i]) + (if start <= i < start + offset then 1 else 0)
    {
      var i := start + offset;
      conversations[i] := conversations[i] + 1;
      packets[i] := packets[i] + Share(e.packets, span, offset);
      bytes[i] := bytes[i] + Share(e.bytes, span, offset);
    }
  }

  function Clamp(x: int, top: int): int {
    var low := if x < top then x else top;
    if low > 0 then low else 0
  }

  lemma TruncateIsSlot(g: Grid, e: Entry)
    requires g.step > 0 && g.Covers(e)
    ensures Truncate((e.first - g.origin) / g.step as real) == g.Slot(e.first)
    ensures Truncate((e.last - g.origin) / g.step as real) == g.Slot(e.last)
  {
  }

  /** A conversation's slots are exactly the buckets whose half-open time interval it meets. */
  lemma SlotsAreMeetings(g: Grid, e: Entry, i: int)
    requires g.step > 0 && e.Ordered()
    ensures g.Slot(e.first) <= i <= g.Slot(e.last) <==> e.Meets(g.At(i), g.At(i + 1))
  {
    SlotBelow(g, e.first, i);
    SlotAbove(g, e.last, i);
  }

  lemma SlotBelow(g: Grid, t: real, i: int)
    requires g.step > 0
    ensures g.Slot(t) <= i <==> t < g.At(i + 1)
  {
    var j := g.Slot(t);
    FloorOfQuotient(t - g.origin, g.step, j);
    if j <= i {
      assert (j + 1) * g.step <= (i + 1) * g.step;
    } else {
      assert j * g.step >= (i + 1) * g.step;
    }
  }

  lemma SlotAbove(g: Grid, t: real, i: int)
    requires g.step > 0
    ensures i <= g.Slot(t) <==> g.At(i) <= t
  {
    SlotBelow(g, t, i - 1);
  }

  // ---- what the buckets promise ----

  function Total(bs: seq<Bucket>, q: Quantity): int {
    if bs == [] then 0 else Total(bs[..|bs| - 1], q) + bs[|bs| - 1].Amount(q)
  }

  function EntryTotal(es: seq<Entry>, q: Quantity): int {
    if es == [] then 0 else EntryTotal(es[..|es| - 1], q) + es[|es| - 1].Amount(q)
  }

  function Column(g: Grid, es: seq<Entry>, q: Quantity, n: nat): int
    requires Fits(g, es)
  {
    if n == 0 then 0 else Column(g, es, q, n - 1) + Load(g, es, q, n - 1)
  }

  function Row(g: Grid, e: Entry, q: Quantity, n: nat): int
    requires g.step > 0 && g.Slot(e.first) <= g.Slot(e.last)
  {
    if n == 0 then 0 else Row(g, e, q, n - 1) + Contribution(g, e, q, n - 1)
  }

  // The shares handed out so far, in closed form: `given` buckets served.
  function Handed(total: int, span: int, given: int): int
    requires span > 0
  {
    given * (total / span) + (if given < total % span then given else total % span)
  }

  lemma HandOne(total: int, span: int, given: int)
    requires span > 0
    ensures Handed(total, span, given + 1) == Handed(total, span, given) + Share(total, span, given)
  {
    var each := total / span;
    assert (given + 1) * each == given * each + each;
  }

  lemma {:induction false} RowSoFar(g: Grid, e: Entry, q: Quantity, n: nat)
    requires g.step > 0 && 0 <= g.Slot(e.first) <= g.Slot(e.last)
    ensures var lo, hi := g.Slot(e.first), g.Slot(e.last);
            Row(g, e, q, n) ==
                  Handed(e.Amount(q), hi - lo + 1, if n <= lo then 0 else if n <= hi then n - lo else hi + 1 - lo)
  {
    var lo, hi, total := g.Slot(e.first), g.Slot(e.last), e.Amount(q);
    if n == 0 {
      assert Handed(total, hi - lo + 1, 0) == 0;
    } else {
      RowSoFar(g, e, q, n - 1);
      if lo < n <= hi + 1 {
        HandOne(total, hi - lo + 1, n - 1 - lo);
      }
    }
  }

  lemma RowIsAmount(g: Grid, e: Entry, q: Quantity, n: nat)
    requires g.step > 0 && 0 <= g.Slot(e.first) <= g.Slot(e.last) < n
    ensures Row(g, e, q, n) == e.Amount(q)
  {
    RowSoFar(g, e, q, n);
    var span, total := g.Slot(e.last) - g.Slot(e.first) + 1, e.Amount(q);
    assert total == span * (total / span) + total % span;
  }

  lemma {:induction false} ColumnSplits(g: Grid, es: seq<Entry>, e: Entry, q: Quantity, n: nat)
    requires Fits(g, es) && Fits(g, es + [e]) && g.Covers(e)
    ensures Column(g, es + [e], q, n) == Column(g, es, q, n) + Row(g, e, q, n)
  {
    if n > 0 {
      ColumnSplits(g, es, e, q, n - 1);
      assert (es + [e])[..|es|] == es;
    }
  }

  lemma {:induction false} ColumnIsTotal(g: Grid, es: seq<Entry>, q: Quantity)
    requires Fits(g, es) && g.size >= 0
    ensures Column(g, es, q, g.size) == EntryTotal(es, q)
  {
    if es == [] {
      EmptyColumn(g, q, g.size);
    } else {
      var init, e := es[..|es| - 1], es[|es| - 1];
      assert es == init + [e];
      assert g.Covers(e);
      assert forall k :: 0 <= k < |init| ==> init[k] == es[k];
      ColumnIsTotal(g, init, q);
      ColumnSplits(g, init, e, q, g.size);
      RowIsAmount(g, e, q, g.size);
    }
  }

  lemma {:induction false} EmptyColumn(g: Grid, q: Quantity, n: nat)
    requires g.step > 0
    ensures Column(g, [], q, n) == 0
  {
    if n > 0 {
      EmptyColumn(g, q, n - 1);
    }
  }

  lemma {:induction false} EmittedTotal(g: Grid, es: seq<Entry>, q: Quantity, n: nat)
    requires Fits(g, es)
    ensures Total(Emitted(g, es, n), q) == Column(g, es, q, n)
  {
    if n > 0 {
      EmittedTotal(g, es, q, n - 1);
      var rest, b := Emitted(g, es, n - 1), BucketAt(g, es, n - 1);
      assert (rest + [b])[..|rest|] == rest;
      assert rest + [] == rest;
    }
  }

  /** Conservation: the emitted buckets' packets and bytes add up exactly to those of the kept conversations. */
  lemma Conservation(es: seq<Entry>, q: Quantity)
    requires forall i :: 0 <= i < |es| ==> es[i].Ordered()
    ensures Total(TimelineOf(es).buckets, q) == EntryTotal(es, q)
  {
    if es != [] {
      var g := GridOf(es);
      FitsItsGrid(es);
      EmittedTotal(g, es, q, g.size);
      ColumnIsTotal(g, es, q);
    }
  }

  // A bucket no conversation meets carries nothing.
  lemma {:induction false} SilentWhenIdle(g: Grid, es: seq<Entry>, q: Quantity, i: int)
    requires Fits(g, es) && forall k :: 0 <= k < |es| ==> es[k].Ordered()
    requires Active(g, es, i) == 0
    ensures Load(g, es, q, i) == 0
  {
    if es != [] {
      var init, e := es[..|es| - 1], es[|es| - 1];
      assert e.Ordered() && g.Covers(e);
      assert forall k :: 0 <= k < |init| ==> init[k] == es[k];
      SilentWhenIdle(g, init, q, i);
      SlotsAreMeetings(g, e, i);
    }
  }

  lemma {:induction false} SomeoneActive(g: Grid, es: seq<Entry>, i: int) returns (k: nat)
    requires Active(g, es, i) > 0
    ensures k < |es| && es[k].Meets(g.At(i), g.At(i + 1))
  {
    if es[|es| - 1].Meets(g.At(i), g.At(i + 1)) {
      k := |es| - 1;
    } else {
      k := SomeoneActive(g, es[..|es| - 1], i);
    }
  }

  lemma {:induction false} EmittedMembers(g: Grid, es: seq<Entry>, n: nat, b: Bucket)
    requires Fits(g, es) && forall k :: 0 <= k < |es| ==> es[k].Ordered()
    ensures b in Emitted(g, es, n) <==> exists i :: 0 <= i < n && Active(g, es, i) > 0 && b == BucketAt(g, es, i)
  {
    if n > 0 {
      EmittedMembers(g, es, n - 1, b);
      if Active(g, es, n - 1) == 0 {
        SilentWhenIdle(g, es, Packets, n - 1);
        SilentWhenIdle(g, es, Bytes, n - 1);
      }
    }
  }

  // An active bucket's time lies between the first and the last moment seen.
  lemma ActiveTime(es: seq<Entry>, i: int)
    requires es != [] && forall k :: 0 <= k < |es| ==> es[k].Ordered()
    requires var g := GridOf(es); Fits(g, es) && 0 <= i < g.size && Active(g, es, i) > 0
    ensures Earliest(es) <= GridOf(es).At(i) <= Latest(es)
  {
    var g := GridOf(es);
    var k := SomeoneActive(g, es, i);
    Extremes(es);
    assert i * g.step >= 0;
  }

  lemma TimeOfBucket(g: Grid, es: seq<Entry>, i: int)
    requires Fits(g, es)
    ensures BucketAt(g, es, i).time == g.At(i)
  {
  }

  /** Every emitted bucket's time lies between the first and the last moment seen. */
  lemma EmittedWithin(es: seq<Entry>, b: Bucket)
    requires es != [] && forall k :: 0 <= k < |es| ==> es[k].Ordered()
    requires b in TimelineOf(es).buckets
    ensures Earliest(es) <= b.time <= Latest(es)
  {
    var g := GridOf(es);
    FitsItsGrid(es);
    EmittedMembers(g, es, g.size, b);
    var i :| 0 <= i < g.size && Active(g, es, i) > 0 && b == BucketAt(g, es, i);
    ActiveTime(es, i);
    TimeOfBucket(g, es, i);
  }

  ghost predicate HasBucket(g: Grid, es: seq<Entry>, b: Bucket)
    requires Fits(g, es)
  {
    exists i :: 0 <= i < g.size && Active(g, es, i) > 0 && b == BucketAt(g, es, i)
  }

  /** A bucket is emitted exactly when some conversation meets its half-open time slot, and it counts those that do. */
  lemma EmittedExactly(es: seq<Entry>, b: Bucket)
    requires es != [] && forall k :: 0 <= k < |es| ==> es[k].Ordered()
    ensures Fits(GridOf(es), es) && (b in TimelineOf(es).buckets <==> HasBucket(GridOf(es), es, b))
  {
    var g := GridOf(es);
    FitsItsGrid(es);
    EmittedMembers(g, es, g.size, b);
  }

  // ---- the timeline of the conversations themselves ----

  /** The conversation has a start, and so is shown. */
  predicate Shown(c: Conversation) { c.first.Some? }

  /** When it ends: at its start, if no later end is given. */
  function EndOf(c: Conversation): real
    requires Shown(c)
  {
    if c.last.Some? && c.first.value <= c.last.value then c.last.value else c.first.value
  }

  function PacketsIn(cs: seq<Conversation>): int {
    if cs == [] then 0 else PacketsIn(cs[..|cs| - 1]) + (if Shown(cs[|cs| - 1]) then cs[|cs| - 1].packets else 0)
  }

  function BytesIn(cs: seq<Conversation>): int {
    if cs == [] then 0 else BytesIn(cs[..|cs| - 1]) + (if Shown(cs[|cs| - 1]) then cs[|cs| - 1].bytes else 0)
  }

  /** How many conversations are active at some moment from `lo`, and before `hi`. */
  function ActiveIn(cs: seq<Conversation>, lo: real, hi: real): nat {
    if cs == [] then 0
    else
      var c := cs[|cs| - 1];
      ActiveIn(cs[..|cs| - 1], lo, hi) + (if Shown(c) && c.first.value < hi && lo <= EndOf(c) then 1 else 0)
  }

  function EntryFor(c: Conversation): Entry
    requires Shown(c)
  {
    Entry(c.first.value, EndOf(c), c.packets, c.bytes)
  }

  lemma EntriesNext(cs: seq<Conversation>)
    requires cs != []
    ensures var init, c := cs[..|cs| - 1], cs[|cs| - 1];
            Entries(cs) == if Shown(c) then Entries(init) + [EntryFor(c)] else Entries(init)
  {
  }

  lemma TotalSnoc(es: seq<Entry>, e: Entry, q: Quantity)
    ensures EntryTotal(es + [e], q) == EntryTotal(es, q) + e.Amount(q)
  {
    assert (es + [e])[..|es|] == es;
  }

  lemma ActiveSnoc(g: Grid, es: seq<Entry>, e: Entry, i: int)
    ensures Active(g, es + [e], i) == Active(g, es, i) + (if e.Meets(g.At(i), g.At(i + 1)) then 1 else 0)
  {
    assert (es + [e])[..|es|] == es;
  }

  lemma {:induction false} TotalsSay(cs: seq<Conversation>)
    ensures EntryTotal(Entries(cs), Packets) == PacketsIn(cs) && EntryTotal(Entries(cs), Bytes) == BytesIn(cs)
  {
    if cs != [] {
      var init, c := cs[..|cs| - 1], cs[|cs| - 1];
      TotalsSay(init);
      EntriesNext(cs);
      hide Entries, EntryTotal;
      if Shown(c) {
        TotalSnoc(Entries(init), EntryFor(c), Packets);
        TotalSnoc(Entries(init), EntryFor(c), Bytes);
      }
    }
  }

  lemma {:induction false} ActiveSays(cs: seq<Conversation>, g: Grid, i: int)
    ensures Active(g, Entries(cs), i) == ActiveIn(cs, g.At(i), g.At(i + 1))
  {
    if cs != [] {
      var init, c := cs[..|cs| - 1], cs[|cs| - 1];
      ActiveSays(init, g, i);
      EntriesNext(cs);
      hide Entries, Active;
      if Shown(c) {
        ActiveSnoc(g, Entries(init), EntryFor(c), i);
      }
    }
  }

  lemma {:induction false} EntriesSay(cs: seq<Conversation>, e: Entry)
    ensures e in Entries(cs) <==> exists i :: 0 <= i < |cs| && Shown(cs[i]) && EntryFor(cs[i]) == e
  {
    if cs != [] {
      var init, c := cs[..|cs| - 1], cs[|cs| - 1];
      EntriesSay(init, e);
      EntriesNext(cs);
      hide Entries;
      if i :| 0 <= i < |init| && Shown(init[i]) && EntryFor(init[i]) == e {
        assert cs[i] == init[i];
      }
      assert cs == init + [c];
    }
  }

  ghost predicate Least(cs: seq<Conversation>, first: real) {
    && (exists i :: 0 <= i < |cs| && Shown(cs[i]) && cs[i].first.value == first)
    && forall i :: 0 <= i < |cs| && Shown(cs[i]) ==> first <= cs[i].first.value
  }

  ghost predicate Greatest(cs: seq<Conversation>, last: real) {
    && (exists i :: 0 <= i < |cs| && Shown(cs[i]) && EndOf(cs[i]) == last)
    && forall i :: 0 <= i < |cs| && Shown(cs[i]) ==> EndOf(cs[i]) <= last
  }

  lemma SpanSays(cs: seq<Conversation>)
    requires Entries(cs) != []
    ensures Least(cs, Earliest(Entries(cs))) && Greatest(cs, Latest(Entries(cs)))
  {
    var es := Entries(cs);
    Extremes(es);
    hide Earliest, Latest, Entries;
    forall i | 0 <= i < |cs| && Shown(cs[i]) ensures Earliest(es) <= cs[i].first.value && EndOf(cs[i]) <= Latest(es) {
      EntriesSay(cs, EntryFor(cs[i]));
    }
    var f :| 0 <= f < |es| && es[f].first == Earliest(es);
    EntriesSay(cs, es[f]);
    var l :| 0 <= l < |es| && es[l].last == Latest(es);
    EntriesSay(cs, es[l]);
  }

  lemma NoneShown(cs: seq<Conversation>)
    ensures Entries(cs) == [] <==> forall i :: 0 <= i < |cs| ==> !Shown(cs[i])
  {
    hide Entries;
    forall i | 0 <= i < |cs| && Shown(cs[i]) ensures Entries(cs) != [] {
      EntriesSay(cs, EntryFor(cs[i]));
    }
    if Entries(cs) != [] {
      EntriesSay(cs, Entries(cs)[0]);
    }
  }

  /** What is shown of the conversations: the least start and the greatest end; all packets and bytes, in the buckets;
      and in each bucket as many conversations as are active in its interval, at least one. */
  ghost predicate Shows(t: Timeline, cs: seq<Conversation>) {
    && t.first.Some? && t.last.Some? && Least(cs, t.first.value) && Greatest(cs, t.last.value)
    && Total(t.buckets, Packets) == PacketsIn(cs) && Total(t.buckets, Bytes) == BytesIn(cs)
    && forall b :: b in t.buckets ==>
          b.conversations > 0 && b.conversations == ActiveIn(cs, b.time, b.time + t.bucketSeconds as real)
  }

  /** The timeline of any conversations; those without a start are not in it. */
  lemma TimelineExact(cs: seq<Conversation>)
    ensures var t := TimelineOf(Entries(cs));
            if forall i :: 0 <= i < |cs| ==> !Shown(cs[i]) then t == Timeline(None, None, 1, []) else Shows(t, cs)
  {
    hide Shows, Entries;
    NoneShown(cs);
    if Entries(cs) != [] {
      hide TimelineOf;
      SomeShown(cs);
    }
  }

  lemma SomeShown(cs: seq<Conversation>)
    requires Entries(cs) != []
    ensures Shows(TimelineOf(Entries(cs)), cs)
  {
    hide TimelineOf, Entries, Least, Greatest, ActiveIn, Total, EntryTotal, PacketsIn, BytesIn;
    hide Earliest, Latest, GridOf;
    var es := Entries(cs);
    SpanSays(cs);
    SpanOf(es);
    Conservation(es, Packets);
    Conservation(es, Bytes);
    TotalsSay(cs);
    BucketsSay(cs);
  }

  lemma BucketsSay(cs: seq<Conversation>)
    requires Entries(cs) != []
    ensures var t := TimelineOf(Entries(cs));
            forall b :: b in t.buckets ==>
              b.conversations > 0 && b.conversations == ActiveIn(cs, b.time, b.time + t.bucketSeconds as real)
  {
    hide TimelineOf, ActiveIn, Entries;
    var t := TimelineOf(Entries(cs));
    forall b | b in t.buckets
      ensures b.conversations > 0 && b.conversations == ActiveIn(cs, b.time, b.time + t.bucketSeconds as real)
    {
      BucketSays(cs, b);
    }
  }

  lemma SpanOf(es: seq<Entry>)
    requires es != [] && forall i :: 0 <= i < |es| ==> es[i].Ordered()
    ensures TimelineOf(es).first == Some(Earliest(es)) && TimelineOf(es).last == Some(Latest(es))
    ensures TimelineOf(es).bucketSeconds == GridOf(es).step
  {
  }

  lemma BucketSays(cs: seq<Conversation>, b: Bucket)
    requires Entries(cs) != [] && b in TimelineOf(Entries(cs)).buckets
    ensures b.conversations > 0
    ensures b.conversations == ActiveIn(cs, b.time, b.time + TimelineOf(Entries(cs)).bucketSeconds as real)
  {
    hide TimelineOf, GridOf, ActiveIn, Active, Entries, BucketAt, Fits;
    var es := Entries(cs);
    SpanOf(es);
    var i := BucketOf(es, b);
    BucketActive(cs, GridOf(es), i);
  }

  lemma BucketOf(es: seq<Entry>, b: Bucket) returns (i: int)
    requires es != [] && (forall k :: 0 <= k < |es| ==> es[k].Ordered()) && b in TimelineOf(es).buckets
    ensures Fits(GridOf(es), es) && Active(GridOf(es), es, i) > 0 && b == BucketAt(GridOf(es), es, i)
  {
    hide TimelineOf, GridOf, Active, BucketAt, Fits;
    EmittedExactly(es, b);
    var g := GridOf(es);
    i :| 0 <= i < g.size && Active(g, es, i) > 0 && b == BucketAt(g, es, i);
  }

  lemma BucketActive(cs: seq<Conversation>, g: Grid, i: int)
    requires Fits(g, Entries(cs))
    ensures var b := BucketAt(g, Entries(cs), i);
            && b.conversations == Active(g, Entries(cs), i)
            && b.conversations == ActiveIn(cs, b.time, b.time + g.step as real)
  {
    hide ActiveIn, Active, Entries, Fits;
    ActiveSays(cs, g, i);
    NextAt(g, i);
  }

  lemma NextAt(g: Grid, i: int)
    ensures g.At(i + 1) == g.At(i) + g.step as real
  {
    assert (i + 1) * g.step == i * g.step + g.step;
  }

  /** A bucket is as many whole seconds long as it takes, and no more, to cover the span by 120 of them. */
  lemma StepLeast(es: seq<Entry>, s: int)
    requires es != [] && forall i :: 0 <= i < |es| ==> es[i].Ordered()
    ensures GridOf(es).step <= s <==> s >= 1 && Latest(es) - Earliest(es) <= (120 * s) as real
  {
    Extremes(es);
    var span := Latest(es) - Earliest(es);
    CeilBounds(span / 120.0);
    assert span / 120.0 * 120.0 == span;
    if s >= 1 {
      assert span <= (120 * s) as real <==> span / 120.0 <= s as real;
    }
  }

  /** The shares of one total differ by at most one, the larger ones first. */
  lemma SharesEven(total: int, span: int, i: int, j: int)
    requires 0 <= i <= j < span
    ensures Share(total, span, j) <= Share(total, span, i) <= Share(total, span, j) + 1
    ensures Handed(total, span, span) == total
  {
    assert total == span * (total / span) + total % span;
  }
}
