/**
 The timeline cache: at most 32 results keyed by path and modification time, the oldest insertion
 evicted first. A hit does not move its key, so the order is first in, first out; when that holds the
 entries a least-recently-used cache would is stated exactly.
 */
module TimelineCache {
  import opened Wrappers
  import opened Timeline

  const CAPACITY := 32

  datatype Key = Key(path: string, modified: real)

  /** `modified` is None when the file cannot be examined; the key then carries time zero. */
  datatype Request = Request(path: string, modified: Option<real>, conversations: seq<Conversation>)
  {
    function CacheKey(): Key { Key(path, if modified == None then 0.0 else modified.value) }
    function Fresh(): Timeline { TimelineOf(Entries(conversations)) }
  }

  /** The dictionary's keys in insertion order, and what they map to. */
  datatype State = State(order: seq<Key>, results: map<Key, Timeline>)
  {
    ghost predicate Valid() {
      && |order| <= CAPACITY
      && (forall i, j :: 0 <= i < j < |order| ==> order[i] != order[j])
      && (forall k :: k in results <==> k in order)
    }
  }

  const EMPTY := State([], map[])

  function Answer(s: State, r: Request): Timeline {
    if r.CacheKey() in s.results then s.results[r.CacheKey()] else r.Fresh()
  }

  function After(s: State, r: Request): State {
    var key := r.CacheKey();
    if key in s.results then s
    else if |s.order| >= CAPACITY then
      State(s.order[1..] + [key], (s.results - {s.order[0]})[key := r.Fresh()])
    else State(s.order + [key], s.results[key := r.Fresh()])
  }

  class Cache {
    var order: seq<Key>
    var results: map<Key, Timeline>

    function Model(): State
      reads this
    {
      State(order, results)
    }

    constructor ()
      ensures Model() == EMPTY
    {
      order, results := [], map[];
    }

    method Get(r: Request) returns (t: Timeline)
      requires Model().Valid()
      modifies this
      ensures t == Answer(old(Model()), r)
      ensures Model() == After(old(Model()), r) && Model().Valid()
    {
      var key := r.CacheKey();
      if key in results {
        return results[key];
      }
      AfterValid(Model(), r);
      t := Compute(r.conversations);
      if |order| >= CAPACITY {
        var oldest := order[0];
        order, results := order[1..], results - {oldest};
      }
      order, results := order + [key], results[key := t];
    }
  }

  lemma AfterValid(s: State, r: Request)
    requires s.Valid()
    ensures After(s, r).Valid()
  {
    var s', key := After(s, r), r.CacheKey();
    if key !in s.results {
      var kept := if |s.order| >= CAPACITY then s.order[1..] else s.order;
      assert key !in s.order;
      assert s'.order == kept + [key];
      forall k ensures k in s'.results <==> k in s'.order {
        if |s.order| >= CAPACITY {
          assert s.order == [s.order[0]] + kept;
          assert k in s.order <==> k == s.order[0] || k in kept;
        }
      }
    }
  }

  function Run(s: State, rs: seq<Request>): State {
    if rs == [] then s else After(Run(s, rs[..|rs| - 1]), rs[|rs| - 1])
  }

  /** After any run of requests the cache is bounded and holds only timelines that some request of that key computed. */
  lemma {:induction false} RunInvariant(rs: seq<Request>, key: Key)
    ensures Run(EMPTY, rs).Valid() && |Run(EMPTY, rs).order| <= 32
    ensures key in Run(EMPTY, rs).results ==>
              exists i :: 0 <= i < |rs| && rs[i].CacheKey() == key && Run(EMPTY, rs).results[key] == rs[i].Fresh()
  {
    if rs != [] {
      var init, r := rs[..|rs| - 1], rs[|rs| - 1];
      RunInvariant(init, key);
      AfterValid(Run(EMPTY, init), r);
      if key in Run(EMPTY, init).results {
        var i :| 0 <= i < |init| && init[i].CacheKey() == key && Run(EMPTY, init).results[key] == init[i].Fresh();
        assert rs[i] == init[i];
      }
      assert rs[|rs| - 1] == r;
    }
  }

  /** So while a report's conversations do not change under one path and modification time, every answer is fresh. */
  lemma AnswersAreFresh(rs: seq<Request>, r: Request)
    requires forall i :: 0 <= i < |rs| && rs[i].CacheKey() == r.CacheKey() ==> rs[i].conversations == r.conversations
    ensures Answer(Run(EMPTY, rs), r) == r.Fresh()
  {
    RunInvariant(rs, r.CacheKey());
  }

  // ---- least recently used, which it is said to be ----

  function Moved(order: seq<Key>, key: Key): seq<Key> {
    if order == [] then []
    else if order[0] == key then order[1..] + [key]
    else [order[0]] + Moved(order[1..], key)
  }

  /** A cache that evicts the key used longest ago: a hit moves its key to the end. */
  function AfterLru(s: State, r: Request): State {
    if r.CacheKey() in s.results then s.(order := Moved(s.order, r.CacheKey())) else After(s, r)
  }

  function RunLru(s: State, rs: seq<Request>): State {
    if rs == [] then s else AfterLru(RunLru(s, rs[..|rs| - 1]), rs[|rs| - 1])
  }

  /** The request does not find an entry, or finds the newest one. */
  predicate HitsNewest(s: State, r: Request) {
    r.CacheKey() in s.results ==> s.order != [] && s.order[|s.order| - 1] == r.CacheKey()
  }

  lemma {:induction false} MovedShape(order: seq<Key>, key: Key) returns (j: nat)
    requires key in order
    ensures j < |order| && order[j] == key && Moved(order, key) == order[..j] + order[j + 1..] + [key]
  {
    if order[0] == key {
      j := 0;
    } else {
      var rest := order[1..];
      j := MovedShape(rest, key);
      var moved := Moved(rest, key);
      assert Moved(order, key) == [order[0]] + moved;
      hide Moved;
      OneInFront(order, j);
      assert [order[0]] + (rest[..j] + rest[j + 1..] + [key]) == [order[0]] + rest[..j] + rest[j + 1..] + [key];
      j := j + 1;
    }
  }

  lemma OneInFront(order: seq<Key>, j: nat)
    requires j < |order| - 1
    ensures order[..j + 1] == [order[0]] + order[1..][..j] && order[j + 2..] == order[1..][j + 1..]
  {
  }

  lemma MovedSame(order: seq<Key>, key: Key)
    requires key in order && forall i, j :: 0 <= i < j < |order| ==> order[i] != order[j]
    ensures Moved(order, key) == order <==> order[|order| - 1] == key
  {
    hide Moved;
    var j := MovedShape(order, key);
    if j < |order| - 1 {
      assert Moved(order, key)[j] == order[j + 1] != order[j];
    } else {
      assert order[..j] + [] + [key] == order;
    }
  }

  lemma HitStates(s: State, r: Request)
    requires r.CacheKey() in s.results
    ensures After(s, r) == s && AfterLru(s, r) == s.(order := Moved(s.order, r.CacheKey()))
  {
  }

  lemma MissStates(s: State, r: Request)
    requires r.CacheKey() !in s.results
    ensures AfterLru(s, r) == After(s, r)
  {
  }

  lemma HitKey(s: State, key: Key)
    requires s.Valid() && key in s.results
    ensures key in s.order && (forall i, j :: 0 <= i < j < |s.order| ==> s.order[i] != s.order[j])
    ensures Moved(s.order, key) == s.order <==> s.order[|s.order| - 1] == key
  {
    MovedSame(s.order, key);
  }

  /** One request leaves both policies in the same state exactly when it misses or hits the newest entry. */
  lemma StepIsLru(s: State, r: Request)
    requires s.Valid()
    ensures After(s, r) == AfterLru(s, r) <==> HitsNewest(s, r)
  {
    hide After, AfterLru, Moved;
    if r.CacheKey() in s.results {
      HitStates(s, r);
      HitKey(s, r.CacheKey());
      SameState(s, Moved(s.order, r.CacheKey()));
    } else {
      MissStates(s, r);
    }
  }

  lemma SameState(s: State, order: seq<Key>)
    ensures s == s.(order := order) <==> order == s.order
  {
  }

  // ---- when the two policies hold the same entries ----

  /** When a key was last requested, -1 if never. */
  function LastUse(rs: seq<Request>, key: Key): int {
    if rs == [] then -1
    else if rs[|rs| - 1].CacheKey() == key then |rs| - 1
    else LastUse(rs[..|rs| - 1], key)
  }

  /** After every request so far both policies hold the same entries. */
  predicate HoldAlike(rs: seq<Request>) {
    Run(EMPTY, rs).results == RunLru(EMPTY, rs).results && (rs == [] || HoldAlike(rs[..|rs| - 1]))
  }

  /** The oldest entry was last requested before every other entry was. */
  predicate OldestUsedFirst(rs: seq<Request>, s: State) {
    forall k :: k in s.results && s.order != [] && k != s.order[0] ==> LastUse(rs, s.order[0]) < LastUse(rs, k)
  }

  predicate Evicts(s: State, r: Request) {
    |s.order| >= CAPACITY && r.CacheKey() !in s.results
  }

  /** Whenever an entry is evicted, it is the one requested longest ago. */
  predicate EvictsUnused(rs: seq<Request>) {
    rs == [] ||
      var init := rs[..|rs| - 1];
      EvictsUnused(init) && (Evicts(Run(EMPTY, init), rs[|rs| - 1]) ==> OldestUsedFirst(init, Run(EMPTY, init)))
  }

  lemma {:induction false} UseBounded(rs: seq<Request>, key: Key)
    ensures -1 <= LastUse(rs, key) < |rs|
  {
    if rs != [] {
      UseBounded(rs[..|rs| - 1], key);
    }
  }

  /** Keys in the order of their last requests. */
  predicate ByUse(rs: seq<Request>, order: seq<Key>) {
    forall i, j :: 0 <= i < j < |order| ==> LastUse(rs, order[i]) < LastUse(rs, order[j])
  }

  lemma UsedNow(init: seq<Request>, r: Request, kept: seq<Key>)
    requires ByUse(init, kept) && r.CacheKey() !in kept
    ensures ByUse(init + [r], kept + [r.CacheKey()])
  {
    var rs, order := init + [r], kept + [r.CacheKey()];
    assert rs[..|rs| - 1] == init;
    forall i, j | 0 <= i < j < |order| ensures LastUse(rs, order[i]) < LastUse(rs, order[j]) {
      assert order[i] == kept[i];
      UseBounded(init, order[i]);
      if j < |kept| {
        assert order[j] == kept[j];
      }
    }
  }

  // Taking one key out of a list keeps the order of the others.
  lemma WithoutOne(rs: seq<Request>, order: seq<Key>, j: nat)
    requires ByUse(rs, order) && j < |order|
    ensures var kept := order[..j] + order[j + 1..];
            && ByUse(rs, kept) && order[j] !in kept && |kept| == |order| - 1
            && forall k :: k in order <==> k in kept + [order[j]]
  {
    var kept := order[..j] + order[j + 1..];
    forall a | 0 <= a < |kept| ensures kept[a] == order[if a < j then a else a + 1] {
    }
    assert order == order[..j] + [order[j]] + order[j + 1..];
  }

  lemma HitOrder(s: State, rs: seq<Request>, r: Request)
    requires s.Valid() && ByUse(rs, s.order) && r.CacheKey() in s.results
    ensures AfterLru(s, r).Valid() && ByUse(rs + [r], AfterLru(s, r).order)
  {
    var order, key := s.order, r.CacheKey();
    var j := MovedShape(order, key);
    var kept := order[..j] + order[j + 1..];
    HitStates(s, r);
    hide AfterLru, After, Moved;
    WithoutOne(rs, order, j);
    UsedNow(rs, r, kept);
    ByUseDistinct(rs + [r], kept + [key]);
  }

  lemma ByUseDistinct(rs: seq<Request>, order: seq<Key>)
    requires ByUse(rs, order)
    ensures forall i, j :: 0 <= i < j < |order| ==> order[i] != order[j]
  {
  }

  lemma MissOrder(s: State, rs: seq<Request>, r: Request)
    requires s.Valid() && ByUse(rs, s.order) && r.CacheKey() !in s.results
    ensures AfterLru(s, r).Valid() && ByUse(rs + [r], AfterLru(s, r).order)
  {
    AfterValid(s, r);
    var kept := if |s.order| >= CAPACITY then s.order[1..] else s.order;
    UsedNow(rs, r, kept);
  }

  /** The other policy does keep its entries in the order of their last requests. */
  lemma {:induction false} LruOrdered(rs: seq<Request>)
    ensures RunLru(EMPTY, rs).Valid() && ByUse(rs, RunLru(EMPTY, rs).order)
  {
    if rs != [] {
      var init, r := rs[..|rs| - 1], rs[|rs| - 1];
      LruOrdered(init);
      assert rs == init + [r];
      if r.CacheKey() in RunLru(EMPTY, init).results {
        HitOrder(RunLru(EMPTY, init), init, r);
      } else {
        MissOrder(RunLru(EMPTY, init), init, r);
      }
    }
  }

  lemma {:induction false} OrderSize(order: seq<Key>, keys: set<Key>)
    requires forall i, j :: 0 <= i < j < |order| ==> order[i] != order[j]
    requires forall k :: k in keys <==> k in order
    ensures |order| == |keys|
  {
    if order == [] {
      assert keys == {};
    } else {
      var init, last := order[..|order| - 1], order[|order| - 1];
      assert order == init + [last];
      OrderSize(init, keys - {last});
    }
  }

  // The front of a list in the order of use is the one key used before all others.
  lemma FrontUsedFirst(rs: seq<Request>, s: State, lru: State)
    requires s.Valid() && lru.Valid() && ByUse(rs, lru.order) && s.results == lru.results
    requires s.order != [] && lru.order != []
    ensures OldestUsedFirst(rs, s) <==> s.order[0] == lru.order[0]
  {
    assert s.order[0] in lru.order && lru.order[0] in s.results;
    forall k | k in s.results && k != lru.order[0] ensures LastUse(rs, lru.order[0]) < LastUse(rs, k) {
      var j :| 0 <= j < |lru.order| && lru.order[j] == k;
    }
  }

  // From the same entries, a request leaves the same entries unless it evicts another one.
  lemma StepAlike(rs: seq<Request>, s: State, lru: State, r: Request)
    requires s.Valid() && lru.Valid() && ByUse(rs, lru.order) && s.results == lru.results
    ensures After(s, r).results == AfterLru(lru, r).results <==> (Evicts(s, r) ==> OldestUsedFirst(rs, s))
  {
    OrderSize(s.order, s.results.Keys);
    OrderSize(lru.order, lru.results.Keys);
    if Evicts(s, r) {
      FrontUsedFirst(rs, s, lru);
      var a, b, key := s.order[0], lru.order[0], r.CacheKey();
      assert After(s, r).results == (s.results - {a})[key := r.Fresh()];
      assert AfterLru(lru, r).results == (s.results - {b})[key := r.Fresh()];
      assert a in s.results && b in s.results && a != key && b != key;
      assert a != b ==> b in After(s, r).results && b !in AfterLru(lru, r).results;
    }
  }

  /**
   Over a run the cache and a least-recently-used one hold the same entries throughout, and so give the same
   answers, exactly when every entry evicted was the one requested longest ago.
   */
  lemma {:induction false} RunIsLru(rs: seq<Request>)
    ensures HoldAlike(rs) <==> EvictsUnused(rs)
    ensures HoldAlike(rs) ==> forall r :: Answer(Run(EMPTY, rs), r) == Answer(RunLru(EMPTY, rs), r)
  {
    hide After, AfterLru, Answer, OldestUsedFirst, Evicts;
    if rs != [] {
      var init, r := rs[..|rs| - 1], rs[|rs| - 1];
      RunIsLru(init);
      RunInvariant(init, r.CacheKey());
      LruOrdered(init);
      if HoldAlike(init) {
        StepAlike(init, Run(EMPTY, init), RunLru(EMPTY, init), r);
      }
    }
    SameAnswers(Run(EMPTY, rs), RunLru(EMPTY, rs));
  }

  lemma SameAnswers(s: State, t: State)
    ensures s.results == t.results ==> forall r :: Answer(s, r) == Answer(t, r)
  {
  }

  /** The failing case: in a full cache a hit on the oldest entry, then a miss, evicts the key just used; the
      least-recently-used policy keeps it. */
  lemma EvictsJustUsed(s: State, hit: Request, miss: Request)
    requires s.Valid() && |s.order| == 32
    requires hit.CacheKey() == s.order[0] && miss.CacheKey() !in s.results
    ensures hit.CacheKey() !in After(After(s, hit), miss).results
    ensures hit.CacheKey() in AfterLru(AfterLru(s, hit), miss).results
  {
    var moved := AfterLru(s, hit);
    assert moved.order == s.order[1..] + [s.order[0]];
    assert moved.order[0] == s.order[1] != s.order[0];
    assert hit.CacheKey() in moved.results && miss.CacheKey() !in moved.results;
    assert AfterLru(moved, miss).results == (moved.results - {moved.order[0]})[miss.CacheKey() := miss.Fresh()];
  }

  function Name(n: nat): string {
    seq(n + 1, _ => 'x')
  }

  /** Such a full cache is reached: by 32 requests under different paths. */
  function Fill(n: nat): seq<Request> {
    seq(n, i requires 0 <= i < n => Request(Name(i), None, []))
  }

  lemma {:induction false} FillFills(n: nat)
    requires n <= 32
    ensures var s := Run(EMPTY, Fill(n));
            && |s.order| == n && RunLru(EMPTY, Fill(n)) == s
            && forall i :: 0 <= i < n ==> s.order[i] == Fill(n)[i].CacheKey()
  {
    if n > 0 {
      var rs := Fill(n);
      assert rs[..n - 1] == Fill(n - 1);
      FillFills(n - 1);
      var s, r := Run(EMPTY, Fill(n - 1)), rs[n - 1];
      RunInvariant(Fill(n - 1), r.CacheKey());
      forall i | 0 <= i < n - 1 ensures s.order[i] != r.CacheKey() {
        assert |s.order[i].path| == i + 1 && |r.CacheKey().path| == n;
      }
      AfterMiss(s, r);
    }
  }

  lemma AfterMiss(s: State, r: Request)
    requires s.Valid() && |s.order| < 32 && forall i :: 0 <= i < |s.order| ==> s.order[i] != r.CacheKey()
    ensures After(s, r).order == s.order + [r.CacheKey()]
  {
    assert r.CacheKey() !in s.results;
  }

  /** So after those, using the first again does not save it from the next new path, as it should. */
  lemma NotLeastRecentlyUsed(miss: Request)
    requires |miss.path| > 32
    ensures var rs := Fill(32) + [Fill(32)[0]] + [miss];
            var key := Fill(32)[0].CacheKey();
            key !in Run(EMPTY, rs).results && key in RunLru(EMPTY, rs).results && !EvictsUnused(rs)
  {
    var fill, hit := Fill(32), Fill(32)[0];
    FillFills(32);
    RunInvariant(fill, miss.CacheKey());
    var s := Run(EMPTY, fill);
    assert s.order[0] == hit.CacheKey();
    forall k | k in s.order ensures |k.path| <= 32 {
    }
    assert miss.CacheKey() !in s.results;
    EvictsJustUsed(s, hit, miss);
    assert (fill + [hit])[..32] == fill;
    var rs := fill + [hit] + [miss];
    assert rs[..32 + 1] == fill + [hit];
    assert Run(EMPTY, rs) == After(After(s, hit), miss);
    assert RunLru(EMPTY, rs) == AfterLru(AfterLru(s, hit), miss);
    RunIsLru(rs);
  }
}
