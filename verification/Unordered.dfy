/**
 Keyed folds over the items of a list of sources (the reports of a project, say), when the combining function
 does not care for order: no entry of the result depends on the order of the sources.
 */
module Unordered {
  import opened Wrappers
  import opened KeyedFold

  ghost predicate Commutative<V(!new)>(f: (V, V) -> V) {
    forall a, b :: f(a, b) == f(b, a)
  }

  function Join<V>(f: (V, V) -> V, a: Option<V>, b: Option<V>): Option<V> {
    match (a, b)
    case (None, _) => b
    case (_, None) => a
    case (Some(v), Some(w)) => Some(f(v, w))
  }

  function Flat<R, T>(items: R -> seq<T>, sources: seq<R>): seq<T> {
    if sources == [] then [] else Flat(items, sources[..|sources| - 1]) + items(sources[|sources| - 1])
  }

  /** What the sources say of key `k`, the items of each folded by themselves first. */
  function Told<R, K(==), V>(f: (V, V) -> V, items: R -> seq<Item<K, V>>, sources: seq<R>, k: K): Option<V> {
    if sources == [] then None
    else Join(f, Told(f, items, sources[..|sources| - 1], k), Get(Merged(f, items(sources[|sources| - 1])), k))
  }

  lemma {:induction false} GetInto<K, V(!new)>(f: (V, V) -> V, held: seq<Item<K, V>>, xs: seq<Item<K, V>>, k: K)
    requires Associative(f)
    ensures Get(Into(f, held, xs), k) == Join(f, Get(held, k), Get(Merged(f, xs), k))
  {
    if xs != [] {
      var init, x := xs[..|xs| - 1], xs[|xs| - 1];
      GetInto(f, held, init, k);
      GetPut(f, Into(f, held, init), x, k);
      GetPut(f, Merged(f, init), x, k);
    }
  }

  lemma {:induction false} FoldTells<R, K, V(!new)>(f: (V, V) -> V, items: R -> seq<Item<K, V>>, sources: seq<R>, k: K)
    requires Associative(f)
    ensures Get(Merged(f, Flat(items, sources)), k) == Told(f, items, sources, k)
  {
    if sources != [] {
      var init, last := sources[..|sources| - 1], sources[|sources| - 1];
      FoldTells(f, items, init, k);
      IntoConcat(f, [], Flat(items, init), items(last));
      GetInto(f, Merged(f, Flat(items, init)), items(last), k);
    }
  }

  // ---- moving a source to the end ----

  lemma JoinLaws<V(!new)>(f: (V, V) -> V, a: Option<V>, b: Option<V>, c: Option<V>)
    requires Associative(f) && Commutative(f)
    ensures Join(f, Join(f, a, b), c) == Join(f, Join(f, a, c), b)
  {
    if a.Some? && b.Some? && c.Some? {
      assert f(f(a.value, b.value), c.value) == f(a.value, f(b.value, c.value));
      assert f(f(a.value, c.value), b.value) == f(a.value, f(c.value, b.value));
      assert f(b.value, c.value) == f(c.value, b.value);
    } else if b.Some? && c.Some? {
      assert f(b.value, c.value) == f(c.value, b.value);
    }
  }

  function Without<T>(xs: seq<T>, j: nat): seq<T>
    requires j < |xs|
  {
    xs[..j] + xs[j + 1..]
  }

  lemma {:induction false} ToldApart<R, K, V(!new)>(
      f: (V, V) -> V, items: R -> seq<Item<K, V>>, rs: seq<R>, j: nat, k: K)
    requires Associative(f) && Commutative(f) && j < |rs|
    ensures Told(f, items, rs, k) == Join(f, Told(f, items, Without(rs, j), k), Get(Merged(f, items(rs[j])), k))
    decreases |rs|
  {
    var init, last := rs[..|rs| - 1], rs[|rs| - 1];
    if j == |init| {
      assert Without(rs, j) == init;
    } else {
      ToldApart(f, items, init, j, k);
      var rest := Without(rs, j);
      assert rest[..|rest| - 1] == Without(init, j) && rest[|rest| - 1] == last;
      JoinLaws(f, Told(f, items, Without(init, j), k), Get(Merged(f, items(rs[j])), k), Get(Merged(f, items(last)), k));
    }
  }

  lemma WithoutMultiset<T>(xs: seq<T>, j: nat)
    requires j < |xs|
    ensures multiset(Without(xs, j)) == multiset(xs) - multiset{xs[j]}
  {
    assert xs == xs[..j] + ([xs[j]] + xs[j + 1..]);
  }

  lemma {:induction false} ToldUnordered<R, K, V(!new)>(f: (V, V) -> V, items: R -> seq<Item<K, V>>,
                                                       rs: seq<R>, ss: seq<R>, k: K)
    requires Associative(f) && Commutative(f) && multiset(rs) == multiset(ss)
    ensures Told(f, items, rs, k) == Told(f, items, ss, k)
    decreases |rs|
  {
    assert |multiset(rs)| == |rs| && |multiset(ss)| == |ss|;
    if rs != [] {
      var i := |rs| - 1;
      assert rs[i] in multiset(ss);
      var j :| 0 <= j < |ss| && ss[j] == rs[i];
      WithoutMultiset(rs, i);
      WithoutMultiset(ss, j);
      ToldUnordered(f, items, Without(rs, i), Without(ss, j), k);
      ToldApart(f, items, rs, i, k);
      ToldApart(f, items, ss, j, k);
    }
  }

  /** No entry of the fold depends on the order of the sources. */
  lemma OrderIrrelevant<R, K, V(!new)>(f: (V, V) -> V, items: R -> seq<Item<K, V>>, rs: seq<R>, ss: seq<R>, k: K)
    requires Associative(f) && Commutative(f) && multiset(rs) == multiset(ss)
    ensures Get(Merged(f, Flat(items, rs)), k) == Get(Merged(f, Flat(items, ss)), k)
  {
    FoldTells(f, items, rs, k);
    FoldTells(f, items, ss, k);
    ToldUnordered(f, items, rs, ss, k);
  }

  // ---- sums ----

  function Total<T>(w: T -> int, xs: seq<T>): int {
    if xs == [] then 0 else Total(w, xs[..|xs| - 1]) + w(xs[|xs| - 1])
  }

  lemma {:induction false} TotalApart<T>(w: T -> int, xs: seq<T>, j: nat)
    requires j < |xs|
    ensures Total(w, xs) == Total(w, Without(xs, j)) + w(xs[j])
    decreases |xs|
  {
    var init, last := xs[..|xs| - 1], xs[|xs| - 1];
    if j == |init| {
      assert Without(xs, j) == init;
    } else {
      TotalApart(w, init, j);
      var rest := Without(xs, j);
      assert rest[..|rest| - 1] == Without(init, j) && rest[|rest| - 1] == last;
    }
  }

  lemma {:induction false} TotalUnordered<T>(w: T -> int, xs: seq<T>, ys: seq<T>)
    requires multiset(xs) == multiset(ys)
    ensures Total(w, xs) == Total(w, ys)
    decreases |xs|
  {
    assert |multiset(xs)| == |xs| && |multiset(ys)| == |ys|;
    if xs != [] {
      var i := |xs| - 1;
      assert xs[i] in multiset(ys);
      var j :| 0 <= j < |ys| && ys[j] == xs[i];
      WithoutMultiset(xs, i);
      WithoutMultiset(ys, j);
      TotalUnordered(w, Without(xs, i), Without(ys, j));
      TotalApart(w, xs, i);
      TotalApart(w, ys, j);
    }
  }
}
