/**
 Folding a list of keyed values into one value per key, in order of first appearance: the shape of
 every dictionary of aggregates the program builds. `f` combines the value held with the next one.
 */
module KeyedFold {
  import opened Wrappers

  datatype Item<K, V> = Item(key: K, value: V)

  function Put<K(==), V>(f: (V, V) -> V, held: seq<Item<K, V>>, x: Item<K, V>): (r: seq<Item<K, V>>)
    ensures |held| <= |r| <= |held| + 1
  {
    if held == [] then [x]
    else if held[0].key == x.key then [Item(x.key, f(held[0].value, x.value))] + held[1..]
    else [held[0]] + Put(f, held[1..], x)
  }

  function Into<K(==), V>(f: (V, V) -> V, held: seq<Item<K, V>>, xs: seq<Item<K, V>>): seq<Item<K, V>> {
    if xs == [] then held else Put(f, Into(f, held, xs[..|xs| - 1]), xs[|xs| - 1])
  }

  function Merged<K(==), V>(f: (V, V) -> V, xs: seq<Item<K, V>>): seq<Item<K, V>> {
    Into(f, [], xs)
  }

  function Get<K(==), V>(held: seq<Item<K, V>>, k: K): Option<V> {
    if held == [] then None else if held[0].key == k then Some(held[0].value) else Get(held[1..], k)
  }

  predicate OncePerKey<K(==), V>(held: seq<Item<K, V>>) {
    held == [] || (Get(held[1..], held[0].key) == None && OncePerKey(held[1..]))
  }

  ghost predicate Associative<V(!new)>(f: (V, V) -> V) {
    forall a, b, c :: f(f(a, b), c) == f(a, f(b, c))
  }

  lemma {:induction false} GetPut<K, V>(f: (V, V) -> V, held: seq<Item<K, V>>, x: Item<K, V>, k: K)
    ensures Get(Put(f, held, x), k) ==
              if k != x.key then Get(held, k)
              else match Get(held, k) { case None => Some(x.value) case Some(v) => Some(f(v, x.value)) }
  {
    if held != [] {
      GetPut(f, held[1..], x, k);
      if held[0].key == x.key {
        assert Put(f, held, x)[1..] == held[1..];
      } else {
        assert Put(f, held, x)[1..] == Put(f, held[1..], x);
      }
    }
  }

  lemma {:induction false} PutOncePerKey<K, V>(f: (V, V) -> V, held: seq<Item<K, V>>, x: Item<K, V>)
    requires OncePerKey(held)
    ensures OncePerKey(Put(f, held, x))
  {
    if held != [] {
      if held[0].key == x.key {
        assert Put(f, held, x)[1..] == held[1..];
      } else {
        assert Put(f, held, x)[1..] == Put(f, held[1..], x);
        PutOncePerKey(f, held[1..], x);
        GetPut(f, held[1..], x, held[0].key);
      }
    }
  }

  /** The result has one entry per key ... */
  lemma {:induction false} MergedOncePerKey<K, V>(f: (V, V) -> V, held: seq<Item<K, V>>, xs: seq<Item<K, V>>)
    requires OncePerKey(held)
    ensures OncePerKey(Into(f, held, xs))
  {
    if xs != [] {
      MergedOncePerKey(f, held, xs[..|xs| - 1]);
      PutOncePerKey(f, Into(f, held, xs[..|xs| - 1]), xs[|xs| - 1]);
    }
  }

  lemma {:induction false} GetHeld<K, V>(held: seq<Item<K, V>>, x: Item<K, V>)
    requires OncePerKey(held) && x in held
    ensures Get(held, x.key) == Some(x.value)
  {
    if x != held[0] {
      GetHeld(held[1..], x);
    }
  }

  lemma {:induction false} GetHolds<K, V>(held: seq<Item<K, V>>, k: K)
    requires Get(held, k).Some?
    ensures Item(k, Get(held, k).value) in held
  {
    if held[0].key != k {
      GetHolds(held[1..], k);
    }
  }

  lemma {:induction false} KeysDiffer<K, V>(held: seq<Item<K, V>>)
    requires OncePerKey(held)
    ensures forall i, j :: 0 <= i < j < |held| ==> held[i].key != held[j].key
  {
    forall i, j | 0 <= i < j < |held| ensures held[i].key != held[j].key {
      if i == 0 {
        NotHeld(held[1..], held[0].key);
        assert held[j] == held[1..][j - 1];
      } else {
        KeysDiffer(held[1..]);
        assert held[i] == held[1..][i - 1] && held[j] == held[1..][j - 1];
      }
    }
  }

  lemma {:induction false} NotHeld<K, V>(held: seq<Item<K, V>>, k: K)
    requires Get(held, k) == None
    ensures forall x :: x in held ==> x.key != k
  {
    if held != [] {
      NotHeld(held[1..], k);
    }
  }

  // Updating a key already held commutes with putting another key.
  lemma {:induction false} PutCommutes<K, V>(f: (V, V) -> V, held: seq<Item<K, V>>, x: Item<K, V>, y: Item<K, V>)
    requires x.key != y.key && Get(held, x.key) != None
    ensures Put(f, Put(f, held, x), y) == Put(f, Put(f, held, y), x)
  {
    var hx, hy := Put(f, held, x), Put(f, held, y);
    if held[0].key == x.key {
      assert hx[1..] == held[1..];
      assert hy[1..] == Put(f, held[1..], y);
    } else if held[0].key == y.key {
      assert hx[1..] == Put(f, held[1..], x);
      assert hy[1..] == held[1..];
    } else {
      assert hx[1..] == Put(f, held[1..], x) && hy[1..] == Put(f, held[1..], y);
      PutCommutes(f, held[1..], x, y);
    }
  }

  lemma {:induction false} PutTwice<K, V(!new)>(f: (V, V) -> V, held: seq<Item<K, V>>, k: K, v: V, w: V)
    requires Associative(f)
    ensures Put(f, Put(f, held, Item(k, v)), Item(k, w)) == Put(f, held, Item(k, f(v, w)))
  {
    var h := Put(f, held, Item(k, v));
    if held == [] {
      assert h[1..] == [];
    } else if held[0].key == k {
      assert h[1..] == held[1..];
      assert f(f(held[0].value, v), w) == f(held[0].value, f(v, w));
    } else {
      assert h[1..] == Put(f, held[1..], Item(k, v));
      PutTwice(f, held[1..], k, v, w);
    }
  }

  lemma {:induction false} IntoFront<K, V>(f: (V, V) -> V, held: seq<Item<K, V>>, xs: seq<Item<K, V>>)
    requires xs != []
    ensures Into(f, held, xs) == Into(f, Put(f, held, xs[0]), xs[1..])
  {
    if |xs| > 1 {
      var init := xs[..|xs| - 1];
      IntoFront(f, held, init);
      assert init[1..] == xs[1..][..|xs| - 2] && init[0] == xs[0];
    }
  }

  // A put that updates a key outside `xs` may be made before or after them.
  lemma {:induction false} UpdateCommutes<K, V>(
      f: (V, V) -> V, held: seq<Item<K, V>>, xs: seq<Item<K, V>>, y: Item<K, V>)
    requires Get(xs, y.key) == None && Get(held, y.key) != None
    ensures Into(f, Put(f, held, y), xs) == Put(f, Into(f, held, xs), y)
    decreases |xs|
  {
    if xs != [] {
      IntoFront(f, held, xs);
      IntoFront(f, Put(f, held, y), xs);
      PutCommutes(f, held, y, xs[0]);
      GetPut(f, held, xs[0], y.key);
      UpdateCommutes(f, Put(f, held, xs[0]), xs[1..], y);
    }
  }

  // Absorbing `y` into a merged list first, or after the list.
  lemma {:induction false} IntoPut<K, V(!new)>(
      f: (V, V) -> V, held: seq<Item<K, V>>, zs: seq<Item<K, V>>, y: Item<K, V>)
    requires Associative(f) && OncePerKey(zs)
    ensures Into(f, held, Put(f, zs, y)) == Put(f, Into(f, held, zs), y)
    decreases |zs|
  {
    if zs == [] {
      assert [y][..0] == [];
    } else {
      var next, ps := Put(f, held, zs[0]), Put(f, zs, y);
      IntoFront(f, held, zs);
      IntoFront(f, held, ps);
      if zs[0].key == y.key {
        assert ps[1..] == zs[1..];
        PutTwice(f, held, y.key, zs[0].value, y.value);
        GetPut(f, held, zs[0], y.key);
        UpdateCommutes(f, next, zs[1..], y);
      } else {
        assert ps[1..] == Put(f, zs[1..], y);
        IntoPut(f, next, zs[1..], y);
      }
    }
  }

  lemma {:induction false} IntoMerged<K, V(!new)>(f: (V, V) -> V, held: seq<Item<K, V>>, ys: seq<Item<K, V>>)
    requires Associative(f)
    ensures Into(f, held, ys) == Into(f, held, Merged(f, ys))
    decreases |ys|
  {
    if ys != [] {
      var init := ys[..|ys| - 1];
      IntoMerged(f, held, init);
      MergedOncePerKey(f, [], init);
      IntoPut(f, held, Merged(f, init), ys[|ys| - 1]);
    }
  }

  lemma {:induction false} IntoConcat<K, V>(
      f: (V, V) -> V, held: seq<Item<K, V>>, xs: seq<Item<K, V>>, ys: seq<Item<K, V>>)
    ensures Into(f, held, xs + ys) == Into(f, Into(f, held, xs), ys)
    decreases |ys|
  {
    if ys == [] {
      assert xs + ys == xs;
    } else {
      assert (xs + ys)[..|xs + ys| - 1] == xs + ys[..|ys| - 1];
      IntoConcat(f, held, xs, ys[..|ys| - 1]);
    }
  }

  /** Folding two stretches separately and then folding the results is the same as folding all at once. */
  lemma SplitIndependent<K, V(!new)>(f: (V, V) -> V, xs: seq<Item<K, V>>, ys: seq<Item<K, V>>)
    requires Associative(f)
    ensures Merged(f, Merged(f, xs) + Merged(f, ys)) == Merged(f, xs + ys)
  {
    IntoConcat(f, [], Merged(f, xs), Merged(f, ys));
    IntoMerged(f, [], xs);
    IntoMerged(f, Merged(f, xs), ys);
    IntoConcat(f, [], xs, ys);
  }

  // ---- keys ----

  lemma {:induction false} PutKey<K, V>(f: (V, V) -> V, held: seq<Item<K, V>>, x: Item<K, V>, e: Item<K, V>)
    requires e in Put(f, held, x)
    ensures e.key == x.key || exists h :: h in held && h.key == e.key
  {
    if held != [] {
      if held[0].key == x.key {
        assert e.key == x.key || e in held[1..];
      } else if e == held[0] {
        assert held[0] in held;
      } else {
        assert e in Put(f, held[1..], x);
        PutKey(f, held[1..], x, e);
      }
    }
  }

  /** Every key of the result was a key of some item. */
  lemma {:induction false} MergedKey<K, V>(f: (V, V) -> V, xs: seq<Item<K, V>>, e: Item<K, V>)
    requires e in Merged(f, xs)
    ensures exists x :: x in xs && x.key == e.key
  {
    if xs != [] {
      var init, last := xs[..|xs| - 1], xs[|xs| - 1];
      PutKey(f, Merged(f, init), last, e);
      if e.key == last.key {
        assert last in xs;
      } else {
        var h :| h in Merged(f, init) && h.key == e.key;
        MergedKey(f, init, h);
        var x :| x in init && x.key == h.key;
        assert x in xs;
      }
    }
  }

  // A put passes over a prefix that lacks the key.
  lemma {:induction false} PutAfter<K, V>(f: (V, V) -> V, held: seq<Item<K, V>>, x: Item<K, V>, i: nat)
    requires i <= |held| && forall j :: 0 <= j < i ==> held[j].key != x.key
    requires i < |held| ==> held[i].key == x.key
    ensures Put(f, held, x) ==
              if i < |held| then held[..i] + [Item(x.key, f(held[i].value, x.value))] + held[i + 1..] else held + [x]
  {
    if i > 0 {
      var rest := held[1..];
      assert forall j :: 0 <= j < i - 1 ==> rest[j] == held[j + 1];
      PutAfter(f, rest, x, i - 1);
      var put := Put(f, rest, x);
      assert Put(f, held, x) == [held[0]] + put;
      assert held == [held[0]] + rest;
      hide Put;
      if i < |held| {
        OneInFront(held, i, Item(x.key, f(held[i].value, x.value)));
      }
    }
  }

  lemma OneInFront<T>(s: seq<T>, i: nat, x: T)
    requires 0 < i < |s|
    ensures [s[0]] + (s[1..][..i - 1] + [x] + s[1..][i..]) == s[..i] + [x] + s[i + 1..]
  {
  }

  // ---- weights ----

  function Sum<K, V>(w: V -> int, xs: seq<Item<K, V>>): int {
    if xs == [] then 0 else w(xs[0].value) + Sum(w, xs[1..])
  }

  lemma {:induction false} SumPut<K, V>(f: (V, V) -> V, w: V -> int, held: seq<Item<K, V>>, x: Item<K, V>)
    requires forall a, b :: w(f(a, b)) == w(a) + w(b)
    ensures Sum(w, Put(f, held, x)) == Sum(w, held) + w(x.value)
  {
    if held != [] {
      if held[0].key == x.key {
        assert Put(f, held, x)[1..] == held[1..];
      } else {
        assert Put(f, held, x)[1..] == Put(f, held[1..], x);
        SumPut(f, w, held[1..], x);
      }
    }
  }

  lemma {:induction false} SumSnoc<K, V>(w: V -> int, xs: seq<Item<K, V>>)
    requires xs != []
    ensures Sum(w, xs) == Sum(w, xs[..|xs| - 1]) + w(xs[|xs| - 1].value)
  {
    if |xs| > 1 {
      SumSnoc(w, xs[1..]);
      assert xs[1..][..|xs| - 2] == xs[..|xs| - 1][1..];
    }
  }

  /** A quantity that `f` adds is conserved. */
  lemma {:induction false} SumConserved<K, V>(f: (V, V) -> V, w: V -> int, xs: seq<Item<K, V>>)
    requires forall a, b :: w(f(a, b)) == w(a) + w(b)
    ensures Sum(w, Merged(f, xs)) == Sum(w, xs)
  {
    if xs != [] {
      SumConserved(f, w, xs[..|xs| - 1]);
      SumPut(f, w, Merged(f, xs[..|xs| - 1]), xs[|xs| - 1]);
      SumSnoc(w, xs);
    }
  }

  // ---- projections ----

  function Project<K, V, U>(p: V -> U, xs: seq<Item<K, V>>): seq<Item<K, U>> {
    if xs == [] then [] else [Item(xs[0].key, p(xs[0].value))] + Project(p, xs[1..])
  }

  lemma {:induction false} ProjectPut<K, V, U>(p: V -> U, f: (V, V) -> V, g: (U, U) -> U,
                                              held: seq<Item<K, V>>, x: Item<K, V>)
    requires forall a, b :: p(f(a, b)) == g(p(a), p(b))
    ensures Project(p, Put(f, held, x)) == Put(g, Project(p, held), Item(x.key, p(x.value)))
  {
    if held != [] {
      if held[0].key == x.key {
        assert Put(f, held, x)[1..] == held[1..];
      } else {
        assert Put(f, held, x)[1..] == Put(f, held[1..], x);
        ProjectPut(p, f, g, held[1..], x);
      }
      assert Project(p, held)[1..] == Project(p, held[1..]);
    }
  }

  lemma {:induction false} ProjectConcat<K, V, U>(p: V -> U, xs: seq<Item<K, V>>, ys: seq<Item<K, V>>)
    ensures Project(p, xs + ys) == Project(p, xs) + Project(p, ys)
  {
    if xs == [] {
      assert xs + ys == ys;
    } else {
      assert (xs + ys)[1..] == xs[1..] + ys;
      ProjectConcat(p, xs[1..], ys);
    }
  }

  /** A part of each value that evolves by itself may be folded by itself. */
  lemma {:induction false} ProjectMerged<K, V, U>(p: V -> U, f: (V, V) -> V, g: (U, U) -> U, xs: seq<Item<K, V>>)
    requires forall a, b :: p(f(a, b)) == g(p(a), p(b))
    ensures Project(p, Merged(f, xs)) == Merged(g, Project(p, xs))
  {
    if xs != [] {
      var init, x := xs[..|xs| - 1], xs[|xs| - 1];
      ProjectMerged(p, f, g, init);
      ProjectPut(p, f, g, Merged(f, init), x);
      assert xs == init + [x];
      ProjectConcat(p, init, [x]);
      var ps := Project(p, xs);
      assert Project(p, [x]) == [Item(x.key, p(x.value))];
      assert ps[..|ps| - 1] == Project(p, init) && ps[|ps| - 1] == Item(x.key, p(x.value));
    }
  }
}
