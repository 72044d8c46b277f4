/** Appending the items a list does not hold yet, in order: how every list-valued field is merged. */
module Lists {

  function AppendNew<T(==)>(current: seq<T>, incoming: seq<T>): seq<T>
    decreases |incoming|
  {
    if incoming == [] then current
    else AppendNew(if incoming[0] in current then current else current + [incoming[0]], incoming[1..])
  }

  lemma AppendOne<T>(current: seq<T>, x: T)
    ensures AppendNew(current, [x]) == if x in current then current else current + [x]
  {
    assert [x][1..] == [];
  }

  predicate Distinct<T(==)>(s: seq<T>) {
    forall i, j :: 0 <= i < j < |s| ==> s[i] != s[j]
  }

  /** Nothing held is lost or moved, and exactly the incoming items are added. */
  lemma {:induction false} AppendNewContents<T>(current: seq<T>, incoming: seq<T>)
    ensures current <= AppendNew(current, incoming)
    ensures forall x :: x in AppendNew(current, incoming) <==> x in current || x in incoming
    decreases |incoming|
  {
    if incoming != [] {
      var next := if incoming[0] in current then current else current + [incoming[0]];
      AppendNewContents(next, incoming[1..]);
      assert forall x :: x in incoming <==> x == incoming[0] || x in incoming[1..];
    }
  }

  lemma {:induction false} AppendNothingNew<T>(current: seq<T>, incoming: seq<T>)
    requires forall x :: x in incoming ==> x in current
    ensures AppendNew(current, incoming) == current
    decreases |incoming|
  {
    if incoming != [] {
      assert incoming[0] in incoming;
      AppendNothingNew(current, incoming[1..]);
    }
  }

  lemma {:induction false} AppendNewConcat<T>(current: seq<T>, xs: seq<T>, ys: seq<T>)
    ensures AppendNew(current, xs + ys) == AppendNew(AppendNew(current, xs), ys)
    decreases |xs|
  {
    if xs == [] {
      assert xs + ys == ys;
    } else {
      assert (xs + ys)[1..] == xs[1..] + ys;
      AppendNewConcat(if xs[0] in current then current else current + [xs[0]], xs[1..], ys);
    }
  }

  /** The items of `incoming` that `AppendNew` adds to `seen`. */
  function Unseen<T(==)>(seen: seq<T>, incoming: seq<T>): seq<T>
    decreases |incoming|
  {
    if incoming == [] then []
    else if incoming[0] in seen then Unseen(seen, incoming[1..])
    else [incoming[0]] + Unseen(seen + [incoming[0]], incoming[1..])
  }

  lemma {:induction false} AppendNewIsUnseen<T>(seen: seq<T>, incoming: seq<T>)
    ensures AppendNew(seen, incoming) == seen + Unseen(seen, incoming)
    decreases |incoming|
  {
    if incoming != [] {
      AppendNewIsUnseen(if incoming[0] in seen then seen else seen + [incoming[0]], incoming[1..]);
    }
  }

  // Filtering by an earlier list first changes nothing for a list that holds all of it.
  lemma {:induction false} FilteredFirst<T>(held: seq<T>, seen: seq<T>, incoming: seq<T>)
    requires forall x :: x in seen ==> x in held
    ensures AppendNew(held, Unseen(seen, incoming)) == AppendNew(held, incoming)
    decreases |incoming|
  {
    if incoming != [] {
      var x, rest := incoming[0], incoming[1..];
      if x in seen {
        FilteredFirst(held, seen, rest);
      } else {
        var tail := Unseen(seen + [x], rest);
        assert ([x] + tail)[1..] == tail;
        FilteredFirst(if x in held then held else held + [x], seen + [x], rest);
      }
    }
  }

  lemma AppendNewAssociates<T>(a: seq<T>, b: seq<T>, c: seq<T>)
    ensures AppendNew(AppendNew(a, b), c) == AppendNew(a, AppendNew(b, c))
  {
    AppendNewIsUnseen(b, c);
    AppendNewConcat(a, b, Unseen(b, c));
    AppendNewContents(a, b);
    FilteredFirst(AppendNew(a, b), b, c);
  }

  lemma {:induction false} AppendToNothing<T>(s: seq<T>, done: nat)
    requires done <= |s| && Distinct(s)
    ensures AppendNew(s[..done], s[done..]) == s
    decreases |s| - done
  {
    if done == |s| {
      assert s[..done] == s;
    } else {
      assert s[done] !in s[..done];
      assert s[done..][1..] == s[done + 1..] && s[..done] + [s[done]] == s[..done + 1];
      AppendToNothing(s, done + 1);
    }
  }

  lemma {:induction false} AppendNewDistinct<T>(current: seq<T>, incoming: seq<T>)
    requires Distinct(current)
    ensures Distinct(AppendNew(current, incoming))
    decreases |incoming|
  {
    if incoming != [] {
      AppendNewDistinct(if incoming[0] in current then current else current + [incoming[0]], incoming[1..]);
    }
  }

  /** Starting from nothing keeps a list as it is exactly when it has no repetitions. */
  lemma AppendToEmpty<T>(s: seq<T>)
    ensures AppendNew([], s) == s <==> Distinct(s)
  {
    if Distinct(s) {
      AppendToNothing(s, 0);
      assert s[..0] == [] && s[0..] == s;
    }
    AppendNewDistinct([], s);
  }
}
