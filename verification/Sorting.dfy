/** Sorting reals: a sorted list is determined by its elements, so sorting forgets the order it was given. */
module Sorting {

  predicate Ordered(s: seq<real>) {
    forall i, j :: 0 <= i < j < |s| ==> s[i] <= s[j]
  }

  function Insert(x: real, s: seq<real>): seq<real> {
    if s == [] || x <= s[0] then [x] + s else [s[0]] + Insert(x, s[1..])
  }

  function Sorted(s: seq<real>): seq<real> {
    if s == [] then [] else Insert(s[0], Sorted(s[1..]))
  }

  lemma Prepend(x: real, s: seq<real>)
    requires Ordered(s) && forall i :: 0 <= i < |s| ==> x <= s[i]
    ensures Ordered([x] + s)
  {
  }

  lemma {:induction false} InsertSorts(x: real, s: seq<real>)
    requires Ordered(s)
    ensures Ordered(Insert(x, s)) && multiset(Insert(x, s)) == multiset{x} + multiset(s)
  {
    assert forall i :: 0 <= i < |s| ==> s[0] <= s[i];
    if s != [] && x > s[0] {
      InsertSorts(x, s[1..]);
      assert s == [s[0]] + s[1..];
      var rest := Insert(x, s[1..]);
      forall i | 0 <= i < |rest| ensures s[0] <= rest[i] {
        assert rest[i] in multiset(rest);
        assert rest[i] == x || rest[i] in s[1..];
      }
      Prepend(s[0], rest);
    } else {
      Prepend(x, s);
    }
  }

  lemma {:induction false} SortedSorts(s: seq<real>)
    ensures Ordered(Sorted(s)) && multiset(Sorted(s)) == multiset(s) && |Sorted(s)| == |s|
  {
    if s != [] {
      SortedSorts(s[1..]);
      InsertSorts(s[0], Sorted(s[1..]));
      assert s == [s[0]] + s[1..];
    }
    assert |multiset(Sorted(s))| == |Sorted(s)| && |multiset(s)| == |s|;
  }

  lemma {:induction false} OrderedUnique(a: seq<real>, b: seq<real>)
    requires Ordered(a) && Ordered(b) && multiset(a) == multiset(b)
    ensures a == b
    decreases |a|
  {
    assert |multiset(a)| == |a| && |multiset(b)| == |b|;
    if a != [] {
      assert a[0] in multiset(b) && b[0] in multiset(a);
      assert a[0] == b[0];
      assert a == [a[0]] + a[1..] && b == [b[0]] + b[1..];
      assert multiset(a[1..]) == multiset(a) - multiset{a[0]};
      assert multiset(b[1..]) == multiset(b) - multiset{b[0]};
      OrderedUnique(a[1..], b[1..]);
    }
  }

  /** Permuted lists sort to the same list. */
  lemma SortedForgetsOrder(a: seq<real>, b: seq<real>)
    requires multiset(a) == multiset(b)
    ensures Sorted(a) == Sorted(b)
  {
    SortedSorts(a);
    SortedSorts(b);
    OrderedUnique(Sorted(a), Sorted(b));
  }

  lemma SortedAlready(a: seq<real>)
    requires Ordered(a)
    ensures Sorted(a) == a
  {
    SortedSorts(a);
    OrderedUnique(Sorted(a), a);
  }

  function Shifted(s: seq<real>, shift: real): seq<real> {
    seq(|s|, i requires 0 <= i < |s| => s[i] + shift)
  }

  lemma {:induction false} InsertShifts(x: real, s: seq<real>, shift: real)
    ensures Insert(x + shift, Shifted(s, shift)) == Shifted(Insert(x, s), shift)
  {
    if s != [] && x > s[0] {
      InsertShifts(x, s[1..], shift);
      assert Shifted(s, shift)[1..] == Shifted(s[1..], shift);
    }
  }

  /** Translating a list translates its sorted form. */
  lemma {:induction false} SortedShifts(s: seq<real>, shift: real)
    ensures Sorted(Shifted(s, shift)) == Shifted(Sorted(s), shift)
  {
    if s != [] {
      SortedShifts(s[1..], shift);
      assert Shifted(s, shift)[1..] == Shifted(s[1..], shift);
      InsertShifts(s[0], Sorted(s[1..]), shift);
    }
  }
}
