/**
 JSON trees and the recursive merge of protocol identities: the tree held wins wherever it says
 something, lists are united, flags are or-ed and blanks are filled in.
 */
module Json {
  import opened Lists

  /** An integer and a float are different values, as their JSON texts are: 1 and 1.0. */
  datatype Json =
    | Null
    | Bool(flag: bool)
    | Whole(number: int)
    | Float(value: real)
    | Text(text: string)
    | List(items: seq<Json>)
    | Object(fields: map<string, Json>)

  /** The values `current in (None, "", [], {})` holds of. */
  predicate Blank(x: Json) {
    x == Null || x == Text("") || x == List([]) || x == Object(map[])
  }

  predicate SameKind(x: Json, y: Json) {
    || (x.Object? && y.Object?)
    || (x.List? && y.List?)
    || (x.Bool? && y.Bool?)
  }

  /** What becomes of a value `x` already held when `y` arrives under the same key. */
  function Combine(x: Json, y: Json): Json
    decreases x
  {
    if x.Object? && y.Object? then
      Object(map k | k in x.fields.Keys + y.fields.Keys ::
        if k !in y.fields then x.fields[k]
        else if k !in x.fields then y.fields[k]
        else Combine(x.fields[k], y.fields[k]))
    else if x.List? && y.List? then List(AppendNew(x.items, y.items))
    else if x.Bool? && y.Bool? then Bool(x.flag || y.flag)
    else if Blank(x) then y
    else x
  }

  function AsObject(x: Json): Json {
    if x.Object? then x else Object(map[])
  }

  /** `_merge_nested`: anything that is not an object counts as an empty one. */
  function MergeNested(existing: Json, incoming: Json): Json {
    Combine(AsObject(existing), AsObject(incoming))
  }

  lemma {:induction false} CombineSelf(x: Json)
    ensures Combine(x, x) == x
    decreases x
  {
    match x
    case Object(m) =>
      forall k | k in m ensures Combine(m[k], m[k]) == m[k] {
        CombineSelf(m[k]);
      }
    case List(items) => AppendNothingNew(items, items);
    case _ =>
  }

  lemma {:induction false} CombineAgain(x: Json, y: Json)
    ensures Combine(Combine(x, y), y) == Combine(x, y)
    decreases x
  {
    if x.Object? && y.Object? {
      var xy := Combine(x, y);
      forall k | k in xy.fields && k in y.fields ensures Combine(xy.fields[k], y.fields[k]) == xy.fields[k] {
        if k in x.fields {
          CombineAgain(x.fields[k], y.fields[k]);
        } else {
          CombineSelf(y.fields[k]);
        }
      }
      assert Combine(xy, y).fields == xy.fields;
    } else if x.List? && y.List? {
      AppendNewContents(x.items, y.items);
      AppendNothingNew(AppendNew(x.items, y.items), y.items);
    } else if Blank(x) {
      CombineSelf(y);
    }
  }

  /** Merging a tree with itself, or a second time with the same tree, changes nothing. */
  lemma MergeNestedIdempotent(a: Json, b: Json)
    ensures MergeNested(a, a) == AsObject(a)
    ensures MergeNested(MergeNested(a, b), b) == MergeNested(a, b)
  {
    CombineSelf(AsObject(a));
    CombineAgain(AsObject(a), AsObject(b));
  }

  /** Whatever `x` says, `m` still says, in the same place. */
  predicate Survives(x: Json, m: Json)
    decreases x
  {
    Blank(x) ||
    match x
    case Object(f) => m.Object? && forall k :: k in f ==> k in m.fields && Survives(f[k], m.fields[k])
    case List(items) => m.List? && items <= m.items
    case Bool(flag) => m.Bool? && (flag ==> m.flag)
    case _ => m == x
  }

  lemma {:induction false} SurvivesItself(x: Json)
    ensures Survives(x, x)
    decreases x
  {
    if x.Object? {
      forall k | k in x.fields ensures Survives(x.fields[k], x.fields[k]) {
        SurvivesItself(x.fields[k]);
      }
    }
  }

  lemma {:induction false} CombineKeeps(x: Json, y: Json)
    ensures Survives(x, Combine(x, y))
    decreases x
  {
    if x.Object? && y.Object? {
      forall k | k in x.fields ensures Survives(x.fields[k], Combine(x, y).fields[k]) {
        if k in y.fields {
          CombineKeeps(x.fields[k], y.fields[k]);
        } else {
          SurvivesItself(x.fields[k]);
        }
      }
    } else if x.List? && y.List? {
      AppendNewContents(x.items, y.items);
    } else if !Blank(x) {
      SurvivesItself(x);
    }
  }

  /** No chunk loses what an earlier one found, and an incoming key whose slot was blank arrives whole. */
  lemma MergeNestedKeeps(a: Json, b: Json, k: string)
    requires a.Object? && b.Object?
    ensures Survives(a, MergeNested(a, b))
    ensures MergeNested(a, b).fields.Keys == a.fields.Keys + b.fields.Keys
    ensures k in b.fields && k !in a.fields ==> MergeNested(a, b).fields[k] == b.fields[k]
    ensures k in b.fields && k in a.fields && Blank(a.fields[k]) && !a.fields[k].List? ==>
              MergeNested(a, b).fields[k] == b.fields[k]
    ensures k in b.fields && k in a.fields && a.fields[k].List? && b.fields[k].List? ==>
              MergeNested(a, b).fields[k].List? &&
              forall x :: x in b.fields[k].items ==> x in MergeNested(a, b).fields[k].items
  {
    CombineKeeps(a, b);
    if k in b.fields && k in a.fields {
      if a.fields[k] == Object(map[]) && b.fields[k].Object? {
        assert Combine(a.fields[k], b.fields[k]).fields == b.fields[k].fields;
      }
      if a.fields[k].List? && b.fields[k].List? {
        AppendNewContents(a.fields[k].items, b.fields[k].items);
      }
    }
  }

  // ---- does it matter how three trees are grouped? ----

  /**
   Where grouping matters. Either an empty list meets a blank of another kind and then a list with
   repetitions, or a value is followed by one of another kind, which hides from it a third that would
   have added something.
   */
  predicate Conflict(a: Json, b: Json, c: Json)
    decreases a
  {
    || (a == List([]) && Blank(b) && !b.List? && c.List? && !Distinct(c.items))
    || (!Blank(a) && !Blank(b) && !SameKind(a, b) && Combine(a, c) != a)
    || (a.Object? && b.Object? && c.Object? &&
        exists k :: k in a.fields && k in b.fields && k in c.fields && Conflict(a.fields[k], b.fields[k], c.fields[k]))
  }

  lemma BlankLeft(x: Json, y: Json)
    requires Blank(x) && !x.List?
    ensures Combine(x, y) == y
  {
    if x.Object? && y.Object? {
      assert Combine(x, y).fields == y.fields;
    }
  }

  lemma BlankRight(x: Json, y: Json)
    requires Blank(y) && !Blank(x)
    ensures Combine(x, y) == x
  {
    if x.Object? && y.Object? {
      assert Combine(x, y).fields == x.fields;
    }
  }

  lemma StaysSaid(x: Json, y: Json)
    requires !Blank(x)
    ensures !Blank(Combine(x, y)) && (SameKind(x, Combine(x, y)) || Combine(x, y) == x)
  {
    if x.Object? && y.Object? {
      var k :| k in x.fields;
      assert k in Combine(x, y).fields;
    } else if x.List? && y.List? {
      AppendNewContents(x.items, y.items);
    }
  }

  // Objects first: the grouping matters exactly where it matters under some key common to all three.
  lemma {:induction false} ObjectsAssociate(a: Json, b: Json, c: Json)
    requires a.Object? && b.Object? && c.Object?
    ensures Combine(Combine(a, b), c) == Combine(a, Combine(b, c)) <==> !Conflict(a, b, c)
    decreases a, 0
  {
    var l, r := Combine(Combine(a, b), c), Combine(a, Combine(b, c));
    assert l.fields.Keys == r.fields.Keys;
    forall k | k in l.fields
      ensures l.fields[k] == r.fields[k] <==>
                !(k in a.fields && k in b.fields && k in c.fields && Conflict(a.fields[k], b.fields[k], c.fields[k]))
    {
      if k in a.fields && k in b.fields && k in c.fields {
        Associates(a.fields[k], b.fields[k], c.fields[k]);
      }
    }
    if Conflict(a, b, c) {
      var k :| k in a.fields && k in b.fields && k in c.fields && Conflict(a.fields[k], b.fields[k], c.fields[k]);
      assert l.fields[k] != r.fields[k];
    } else {
      assert l.fields == r.fields;
    }
  }

  /** Merging three values left to right or right to left agrees exactly when they do not conflict. */
  lemma {:induction false} Associates(a: Json, b: Json, c: Json)
    ensures Combine(Combine(a, b), c) == Combine(a, Combine(b, c)) <==> !Conflict(a, b, c)
    decreases a, 1
  {
    if a.Object? && b.Object? && c.Object? {
      ObjectsAssociate(a, b, c);
    } else if Blank(a) && !a.List? {
      BlankLeft(a, b);
      BlankLeft(a, Combine(b, c));
    } else if a.List? && b.List? && c.List? {
      AppendNewAssociates(a.items, b.items, c.items);
    } else if a == List([]) {
      EmptyListAssociates(b, c);
    } else {
      SaidAssociates(a, b, c);
    }
  }

  lemma EmptyListAssociates(b: Json, c: Json)
    requires !(b.List? && c.List?)
    ensures Combine(Combine(List([]), b), c) == Combine(List([]), Combine(b, c)) <==> !Conflict(List([]), b, c)
  {
    var a := List([]);
    if b.List? {
      if b.items == [] {
        assert Combine(a, b) == a;
      } else {
        AppendNewContents([], b.items);
        assert b.items[0] in AppendNew([], b.items);
      }
    } else if Blank(b) {
      BlankLeft(b, c);
      if c.List? {
        AppendToEmpty(c.items);
      }
    } else {
      StaysSaid(b, c);
    }
  }

  lemma SaidAssociates(a: Json, b: Json, c: Json)
    requires !Blank(a) && !(a.Object? && b.Object? && c.Object?) && !(a.List? && b.List? && c.List?)
    ensures Combine(Combine(a, b), c) == Combine(a, Combine(b, c)) <==> !Conflict(a, b, c)
  {
    if Blank(b) {
      SaidThenBlank(a, b, c);
    } else if SameKind(a, b) {
      SaidThenSame(a, b, c);
    } else {
      StaysSaid(b, c);
      KindsApart(a, b, c);
    }
  }

  lemma SaidThenBlank(a: Json, b: Json, c: Json)
    requires !Blank(a) && Blank(b) && !(a.Object? && b.Object? && c.Object?) && !(a.List? && b.List? && c.List?)
    ensures Combine(Combine(a, b), c) == Combine(a, Combine(b, c)) && !Conflict(a, b, c)
  {
    BlankRight(a, b);
    if b.List? && c.List? {
      SaidAndEmptyList(a, c);
    } else if !b.List? {
      BlankLeft(b, c);
    }
  }

  lemma SaidThenSame(a: Json, b: Json, c: Json)
    requires !Blank(a) && !Blank(b) && SameKind(a, b)
    requires !(a.Object? && b.Object? && c.Object?) && !(a.List? && b.List? && c.List?)
    ensures Combine(Combine(a, b), c) == Combine(a, Combine(b, c)) && !Conflict(a, b, c)
  {
    StaysSaid(a, b);
    StaysSaid(b, c);
  }

  lemma KindsApart(a: Json, b: Json, c: Json)
    requires !Blank(a) && !Blank(b) && !SameKind(a, b) && !Blank(Combine(b, c))
    requires SameKind(b, Combine(b, c)) || Combine(b, c) == b
    ensures Combine(a, b) == a && Combine(a, Combine(b, c)) == a
    ensures Conflict(a, b, c) <==> Combine(a, c) != a
  {
  }

  lemma SaidAndEmptyList(a: Json, c: Json)
    requires !Blank(a) && !a.List? && c.List?
    ensures Combine(a, Combine(List([]), c)) == Combine(a, c)
  {
  }

  /** A grouping that matters: a flag hidden behind a value of another kind. */
  lemma GroupingCanMatter()
    ensures var a, b, c := Bool(false), Text("x"), Bool(true);
            Combine(Combine(a, b), c) != Combine(a, Combine(b, c))
  {
    Associates(Bool(false), Text("x"), Bool(true));
  }
}
