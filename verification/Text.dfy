/** Python's order on strings: lexicographic, a strict total order in which the empty string comes first; and lower
    case, for the letters A to Z. */
module Text {

  predicate Less(a: string, b: string) {
    b != "" && (a == "" || a[0] < b[0] || (a[0] == b[0] && Less(a[1..], b[1..])))
  }

  /** `a` comes first when it is a proper beginning of `b`, or has the smaller character where they first differ. */
  lemma {:induction false} LessExact(a: string, b: string)
    ensures Less(a, b) <==> (|a| < |b| && a == b[..|a|]) || exists i :: DifferAt(a, b, i) && a[i] < b[i]
  {
    if a != "" && b != "" {
      var x, y := a[1..], b[1..];
      if a[0] == b[0] {
        LessExact(x, y);
        forall i ensures DifferAt(a, b, i + 1) <==> DifferAt(x, y, i) {
          DifferLater(a, b, i);
        }
        if i :| DifferAt(a, b, i) && a[i] < b[i] {
          assert DifferAt(a, b, (i - 1) + 1) && x[i - 1] == a[i] && y[i - 1] == b[i];
        }
        if i :| DifferAt(x, y, i) && x[i] < y[i] {
          assert DifferAt(a, b, i + 1);
        }
        if |a| <= |b| { BeginsLater(a, b); }
      } else {
        assert DifferAt(a, b, 0);
      }
    }
  }

  lemma DifferLater(a: string, b: string, i: int)
    requires a != "" && b != "" && a[0] == b[0]
    ensures DifferAt(a, b, i + 1) <==> DifferAt(a[1..], b[1..], i)
  {
    if 0 <= i < |a| - 1 && i < |b| - 1 {
      assert a[..i + 1] == [a[0]] + a[1..][..i] && b[..i + 1] == [b[0]] + b[1..][..i];
      assert a[1..][..i] == a[..i + 1][1..] && b[1..][..i] == b[..i + 1][1..];
    }
  }

  lemma BeginsLater(a: string, b: string)
    requires a != "" && b != "" && a[0] == b[0] && |a| <= |b|
    ensures a == b[..|a|] <==> a[1..] == b[1..][..|a| - 1]
  {
    assert a == [a[0]] + a[1..] && b[..|a|] == [b[0]] + b[1..][..|a| - 1];
  }

  predicate DifferAt(a: string, b: string, i: int) {
    0 <= i < |a| && i < |b| && a[..i] == b[..i] && a[i] != b[i]
  }

  lemma {:induction false} Irreflexive(a: string)
    ensures !Less(a, a)
  {
    if a != "" {
      Irreflexive(a[1..]);
    }
  }

  lemma {:induction false} Transitive(a: string, b: string, c: string)
    requires Less(a, b) && Less(b, c)
    ensures Less(a, c)
  {
    if a != "" && a[0] == b[0] && b[0] == c[0] {
      Transitive(a[1..], b[1..], c[1..]);
    }
  }

  lemma {:induction false} Total(a: string, b: string)
    ensures a == b || Less(a, b) || Less(b, a)
  {
    if a != "" && b != "" && a[0] == b[0] {
      Total(a[1..], b[1..]);
      assert a == [a[0]] + a[1..] && b == [b[0]] + b[1..];
    }
  }

  /** The earlier of two time strings, an empty one counting as absent; `a` wins ties. */
  function Earlier(a: string, b: string): string {
    if b != "" && (a == "" || Less(b, a)) then b else a
  }

  /** The later of two time strings. */
  function Later(a: string, b: string): string {
    if b != "" && (a == "" || Less(a, b)) then b else a
  }

  lemma EarlierAssociates(a: string, b: string, c: string)
    ensures Earlier(Earlier(a, b), c) == Earlier(a, Earlier(b, c))
  {
    Total(a, b);
    Total(b, c);
    Total(a, c);
    Orders(a, b, c);
  }

  lemma LaterAssociates(a: string, b: string, c: string)
    ensures Later(Later(a, b), c) == Later(a, Later(b, c))
  {
    Total(a, b);
    Total(b, c);
    Total(a, c);
    Orders(a, b, c);
  }

  // Every instance of the order laws over three strings.
  lemma Orders(a: string, b: string, c: string)
    ensures !(Less(a, b) && Less(b, a)) && !(Less(b, c) && Less(c, b)) && !(Less(a, c) && Less(c, a))
    ensures Less(a, b) && Less(b, c) ==> Less(a, c)
    ensures Less(b, a) && Less(a, c) ==> Less(b, c)
    ensures Less(a, c) && Less(c, b) ==> Less(a, b)
    ensures Less(c, a) && Less(a, b) ==> Less(c, b)
    ensures Less(b, c) && Less(c, a) ==> Less(b, a)
    ensures Less(c, b) && Less(b, a) ==> Less(c, a)
  {
    Asymmetric(a, b);
    Asymmetric(b, c);
    Asymmetric(a, c);
    if Less(a, b) && Less(b, c) { Transitive(a, b, c); }
    if Less(b, a) && Less(a, c) { Transitive(b, a, c); }
    if Less(a, c) && Less(c, b) { Transitive(a, c, b); }
    if Less(c, a) && Less(a, b) { Transitive(c, a, b); }
    if Less(b, c) && Less(c, a) { Transitive(b, c, a); }
    if Less(c, b) && Less(b, a) { Transitive(c, b, a); }
  }

  lemma Asymmetric(a: string, b: string)
    ensures !(Less(a, b) && Less(b, a))
  {
    if Less(a, b) && Less(b, a) {
      Transitive(a, b, a);
      Irreflexive(a);
    }
  }

  // ---- lower case ----

  function LowerChar(c: char): char {
    if 'A' <= c <= 'Z' then (c as int + 32) as char else c
  }

  function Lower(s: string): string {
    seq(|s|, i requires 0 <= i < |s| => LowerChar(s[i]))
  }

  /** Lower case: the letters A to Z become a to z, nothing else changes. */
  lemma LowerExact(s: string)
    ensures |Lower(s)| == |s|
    ensures forall i :: 0 <= i < |s| ==>
              Lower(s)[i] == if s[i] in "ABCDEFGHIJKLMNOPQRSTUVWXYZ"
                             then "abcdefghijklmnopqrstuvwxyz"[s[i] as int - 65] else s[i]
  {
  }
}
