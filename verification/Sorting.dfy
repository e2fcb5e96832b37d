/** Sorting by a string key: what every `sort.Slice` by identity does when no two keys are equal. */
module Sorting {
  import opened Prelude

  /** x at its place by key. */
  function Inserted<T>(key: T -> string, p: seq<T>, x: T): seq<T> {
    if p == [] || StringLess(key(x), key(p[0])) then [x] + p else [p[0]] + Inserted(key, p[1..], x)
  }

  function Sorted<T>(key: T -> string, s: seq<T>): seq<T> {
    if s == [] then [] else Inserted(key, Sorted(key, s[..|s| - 1]), s[|s| - 1])
  }

  predicate Ascending<T>(key: T -> string, s: seq<T>) {
    |s| < 2 || (StringLess(key(s[0]), key(s[1])) && Ascending(key, s[1..]))
  }

  predicate HasKey<T>(key: T -> string, s: seq<T>, k: string) { exists i | 0 <= i < |s| :: key(s[i]) == k }

  predicate DistinctKeys<T>(key: T -> string, s: seq<T>) {
    s == [] || (!HasKey(key, s[..|s| - 1], key(s[|s| - 1])) && DistinctKeys(key, s[..|s| - 1]))
  }

  lemma {:induction false} InsertedSorts<T>(key: T -> string, p: seq<T>, x: T)
    requires Ascending(key, p) && !HasKey(key, p, key(x))
    ensures var q := Inserted(key, p, x);
            && Ascending(key, q) && |q| == |p| + 1
            && q[0] == if p != [] && StringLess(key(p[0]), key(x)) then p[0] else x
  {
    if p != [] {
      assert key(p[0]) != key(x);
      StringLessTotal(key(x), key(p[0]));
      if StringLess(key(x), key(p[0])) {
        StringLessAsymmetric(key(x), key(p[0]));
        assert ([x] + p)[1..] == p;
      } else {
        assert forall i | 0 <= i < |p[1..]| :: p[1..][i] == p[i + 1];
        InsertedSorts(key, p[1..], x);
        assert Inserted(key, p, x)[1..] == Inserted(key, p[1..], x);
      }
    }
  }

  lemma {:induction false} InsertedAddsOne<T>(key: T -> string, p: seq<T>, x: T)
    ensures multiset(Inserted(key, p, x)) == multiset(p) + multiset{x}
  {
    if p != [] && !StringLess(key(x), key(p[0])) {
      InsertedAddsOne(key, p[1..], x);
      assert p == [p[0]] + p[1..];
    }
  }

  lemma SameMembers<T>(a: seq<T>, b: seq<T>)
    requires multiset(a) == multiset(b)
    ensures |a| == |b| && forall x :: x in a <==> x in b
  {
    assert |multiset(a)| == |a| && |multiset(b)| == |b|;
    forall x ensures x in a <==> x in b {
      assert x in a <==> x in multiset(a);
      assert x in b <==> x in multiset(b);
    }
  }

  lemma SameKeys<T>(key: T -> string, a: seq<T>, b: seq<T>, k: string)
    requires multiset(a) == multiset(b)
    ensures HasKey(key, a, k) == HasKey(key, b, k)
  {
    SameMembers(a, b);
    if HasKey(key, a, k) {
      var i :| 0 <= i < |a| && key(a[i]) == k;
      assert a[i] in b;
    }
    if HasKey(key, b, k) {
      var i :| 0 <= i < |b| && key(b[i]) == k;
      assert b[i] in a;
    }
  }

  lemma SortedStep<T>(key: T -> string, s: seq<T>)
    ensures s == [] ==> Sorted(key, s) == [] && Ascending<T>(key, [])
    ensures s != [] && DistinctKeys(key, s) ==>
              var front, x := s[..|s| - 1], s[|s| - 1];
              DistinctKeys(key, front) && !HasKey(key, front, key(x))
                && Sorted(key, s) == Inserted(key, Sorted(key, front), x)
  {
  }

  /** Elements with distinct keys come out in ascending order, none lost and none added. */
  lemma {:induction false} SortedSorts<T>(key: T -> string, s: seq<T>)
    requires DistinctKeys(key, s)
    ensures Ascending(key, Sorted(key, s)) && multiset(Sorted(key, s)) == multiset(s)
  {
    hide *;
    SortedStep(key, s);
    if s != [] {
      var front, x := s[..|s| - 1], s[|s| - 1];
      SortedSorts(key, front);
      SameKeys(key, Sorted(key, front), front, key(x));
      InsertedSorts(key, Sorted(key, front), x);
      InsertedAddsOne(key, Sorted(key, front), x);
      assert s == front + [x];
    }
  }

  lemma {:induction false} FirstIsLeast<T>(key: T -> string, a: seq<T>, x: T)
    requires Ascending(key, a) && x in a
    ensures x == a[0] || StringLess(key(a[0]), key(x))
    decreases |a|
  {
    if x != a[0] {
      FirstIsLeast(key, a[1..], x);
      if x != a[1] { StringLessTransitive(key(a[0]), key(a[1]), key(x)); }
    }
  }

  /** Key order is canonical: at most one ascending arrangement of the same elements. */
  lemma {:induction false} AscendingIsUnique<T>(key: T -> string, a: seq<T>, b: seq<T>)
    requires Ascending(key, a) && Ascending(key, b) && multiset(a) == multiset(b)
    ensures a == b
    decreases |a|
  {
    SameMembers(a, b);
    if a != [] {
      FirstIsLeast(key, a, b[0]);
      FirstIsLeast(key, b, a[0]);
      if StringLess(key(a[0]), key(b[0])) { StringLessAsymmetric(key(a[0]), key(b[0])); }
      assert a == [a[0]] + a[1..] && b == [b[0]] + b[1..];
      assert multiset(a[1..]) == multiset(a) - multiset{a[0]};
      assert multiset(b[1..]) == multiset(b) - multiset{b[0]};
      AscendingIsUnique(key, a[1..], b[1..]);
    }
  }

  lemma SortedIsCanonical<T>(key: T -> string, s: seq<T>, t: seq<T>)
    requires DistinctKeys(key, s) && DistinctKeys(key, t) && multiset(s) == multiset(t)
    ensures Sorted(key, s) == Sorted(key, t)
  {
    SortedSorts(key, s);
    SortedSorts(key, t);
    AscendingIsUnique(key, Sorted(key, s), Sorted(key, t));
  }

  lemma SortedKeepsMembers<T>(key: T -> string, s: seq<T>)
    requires DistinctKeys(key, s)
    ensures forall x :: x in s <==> x in Sorted(key, s)
  {
    SortedSorts(key, s);
    SameMembers(s, Sorted(key, s));
  }
}
