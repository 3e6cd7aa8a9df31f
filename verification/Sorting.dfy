/** Stable sorting by an order, and the lexicographic order of texts. */
module Sorting {
  import opened Prelude

  ghost predicate TotalOrder<T(!new)>(leq: (T, T) -> bool) {
    && (forall x, y :: leq(x, y) || leq(y, x))
    && (forall x, y, z :: leq(x, y) && leq(y, z) ==> leq(x, z))
  }

  ghost predicate SortedBy<T>(leq: (T, T) -> bool, s: seq<T>) {
    forall i, j :: 0 <= i < j < |s| ==> leq(s[i], s[j])
  }

  function Insert<T>(leq: (T, T) -> bool, x: T, s: seq<T>): seq<T> {
    if s == [] then [x]
    else if leq(x, s[0]) then [x] + s
    else [s[0]] + Insert(leq, x, s[1..])
  }

  function SortBy<T>(leq: (T, T) -> bool, s: seq<T>): seq<T> {
    if s == [] then [] else Insert(leq, s[0], SortBy(leq, s[1..]))
  }

  lemma {:induction false} InsertAdds<T(!new)>(leq: (T, T) -> bool, x: T, s: seq<T>)
    ensures multiset(Insert(leq, x, s)) == multiset(s) + multiset{x}
    ensures forall y :: y in Insert(leq, x, s) <==> y == x || y in s
  {
    if s != [] {
      assert s == [s[0]] + s[1..];
      if !leq(x, s[0]) {
        InsertAdds(leq, x, s[1..]);
      }
    }
  }

  lemma {:induction false} InsertIsSorted<T(!new)>(leq: (T, T) -> bool, x: T, s: seq<T>)
    requires TotalOrder(leq) && SortedBy(leq, s)
    ensures SortedBy(leq, Insert(leq, x, s))
    ensures multiset(Insert(leq, x, s)) == multiset(s) + multiset{x}
  {
    InsertAdds(leq, x, s);
    if s != [] && leq(x, s[0]) {
      SmallestFirst(leq, x, s);
    } else if s != [] {
      var rest := Insert(leq, x, s[1..]);
      InsertIsSorted(leq, x, s[1..]);
      InsertAdds(leq, x, s[1..]);
      forall k | 0 <= k < |rest|
        ensures leq(s[0], rest[k])
      {
        assert rest[k] in rest;
        if rest[k] != x {
          var j :| 0 <= j < |s[1..]| && s[1..][j] == rest[k];
          assert leq(s[0], s[j + 1]);
        }
      }
    }
  }

  lemma SmallestFirst<T(!new)>(leq: (T, T) -> bool, x: T, s: seq<T>)
    requires TotalOrder(leq) && SortedBy(leq, s) && s != [] && leq(x, s[0])
    ensures SortedBy(leq, [x] + s)
  {
    forall j | 0 <= j < |s|
      ensures leq(x, s[j])
    {
      assert j == 0 || leq(s[0], s[j]);
    }
  }

  lemma {:induction false} SortByIsSorted<T(!new)>(leq: (T, T) -> bool, s: seq<T>)
    requires TotalOrder(leq)
    ensures SortedBy(leq, SortBy(leq, s))
    ensures multiset(SortBy(leq, s)) == multiset(s)
  {
    if s != [] {
      SortByIsSorted(leq, s[1..]);
      InsertIsSorted(leq, s[0], SortBy(leq, s[1..]));
      assert s == [s[0]] + s[1..];
    }
  }

  lemma {:induction false} InsertKeepsDistinct<T(!new)>(leq: (T, T) -> bool, x: T, s: seq<T>)
    requires NoDuplicates(s) && x !in s
    ensures NoDuplicates(Insert(leq, x, s))
    ensures forall y :: y in Insert(leq, x, s) <==> y == x || y in s
  {
    if s != [] && !leq(x, s[0]) {
      assert s == [s[0]] + s[1..];
      InsertKeepsDistinct(leq, x, s[1..]);
      assert s[0] !in Insert(leq, x, s[1..]);
    }
  }

  ghost predicate StrictlySortedBy<T>(leq: (T, T) -> bool, s: seq<T>) {
    forall i, j :: 0 <= i < j < |s| ==> leq(s[i], s[j]) && !leq(s[j], s[i])
  }

  lemma SameFirst<T(!new)>(leq: (T, T) -> bool, s: seq<T>, t: seq<T>)
    requires StrictlySortedBy(leq, s) && SortedBy(leq, t)
    requires s != [] && t != [] && s[0] in t && t[0] in s
    ensures s[0] == t[0]
  {
    var i :| 0 <= i < |s| && s[i] == t[0];
    var j :| 0 <= j < |t| && t[j] == s[0];
    assert j == 0 || leq(t[0], t[j]);
  }

  lemma TailMultiset<T>(s: seq<T>)
    requires s != []
    ensures multiset(s[1..]) == multiset(s) - multiset{s[0]}
  {
    assert s == [s[0]] + s[1..];
  }

  /** A strict arrangement is the only sorted arrangement of its elements. */
  lemma {:induction false} SortedIsUnique<T(!new)>(leq: (T, T) -> bool, s: seq<T>, t: seq<T>)
    requires StrictlySortedBy(leq, s) && SortedBy(leq, t) && multiset(s) == multiset(t)
    ensures s == t
  {
    if s == [] {
      assert |multiset(t)| == 0;
    } else {
      assert s[0] in multiset(t);
      assert t[0] in multiset(s);
      SameFirst(leq, s, t);
      TailMultiset(s);
      TailMultiset(t);
      SortedIsUnique(leq, s[1..], t[1..]);
      assert s == [s[0]] + s[1..] && t == [t[0]] + t[1..];
    }
  }

  // ---- texts in lexicographic order

  predicate TextLeq(a: string, b: string) {
    if a == [] then true
    else if b == [] then false
    else if a[0] != b[0] then a[0] < b[0]
    else TextLeq(a[1..], b[1..])
  }

  /** A text comes before another if it is a prefix of it, or has the smaller character where they first differ. */
  lemma {:induction false} TextLeqIff(a: string, b: string)
    ensures TextLeq(a, b) <==> a <= b || exists k: nat :: DiffersFirstAt(a, b, k) && a[k] < b[k]
  {
    if a != [] && b != [] {
      TextLeqIff(a[1..], b[1..]);
      assert a[0] == b[0] && a[1..] <= b[1..] ==> a <= b;
      if k: nat :| a[0] == b[0] && DiffersFirstAt(a[1..], b[1..], k) && a[1..][k] < b[1..][k] {
        assert DiffersFirstAt(a, b, k + 1);
      }
      if k: nat :| a[0] == b[0] && DiffersFirstAt(a, b, k) && a[k] < b[k] {
        assert DiffersFirstAt(a[1..], b[1..], k - 1);
      }
      assert a[0] != b[0] ==> DiffersFirstAt(a, b, 0);
    }
  }

  predicate DiffersFirstAt(a: string, b: string, k: nat) {
    k < |a| && k < |b| && a[k] != b[k] && forall j :: 0 <= j < k ==> a[j] == b[j]
  }

  lemma {:induction false} TextTotal(a: string, b: string)
    ensures TextLeq(a, b) || TextLeq(b, a)
    ensures TextLeq(a, b) && TextLeq(b, a) ==> a == b
  {
    if a != [] && b != [] && a[0] == b[0] {
      TextTotal(a[1..], b[1..]);
      assert a == [a[0]] + a[1..] && b == [b[0]] + b[1..];
    }
  }

  lemma {:induction false} TextTransitive(a: string, b: string, c: string)
    requires TextLeq(a, b) && TextLeq(b, c)
    ensures TextLeq(a, c)
  {
    if a != [] && b != [] && c != [] && a[0] == b[0] == c[0] {
      TextTransitive(a[1..], b[1..], c[1..]);
    }
  }

  lemma TextOrderIsTotal()
    ensures TotalOrder(TextLeq)
  {
    forall a, b
      ensures TextLeq(a, b) || TextLeq(b, a)
    {
      TextTotal(a, b);
    }
    forall a, b, c | TextLeq(a, b) && TextLeq(b, c)
      ensures TextLeq(a, c)
    {
      TextTransitive(a, b, c);
    }
  }

  /** The elements of a set of texts in ascending order, as an ordered set yields them. */
  method Ascending(s: set<string>) returns (r: seq<string>)
    ensures SortedBy(TextLeq, r) && NoDuplicates(r)
    ensures forall x :: x in r <==> x in s
  {
    TextOrderIsTotal();
    var rest := s;
    r := [];
    while rest != {}
      invariant rest <= s && SortedBy(TextLeq, r) && NoDuplicates(r)
      invariant forall x :: x in r <==> x in s && x !in rest
    {
      var x :| x in rest;
      InsertIsSorted(TextLeq, x, r);
      InsertKeepsDistinct(TextLeq, x, r);
      r, rest := Insert(TextLeq, x, r), rest - {x};
    }
  }
}
