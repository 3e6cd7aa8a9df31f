/** Optional values, results and the few sequence facts that several modules share. */
module Prelude {

  datatype Option<+T> = None | Some(value: T) {
    function GetOr(default: T): T {
      if Some? then value else default
    }
  }

  datatype Result<+T, +E> = Ok(value: T) | Err(error: E)

  function Last<T>(s: seq<T>): T
    requires s != []
  {
    s[|s| - 1]
  }

  function Max(a: int, b: int): int {
    if a < b then b else a
  }

  function Min(a: int, b: int): int {
    if a < b then a else b
  }

  ghost predicate NoDuplicates<T(!new)>(s: seq<T>) {
    forall i, j :: 0 <= i < j < |s| ==> s[i] != s[j]
  }

  function Reverse<T>(s: seq<T>): (r: seq<T>)
    ensures |r| == |s|
    ensures forall k :: 0 <= k < |s| ==> r[k] == s[|s| - 1 - k]
  {
    if s == [] then [] else [Last(s)] + Reverse(s[..|s| - 1])
  }

  /** A text splits in only one way at its first separator. */
  lemma {:induction false} SplitAtFirst<T(!new)>(sep: T, a: seq<T>, b: seq<T>, c: seq<T>, d: seq<T>)
    requires sep !in a && sep !in c && a + [sep] + b == c + [sep] + d
    ensures a == c && b == d
  {
    var x, y := a + [sep] + b, c + [sep] + d;
    assert x[0] == if a == [] then sep else a[0];
    assert y[0] == if c == [] then sep else c[0];
    if a == [] {
      assert b == x[1..] && d == y[1..];
    } else {
      assert x[1..] == a[1..] + [sep] + b;
      assert y[1..] == c[1..] + [sep] + d;
      SplitAtFirst(sep, a[1..], b, c[1..], d);
      assert a == [a[0]] + a[1..] && c == [c[0]] + c[1..];
    }
  }

  /** And in only one way at its last. */
  lemma {:induction false} SplitAtLast<T(!new)>(sep: T, a: seq<T>, b: seq<T>, c: seq<T>, d: seq<T>)
    requires sep !in b && sep !in d && a + [sep] + b == c + [sep] + d
    ensures a == c && b == d
    decreases |b|
  {
    var x, y := a + [sep] + b, c + [sep] + d;
    assert Last(x) == if b == [] then sep else Last(b);
    assert Last(y) == if d == [] then sep else Last(d);
    if b == [] {
      assert a == x[..|x| - 1] && c == y[..|y| - 1];
    } else {
      assert x[..|x| - 1] == a + [sep] + b[..|b| - 1];
      assert y[..|y| - 1] == c + [sep] + d[..|d| - 1];
      SplitAtLast(sep, a, b[..|b| - 1], c, d[..|d| - 1]);
      assert b == b[..|b| - 1] + [Last(b)] && d == d[..|d| - 1] + [Last(d)];
    }
  }

  /** The parts of a text between its separators. */
  function Parts(s: string, sep: char): (parts: seq<string>)
    ensures parts != []
  {
    if s == "" then [""]
    else
      var rest := Parts(s[1..], sep);
      if s[0] == sep then [""] + rest else [[s[0]] + rest[0]] + rest[1..]
  }

  lemma {:induction false} FirstPart(a: string, sep: char, b: string)
    requires sep !in a
    ensures Parts(a + [sep] + b, sep) == [a] + Parts(b, sep)
  {
    var s := a + [sep] + b;
    if a == "" {
      assert s[1..] == b;
    } else {
      assert s[1..] == a[1..] + [sep] + b;
      FirstPart(a[1..], sep, b);
      assert [a[0]] + a[1..] == a;
    }
  }

  lemma {:induction false} OnlyPart(a: string, sep: char)
    requires sep !in a
    ensures Parts(a, sep) == [a]
  {
    if a != "" {
      OnlyPart(a[1..], sep);
      assert [a[0]] + a[1..] == a;
    }
  }

  lemma SomeMember<T>(s: seq<T>)
    requires s != []
    ensures exists x :: x in s
  {
    assert s[0] in s;
  }
}
