/** Go's string order and the outcome of sort.Slice with a string key: a
    sorted permutation of the input. Go's sort is not stable; the model
    sorts by insertion, one of the orders sort.Slice may produce. */
module Sorting {

  /** Go's `a < b` on strings: lexicographic by character (code point order
      agrees with the order of the UTF-8 bytes Go compares). */
  predicate LexLess(a: string, b: string)
    decreases |a|
  {
    if a == [] then b != []
    else if b == [] then false
    else if a[0] != b[0] then a[0] < b[0]
    else LexLess(a[1..], b[1..])
  }

  lemma {:induction false} LexIrreflexive(a: string)
    ensures !LexLess(a, a)
    decreases |a|
  {
    if a != [] {
      LexIrreflexive(a[1..]);
    }
  }

  /** Of two different strings, one is less than the other, and never both. */
  lemma {:induction false} LexTotal(a: string, b: string)
    ensures a != b ==> LexLess(a, b) || LexLess(b, a)
    ensures !(LexLess(a, b) && LexLess(b, a))
    decreases |a|
  {
    if a != [] && b != [] && a[0] == b[0] {
      LexTotal(a[1..], b[1..]);
      if a != b {
        assert a == [a[0]] + a[1..] && b == [b[0]] + b[1..];
      }
    }
  }

  lemma {:induction false} LexTransitive(a: string, b: string, c: string)
    requires LexLess(a, b) && LexLess(b, c)
    ensures LexLess(a, c)
    decreases |a|
  {
    if a != [] && a[0] == b[0] && b[0] == c[0] {
      LexTransitive(a[1..], b[1..], c[1..]);
    }
  }

  /** Not greater: the order sort.Slice leaves adjacent elements in. */
  predicate LexLe(a: string, b: string) {
    !LexLess(b, a)
  }

  lemma LexLeTransitive(a: string, b: string, c: string)
    requires LexLe(a, b) && LexLe(b, c)
    ensures LexLe(a, c)
  {
    if a != b && LexLess(c, a) {
      LexTotal(a, b);
      LexTransitive(c, a, b);
    }
  }

  predicate SortedBy<T>(s: seq<T>, key: T -> string) {
    forall i, j :: 0 <= i < j < |s| ==> LexLe(key(s[i]), key(s[j]))
  }

  /** `x` inserted before the first element with a greater key. */
  function Insert<T(==)>(x: T, s: seq<T>, key: T -> string): (r: seq<T>)
    requires SortedBy(s, key)
    ensures multiset(r) == multiset(s) + multiset{x}
    ensures |r| == |s| + 1
    ensures SortedBy(r, key)
    decreases |s|
  {
    if s == [] then [x]
    else if LexLess(key(x), key(s[0])) then
      InsertFront(x, s, key);
      [x] + s
    else
      var t := Insert(x, s[1..], key);
      assert SortedBy(s[1..], key);
      InsertRest(x, s, key, t);
      assert s == [s[0]] + s[1..];
      [s[0]] + t
  }

  lemma InsertFront<T>(x: T, s: seq<T>, key: T -> string)
    requires s != [] && SortedBy(s, key) && LexLess(key(x), key(s[0]))
    ensures SortedBy([x] + s, key)
  {
    var r := [x] + s;
    LexTotal(key(x), key(s[0]));
    forall i, j | 0 <= i < j < |r|
      ensures LexLe(key(r[i]), key(r[j]))
    {
      if i == 0 && j > 1 {
        assert LexLe(key(s[0]), key(s[j - 1]));
        LexLeTransitive(key(x), key(s[0]), key(s[j - 1]));
      }
    }
  }

  lemma InsertRest<T>(x: T, s: seq<T>, key: T -> string, t: seq<T>)
    requires s != [] && SortedBy(s, key) && !LexLess(key(x), key(s[0]))
    requires SortedBy(t, key) && multiset(t) == multiset(s[1..]) + multiset{x}
    ensures SortedBy([s[0]] + t, key)
  {
    var r := [s[0]] + t;
    forall j | 0 <= j < |t|
      ensures LexLe(key(s[0]), key(t[j]))
    {
      assert t[j] in multiset(t);
      if t[j] != x {
        assert t[j] in multiset(s[1..]);
        var k :| 0 <= k < |s[1..]| && s[1..][k] == t[j];
        assert s[k + 1] == t[j];
      }
    }
    forall i, j | 0 <= i < j < |r|
      ensures LexLe(key(r[i]), key(r[j]))
    {
      if i > 0 {
        assert r[i] == t[i - 1] && r[j] == t[j - 1];
      } else {
        assert r[j] == t[j - 1];
      }
    }
  }

  /** sort.Slice(s, key(s[i]) < key(s[j])): the elements of `s`, each as
      often as in `s`, in key order. */
  method SortBy<T(==)>(s: seq<T>, key: T -> string) returns (r: seq<T>)
    ensures SortedBy(r, key)
    ensures multiset(r) == multiset(s) && |r| == |s|
  {
    r := [];
    for i := 0 to |s|
      invariant SortedBy(r, key)
      invariant multiset(r) == multiset(s[..i]) && |r| == i
    {
      assert s[..i + 1] == s[..i] + [s[i]];
      r := Insert(s[i], r, key);
    }
    assert s[..|s|] == s;
  }
}
