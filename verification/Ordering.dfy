/**
 Byte-wise order on strings, stable sorting by a key, and the two facts sorting is used for:
 the result is ordered, and it does not depend on the order of the input.
 */
module Ordering {
  import opened Basics

  /** Byte-wise lexicographic order. */
  predicate LessEq(a: Bytes, b: Bytes) {
    a == "" || (b != "" && (a[0] < b[0] || (a[0] == b[0] && LessEq(a[1..], b[1..]))))
  }

  lemma {:induction false} Total(a: Bytes, b: Bytes)
    ensures LessEq(a, b) || LessEq(b, a)
    ensures LessEq(a, b) && LessEq(b, a) ==> a == b
    ensures LessEq(a, a)
  {
    if a != "" {
      Total(a[1..], a[1..]);
      if b != "" {
        Total(a[1..], b[1..]);
      }
    }
  }

  lemma {:induction false} Transitive(a: Bytes, b: Bytes, c: Bytes)
    requires LessEq(a, b) && LessEq(b, c)
    ensures LessEq(a, c)
  {
    if a != "" && a[0] == b[0] && b[0] == c[0] {
      Transitive(a[1..], b[1..], c[1..]);
    }
  }

  predicate Sorted<T>(s: seq<T>, key: T -> Bytes) {
    forall i, j | 0 <= i < j < |s| :: LessEq(key(s[i]), key(s[j]))
  }

  function Insert<T>(x: T, s: seq<T>, key: T -> Bytes): seq<T> {
    if s == [] || LessEq(key(x), key(s[0])) then [x] + s
    else [s[0]] + Insert(x, s[1..], key)
  }

  /** Stable sort by key. */
  function Sort<T>(s: seq<T>, key: T -> Bytes): seq<T> {
    if s == [] then [] else Insert(s[0], Sort(s[1..], key), key)
  }

  function Self(s: Bytes): Bytes {
    s
  }

  lemma {:induction false} InsertKeeps<T>(x: T, s: seq<T>, key: T -> Bytes)
    ensures multiset(Insert(x, s, key)) == multiset{x} + multiset(s)
  {
    if s == [] || LessEq(key(x), key(s[0])) {
    } else {
      InsertKeeps(x, s[1..], key);
      assert s == [s[0]] + s[1..];
    }
  }

  lemma {:induction false} InsertSorts<T>(x: T, s: seq<T>, key: T -> Bytes)
    requires Sorted(s, key)
    ensures Sorted(Insert(x, s, key), key)
  {
    Total(key(x), if s == [] then "" else key(s[0]));
    if s == [] {
    } else if LessEq(key(x), key(s[0])) {
      forall j | 0 <= j < |s| ensures LessEq(key(x), key(s[j])) {
        if j > 0 { Transitive(key(x), key(s[0]), key(s[j])); }
      }
    } else {
      var tail := Insert(x, s[1..], key);
      InsertSorts(x, s[1..], key);
      InsertKeeps(x, s[1..], key);
      forall j | 0 <= j < |tail| ensures LessEq(key(s[0]), key(tail[j])) {
        assert tail[j] in multiset(tail);
        if tail[j] != x {
          assert tail[j] in s[1..];
        }
      }
    }
  }

  lemma {:induction false} SortSorts<T>(s: seq<T>, key: T -> Bytes)
    ensures Sorted(Sort(s, key), key)
    ensures multiset(Sort(s, key)) == multiset(s)
    ensures |Sort(s, key)| == |s|
  {
    if s != [] {
      SortSorts(s[1..], key);
      InsertSorts(s[0], Sort(s[1..], key), key);
      InsertKeeps(s[0], Sort(s[1..], key), key);
      assert s == [s[0]] + s[1..];
    }
    assert |Sort(s, key)| == |multiset(Sort(s, key))|;
  }

  predicate KeysTellApart<T(==)>(s: seq<T>, key: T -> Bytes) {
    forall i, j | 0 <= i < |s| && 0 <= j < |s| :: key(s[i]) == key(s[j]) ==> s[i] == s[j]
  }

  lemma LeastFirst<T>(a: seq<T>, x: T, key: T -> Bytes)
    requires Sorted(a, key) && x in a
    ensures LessEq(key(a[0]), key(x))
  {
    var i :| 0 <= i < |a| && a[i] == x;
    Total(key(x), key(x));
  }

  lemma SameFirst<T>(a: seq<T>, b: seq<T>, key: T -> Bytes)
    requires Sorted(a, key) && Sorted(b, key) && multiset(a) == multiset(b)
    requires KeysTellApart(a, key) && a != [] && b != []
    ensures a[0] == b[0]
  {
    assert b[0] in multiset(a) && a[0] in multiset(b);
    LeastFirst(a, b[0], key);
    LeastFirst(b, a[0], key);
    Total(key(a[0]), key(b[0]));
  }

  lemma MultisetTail<T>(a: seq<T>)
    requires a != []
    ensures multiset(a[1..]) == multiset(a) - multiset{a[0]}
  {
    assert a == [a[0]] + a[1..];
  }

  /** Two sorted lists of the same elements are the same list. */
  lemma {:induction false} SortedIsUnique<T>(a: seq<T>, b: seq<T>, key: T -> Bytes)
    requires Sorted(a, key) && Sorted(b, key) && multiset(a) == multiset(b)
    requires KeysTellApart(a, key)
    ensures a == b
  {
    assert |a| == |multiset(a)| == |multiset(b)| == |b|;
    if a != [] {
      SameFirst(a, b, key);
      MultisetTail(a);
      MultisetTail(b);
      SortedIsUnique(a[1..], b[1..], key);
      assert a == [a[0]] + a[1..] && b == [b[0]] + b[1..];
    }
  }

  /** Sorting does not see the order of its input. */
  lemma SortIgnoresOrder<T>(a: seq<T>, b: seq<T>, key: T -> Bytes)
    requires multiset(a) == multiset(b) && KeysTellApart(a, key)
    ensures Sort(a, key) == Sort(b, key)
  {
    SortSorts(a, key);
    SortSorts(b, key);
    var s := Sort(a, key);
    forall i, j | 0 <= i < |s| && 0 <= j < |s| && key(s[i]) == key(s[j]) ensures s[i] == s[j] {
      assert s[i] in multiset(a) && s[j] in multiset(a);
    }
    SortedIsUnique(s, Sort(b, key), key);
  }
}
