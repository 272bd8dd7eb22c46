// The stable ascending sort by a key.
module Sorting {

  ghost predicate Ascending<T>(s: seq<T>, key: T -> real)
  {
    forall i, j :: 0 <= i < j < |s| ==> key(s[i]) <= key(s[j])
  }

  /** Insert after every element whose key is not larger. */
  function Insert<T>(s: seq<T>, x: T, key: T -> real): seq<T>
  {
    if s == [] || key(s[|s| - 1]) <= key(x) then s + [x] else Insert(s[..|s| - 1], x, key) + [s[|s| - 1]]
  }

  function SortBy<T>(s: seq<T>, key: T -> real): seq<T>
  {
    if s == [] then [] else Insert(SortBy(s[..|s| - 1], key), s[|s| - 1], key)
  }

  /** The elements with key v, in order. */
  function WithKey<T>(s: seq<T>, key: T -> real, v: real): seq<T>
  {
    if s == [] then []
    else WithKey(s[..|s| - 1], key, v) + if key(s[|s| - 1]) == v then [s[|s| - 1]] else []
  }

  lemma {:induction false} InsertMembers<T>(s: seq<T>, x: T, key: T -> real)
    ensures multiset(Insert(s, x, key)) == multiset(s) + multiset{x}
    ensures forall y :: y in Insert(s, x, key) ==> y in s || y == x
  {
    if s != [] && key(s[|s| - 1]) > key(x) {
      InsertMembers(s[..|s| - 1], x, key);
      assert s == s[..|s| - 1] + [s[|s| - 1]];
    }
  }

  lemma {:induction false} InsertAscending<T>(s: seq<T>, x: T, key: T -> real)
    requires Ascending(s, key)
    ensures Ascending(Insert(s, x, key), key)
  {
    if s != [] {
      var last := |s| - 1;
      forall i | 0 <= i < last
        ensures key(s[i]) <= key(s[last])
      {
      }
      if key(s[last]) > key(x) {
        InsertAscending(s[..last], x, key);
        var r := Insert(s[..last], x, key);
        InsertMembers(s[..last], x, key);
        forall i | 0 <= i < |r|
          ensures key(r[i]) <= key(s[last])
        {
          assert r[i] in r;
          if r[i] in s[..last] {
            var j :| 0 <= j < last && s[j] == r[i];
          }
        }
      }
    }
  }

  /** Sorted, and a permutation. */
  lemma {:induction false} SortBySorts<T>(s: seq<T>, key: T -> real)
    ensures Ascending(SortBy(s, key), key) && multiset(SortBy(s, key)) == multiset(s)
  {
    if s != [] {
      SortBySorts(s[..|s| - 1], key);
      InsertMembers(SortBy(s[..|s| - 1], key), s[|s| - 1], key);
      InsertAscending(SortBy(s[..|s| - 1], key), s[|s| - 1], key);
      assert multiset(s) == multiset(s[..|s| - 1]) + multiset{s[|s| - 1]} by {
        assert s == s[..|s| - 1] + [s[|s| - 1]];
      }
    }
  }

  lemma {:induction false} InsertStable<T>(s: seq<T>, x: T, key: T -> real, v: real)
    requires Ascending(s, key)
    ensures WithKey(Insert(s, x, key), key, v) == WithKey(s, key, v) + if key(x) == v then [x] else []
  {
    var last := |s| - 1;
    if s == [] || key(s[last]) <= key(x) {
      assert (s + [x])[..|s|] == s;
    } else {
      InsertStable(s[..last], x, key, v);
      var r := Insert(s[..last], x, key);
      assert (r + [s[last]])[..|r|] == r;
      if key(x) == v {
        assert WithKey(s, key, v) == WithKey(s[..last], key, v);
      }
    }
  }

  /** Elements of equal key stay in order. */
  lemma {:induction false} SortByStable<T>(s: seq<T>, key: T -> real, v: real)
    ensures WithKey(SortBy(s, key), key, v) == WithKey(s, key, v)
  {
    if s != [] {
      SortByStable(s[..|s| - 1], key, v);
      SortBySorts(s[..|s| - 1], key);
      InsertStable(SortBy(s[..|s| - 1], key), s[|s| - 1], key, v);
    }
  }

  /** The first n of the sorted sequence have the n least keys. */
  lemma PrefixHasLeast<T>(s: seq<T>, key: T -> real, n: nat, i: nat, j: nat)
    requires i < n <= j < |s|
    ensures |SortBy(s, key)| == |s| && key(SortBy(s, key)[i]) <= key(SortBy(s, key)[j])
  {
    SortBySorts(s, key);
    assert |multiset(SortBy(s, key))| == |multiset(s)|;
  }
}
