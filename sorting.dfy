/** Python's `sorted(xs, key=...)` for keys that are pairs of integers
    compared lexicographically: a stable sort, written as insertion sort. */
module Sorting {

  type Key = (int, int)

  predicate KeyLe(a: Key, b: Key) {
    a.0 < b.0 || (a.0 == b.0 && a.1 <= b.1)
  }

  predicate SortedBy<T>(s: seq<T>, key: T -> Key) {
    forall i, j | 0 <= i < j < |s| :: KeyLe(key(s[i]), key(s[j]))
  }

  /** Inserts x after every element whose key is at most x's key. */
  function Insert<T>(x: T, s: seq<T>, key: T -> Key): (r: seq<T>)
    ensures |r| == |s| + 1
    decreases |s|
  {
    if s == [] then [x]
    else if KeyLe(key(s[|s| - 1]), key(x)) then s + [x]
    else Insert(x, s[..|s| - 1], key) + [s[|s| - 1]]
  }

  /** sorted(s, key=key) */
  function SortBy<T>(s: seq<T>, key: T -> Key): (r: seq<T>)
    ensures |r| == |s|
    decreases |s|
  {
    if s == [] then [] else Insert(s[|s| - 1], SortBy(s[..|s| - 1], key), key)
  }

  /** The elements of s whose key is k, in their order in s. */
  function WithKey<T>(s: seq<T>, key: T -> Key, k: Key): seq<T>
    decreases |s|
  {
    if s == [] then []
    else WithKey(s[..|s| - 1], key, k) + (if key(s[|s| - 1]) == k then [s[|s| - 1]] else [])
  }

  /** Dropping the last element keeps a sequence sorted. */
  lemma SortedInit<T>(s: seq<T>, key: T -> Key)
    requires SortedBy(s, key) && s != []
    ensures SortedBy(s[..|s| - 1], key)
    ensures forall i | 0 <= i < |s| - 1 :: KeyLe(key(s[i]), key(s[|s| - 1]))
  {
    var init := s[..|s| - 1];
    forall i, j | 0 <= i < j < |init| ensures KeyLe(key(init[i]), key(init[j])) {
      assert init[i] == s[i] && init[j] == s[j];
    }
  }

  /** An element no smaller than all others may go last. */
  lemma SortedSnoc<T>(s: seq<T>, x: T, key: T -> Key)
    requires SortedBy(s, key) && forall i | 0 <= i < |s| :: KeyLe(key(s[i]), key(x))
    ensures SortedBy(s + [x], key)
  {
    var t := s + [x];
    forall i, j | 0 <= i < j < |t| ensures KeyLe(key(t[i]), key(t[j])) {
      assert t[i] == s[i];
    }
  }

  lemma {:induction false} WithKeyAppend<T>(a: seq<T>, b: seq<T>, key: T -> Key, k: Key)
    ensures WithKey(a + b, key, k) == WithKey(a, key, k) + WithKey(b, key, k)
    decreases |b|
  {
    if b == [] {
      assert a + b == a;
    } else {
      assert (a + b)[..|a + b| - 1] == a + b[..|b| - 1];
      WithKeyAppend(a, b[..|b| - 1], key, k);
    }
  }

  lemma {:induction false} InsertPermutes<T>(x: T, s: seq<T>, key: T -> Key)
    ensures multiset(Insert(x, s, key)) == multiset(s) + multiset{x}
    decreases |s|
  {
    if s != [] && !KeyLe(key(s[|s| - 1]), key(x)) {
      InsertPermutes(x, s[..|s| - 1], key);
      assert s == s[..|s| - 1] + [s[|s| - 1]];
    }
  }

  /** Insert adds x and nothing else. */
  lemma InsertMembers<T>(x: T, s: seq<T>, key: T -> Key)
    ensures forall i | 0 <= i < |Insert(x, s, key)| :: Insert(x, s, key)[i] == x || Insert(x, s, key)[i] in s
  {
    InsertPermutes(x, s, key);
    var r := Insert(x, s, key);
    forall i | 0 <= i < |r| ensures r[i] == x || r[i] in s {
      assert r[i] in multiset(r);
    }
  }

  lemma {:induction false} InsertSorted<T>(x: T, s: seq<T>, key: T -> Key)
    requires SortedBy(s, key)
    ensures SortedBy(Insert(x, s, key), key)
    decreases |s|
  {
    if s != [] {
      var last := s[|s| - 1];
      if !KeyLe(key(last), key(x)) {
        var s' := s[..|s| - 1];
        InsertSorted(x, s', key);
        InsertMembers(x, s', key);
        var r := Insert(x, s', key);
        assert Insert(x, s, key) == r + [last];
        forall i | 0 <= i < |r| ensures KeyLe(key(r[i]), key(last)) {
          if r[i] != x {
            var m :| 0 <= m < |s'| && s'[m] == r[i];
            assert s[m] == s'[m];
          }
        }
      }
    }
  }

  /** Where x lands, the elements with x's key all stay before it. */
  lemma {:induction false} InsertStable<T>(x: T, s: seq<T>, key: T -> Key, k: Key)
    ensures WithKey(Insert(x, s, key), key, k) == WithKey(s, key, k) + (if key(x) == k then [x] else [])
    decreases |s|
  {
    if s == [] {
      assert WithKey([x], key, k) == WithKey([], key, k) + (if key(x) == k then [x] else []);
    } else if KeyLe(key(s[|s| - 1]), key(x)) {
      WithKeyAppend(s, [x], key, k);
      assert WithKey([x], key, k) == WithKey([], key, k) + (if key(x) == k then [x] else []);
    } else {
      var s' := s[..|s| - 1];
      var last := s[|s| - 1];
      assert Insert(x, s, key) == Insert(x, s', key) + [last];
      assert WithKey(s, key, k) == WithKey(s', key, k) + (if key(last) == k then [last] else []);
      InsertStable(x, s', key, k);
      WithKeyAppend(Insert(x, s', key), [last], key, k);
      assert WithKey([last], key, k) == WithKey([], key, k) + (if key(last) == k then [last] else []);
      assert key(x) == k ==> key(last) != k;
    }
  }

  /** sorted() returns its input in non-decreasing key order ... */
  lemma {:induction false} SortBySorted<T>(s: seq<T>, key: T -> Key)
    ensures SortedBy(SortBy(s, key), key)
    decreases |s|
  {
    if s != [] {
      SortBySorted(s[..|s| - 1], key);
      InsertSorted(s[|s| - 1], SortBy(s[..|s| - 1], key), key);
    }
  }

  /** ... as a permutation of it ... */
  lemma {:induction false} SortByPermutes<T>(s: seq<T>, key: T -> Key)
    ensures multiset(SortBy(s, key)) == multiset(s)
    decreases |s|
  {
    if s != [] {
      SortByPermutes(s[..|s| - 1], key);
      InsertPermutes(s[|s| - 1], SortBy(s[..|s| - 1], key), key);
      assert s == s[..|s| - 1] + [s[|s| - 1]];
    }
  }

  /** ... and stably: the elements sharing a key keep their relative order. */
  lemma {:induction false} SortByStable<T>(s: seq<T>, key: T -> Key, k: Key)
    ensures WithKey(SortBy(s, key), key, k) == WithKey(s, key, k)
    decreases |s|
  {
    if s != [] {
      SortByStable(s[..|s| - 1], key, k);
      InsertStable(s[|s| - 1], SortBy(s[..|s| - 1], key), key, k);
    }
  }
}
