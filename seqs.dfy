/** Small facts about sequences shared by the other modules. */
module Seqs {

  /** A value that may be missing (Python's None). */
  datatype Option<T> = None | Some(value: T)

  /** No element occurs twice. */
  predicate Distinct<T(==)>(s: seq<T>) {
    forall i, j | 0 <= i < j < |s| :: s[i] != s[j]
  }

  lemma DistinctAppend<T>(s: seq<T>, x: T)
    requires Distinct(s) && x !in s
    ensures Distinct(s + [x])
  {
    var t := s + [x];
    forall i, j | 0 <= i < j < |t| ensures t[i] != t[j] {
      if j < |s| {
        assert t[i] == s[i] && t[j] == s[j];
      } else {
        assert t[i] == s[i] && s[i] in s;
      }
    }
  }

  lemma DistinctInit<T>(s: seq<T>)
    requires Distinct(s) && s != []
    ensures Distinct(s[..|s| - 1])
  {
    var init := s[..|s| - 1];
    forall i, j | 0 <= i < j < |init| ensures init[i] != init[j] {
      assert init[i] == s[i] && init[j] == s[j];
    }
  }

  /** A value occurs at most once in a sequence without repetitions. */
  lemma {:induction false} DistinctCount<T>(s: seq<T>, y: T)
    requires Distinct(s)
    ensures multiset(s)[y] <= 1
    decreases |s|
  {
    if s != [] {
      var init := s[..|s| - 1];
      DistinctInit(s);
      DistinctCount(init, y);
      assert s == init + [s[|s| - 1]];
      if s[|s| - 1] == y {
        forall m | 0 <= m < |init| ensures init[m] != y {
          assert init[m] == s[m];
        }
        assert y !in init;
      }
    }
  }

  lemma AppendAssoc<T>(a: seq<T>, b: seq<T>, c: seq<T>)
    ensures a + (b + c) == a + b + c
  {
  }

  /** One more step of a loop over a prefix, after some earlier elements. */
  lemma PrefixStep<T>(before: seq<T>, s: seq<T>, j: nat)
    requires j < |s|
    ensures before + s[..j + 1] == before + s[..j] + [s[j]]
  {
  }

  /** Two equal elements at different positions count twice in the multiset. */
  lemma TwoOccurrences<T>(s: seq<T>, i: nat, j: nat)
    requires i < j < |s|
    ensures s[i] == s[j] ==> multiset(s)[s[i]] >= 2
  {
    assert s == s[..i] + [s[i]] + s[i + 1..j] + [s[j]] + s[j + 1..];
  }

  /** [x for x in s if keep(x)] */
  function Filter<T(==)>(s: seq<T>, keep: T -> bool): seq<T>
    decreases |s|
  {
    if s == [] then []
    else Filter(s[..|s| - 1], keep) + (if keep(s[|s| - 1]) then [s[|s| - 1]] else [])
  }

  /** A filter keeps exactly the elements that pass, in order. */
  lemma {:induction false} FilterKeeps<T>(s: seq<T>, keep: T -> bool)
    ensures forall i | 0 <= i < |Filter(s, keep)| :: Filter(s, keep)[i] in s && keep(Filter(s, keep)[i])
    ensures forall x | x in s && keep(x) :: x in Filter(s, keep)
    decreases |s|
  {
    if s != [] {
      var init := s[..|s| - 1];
      FilterKeeps(init, keep);
      var prev := Filter(init, keep);
      assert forall k | 0 <= k < |prev| :: prev[k] in init;
      assert s == init + [s[|s| - 1]];
      var r := Filter(s, keep);
      forall i | 0 <= i < |r| ensures r[i] in s && keep(r[i]) {
        assert r == prev + (if keep(s[|s| - 1]) then [s[|s| - 1]] else []);
        if i < |prev| {
          assert r[i] == prev[i];
          assert prev[i] in init;
          var m :| 0 <= m < |init| && init[m] == prev[i];
          assert s[m] == init[m];
        } else {
          assert r[i] == s[|s| - 1];
        }
      }
    }
  }

  /** The values f gives, in order, skipping the elements it maps to None. */
  function FilterMap<A, B(==)>(s: seq<A>, f: A -> Option<B>): seq<B>
    decreases |s|
  {
    if s == [] then []
    else FilterMap(s[..|s| - 1], f) + (if f(s[|s| - 1]).Some? then [f(s[|s| - 1]).value] else [])
  }

  lemma FilterMapStep<A, B>(s: seq<A>, i: nat, f: A -> Option<B>)
    requires i < |s|
    ensures FilterMap(s[..i + 1], f) == FilterMap(s[..i], f) + (if f(s[i]).Some? then [f(s[i]).value] else [])
  {
    assert s[..i + 1][..i] == s[..i];
  }

  /** A value is kept exactly when f gives it for some element. */
  lemma {:induction false} FilterMapSpec<A, B>(s: seq<A>, f: A -> Option<B>)
    ensures forall y :: y in FilterMap(s, f) <==> exists k | 0 <= k < |s| :: f(s[k]) == Some(y)
    decreases |s|
  {
    if s != [] {
      var init := s[..|s| - 1];
      FilterMapSpec(init, f);
      forall y ensures y in FilterMap(s, f) <==> exists k | 0 <= k < |s| :: f(s[k]) == Some(y) {
        if y in FilterMap(s, f) {
          if y in FilterMap(init, f) {
            var k :| 0 <= k < |init| && f(init[k]) == Some(y);
            assert s[k] == init[k];
          } else {
            assert f(s[|s| - 1]) == Some(y);
          }
        }
        if exists k | 0 <= k < |s| :: f(s[k]) == Some(y) {
          var k :| 0 <= k < |s| && f(s[k]) == Some(y);
          if k < |init| {
            assert init[k] == s[k];
          }
        }
      }
    }
  }

  /** The concatenation of f's values over s, in order. */
  function FlatMap<A, B>(s: seq<A>, f: A -> seq<B>): seq<B>
    decreases |s|
  {
    if s == [] then [] else FlatMap(s[..|s| - 1], f) + f(s[|s| - 1])
  }

  lemma FlatMapStep<A, B>(s: seq<A>, i: nat, f: A -> seq<B>)
    requires i < |s|
    ensures FlatMap(s[..i + 1], f) == FlatMap(s[..i], f) + f(s[i])
  {
    assert s[..i + 1][..i] == s[..i];
  }

  /** A value is in the concatenation exactly when f gives it for some element. */
  lemma {:induction false} FlatMapSpec<A, B>(s: seq<A>, f: A -> seq<B>)
    ensures forall y :: y in FlatMap(s, f) <==> exists i | 0 <= i < |s| :: y in f(s[i])
    decreases |s|
  {
    if s != [] {
      var init := s[..|s| - 1];
      FlatMapSpec(init, f);
      forall y ensures y in FlatMap(s, f) <==> exists i | 0 <= i < |s| :: y in f(s[i]) {
        if y in FlatMap(s, f) && y in FlatMap(init, f) {
          var i :| 0 <= i < |init| && y in f(init[i]);
          assert s[i] == init[i];
        }
        if exists i | 0 <= i < |s| :: y in f(s[i]) {
          var i :| 0 <= i < |s| && y in f(s[i]);
          if i < |init| {
            assert init[i] == s[i];
          }
        }
      }
    }
  }

  /** s[:n] */
  function Take<T>(s: seq<T>, n: nat): (r: seq<T>)
    ensures |r| == (if |s| <= n then |s| else n)
    ensures forall i | 0 <= i < |r| :: r[i] == s[i]
  {
    if |s| <= n then s else s[..n]
  }

  /** max(xs) */
  function Max(xs: seq<int>): (m: int)
    requires xs != []
    ensures m in xs && forall i | 0 <= i < |xs| :: xs[i] <= m
    decreases |xs|
  {
    if |xs| == 1 then xs[0]
    else
      var m := Max(xs[..|xs| - 1]);
      assert forall i | 0 <= i < |xs| - 1 :: xs[..|xs| - 1][i] == xs[i];
      if xs[|xs| - 1] > m then xs[|xs| - 1] else m
  }
}
