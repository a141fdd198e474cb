/** The two list idioms the reconciliation is built from: keeping the elements
    that pass a test (appending to a Go slice in a loop), and indexing a list
    by a key into a Go map, where a later element overwrites an earlier one. */
module Collections {
  import opened Wrappers

  /** The elements of `s` that satisfy `p`, in their original order. */
  function Filter<T>(s: seq<T>, p: T -> bool): (r: seq<T>)
    ensures |r| <= |s|
  {
    if s == [] then []
    else Filter(s[..|s| - 1], p) + (if p(s[|s| - 1]) then [s[|s| - 1]] else [])
  }

  /** `a` can be obtained from `b` by deleting elements, without reordering. */
  ghost predicate IsSubsequence<T>(a: seq<T>, b: seq<T>)
  {
    a == [] ||
    (b != [] &&
     ((a[|a| - 1] == b[|b| - 1] && IsSubsequence(a[..|a| - 1], b[..|b| - 1])) ||
      IsSubsequence(a, b[..|b| - 1])))
  }

  /** Filtering deletes elements and never reorders them. */
  lemma {:induction false} FilterIsSubsequence<T>(s: seq<T>, p: T -> bool)
    ensures IsSubsequence(Filter(s, p), s)
  {
    if s != [] {
      var s' := s[..|s| - 1];
      var x := s[|s| - 1];
      FilterIsSubsequence(s', p);
      assert s' + [x] == s;
      if p(x) {
        assert (Filter(s', p) + [x])[..|Filter(s', p)|] == Filter(s', p);
      } else {
        var f := Filter(s', p);
        assert Filter(s, p) == f;
        assert s[..|s| - 1] == s';
        assert IsSubsequence(f, s[..|s| - 1]);
        assert IsSubsequence(f, s);
      }
    }
  }

  /** An element is kept exactly when it occurs in the input and passes the test. */
  lemma {:induction false} FilterMembership<T>(s: seq<T>, p: T -> bool, x: T)
    ensures x in Filter(s, p) <==> x in s && p(x)
  {
    if s != [] {
      var s' := s[..|s| - 1];
      FilterMembership(s', p, x);
      assert s == s' + [s[|s| - 1]];
    }
  }

  /** Every element that is kept passes the test. */
  lemma {:induction false} FilterSatisfies<T>(s: seq<T>, p: T -> bool)
    ensures forall i :: 0 <= i < |Filter(s, p)| ==> p(Filter(s, p)[i])
  {
    if s != [] {
      FilterSatisfies(s[..|s| - 1], p);
    }
  }

  /** Filtering a concatenation filters each part: what passes from `a` comes
      before what passes from `b`. */
  lemma {:induction false} FilterConcat<T>(a: seq<T>, b: seq<T>, p: T -> bool)
    ensures Filter(a + b, p) == Filter(a, p) + Filter(b, p)
    decreases |b|
  {
    if b == [] {
      assert a + b == a;
    } else {
      var b' := b[..|b| - 1];
      assert (a + b)[..|a + b| - 1] == a + b';
      FilterConcat(a, b', p);
    }
  }

  /** Filtering keeps every copy of an element that passes the test and no
      copy of one that fails it. */
  lemma {:induction false} FilterMultiset<T>(s: seq<T>, p: T -> bool, x: T)
    ensures multiset(Filter(s, p))[x] == if p(x) then multiset(s)[x] else 0
  {
    if s != [] {
      var s' := s[..|s| - 1];
      FilterMultiset(s', p, x);
      assert s == s' + [s[|s| - 1]];
    }
  }

  /** Two tests that agree on every element filter alike. */
  lemma {:induction false} FilterAgree<T>(s: seq<T>, p: T -> bool, q: T -> bool)
    requires forall i :: 0 <= i < |s| ==> p(s[i]) == q(s[i])
    ensures Filter(s, p) == Filter(s, q)
  {
    if s != [] {
      FilterAgree(s[..|s| - 1], p, q);
    }
  }

  /** Filtering twice with the same test is filtering once. */
  lemma {:induction false} FilterIdempotent<T>(s: seq<T>, p: T -> bool)
    ensures Filter(Filter(s, p), p) == Filter(s, p)
  {
    if s != [] {
      var s' := s[..|s| - 1];
      var x := s[|s| - 1];
      FilterIdempotent(s', p);
      FilterConcat(Filter(s', p), if p(x) then [x] else [], p);
    }
  }

  /** The map a Go loop `m[key(x)] = x` over `xs` leaves behind. */
  function IndexBy<K, V>(xs: seq<V>, key: V -> K): map<K, V>
  {
    if xs == [] then map[]
    else IndexBy(xs[..|xs| - 1], key)[key(xs[|xs| - 1]) := xs[|xs| - 1]]
  }

  /** Position `i` holds the last element of `xs` whose key is `k`. */
  ghost predicate IsLastWithKey<K, V>(xs: seq<V>, key: V -> K, k: K, i: int)
  {
    0 <= i < |xs| && key(xs[i]) == k && forall j :: i < j < |xs| ==> key(xs[j]) != k
  }

  /** A key is in the index exactly when some element carries it, and it then
      maps to the last such element (last write wins). */
  lemma {:induction false} IndexByLastWins<K, V>(xs: seq<V>, key: V -> K, k: K)
    ensures k in IndexBy(xs, key) <==> exists i :: 0 <= i < |xs| && key(xs[i]) == k
    ensures k in IndexBy(xs, key) ==>
      exists i :: IsLastWithKey(xs, key, k, i) && IndexBy(xs, key)[k] == xs[i]
  {
    if xs != [] {
      var xs' := xs[..|xs| - 1];
      var n := |xs| - 1;
      IndexByLastWins(xs', key, k);
      if key(xs[n]) == k {
        assert IsLastWithKey(xs, key, k, n);
      } else if k in IndexBy(xs', key) {
        var i :| IsLastWithKey(xs', key, k, i) && IndexBy(xs', key)[k] == xs'[i];
        assert IsLastWithKey(xs, key, k, i);
      } else {
        forall i | 0 <= i < |xs| ensures key(xs[i]) != k {
          if i < n { assert xs[i] == xs'[i]; }
        }
      }
    }
  }

  /** Go's `m[k]` on a map of pointers: nil (here None) for a missing key. */
  function Lookup<K, V>(m: map<K, V>, k: K): (r: Option<V>)
    ensures r.Some? <==> k in m
    ensures r.Some? ==> r.value == m[k]
  {
    if k in m then Some(m[k]) else None
  }
}
