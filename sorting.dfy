/**
 * Python's `list.sort(key=...)`: a stable sort. It is modelled as an
 * insertion sort whose result is proved sorted, a permutation of its input,
 * and stable (elements with equal keys keep their input order).
 */
module Sorting {

  /** `le` is a total order: total, transitive and antisymmetric. */
  ghost predicate TotalOrder<K(!new)>(le: (K, K) -> bool)
  {
    && (forall a, b :: le(a, b) || le(b, a))
    && (forall a, b, c :: le(a, b) && le(b, c) ==> le(a, c))
    && (forall a, b :: le(a, b) && le(b, a) ==> a == b)
  }

  /** `s` is non-decreasing by `key`. */
  ghost predicate SortedBy<T, K>(s: seq<T>, key: T -> K, le: (K, K) -> bool)
  {
    forall i, j :: 0 <= i < j < |s| ==> le(key(s[i]), key(s[j]))
  }

  /** The elements of `s` whose key is `k`, in their order in `s`. */
  function WithKey<T, K(==)>(s: seq<T>, key: T -> K, k: K): seq<T>
  {
    if s == [] then []
    else WithKey(s[..|s| - 1], key, k) + (if key(s[|s| - 1]) == k then [s[|s| - 1]] else [])
  }

  /** Places `x` after every element of `s` whose key is at most its own. */
  function InsertBy<T, K>(s: seq<T>, x: T, key: T -> K, le: (K, K) -> bool): seq<T>
  {
    if s == [] then [x]
    else if le(key(s[|s| - 1]), key(x)) then s + [x]
    else InsertBy(s[..|s| - 1], x, key, le) + [s[|s| - 1]]
  }

  /** The stable sort of `s` by `key`. */
  function SortBy<T, K>(s: seq<T>, key: T -> K, le: (K, K) -> bool): seq<T>
  {
    if s == [] then []
    else InsertBy(SortBy(s[..|s| - 1], key, le), s[|s| - 1], key, le)
  }

  /** Insertion adds exactly the one element. */
  lemma {:induction false} InsertByPermutation<T, K>(s: seq<T>, x: T, key: T -> K, le: (K, K) -> bool)
    ensures multiset(InsertBy(s, x, key, le)) == multiset(s) + multiset{x}
  {
    if s != [] && !le(key(s[|s| - 1]), key(x)) {
      var init := s[..|s| - 1];
      assert s == init + [s[|s| - 1]];
      InsertByPermutation(init, x, key, le);
    }
  }

  /** The sort is a permutation of its input. */
  lemma {:induction false} SortByPermutation<T, K>(s: seq<T>, key: T -> K, le: (K, K) -> bool)
    ensures multiset(SortBy(s, key, le)) == multiset(s)
  {
    if s != [] {
      var init := s[..|s| - 1];
      assert s == init + [s[|s| - 1]];
      SortByPermutation(init, key, le);
      InsertByPermutation(SortBy(init, key, le), s[|s| - 1], key, le);
    }
  }

  /** Every element of the sorted sequence comes from the input. */
  lemma SortByMembers<T, K>(s: seq<T>, key: T -> K, le: (K, K) -> bool)
    ensures forall i :: 0 <= i < |SortBy(s, key, le)| ==> SortBy(s, key, le)[i] in s
  {
    var r := SortBy(s, key, le);
    SortByPermutation(s, key, le);
    forall i | 0 <= i < |r|
      ensures r[i] in s
    {
      assert r[i] in multiset(r);
    }
  }

  lemma {:induction false} InsertBySorted<T, K(!new)>(s: seq<T>, x: T, key: T -> K, le: (K, K) -> bool)
    requires TotalOrder(le) && SortedBy(s, key, le)
    ensures SortedBy(InsertBy(s, x, key, le), key, le)
  {
    if s == [] {
    } else if le(key(s[|s| - 1]), key(x)) {
    } else {
      var init, last := s[..|s| - 1], s[|s| - 1];
      InsertBySorted(init, x, key, le);
      var m := InsertBy(init, x, key, le);
      InsertByPermutation(init, x, key, le);
      forall i | 0 <= i < |m|
        ensures le(key(m[i]), key(last))
      {
        assert m[i] in multiset(m);
        if m[i] != x {
          assert m[i] in multiset(init);
          var k :| 0 <= k < |init| && init[k] == m[i];
          assert s[k] == m[i];
        }
      }
    }
  }

  /** The result of `SortBy` is non-decreasing by key. */
  lemma {:induction false} SortBySorted<T, K(!new)>(s: seq<T>, key: T -> K, le: (K, K) -> bool)
    requires TotalOrder(le)
    ensures SortedBy(SortBy(s, key, le), key, le)
  {
    if s != [] {
      SortBySorted(s[..|s| - 1], key, le);
      InsertBySorted(SortBy(s[..|s| - 1], key, le), s[|s| - 1], key, le);
    }
  }

  lemma {:induction false} WithKeyAppend<T, K>(a: seq<T>, b: seq<T>, key: T -> K, k: K)
    ensures WithKey(a + b, key, k) == WithKey(a, key, k) + WithKey(b, key, k)
  {
    if b != [] {
      var b' := b[..|b| - 1];
      assert (a + b)[..|a + b| - 1] == a + b';
      WithKeyAppend(a, b', key, k);
    } else {
      assert a + b == a;
    }
  }

  lemma WithKeySingle<T, K>(y: T, key: T -> K, k: K)
    ensures WithKey([y], key, k) == if key(y) == k then [y] else []
  {
    assert [y][..0] == [];
  }

  /** Two elements with different keys never both carry the key `k`, so their order does not matter to it. */
  lemma WithKeySwap<T, K>(x: T, y: T, key: T -> K, k: K)
    requires key(x) != key(y)
    ensures WithKey([x], key, k) + WithKey([y], key, k) == WithKey([y], key, k) + WithKey([x], key, k)
  {
    WithKeySingle(x, key, k);
    WithKeySingle(y, key, k);
  }

  /** Moving `x` in front of an element with a different key does not change any key's subsequence. */
  lemma InsertByStableStep<T, K>(init: seq<T>, last: T, x: T, m: seq<T>, key: T -> K, k: K)
    requires key(last) != key(x)
    requires WithKey(m, key, k) == WithKey(init + [x], key, k)
    ensures WithKey(m + [last], key, k) == WithKey(init + [last] + [x], key, k)
  {
    WithKeyAppend(m, [last], key, k);
    WithKeyAppend(init, [x], key, k);
    WithKeyAppend(init, [last], key, k);
    WithKeyAppend(init + [last], [x], key, k);
    WithKeySwap(x, last, key, k);
  }

  lemma {:induction false} InsertByStable<T, K>(s: seq<T>, x: T, key: T -> K, le: (K, K) -> bool, k: K)
    requires le(key(x), key(x))
    ensures WithKey(InsertBy(s, x, key, le), key, k) == WithKey(s + [x], key, k)
  {
    if s != [] && !le(key(s[|s| - 1]), key(x)) {
      var init, last := s[..|s| - 1], s[|s| - 1];
      var m := InsertBy(init, x, key, le);
      assert InsertBy(s, x, key, le) == m + [last];
      assert s == init + [last];
      InsertByStable(init, x, key, le, k);
      InsertByStableStep(init, last, x, m, key, k);
    }
  }

  /** Appending the same element keeps two sequences' subsequences for `k` equal. */
  lemma WithKeySnocEqual<T, K>(a: seq<T>, b: seq<T>, x: T, key: T -> K, k: K)
    requires WithKey(a, key, k) == WithKey(b, key, k)
    ensures WithKey(a + [x], key, k) == WithKey(b + [x], key, k)
  {
    WithKeyAppend(a, [x], key, k);
    WithKeyAppend(b, [x], key, k);
  }

  /** Every element's key is related to itself. */
  ghost predicate KeysReflexive<T, K>(s: seq<T>, key: T -> K, le: (K, K) -> bool)
  {
    forall i :: 0 <= i < |s| ==> le(key(s[i]), key(s[i]))
  }

  lemma {:induction false} SortByStableAt<T, K>(s: seq<T>, key: T -> K, le: (K, K) -> bool, k: K)
    requires KeysReflexive(s, key, le)
    ensures WithKey(SortBy(s, key, le), key, k) == WithKey(s, key, k)
  {
    if s != [] {
      var init, last := s[..|s| - 1], s[|s| - 1];
      var m := SortBy(init, key, le);
      assert SortBy(s, key, le) == InsertBy(m, last, key, le);
      assert KeysReflexive(init, key, le) by {
        forall i | 0 <= i < |init| ensures le(key(init[i]), key(init[i])) {
          assert init[i] == s[i];
        }
      }
      SortByStableAt(init, key, le, k);
      InsertByStable(m, last, key, le, k);
      WithKeySnocEqual(m, init, last, key, k);
      assert init + [last] == s;
    }
  }

  /** `SortBy` is stable: for every key, the elements carrying it keep their input order. */
  lemma SortByStable<T, K(!new)>(s: seq<T>, key: T -> K, le: (K, K) -> bool)
    requires TotalOrder(le)
    ensures forall k :: WithKey(SortBy(s, key, le), key, k) == WithKey(s, key, k)
  {
    assert KeysReflexive(s, key, le);
    forall k
      ensures WithKey(SortBy(s, key, le), key, k) == WithKey(s, key, k)
    {
      SortByStableAt(s, key, le, k);
    }
  }
}
