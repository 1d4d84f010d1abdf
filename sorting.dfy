/**
 * The stable sort that every list in the dashboard goes through. JavaScript's
 * `Array.prototype.sort` is stable, and every comparator in the source has the
 * shape `(a, b) => key(b) - key(a)` (descending) or `key(a) - key(b)`
 * (ascending, i.e. descending on the negated key), so one stable descending
 * insertion sort on a real-valued key covers them all.
 */
module Sorting {
  import opened Seqs

  /** Non-increasing by `key`. */
  ghost predicate SortedDesc<T>(s: seq<T>, key: T -> real) {
    forall i, j :: 0 <= i < j < |s| ==> key(s[i]) >= key(s[j])
  }

  /** Every element of `s` has a key of at most `k`. */
  ghost predicate AllAtMost<T>(s: seq<T>, key: T -> real, k: real) {
    forall i :: 0 <= i < |s| ==> key(s[i]) <= k
  }

  /**
   * Inserts `x` into a non-increasing `s` after every element whose key is at
   * least `key(x)`, so that `x` follows the elements that tie with it.
   */
  function Insert<T>(x: T, s: seq<T>, key: T -> real): (r: seq<T>)
    ensures multiset(r) == multiset(s) + multiset{x}
    ensures |r| == |s| + 1
  {
    if s == [] then [x]
    else if key(s[0]) >= key(x) then
      assert s == [s[0]] + s[1..];
      [s[0]] + Insert(x, s[1..], key)
    else
      [x] + s
  }

  /** An element of a permutation of `s + [x]` is `x` or an element of `s`. */
  lemma InsertBounded<T>(x: T, s: seq<T>, key: T -> real, k: real)
    requires AllAtMost(s, key, k) && key(x) <= k
    ensures AllAtMost(Insert(x, s, key), key, k)
  {
    var r := Insert(x, s, key);
    forall i | 0 <= i < |r| ensures key(r[i]) <= k {
      assert r[i] in multiset(r);
      if r[i] != x {
        assert r[i] in multiset(s);
        var j :| 0 <= j < |s| && s[j] == r[i];
      }
    }
  }

  lemma SortedTail<T>(s: seq<T>, key: T -> real)
    requires s != [] && SortedDesc(s, key)
    ensures SortedDesc(s[1..], key)
  {
    var tail := s[1..];
    forall i, j | 0 <= i < j < |tail| ensures key(tail[i]) >= key(tail[j]) {
      assert tail[i] == s[i + 1] && tail[j] == s[j + 1];
    }
  }

  lemma {:induction false} InsertSorted<T>(x: T, s: seq<T>, key: T -> real)
    requires SortedDesc(s, key)
    ensures SortedDesc(Insert(x, s, key), key)
    decreases |s|
  {
    if s != [] && key(s[0]) >= key(x) {
      var tail := s[1..];
      assert SortedDesc(tail, key) by {
        forall i, j | 0 <= i < j < |tail| ensures key(tail[i]) >= key(tail[j]) {
          assert tail[i] == s[i + 1] && tail[j] == s[j + 1];
        }
      }
      InsertSorted(x, tail, key);
      assert AllAtMost(tail, key, key(s[0])) by {
        forall i | 0 <= i < |tail| ensures key(tail[i]) <= key(s[0]) {
          assert tail[i] == s[i + 1];
        }
      }
      InsertBounded(x, tail, key, key(s[0]));
      var r := Insert(x, s, key);
      assert r == [s[0]] + Insert(x, tail, key);
      forall i, j | 0 <= i < j < |r| ensures key(r[i]) >= key(r[j]) {
        if i > 0 {
          assert r[i] == Insert(x, tail, key)[i - 1] && r[j] == Insert(x, tail, key)[j - 1];
        } else {
          assert r[j] == Insert(x, tail, key)[j - 1];
        }
      }
    } else if s != [] {
      var r := Insert(x, s, key);
      assert r == [x] + s;
      forall i, j | 0 <= i < j < |r| ensures key(r[i]) >= key(r[j]) {
        assert r[j] == s[j - 1];
        if i > 0 {
          assert r[i] == s[i - 1];
        } else {
          assert key(s[0]) >= key(s[j - 1]) || j - 1 == 0;
        }
      }
    }
  }

  /** `[...s].sort((a, b) => key(b) - key(a))`. */
  function SortDesc<T>(s: seq<T>, key: T -> real): (r: seq<T>)
    ensures multiset(r) == multiset(s)
    ensures |r| == |s|
    ensures SortedDesc(r, key)
  {
    if s == [] then []
    else
      assert s == s[..|s| - 1] + [s[|s| - 1]];
      var sorted := SortDesc(s[..|s| - 1], key);
      InsertSorted(s[|s| - 1], sorted, key);
      Insert(s[|s| - 1], sorted, key)
  }

  /** The elements of `s` whose key is exactly `v`, in their order in `s`. */
  function WithKey<T>(s: seq<T>, key: T -> real, v: real): seq<T> {
    if s == [] then []
    else if key(s[|s| - 1]) == v then WithKey(s[..|s| - 1], key, v) + [s[|s| - 1]]
    else WithKey(s[..|s| - 1], key, v)
  }

  lemma {:induction false} WithKeyAppend<T>(s: seq<T>, x: T, key: T -> real, v: real)
    ensures WithKey(s + [x], key, v) == WithKey(s, key, v) + (if key(x) == v then [x] else [])
  {
    assert (s + [x])[..|s + [x]| - 1] == s;
  }

  lemma {:induction false} WithKeyPrepend<T>(x: T, s: seq<T>, key: T -> real, v: real)
    ensures WithKey([x] + s, key, v) == (if key(x) == v then [x] else []) + WithKey(s, key, v)
    decreases |s|
  {
    if s == [] {
      assert [x] + s == [] + [x];
      WithKeyAppend([], x, key, v);
    } else {
      var init, last := s[..|s| - 1], s[|s| - 1];
      assert s == init + [last];
      ConcatAssoc([x], init, [last]);
      WithKeyAppend([x] + init, last, key, v);
      WithKeyPrepend(x, init, key, v);
      WithKeyAppend(init, last, key, v);
      ConcatAssoc(if key(x) == v then [x] else [], WithKey(init, key, v), if key(last) == v then [last] else []);
    }
  }

  /** No element of `s` ties with a key strictly greater than all of them. */
  lemma {:induction false} WithKeyAbsent<T>(s: seq<T>, key: T -> real, v: real)
    requires forall i :: 0 <= i < |s| ==> key(s[i]) < v
    ensures WithKey(s, key, v) == []
    decreases |s|
  {
    if s != [] {
      WithKeyAbsent(s[..|s| - 1], key, v);
    }
  }

  /** Inserting `x` places it after every element that ties with it. */
  lemma {:induction false} InsertAfterTies<T>(x: T, s: seq<T>, key: T -> real, v: real)
    requires SortedDesc(s, key)
    ensures WithKey(Insert(x, s, key), key, v) == WithKey(s, key, v) + (if key(x) == v then [x] else [])
    decreases |s|
  {
    if s == [] {
      assert [] + [x] == [x];
      WithKeyAppend([], x, key, v);
    } else if key(s[0]) >= key(x) {
      SortedTail(s, key);
      InsertAfterTies(x, s[1..], key, v);
      TiesBehindHead(x, s, key, v);
    } else {
      if key(x) == v {
        assert forall i :: 0 <= i < |s| ==> key(s[i]) < v by {
          forall i | 0 <= i < |s| ensures key(s[i]) < v {
            assert i == 0 || key(s[0]) >= key(s[i]);
          }
        }
        WithKeyAbsent(s, key, v);
      }
      TiesInFront(x, s, key, v);
    }
  }

  /** The step of `InsertAfterTies` where `x` goes behind the head of `s`. */
  lemma TiesBehindHead<T>(x: T, s: seq<T>, key: T -> real, v: real)
    requires s != [] && key(s[0]) >= key(x)
    requires WithKey(Insert(x, s[1..], key), key, v) == WithKey(s[1..], key, v) + (if key(x) == v then [x] else [])
    ensures WithKey(Insert(x, s, key), key, v) == WithKey(s, key, v) + (if key(x) == v then [x] else [])
  {
    var head, tail, added := if key(s[0]) == v then [s[0]] else [], s[1..], if key(x) == v then [x] else [];
    assert Insert(x, s, key) == [s[0]] + Insert(x, tail, key);
    WithKeyPrepend(s[0], Insert(x, tail, key), key, v);
    HeadTail(s);
    WithKeyPrepend(s[0], tail, key, v);
    ConcatAssoc(head, WithKey(tail, key, v), added);
  }

  /** The step of `InsertAfterTies` where `x` goes in front of all of `s`. */
  lemma TiesInFront<T>(x: T, s: seq<T>, key: T -> real, v: real)
    requires s != [] && key(s[0]) < key(x)
    requires key(x) == v ==> WithKey(s, key, v) == []
    ensures WithKey(Insert(x, s, key), key, v) == WithKey(s, key, v) + (if key(x) == v then [x] else [])
  {
    assert Insert(x, s, key) == [x] + s;
    WithKeyPrepend(x, s, key, v);
    assert WithKey(s, key, v) + [] == WithKey(s, key, v);
  }

  /**
   * Stability: among the elements that share a key, the sorted sequence keeps
   * their original relative order.
   */
  lemma {:induction false} SortDescStable<T>(s: seq<T>, key: T -> real, v: real)
    ensures WithKey(SortDesc(s, key), key, v) == WithKey(s, key, v)
    decreases |s|
  {
    if s != [] {
      var init, last := s[..|s| - 1], s[|s| - 1];
      SortDescStable(init, key, v);
      InsertAfterTies(last, SortDesc(init, key), key, v);
    }
  }

  /** Whatever holds of every element of `s` holds of every element of its sorted copy. */
  lemma SortDescKeepsAll<T>(s: seq<T>, key: T -> real, p: T -> bool)
    requires forall i :: 0 <= i < |s| ==> p(s[i])
    ensures forall k :: 0 <= k < |SortDesc(s, key)| ==> p(SortDesc(s, key)[k])
  {
    var r := SortDesc(s, key);
    forall k | 0 <= k < |r| ensures p(r[k]) {
      assert r[k] in multiset(s);
      var i :| 0 <= i < |s| && s[i] == r[k];
    }
  }

  /** `ne` holds between every two elements at different positions. */
  ghost predicate Pairwise<T>(s: seq<T>, ne: (T, T) -> bool) {
    forall i, j :: 0 <= i < j < |s| ==> ne(s[i], s[j])
  }

  /** Sorting keeps a symmetric pairwise property (such as "distinct symbols"). */
  lemma {:induction false} SortDescKeepsPairwise<T>(s: seq<T>, key: T -> real, ne: (T, T) -> bool)
    requires forall i, j :: 0 <= i < |s| && 0 <= j < |s| && ne(s[i], s[j]) ==> ne(s[j], s[i])
    requires Pairwise(s, ne)
    ensures Pairwise(SortDesc(s, key), ne)
    decreases |s|
  {
    if s != [] {
      var init, last := s[..|s| - 1], s[|s| - 1];
      assert Pairwise(init, ne) by {
        forall i, j | 0 <= i < j < |init| ensures ne(init[i], init[j]) {
          assert init[i] == s[i] && init[j] == s[j];
        }
      }
      forall i, j | 0 <= i < |init| && 0 <= j < |init| && ne(init[i], init[j]) ensures ne(init[j], init[i]) {
        assert init[i] == s[i] && init[j] == s[j];
      }
      SortDescKeepsPairwise(init, key, ne);
      var sorted := SortDesc(init, key);
      var r := Insert(last, sorted, key);
      forall y | y in sorted ensures ne(y, last) && ne(last, y) {
        assert y in multiset(init);
        var k :| 0 <= k < |init| && init[k] == y;
        assert s[k] == y && k < |s| - 1;
      }
      InsertKeepsPairwise(last, sorted, key, ne);
    }
  }

  lemma {:induction false} InsertKeepsPairwise<T>(x: T, s: seq<T>, key: T -> real, ne: (T, T) -> bool)
    requires Pairwise(s, ne)
    requires forall y :: y in s ==> ne(y, x) && ne(x, y)
    ensures Pairwise(Insert(x, s, key), ne)
    decreases |s|
  {
    if s != [] && key(s[0]) >= key(x) {
      var tail := s[1..];
      PairwiseTail(s, ne);
      InsertKeepsPairwise(x, tail, key, ne);
      forall i | 0 <= i < |tail| ensures ne(s[0], tail[i]) {
        assert tail[i] == s[i + 1];
      }
      InsertKeepsAll(x, tail, key, y => ne(s[0], y));
      PairwiseCons(s[0], Insert(x, tail, key), ne);
      assert Insert(x, s, key) == [s[0]] + Insert(x, tail, key);
    } else if s != [] {
      PairwiseCons(x, s, ne);
      assert Insert(x, s, key) == [x] + s;
    }
  }

  lemma PairwiseTail<T>(s: seq<T>, ne: (T, T) -> bool)
    requires s != [] && Pairwise(s, ne)
    ensures Pairwise(s[1..], ne)
  {
    var tail := s[1..];
    forall i, j | 0 <= i < j < |tail| ensures ne(tail[i], tail[j]) {
      assert tail[i] == s[i + 1] && tail[j] == s[j + 1];
    }
  }

  lemma PairwiseCons<T>(h: T, t: seq<T>, ne: (T, T) -> bool)
    requires Pairwise(t, ne)
    requires forall j :: 0 <= j < |t| ==> ne(h, t[j])
    ensures Pairwise([h] + t, ne)
  {
    var r := [h] + t;
    forall i, j | 0 <= i < j < |r| ensures ne(r[i], r[j]) {
      assert r[j] == t[j - 1];
      if i > 0 {
        assert r[i] == t[i - 1];
      }
    }
  }

  /** What holds of `x` and of every element of `s` holds of every element of the insertion. */
  lemma InsertKeepsAll<T>(x: T, s: seq<T>, key: T -> real, p: T -> bool)
    requires p(x) && forall i :: 0 <= i < |s| ==> p(s[i])
    ensures forall j :: 0 <= j < |Insert(x, s, key)| ==> p(Insert(x, s, key)[j])
  {
    var r := Insert(x, s, key);
    forall j | 0 <= j < |r| ensures p(r[j]) {
      assert r[j] in multiset(s) + multiset{x};
      if r[j] != x {
        var k :| 0 <= k < |s| && s[k] == r[j];
      }
    }
  }

  /** The key-`v` elements of a prefix are a prefix of the key-`v` elements of the whole. */
  lemma {:induction false} WithKeyOfPrefix<T>(s: seq<T>, k: nat, key: T -> real, v: real)
    requires k <= |s|
    ensures WithKey(s[..k], key, v) <= WithKey(s, key, v)
    decreases |s| - k
  {
    if k < |s| {
      var init := s[..|s| - 1];
      assert init[..k] == s[..k];
      WithKeyOfPrefix(init, k, key, v);
    } else {
      assert s[..k] == s;
    }
  }

  /** `[...s].sort(byKeyDescending).slice(0, n)`: the first `n` after a stable sort of a copy. */
  function TopN<T>(s: seq<T>, key: T -> real, n: nat): seq<T> {
    Take(SortDesc(s, key), n)
  }

  /**
   * The top `n` are min(n, |s|) elements of `s` in non-increasing key order;
   * together with the elements left out they are exactly `s`; no element left
   * out has a greater key than one picked; and among equal keys the picked
   * ones are the first in `s`'s order.
   */
  lemma TopNSelects<T>(s: seq<T>, key: T -> real, n: nat, v: real)
    ensures |TopN(s, key, n)| == Min(|s|, n)
    ensures SortedDesc(TopN(s, key, n), key)
    ensures multiset(TopN(s, key, n)) + multiset(SortDesc(s, key)[|TopN(s, key, n)|..]) == multiset(s)
    ensures forall i, j :: 0 <= i < |TopN(s, key, n)| <= j < |s| ==> key(TopN(s, key, n)[i]) >= key(SortDesc(s, key)[j])
    ensures WithKey(TopN(s, key, n), key, v) <= WithKey(s, key, v)
  {
    var sorted := SortDesc(s, key);
    var top := TopN(s, key, n);
    assert top == sorted[..|top|];
    assert sorted == sorted[..|top|] + sorted[|top|..];
    assert multiset(sorted) == multiset(sorted[..|top|]) + multiset(sorted[|top|..]);
    WithKeyOfPrefix(sorted, |top|, key, v);
    SortDescStable(s, key, v);
  }

  /**
   * When at most `n` elements satisfy `p`, filtering, sorting and taking `n`
   * keeps every copy of every element satisfying `p`, and nothing else.
   */
  lemma TopOfFilteredComplete<T>(s: seq<T>, p: T -> bool, key: T -> real, n: nat)
    requires |Filter(s, p)| <= n
    ensures forall x :: multiset(TopN(Filter(s, p), key, n))[x] == if p(x) then multiset(s)[x] else 0
  {
    var kept := Filter(s, p);
    assert TopN(kept, key, n) == SortDesc(kept, key);
    FilterCounts(s, p);
  }

  /**
   * `[...s].filter(p).sort(byKeyDescending).slice(0, n)`: min(n, m) of the m
   * elements of `s` satisfying `p`, in non-increasing key order; all of them
   * when m <= n, and otherwise none left out has a greater key than one picked.
   */
  lemma TopOfFiltered<T>(s: seq<T>, p: T -> bool, key: T -> real, n: nat)
    ensures |TopN(Filter(s, p), key, n)| == Min(|Filter(s, p)|, n)
    ensures forall i :: 0 <= i < |TopN(Filter(s, p), key, n)| ==> p(TopN(Filter(s, p), key, n)[i])
    ensures SortedDesc(TopN(Filter(s, p), key, n), key)
    ensures multiset(TopN(Filter(s, p), key, n)) <= multiset(s)
    ensures |Filter(s, p)| <= n ==> multiset(TopN(Filter(s, p), key, n)) == multiset(Filter(s, p))
    ensures forall i, j :: 0 <= i < |TopN(Filter(s, p), key, n)| <= j < |Filter(s, p)| ==>
              key(TopN(Filter(s, p), key, n)[i]) >= key(SortDesc(Filter(s, p), key)[j])
  {
    var kept := Filter(s, p);
    var top := TopN(kept, key, n);
    TopNSelects(kept, key, n, 0.0);
    assert multiset(top) <= multiset(kept);
    forall i | 0 <= i < |top| ensures p(top[i]) {
      assert top[i] in multiset(kept);
      var k :| 0 <= k < |kept| && kept[k] == top[i];
    }
    if |kept| <= n {
      assert SortDesc(kept, key)[|top|..] == [];
    }
  }
}
