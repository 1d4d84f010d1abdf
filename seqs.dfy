/**
 * Sequence operations of JavaScript arrays that the dashboard relies on:
 * `slice(0, n)`, `filter`, `reverse` on a copy, `find`, and the
 * "prepend then keep the first `cap`" idiom `[x, ...prev].slice(0, cap)`.
 */
module Seqs {
  import opened Wrappers

  function Min(a: int, b: int): int { if a < b then a else b }

  /** `s.slice(0, n)`: the first `n` elements, or all of `s` when it is shorter. */
  function Take<T>(s: seq<T>, n: nat): (r: seq<T>)
    ensures |r| == Min(|s|, n)
    ensures forall i :: 0 <= i < |r| ==> r[i] == s[i]
  {
    if |s| <= n then s else s[..n]
  }

  /** `s.filter(p)`: the elements satisfying `p`, in their original order. */
  function Filter<T>(s: seq<T>, p: T -> bool): (r: seq<T>)
    ensures |r| <= |s|
    ensures forall i :: 0 <= i < |r| ==> r[i] in s && p(r[i])
    ensures forall i :: 0 <= i < |s| && p(s[i]) ==> s[i] in r
    ensures multiset(r) <= multiset(s)
  {
    if s == [] then []
    else
      assert s == [s[0]] + s[1..];
      if p(s[0]) then [s[0]] + Filter(s[1..], p)
      else Filter(s[1..], p)
  }

  /** Filtering keeps every copy of a kept value and no copy of a dropped one. */
  lemma {:induction false} FilterCounts<T>(s: seq<T>, p: T -> bool)
    ensures forall x :: multiset(Filter(s, p))[x] == if p(x) then multiset(s)[x] else 0
  {
    if s != [] {
      FilterCounts(s[1..], p);
      HeadTail(s);
      assert multiset(s) == multiset{s[0]} + multiset(s[1..]);
    }
  }

  /**
   * Filtering keeps the order of the input: the kept elements of `a + b` are
   * those of `a` followed by those of `b`.
   */
  lemma {:induction false} FilterAppend<T>(a: seq<T>, b: seq<T>, p: T -> bool)
    ensures Filter(a + b, p) == Filter(a, p) + Filter(b, p)
  {
    if a == [] {
      assert a + b == b;
    } else {
      assert (a + b)[0] == a[0] && (a + b)[1..] == a[1..] + b;
      FilterAppend(a[1..], b, p);
      if p(a[0]) {
        ConcatAssoc([a[0]], Filter(a[1..], p), Filter(b, p));
      }
    }
  }

  /** `[...s].reverse()`: the elements of `s`, last first. */
  function Reverse<T>(s: seq<T>): (r: seq<T>)
    ensures |r| == |s|
    ensures forall i :: 0 <= i < |s| ==> r[i] == s[|s| - 1 - i]
  {
    seq(|s|, i requires 0 <= i < |s| => s[|s| - 1 - i])
  }

  /** Concatenation is associative. */
  lemma ConcatAssoc<T>(a: seq<T>, b: seq<T>, c: seq<T>)
    ensures a + (b + c) == (a + b) + c
  {
  }

  /** A non-empty sequence is its head followed by its tail. */
  lemma HeadTail<T>(s: seq<T>)
    requires s != []
    ensures s == [s[0]] + s[1..]
  {
  }

  /** `[x, ...s].slice(0, cap)`: `x` becomes the head and the oldest entries fall off. */
  function PrependCapped<T>(x: T, s: seq<T>, cap: nat): (r: seq<T>)
    requires cap > 0
    ensures |r| == Min(|s| + 1, cap)
    ensures r[0] == x
    ensures r[1..] == Take(s, cap - 1)
  {
    Take([x] + s, cap)
  }

  /** Prepending every element of `xs` in turn, first element first. */
  function PrependEach<T>(s: seq<T>, xs: seq<T>, cap: nat): (r: seq<T>)
    requires cap > 0
    decreases |xs|
  {
    if xs == [] then s else PrependEach(PrependCapped(xs[0], s, cap), xs[1..], cap)
  }

  lemma TakeOfTake<T>(a: seq<T>, b: seq<T>, cap: nat)
    ensures Take(a + Take(b, cap), cap) == Take(a + b, cap)
  {
    var l, r := Take(a + Take(b, cap), cap), Take(a + b, cap);
    assert |l| == |r|;
    forall i | 0 <= i < |l| ensures l[i] == r[i] {
      if i >= |a| {
        assert (a + Take(b, cap))[i] == Take(b, cap)[i - |a|];
      }
    }
  }

  lemma ReverseCons<T>(x: T, rest: seq<T>)
    ensures Reverse([x] + rest) == Reverse(rest) + [x]
  {
    var l, r := Reverse([x] + rest), Reverse(rest) + [x];
    forall i | 0 <= i < |l| ensures l[i] == r[i] { }
  }

  lemma ReverseSnoc<T>(s: seq<T>, x: T)
    ensures Reverse(s + [x]) == [x] + Reverse(s)
  {
    var l, r := Reverse(s + [x]), [x] + Reverse(s);
    forall i | 0 <= i < |l| ensures l[i] == r[i] { }
  }

  /** Reversal rearranges: the same elements, as often as before. */
  lemma {:induction false} ReverseMultiset<T>(s: seq<T>)
    ensures multiset(Reverse(s)) == multiset(s)
  {
    if s != [] {
      var init, last := s[..|s| - 1], s[|s| - 1];
      ReverseMultiset(init);
      assert s == init + [last];
      ReverseSnoc(init, last);
    }
  }

  /**
   * After prepending `xs` one by one into a buffer of capacity `cap`, the buffer
   * holds the `cap` newest entries, newest first: the last of `xs` at the head,
   * and the old contents only where room is left.
   */
  lemma {:induction false} PrependEachKeepsNewest<T>(s: seq<T>, xs: seq<T>, cap: nat)
    requires 0 < cap && |s| <= cap
    ensures PrependEach(s, xs, cap) == Take(Reverse(xs) + s, cap)
    decreases |xs|
  {
    if xs != [] {
      var x, rest := xs[0], xs[1..];
      assert xs == [x] + rest;
      calc {
        PrependEach(s, xs, cap);
        PrependEach(PrependCapped(x, s, cap), rest, cap);
        { PrependEachKeepsNewest(PrependCapped(x, s, cap), rest, cap); }
        Take(Reverse(rest) + Take([x] + s, cap), cap);
        { TakeOfTake(Reverse(rest), [x] + s, cap); }
        Take(Reverse(rest) + ([x] + s), cap);
        { ReverseCons(x, rest); assert Reverse(rest) + ([x] + s) == Reverse(xs) + s; }
        Take(Reverse(xs) + s, cap);
      }
    }
  }

  /** When `xs` has at least `n` elements, the first `n` of its reversal come from its last `n` only. */
  lemma TakeOfReverse<T>(xs: seq<T>, s: seq<T>, n: nat)
    requires n <= |xs|
    ensures Take(Reverse(xs) + s, n) == Reverse(xs[|xs| - n..])
  {
    var l := Take(Reverse(xs) + s, n);
    var last := xs[|xs| - n..];
    var r := Reverse(last);
    forall i | 0 <= i < n ensures l[i] == r[i] {
      calc {
        l[i];
        (Reverse(xs) + s)[i];
        Reverse(xs)[i];
        xs[|xs| - 1 - i];
        last[n - 1 - i];
      }
    }
  }

  /** Once at least `cap` items have been prepended, exactly the last `cap` of them remain, newest first. */
  lemma PrependEachLast<T>(s: seq<T>, xs: seq<T>, cap: nat)
    requires 0 < cap && |s| <= cap && cap <= |xs|
    ensures PrependEach(s, xs, cap) == Reverse(xs[|xs| - cap..])
  {
    PrependEachKeepsNewest(s, xs, cap);
    TakeOfReverse(xs, s, cap);
  }

  /** A linear scan for the first element satisfying `p` (`Array.prototype.find`). */
  method FindFirst<T>(s: seq<T>, p: T -> bool) returns (r: Option<nat>)
    ensures r.Some? ==> r.value < |s| && p(s[r.value]) && forall j :: 0 <= j < r.value ==> !p(s[j])
    ensures r.None? ==> forall j :: 0 <= j < |s| ==> !p(s[j])
  {
    var i := 0;
    while i < |s|
      invariant 0 <= i <= |s|
      invariant forall j :: 0 <= j < i ==> !p(s[j])
    {
      if p(s[i]) {
        return Some(i);
      }
      i := i + 1;
    }
    return None;
  }
}
