/**
 * Query-set operations over sequences of records: `filter(...)` keeps the
 * records satisfying a predicate in their original order, `count()` is the
 * length of a filtered set, and `[:n]` slicing is `Prefix`.
 */
module Seqs {

  /** The records of `s` satisfying `p`, in their original order. */
  function Filter<T>(s: seq<T>, p: T -> bool): (r: seq<T>)
    ensures |r| <= |s|
    ensures forall i :: 0 <= i < |r| ==> r[i] in s && p(r[i])
    ensures forall i :: 0 <= i < |s| && p(s[i]) ==> s[i] in r
    ensures multiset(r) <= multiset(s)
  {
    if |s| == 0 then []
    else
      var tail := s[1..];
      var rest := Filter(tail, p);
      var head := if p(s[0]) then [s[0]] else [];
      var r := head + rest;
      assert s == [s[0]] + tail;
      assert multiset(s) == multiset{s[0]} + multiset(tail);
      assert forall i :: 0 <= i < |r| ==> r[i] in s && p(r[i]) by {
        forall i | 0 <= i < |r| ensures r[i] in s && p(r[i]) {
          if i >= |head| {
            assert r[i] == rest[i - |head|];
            assert rest[i - |head|] in tail;
          }
        }
      }
      assert forall i :: 0 <= i < |s| && p(s[i]) ==> s[i] in r by {
        forall i | 0 <= i < |s| && p(s[i]) ensures s[i] in r {
          if i > 0 {
            assert s[i] == tail[i - 1];
            assert s[i] in rest;
          }
        }
      }
      r
  }

  /** The positions of the records of `s` satisfying `p`, in ascending order. */
  function Matching<T>(s: seq<T>, p: T -> bool): (idx: seq<nat>)
    ensures forall k :: 0 <= k < |idx| ==> idx[k] < |s| && p(s[idx[k]])
    ensures forall k, l :: 0 <= k < l < |idx| ==> idx[k] < idx[l]
    ensures forall i :: 0 <= i < |s| && p(s[i]) ==> i in idx
    decreases |s|
  {
    if |s| == 0 then []
    else
      var n := |s| - 1;
      var rest := Matching(s[..n], p);
      assert forall k :: 0 <= k < |rest| ==> s[rest[k]] == s[..n][rest[k]];
      assert forall i :: 0 <= i < n ==> s[i] == s[..n][i];
      if p(s[n]) then rest + [n] else rest
  }

  /** The records of `s` at the positions `idx`, in that order. */
  function Pick<T>(s: seq<T>, idx: seq<nat>): (r: seq<T>)
    requires forall k :: 0 <= k < |idx| ==> idx[k] < |s|
    ensures |r| == |idx|
    ensures forall k :: 0 <= k < |r| ==> r[k] == s[idx[k]]
  {
    seq(|idx|, k requires 0 <= k < |idx| => s[idx[k]])
  }

  /** Filtering keeps exactly the records at the matching positions, in their original order. */
  lemma {:induction false} FilterPicksMatching<T>(s: seq<T>, p: T -> bool)
    ensures Filter(s, p) == Pick(s, Matching(s, p))
    decreases |s|
  {
    if |s| > 0 {
      var n := |s| - 1;
      var front := s[..n];
      var rest := Matching(front, p);
      var last := if p(s[n]) then [s[n]] else [];
      assert Filter(s, p) == Filter(front, p) + last by {
        FilterSnoc(s, p);
      }
      assert Filter(front, p) == Pick(s, rest) by {
        FilterPicksMatching(front, p);
        PickInLonger(front, s, rest);
      }
      if p(s[n]) {
        assert Matching(s, p) == rest + [n];
        PickSnoc(s, rest, n);
      } else {
        assert Matching(s, p) == rest;
      }
    }
  }

  /** Filtering a sequence is filtering all but its last record, then keeping that one if it satisfies `p`. */
  lemma FilterSnoc<T>(s: seq<T>, p: T -> bool)
    requires |s| > 0
    ensures Filter(s, p) == Filter(s[..|s| - 1], p) + if p(s[|s| - 1]) then [s[|s| - 1]] else []
  {
    var front := s[..|s| - 1];
    var x := s[|s| - 1];
    SplitLast(s);
    calc {
      Filter(s, p);
      Filter(front + [x], p);
      { FilterAppend(front, [x], p); }
      Filter(front, p) + Filter([x], p);
      { FilterSingle(x, p); }
      Filter(front, p) + if p(x) then [x] else [];
    }
  }

  /** A non-empty sequence is its first element followed by the rest, also as a multiset. */
  lemma SplitFirst<T>(s: seq<T>)
    requires |s| > 0
    ensures [s[0]] + s[1..] == s
    ensures multiset(s) == multiset{s[0]} + multiset(s[1..])
  {
    assert [s[0]] + s[1..] == s;
  }

  /** A non-empty sequence is its front followed by its last element. */
  lemma SplitLast<T>(s: seq<T>)
    requires |s| > 0
    ensures s[..|s| - 1] + [s[|s| - 1]] == s
  {
  }

  lemma FilterSingle<T>(x: T, p: T -> bool)
    ensures Filter([x], p) == if p(x) then [x] else []
  {
    assert [x][1..] == [];
  }

  /** Positions inside a prefix pick the same records from the whole. */
  lemma PickInLonger<T>(front: seq<T>, s: seq<T>, idx: seq<nat>)
    requires front <= s
    requires forall k :: 0 <= k < |idx| ==> idx[k] < |front|
    ensures Pick(front, idx) == Pick(s, idx)
  {
    var a := Pick(front, idx);
    var b := Pick(s, idx);
    forall k | 0 <= k < |idx| ensures a[k] == b[k] {
      assert front[idx[k]] == s[idx[k]];
    }
  }

  /** One more position picks one more record. */
  lemma PickSnoc<T>(s: seq<T>, idx: seq<nat>, n: nat)
    requires n < |s| && forall k :: 0 <= k < |idx| ==> idx[k] < |s|
    ensures Pick(s, idx + [n]) == Pick(s, idx) + [s[n]]
  {
    var a := Pick(s, idx + [n]);
    var b := Pick(s, idx) + [s[n]];
    forall k | 0 <= k < |a| ensures a[k] == b[k] {
      if k < |idx| {
        assert (idx + [n])[k] == idx[k];
      }
    }
  }

  /** Filtering keeps every occurrence of a record satisfying `p` and none of any other. */
  lemma {:induction false} FilterCounts<T>(s: seq<T>, p: T -> bool, x: T)
    ensures multiset(Filter(s, p))[x] == if p(x) then multiset(s)[x] else 0
    decreases |s|
  {
    if |s| > 0 {
      FilterCounts(s[1..], p, x);
      SplitFirst(s);
    }
  }

  /** `filter(p).count()`. */
  function Count<T>(s: seq<T>, p: T -> bool): nat {
    |Filter(s, p)|
  }

  /** `qs[:n]`. */
  function Prefix<T>(s: seq<T>, n: nat): (r: seq<T>)
    ensures |r| <= n && |r| <= |s|
    ensures |s| >= n ==> |r| == n
    ensures |s| < n ==> r == s
    ensures r <= s
  {
    if n <= |s| then s[..n] else s
  }

  /** A prefix holds no element more often than the whole. */
  lemma PrefixWithin<T>(s: seq<T>, n: nat)
    ensures multiset(Prefix(s, n)) <= multiset(s)
  {
    var r := Prefix(s, n);
    assert s == r + s[|r|..];
    assert multiset(s) == multiset(r) + multiset(s[|r|..]);
  }

  lemma {:induction false} FilterAppend<T>(a: seq<T>, b: seq<T>, p: T -> bool)
    ensures Filter(a + b, p) == Filter(a, p) + Filter(b, p)
    decreases |a|
  {
    if |a| > 0 {
      assert (a + b)[1..] == a[1..] + b;
      FilterAppend(a[1..], b, p);
    } else {
      assert a + b == b;
    }
  }

  /** Filtering twice by the same predicate is filtering once. */
  lemma {:induction false} FilterIdempotent<T>(s: seq<T>, p: T -> bool)
    ensures Filter(Filter(s, p), p) == Filter(s, p)
    decreases |s|
  {
    if |s| > 0 {
      FilterIdempotent(s[1..], p);
      var head := if p(s[0]) then [s[0]] else [];
      FilterAppend(head, Filter(s[1..], p), p);
      if p(s[0]) {
        assert Filter(head, p) == head by {
          assert head[1..] == [];
        }
      }
    }
  }

  /** A filter whose predicate every record satisfies keeps everything. */
  lemma {:induction false} FilterKeepsAll<T>(s: seq<T>, p: T -> bool)
    requires forall i :: 0 <= i < |s| ==> p(s[i])
    ensures Filter(s, p) == s
    decreases |s|
  {
    if |s| > 0 {
      FilterKeepsAll(s[1..], p);
      SplitFirst(s);
    }
  }

  /** A filter no record satisfies keeps nothing. */
  lemma FilterNone<T>(s: seq<T>, p: T -> bool)
    requires forall i :: 0 <= i < |s| ==> !p(s[i])
    ensures Filter(s, p) == []
  {
  }

  /** Filtering by `p` then by `q` is filtering by their conjunction `pq`. */
  lemma {:induction false} FilterFilter<T>(s: seq<T>, p: T -> bool, q: T -> bool, pq: T -> bool)
    requires forall x :: pq(x) == (p(x) && q(x))
    ensures Filter(Filter(s, p), q) == Filter(s, pq)
    decreases |s|
  {
    if |s| > 0 {
      FilterFilter(s[1..], p, q, pq);
      var head := if p(s[0]) then [s[0]] else [];
      FilterAppend(head, Filter(s[1..], p), q);
      if p(s[0]) {
        assert head[1..] == [];
      }
    }
  }

  /** Filters by predicates that agree on every record give the same result. */
  lemma {:induction false} FilterAgree<T>(s: seq<T>, p: T -> bool, q: T -> bool)
    requires forall i :: 0 <= i < |s| ==> p(s[i]) == q(s[i])
    ensures Filter(s, p) == Filter(s, q)
    decreases |s|
  {
    if |s| > 0 {
      FilterAgree(s[1..], p, q);
    }
  }

  /** Counting over a concatenation adds up. */
  lemma CountAppend<T>(a: seq<T>, b: seq<T>, p: T -> bool)
    ensures Count(a + b, p) == Count(a, p) + Count(b, p)
  {
    FilterAppend(a, b, p);
  }

  /** Counting one more record adds one exactly when it satisfies the predicate. */
  lemma CountSnoc<T>(a: seq<T>, x: T, p: T -> bool)
    ensures Count(a + [x], p) == Count(a, p) + (if p(x) then 1 else 0)
  {
    CountAppend(a, [x], p);
    assert [x][1..] == [];
  }

  /** If every record satisfying `p` satisfies `q`, `q` counts at least as many. */
  lemma {:induction false} CountMonotone<T>(s: seq<T>, p: T -> bool, q: T -> bool)
    requires forall i :: 0 <= i < |s| ==> p(s[i]) ==> q(s[i])
    ensures Count(s, p) <= Count(s, q)
    decreases |s|
  {
    if |s| > 0 {
      CountMonotone(s[1..], p, q);
    }
  }

  /**
   * Two sequences of equal length where every record of `a` satisfying `p`
   * sits opposite one of `b` satisfying `p`: `b` counts at least as many.
   */
  lemma {:induction false} CountPointwise<T>(a: seq<T>, b: seq<T>, p: T -> bool)
    requires |a| == |b|
    requires forall i :: 0 <= i < |a| ==> p(a[i]) ==> p(b[i])
    ensures Count(a, p) <= Count(b, p)
    decreases |a|
  {
    if |a| > 0 {
      CountPointwise(a[1..], b[1..], p);
    }
  }
}
