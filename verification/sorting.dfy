/**
 * `order_by` on an integer key. The database leaves the relative order of
 * records with equal keys unspecified; the model keeps them in their input
 * order (a stable insertion sort), which is one of the orders it may return.
 */
module Sorting {
  import Seqs

  ghost predicate SortedBy<T>(s: seq<T>, key: T -> int) {
    forall i, j :: 0 <= i < j < |s| ==> key(s[i]) <= key(s[j])
  }

  /** Places `x` after every leading record whose key is not greater than its own. */
  function Insert<T>(x: T, s: seq<T>, key: T -> int): (r: seq<T>)
    ensures multiset(r) == multiset(s) + multiset{x}
    ensures |r| == |s| + 1
    decreases |s|
  {
    if |s| == 0 then [x]
    else if key(x) < key(s[0]) then [x] + s
    else
      assert s == [s[0]] + s[1..];
      [s[0]] + Insert(x, s[1..], key)
  }

  /** Inserting into a sorted sequence keeps it sorted, and puts nothing below both `x` and the old first key. */
  lemma {:induction false} InsertSorted<T>(x: T, s: seq<T>, key: T -> int)
    requires SortedBy(s, key)
    ensures SortedBy(Insert(x, s, key), key)
    ensures |s| > 0 ==> forall i :: 0 <= i < |s| + 1 ==> key(Insert(x, s, key)[i]) >= key(x) || key(Insert(x, s, key)[i]) >= key(s[0])
    decreases |s|
  {
    if |s| == 0 {
    } else if key(x) < key(s[0]) {
      ConsSorted(x, s, key);
    } else {
      var rest := s[1..];
      TailSorted(s, key);
      InsertSorted(x, rest, key);
      var t := Insert(x, rest, key);
      assert Insert(x, s, key) == [s[0]] + t;
      forall k | 0 <= k < |t| ensures key(s[0]) <= key(t[k]) {
        if |rest| > 0 {
          assert key(s[0]) <= key(rest[0]) by { assert rest[0] == s[1]; }
        }
      }
      ConsSorted(s[0], t, key);
    }
  }

  /** Dropping the first record keeps a sequence sorted. */
  lemma TailSorted<T>(s: seq<T>, key: T -> int)
    requires |s| > 0 && SortedBy(s, key)
    ensures SortedBy(s[1..], key)
  {
    var rest := s[1..];
    forall i, j | 0 <= i < j < |rest| ensures key(rest[i]) <= key(rest[j]) {
      assert rest[i] == s[i + 1] && rest[j] == s[j + 1];
    }
  }

  /** A record no greater than any record of a sorted sequence can go in front of it. */
  lemma ConsSorted<T>(a: T, t: seq<T>, key: T -> int)
    requires SortedBy(t, key)
    requires forall k :: 0 <= k < |t| ==> key(a) <= key(t[k])
    ensures SortedBy([a] + t, key)
  {
    var r := [a] + t;
    forall i, j | 0 <= i < j < |r| ensures key(r[i]) <= key(r[j]) {
      assert r[j] == t[j - 1];
      if i > 0 { assert r[i] == t[i - 1]; }
    }
  }

  /** The records of `s` ordered by ascending `key`; equal keys keep their input order (`SortStable`). */
  function SortBy<T>(s: seq<T>, key: T -> int): (r: seq<T>)
    ensures SortedBy(r, key)
    ensures multiset(r) == multiset(s)
    ensures |r| == |s|
    decreases |s|
  {
    if |s| == 0 then []
    else
      var init := s[..|s| - 1];
      assert s == init + [s[|s| - 1]];
      var sorted := SortBy(init, key);
      InsertSorted(s[|s| - 1], sorted, key);
      Insert(s[|s| - 1], sorted, key)
  }

  // ---------------------------------------------------------------------------
  // Stability
  // ---------------------------------------------------------------------------

  /** The records whose key is `k`. */
  function KeyIs<T>(key: T -> int, k: int): T -> bool {
    (x: T) => key(x) == k
  }

  /** Nothing in a sorted sequence that starts above `k` has key `k`. */
  lemma AboveHasNoKey<T>(t: seq<T>, key: T -> int, k: int)
    requires SortedBy(t, key) && |t| > 0 && k < key(t[0])
    ensures Seqs.Filter(t, KeyIs(key, k)) == []
  {
    forall i | 0 <= i < |t| ensures !KeyIs(key, k)(t[i]) {
      if i > 0 {
        assert key(t[0]) <= key(t[i]);
      }
    }
    Seqs.FilterNone(t, KeyIs(key, k));
  }

  /** Filtering a sequence with a record in front. */
  lemma FilterCons<T>(a: T, t: seq<T>, p: T -> bool)
    ensures Seqs.Filter([a] + t, p) == (if p(a) then [a] else []) + Seqs.Filter(t, p)
  {
    assert ([a] + t)[1..] == t;
  }

  /** Insertion puts `x` after every record with its key: among equal keys it comes last. */
  lemma {:induction false} InsertStable<T>(x: T, t: seq<T>, key: T -> int, k: int)
    requires SortedBy(t, key)
    ensures Seqs.Filter(Insert(x, t, key), KeyIs(key, k)) ==
              Seqs.Filter(t, KeyIs(key, k)) + if key(x) == k then [x] else []
    decreases |t|
  {
    if |t| == 0 {
      Seqs.FilterSingle(x, KeyIs(key, k));
    } else if key(x) < key(t[0]) {
      InsertInFront(x, t, key, k);
    } else {
      TailSorted(t, key);
      InsertStable(x, t[1..], key, k);
      InsertBehind(x, t, key, k);
    }
  }

  lemma Regroup<T>(a: seq<T>, b: seq<T>, c: seq<T>)
    ensures a + (b + c) == (a + b) + c
  {
  }

  /** A record below the first key goes in front, and no record after it shares its key. */
  lemma InsertInFront<T>(x: T, t: seq<T>, key: T -> int, k: int)
    requires SortedBy(t, key) && |t| > 0 && key(x) < key(t[0])
    ensures Seqs.Filter(Insert(x, t, key), KeyIs(key, k)) ==
              Seqs.Filter(t, KeyIs(key, k)) + if key(x) == k then [x] else []
  {
    InsertUnfolds(x, t, key);
    if key(x) == k {
      AboveHasNoKey(t, key, k);
    }
    FrontOrNothing(x, t, KeyIs(key, k));
  }

  /** A front record that the filter keeps is alone, when nothing behind it is kept. */
  lemma FrontOrNothing<T>(x: T, t: seq<T>, p: T -> bool)
    requires p(x) ==> Seqs.Filter(t, p) == []
    ensures Seqs.Filter([x] + t, p) == Seqs.Filter(t, p) + if p(x) then [x] else []
  {
    FilterCons(x, t, p);
  }

  /** Insert's two ways to place `x` in front of a non-empty sequence. */
  lemma InsertUnfolds<T>(x: T, t: seq<T>, key: T -> int)
    requires |t| > 0
    ensures key(x) < key(t[0]) ==> Insert(x, t, key) == [x] + t
    ensures key(x) >= key(t[0]) ==> Insert(x, t, key) == [t[0]] + Insert(x, t[1..], key)
  {
  }

  /** A record not below the first key goes behind it, so the first record keeps its place. */
  lemma InsertBehind<T>(x: T, t: seq<T>, key: T -> int, k: int)
    requires |t| > 0 && key(x) >= key(t[0])
    requires Seqs.Filter(Insert(x, t[1..], key), KeyIs(key, k)) ==
               Seqs.Filter(t[1..], KeyIs(key, k)) + if key(x) == k then [x] else []
    ensures Seqs.Filter(Insert(x, t, key), KeyIs(key, k)) ==
              Seqs.Filter(t, KeyIs(key, k)) + if key(x) == k then [x] else []
  {
    InsertUnfolds(x, t, key);
    Seqs.SplitFirst(t);
    ConsKeeps(t[0], Insert(x, t[1..], key), t[1..], if key(x) == k then [x] else [], KeyIs(key, k));
  }

  /** Putting the same record in front of two sequences keeps a relation between their filters. */
  lemma ConsKeeps<T>(a: T, u: seq<T>, rest: seq<T>, tail: seq<T>, p: T -> bool)
    requires Seqs.Filter(u, p) == Seqs.Filter(rest, p) + tail
    ensures Seqs.Filter([a] + u, p) == Seqs.Filter([a] + rest, p) + tail
  {
    var head := if p(a) then [a] else [];
    FilterCons(a, u, p);
    FilterCons(a, rest, p);
    Regroup(head, Seqs.Filter(rest, p), tail);
  }

  /** `SortBy` is stable: the records with any one key come out in their input order. */
  lemma {:induction false} SortStable<T>(s: seq<T>, key: T -> int, k: int)
    ensures Seqs.Filter(SortBy(s, key), KeyIs(key, k)) == Seqs.Filter(s, KeyIs(key, k))
    decreases |s|
  {
    if |s| > 0 {
      var init := s[..|s| - 1];
      var x := s[|s| - 1];
      var sorted := SortBy(init, key);
      SortStable(init, key, k);
      InsertStable(x, sorted, key, k);
      Seqs.FilterSnoc(s, KeyIs(key, k));
    }
  }
}
