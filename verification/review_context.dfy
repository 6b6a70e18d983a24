/**
 * The `latest_reviews` value meant for every page's context
 * (reviews/context_processors.py): the three newest reviews among those the
 * public list shows.
 */
module ReviewContext {
  import opened ReviewModels
  import ReviewViews
  import Seqs
  import Sorting

  /** The sort key of `order_by('-created_at')`: newest first. */
  function NewestFirst(r: Review): int {
    -(r.createdAt as int)
  }

  const LatestCount: nat := 3

  /** At most three visible reviews, newest first; among equal times the stored order is kept. */
  function LatestReviews(reviews: seq<Review>): (r: seq<Review>)
    ensures |r| <= LatestCount
    ensures forall i :: 0 <= i < |r| ==> IsVisible(r[i])
    ensures forall i, j :: 0 <= i < j < |r| ==> r[i].createdAt >= r[j].createdAt
    ensures r <= Sorting.SortBy(ReviewViews.PublicReviews(reviews), NewestFirst)
    ensures |r| == if |ReviewViews.PublicReviews(reviews)| < LatestCount then |ReviewViews.PublicReviews(reviews)| else LatestCount
  {
    var sorted := Sorting.SortBy(ReviewViews.PublicReviews(reviews), NewestFirst);
    SortedPublicVisible(reviews);
    var r := Seqs.Prefix(sorted, LatestCount);
    NewestFirstPrefix(sorted, r);
    r
  }

  /** A prefix of a newest-first list is newest first. */
  lemma NewestFirstPrefix(sorted: seq<Review>, r: seq<Review>)
    requires Sorting.SortedBy(sorted, NewestFirst) && r <= sorted
    ensures forall i, j :: 0 <= i < j < |r| ==> r[i].createdAt >= r[j].createdAt
  {
    forall i, j | 0 <= i < j < |r| ensures r[i].createdAt >= r[j].createdAt {
      assert NewestFirst(sorted[i]) <= NewestFirst(sorted[j]);
    }
  }

  /** The public list, newest first, still holds only visible reviews. */
  lemma SortedPublicVisible(reviews: seq<Review>)
    ensures forall i :: 0 <= i < |Sorting.SortBy(ReviewViews.PublicReviews(reviews), NewestFirst)| ==>
              IsVisible(Sorting.SortBy(ReviewViews.PublicReviews(reviews), NewestFirst)[i])
  {
    var pub := ReviewViews.PublicReviews(reviews);
    var sorted := Sorting.SortBy(pub, NewestFirst);
    forall i | 0 <= i < |sorted| ensures IsVisible(sorted[i]) {
      assert sorted[i] in multiset(pub);
      var j :| 0 <= j < |pub| && pub[j] == sorted[i];
    }
  }

  /** Every latest review is in the public list. */
  lemma LatestWithinPublicList(reviews: seq<Review>)
    ensures multiset(LatestReviews(reviews)) <= multiset(ReviewViews.PublicReviews(reviews))
  {
    var sorted := Sorting.SortBy(ReviewViews.PublicReviews(reviews), NewestFirst);
    assert LatestReviews(reviews) == Seqs.Prefix(sorted, LatestCount);
    Seqs.PrefixWithin(sorted, LatestCount);
  }

  /** A visible review left out is no newer than any review shown, and only three were shown. */
  lemma LeftOutAreNotNewer(reviews: seq<Review>, x: Review)
    requires x in ReviewViews.PublicReviews(reviews)
    ensures x !in LatestReviews(reviews) ==> |LatestReviews(reviews)| == LatestCount
    ensures x !in LatestReviews(reviews) ==>
              forall i :: 0 <= i < LatestCount ==> LatestReviews(reviews)[i].createdAt >= x.createdAt
  {
    var pub := ReviewViews.PublicReviews(reviews);
    var sorted := Sorting.SortBy(pub, NewestFirst);
    if x !in LatestReviews(reviews) {
      assert x in sorted by {
        assert x in multiset(pub);
        assert x in multiset(sorted);
      }
      assert LatestReviews(reviews) == Seqs.Prefix(sorted, LatestCount);
      LeftOutOfPrefix(sorted, x);
    }
  }

  /** In a newest-first list, a review beyond the first three is no newer than any of them. */
  lemma LeftOutOfPrefix(sorted: seq<Review>, x: Review)
    requires Sorting.SortedBy(sorted, NewestFirst)
    requires x in sorted && x !in Seqs.Prefix(sorted, LatestCount)
    ensures |Seqs.Prefix(sorted, LatestCount)| == LatestCount
    ensures forall i :: 0 <= i < LatestCount ==> Seqs.Prefix(sorted, LatestCount)[i].createdAt >= x.createdAt
  {
    var r := Seqs.Prefix(sorted, LatestCount);
    var j :| 0 <= j < |sorted| && sorted[j] == x;
    assert forall i :: 0 <= i < |r| ==> sorted[i] == r[i];
    assert j >= |r|;
    forall i | 0 <= i < LatestCount ensures r[i].createdAt >= x.createdAt {
      assert r[i] == sorted[i];
      assert NewestFirst(sorted[i]) <= NewestFirst(sorted[j]);
    }
  }
}
