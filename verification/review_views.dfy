/**
 * The review pages (reviews/views.py): the public list, and the
 * moderator's queue with its approve/reject form.
 */
module ReviewViews {
  import opened Wrappers
  import opened Text
  import opened ReviewModels
  import Seqs

  /** The public list: approved and public reviews, in stored order. */
  function PublicReviews(reviews: seq<Review>): (r: seq<Review>)
    ensures forall i :: 0 <= i < |r| ==> IsVisible(r[i]) && r[i] in reviews
    ensures forall i :: 0 <= i < |reviews| && IsVisible(reviews[i]) ==> reviews[i] in r
    ensures multiset(r) <= multiset(reviews)
  {
    Seqs.Filter(reviews, IsVisible)
  }

  predicate IsPending(r: Review) {
    r.status == Pending
  }

  /** The moderation queue: the pending reviews. */
  function ModerationQueue(reviews: seq<Review>): (r: seq<Review>)
    ensures forall i :: 0 <= i < |r| ==> r[i].status == Pending && r[i] in reviews
    ensures forall i :: 0 <= i < |reviews| && reviews[i].status == Pending ==> reviews[i] in r
  {
    Seqs.Filter(reviews, IsPending)
  }

  /** No review is both queued for moderation and publicly shown. */
  lemma QueueAndListDisjoint(reviews: seq<Review>, x: Review)
    ensures !(x in ModerationQueue(reviews) && x in PublicReviews(reviews))
  {
    if x in ModerationQueue(reviews) {
      var i :| 0 <= i < |ModerationQueue(reviews)| && ModerationQueue(reviews)[i] == x;
      assert !IsVisible(x);
      forall j | 0 <= j < |PublicReviews(reviews)| ensures PublicReviews(reviews)[j] != x {
      }
    }
  }

  // ---------------------------------------------------------------------------
  // The moderation form (`ReviewModerateView.post`)
  // ---------------------------------------------------------------------------

  datatype Moderation =
    | LoginRequired                      // an anonymous visitor: sent to the login page, nothing saved
    | Redirected(reviews: seq<Review>)   // back to the queue, with the ledger as saved
    | ReviewNotFound                     // no review has the posted id
    | BadReviewId                        // the posted id is not a number: the lookup raises

  /** A form field is present when it was posted and is not empty. */
  predicate Posted(field: Option<string>) {
    field.Some? && field.value != ""
  }

  /** Review `j` is the first with the id: the one a lookup by id finds. */
  predicate FirstWithId(reviews: seq<Review>, j: nat, id: nat)
    requires j < |reviews|
  {
    reviews[j].id == id && forall i :: 0 <= i < j ==> reviews[i].id != id
  }

  /** The index of the first review with the id, or -1. */
  function IndexOfReview(reviews: seq<Review>, id: nat): (k: int)
    ensures -1 <= k < |reviews|
    ensures k >= 0 ==> reviews[k].id == id && forall j :: 0 <= j < k ==> reviews[j].id != id
    ensures k < 0 <==> forall j :: 0 <= j < |reviews| ==> reviews[j].id != id
  {
    if |reviews| == 0 then -1
    else if reviews[0].id == id then 0
    else
      var k := IndexOfReview(reviews[1..], id);
      assert forall j :: 1 <= j < |reviews| ==> reviews[j] == reviews[1..][j - 1];
      if k < 0 then -1 else k + 1
  }

  /** The status an action leaves: approve and reject set it, any other action keeps it. */
  function StatusAfter(action: string, current: Status): (s: Status)
    ensures action == "approve" ==> s == Approved
    ensures action == "reject" ==> s == Rejected
    ensures action != "approve" && action != "reject" ==> s == current
  {
    if action == "approve" then Approved
    else if action == "reject" then Rejected
    else current
  }

  /**
   * The moderator posts an action and a review id. The page requires a
   * logged-in user; anyone else is sent to log in. Unless both fields are
   * present nothing happens. The id must be a decimal number naming a review; that
   * review's status follows the action and it is saved again.
   */
  function ModeratePost(reviews: seq<Review>, loggedIn: bool, action: Option<string>, reviewId: Option<string>)
    : (m: Moderation)
    ensures m == LoginRequired <==> !loggedIn
    ensures loggedIn && !(Posted(action) && Posted(reviewId)) ==> m == Redirected(reviews)
    ensures m == BadReviewId <==> loggedIn && Posted(action) && Posted(reviewId) && !AllDigits(reviewId.value)
    ensures m == ReviewNotFound <==>
              loggedIn && Posted(action) && Posted(reviewId) && AllDigits(reviewId.value)
              && forall j :: 0 <= j < |reviews| ==> reviews[j].id != DigitsValue(reviewId.value)
    ensures m.Redirected? ==> |m.reviews| == |reviews|
    ensures m.Redirected? ==> forall j :: 0 <= j < |reviews| ==>
              m.reviews[j].(status := reviews[j].status) == reviews[j]
    ensures m.Redirected? && Posted(action) && Posted(reviewId) ==>
              forall j :: 0 <= j < |reviews| ==>
                m.reviews[j].status == if FirstWithId(reviews, j, DigitsValue(reviewId.value))
                                       then StatusAfter(action.value, reviews[j].status)
                                       else reviews[j].status
  {
    if !loggedIn then LoginRequired
    else if !(Posted(action) && Posted(reviewId)) then Redirected(reviews)
    else if !AllDigits(reviewId.value) then BadReviewId
    else
      var k := IndexOfReview(reviews, DigitsValue(reviewId.value));
      if k < 0 then ReviewNotFound
      else
        var r := reviews[k];
        Redirected(reviews[k := r.(status := StatusAfter(action.value, r.status))])
  }

  /** Approving a posted id sets that review's status and leaves every other review as it was. */
  lemma ApproveSetsStatusOnly(reviews: seq<Review>, id: string, k: nat)
    requires id != "" && AllDigits(id)
    requires k < |reviews| && reviews[k].id == DigitsValue(id)
    requires forall j :: 0 <= j < |reviews| && j != k ==> reviews[j].id != reviews[k].id
    ensures ModeratePost(reviews, true, Some("approve"), Some(id)) == Redirected(reviews[k := reviews[k].(status := Approved)])
  {
  }

  /** An unknown action changes nothing, though the review is saved again. */
  lemma UnknownActionKeepsLedger(reviews: seq<Review>, loggedIn: bool, action: string, id: string)
    requires action != "" && action != "approve" && action != "reject"
    requires ModeratePost(reviews, loggedIn, Some(action), Some(id)).Redirected?
    ensures ModeratePost(reviews, loggedIn, Some(action), Some(id)) == Redirected(reviews)
  {
    if id != "" {
      var k := IndexOfReview(reviews, DigitsValue(id));
      assert reviews[k := reviews[k]] == reviews;
    }
  }

  /** Moderation never touches the public flag, so a private review stays out of the public list. */
  lemma ModerationKeepsPrivateHidden(
    reviews: seq<Review>, loggedIn: bool, action: Option<string>, reviewId: Option<string>, k: nat)
    requires k < |reviews| && !reviews[k].isPublic
    ensures ModeratePost(reviews, loggedIn, action, reviewId).Redirected? ==>
              !IsVisible(ModeratePost(reviews, loggedIn, action, reviewId).reviews[k])
  {
    var m := ModeratePost(reviews, loggedIn, action, reviewId);
    if m.Redirected? {
      assert m.reviews[k].(status := reviews[k].status) == reviews[k];
    }
  }
}
