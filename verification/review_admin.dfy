/**
 * The operator's side of reviews (reviews/admin.py): the star rendering of
 * a rating, the status badge, the bulk actions and column edits of status
 * and visibility, and the change form. Together with the moderation form
 * they make up every way a review's status or public flag can change, which
 * gives the event model at the end of this module.
 */
module ReviewAdmin {
  import opened Wrappers
  import opened Text
  import opened ReviewModels
  import opened ReviewViews
  import CoreAdmin

  // ---------------------------------------------------------------------------
  // Star rendering (`rating_stars`, shared by reviews and social reviews)
  // ---------------------------------------------------------------------------

  const FullStar: char := '★'
  const EmptyStar: char := '☆'

  /** `rating` filled stars, then `5 - rating` empty ones; a negative count repeats nothing. */
  function RatingStars(rating: int): (stars: string)
    ensures 0 <= rating <= 5 ==> |stars| == 5
    ensures forall i :: 0 <= i < |stars| ==> (stars[i] == FullStar <==> i < rating)
    ensures forall i :: 0 <= i < |stars| ==> (stars[i] == EmptyStar <==> i >= rating)
  {
    Repeat(FullStar, rating) + Repeat(EmptyStar, 5 - rating)
  }

  /** The number of filled stars a reader counts from the left. */
  function FilledStars(s: string): nat {
    if |s| > 0 && s[0] == FullStar then 1 + FilledStars(s[1..]) else 0
  }

  /** A run of `n` filled stars ended by the end of the text or another symbol counts as `n`. */
  lemma {:induction false} LeadingRun(s: string, n: nat)
    requires n <= |s|
    requires forall i :: 0 <= i < n ==> s[i] == FullStar
    requires n == |s| || s[n] != FullStar
    ensures FilledStars(s) == n
    decreases n
  {
    if n > 0 {
      LeadingRun(s[1..], n - 1);
    }
  }

  /** The rating can be read back from its stars. */
  lemma StarsRoundTrip(rating: int)
    requires 0 <= rating <= 5
    ensures FilledStars(RatingStars(rating)) == rating
  {
    LeadingRun(RatingStars(rating), rating);
  }

  // ---------------------------------------------------------------------------
  // Status badge
  // ---------------------------------------------------------------------------

  /** `status_badge`'s colour. */
  function BadgeColour(s: Status): (colour: string)
    ensures s == Pending <==> colour == "orange"
    ensures s == Approved <==> colour == "green"
    ensures s == Rejected <==> colour == "red"
  {
    match s
    case Pending => "orange"
    case Approved => "green"
    case Rejected => "red"
  }

  /** The colour alone tells the status. */
  lemma BadgeColourDecides(s: Status, t: Status)
    requires BadgeColour(s) == BadgeColour(t)
    ensures s == t
  {
  }

  // ---------------------------------------------------------------------------
  // Bulk actions
  // ---------------------------------------------------------------------------

  /** `approve_selected` (Approved) and `reject_selected` (Rejected); also an edit of the status column. */
  function SetStatus(reviews: seq<Review>, selected: set<nat>, status: Status): (r: seq<Review>)
    ensures |r| == |reviews|
    ensures forall i :: 0 <= i < |r| ==> r[i].(status := reviews[i].status) == reviews[i]
    ensures forall i :: 0 <= i < |r| ==> r[i].status == if reviews[i].id in selected then status else reviews[i].status
  {
    seq(|reviews|, i requires 0 <= i < |reviews| =>
      if reviews[i].id in selected then reviews[i].(status := status) else reviews[i])
  }

  /** `make_public` (true) and `make_private` (false); also an edit of the public column. */
  function SetPublic(reviews: seq<Review>, selected: set<nat>, flag: bool): (r: seq<Review>)
    ensures |r| == |reviews|
    ensures forall i :: 0 <= i < |r| ==> r[i].(isPublic := reviews[i].isPublic) == reviews[i]
    ensures forall i :: 0 <= i < |r| ==> r[i].isPublic == if reviews[i].id in selected then flag else reviews[i].isPublic
  {
    seq(|reviews|, i requires 0 <= i < |reviews| =>
      if reviews[i].id in selected then reviews[i].(isPublic := flag) else reviews[i])
  }

  /** Approval and publicity are independent: the two kinds of action commute. */
  lemma StatusAndPublicityCommute(reviews: seq<Review>, a: set<nat>, s: Status, b: set<nat>, f: bool)
    ensures SetStatus(SetPublic(reviews, b, f), a, s) == SetPublic(SetStatus(reviews, a, s), b, f)
  {
    var x := SetStatus(SetPublic(reviews, b, f), a, s);
    var y := SetPublic(SetStatus(reviews, a, s), b, f);
    forall i | 0 <= i < |reviews| ensures x[i] == y[i] {
    }
  }

  /** Approving and then making public the same selection shows every selected review. */
  lemma ApproveAndPublishShows(reviews: seq<Review>, selected: set<nat>, k: nat)
    requires k < |reviews| && reviews[k].id in selected
    ensures IsVisible(SetPublic(SetStatus(reviews, selected, Approved), selected, true)[k])
  {
  }

  // ---------------------------------------------------------------------------
  // Every change a review can go through
  // ---------------------------------------------------------------------------

  /**
   * The admin change form of the review with the id, once it validates: the
   * posted author, e-mail, rating, text, photo, status and public flag
   * replace the stored ones; the id and the read-only creation time stay.
   * A form that does not validate saves nothing and needs no event.
   */
  function ChangeReview(reviews: seq<Review>, id: nat, posted: Review): (r: seq<Review>)
    ensures |r| == |reviews|
    ensures forall i :: 0 <= i < |r| && reviews[i].id != id ==> r[i] == reviews[i]
    ensures forall i :: 0 <= i < |r| && reviews[i].id == id ==>
              r[i].id == id && r[i].createdAt == reviews[i].createdAt
              && r[i].(id := posted.id, createdAt := posted.createdAt) == posted
  {
    seq(|reviews|, i requires 0 <= i < |reviews| =>
      if reviews[i].id == id then posted.(id := reviews[i].id, createdAt := reviews[i].createdAt) else reviews[i])
  }

  /** On status and visibility the change form acts as a status action followed by a visibility action on its one review. */
  lemma ChangeFormIsStatusThenPublic(reviews: seq<Review>, id: nat, posted: Review, k: nat)
    requires k < |reviews|
    ensures var changed := ChangeReview(reviews, id, posted)[k];
            var acted := SetPublic(SetStatus(reviews, {id}, posted.status), {id}, posted.isPublic)[k];
            changed.status == acted.status && changed.isPublic == acted.isPublic
  {
  }

  /** A request that may change reviews: the moderation form, or an admin action, column edit or change form. */
  datatype Event =
    | Moderate(loggedIn: bool, action: Option<string>, reviewId: Option<string>)
    | AdminSetStatus(selected: set<nat>, status: Status)
    | AdminSetPublic(selected: set<nat>, flag: bool)
    | AdminChange(id: nat, posted: Review)

  /** One request; a request that ends in an error page changes nothing. */
  function Step(reviews: seq<Review>, e: Event): (r: seq<Review>)
    ensures |r| == |reviews|
    ensures forall i :: 0 <= i < |r| ==> r[i].id == reviews[i].id
  {
    match e
    case Moderate(loggedIn, action, reviewId) =>
      var m := ModeratePost(reviews, loggedIn, action, reviewId);
      if m.Redirected? then m.reviews else reviews
    case AdminSetStatus(selected, status) => SetStatus(reviews, selected, status)
    case AdminSetPublic(selected, flag) => SetPublic(reviews, selected, flag)
    case AdminChange(id, posted) => ChangeReview(reviews, id, posted)
  }

  /** A sequence of requests, in order. */
  function Run(reviews: seq<Review>, events: seq<Event>): (r: seq<Review>)
    ensures |r| == |reviews|
    ensures forall i :: 0 <= i < |r| ==> r[i].id == reviews[i].id
    decreases |events|
  {
    if |events| == 0 then reviews else Run(Step(reviews, events[0]), events[1..])
  }

  /** The request makes the review with the id public. */
  predicate Publishes(e: Event, id: nat) {
    || (e.AdminSetPublic? && e.flag && id in e.selected)
    || (e.AdminChange? && e.posted.isPublic && e.id == id)
  }

  /** The request approves the review with the id. */
  predicate Approves(e: Event, id: nat) {
    || (e.AdminSetStatus? && e.status == Approved && id in e.selected)
    || (e.AdminChange? && e.posted.status == Approved && e.id == id)
    || (e.Moderate? && e.loggedIn && e.action == Some("approve") && Posted(e.reviewId) && AllDigits(e.reviewId.value)
        && DigitsValue(e.reviewId.value) == id)
  }

  /** One request makes a private review public only if it publishes it. */
  lemma StepPublishes(reviews: seq<Review>, e: Event, k: nat)
    requires k < |reviews| && !reviews[k].isPublic
    ensures Step(reviews, e)[k].isPublic ==> Publishes(e, reviews[k].id)
  {
  }

  /** One request approves a review that was not approved only if it approves it. */
  lemma StepApproves(reviews: seq<Review>, e: Event, k: nat)
    requires k < |reviews| && reviews[k].status != Approved
    ensures Step(reviews, e)[k].status == Approved ==> Approves(e, reviews[k].id)
  {
    if e.Moderate? && Step(reviews, e)[k].status == Approved {
      var m := ModeratePost(reviews, e.loggedIn, e.action, e.reviewId);
      assert m.Redirected?;
      assert Posted(e.action) && Posted(e.reviewId);
      assert FirstWithId(reviews, k, DigitsValue(e.reviewId.value));
    }
  }

  /** Over any run, a private review becomes public only through a request that publishes it. */
  lemma {:induction false} PublicOnlyByPublishing(reviews: seq<Review>, events: seq<Event>, k: nat)
    requires k < |reviews| && !reviews[k].isPublic && Run(reviews, events)[k].isPublic
    ensures exists i :: 0 <= i < |events| && Publishes(events[i], reviews[k].id)
    decreases |events|
  {
    var next := Step(reviews, events[0]);
    if next[k].isPublic {
      StepPublishes(reviews, events[0], k);
    } else {
      PublicOnlyByPublishing(next, events[1..], k);
      var i :| 0 <= i < |events[1..]| && Publishes(events[1..][i], next[k].id);
      assert Publishes(events[i + 1], reviews[k].id);
    }
  }

  /** Over any run, an unapproved review becomes approved only through a request that approves it. */
  lemma {:induction false} ApprovedOnlyByApproving(reviews: seq<Review>, events: seq<Event>, k: nat)
    requires k < |reviews| && reviews[k].status != Approved && Run(reviews, events)[k].status == Approved
    ensures exists i :: 0 <= i < |events| && Approves(events[i], reviews[k].id)
    decreases |events|
  {
    var next := Step(reviews, events[0]);
    if next[k].status == Approved {
      StepApproves(reviews, events[0], k);
    } else {
      ApprovedOnlyByApproving(next, events[1..], k);
      var i :| 0 <= i < |events[1..]| && Approves(events[1..][i], next[k].id);
      assert Approves(events[i + 1], reviews[k].id);
    }
  }

  /**
   * A freshly submitted review reaches the public list only after some
   * request approved it and some request made it public.
   */
  lemma FreshReviewNeedsApprovalAndPublication(
    reviews: seq<Review>, form: ReviewForm, emailValid: bool, photoValid: bool, id: nat, now: nat, events: seq<Event>)
    requires SubmitReview(form, emailValid, photoValid, id, now).Some?
    ensures var start := reviews + [SubmitReview(form, emailValid, photoValid, id, now).value];
            IsVisible(Run(start, events)[|reviews|]) ==>
              (exists i :: 0 <= i < |events| && Approves(events[i], id))
              && (exists i :: 0 <= i < |events| && Publishes(events[i], id))
  {
    var start := reviews + [SubmitReview(form, emailValid, photoValid, id, now).value];
    var k := |reviews|;
    if IsVisible(Run(start, events)[k]) {
      ApprovedOnlyByApproving(start, events, k);
      PublicOnlyByPublishing(start, events, k);
    }
  }

  // ---------------------------------------------------------------------------
  // Social reviews in the admin
  // ---------------------------------------------------------------------------

  /** `SocialReviewAdmin`: rows come from imports, never from the add form; deleting and the change form stay allowed. */
  const SocialReviewPermissions: CoreAdmin.Permissions := CoreAdmin.Permissions(false, true)

  /** The change form accepts a non-empty author of at most 100 characters, a non-empty text and a rating among the choices. */
  predicate SocialFormValid(posted: SocialReview) {
    posted.author != "" && |posted.author| <= 100 && posted.text != "" && 1 <= posted.rating <= 5
  }

  /**
   * The change form of `SocialReviewAdmin`: source, author, text, rating and
   * the post's date come from the form; the external id, both links and the
   * import time are read-only. A form that does not validate saves nothing.
   */
  function SaveSocialReview(stored: SocialReview, posted: SocialReview): (saved: SocialReview)
    ensures saved.externalId == stored.externalId && saved.photoUrl == stored.photoUrl
            && saved.postUrl == stored.postUrl && saved.importedAt == stored.importedAt
    ensures SocialFormValid(posted) ==>
              saved.source == posted.source && saved.author == posted.author && saved.text == posted.text
              && saved.rating == posted.rating && saved.createdAt == posted.createdAt
    ensures !SocialFormValid(posted) ==> saved == stored
  {
    if SocialFormValid(posted) then
      stored.(source := posted.source, author := posted.author, text := posted.text,
              rating := posted.rating, createdAt := posted.createdAt)
    else stored
  }

  function ExternalIdOf(r: SocialReview): string {
    r.externalId
  }

  /**
   * No sequence of admin requests adds a social review: the table never
   * grows, no external id appears that was not imported, and without edits
   * the rows are only kept or deleted.
   */
  lemma SocialReviewsNeverAddedByAdmin(stored: seq<SocialReview>, reqs: seq<CoreAdmin.RowRequest<SocialReview>>)
    ensures |CoreAdmin.ApplyAll(SocialReviewPermissions, SaveSocialReview, stored, reqs)| <= |stored|
    ensures multiset(CoreAdmin.Keys(CoreAdmin.ApplyAll(SocialReviewPermissions, SaveSocialReview, stored, reqs), ExternalIdOf))
            <= multiset(CoreAdmin.Keys(stored, ExternalIdOf))
    ensures CoreAdmin.NoEdits(reqs) ==>
              multiset(CoreAdmin.ApplyAll(SocialReviewPermissions, SaveSocialReview, stored, reqs)) <= multiset(stored)
  {
    assert CoreAdmin.KeepsKey(SaveSocialReview, ExternalIdOf);
    CoreAdmin.NoAddNeverGrows(SocialReviewPermissions, SaveSocialReview, ExternalIdOf, stored, reqs);
  }
}
