/**
 * Client reviews (reviews/models.py): a review is written by a visitor, waits
 * for moderation, and is shown publicly only once it is approved and made
 * public. Social reviews are imported posts keyed by their id in the source
 * network.
 */
module ReviewModels {
  import opened Wrappers

  // ---------------------------------------------------------------------------
  // Status and rating domains
  // ---------------------------------------------------------------------------

  datatype Status = Pending | Approved | Rejected

  /** The stored value of a status. */
  function StatusCode(s: Status): (code: string)
    ensures 1 <= |code| <= 10
  {
    match s
    case Pending => "pending"
    case Approved => "approved"
    case Rejected => "rejected"
  }

  /** A stored value read back as a status; anything outside the three choices is refused. */
  function ParseStatus(code: string): (r: Option<Status>)
    ensures r.Some? ==> StatusCode(r.value) == code
    ensures r.None? <==> code !in {"pending", "approved", "rejected"}
  {
    if code == "pending" then Some(Pending)
    else if code == "approved" then Some(Approved)
    else if code == "rejected" then Some(Rejected)
    else None
  }

  /** Every status survives being stored and read back. */
  lemma StatusRoundTrip(s: Status)
    ensures ParseStatus(StatusCode(s)) == Some(s)
  {
  }

  /** Distinct statuses are stored differently. */
  lemma StatusCodeInjective(s: Status, t: Status)
    requires StatusCode(s) == StatusCode(t)
    ensures s == t
  {
    StatusRoundTrip(s);
    StatusRoundTrip(t);
  }

  /** `RATING_CHOICES`: the integers 1 to 5. */
  const RatingChoices: seq<int> := [1, 2, 3, 4, 5]

  predicate ValidRating(rating: int) {
    rating in RatingChoices
  }

  /** The rating choices are exactly the range 1..5. */
  lemma RatingChoicesAreOneToFive(rating: int)
    ensures ValidRating(rating) <==> 1 <= rating <= 5
  {
  }

  // ---------------------------------------------------------------------------
  // Reviews
  // ---------------------------------------------------------------------------

  /** A review; `photo` is the stored file name ("" for none). */
  datatype Review = Review(
    id: nat, author: string, email: string, rating: int, text: string, photo: string,
    isPublic: bool, status: Status, createdAt: nat)

  /** Shown in the public list: approved and public, both. */
  predicate IsVisible(r: Review) {
    r.status == Approved && r.isPublic
  }

  /** The visitor's review form (`ReviewForm`). */
  datatype ReviewForm = ReviewForm(author: string, email: string, rating: int, text: string, photo: string)

  /**
   * Validating and saving the review form. Author and text are required,
   * the author at most 100 characters, the rating one of the choices; the
   * e-mail syntax check is the framework's and arrives as `emailValid`. The
   * photo is optional; an uploaded one must pass the framework's image field
   * checks (a readable, non-empty image whose name has at most 100
   * characters), whose verdict arrives as `photoValid`. A saved review
   * starts pending and private.
   */
  function SubmitReview(form: ReviewForm, emailValid: bool, photoValid: bool, id: nat, now: nat): (r: Option<Review>)
    ensures r.Some? <==> form.author != "" && |form.author| <= 100 && form.text != ""
                         && form.email != "" && emailValid && 1 <= form.rating <= 5
                         && (form.photo == "" || photoValid)
    ensures r.Some? ==> r.value.status == Pending && !r.value.isPublic
    ensures r.Some? ==> !IsVisible(r.value)
    ensures r.Some? ==> r.value.author == form.author && r.value.rating == form.rating && r.value.text == form.text
                        && r.value.email == form.email && r.value.photo == form.photo
                        && r.value.id == id && r.value.createdAt == now
  {
    RatingChoicesAreOneToFive(form.rating);
    if form.author != "" && |form.author| <= 100 && form.text != "" && form.email != "" && emailValid
       && ValidRating(form.rating) && (form.photo == "" || photoValid)
    then Some(Review(id, form.author, form.email, form.rating, form.text, form.photo, false, Pending, now))
    else None
  }

  // ---------------------------------------------------------------------------
  // Social reviews
  // ---------------------------------------------------------------------------

  datatype Source = Instagram | VKontakte

  function SourceCode(s: Source): (code: string)
    ensures code == "instagram" <==> s == Instagram
    ensures code == "vk" <==> s == VKontakte
  {
    match s
    case Instagram => "instagram"
    case VKontakte => "vk"
  }

  datatype SocialReview = SocialReview(
    source: Source, externalId: string, author: string, text: string, rating: int,
    photoUrl: string, postUrl: string, createdAt: nat, importedAt: nat)

  /** No two stored social reviews share an external id. */
  predicate ExternalIdsUnique(stored: seq<SocialReview>) {
    forall i, j :: 0 <= i < j < |stored| ==> stored[i].externalId != stored[j].externalId
  }

  predicate ExternalIdTaken(stored: seq<SocialReview>, externalId: string) {
    exists i :: 0 <= i < |stored| && stored[i].externalId == externalId
  }

  /**
   * Storing a social review through its model form: the external id is
   * required, at most 100 characters and unused, and the rating is one of
   * the choices; otherwise nothing is stored.
   */
  function AddSocialReview(stored: seq<SocialReview>, r: SocialReview): (result: Option<seq<SocialReview>>)
    ensures result.Some? <==> r.externalId != "" && |r.externalId| <= 100 && !ExternalIdTaken(stored, r.externalId)
                              && 1 <= r.rating <= 5
    ensures result.Some? ==> result.value == stored + [r]
  {
    RatingChoicesAreOneToFive(r.rating);
    if r.externalId != "" && |r.externalId| <= 100 && !ExternalIdTaken(stored, r.externalId) && ValidRating(r.rating)
    then Some(stored + [r])
    else None
  }

  /** Storing keeps external ids unique and every stored rating in range. */
  lemma AddSocialReviewKeepsInvariant(stored: seq<SocialReview>, r: SocialReview)
    requires ExternalIdsUnique(stored)
    requires forall i :: 0 <= i < |stored| ==> 1 <= stored[i].rating <= 5
    ensures AddSocialReview(stored, r).Some? ==>
              var s := AddSocialReview(stored, r).value;
              ExternalIdsUnique(s) && forall i :: 0 <= i < |s| ==> 1 <= s[i].rating <= 5
  {
    if AddSocialReview(stored, r).Some? {
      var s := stored + [r];
      forall i, j | 0 <= i < j < |s| ensures s[i].externalId != s[j].externalId {
        if j == |stored| {
          assert s[i] == stored[i];
        }
      }
    }
  }

  /** A second import of the same post is refused. */
  lemma DuplicateImportRefused(stored: seq<SocialReview>, r: SocialReview, again: SocialReview)
    requires AddSocialReview(stored, r).Some?
    requires again.externalId == r.externalId
    ensures AddSocialReview(AddSocialReview(stored, r).value, again).None?
  {
    var s := AddSocialReview(stored, r).value;
    assert s[|stored|].externalId == again.externalId;
  }
}
