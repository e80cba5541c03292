/**
 * The public review form: five stars with a hover preview, the name, service
 * and review fields, a submit button enabled only for a complete form, and
 * the submit round trip whose response (ok or not) arrives as an event. A
 * successful submit shows the thank-you panel and clears the form; "Write
 * another review" brings the form back.
 */
module ReviewForm {
  import opened Wrappers
  import ReviewSchema

  class Form {
    var rating: int
    var hover: int
    var name: string
    var review: string
    var service: string
    var submitted: bool
    var loading: bool

    /** Both star values are 0 (none) or one of the five stars. */
    predicate Valid()
      reads this
    {
      0 <= rating <= 5 && 0 <= hover <= 5
    }

    constructor ()
      ensures Valid() && rating == 0 && hover == 0
      ensures name == "" && review == "" && service == ""
      ensures !submitted && !loading
    {
      rating := 0;
      hover := 0;
      name := "";
      review := "";
      service := "";
      submitted := false;
      loading := false;
    }

    /** `disabled={!rating || !formData.name || !formData.review || loading}`, negated. */
    predicate SubmitEnabled()
      reads this
    {
      rating != 0 && name != "" && review != "" && !loading
    }

    /** The rating the stars show: the hovered star if any, else the chosen rating. */
    function ShownRating(): (r: int)
      requires Valid()
      reads this
      ensures 0 <= r <= 5
      ensures hover != 0 ==> r == hover
      ensures hover == 0 ==> r == rating
    {
      if hover != 0 then hover else rating
    }

    /** `(hover || rating) >= star`: star `star` is drawn filled. */
    predicate StarFilled(star: int)
      reads this
    {
      (if hover != 0 then hover else rating) >= star
    }

    /** A click on star `star` chooses that rating. */
    method ClickStar(star: int)
      requires Valid() && !submitted && 1 <= star <= 5
      modifies this
      ensures Valid() && rating == star
      ensures hover == old(hover) && name == old(name) && review == old(review) && service == old(service)
      ensures submitted == old(submitted) && loading == old(loading)
    {
      rating := star;
    }

    /** The pointer enters star `star`: the preview follows it. */
    method EnterStar(star: int)
      requires Valid() && !submitted && 1 <= star <= 5
      modifies this
      ensures Valid() && hover == star
      ensures rating == old(rating) && name == old(name) && review == old(review) && service == old(service)
      ensures submitted == old(submitted) && loading == old(loading)
    {
      hover := star;
    }

    /** The pointer leaves a star: the preview is dropped. */
    method LeaveStar()
      requires Valid() && !submitted
      modifies this
      ensures Valid() && hover == 0
      ensures rating == old(rating) && name == old(name) && review == old(review) && service == old(service)
      ensures submitted == old(submitted) && loading == old(loading)
    {
      hover := 0;
    }

    method EditName(v: string)
      requires Valid() && !submitted
      modifies this
      ensures Valid() && name == v
      ensures rating == old(rating) && hover == old(hover) && review == old(review) && service == old(service)
      ensures submitted == old(submitted) && loading == old(loading)
    {
      name := v;
    }

    method EditService(v: string)
      requires Valid() && !submitted
      modifies this
      ensures Valid() && service == v
      ensures rating == old(rating) && hover == old(hover) && name == old(name) && review == old(review)
      ensures submitted == old(submitted) && loading == old(loading)
    {
      service := v;
    }

    method EditReview(v: string)
      requires Valid() && !submitted
      modifies this
      ensures Valid() && review == v
      ensures rating == old(rating) && hover == old(hover) && name == old(name) && service == old(service)
      ensures submitted == old(submitted) && loading == old(loading)
    {
      review := v;
    }

    /**
     * A press of the submit button. A disabled button submits nothing and the
     * form stays as it is; otherwise `loading` is set and the form's fields
     * plus the rating are sent.
     */
    method BeginSubmit() returns (payload: Option<ReviewSchema.Submission>)
      requires Valid() && !submitted
      modifies this
      ensures Valid()
      ensures payload.Some? <==> old(SubmitEnabled())
      ensures payload.Some? ==> payload.value == ReviewSchema.Submission(name, review, service, rating) && loading
      ensures payload.Some? ==> payload.value.name != "" && payload.value.review != ""
      ensures payload.Some? ==> ReviewSchema.RatingInRange(payload.value.rating)
      ensures payload.None? ==> loading == old(loading)
      ensures rating == old(rating) && hover == old(hover) && name == old(name) && review == old(review)
      ensures service == old(service) && submitted == old(submitted)
    {
      if !SubmitEnabled() {
        return None;
      }
      loading := true;
      payload := Some(ReviewSchema.Submission(name, review, service, rating));
    }

    /**
     * The response arrives. An ok response shows the thank-you panel and
     * clears the fields and the rating; a failed one keeps everything. In both
     * cases the button is released.
     */
    method FinishSubmit(ok: bool)
      requires Valid() && loading
      modifies this
      ensures Valid() && !loading && hover == old(hover)
      ensures ok ==> submitted && rating == 0 && name == "" && review == "" && service == ""
      ensures !ok ==> submitted == old(submitted) && rating == old(rating)
      ensures !ok ==> name == old(name) && review == old(review) && service == old(service)
    {
      if ok {
        submitted := true;
        name, review, service := "", "", "";
        rating := 0;
      }
      loading := false;
    }

    /** "Write another review": only the thank-you panel goes away. */
    method WriteAnother()
      requires Valid() && submitted
      modifies this
      ensures Valid() && !submitted
      ensures rating == old(rating) && hover == old(hover) && name == old(name) && review == old(review)
      ensures service == old(service) && loading == old(loading)
    {
      submitted := false;
    }
  }

  /** The stars fill from the left: star s is filled exactly when s is at most the shown rating. */
  lemma StarsFillFromTheLeft(f: Form, star: int)
    requires f.Valid()
    ensures f.StarFilled(star) <==> star <= f.ShownRating()
  {
  }

  /** A filled star has every star to its left filled too. */
  lemma FilledStarsArePrefix(f: Form, s: int, t: int)
    requires f.Valid() && t <= s && f.StarFilled(s)
    ensures f.StarFilled(t)
  {
  }

  /** After leaving the stars they show the chosen rating again. */
  method LeaveShowsRating(f: Form, star: int)
    requires f.Valid() && !f.submitted && 1 <= star <= 5
    modifies f
    ensures f.StarFilled(star) <==> star <= old(f.rating)
  {
    f.LeaveStar();
  }

  /**
   * A successful round trip from a complete form: what was sent produces a
   * valid review document, and the form comes back empty with a disabled
   * button once "Write another review" is clicked.
   */
  method SubmitSucceeds(f: Form, now: string) returns (payload: Option<ReviewSchema.Submission>)
    requires f.Valid() && !f.submitted && f.SubmitEnabled()
    modifies f
    ensures payload.Some? && ReviewSchema.Valid(ReviewSchema.CreatedDocument(payload.value, now))
    ensures !f.submitted && !f.SubmitEnabled() && f.name == "" && f.review == "" && f.rating == 0
  {
    payload := f.BeginSubmit();
    ReviewSchema.SubmissionCreatesValidDocument(payload.value, now);
    f.FinishSubmit(true);
    f.WriteAnother();
  }

  /** A failed submit leaves the form as it was, ready to be sent again. */
  method SubmitFails(f: Form)
    requires f.Valid() && !f.submitted && f.SubmitEnabled()
    modifies f
    ensures f.SubmitEnabled() && !f.submitted
    ensures f.name == old(f.name) && f.review == old(f.review) && f.rating == old(f.rating)
  {
    var payload := f.BeginSubmit();
    f.FinishSubmit(false);
  }
}
