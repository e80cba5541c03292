/**
 * The customer-review document of the content store: required fields and the
 * rating bound, the status and source value sets with their initial values,
 * the list preview, and the document the submission endpoint creates.
 */
module ReviewSchema {
  import opened Wrappers
  import opened Text

  datatype ReviewDoc = ReviewDoc(
    reviewerName: Option<string>,
    rating: Option<int>,
    reviewText: Option<string>,
    serviceReceived: Option<string>,
    reviewDate: Option<string>,
    status: Option<string>,
    source: Option<string>)

  /** What the review form posts: its three text fields and the chosen rating. */
  datatype Submission = Submission(name: string, review: string, service: string, rating: int)

  datatype Preview = Preview(title: Option<string>, subtitle: string)

  const Statuses: seq<string> := ["pending", "approved", "rejected"]
  const Sources: seq<string> := ["website", "inperson", "whatsapp"]
  const InitialStatus: string := "pending"
  const InitialSource: string := "website"

  predicate RatingInRange(r: int) {
    1 <= r <= 5
  }

  /**
   * The document passes the studio's validation: name, rating and text are
   * required, the rating lies in 1..5, and status and source, when set, are
   * among their declared values.
   */
  predicate Valid(d: ReviewDoc) {
    && Truthy(d.reviewerName)
    && d.rating.Some? && RatingInRange(d.rating.value)
    && Truthy(d.reviewText)
    && (d.status.Some? ==> d.status.value in Statuses)
    && (d.source.Some? ==> d.source.value in Sources)
  }

  /** The document the studio creates, stamped with the current time `now`. */
  function NewReview(now: string): (d: ReviewDoc)
    ensures d.status == Some(InitialStatus) && InitialStatus in Statuses
    ensures d.source == Some(InitialSource) && InitialSource in Sources
    ensures d.reviewDate == Some(now)
    ensures d.reviewerName.None? && d.rating.None? && d.reviewText.None?
  {
    ReviewDoc(None, None, None, None, Some(now), Some(InitialStatus), Some(InitialSource))
  }

  /** The list preview: the name over "<rating> stars – <status>". */
  function Prepare(title: Option<string>, subtitle: Option<int>, status: Option<string>): (p: Preview)
    ensures p.title == title
    ensures StartsWith(p.subtitle, ShowInt(subtitle) + " stars")
    ensures EndsWith(p.subtitle, Show(status))
    ensures Joined(p.subtitle, ShowInt(subtitle) + " stars", EnDash, Show(status))
  {
    JoinedConcat(ShowInt(subtitle) + " stars", EnDash, Show(status));
    Preview(title, ShowInt(subtitle) + " stars" + EnDash + Show(status))
  }

  /**
   * The record the submission endpoint writes for a posted form: always
   * pending, always from the website, with an absent service stored as "".
   */
  function CreatedDocument(s: Submission, now: string): (d: ReviewDoc)
    ensures d.status == Some("pending") && d.source == Some("website")
    ensures d.reviewerName == Some(s.name) && d.reviewText == Some(s.review) && d.rating == Some(s.rating)
    ensures d.serviceReceived == Some(s.service) && d.reviewDate == Some(now)
  {
    ReviewDoc(Some(s.name), Some(s.rating), Some(s.review), Some(s.service), Some(now),
              Some("pending"), Some("website"))
  }

  /** A posted form with a name, a text and a rating in 1..5 becomes a valid document. */
  lemma SubmissionCreatesValidDocument(s: Submission, now: string)
    requires s.name != "" && s.review != "" && RatingInRange(s.rating)
    ensures Valid(CreatedDocument(s, now))
  {
  }

  /** Without a name or a text, or with a rating outside 1..5, the created document is invalid. */
  lemma InvalidSubmissionCreatesInvalidDocument(s: Submission, now: string)
    requires s.name == "" || s.review == "" || !RatingInRange(s.rating)
    ensures !Valid(CreatedDocument(s, now))
  {
  }

  /** A fresh studio document still lacks its required fields. */
  lemma NewReviewNeedsRequiredFields(now: string)
    ensures !Valid(NewReview(now))
  {
  }
}
