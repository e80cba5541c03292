/**
 * The review carousel: a cursor over the approved reviews that steps forward
 * and back around the circle, locked while the slide animation runs, with a
 * peek of the neighbouring review on each side and one dot per review.
 */
module ReviewSlider {
  import opened Wrappers
  import opened Cursor

  datatype Review = Review(reviewerName: string, rating: int, reviewText: string, serviceReceived: Option<string>)

  /**
   * `getVisibleReviews()` at cursor `i`: nothing for no review, the only one
   * for a single review, and otherwise the previous, the current and the next
   * review around the circle.
   */
  function Peek<T>(rs: seq<T>, i: int): (r: seq<T>)
    requires |rs| == 0 || 0 <= i < |rs|
    ensures |rs| == 0 ==> r == []
    ensures |rs| == 1 ==> r == [rs[0]]
    ensures |rs| > 1 ==> |r| == 3 && r[1] == rs[i]
    ensures |rs| > 1 ==> r[0] == rs[Prev(i, |rs|)] && r[2] == rs[Next(i, |rs|)]
  {
    if |rs| == 0 then []
    else if |rs| == 1 then [rs[0]]
    else [rs[Prev(i, |rs|)], rs[i], rs[Next(i, |rs|)]]
  }

  /** The review in the middle of the peek is always the current one. */
  lemma PeekCentreIsCurrent<T>(rs: seq<T>, i: int)
    requires 0 <= i < |rs|
    ensures var r := Peek(rs, i); |r| >= 1 && r[|r| / 2] == rs[i]
  {
  }

  /**
   * A step forward slides the peek window by one: the old centre becomes the
   * left neighbour and the old right neighbour the centre; a step back does
   * the mirror image.
   */
  lemma PeekSlides<T>(rs: seq<T>, i: int)
    requires |rs| > 1 && 0 <= i < |rs|
    ensures Peek(rs, Next(i, |rs|))[0] == Peek(rs, i)[1]
    ensures Peek(rs, Next(i, |rs|))[1] == Peek(rs, i)[2]
    ensures Peek(rs, Prev(i, |rs|))[2] == Peek(rs, i)[1]
    ensures Peek(rs, Prev(i, |rs|))[1] == Peek(rs, i)[0]
  {
    NextPrevInverse(i, |rs|);
  }

  /** With two reviews both neighbours are the other review. */
  lemma TwoReviewsShowTheOtherTwice<T>(rs: seq<T>, i: int)
    requires |rs| == 2 && 0 <= i < 2
    ensures Peek(rs, i)[0] == Peek(rs, i)[2] == rs[1 - i]
  {
  }

  /** From three reviews on, the peek shows three different positions of the list. */
  lemma PeekPositionsDistinct(n: int, i: int)
    requires n >= 3 && 0 <= i < n
    ensures Prev(i, n) != i && Next(i, n) != i && Prev(i, n) != Next(i, n)
  {
    WrapAgreesWithModulo(i, n);
  }

  class Slider {
    const reviews: seq<Review>
    var currentIndex: int
    var isAnimating: bool

    /** The cursor is on a review, or at 0 when there is none. */
    predicate Valid()
      reads this
    {
      if |reviews| == 0 then currentIndex == 0 else 0 <= currentIndex < |reviews|
    }

    constructor (reviews: seq<Review>)
      ensures this.reviews == reviews && currentIndex == 0 && !isAnimating && Valid()
    {
      this.reviews := reviews;
      currentIndex := 0;
      isAnimating := false;
    }

    /** `hasMultipleReviews`: the arrows and the dots show only then. */
    predicate HasMultipleReviews()
      reads this
    {
      |reviews| > 1
    }

    /** `goToNext`: ignored while animating or with fewer than two reviews. */
    method GoToNext()
      requires Valid()
      modifies this
      ensures Valid()
      ensures old(isAnimating) || !HasMultipleReviews() ==>
        currentIndex == old(currentIndex) && isAnimating == old(isAnimating)
      ensures !old(isAnimating) && HasMultipleReviews() ==>
        currentIndex == Next(old(currentIndex), |reviews|) && isAnimating
    {
      if isAnimating || !HasMultipleReviews() {
        return;
      }
      isAnimating := true;
      currentIndex := Next(currentIndex, |reviews|);
    }

    /** `goToPrev`: ignored while animating or with fewer than two reviews. */
    method GoToPrev()
      requires Valid()
      modifies this
      ensures Valid()
      ensures old(isAnimating) || !HasMultipleReviews() ==>
        currentIndex == old(currentIndex) && isAnimating == old(isAnimating)
      ensures !old(isAnimating) && HasMultipleReviews() ==>
        currentIndex == Prev(old(currentIndex), |reviews|) && isAnimating
    {
      if isAnimating || !HasMultipleReviews() {
        return;
      }
      isAnimating := true;
      currentIndex := Prev(currentIndex, |reviews|);
    }

    /** The animation timer fires: the lock is released and nothing else changes. */
    method AnimationDone()
      modifies this
      ensures !isAnimating && currentIndex == old(currentIndex)
    {
      isAnimating := false;
    }

    /** A click on dot `idx` jumps there directly, even during an animation. */
    method DotClick(idx: int)
      requires HasMultipleReviews() && 0 <= idx < |reviews|
      modifies this
      ensures Valid() && currentIndex == idx && isAnimating == old(isAnimating)
    {
      currentIndex := idx;
    }

    /** The reviews on screen: the peek around the cursor. */
    function VisibleReviews(): (r: seq<Review>)
      requires Valid()
      reads this
      ensures |r| <= 3 && (|r| == 0 <==> |reviews| == 0)
      ensures |reviews| > 0 ==> r[|r| / 2] == reviews[currentIndex]
    {
      Peek(reviews, currentIndex)
    }
  }

  /** Forward, the end of the animation, then back: the carousel is where it started. */
  method NextThenPrevRestores(s: Slider)
    requires s.Valid() && s.HasMultipleReviews() && !s.isAnimating
    modifies s
    ensures s.currentIndex == old(s.currentIndex) && s.isAnimating
  {
    s.GoToNext();
    s.AnimationDone();
    s.GoToPrev();
    NextPrevInverse(old(s.currentIndex), |s.reviews|);
  }

  /** While the animation runs, arrow clicks are lost. */
  method ClicksDuringAnimationAreLost(s: Slider)
    requires s.Valid() && s.isAnimating
    modifies s
    ensures s.currentIndex == old(s.currentIndex) && s.isAnimating
  {
    s.GoToNext();
    s.GoToPrev();
  }
}
