/**
 * The picture gallery of a service page: thumbnails that open a full-screen
 * view at the clicked picture, arrows and arrow keys that wrap at both ends,
 * Escape, the backdrop and the close button to close it, and the counter.
 */
module ServiceGallery {
  import opened Wrappers
  import opened Cursor
  import GalleryLightbox

  datatype GalleryItem = GalleryItem(mediaType: string, imageUrl: Option<string>, videoUrl: Option<string>)

  /** What rendering the component with a given `gallery` prop does. */
  datatype Outcome = Throws | RendersNothing | RendersGrid(thumbnails: nat)

  /**
   * The render as written: the dependency list of the keyboard effect reads
   * `gallery.length` before the `!gallery` guard is reached, so a missing
   * gallery throws a TypeError instead of rendering nothing.
   */
  function RenderAsWritten(gallery: Option<seq<GalleryItem>>): (o: Outcome)
    ensures gallery.None? ==> o == Throws
    ensures gallery.Some? && |gallery.value| == 0 ==> o == RendersNothing
    ensures gallery.Some? && |gallery.value| > 0 ==> o == RendersGrid(|gallery.value|)
  {
    match gallery
    case None => Throws
    case Some(g) => if |g| == 0 then RendersNothing else RendersGrid(|g|)
  }

  /** The render the guard evidently intends: no gallery and an empty gallery both render nothing. */
  function Render(gallery: Option<seq<GalleryItem>>): (o: Outcome)
    ensures o != Throws
    ensures o == RendersNothing <==> gallery.None? || |gallery.value| == 0
  {
    if gallery.None? || |gallery.value| == 0 then RendersNothing else RendersGrid(|gallery.value|)
  }

  /**
   * The service documents declare no `gallery` field, so the page query
   * yields none and passes it on; as written that page throws.
   */
  lemma MissingGalleryThrows()
    ensures RenderAsWritten(None) == Throws
    ensures Render(None) == RendersNothing
  {
  }

  /** The intended render differs from the written one only on a missing gallery. */
  lemma RenderAgreesWhenPresent(g: seq<GalleryItem>)
    ensures Render(Some(g)) == RenderAsWritten(Some(g))
  {
  }

  class Gallery {
    const gallery: seq<GalleryItem>
    var isOpen: bool
    var currentIndex: int

    predicate Valid()
      reads this
    {
      && 0 <= currentIndex
      && (|gallery| > 0 ==> currentIndex < |gallery|)
      && (|gallery| == 0 ==> currentIndex == 0 && !isOpen)
    }

    constructor (gallery: seq<GalleryItem>)
      ensures this.gallery == gallery && !isOpen && currentIndex == 0 && Valid()
    {
      this.gallery := gallery;
      isOpen := false;
      currentIndex := 0;
    }

    /** `openLightbox(i)`, a click on thumbnail `i`. */
    method OpenLightbox(i: int)
      requires Valid() && 0 <= i < |gallery|
      modifies this
      ensures Valid() && isOpen && currentIndex == i
    {
      currentIndex := i;
      isOpen := true;
    }

    /** `handleNext`: the last picture wraps to the first. */
    method HandleNext()
      requires Valid() && isOpen
      modifies this
      ensures Valid() && isOpen && currentIndex == WrapNext(old(currentIndex), |gallery|)
    {
      currentIndex := if currentIndex == |gallery| - 1 then 0 else currentIndex + 1;
    }

    /** `handlePrev`: the first picture wraps to the last. */
    method HandlePrev()
      requires Valid() && isOpen
      modifies this
      ensures Valid() && isOpen && currentIndex == WrapPrev(old(currentIndex), |gallery|)
    {
      currentIndex := if currentIndex == 0 then |gallery| - 1 else currentIndex - 1;
    }

    /** The backdrop and the close button: the view closes and keeps its position. */
    method Close()
      requires Valid()
      modifies this
      ensures Valid() && !isOpen && currentIndex == old(currentIndex)
    {
      isOpen := false;
    }

    /**
     * The keydown listener: nothing while closed; when open, Escape closes and
     * the arrows step with the same wrap as the buttons.
     */
    method KeyDown(key: string)
      requires Valid()
      modifies this
      ensures Valid()
      ensures !old(isOpen) ==> !isOpen && currentIndex == old(currentIndex)
      ensures old(isOpen) ==> (isOpen <==> key != "Escape")
      ensures old(isOpen) && key == "ArrowRight" ==> currentIndex == WrapNext(old(currentIndex), |gallery|)
      ensures old(isOpen) && key == "ArrowLeft" ==> currentIndex == WrapPrev(old(currentIndex), |gallery|)
      ensures key != "ArrowRight" && key != "ArrowLeft" ==> currentIndex == old(currentIndex)
    {
      if !isOpen {
        return;
      }
      if key == "Escape" {
        isOpen := false;
      }
      if key == "ArrowRight" {
        currentIndex := if currentIndex == |gallery| - 1 then 0 else currentIndex + 1;
      }
      if key == "ArrowLeft" {
        currentIndex := if currentIndex == 0 then |gallery| - 1 else currentIndex - 1;
      }
    }

    /**
     * A click while the view is open. The backdrop closes it; the close button
     * closes it and the click bubbles on to the backdrop, which closes it again;
     * the arrows stop the click and step; a click on the picture is stopped.
     */
    method Click(target: GalleryLightbox.ClickTarget)
      requires Valid() && isOpen
      modifies this
      ensures Valid()
      ensures isOpen <==> target != GalleryLightbox.Backdrop && target != GalleryLightbox.CloseButton
      ensures target == GalleryLightbox.NextButton ==> currentIndex == WrapNext(old(currentIndex), |gallery|)
      ensures target == GalleryLightbox.PrevButton ==> currentIndex == WrapPrev(old(currentIndex), |gallery|)
      ensures target != GalleryLightbox.NextButton && target != GalleryLightbox.PrevButton ==>
        currentIndex == old(currentIndex)
    {
      match target
      case Backdrop =>
        Close();
      case CloseButton =>
        Close();
        Close();
      case PrevButton =>
        HandlePrev();
      case NextButton =>
        HandleNext();
      case Media =>
    }

    /** `{currentIndex + 1} / {gallery.length}`, shown while open. */
    function Counter(): (c: (int, int))
      requires Valid() && isOpen
      reads this
      ensures 1 <= c.0 <= c.1 && c.1 == |gallery| && c.0 - 1 == currentIndex
    {
      (currentIndex + 1, |gallery|)
    }
  }

  /**
   * The service gallery steps exactly as the home-page lightbox does, although
   * one writes the wrap with a comparison and the other with a remainder.
   */
  method StepsLikeLightbox(g: Gallery)
    requires g.Valid() && g.isOpen
    modifies g
    ensures g.currentIndex == Next(old(g.currentIndex), |g.gallery|)
  {
    WrapAgreesWithModulo(g.currentIndex, |g.gallery|);
    g.HandleNext();
  }

  /** Pressing the next button once per picture comes back to the picture shown first. */
  method RoundTripOfAllPictures(g: Gallery)
    requires g.Valid() && g.isOpen
    modifies g
    ensures g.Valid() && g.isOpen && g.currentIndex == old(g.currentIndex)
  {
    var start, n := g.currentIndex, |g.gallery|;
    var k := 0;
    while k < n
      invariant 0 <= k <= n
      invariant g.Valid() && g.isOpen
      invariant g.currentIndex == NextTimes(start, n, k)
    {
      WrapAgreesWithModulo(g.currentIndex, n);
      g.HandleNext();
      k := k + 1;
    }
    FullCycleReturns(start, n);
  }
}
