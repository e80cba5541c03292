/**
 * The full-screen lightbox of the home-page gallery: a cursor started at the
 * entry that was clicked, stepped around the circle by the arrow buttons and
 * the arrow keys, a close request for Escape and for clicks on the backdrop
 * or the close button, and the "i / n" counter.
 */
module GalleryLightbox {
  import opened Wrappers
  import opened Cursor

  /** A gallery entry as the lightbox reads it. */
  datatype GalleryItem = GalleryItem(
    id: string,
    mediaType: string,
    image: Option<string>,
    video: Option<string>,
    description: Option<string>,
    category: Option<string>)

  /** Where a click lands inside the lightbox. */
  datatype ClickTarget = Backdrop | CloseButton | PrevButton | NextButton | Media

  class Lightbox {
    const items: seq<GalleryItem>
    var currentIndex: int

    /** `items[currentIndex]` is dereferenced on every render, so the cursor is on an entry. */
    predicate Valid()
      reads this
    {
      0 <= currentIndex < |items|
    }

    /** `useState(initialIndex)` */
    constructor (items: seq<GalleryItem>, initialIndex: int)
      requires 0 <= initialIndex < |items|
      ensures this.items == items && currentIndex == initialIndex && Valid()
    {
      this.items := items;
      currentIndex := initialIndex;
    }

    /** The arrow buttons show only with more than one entry. */
    predicate ShowsArrows()
      reads this
    {
      |items| > 1
    }

    /** `handleNext` */
    method HandleNext()
      requires Valid()
      modifies this
      ensures Valid() && currentIndex == Next(old(currentIndex), |items|)
    {
      currentIndex := Next(currentIndex, |items|);
    }

    /** `handlePrev` */
    method HandlePrev()
      requires Valid()
      modifies this
      ensures Valid() && currentIndex == Prev(old(currentIndex), |items|)
    {
      currentIndex := Prev(currentIndex, |items|);
    }

    /**
     * The keydown listener: Escape asks the owner to close (`onClose`), the
     * right and left arrows step the cursor, every other key does nothing.
     */
    method KeyDown(key: string) returns (close: bool)
      requires Valid()
      modifies this
      ensures Valid()
      ensures close <==> key == "Escape"
      ensures key == "ArrowRight" ==> currentIndex == Next(old(currentIndex), |items|)
      ensures key == "ArrowLeft" ==> currentIndex == Prev(old(currentIndex), |items|)
      ensures key != "ArrowRight" && key != "ArrowLeft" ==> currentIndex == old(currentIndex)
    {
      close := key == "Escape";
      if key == "ArrowRight" {
        HandleNext();
      }
      if key == "ArrowLeft" {
        HandlePrev();
      }
    }

    /**
     * A click: the backdrop calls `onClose`; the close button calls it and the
     * click bubbles on to the backdrop, which calls it again; the arrows stop
     * the click and step; a click on the media is stopped. The result is how
     * many times `onClose` runs.
     */
    method Click(target: ClickTarget) returns (closeCalls: nat)
      requires Valid()
      requires target == PrevButton || target == NextButton ==> ShowsArrows()
      modifies this
      ensures Valid()
      ensures closeCalls == match target
        case Backdrop => 1
        case CloseButton => 2
        case _ => 0
      ensures target == NextButton ==> currentIndex == Next(old(currentIndex), |items|)
      ensures target == PrevButton ==> currentIndex == Prev(old(currentIndex), |items|)
      ensures target != NextButton && target != PrevButton ==> currentIndex == old(currentIndex)
    {
      match target
      case Backdrop =>
        closeCalls := 1;
      case CloseButton =>
        closeCalls := 2;
      case PrevButton =>
        HandlePrev();
        closeCalls := 0;
      case NextButton =>
        HandleNext();
        closeCalls := 0;
      case Media =>
        closeCalls := 0;
    }

    /** `{currentIndex + 1} / {items.length}` */
    function Counter(): (c: (int, int))
      requires Valid()
      reads this
      ensures 1 <= c.0 <= c.1 && c.1 == |items|
      ensures c.0 - 1 == currentIndex
    {
      (currentIndex + 1, |items|)
    }

    /** The entry on screen. */
    function CurrentItem(): (item: GalleryItem)
      requires Valid()
      reads this
      ensures item in items
    {
      items[currentIndex]
    }
  }

  /** The right arrow then the left arrow bring the lightbox back to the same entry. */
  method RightThenLeftRestores(b: Lightbox)
    requires b.Valid()
    modifies b
    ensures b.currentIndex == old(b.currentIndex)
  {
    var c1 := b.KeyDown("ArrowRight");
    var c2 := b.KeyDown("ArrowLeft");
    NextPrevInverse(old(b.currentIndex), |b.items|);
  }

  /** With a single entry the arrow keys stay on it. */
  method SingleEntryStays(b: Lightbox)
    requires b.Valid() && |b.items| == 1
    modifies b
    ensures b.currentIndex == 0
  {
    var c := b.KeyDown("ArrowRight");
    c := b.KeyDown("ArrowLeft");
    SingleItemStays();
  }
}
