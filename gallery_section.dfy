/**
 * The home-page gallery section: the placeholder for an empty gallery, the
 * desktop masonry pattern of the grid, and the section's own cursor and open
 * flag, which mount a lightbox started at the clicked entry and unmount it
 * on close.
 */
module GallerySection {
  import opened Wrappers
  import opened GalleryLightbox
  import opened Cursor

  const Hero: string := "md:col-span-2 md:row-span-2"
  const Single: string := "md:col-span-1 md:row-span-1"
  const Tall: string := "md:col-span-1 md:row-span-2"
  const Wide: string := "md:col-span-2 md:row-span-1"

  /** The desktop masonry pattern, repeated every eight entries. */
  const Pattern: seq<string> := [Hero, Single, Tall, Single, Wide, Single, Tall, Single]

  /**
   * `getGridClasses(index)` on a desktop: `pattern[index % pattern.length]`;
   * the `|| 'md:col-span-1 md:row-span-1'` fallback never applies, since no
   * entry of the pattern is empty.
   */
  function GridClass(index: nat): (c: string)
    ensures c in Pattern && c != ""
  {
    Pattern[index % |Pattern|]
  }

  /** The layout repeats with period eight. */
  lemma GridIsPeriodic(index: nat)
    ensures GridClass(index + 8) == GridClass(index)
  {
    Cursor.ModUnique(index + 8, 8, index / 8 + 1, index % 8);
  }

  /**
   * Entry `8 * k + j` gets the `j`-th tile of the pattern: every eighth entry,
   * starting with the first, is the two-by-two hero tile, the entries after
   * it are single, tall, single, wide, single, tall and single.
   */
  lemma GridClassByPosition(k: nat, j: nat)
    requires j < |Pattern|
    ensures GridClass(8 * k + j) == Pattern[j]
    ensures j == 0 ==> GridClass(8 * k) == Hero
  {
    Cursor.ModUnique(8 * k + j, 8, k, j);
  }

  class Section {
    const items: seq<GalleryItem>
    var lightboxOpen: bool
    var currentIndex: int
    /** The mounted lightbox, present exactly while `lightboxOpen`. */
    var lightbox: Lightbox?

    predicate Valid()
      reads this, lightbox
    {
      && 0 <= currentIndex
      && (|items| > 0 ==> currentIndex < |items|)
      && (lightboxOpen <==> lightbox != null)
      && (lightbox != null ==> lightbox.items == items && lightbox.Valid())
      && (|items| == 0 ==> !lightboxOpen)
    }

    constructor (items: seq<GalleryItem>)
      ensures this.items == items && !lightboxOpen && currentIndex == 0 && Valid()
    {
      this.items := items;
      lightboxOpen := false;
      currentIndex := 0;
      lightbox := null;
    }

    /** "Gallery coming soon..." replaces the grid when there is no entry. */
    predicate ShowsPlaceholder()
      reads this
    {
      |items| == 0
    }

    /**
     * `openLightbox(index)`, a click on grid entry `index`. The grid is covered
     * while the lightbox is open, so it is closed here; the lightbox mounts with
     * the clicked entry as its initial index.
     */
    method OpenLightbox(index: int)
      requires Valid() && !lightboxOpen && 0 <= index < |items|
      modifies this
      ensures Valid() && lightboxOpen && currentIndex == index
      ensures fresh(lightbox) && lightbox.currentIndex == index
    {
      currentIndex := index;
      lightboxOpen := true;
      lightbox := new Lightbox(items, index);
    }

    /** `onClose`: only the open flag changes; the section's cursor is kept. */
    method Close()
      requires Valid()
      modifies this
      ensures Valid() && !lightboxOpen && lightbox == null
      ensures currentIndex == old(currentIndex)
    {
      lightboxOpen := false;
      lightbox := null;
    }

    /**
     * A key press while the lightbox is mounted: the lightbox handles it, and
     * Escape makes it call `onClose`. The section's cursor never moves.
     */
    method KeyDown(key: string)
      requires Valid() && lightboxOpen
      modifies this, lightbox
      ensures Valid() && currentIndex == old(currentIndex)
      ensures lightboxOpen <==> key != "Escape"
      ensures key != "Escape" ==> lightbox == old(lightbox)
      ensures key == "ArrowRight" ==> lightbox.currentIndex == Next(old(lightbox.currentIndex), |items|)
      ensures key == "ArrowLeft" ==> lightbox.currentIndex == Prev(old(lightbox.currentIndex), |items|)
      ensures key != "Escape" && key != "ArrowRight" && key != "ArrowLeft" ==>
        lightbox.currentIndex == old(lightbox.currentIndex)
    {
      var close := lightbox.KeyDown(key);
      if close {
        Close();
      }
    }

    /**
     * A click inside the mounted lightbox. The close button triggers `onClose`
     * twice (its own handler, then the backdrop's); the second call finds the
     * lightbox closed already and changes nothing.
     */
    method ClickInLightbox(target: ClickTarget)
      requires Valid() && lightboxOpen
      requires target == PrevButton || target == NextButton ==> lightbox.ShowsArrows()
      modifies this, lightbox
      ensures Valid() && currentIndex == old(currentIndex)
      ensures lightboxOpen <==> target != Backdrop && target != CloseButton
      ensures lightboxOpen ==> lightbox == old(lightbox)
      ensures target == NextButton ==> lightbox.currentIndex == Next(old(lightbox.currentIndex), |items|)
      ensures target == PrevButton ==> lightbox.currentIndex == Prev(old(lightbox.currentIndex), |items|)
      ensures target == Media ==> lightbox.currentIndex == old(lightbox.currentIndex)
    {
      var calls := lightbox.Click(target);
      if calls >= 1 {
        Close();
      }
      if calls >= 2 {
        Close();
      }
    }
  }

  /**
   * A key other than Escape keeps the same lightbox mounted and steps its
   * cursor with the arrows; the section's own cursor never moves.
   */
  method BrowseInsideLightbox(s: Section, key: string)
    requires s.Valid() && s.lightboxOpen && key != "Escape"
    modifies s, s.lightbox
    ensures s.Valid() && s.lightboxOpen && s.currentIndex == old(s.currentIndex)
    ensures s.lightbox == old(s.lightbox)
    ensures key == "ArrowRight" ==> s.lightbox.currentIndex == Next(old(s.lightbox.currentIndex), |s.items|)
    ensures key == "ArrowLeft" ==> s.lightbox.currentIndex == Prev(old(s.lightbox.currentIndex), |s.items|)
    ensures key != "ArrowRight" && key != "ArrowLeft" ==> s.lightbox.currentIndex == old(s.lightbox.currentIndex)
  {
    s.KeyDown(key);
  }

  /** Opening, closing and reopening starts the lightbox at the entry clicked last. */
  method ReopenStartsAtClick(s: Section, first: int, second: int)
    requires s.Valid() && !s.lightboxOpen && 0 <= first < |s.items| && 0 <= second < |s.items|
    modifies s
    ensures s.Valid() && s.lightboxOpen && s.lightbox.currentIndex == second
  {
    s.OpenLightbox(first);
    s.Close();
    s.OpenLightbox(second);
  }

  /** An empty gallery never has an open lightbox. */
  lemma EmptyGalleryNeverOpens(s: Section)
    requires s.Valid() && s.ShowsPlaceholder()
    ensures !s.lightboxOpen && s.lightbox == null
  {
  }
}
