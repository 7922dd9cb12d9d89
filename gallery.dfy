/**
 The gallery modal of the tribute page (`galleryManager` in js/main.js).

 The manager keeps `currentImageIndex` into the fixed list of gallery images.
 Clicking a thumbnail or the prev/next buttons opens the modal on an image,
 and the two navigation buttons are disabled at the ends of the list.
 The DOM is reduced to what the controller reads and writes: the image list,
 whether the modal and the two buttons exist, and the fields it sets.
 */
module Gallery {

  /** An `<img>` of the gallery; `src` is "" when the element has no source. */
  datatype Image = Image(src: string, alt: string)

  /** What `showModal` is called with. */
  datatype Clicked =
    | NoImage                 // null or undefined (also `images[k]` out of range)
    | Listed(pos: nat)        // the element at position `pos` of the gallery list
    | Unlisted(image: Image)  // an element that is not in the list (`indexOf` gives -1)

  /** The part of the page the manager depends on; fixed once `init` has run. */
  datatype Page = Page(images: seq<Image>, modalReady: bool, hasPrev: bool, hasNext: bool)

  /** What the manager controls: its index, the modal and the buttons' disabled flags. */
  datatype View = View(
    index: int,
    open: bool,
    src: string,
    alt: string,
    prevDisabled: bool,
    nextDisabled: bool)

  /** The alt text used when the image has none. */
  const DefaultAlt: string := "Imagem da galeria"

  predicate WellFormed(p: Page, c: Clicked)
  {
    c.Listed? ==> c.pos < |p.images|
  }

  function ImageOf(p: Page, c: Clicked): Image
    requires WellFormed(p, c) && !c.NoImage?
  {
    if c.Listed? then p.images[c.pos] else c.image
  }

  /** `Array.from(images).indexOf(image)`. */
  function PositionOf(c: Clicked): (r: int)
    ensures r >= 0 <==> c.Listed?
    ensures c.Listed? ==> r == c.pos
    ensures !c.Listed? ==> r == -1
  {
    if c.Listed? then c.pos else -1
  }

  function AltFor(img: Image): string
  {
    if img.alt == "" then DefaultAlt else img.alt
  }

  /** The prev button is disabled exactly at the first image. */
  predicate PrevDisabled(index: int)
  {
    index == 0
  }

  /** The next button is disabled exactly at the last image. */
  predicate NextDisabled(index: int, count: nat)
  {
    index == count - 1
  }

  /** The argument `images[k]` evaluates to: out of range reads `undefined`. */
  function ImageAt(p: Page, k: int): (c: Clicked)
    ensures WellFormed(p, c)
    ensures c.Listed? <==> 0 <= k < |p.images|
    ensures c.Listed? ==> c.pos == k
    ensures !(0 <= k < |p.images|) ==> c.NoImage?
  {
    if 0 <= k < |p.images| then Listed(k) else NoImage
  }

  /** Whether `showModal` gets past its guards. */
  predicate Accepts(p: Page, c: Clicked)
    requires WellFormed(p, c)
  {
    p.modalReady && !c.NoImage? && ImageOf(p, c).src != ""
  }

  /** `updateNavigationButtons`: a missing button keeps its flag. */
  function WithButtons(p: Page, v: View): View
  {
    v.(prevDisabled := if p.hasPrev then PrevDisabled(v.index) else v.prevDisabled,
       nextDisabled := if p.hasNext then NextDisabled(v.index, |p.images|) else v.nextDisabled)
  }

  /** `showModal(image)` as a function of the view before the call. */
  function ShowResult(p: Page, v: View, c: Clicked): View
    requires WellFormed(p, c)
  {
    if !Accepts(p, c) then v
    else
      var img := ImageOf(p, c);
      WithButtons(p, View(PositionOf(c), true, img.src, AltFor(img), v.prevDisabled, v.nextDisabled))
  }

  /** The prev button's click handler. */
  function PrevResult(p: Page, v: View): View
  {
    if v.index > 0 then ShowResult(p, v, ImageAt(p, v.index - 1)) else v
  }

  /** The next button's click handler. */
  function NextResult(p: Page, v: View): View
  {
    if v.index < |p.images| - 1 then ShowResult(p, v, ImageAt(p, v.index + 1)) else v
  }

  /** The close button, or a click on the modal's backdrop. */
  function CloseResult(v: View): View
  {
    v.(open := false)
  }

  /** Both buttons agree with the index (for the buttons that exist). */
  predicate Synced(p: Page, v: View)
  {
    && (p.hasPrev ==> v.prevDisabled == PrevDisabled(v.index))
    && (p.hasNext ==> v.nextDisabled == NextDisabled(v.index, |p.images|))
  }

  /** The modal shows image `index` of the list, with synced buttons. */
  predicate Displays(p: Page, v: View)
  {
    && 0 <= v.index < |p.images|
    && v.open
    && v.src == p.images[v.index].src != ""
    && v.alt == AltFor(p.images[v.index])
    && Synced(p, v)
  }

  /** A missing modal, a missing image or an image without `src` leaves everything as it was. */
  lemma ShowRefused(p: Page, v: View, c: Clicked)
    requires WellFormed(p, c)
    requires !p.modalReady || c.NoImage? || ImageOf(p, c).src == ""
    ensures ShowResult(p, v, c) == v
  {
  }

  /** An accepted image becomes the current one: its position, its source, synced buttons. */
  lemma ShowAccepted(p: Page, v: View, c: Clicked)
    requires WellFormed(p, c) && Accepts(p, c)
    ensures ShowResult(p, v, c).index == PositionOf(c)
    ensures ShowResult(p, v, c).open
    ensures ShowResult(p, v, c).src == ImageOf(p, c).src != ""
    ensures Synced(p, ShowResult(p, v, c))
    ensures c.Listed? ==> Displays(p, ShowResult(p, v, c))
  {
  }

  /** Prev moves the index down by exactly one, and only when the image before it can be shown. */
  lemma PrevStep(p: Page, v: View)
    requires 0 <= v.index < |p.images|
    ensures var w := PrevResult(p, v);
      && (w.index == v.index - 1 || w == v)
      && (w.index == v.index - 1 <==> v.index > 0 && Accepts(p, Listed(v.index - 1)))
      && 0 <= w.index < |p.images|
  {
  }

  /** Next moves the index up by exactly one, and only when the image after it can be shown. */
  lemma NextStep(p: Page, v: View)
    requires 0 <= v.index < |p.images|
    ensures var w := NextResult(p, v);
      && (w.index == v.index + 1 || w == v)
      && (w.index == v.index + 1 <==> v.index < |p.images| - 1 && Accepts(p, Listed(v.index + 1)))
      && 0 <= w.index < |p.images|
  {
  }

  /** At the ends the click does nothing at all. */
  lemma NothingPastTheEnds(p: Page, v: View)
    ensures v.index <= 0 ==> PrevResult(p, v) == v
    ensures v.index >= |p.images| - 1 ==> NextResult(p, v) == v
  {
  }

  /** Once the buttons agree with the index, every handler keeps them so. */
  lemma HandlersKeepSynced(p: Page, v: View, c: Clicked)
    requires WellFormed(p, c) && Synced(p, v)
    ensures Synced(p, ShowResult(p, v, c))
    ensures Synced(p, PrevResult(p, v))
    ensures Synced(p, NextResult(p, v))
    ensures Synced(p, CloseResult(v))
  {
  }

  /** With a single image both buttons end up disabled once it is shown. */
  lemma SingleImageDisablesBoth(p: Page, v: View)
    requires |p.images| == 1 && p.hasPrev && p.hasNext
    requires Accepts(p, Listed(0))
    ensures ShowResult(p, v, Listed(0)).prevDisabled
    ensures ShowResult(p, v, Listed(0)).nextDisabled
  {
  }

  /** Next then prev brings back exactly the view the user started from. */
  lemma NextThenPrev(p: Page, v: View)
    requires Displays(p, v)
    requires NextResult(p, v).index == v.index + 1
    ensures PrevResult(p, NextResult(p, v)) == v
  {
  }

  /** Prev then next brings back exactly the view the user started from. */
  lemma PrevThenNext(p: Page, v: View)
    requires Displays(p, v)
    requires PrevResult(p, v).index == v.index - 1
    ensures NextResult(p, PrevResult(p, v)) == v
  {
  }

  /** The gallery controller, with the fields its handlers update in place. */
  class GalleryManager {
    const page: Page
    var currentImageIndex: int
    var modalOpen: bool
    var modalSrc: string
    var modalAlt: string
    var prevDisabled: bool
    var nextDisabled: bool

    function Current(): View
      reads this
    {
      View(currentImageIndex, modalOpen, modalSrc, modalAlt, prevDisabled, nextDisabled)
    }

    /** `init`: collects the images; the index starts at 0, the modal closed, both buttons enabled. */
    constructor (p: Page)
      ensures page == p
      ensures Current() == View(0, false, "", "", false, false)
    {
      page := p;
      currentImageIndex := 0;
      modalOpen := false;
      modalSrc := "";
      modalAlt := "";
      prevDisabled := false;
      nextDisabled := false;
    }

    method UpdateNavigationButtons()
      modifies this
      ensures Current() == WithButtons(page, old(Current()))
    {
      if page.hasPrev {
        prevDisabled := currentImageIndex == 0;
      }
      if page.hasNext {
        nextDisabled := currentImageIndex == |page.images| - 1;
      }
    }

    method ShowModal(image: Clicked)
      requires WellFormed(page, image)
      modifies this
      ensures Current() == ShowResult(page, old(Current()), image)
    {
      if !page.modalReady || image.NoImage? {
        return;
      }
      var img := if image.Listed? then page.images[image.pos] else image.image;
      if img.src == "" {
        return;
      }
      modalOpen := true;
      modalSrc := img.src;
      modalAlt := if img.alt == "" then DefaultAlt else img.alt;
      currentImageIndex := if image.Listed? then image.pos else -1;
      UpdateNavigationButtons();
    }

    method PrevClicked()
      modifies this
      ensures Current() == PrevResult(page, old(Current()))
    {
      if currentImageIndex > 0 {
        ShowModal(ImageAt(page, currentImageIndex - 1));
      }
    }

    method NextClicked()
      modifies this
      ensures Current() == NextResult(page, old(Current()))
    {
      if currentImageIndex < |page.images| - 1 {
        ShowModal(ImageAt(page, currentImageIndex + 1));
      }
    }

    method CloseModal()
      modifies this
      ensures Current() == CloseResult(old(Current()))
    {
      modalOpen := false;
    }
  }
}
