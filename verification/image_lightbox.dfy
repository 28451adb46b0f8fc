/** The full-screen image viewer: a current image that moves with
    wrap-around, a zoom flag that every move resets, and keyboard control
    while it is open. */
module ImageLightbox {
  import Testimonials

  datatype Lightbox = Lightbox(currentIndex: int, isZoomed: bool, isOpen: bool)

  /** The first render: `useState(initialIndex)` and `useState(false)`.
      `isOpen` is the host's prop; the product dialog mounts the lightbox
      closed, on image 0. */
  function Mount(initialIndex: int, isOpen: bool): (r: Lightbox)
    ensures r.currentIndex == initialIndex && !r.isZoomed && r.isOpen == isOpen
  {
    Lightbox(initialIndex, false, isOpen)
  }

  /** The host changing the `isOpen` prop. The component stays mounted, so
      its index and zoom are kept. */
  function SetOpen(b: Lightbox, isOpen: bool): (r: Lightbox)
    ensures r.isOpen == isOpen && r.currentIndex == b.currentIndex && r.isZoomed == b.isZoomed
  {
    b.(isOpen := isOpen)
  }

  /** The effect on `[initialIndex]`: it runs only when the prop changes
      from `previous`, and then moves to the new index, keeping the zoom. */
  function InitialIndexEffect(b: Lightbox, previous: int, initialIndex: int): (r: Lightbox)
    ensures initialIndex == previous ==> r == b
    ensures initialIndex != previous ==> r.currentIndex == initialIndex
    ensures r.isZoomed == b.isZoomed && r.isOpen == b.isOpen
  {
    if initialIndex == previous then b else b.(currentIndex := initialIndex)
  }

  /** The dialog's `openLightbox(k)`: it sets its `lightboxIndex` (the
      lightbox's `initialIndex`, last `previous`) to `k` and opens the
      lightbox. The zoom is kept, and so is the index unless `k` differs
      from the last one. */
  function OpenFromDialog(b: Lightbox, previous: int, k: int): (r: Lightbox)
    ensures r.isOpen && r.isZoomed == b.isZoomed
    ensures r.currentIndex == if k == previous then b.currentIndex else k
  {
    SetOpen(InitialIndexEffect(b, previous, k), true)
  }

  /** Opening as evidently intended: on image `k`, not zoomed, whatever was
      shown before. */
  function OpenFresh(b: Lightbox, k: int): (r: Lightbox)
    ensures r.isOpen && !r.isZoomed && r.currentIndex == k
  {
    b.(currentIndex := k, isZoomed := false, isOpen := true)
  }

  predicate InRange(b: Lightbox, count: nat) {
    0 <= b.currentIndex < count
  }

  /** `goToPrevious`: the first image goes to the last, any other to the
      one before it; zoom resets. */
  function GoToPrevious(b: Lightbox, count: nat): (r: Lightbox)
    ensures !r.isZoomed && r.isOpen == b.isOpen
    ensures b.currentIndex == 0 ==> r.currentIndex == count - 1
    ensures b.currentIndex != 0 ==> r.currentIndex == b.currentIndex - 1
    ensures count > 0 && InRange(b, count) ==> InRange(r, count)
  {
    b.(currentIndex := if b.currentIndex == 0 then count - 1 else b.currentIndex - 1, isZoomed := false)
  }

  /** `goToNext`: the last image goes to the first, any other to the one
      after it; zoom resets. */
  function GoToNext(b: Lightbox, count: nat): (r: Lightbox)
    ensures !r.isZoomed && r.isOpen == b.isOpen
    ensures b.currentIndex == count - 1 ==> r.currentIndex == 0
    ensures b.currentIndex != count - 1 ==> r.currentIndex == b.currentIndex + 1
    ensures count > 0 && InRange(b, count) ==> InRange(r, count)
  {
    b.(currentIndex := if b.currentIndex == count - 1 then 0 else b.currentIndex + 1, isZoomed := false)
  }

  /** A thumbnail click: exactly image `k`, zoom reset. */
  function SelectThumbnail(b: Lightbox, k: int): (r: Lightbox)
    ensures r.currentIndex == k && !r.isZoomed && r.isOpen == b.isOpen
  {
    b.(currentIndex := k, isZoomed := false)
  }

  /** `toggleZoom`. */
  function ToggleZoom(b: Lightbox): (r: Lightbox)
    ensures r.isZoomed == !b.isZoomed
    ensures r.currentIndex == b.currentIndex && r.isOpen == b.isOpen
  {
    b.(isZoomed := !b.isZoomed)
  }

  datatype Key = Escape | ArrowLeft | ArrowRight | OtherKey(name: string)

  /** The keydown handler: nothing while closed; when open, Escape closes
      and the arrows move. */
  function KeyDown(b: Lightbox, count: nat, key: Key): (r: Lightbox)
    ensures !b.isOpen ==> r == b
    ensures b.isOpen && key == Escape ==> !r.isOpen && r.currentIndex == b.currentIndex
    ensures b.isOpen && key == ArrowLeft ==> r == GoToPrevious(b, count)
    ensures b.isOpen && key == ArrowRight ==> r == GoToNext(b, count)
    ensures b.isOpen && key.OtherKey? ==> r == b
  {
    if !b.isOpen then b
    else
      match key
      case Escape => b.(isOpen := false)
      case ArrowLeft => GoToPrevious(b, count)
      case ArrowRight => GoToNext(b, count)
      case OtherKey(_) => b
  }

  /** Previous undoes next and next undoes previous, on the image index. */
  lemma PreviousUndoesNext(b: Lightbox, count: nat)
    requires count > 0 && InRange(b, count)
    ensures GoToPrevious(GoToNext(b, count), count).currentIndex == b.currentIndex
    ensures GoToNext(GoToPrevious(b, count), count).currentIndex == b.currentIndex
  {
  }

  /** The lightbox's comparisons move exactly like the carousel's modular
      arithmetic. */
  lemma AgreesWithModular(b: Lightbox, count: nat)
    requires count > 0 && InRange(b, count)
    ensures GoToNext(b, count).currentIndex == Testimonials.Succ(b.currentIndex, count)
    ensures GoToPrevious(b, count).currentIndex == Testimonials.Pred(b.currentIndex, count)
  {
  }

  /** Keys keep the index in range for a non-empty gallery. */
  lemma {:induction false} KeysStayInRange(b: Lightbox, count: nat, keys: seq<Key>)
    requires count > 0 && InRange(b, count)
    ensures InRange(Keys(b, count, keys), count)
    decreases |keys|
  {
    if keys != [] {
      KeysStayInRange(KeyDown(b, count, keys[0]), count, keys[1..]);
    }
  }

  /** A sequence of key presses. */
  function Keys(b: Lightbox, count: nat, keys: seq<Key>): (r: Lightbox)
    ensures !b.isOpen ==> r == b
    decreases |keys|
  {
    if keys == [] then b else Keys(KeyDown(b, count, keys[0]), count, keys[1..])
  }

  /** Reopening at the index the dialog passed last time shows whatever
      was shown when the lightbox closed, zoom included. */
  lemma ReopenKeepsView(b: Lightbox, k: int)
    ensures OpenFromDialog(b, k, k) == b.(isOpen := true)
  {
  }

  /** The dialog always passes 0. View the second of three images, zoom
      in, press Escape and click the main image again: the lightbox
      reopens on the second image, still zoomed. */
  lemma ReopenShowsLastImageZoomed()
    ensures var b0 := Mount(0, false);
      var b1 := OpenFromDialog(b0, 0, 0);
      var b2 := ToggleZoom(KeyDown(b1, 3, ArrowRight));
      var b3 := OpenFromDialog(KeyDown(b2, 3, Escape), 0, 0);
      b3.isOpen && b3.isZoomed && b3.currentIndex == 1
  {
  }

  /** Switching the dialog to a product with fewer images keeps the
      lightbox's index, which can then lie outside the new gallery; from
      there the right arrow moves further out. */
  lemma SmallerGalleryLeavesRange()
    ensures var b := OpenFromDialog(Lightbox(2, false, false), 0, 0);
      && InRange(b, 3) && !InRange(b, 2)
      && KeyDown(b, 2, ArrowRight).currentIndex == 3
  {
  }

  /** Opening as intended keeps every later key sequence in range for any
      non-empty gallery, however stale the previous state. */
  lemma OpenFreshStaysInRange(b: Lightbox, count: nat, k: int, keys: seq<Key>)
    requires 0 <= k < count
    ensures InRange(Keys(OpenFresh(b, k), count, keys), count)
  {
    KeysStayInRange(OpenFresh(b, k), count, keys);
  }
}
