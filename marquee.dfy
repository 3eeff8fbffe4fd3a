/** The standalone gallery page: rows of images that scroll endlessly
    (three copies of a row's images side by side), pause under the mouse,
    and open one image in an overlay when clicked. */
module Marquee {
  import opened Options
  import opened Text

  datatype GalleryImage = GalleryImage(id: string, src: string, alt: string, category: string)

  /** A row of the gallery data; its direction is "left" or "right". */
  datatype GalleryRow = GalleryRow(id: string, direction: string, images: seq<GalleryImage>)

  /** `duplicatedImages`: the row's images three times over. */
  function Tripled(images: seq<GalleryImage>): seq<GalleryImage> {
    images + images + images
  }

  /** The tile list is three times as long as the row and holds the row
      in order in each of its three thirds. */
  lemma TripledAt(images: seq<GalleryImage>)
    ensures |Tripled(images)| == 3 * |images|
    ensures forall k :: 0 <= k < |images| ==>
      && Tripled(images)[k] == images[k]
      && Tripled(images)[|images| + k] == images[k]
      && Tripled(images)[2 * |images| + k] == images[k]
  {
  }

  /** The React key of tile `index`: `${image.id}-${index}`. */
  function TileKey(id: string, index: nat): string {
    id + "-" + DecimalString(index)
  }

  /** A key ends in its index: the digits after the last '-' are the
      index's (digits hold no '-'), so two keys with different indices
      differ whatever the ids. */
  lemma {:induction false} TileKeyDeterminesIndex(a: string, m: nat, b: string, n: nat)
    requires TileKey(a, m) == TileKey(b, n)
    ensures m == n
  {
    var s, t := DecimalString(m), DecimalString(n);
    var x := TileKey(a, m);
    assert x == a + "-" + s && x == b + "-" + t;
    LastIndexOfAfterSeparator(a, '-', s);
    LastIndexOfAfterSeparator(b, '-', t);
    assert s == x[|a| + 1..] == t;
    DecimalStringInjective(m, n);
  }

  /** The tile keys of a row are pairwise distinct. */
  lemma TileKeysDistinct(images: seq<GalleryImage>, i: nat, j: nat)
    requires i < j < |Tripled(images)|
    ensures TileKey(Tripled(images)[i].id, i) != TileKey(Tripled(images)[j].id, j)
  {
    if TileKey(Tripled(images)[i].id, i) == TileKey(Tripled(images)[j].id, j) {
      TileKeyDeterminesIndex(Tripled(images)[i].id, i, Tripled(images)[j].id, j);
    }
  }

  /** Horizontal offsets the row is animated between: 0 and one third of the
      strip to the left ("-33.333%"). */
  datatype Offset = Zero | MinusOneThird

  /** The `x` target: a single value, or keyframes from one offset to another. */
  datatype XTarget = At(offset: Offset) | Keyframes(from: Offset, to: Offset)

  /** `repeat: 0` or `repeat: Infinity`. */
  datatype Repeat = NoRepeat | Forever

  /** The row's `animate` and `transition` settings (the easing is always
      linear). */
  datatype Animation = Animation(x: XTarget, duration: nat, repeat: Repeat)

  function AnimationFor(direction: string, isPaused: bool): Animation {
    if isPaused then Animation(At(Zero), 0, NoRepeat)
    else if direction == "left" then Animation(Keyframes(MinusOneThird, Zero), 30, Forever)
    else Animation(Keyframes(Zero, MinusOneThird), 30, Forever)
  }

  /** A running row loops for 30 seconds per cycle over one third of the
      strip; "left" and "right" rows run the same cycle in opposite
      directions. A paused row is sent to offset 0 at once, whatever its
      direction: it does not hold the offset it had. */
  lemma AnimationChoice(direction: string, isPaused: bool)
    ensures !isPaused ==>
      && AnimationFor(direction, false).duration == 30
      && AnimationFor(direction, false).repeat == Forever
      && AnimationFor(direction, false).x.Keyframes?
      && {AnimationFor(direction, false).x.from, AnimationFor(direction, false).x.to} == {Zero, MinusOneThird}
    ensures direction != "left" ==>
      AnimationFor(direction, false).x == Keyframes(AnimationFor("left", false).x.to, AnimationFor("left", false).x.from)
    ensures AnimationFor("left", false).x.to == Zero
    ensures isPaused ==> AnimationFor(direction, true) == Animation(At(Zero), 0, NoRepeat)
    ensures isPaused ==> AnimationFor(direction, true) == AnimationFor("left", true)
  {
  }

  /** The elements a click in the overlay can land on, innermost first:
      the close button sits in the panel, the panel on the backdrop. */
  datatype Layer = CloseButton | Panel | Backdrop

  /** The layers a click on `target` bubbles through, innermost first. */
  function BubblePath(target: Layer): (path: seq<Layer>) {
    match target
    case CloseButton => [CloseButton, Panel, Backdrop]
    case Panel => [Panel, Backdrop]
    case Backdrop => [Backdrop]
  }

  /** The click handlers that run along `path`: the panel's handler stops
      propagation, so nothing beyond it is reached. */
  function Reached(path: seq<Layer>): (r: seq<Layer>)
    ensures |r| <= |path|
  {
    if path == [] then []
    else if path[0] == Panel then [Panel]
    else [path[0]] + Reached(path[1..])
  }

  /** The selection after the handlers along `reached` have run: the close
      button and the backdrop clear it, the panel leaves it alone. */
  function Dispatch(reached: seq<Layer>, selected: Option<GalleryImage>): Option<GalleryImage> {
    if reached == [] then selected
    else Dispatch(reached[1..], if reached[0] == Panel then selected else None)
  }

  /** The backdrop's handler runs only for a click on the backdrop itself;
      a click on the close button or the backdrop clears the selection, a
      click inside the panel keeps it. */
  lemma OverlayClickEffect(target: Layer, selected: Option<GalleryImage>)
    ensures Backdrop in Reached(BubblePath(target)) <==> target == Backdrop
    ensures Dispatch(Reached(BubblePath(target)), selected) ==
      if target == Panel then selected else None
  {
    match target
    case CloseButton =>
      assert [CloseButton, Panel, Backdrop][1..] == [Panel, Backdrop];
      assert Reached([Panel, Backdrop]) == [Panel];
      assert Reached(BubblePath(target)) == [CloseButton, Panel];
      assert [CloseButton, Panel][1..] == [Panel];
      assert Dispatch([CloseButton, Panel], selected) == Dispatch([Panel], None);
    case Panel =>
      assert Reached(BubblePath(target)) == [Panel];
    case Backdrop =>
      assert Reached(BubblePath(target)) == [Backdrop];
  }

  /** One row of the page: `isPaused` and `selectedImage`. */
  class MarqueeRow {
    const row: GalleryRow
    var isPaused: bool
    var selectedImage: Option<GalleryImage>

    constructor (row: GalleryRow)
      ensures this.row == row
      ensures !isPaused && selectedImage == None
    {
      this.row := row;
      isPaused, selectedImage := false, None;
    }

    function Tiles(): seq<GalleryImage> {
      Tripled(row.images)
    }

    function CurrentAnimation(): Animation
      reads this
    {
      AnimationFor(row.direction, isPaused)
    }

    /** The overlay is rendered exactly while an image is selected. */
    function OverlayShown(): bool
      reads this
    {
      selectedImage.Some?
    }

    method MouseEnter()
      modifies this
      ensures isPaused && selectedImage == old(selectedImage)
    {
      isPaused := true;
    }

    method MouseLeave()
      modifies this
      ensures !isPaused && selectedImage == old(selectedImage)
    {
      isPaused := false;
    }

    /** A click on tile `index`: its image replaces any earlier selection. */
    method TileClick(index: nat)
      requires index < |Tiles()|
      modifies this
      ensures selectedImage == Some(Tiles()[index])
      ensures OverlayShown()
      ensures isPaused == old(isPaused)
    {
      selectedImage := Some(Tiles()[index]);
    }

    /** A click on `target` inside the open overlay. */
    method OverlayClick(target: Layer)
      requires OverlayShown()
      modifies this
      ensures selectedImage == Dispatch(Reached(BubblePath(target)), old(selectedImage))
      ensures OverlayShown() <==> target == Panel
      ensures isPaused == old(isPaused)
    {
      OverlayClickEffect(target, selectedImage);
      var handlers := Reached(BubblePath(target));
      var i := 0;
      while i < |handlers|
        invariant 0 <= i <= |handlers|
        invariant Dispatch(handlers[i..], selectedImage) == Dispatch(handlers, old(selectedImage))
        invariant isPaused == old(isPaused)
      {
        assert handlers[i..][1..] == handlers[i + 1..];
        if handlers[i] != Panel {
          selectedImage := None;
        }
        i := i + 1;
      }
      assert handlers[i..] == [];
    }
  }

  /** What the page shows. */
  datatype PageView = Loading | Rows(rows: seq<GalleryRow>)

  /** The page with its `mounted` flag, set by an effect after the first
      render. */
  class GalleryPage {
    const rows: seq<GalleryRow>
    var mounted: bool

    constructor (rows: seq<GalleryRow>)
      ensures this.rows == rows && !mounted
      ensures View() == Loading
    {
      this.rows := rows;
      mounted := false;
    }

    function View(): PageView
      reads this
    {
      if mounted then Rows(rows) else Loading
    }

    method Mount()
      modifies this
      ensures mounted
      ensures View() == Rows(rows)
    {
      mounted := true;
    }
  }
}
