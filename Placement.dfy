/** `fit_image` in ImageTools/wallpaper.py: choose the screen size and the fitted size, then
    decide where the resized image goes on a screen-sized canvas and what colour fills the rest.
    The PIL calls (resize, new, paste, convert) are left out; the result is the description of
    the canvas they would build. */
module Placement {
  import opened Wrappers
  import opened Geometry
  import opened Pixels
  import opened HexColour

  const DirectionDown := (0, 1)
  const DirectionRight := (1, 0)

  datatype Side = LeftEdge | RightEdge | TopEdge | BottomEdge

  function SizeOf(im: Image): (s: Size) {
    Size(im.width, im.height)
  }

  /** A non-empty image whose pixels are all of one kind: all scalars, or all tuples of at least
      three bands. */
  predicate WellFormed(im: Image) {
    && im.width >= 1 && im.height >= 1
    && forall x, y :: 0 <= x < im.width && 0 <= y < im.height ==>
         Comparable(im.pixel((x, y)), im.pixel((0, 0)))
  }

  /** Where the walk along an edge starts: its first pixel. */
  function EdgeStart(im: Image, side: Side): (int, int) {
    match side
    case LeftEdge => (0, 0)
    case RightEdge => (im.width - 1, 0)
    case TopEdge => (0, 0)
    case BottomEdge => (0, im.height - 1)
  }

  function EdgeStep(side: Side): (int, int) {
    if side == LeftEdge || side == RightEdge then DirectionDown else DirectionRight
  }

  function EdgeLength(im: Image, side: Side): (n: int) {
    if side == LeftEdge || side == RightEdge then im.height else im.width
  }

  predicate InImage(im: Image, p: (int, int)) {
    0 <= p.0 < im.width && 0 <= p.1 < im.height
  }

  /** The k-th pixel of an edge: the left and right columns top to bottom, the top and bottom
      rows left to right. */
  function EdgePixel(im: Image, side: Side, k: int): (p: (int, int)) {
    match side
    case LeftEdge => (0, k)
    case RightEdge => (im.width - 1, k)
    case TopEdge => (k, 0)
    case BottomEdge => (k, im.height - 1)
  }

  /** The walk from an edge's start visits exactly that edge's pixels, all inside the image, so
      a well-formed image can be walked. */
  lemma EdgeComparable(im: Image, side: Side)
    requires WellFormed(im)
    ensures forall k :: 0 <= k < EdgeLength(im, side) ==>
      InImage(im, EdgePixel(im, side, k)) &&
      Sample(im, EdgeStart(im, side), EdgeStep(side), k) == im.pixel(EdgePixel(im, side, k))
    ensures SamplesComparable(im, EdgeStart(im, side), EdgeStep(side), EdgeLength(im, side))
  {
    var start, step, n := EdgeStart(im, side), EdgeStep(side), EdgeLength(im, side);
    forall k | 1 <= k < n
      ensures Comparable(Sample(im, start, step, k), Sample(im, start, step, 0))
    {
      assert Sample(im, start, step, 0) == im.pixel(start);
      if side == LeftEdge || side == RightEdge {
        assert Sample(im, start, step, k) == im.pixel((start.0, k));
      } else {
        assert Sample(im, start, step, k) == im.pixel((k, start.1));
      }
    }
  }

  /** The edge passes `are_colors_all_same`: every pixel along it is within MaxColourDiff of
      its first pixel. */
  predicate Uniform(im: Image, side: Side)
    requires WellFormed(im)
    ensures Uniform(im, side) <==> forall k :: 1 <= k < EdgeLength(im, side) ==>
      && Comparable(im.pixel(EdgePixel(im, side, k)), im.pixel(EdgePixel(im, side, 0)))
      && Diff(im.pixel(EdgePixel(im, side, k)), im.pixel(EdgePixel(im, side, 0))) <= MaxColourDiff
  {
    EdgeComparable(im, side);
    AllSame(im, EdgeStart(im, side), EdgeStep(side), EdgeLength(im, side))
  }

  /** The background is the configured colour or the colour of one edge's first pixel. */
  datatype Fill = Configured | EdgeColour(side: Side)

  datatype Decision = Decision(position: (int, int), fill: Fill)

  /** The canvas shows background beside the given edge of the pasted image. */
  predicate GapBeside(side: Side, position: (int, int), fitted: Size, screen: Size) {
    match side
    case LeftEdge => position.0 > 0
    case RightEdge => position.0 + fitted.w < screen.w
    case TopEdge => position.1 > 0
    case BottomEdge => position.1 + fitted.h < screen.h
  }

  /** The placement table of `fit_image`. A canvas wider than the fitted image is the
      width-deficient case, tested first; otherwise a taller canvas is the height-deficient
      case. The edges tested are those of the image before resizing. */
  function Decide(im: Image, fitted: Size, screen: Size): (d: Decision)
    requires WellFormed(im)
    // On each axis the image sits flush against one side of the canvas.
    ensures d.position.0 == 0 || d.position.0 + fitted.w == screen.w
    ensures d.position.1 == 0 || d.position.1 + fitted.h == screen.h
    // A fitted image no larger than the canvas lies inside it.
    ensures 0 <= fitted.w <= screen.w && 0 <= fitted.h <= screen.h ==>
      0 <= d.position.0 && d.position.0 + fitted.w <= screen.w &&
      0 <= d.position.1 && d.position.1 + fitted.h <= screen.h
    // An edge colour is used only when that edge is uniform and the background shows beside it.
    ensures d.fill.EdgeColour? ==>
      Uniform(im, d.fill.side) && GapBeside(d.fill.side, d.position, fitted, screen)
    // The configured colour is used only when no edge facing a gap is uniform.
    ensures d.fill == Configured && screen.w > fitted.w ==>
      !Uniform(im, LeftEdge) && !Uniform(im, RightEdge)
    ensures d.fill == Configured && screen.w <= fitted.w && screen.h > fitted.h ==>
      !Uniform(im, TopEdge) && !Uniform(im, BottomEdge)
    // A canvas the image fills has no gap and keeps the configured colour.
    ensures screen.w <= fitted.w && screen.h <= fitted.h ==> d == Decision((0, 0), Configured)
  {
    if screen.w > fitted.w then
      var left, right := Uniform(im, LeftEdge), Uniform(im, RightEdge);
      if right && !left then Decision((0, 0), EdgeColour(RightEdge))
      else Decision((screen.w - fitted.w, 0), if left then EdgeColour(LeftEdge) else Configured)
    else if screen.h > fitted.h then
      if Uniform(im, BottomEdge) then Decision((0, 0), EdgeColour(BottomEdge))
      else if Uniform(im, TopEdge) then Decision((0, screen.h - fitted.h), EdgeColour(TopEdge))
      else Decision((0, 0), Configured)
    else Decision((0, 0), Configured)
  }

  function ColourPixel(c: Rgb): (p: Pixel) {
    Tuple([c.r, c.g, c.b])
  }

  function FillPixel(im: Image, fill: Fill, colour: Rgb): (p: Pixel) {
    match fill
    case Configured => ColourPixel(colour)
    case EdgeColour(side) => im.pixel(EdgeStart(im, side))
  }

  /** The image `fit_image` builds: a canvas of the screen size in the background colour with
      the resized image pasted at a position. */
  datatype Canvas = Canvas(size: Size, position: (int, int), pasted: Size, background: Pixel)

  predicate PasteInside(c: Canvas) {
    && 0 <= c.position.0 && c.position.0 + c.pasted.w <= c.size.w
    && 0 <= c.position.1 && c.position.1 + c.pasted.h <= c.size.h
  }

  /** The canvas for a chosen screen size. */
  function Compose(im: Image, screen: Size, colour: Rgb): (c: Canvas)
    requires WellFormed(im) && Positive(screen)
    ensures c.size == screen && PasteInside(c)
    // The image spans the canvas on at least one axis, so the background forms bars on one axis.
    ensures c.pasted.w == screen.w || c.pasted.h == screen.h
    // Bars run above and below exactly when the screen is narrower in aspect than the image,
    // and left and right only when it is not.
    ensures c.pasted.h < screen.h <==> Aspect(screen) < Aspect(SizeOf(im))
    ensures c.pasted.w < screen.w ==> Aspect(screen) >= Aspect(SizeOf(im))
  {
    var fitted := FitTo(SizeOf(im), screen);
    FitWithinCandidate(SizeOf(im), screen);
    var d := Decide(im, fitted, screen);
    Canvas(screen, d.position, fitted, FillPixel(im, d.fill, colour))
  }

  /** The placement part of `fit_image`: runs the edge tests the table needs, in the source's
      order, and sets the position and the background. */
  method Place(im: Image, newSize: Size, screenSize: Size, colour: Rgb)
    returns (position: (int, int), background: Pixel)
    requires WellFormed(im)
    ensures position == Decide(im, newSize, screenSize).position
    ensures background == FillPixel(im, Decide(im, newSize, screenSize).fill, colour)
  {
    position := (0, 0);
    background := ColourPixel(colour);
    if screenSize.w > newSize.w {
      EdgeComparable(im, LeftEdge);
      EdgeComparable(im, RightEdge);
      var leftAllSame := AreColoursAllSame(im, (0, 0), DirectionDown, im.height);
      var rightAllSame := AreColoursAllSame(im, (im.width - 1, 0), DirectionDown, im.height);
      if rightAllSame && !leftAllSame {
        background := im.pixel((im.width - 1, 0));
      } else {
        position := (screenSize.w - newSize.w, 0);
        if leftAllSame {
          background := im.pixel((0, 0));
        }
      }
    } else if screenSize.h > newSize.h {
      EdgeComparable(im, BottomEdge);
      var bottomAllSame := AreColoursAllSame(im, (0, im.height - 1), DirectionRight, im.width);
      if bottomAllSame {
        background := im.pixel((0, im.height - 1));
      } else {
        EdgeComparable(im, TopEdge);
        var topAllSame := AreColoursAllSame(im, (0, 0), DirectionRight, im.width);
        if topAllSame {
          background := im.pixel((0, 0));
          position := (0, screenSize.h - newSize.h);
        }
      }
    }
  }

  /** `fit_image`: None where the configured colour cannot be read (ValueError). */
  method FitImage(im: Image, screens: seq<Size>, setting: Option<string>) returns (r: Option<Canvas>)
    requires WellFormed(im) && |screens| > 0 && AllPositive(screens)
    ensures r.Some? <==> ParseColour(setting).Some?
    ensures r.Some? ==>
      exists k :: Closest(screens, Aspect(SizeOf(im)), k) && r.value == Compose(im, screens[k], ParseColour(setting).value)
    ensures r.Some? ==> PasteInside(r.value) && r.value.size in screens
  {
    var newSize, screenSize := FindNewSize(SizeOf(im), screens);
    ghost var k :| Closest(screens, Aspect(SizeOf(im)), k) && screenSize == screens[k];
    var colour := ParseColour(setting);
    if colour.None? {
      return None;
    }
    var position, background := Place(im, newSize, screenSize, colour.value);
    r := Some(Canvas(screenSize, position, newSize, background));
    assert r.value == Compose(im, screens[k], colour.value);
  }
}
