/** Pixels, images and the edge-uniformity test `are_colors_all_same` of
    ImageTools/wallpaper.py. An image is its size and a `getpixel` function. */
module Pixels {

  /** What `getpixel` returns: a single value (one-band modes) or a tuple of bands. */
  datatype Pixel = Scalar(v: int) | Tuple(c: seq<int>)

  datatype Image = Image(width: int, height: int, pixel: ((int, int)) -> Pixel)

  /** The largest difference from the first pixel that still counts as "the same colour". */
  const MaxColourDiff := 20

  /** Pixels the source can subtract: both scalars, or both tuples with at least three bands
      (anything else raises TypeError or IndexError). */
  predicate Comparable(p: Pixel, q: Pixel) {
    || (p.Scalar? && q.Scalar?)
    || (p.Tuple? && q.Tuple? && |p.c| >= 3 && |q.c| >= 3)
  }

  function Abs(x: int): (y: nat) {
    if x < 0 then -x else x
  }

  /** Colour difference: sum of absolute differences over the first three bands of a tuple,
      absolute difference of scalars. */
  function Diff(p: Pixel, first: Pixel): (d: nat)
    requires Comparable(p, first)
    ensures p == first ==> d == 0
  {
    if p.Tuple? then Abs(p.c[0] - first.c[0]) + Abs(p.c[1] - first.c[1]) + Abs(p.c[2] - first.c[2])
    else Abs(p.v - first.v)
  }

  /** The difference does not depend on which pixel is the first. */
  lemma DiffIsSymmetric(p: Pixel, q: Pixel)
    requires Comparable(p, q)
    ensures Diff(p, q) == Diff(q, p)
  {
  }

  /** The k-th pixel of the walk from start in steps of increment. */
  function Sample(im: Image, start: (int, int), increment: (int, int), k: int): (p: Pixel) {
    im.pixel((start.0 + k * increment.0, start.1 + k * increment.1))
  }

  /** Every pixel the walk compares can be compared with the first. */
  predicate SamplesComparable(im: Image, start: (int, int), increment: (int, int), numPixels: int) {
    forall k :: 1 <= k < numPixels ==>
      Comparable(Sample(im, start, increment, k), Sample(im, start, increment, 0))
  }

  /** Every pixel at offsets 1 .. numPixels-1 is within MaxColourDiff of the pixel at offset 0. */
  predicate AllSame(im: Image, start: (int, int), increment: (int, int), numPixels: int)
    requires SamplesComparable(im, start, increment, numPixels)
    // A walk of one pixel or none has nothing to compare and always passes.
    ensures numPixels <= 1 ==> AllSame(im, start, increment, numPixels)
  {
    forall k :: 1 <= k < numPixels ==>
      Diff(Sample(im, start, increment, k), Sample(im, start, increment, 0)) <= MaxColourDiff
  }

  /** `are_colors_all_same`: walks the pixels and gives up at the first that differs too much. */
  method AreColoursAllSame(im: Image, start: (int, int), increment: (int, int), numPixels: int)
    returns (same: bool)
    requires SamplesComparable(im, start, increment, numPixels)
    ensures same <==> AllSame(im, start, increment, numPixels)
  {
    var firstPixel := im.pixel(start);
    assert firstPixel == Sample(im, start, increment, 0);
    var y := 1;
    while y < numPixels
      invariant 1 <= y
      invariant forall k :: 1 <= k < y && k < numPixels ==>
        Diff(Sample(im, start, increment, k), firstPixel) <= MaxColourDiff
    {
      var pix := im.pixel((start.0 + y * increment.0, start.1 + y * increment.1));
      assert pix == Sample(im, start, increment, y);
      var diff;
      if pix.Tuple? {
        diff := Abs(pix.c[0] - firstPixel.c[0]) + Abs(pix.c[1] - firstPixel.c[1]) + Abs(pix.c[2] - firstPixel.c[2]);
      } else {
        diff := Abs(pix.v - firstPixel.v);
      }
      if diff > MaxColourDiff {
        return false;
      }
      y := y + 1;
    }
    return true;
  }

  /** An edge painted one colour passes whatever that colour is. */
  lemma OneColourIsSame(im: Image, start: (int, int), increment: (int, int), numPixels: int, colour: Pixel)
    requires colour.Tuple? ==> |colour.c| >= 3
    requires forall k :: 0 <= k < numPixels ==> Sample(im, start, increment, k) == colour
    ensures SamplesComparable(im, start, increment, numPixels)
    ensures AllSame(im, start, increment, numPixels)
  {
  }

  /** Passing the test on a walk means passing it on every shorter walk from the same start. */
  lemma {:induction false} SamePrefix(im: Image, start: (int, int), increment: (int, int), m: int, n: int)
    requires m <= n
    requires SamplesComparable(im, start, increment, n) && AllSame(im, start, increment, n)
    ensures SamplesComparable(im, start, increment, m) && AllSame(im, start, increment, m)
  {
  }
}
