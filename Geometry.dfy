/** Best-fit size selection: `find_new_size` in ImageTools/wallpaper.py.
    Aspect ratios are exact reals; the source's floats are not modelled. */
module Geometry {

  /** A (width, height) pair: an image size or a candidate screen size. */
  datatype Size = Size(w: int, h: int)

  predicate Positive(s: Size) {
    s.w > 0 && s.h > 0
  }

  predicate AllPositive(sizes: seq<Size>) {
    forall i :: 0 <= i < |sizes| ==> Positive(sizes[i])
  }

  /** `1.0 * w / h`. */
  function Aspect(s: Size): (a: real)
    requires s.h > 0
    ensures a > 0.0 <==> s.w > 0
  {
    s.w as real / s.h as real
  }

  function AbsReal(x: real): (y: real) {
    if x < 0.0 then -x else x
  }

  /** How far a candidate's aspect ratio is from the image's. */
  function Distance(c: Size, target: real): (d: real)
    requires c.h > 0
  {
    AbsReal(Aspect(c) - target)
  }

  /** Candidate k has the least distance from target, and no earlier candidate has it:
      the scan replaces its best only on a strictly smaller distance. */
  predicate Closest(cands: seq<Size>, target: real, k: int)
    requires AllPositive(cands)
  {
    && 0 <= k < |cands|
    && (forall j :: 0 <= j < |cands| ==> Distance(cands[k], target) <= Distance(cands[j], target))
    && (forall j :: 0 <= j < k ==> Distance(cands[j], target) > Distance(cands[k], target))
  }

  /** At most one candidate is the closest. */
  lemma ClosestIsUnique(cands: seq<Size>, target: real, k1: int, k2: int)
    requires AllPositive(cands)
    requires Closest(cands, target, k1) && Closest(cands, target, k2)
    ensures k1 == k2
  {
    // Both are minimal, so they are equally far; an earlier one would be strictly farther.
    assert Distance(cands[k1], target) == Distance(cands[k2], target);
    if k1 != k2 {
      assert false;
    }
  }

  /** The fitted size for a chosen candidate: a candidate narrower in aspect than the image
      keeps its width and takes the height the image's aspect gives it; otherwise it keeps
      its height. `int()` of a positive float is its floor. */
  function FitTo(image: Size, c: Size): (r: Size)
    requires Positive(image) && Positive(c)
    // The fitted size matches the candidate on at least one side and is never negative.
    ensures r.w == c.w || r.h == c.h
    ensures r.w >= 0 && r.h >= 0
  {
    var imageAspect := Aspect(image);
    if Aspect(c) < imageAspect then Size(c.w, (c.w as real / imageAspect).Floor)
    else Size((imageAspect * c.h as real).Floor, c.h)
  }

  /** The scan of `find_new_size`: returns the fitted size and the chosen candidate. */
  method FindNewSize(image: Size, cands: seq<Size>) returns (fitted: Size, best: Size)
    requires Positive(image) && |cands| > 0 && AllPositive(cands)
    ensures exists k :: Closest(cands, Aspect(image), k) && best == cands[k]
    ensures fitted == FitTo(image, best)
    ensures 0 <= fitted.w <= best.w && 0 <= fitted.h <= best.h
  {
    var imageAspect := Aspect(image);
    best := cands[0];
    var bestAspect := Aspect(best);
    ghost var k := 0;
    for i := 1 to |cands|
      invariant 0 <= k < i && best == cands[k] && bestAspect == Aspect(best)
      invariant forall j :: 0 <= j < i ==> Distance(best, imageAspect) <= Distance(cands[j], imageAspect)
      invariant forall j :: 0 <= j < k ==> Distance(cands[j], imageAspect) > Distance(best, imageAspect)
    {
      var candidateAspect := Aspect(cands[i]);
      if AbsReal(bestAspect - imageAspect) > AbsReal(candidateAspect - imageAspect) {
        bestAspect := candidateAspect;
        best := cands[i];
        k := i;
      }
    }
    assert Closest(cands, imageAspect, k);
    if bestAspect < imageAspect {
      fitted := Size(best.w, (best.w as real / imageAspect).Floor);
    } else {
      fitted := Size((imageAspect * best.h as real).Floor, best.h);
    }
    FitWithinCandidate(image, best);
  }

  /** The floor of a/b for non-negative a and positive b is integer division. */
  lemma FloorOfQuotient(a: int, b: int)
    requires a >= 0 && b > 0
    ensures (a as real / b as real).Floor == a / b
  {
    var q, r := a / b, a % b;
    assert a == q * b + r;
    var x := a as real / b as real;
    assert a as real == q as real * b as real + r as real;
    assert x == q as real + r as real / b as real;
    assert 0.0 <= r as real / b as real < 1.0;
  }

  /** Comparing aspect ratios is comparing integer cross products. */
  lemma AspectLess(c: Size, image: Size)
    requires Positive(c) && Positive(image)
    ensures Aspect(c) < Aspect(image) <==> c.w * image.h < image.w * c.h
  {
    var cw, ch, iw, ih := c.w as real, c.h as real, image.w as real, image.h as real;
    assert Aspect(c) - Aspect(image) == (cw * ih - iw * ch) / (ch * ih);
    assert (c.w * image.h) as real == cw * ih;
    assert (image.w * c.h) as real == iw * ch;
  }

  /** The fitted size in integers alone: the source's float arithmetic, taken exactly, is
      the integer quotient of cross products. */
  lemma {:induction false} FitIntegerForm(image: Size, c: Size)
    requires Positive(image) && Positive(c)
    ensures FitTo(image, c) ==
      if c.w * image.h < image.w * c.h then Size(c.w, c.w * image.h / image.w)
      else Size(image.w * c.h / image.h, c.h)
  {
    AspectLess(c, image);
    var ia := Aspect(image);
    var iw, ih := image.w as real, image.h as real;
    if c.w * image.h < image.w * c.h {
      assert c.w as real / ia == (c.w * image.h) as real / iw;
      FloorOfQuotient(c.w * image.h, image.w);
    } else {
      assert ia * c.h as real == (image.w * c.h) as real / ih;
      FloorOfQuotient(image.w * c.h, image.h);
    }
  }

  /** The fitted size never exceeds the chosen candidate: it keeps the candidate's width and
      is strictly shorter, or keeps its height and is no wider. */
  lemma FitWithinCandidate(image: Size, c: Size)
    requires Positive(image) && Positive(c)
    ensures var r := FitTo(image, c);
      && 0 <= r.w <= c.w && 0 <= r.h <= c.h
      && (Aspect(c) < Aspect(image) ==> r.w == c.w && r.h < c.h)
      && (Aspect(c) >= Aspect(image) ==> r.h == c.h)
  {
    FitIntegerForm(image, c);
    AspectLess(c, image);
    if c.w * image.h < image.w * c.h {
      QuotientBelow(c.w * image.h, image.w, c.h);
    } else {
      QuotientBelow(image.w * c.h, image.h, c.w + 1);
    }
  }

  /** a < k * b gives a / b < k for non-negative a and positive b. */
  lemma QuotientBelow(a: int, b: int, k: int)
    requires a >= 0 && b > 0 && a < k * b
    ensures 0 <= a / b < k
  {
    var q := a / b;
    assert q * b <= a;
    assert (q - k) * b == q * b - k * b < 0;
  }

  /** The fitted size keeps the image's aspect ratio up to the truncation of one side:
      the derived side is the largest whole number of pixels that does not exceed it. */
  lemma FitKeepsAspect(image: Size, c: Size)
    requires Positive(image) && Positive(c)
    ensures var r := FitTo(image, c);
      if Aspect(c) < Aspect(image) then
        r.h * image.w <= r.w * image.h < (r.h + 1) * image.w
      else
        r.w * image.h <= r.h * image.w < (r.w + 1) * image.h
  {
    FitIntegerForm(image, c);
    AspectLess(c, image);
  }

  /** 1920x1080 against [(1360, 768), (1920, 1200)] chooses (1360, 768) and fits to 1360x765. */
  lemma ExampleWideImage()
    ensures Closest([Size(1360, 768), Size(1920, 1200)], Aspect(Size(1920, 1080)), 0)
    ensures FitTo(Size(1920, 1080), Size(1360, 768)) == Size(1360, 765)
  {
    var cands := [Size(1360, 768), Size(1920, 1200)];
    var ia := Aspect(Size(1920, 1080));
    assert ia == 16.0 / 9.0;
    assert Aspect(cands[0]) == 85.0 / 48.0;
    assert Aspect(cands[1]) == 8.0 / 5.0;
    assert Distance(cands[0], ia) == 1.0 / 144.0;
    FitIntegerForm(Size(1920, 1080), Size(1360, 768));
  }
}
