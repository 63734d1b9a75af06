/** Candidate screen sizes: `get_screen_sizes` in ImageTools/wallpaper.py, with the screen
    count and the size of one screen passed in instead of queried from Windows. */
module Screens {
  import opened Geometry

  /** The divisors of n in [1, i], largest first: `i` runs over `range(i, 0, -1)` and is kept
      when `n % i == 0`. */
  function DivisorsDown(n: int, i: int): (d: seq<int>)
    ensures forall x :: x in d ==> 1 <= x <= i && n % x == 0
    decreases i
  {
    if i <= 0 then []
    else if n % i == 0 then [i] + DivisorsDown(n, i - 1)
    else DivisorsDown(n, i - 1)
  }

  /** `i` monitors of the given size laid out side by side. */
  function Layout(i: int, one: Size): (s: Size) {
    Size(i * one.w, one.h)
  }

  /** The list comprehension of `get_screen_sizes`. */
  function ScreenSizes(n: int, one: Size): (r: seq<Size>)
    // Screens are laid out side by side, so every candidate has one screen's height.
    ensures forall j :: 0 <= j < |r| ==> r[j].h == one.h
  {
    var d := DivisorsDown(n, n);
    seq(|d|, j requires 0 <= j < |d| => Layout(d[j], one))
  }

  /** DivisorsDown(n, i) holds exactly the divisors of n in [1, i], strictly descending. */
  lemma {:induction false} DivisorsDownSpec(n: int, i: int)
    ensures forall x :: x in DivisorsDown(n, i) <==> 1 <= x <= i && n % x == 0
    ensures forall a, b :: 0 <= a < b < |DivisorsDown(n, i)| ==>
      DivisorsDown(n, i)[a] > DivisorsDown(n, i)[b]
    ensures i >= 1 && n % i == 0 ==> DivisorsDown(n, i)[0] == i
    decreases i
  {
    if i > 0 {
      DivisorsDownSpec(n, i - 1);
      var rest := DivisorsDown(n, i - 1);
      if n % i == 0 {
        var d := [i] + rest;
        forall a, b | 0 <= a < b < |d| ensures d[a] > d[b] {
          if a == 0 {
            assert d[b] == rest[b - 1] && d[b] in rest;
          } else {
            assert d[a] == rest[a - 1] && d[b] == rest[b - 1];
          }
        }
      }
    }
  }

  /** Every divisor list of n >= 1 ends with 1 (1 divides everything and is the least). */
  lemma {:induction false} DivisorsDownEndsWithOne(n: int, i: int)
    requires i >= 1
    ensures |DivisorsDown(n, i)| >= 1 && DivisorsDown(n, i)[|DivisorsDown(n, i)| - 1] == 1
    decreases i
  {
    if i > 1 {
      DivisorsDownEndsWithOne(n, i - 1);
    }
  }

  /** With n >= 1 screens: one entry per divisor i of n, each `(i * w, h)`, starting with all n
      screens side by side and ending with one screen; with w > 0 the widths strictly fall. */
  lemma ScreenSizesSpec(n: int, one: Size)
    requires n >= 1
    ensures var r := ScreenSizes(n, one);
      && |r| >= 1
      && r[0] == Layout(n, one)
      && r[|r| - 1] == one
      && (forall i :: 1 <= i <= n && n % i == 0 ==> Layout(i, one) in r)
      && (forall j :: 0 <= j < |r| ==> exists i :: 1 <= i <= n && n % i == 0 && r[j] == Layout(i, one))
      && (one.w > 0 ==> forall a, b :: 0 <= a < b < |r| ==> r[a].w > r[b].w)
  {
    var d := DivisorsDown(n, n);
    var r := ScreenSizes(n, one);
    DivisorsDownSpec(n, n);
    DivisorsDownEndsWithOne(n, n);
    forall i | 1 <= i <= n && n % i == 0 ensures Layout(i, one) in r {
      assert i in d;
      var j :| 0 <= j < |d| && d[j] == i;
      assert r[j] == Layout(i, one);
    }
    forall j | 0 <= j < |r|
      ensures exists i :: 1 <= i <= n && n % i == 0 && r[j] == Layout(i, one)
    {
      assert d[j] in d && r[j] == Layout(d[j], one);
    }
    if one.w > 0 {
      forall a, b | 0 <= a < b < |r| ensures r[a].w > r[b].w {
        assert d[a] > d[b];
        MultiplyKeepsOrder(d[b], d[a], one.w);
      }
    }
  }

  lemma MultiplyKeepsOrder(x: int, y: int, k: int)
    requires x < y && k > 0
    ensures x * k < y * k
  {
  }

  /** No screens (or a negative count) give no candidates. */
  lemma NoScreensNoSizes(n: int, one: Size)
    requires n <= 0
    ensures ScreenSizes(n, one) == []
  {
  }
}
