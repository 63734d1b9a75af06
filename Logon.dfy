/** `change_logon_background` in ImageTools/wallpaper.py: on Windows 7, find the first logon
    screen size with the screen's aspect ratio, fit the image to it, and save it as JPEG at
    falling quality until the file is small enough. The OS version, the directory and the
    file size of each save are passed in. */
module Logon {
  import opened Wrappers
  import opened Geometry
  import opened Pixels
  import opened HexColour
  import opened Placement

  /** The sizes Windows 7 looks for a logon background in, in the order they are tried. */
  const LogonScreenDimensions: seq<Size> := [
    Size(1360, 768), Size(1280, 768), Size(1920, 1200), Size(1440, 900),
    Size(1600, 1200), Size(1280, 960), Size(1024, 768), Size(1280, 1024),
    Size(1024, 1280), Size(960, 1280), Size(900, 1440), Size(768, 1280)
  ]

  const InitialQuality := 80
  const MinimumQuality := 50
  const QualityStep := 5
  /** The save loop stops once the file is under 256000 bytes (`256 * 1000`). */
  const MaxFileSize := 256 * 1000

  /** What the quality loop saved, in order: 80, 75, ... down to the first quality whose file is
      under the limit, or down to 50 when none is. */
  predicate SavesUntilUnderCap(saved: seq<int>, fileSize: int -> int) {
    && 1 <= |saved| <= 7
    && (forall i :: 0 <= i < |saved| ==> saved[i] == InitialQuality - QualityStep * i)
    && (forall i :: 0 <= i < |saved| - 1 ==> fileSize(saved[i]) >= MaxFileSize)
    && (fileSize(saved[|saved| - 1]) < MaxFileSize || saved[|saved| - 1] == MinimumQuality)
  }

  /** The save loop; `fileSize(q)` is the size of the file written at quality q. */
  method SaveUnderCap(fileSize: int -> int) returns (saved: seq<int>)
    ensures SavesUntilUnderCap(saved, fileSize)
    ensures forall q :: q in saved ==> MinimumQuality <= q <= InitialQuality
  {
    var quality := InitialQuality;
    saved := [];
    while quality >= MinimumQuality
      invariant quality == InitialQuality - QualityStep * |saved| && quality >= MinimumQuality - QualityStep
      invariant forall i :: 0 <= i < |saved| ==> saved[i] == InitialQuality - QualityStep * i
      invariant forall i :: 0 <= i < |saved| ==> fileSize(saved[i]) >= MaxFileSize
    {
      saved := saved + [quality];
      if fileSize(quality) < MaxFileSize {
        break;
      }
      quality := quality - QualityStep;
    }
  }

  /** Every quality the loop can save at is 80, 75, ..., 50: at most seven saves. */
  lemma SavedQualitiesAreTheSchedule(saved: seq<int>, fileSize: int -> int)
    requires SavesUntilUnderCap(saved, fileSize)
    ensures saved == [80, 75, 70, 65, 60, 55, 50][..|saved|]
  {
  }

  /** The first logon size with the screen's aspect ratio is at index i. */
  predicate FirstMatch(screen: Size, i: int)
    requires screen.h > 0
  {
    && 0 <= i < |LogonScreenDimensions|
    && Aspect(LogonScreenDimensions[i]) == Aspect(screen)
    && forall j :: 0 <= j < i ==> Aspect(LogonScreenDimensions[j]) != Aspect(screen)
  }

  datatype LogonOutcome =
    | NotWindows7
    | NoMatchingDimensions
    | BadColour                 // `fit_image` raised ValueError on the colour setting
    | Saved(dimensions: Size, canvas: Canvas, qualities: seq<int>)

  method ChangeLogonBackground(isWindows7: bool, im: Image, screen: Size, setting: Option<string>,
                               fileSize: int -> int)
    returns (outcome: LogonOutcome)
    requires WellFormed(im) && screen.h > 0
    ensures !isWindows7 <==> outcome == NotWindows7
    ensures outcome == NoMatchingDimensions <==>
      isWindows7 && forall i :: 0 <= i < |LogonScreenDimensions| ==> Aspect(LogonScreenDimensions[i]) != Aspect(screen)
    ensures outcome == BadColour ==> ParseColour(setting).None?
    ensures outcome.Saved? ==>
      && ParseColour(setting).Some?
      && (exists i :: FirstMatch(screen, i) && outcome.dimensions == LogonScreenDimensions[i])
      && Positive(outcome.dimensions)
      && outcome.canvas == Compose(im, outcome.dimensions, ParseColour(setting).value)
      && SavesUntilUnderCap(outcome.qualities, fileSize)
  {
    if !isWindows7 {
      return NotWindows7;
    }
    var desiredRatio := Aspect(screen);
    for i := 0 to |LogonScreenDimensions|
      invariant forall j :: 0 <= j < i ==> Aspect(LogonScreenDimensions[j]) != desiredRatio
    {
      var possibleScreenSize := LogonScreenDimensions[i];
      var possibleRatio := Aspect(possibleScreenSize);
      if possibleRatio == desiredRatio {
        assert FirstMatch(screen, i);
        var fitted := FitImage(im, [possibleScreenSize], setting);
        if fitted.None? {
          return BadColour;
        }
        ghost var k :| Closest([possibleScreenSize], Aspect(SizeOf(im)), k)
          && fitted.value == Compose(im, [possibleScreenSize][k], ParseColour(setting).value);
        var qualities := SaveUnderCap(fileSize);
        return Saved(possibleScreenSize, fitted.value, qualities);
      }
    }
    return NoMatchingDimensions;
  }

  /** A 16:10 screen gets the 1920x1200 background. */
  lemma WideScreenMatches()
    ensures FirstMatch(Size(1280, 800), 2)
  {
    assert Aspect(LogonScreenDimensions[0]) == 85.0 / 48.0;
    assert Aspect(LogonScreenDimensions[1]) == 5.0 / 3.0;
  }

  /** No logon size has a 16:9 ratio, so a 1920x1080 screen keeps its logon background. */
  lemma SixteenByNineHasNoMatch()
    ensures forall i :: 0 <= i < |LogonScreenDimensions| ==>
      Aspect(LogonScreenDimensions[i]) != Aspect(Size(1920, 1080))
  {
    var target := Aspect(Size(1920, 1080));
    assert target == 16.0 / 9.0;
    forall i | 0 <= i < |LogonScreenDimensions|
      ensures Aspect(LogonScreenDimensions[i]) != target
    {
      var d := LogonScreenDimensions[i];
      AspectLess(d, Size(1920, 1080));
      AspectLess(Size(1920, 1080), d);
    }
  }
}
