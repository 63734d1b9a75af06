# Wallpaper fitting, modelled in Dafny

`ImageTools/wallpaper.py` picks a picture from a directory, fits it to the screen and sets it as
the Windows desktop wallpaper; on Windows 7 it also installs a copy as the logon background.
This project models the decision-making core of that script and proves what it guarantees:

- **Best-fit size** (`Geometry`): `find_new_size` scans the candidate screen sizes, keeps the one
  whose aspect ratio is closest to the image's (the earliest on ties), and computes the fitted
  size: the candidate's width when the candidate is narrower in aspect than the image, otherwise
  its height, with the other side derived from the image's aspect and truncated.
- **Candidate screen sizes** (`Screens`): `get_screen_sizes`, one `(i * w, h)` per divisor `i` of
  the screen count, largest first. The screen count and size are parameters.
- **Edge uniformity** (`Pixels`): `are_colors_all_same` walks a row or column of pixels and
  fails at the first one that differs from the first pixel by more than 20 (sum of absolute
  differences over three bands, or absolute difference of single-band values).
- **Background colour** (`HexColour`): the `background-colour` setting (default `"000000"`) is
  cut into three two-character pieces, each read by Python's `int(piece, 16)`.
- **Placement** (`Placement`): where `fit_image` pastes the resized image on a screen-sized
  canvas, and which colour fills the rest. A uniform edge facing the gap supplies the colour;
  otherwise the configured colour is used.
- **Source-file filtering** (`SourceFiles`): the names `get_file` may choose from. The reserved
  names, `.json` sidecar files and names without a dot are removed, in the listing's order.
- **Logon background** (`Logon`): the first logon size with the screen's exact aspect ratio, and
  the JPEG save loop that steps the quality down from 80 by 5 until the file is under 256000
  bytes or quality 50 has been tried.

An image is modelled as its width, height and a `getpixel` function; the output of `fit_image`
is described as a `Canvas` (size, paste position, pasted size, background pixel) rather than
built. Aspect ratios are exact reals, and Python's `int()` of a positive float is its floor. The
lemma `Geometry.FitIntegerForm` shows that the fitted size is then integer division of cross
products.

In `find_new_size` (`ImageTools/wallpaper.py:85-92`) a candidate whose aspect is *less* than the
image's (a narrower screen) keeps its width, and any other candidate keeps its height, even
though the comment at line 86 calls the first kind of candidate "fat". The model follows the
code. `Geometry.ExampleWideImage` shows the consequence: a 1920x1080 image offered (1360,768)
and (1920,1200) gets (1360,768) and is fitted to 1360x765.

## Model

| member | source | states |
|---|---|---|
| `Geometry.FindNewSize` | ImageTools/wallpaper.py:69-92 | the chosen candidate is in the list, minimises the aspect-ratio distance, and no earlier candidate is as close; the fitted size is `FitTo` of it and never exceeds it |
| `Geometry.ClosestIsUnique` | ImageTools/wallpaper.py:72-82 | the earliest-closest candidate is unique, so the tie-breaking rule determines the choice |
| `Geometry.AspectLess` | ImageTools/wallpaper.py:85 | comparing a candidate's aspect with the image's is comparing integer cross products |
| `Geometry.Aspect` | ImageTools/wallpaper.py:70 | the aspect ratio `w / h` is positive exactly when the width is |
| `Geometry.FitTo` | ImageTools/wallpaper.py:85-92 | the fitted size keeps the candidate's width or its height, and neither side is negative |
| `Geometry.FitIntegerForm` | ImageTools/wallpaper.py:85-92 | the fitted size is `(cw, cw*H div W)` when `cw*H < W*ch`, else `(W*ch div H, ch)`: the truncated exact arithmetic |
| `Geometry.FloorOfQuotient` | ImageTools/wallpaper.py:88 | `int()` of a non-negative quotient is integer division |
| `Geometry.FitWithinCandidate` | ImageTools/wallpaper.py:85-92 | the fitted size is within the candidate: full width and strictly less height when the candidate is narrower in aspect, full height and no more width otherwise |
| `Geometry.FitKeepsAspect` | ImageTools/wallpaper.py:85-92 | the derived side is the largest whole number of pixels that keeps the image's aspect ratio |
| `Geometry.ExampleWideImage` | ImageTools/wallpaper.py:69-92 | 1920x1080 against [(1360,768), (1920,1200)] chooses (1360,768) and fits to 1360x765 |
| `Screens.DivisorsDown` | ImageTools/wallpaper.py:103-104 | every number kept by `range(i, 0, -1)` and `n % i == 0` is a divisor of n between 1 and i |
| `Screens.ScreenSizes` | ImageTools/wallpaper.py:101-105 | every candidate is one screen high (the screens are side by side) |
| `Screens.DivisorsDownSpec` | ImageTools/wallpaper.py:101-105 | the loop over `range(i, 0, -1)` keeps exactly the divisors of n up to i, strictly descending |
| `Screens.DivisorsDownEndsWithOne` | ImageTools/wallpaper.py:103-104 | for i >= 1 the divisor list is never empty and ends with 1 |
| `Screens.ScreenSizesSpec` | ImageTools/wallpaper.py:95-107 | for n >= 1: one `(i*w, h)` for every divisor i of n and nothing else, first `(n*w, h)`, last the single screen, widths strictly falling when w > 0 |
| `Screens.NoScreensNoSizes` | ImageTools/wallpaper.py:103 | a screen count of 0 or less gives no candidates |
| `Pixels.Diff` | ImageTools/wallpaper.py:118-121 | the colour difference of a pixel from itself is 0 |
| `Pixels.DiffIsSymmetric` | ImageTools/wallpaper.py:118-121 | the difference does not depend on which pixel is the first |
| `Pixels.AllSame` | ImageTools/wallpaper.py:110-126 | the test a walk must pass; a walk of at most one pixel (`range(1, n)` empty) always passes |
| `Pixels.AreColoursAllSame` | ImageTools/wallpaper.py:110-126 | returns true exactly when every pixel at offsets 1 .. n-1 is within 20 of the pixel at offset 0 |
| `Pixels.OneColourIsSame` | ImageTools/wallpaper.py:110-126 | an edge of a single colour passes, whatever the colour |
| `Pixels.SamePrefix` | ImageTools/wallpaper.py:115-125 | a walk that passes also passes when cut shorter |
| `HexColour.StripLeftIsSuffix` | ImageTools/wallpaper.py:138-140 | `int()` drops exactly the leading white space: what is left is a suffix that starts with a non-space, and everything dropped is white space |
| `HexColour.StripRightIsPrefix` | ImageTools/wallpaper.py:138-140 | `int()` drops exactly the trailing white space: what is left is a prefix that ends with a non-space, and everything dropped is white space |
| `HexColour.ParseHexInt` | ImageTools/wallpaper.py:138-140 | `int(piece, 16)`: a piece of bare hex digits reads as their value; a piece with no ASCII hex digit in it is never a number (non-ASCII decimal digits are left out) |
| `HexColour.ParseColour` | ImageTools/wallpaper.py:136-141 | a setting shorter than five characters cannot be read, since the third piece would hold no digit |
| `HexColour.HexPairValue` | ImageTools/wallpaper.py:138-140 | two hex digits read as 16 * first + second |
| `HexColour.PairParse` | ImageTools/wallpaper.py:138-140 | a two-character piece of hex digits reads as the byte 16 * first + second |
| `HexColour.ShortHexValueBound` | ImageTools/wallpaper.py:138-140 | at most two hex digits give a value in 0 .. 255 |
| `HexColour.ShortPieceBound` | ImageTools/wallpaper.py:138-140 | any two-character piece `int()` accepts reads as a value in -255 .. 255 (a sign is allowed) |
| `HexColour.ParsedColourBound` | ImageTools/wallpaper.py:136-141 | every colour the setting yields has bands in -255 .. 255 |
| `HexColour.SixDigitsParse` | ImageTools/wallpaper.py:136-141 | a setting that starts with six hex digits yields the three byte values they spell, each in 0 .. 255 |
| `HexColour.SpelledColourParses` | ImageTools/wallpaper.py:136-141 | six hex digits that spell the three bands in pairs read as that colour |
| `HexColour.DefaultIsBlack` | ImageTools/wallpaper.py:136 | without a setting the colour is (0, 0, 0) |
| `HexColour.SeparatorIsNotSpace` | ImageTools/wallpaper.py:138-140 | a piece padded with U+001C is not a number, and neither is a setting built from such pieces |
| `HexColour.NoBreakSpaceIsStripped` | ImageTools/wallpaper.py:138-140 | a no-break space or ideographic space around a digit is stripped like a space |
| `HexColour.FormatThenParse` | ImageTools/wallpaper.py:136-141 | writing a colour as "RRGGBB" and reading it back gives the colour |
| `Placement.EdgeComparable` | ImageTools/wallpaper.py:145-164 | the walk from an edge's start pixel, in steps of `direction_down` or `direction_right`, visits exactly that edge's pixels, all inside the image, and they are of one kind with the first |
| `Placement.Uniform` | ImageTools/wallpaper.py:143-164 | an edge passes `are_colors_all_same` exactly when every pixel along it, in the image's own coordinates, is within 20 of the edge's first pixel |
| `Placement.Decide` | ImageTools/wallpaper.py:143-170 | the image is flush with one side of the canvas on each axis and inside it; an edge colour is used only when that edge is uniform and the gap is beside it; the configured colour only when no edge facing the gap is uniform; a filled canvas gets (0,0) and the configured colour |
| `Placement.Place` | ImageTools/wallpaper.py:143-170 | the edge tests, run in the source's order, give the position and background of the table |
| `Placement.Compose` | ImageTools/wallpaper.py:130-177 | the canvas has the screen's size and contains the pasted image; the image spans it on at least one axis; bars run above and below exactly when the screen is narrower in aspect than the image |
| `Placement.FitImage` | ImageTools/wallpaper.py:129-178 | fails exactly when the colour setting cannot be read; otherwise the canvas is the composition for the earliest-closest screen size, one of the candidates, and contains the pasted image |
| `SourceFiles.CandidateFiles` | ImageTools/wallpaper.py:209-223 | the result is a subsequence of the listing with no `.json` name and no name without a dot; for a listing without repeats it is exactly the eligible names, in order |
| `SourceFiles.RemoveStep` | ImageTools/wallpaper.py:209-216 | a guarded `files.remove(x)` leaves a subsequence, and on a listing without repeats removes every x and nothing else |
| `SourceFiles.RemoveFirst` | ImageTools/wallpaper.py:210 | `list.remove` makes the list one shorter |
| `SourceFiles.RemoveFirstMultiset` | ImageTools/wallpaper.py:210 | `list.remove` takes away exactly one copy of the name and keeps every other name |
| `SourceFiles.Filter` | ImageTools/wallpaper.py:218-223 | a filtering comprehension is no longer than its list and keeps only names of the list that pass the condition |
| `SourceFiles.RemoveReaches` | ImageTools/wallpaper.py:209-216 | each guarded `remove` keeps the files a subsequence of the listing, and on a listing without repeats adds "is not that name" to the names kept |
| `SourceFiles.FilterReaches` | ImageTools/wallpaper.py:218-223 | each comprehension keeps the files a subsequence of the listing, and on a listing without repeats adds its condition to the names kept |
| `SourceFiles.RemoveFirstOfDistinct` | ImageTools/wallpaper.py:210 | on a list without repeats, `remove` of the first x removes every x |
| `SourceFiles.RemoveFirstIsSubsequence` | ImageTools/wallpaper.py:210 | `remove` only deletes |
| `SourceFiles.FilterIsSubsequence` | ImageTools/wallpaper.py:218-223 | a filtering comprehension only deletes, keeping the order |
| `SourceFiles.FilterMembers` | ImageTools/wallpaper.py:218-223 | a name survives a comprehension exactly when it is in the list and passes the condition |
| `SourceFiles.FilterCompose` | ImageTools/wallpaper.py:218-223 | two comprehensions in a row are one comprehension by both conditions |
| `SourceFiles.FilterKeepsAll` | ImageTools/wallpaper.py:209-216 | a comprehension whose condition holds of every element changes nothing |
| `SourceFiles.FilterKeepsDistinct` | ImageTools/wallpaper.py:218-223 | a comprehension keeps a list free of repeats |
| `SourceFiles.SubsequenceReflexive` | ImageTools/wallpaper.py:209-216 | a list is a subsequence of itself, the case where a guard skips the `remove` |
| `SourceFiles.SubsequenceTransitive` | ImageTools/wallpaper.py:209-223 | deletions in sequence are a deletion from the original listing |
| `SourceFiles.NoReservedNameSurvives` | ImageTools/wallpaper.py:209-216 | on a listing without repeats, current.bmp, current.txt and Thumbs.db are never candidates |
| `Logon.SaveUnderCap` | ImageTools/wallpaper.py:267-275 | saves at 80, 75, ... in order, 1 to 7 times, each quality in 50 .. 80; every save but the last was 256000 bytes or more; the last is under the limit or at quality 50 |
| `Logon.SavedQualitiesAreTheSchedule` | ImageTools/wallpaper.py:267-275 | the saved qualities are a prefix of 80, 75, 70, 65, 60, 55, 50 |
| `Logon.ChangeLogonBackground` | ImageTools/wallpaper.py:245-276 | does nothing off Windows 7 or when no logon size has the screen's exact ratio; otherwise fits the image to the first such size and runs the save loop; a bad colour setting fails |
| `Logon.WideScreenMatches` | ImageTools/wallpaper.py:229-258 | a 1280x800 screen gets the 1920x1200 background, the first with ratio 1.6 |
| `Logon.SixteenByNineHasNoMatch` | ImageTools/wallpaper.py:229-258 | no logon size has ratio 16:9, so a 1920x1080 screen never gets a logon background |

## Left out

- `Windows` (`SystemParametersInfoW`, `GetSystemMetrics`, `getwindowsversion`): foreign calls. The screen count, the screen size and "is Windows 7" are parameters. `get_number_of_screens` always returns 1 in the source, so in practice the candidate list is the single screen size.
- PIL (`Image.open`, `resize`, `crop`, `new`, `paste`, `convert`, `save`): a library the model cannot see. The image is a size and a `getpixel` function; `resize` is taken to produce exactly the requested size; how `Image.new` reads a colour in each image mode is not modelled; the JPEG file size at each quality is a parameter.
- Floating point: aspect ratios, `cw / image_aspect`, `image_aspect * ch` and the ratio equality of `change_logon_background` are exact reals, so IEEE-754 rounding is not modelled.
- Geometry.FindNewSize: requires positive widths as well as heights. A zero height raises ZeroDivisionError in the source. A zero width is accepted by `find_new_size` but would give PIL a degenerate size.
- Placement.FitImage: requires a well-formed image, with all pixels of one kind and tuples of at least three bands. A two-band ("LA") image or mixed pixel kinds make the source raise IndexError or TypeError at the first comparison. Float pixels ("F" mode) are not modelled.
- HexColour.ParseHexInt, HexColour.ParseColour: model `int(piece, 16)` as white space (space, tab .. carriage return, and the Unicode white space characters), an optional sign and hex digits. Python's `int()` also reads non-ASCII decimal digits (Arabic-Indic digits, say) as their ASCII counterparts; the model rejects such a piece, where the source reads it as a number. A setting that is not a string (a JSON number, say) is not modelled.
- `filter_image`, `random.choice` in `get_file` and `choose_wallpaper_file`, and the 25% descent into a `monthNN` directory: randomness. When no name survives the filtering, `random.choice` raises IndexError; that is not modelled either.
- `choose_wallpaper_file` (directory, file or glob pattern and its `.json` filter), `find_source_dir`, `get_destination_directory`, `load_config`, `create_config`, `get_bounds` and the crop to the configured region in `main`, the audit file, the logon directory and its file name: filesystem, environment and JSON plumbing.
- `parse_args`, the `verbose` flag and `output`: command-line and logging glue.
