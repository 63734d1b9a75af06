/** The configured background colour of `fit_image` (ImageTools/wallpaper.py): the setting
    "background-colour" (default "000000") is cut into s[0:2], s[2:4], s[4:6] and each piece is
    read with Python's `int(piece, 16)`; a piece that is not a number raises ValueError. */
module HexColour {
  import opened Wrappers

  datatype Rgb = Rgb(r: int, g: int, b: int)

  const DefaultColour := "000000"

  predicate IsHexDigit(ch: char) {
    ('0' <= ch <= '9') || ('a' <= ch <= 'f') || ('A' <= ch <= 'F')
  }

  function DigitValue(ch: char): (v: int)
    requires IsHexDigit(ch)
    ensures 0 <= v < 16
  {
    if '0' <= ch <= '9' then ch as int - '0' as int
    else if 'a' <= ch <= 'f' then ch as int - 'a' as int + 10
    else ch as int - 'A' as int + 10
  }

  predicate AllHexDigits(s: string) {
    forall i :: 0 <= i < |s| ==> IsHexDigit(s[i])
  }

  /** The number the hex digits s spell, most significant first. */
  function HexValue(s: string): (v: int)
    requires AllHexDigits(s)
    ensures v >= 0
  {
    if |s| == 0 then 0 else HexValue(s[..|s| - 1]) * 16 + DigitValue(s[|s| - 1])
  }

  /** The characters `int()` strips from both ends of its argument. Of the ASCII characters
      only space and tab .. carriage return are stripped (the information separators
      U+001C .. U+001F are not); a non-ASCII character that is Unicode white space is first
      turned into a space, so it is stripped too. */
  predicate IsSpace(ch: char) {
    ch == ' ' || ('\t' <= ch <= '\r') || (ch > '\U{7F}' && IsUnicodeSpace(ch))
  }

  /** The white space characters outside ASCII. */
  predicate IsUnicodeSpace(ch: char) {
    || ch == '\U{85}' || ch == '\U{A0}' || ch == '\U{1680}' || ('\U{2000}' <= ch <= '\U{200A}')
    || ch == '\U{2028}' || ch == '\U{2029}' || ch == '\U{202F}' || ch == '\U{205F}' || ch == '\U{3000}'
  }

  /** Drops leading white space. */
  function StripLeft(s: string): (r: string) {
    if |s| > 0 && IsSpace(s[0]) then StripLeft(s[1..]) else s
  }

  /** Drops trailing white space. */
  function StripRight(s: string): (r: string) {
    if |s| > 0 && IsSpace(s[|s| - 1]) then StripRight(s[..|s| - 1]) else s
  }

  /** StripLeft removes exactly the leading white space: the result is the suffix of s that
      starts at its first other character. */
  lemma {:induction false} StripLeftIsSuffix(s: string)
    ensures var r := StripLeft(s);
      && |r| <= |s| && r == s[|s| - |r|..]
      && (r != [] ==> !IsSpace(r[0]))
      && (forall i :: 0 <= i < |s| - |r| ==> IsSpace(s[i]))
  {
    if |s| > 0 && IsSpace(s[0]) {
      StripLeftIsSuffix(s[1..]);
    }
  }

  /** StripRight removes exactly the trailing white space: the result is the prefix of s that
      ends at its last other character. */
  lemma {:induction false} StripRightIsPrefix(s: string)
    ensures var r := StripRight(s);
      && |r| <= |s| && r == s[..|r|]
      && (r != [] ==> !IsSpace(r[|r| - 1]))
      && (forall i :: |r| <= i < |s| ==> IsSpace(s[i]))
  {
    if |s| > 0 && IsSpace(s[|s| - 1]) {
      StripRightIsPrefix(s[..|s| - 1]);
    }
  }

  /** `int(s, 16)` on a string of at most two characters: surrounding white space, an optional
      sign, then one or more hex digits. */
  function ParseHexInt(s: string): (r: Option<int>)
    // A piece of bare hex digits reads as their value.
    ensures |s| > 0 && AllHexDigits(s) ==> r == Some(HexValue(s))
    // A piece with no ASCII hex digit in it is never a number (non-ASCII decimal digits are
    // not modelled).
    ensures r.Some? ==> exists i :: 0 <= i < |s| && IsHexDigit(s[i])
  {
    StripLeftIsSuffix(s);
    StripRightIsPrefix(StripLeft(s));
    var t := StripRight(StripLeft(s));
    if |t| > 0 && (t[0] == '+' || t[0] == '-') then
      var digits := t[1..];
      if |digits| > 0 && AllHexDigits(digits) then
        Some(if t[0] == '-' then -HexValue(digits) else HexValue(digits))
      else None
    else if |t| > 0 && AllHexDigits(t) then Some(HexValue(t))
    else None
  }

  function Min(a: int, b: int): (m: int) {
    if a < b then a else b
  }

  /** Python's `s[i:j]` for 0 <= i <= j: bounds past the end are clipped. */
  function Slice(s: string, i: nat, j: nat): (t: string)
    requires i <= j
  {
    s[Min(i, |s|)..Min(j, |s|)]
  }

  /** The three band values of the setting, or None where `int()` raises. */
  function ParseColour(setting: Option<string>): (c: Option<Rgb>)
    // Each of the three pieces must hold a digit, so a setting shorter than five characters
    // cannot be read.
    ensures c.Some? ==> |setting.GetOr(DefaultColour)| >= 5
  {
    var s := setting.GetOr(DefaultColour);
    var r, g, b := ParseHexInt(Slice(s, 0, 2)), ParseHexInt(Slice(s, 2, 4)), ParseHexInt(Slice(s, 4, 6));
    if r.Some? && g.Some? && b.Some? then Some(Rgb(r.value, g.value, b.value)) else None
  }

  /** "RRGGBB" in lower-case hex: the spelling of a byte colour, the inverse ParseColour is
      proved against. */
  function HexChar(n: int): (ch: char)
    requires 0 <= n < 16
    ensures IsHexDigit(ch) && DigitValue(ch) == n
  {
    if n < 10 then ('0' as int + n) as char else ('a' as int + n - 10) as char
  }

  function HexPair(n: int): (p: string)
    requires 0 <= n < 256
  {
    [HexChar(n / 16), HexChar(n % 16)]
  }

  predicate InByteRange(c: Rgb) {
    0 <= c.r < 256 && 0 <= c.g < 256 && 0 <= c.b < 256
  }

  function FormatColour(c: Rgb): (s: string)
    requires InByteRange(c)
  {
    HexPair(c.r) + HexPair(c.g) + HexPair(c.b)
  }

  /** Two hex digits spell 16 * first + second. */
  lemma HexPairValue(s: string)
    requires |s| == 2 && AllHexDigits(s)
    ensures HexValue(s) == 16 * DigitValue(s[0]) + DigitValue(s[1])
  {
    var head := s[..1];
    assert head[..0] == [] && head[0] == s[0];
    assert HexValue(head) == DigitValue(s[0]);
  }

  /** At most two hex digits make a value below 256. */
  lemma {:induction false} ShortHexValueBound(s: string)
    requires |s| <= 2 && AllHexDigits(s)
    ensures 0 <= HexValue(s) < 256
  {
    if |s| == 2 {
      HexPairValue(s);
    } else if |s| == 1 {
      assert s[..0] == [];
    }
  }

  /** Reading a piece of at most two characters gives a value in -255 .. 255. */
  lemma ShortPieceBound(s: string)
    requires |s| <= 2 && ParseHexInt(s).Some?
    ensures -255 <= ParseHexInt(s).value <= 255
  {
    StripLeftIsSuffix(s);
    StripRightIsPrefix(StripLeft(s));
    var t := StripRight(StripLeft(s));
    if |t| > 0 && (t[0] == '+' || t[0] == '-') {
      ShortHexValueBound(t[1..]);
    } else {
      ShortHexValueBound(t);
    }
  }

  /** Every colour the setting can give has bands in -255 .. 255 (a sign is accepted). */
  lemma ParsedColourBound(setting: Option<string>)
    requires ParseColour(setting).Some?
    ensures var c := ParseColour(setting).value;
      -255 <= c.r <= 255 && -255 <= c.g <= 255 && -255 <= c.b <= 255
  {
    var s := setting.GetOr(DefaultColour);
    ShortPieceBound(Slice(s, 0, 2));
    ShortPieceBound(Slice(s, 2, 4));
    ShortPieceBound(Slice(s, 4, 6));
  }

  /** A setting that starts with six hex digits gives the three byte values they spell. */
  lemma SixDigitsParse(s: string)
    requires |s| >= 6 && AllHexDigits(s[..6])
    ensures ParseColour(Some(s)) == Some(Rgb(
      16 * DigitValue(s[0]) + DigitValue(s[1]),
      16 * DigitValue(s[2]) + DigitValue(s[3]),
      16 * DigitValue(s[4]) + DigitValue(s[5])))
    ensures InByteRange(ParseColour(Some(s)).value)
  {
    var a, b, c := s[0..2], s[2..4], s[4..6];
    assert Slice(s, 0, 2) == a && Slice(s, 2, 4) == b && Slice(s, 4, 6) == c;
    assert a == s[..6][0..2] && b == s[..6][2..4] && c == s[..6][4..6];
    PairParse(a);
    PairParse(b);
    PairParse(c);
  }

  /** A two-character piece of hex digits reads as the byte they spell. */
  lemma PairParse(p: string)
    requires |p| == 2 && AllHexDigits(p)
    ensures ParseHexInt(p) == Some(16 * DigitValue(p[0]) + DigitValue(p[1]))
    ensures 0 <= 16 * DigitValue(p[0]) + DigitValue(p[1]) < 256
  {
    HexPairValue(p);
  }

  /** With no setting the colour is black. */
  lemma DefaultIsBlack()
    ensures ParseColour(None) == Some(Rgb(0, 0, 0))
  {
    SixDigitsParse(DefaultColour);
  }

  /** Reading back a written colour gives the colour. */
  lemma FormatThenParse(c: Rgb)
    requires InByteRange(c)
    ensures ParseColour(Some(FormatColour(c))) == Some(c)
  {
    FormatDigits(c);
    SpelledColourParses(FormatColour(c), c);
  }

  /** Six hex digits that spell the bands of c in pairs read as c. */
  lemma SpelledColourParses(s: string, c: Rgb)
    requires |s| == 6 && AllHexDigits(s)
    requires 16 * DigitValue(s[0]) + DigitValue(s[1]) == c.r
    requires 16 * DigitValue(s[2]) + DigitValue(s[3]) == c.g
    requires 16 * DigitValue(s[4]) + DigitValue(s[5]) == c.b
    ensures ParseColour(Some(s)) == Some(c)
  {
    var a, b, d := s[0..2], s[2..4], s[4..6];
    assert Slice(s, 0, 2) == a && Slice(s, 2, 4) == b && Slice(s, 4, 6) == d;
    PairParse(a);
    PairParse(b);
    PairParse(d);
  }

  /** The six characters written for a colour are hex digits that spell its bands in pairs. */
  lemma FormatDigits(c: Rgb)
    requires InByteRange(c)
    ensures var s := FormatColour(c);
      && |s| == 6 && AllHexDigits(s)
      && 16 * DigitValue(s[0]) + DigitValue(s[1]) == c.r
      && 16 * DigitValue(s[2]) + DigitValue(s[3]) == c.g
      && 16 * DigitValue(s[4]) + DigitValue(s[5]) == c.b
  {
    var s := FormatColour(c);
    PairDigits(c.r);
    PairDigits(c.g);
    PairDigits(c.b);
    assert s[0..2] == HexPair(c.r) && s[2..4] == HexPair(c.g) && s[4..6] == HexPair(c.b);
  }

  /** The two digits written for a byte spell it. */
  lemma PairDigits(n: int)
    requires 0 <= n < 256
    ensures var p := HexPair(n);
      |p| == 2 && AllHexDigits(p) && 16 * DigitValue(p[0]) + DigitValue(p[1]) == n
  {
  }

  /** The information separators U+001C .. U+001F are not white space to `int()`: a piece
      padded with one is not a number, and neither is a setting built from such pieces. */
  lemma SeparatorIsNotSpace()
    ensures ParseHexInt("\U{1C}5") == None
    ensures ParseColour(Some("\U{1C}5\U{1C}5\U{1C}5")) == None
  {
    assert !IsSpace('\U{1C}') && !IsHexDigit('\U{1C}');
    assert Slice("\U{1C}5\U{1C}5\U{1C}5", 0, 2) == "\U{1C}5";
  }

  /** Unicode white space such as the no-break space is stripped like a space. */
  lemma NoBreakSpaceIsStripped()
    ensures ParseHexInt("\U{A0}5") == Some(5)
    ensures ParseHexInt("5\U{3000}") == Some(5)
  {
    assert StripLeft("\U{A0}5") == "5";
    assert StripRight("5") == "5";
    assert StripRight("5\U{3000}") == "5";
  }
}
