/** `Image::set`: bulk pixel loading from rows of hexadecimal digits. */
module PixelArt {
  import opened Settings
  import opened Outcomes
  import opened Images

  /** The characters the string simplifier drops. */
  predicate IsWhitespace(c: char) {
    c == ' ' || c == '\t' || c == '\n' || c == '\r'
  }

  /** `simplify_string`: the row with its whitespace removed, other characters
      kept in order. */
  function Simplify(s: string): (r: string)
    ensures |r| <= |s|
    ensures forall k :: 0 <= k < |r| ==> !IsWhitespace(r[k])
    ensures (forall k :: 0 <= k < |s| ==> !IsWhitespace(s[k])) ==> r == s
  {
    if s == [] then []
    else (if IsWhitespace(s[0]) then [] else [s[0]]) + Simplify(s[1..])
  }

  /** Simplification works character by character, so it distributes over
      concatenation. */
  lemma {:induction false} SimplifyConcat(a: string, b: string)
    ensures Simplify(a + b) == Simplify(a) + Simplify(b)
    decreases |a|
  {
    if a == [] {
      assert a + b == b;
    } else {
      assert (a + b)[0] == a[0];
      assert (a + b)[1..] == a[1..] + b;
      SimplifyConcat(a[1..], b);
    }
  }

  /** Simplification keeps exactly the characters that are not whitespace. */
  lemma {:induction false} SimplifyKeeps(s: string, c: char)
    ensures c in Simplify(s) <==> c in s && !IsWhitespace(c)
    decreases |s|
  {
    if s != [] {
      SimplifyKeeps(s[1..], c);
      assert s == [s[0]] + s[1..];
    }
  }

  predicate IsHexDigit(c: char) {
    '0' <= c <= '9' || 'a' <= c <= 'f' || 'A' <= c <= 'F'
  }

  /** `parse_hex_string` applied to a one-character string that it accepts. */
  function HexValue(c: char): (v: Color)
    requires IsHexDigit(c)
    ensures v < 16
  {
    if '0' <= c <= '9' then (c - '0') as int
    else if 'a' <= c <= 'f' then (c - 'a') as int + 10
    else (c - 'A') as int + 10
  }

  /** The lower-case digit for a value below 16. */
  function HexDigit(v: nat): (c: char)
    requires v < 16
    ensures IsHexDigit(c)
  {
    if v < 10 then '0' + v as char else 'a' + (v - 10) as char
  }

  /** Every colour below 16 has a digit that parses back to it, and every
      lower-case digit is the one its value prints as. */
  lemma HexRoundTrip(v: nat, c: char)
    requires v < 16
    ensures HexValue(HexDigit(v)) == v
    ensures IsHexDigit(c) && !('A' <= c <= 'F') ==> HexDigit(HexValue(c)) == c
  {
  }

  /** Row `row` yields `width` cells: it is long enough and its first `width`
      characters are all hex digits. */
  ghost predicate RowWellFormed(row: string, width: nat) {
    width <= |row| && forall j :: 0 <= j < width ==> IsHexDigit(row[j])
  }

  /** Every simplified row of `data` yields `width` cells. */
  ghost predicate WellFormed(data: seq<string>, width: nat) {
    forall i :: 0 <= i < |data| ==> RowWellFormed(Simplify(data[i]), width)
  }

  /** The inner loop of `set`: cell `j` is the hex value of `row[j..j+1]`,
      for `j` from 0 up to `width`. Slicing past the end of the row panics,
      and so does a character that is not a hex digit. */
  function ParseRow(row: string, width: nat): (r: Result<seq<Color>>)
    ensures r.Ok? <==> RowWellFormed(row, width)
    ensures r.Ok? ==> |r.value| == width && forall j :: 0 <= j < width ==> r.value[j] == HexValue(row[j])
    ensures r.Err? ==>
      (r.reason == InvalidImageData <==> exists j :: 0 <= j < width && j < |row| && !IsHexDigit(row[j]))
    ensures r.Err? ==> r.reason == InvalidImageData || r.reason == SliceOutOfRange
    decreases width
  {
    if width == 0 then Ok([])
    else if |row| == 0 then Err(SliceOutOfRange)
    else if !IsHexDigit(row[0]) then Err(InvalidImageData)
    else
      match ParseRow(row[1..], width - 1)
      case Ok(rest) =>
        assert forall j :: 1 <= j < width ==> row[j] == row[1..][j - 1];
        Ok([HexValue(row[0])] + rest)
      case Err(e) =>
        assert forall j :: 0 <= j < width - 1 && j < |row[1..]| ==> row[1..][j] == row[j + 1];
        Err(e)
  }

  /** The outer loop of `set`: each row is simplified and parsed in turn; the
      first failing row decides the panic. */
  function ParseRows(rows: seq<string>, width: nat): (r: Result<seq<seq<Color>>>)
    ensures r.Ok? <==> WellFormed(rows, width)
    ensures r.Ok? ==> |r.value| == |rows|
    ensures r.Ok? ==> forall i :: 0 <= i < |rows| ==> |r.value[i]| == width
    ensures r.Ok? ==> forall i, j :: 0 <= i < |rows| && 0 <= j < width ==>
      r.value[i][j] == HexValue(Simplify(rows[i])[j])
    ensures r.Err? ==> r.reason == InvalidImageData || r.reason == SliceOutOfRange
    decreases |rows|
  {
    if rows == [] then Ok([])
    else
      match ParseRow(Simplify(rows[0]), width)
      case Err(e) => Err(e)
      case Ok(cells) =>
        match ParseRows(rows[1..], width)
        case Err(e) =>
          assert !RowWellFormed(Simplify(rows[1..][0]), width) || !WellFormed(rows[1..], width);
          Err(e)
        case Ok(rest) =>
          assert forall i :: 1 <= i < |rows| ==> rows[i] == rows[1..][i - 1];
          Ok([cells] + rest)
  }

  /** The temporary image `set` fills: a new `width` x `height` image whose
      cell (i, j) is the value of digit j of simplified row i. Defined
      directly, cell by cell, as the reference for the loop above. */
  function Patch(data: seq<string>, width: U32): (p: Image)
    requires |data| < 0x1_0000_0000
    requires WellFormed(data, width)
    ensures Valid(p) && IdentityPalette(p)
    ensures p.width == width && p.height == |data|
    ensures forall i, j :: 0 <= i < |data| && 0 <= j < width ==>
      p.data[i][j] == HexValue(Simplify(data[i])[j])
  {
    New(width, |data|).(data := seq(|data|, i requires 0 <= i < |data| =>
      seq(width, j requires 0 <= j < width => HexValue(Simplify(data[i])[j]))))
  }

  /** Parse with the given patch width, then copy the patch into `img`. */
  function ParseAndBlit(img: Image, x: I32, y: I32, data: seq<string>, width: U32, blt: Blitter): (r: Outcome<Image>)
    requires |data| < 0x1_0000_0000
    ensures r.Panicked? ==> r.state == img && r.reason != IndexOutOfBounds
    ensures r.Done? <==> WellFormed(data, width)
    ensures r.Done? ==> r.value == blt(img, x, y, Patch(data, width))
  {
    match ParseRows(data, width)
    case Err(e) => Panicked(e, img)
    case Ok(cells) =>
      var tmp := New(width, |data|).(data := cells);
      var p := Patch(data, width);
      assert forall i :: 0 <= i < |data| ==> cells[i] == p.data[i];
      assert cells == p.data;
      Done(blt(img, x, y, tmp))
  }

  /** `Image::set` as written: the patch width is the raw length of the
      first row, the height the number of rows. Indexing the first row of an
      empty `data` panics before the emptiness test; an empty first row is a
      no-op; any panic happens before the only write to the image, so the
      image is untouched. */
  function Set(img: Image, x: I32, y: I32, data: seq<string>, blt: Blitter): (r: Outcome<Image>)
    requires |data| < 0x1_0000_0000
    requires forall i :: 0 <= i < |data| ==> |data[i]| < 0x1_0000_0000
    ensures r.Panicked? ==> r.state == img
    ensures |data| == 0 ==> r == Panicked(IndexOutOfBounds, img)
    ensures |data| > 0 && |data[0]| == 0 ==> r == Done(img)
    ensures |data| > 0 && |data[0]| > 0 ==> (r.Done? <==> WellFormed(data, |data[0]|))
    ensures |data| > 0 && |data[0]| > 0 && r.Done? ==> r.value == blt(img, x, y, Patch(data, |data[0]|))
  {
    if |data| == 0 then Panicked(IndexOutOfBounds, img)
    else
      var width := |data[0]|;
      var height := |data|;
      if width == 0 || height == 0 then Done(img)
      else ParseAndBlit(img, x, y, data, width, blt)
  }

  /** `set` with the patch width taken from the SIMPLIFIED first row, so that
      whitespace is ignored everywhere, as the simplification intends. */
  function SetSimplifiedWidth(img: Image, x: I32, y: I32, data: seq<string>, blt: Blitter): (r: Outcome<Image>)
    requires |data| < 0x1_0000_0000
    requires forall i :: 0 <= i < |data| ==> |data[i]| < 0x1_0000_0000
    ensures r.Panicked? ==> r.state == img
    ensures |data| == 0 ==> r == Panicked(IndexOutOfBounds, img)
    ensures |data| > 0 && |Simplify(data[0])| == 0 ==> r == Done(img)
    ensures |data| > 0 && |Simplify(data[0])| > 0 ==> (r.Done? <==> WellFormed(data, |Simplify(data[0])|))
    ensures |data| > 0 && |Simplify(data[0])| > 0 && r.Done? ==>
      r.value == blt(img, x, y, Patch(data, |Simplify(data[0])|))
  {
    if |data| == 0 then Panicked(IndexOutOfBounds, img)
    else
      var width := |Simplify(data[0])|;
      if width == 0 then Done(img)
      else ParseAndBlit(img, x, y, data, width, blt)
  }

  /** Rows that simplify alike parse alike. */
  lemma {:induction false} ParseRowsSeesOnlySimplified(a: seq<string>, b: seq<string>, width: nat)
    requires |a| == |b|
    requires forall i :: 0 <= i < |a| ==> Simplify(a[i]) == Simplify(b[i])
    ensures ParseRows(a, width) == ParseRows(b, width)
    decreases |a|
  {
    if a != [] {
      ParseRowsSeesOnlySimplified(a[1..], b[1..], width);
    }
  }

  /** The intended behaviour, proved of the corrected `set`: whitespace
      anywhere in the rows, the first row included, changes nothing. */
  lemma SetSimplifiedWidthIgnoresWhitespace(
    img: Image, x: I32, y: I32, a: seq<string>, b: seq<string>, blt: Blitter)
    requires |a| == |b| < 0x1_0000_0000
    requires forall i :: 0 <= i < |a| ==> |a[i]| < 0x1_0000_0000 && |b[i]| < 0x1_0000_0000
    requires forall i :: 0 <= i < |a| ==> Simplify(a[i]) == Simplify(b[i])
    ensures SetSimplifiedWidth(img, x, y, a, blt) == SetSimplifiedWidth(img, x, y, b, blt)
  {
    if |a| > 0 {
      ParseRowsSeesOnlySimplified(a, b, |Simplify(a[0])|);
    }
  }

  /** The code as written does not ignore whitespace in the first row: the
      row "0 1" is three characters wide but simplifies to two, so slicing
      the third digit panics, while "01" loads a 2 x 1 patch. */
  lemma FirstRowWhitespacePanics(img: Image, blt: Blitter)
    ensures Simplify("0 1") == Simplify("01") == "01"
    ensures Set(img, 0, 0, ["0 1"], blt) == Panicked(SliceOutOfRange, img)
    ensures Set(img, 0, 0, ["01"], blt).Done?
    ensures SetSimplifiedWidth(img, 0, 0, ["0 1"], blt) == SetSimplifiedWidth(img, 0, 0, ["01"], blt)
  {
    SpacedRowPanics(img, blt, ["0 1"]);
    PlainRowLoads(img, blt, ["01"]);
    SpacedAndPlainAlike(img, blt);
  }

  /** "0 1" and "01" simplify alike, so the corrected `set` treats them
      alike. */
  lemma SpacedAndPlainAlike(img: Image, blt: Blitter)
    ensures Simplify("0 1") == Simplify("01") == "01"
    ensures SetSimplifiedWidth(img, 0, 0, ["0 1"], blt) == SetSimplifiedWidth(img, 0, 0, ["01"], blt)
  {
    assert Simplify("1") == "1";
    assert Simplify(" 1") == "1";
    SetSimplifiedWidthIgnoresWhitespace(img, 0, 0, ["0 1"], ["01"], blt);
  }

  /** The single row "0 1": three characters wide, two digits after
      simplification, so the slice for the third digit is out of range. */
  lemma SpacedRowPanics(img: Image, blt: Blitter, data: seq<string>)
    requires data == ["0 1"]
    ensures Set(img, 0, 0, data, blt) == Panicked(SliceOutOfRange, img)
  {
    assert Simplify(data[0]) == "01" by {
      assert Simplify("1") == "1";
      assert Simplify(" 1") == "1";
    }
    assert ParseRow("01", 3) == Err(SliceOutOfRange);
  }

  /** The single row "01" loads. */
  lemma PlainRowLoads(img: Image, blt: Blitter, data: seq<string>)
    requires data == ["01"]
    ensures Set(img, 0, 0, data, blt).Done?
  {
    assert Simplify(data[0]) == "01" by {
      assert Simplify("1") == "1";
    }
    assert RowWellFormed(Simplify(data[0]), 2);
  }

  /** The rows "012", "345", "678" are plain digit rows: simplification
      leaves them alone and digit j of row i has the value 3 * i + j. */
  lemma DigitRows(data: seq<string>)
    requires data == ["012", "345", "678"]
    ensures WellFormed(data, 3)
    ensures forall i, j :: 0 <= i < 3 && 0 <= j < 3 ==> HexValue(Simplify(data[i])[j]) == 3 * i + j
  {
    forall i | 0 <= i < 3
      ensures Simplify(data[i]) == data[i]
      ensures RowWellFormed(data[i], 3)
      ensures forall j :: 0 <= j < 3 ==> HexValue(data[i][j]) == 3 * i + j
    {
      assert forall k :: 0 <= k < 3 ==> !IsWhitespace(data[i][k]);
    }
  }

  /** Loading the rows "012", "345", "678" succeeds. */
  lemma SetDigitsScenario(img: Image, blt: Blitter, data: seq<string>)
    requires data == ["012", "345", "678"]
    ensures Set(img, 0, 0, data, blt).Done?
  {
    DigitRows(data);
    assert |data[0]| == 3;
  }

  /** The rows "012", "345", "678" make the 3 x 3 patch of the digits 0 to 8
      in reading order. */
  lemma DigitPatch(data: seq<string>)
    requires data == ["012", "345", "678"]
    ensures WellFormed(data, 3)
    ensures var p := Patch(data, 3);
      p.width == 3 && p.height == 3
      && forall i, j :: 0 <= i < 3 && 0 <= j < 3 ==> p.data[i][j] == 3 * i + j
  {
    DigitRows(data);
  }
}
