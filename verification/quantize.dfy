/** `Image::load`: nearest-colour quantisation of an already-decoded
    true-colour pixel grid against a table of packed `0xRRGGBB` colours. */
module Quantize {
  import opened Settings
  import opened Outcomes
  import opened Images

  type Byte = b: int | 0 <= b < 0x100

  /** One decoded pixel, or one unpacked palette colour. */
  datatype Rgb = Rgb(r: Byte, g: Byte, b: Byte)

  /** A decoded `width` x `height` true-colour image, row-major. */
  datatype RgbImage = RgbImage(width: U32, height: U32, pixels: seq<seq<Rgb>>)

  ghost predicate ValidRgb(src: RgbImage) {
    |src.pixels| == src.height && forall i :: 0 <= i < |src.pixels| ==> |src.pixels[i]| == src.width
  }

  /** `0xRRGGBB` from its three channels. */
  function Pack(rgb: Rgb): (c: Rgb8)
    ensures c < 0x100_0000
  {
    rgb.r * 0x1_0000 + rgb.g * 0x100 + rgb.b
  }

  /** `((c >> 16) & 0xff, (c >> 8) & 0xff, c & 0xff)`: a right shift by n bits
      is division by 2^n and masking with 0xff is the remainder mod 256. */
  function Unpack(c: Rgb8): Rgb {
    Rgb((c / 0x1_0000) % 0x100, (c / 0x100) % 0x100, c % 0x100)
  }

  /** Unpacking keeps the low three bytes and drops the top one. */
  lemma PackUnpack(c: Rgb8)
    ensures Pack(Unpack(c)) == c % 0x100_0000
  {
    var rgb := Unpack(c);
    assert c == (c / 0x1_0000) * 0x1_0000 + (c / 0x100) % 0x100 * 0x100 + rgb.b;
  }

  /** Unpacking inverts packing. */
  lemma UnpackPack(rgb: Rgb)
    ensures Unpack(Pack(rgb)) == rgb
  {
    var c := Pack(rgb);
    assert c / 0x1_0000 == rgb.r;
    assert c / 0x100 == rgb.r * 0x100 + rgb.g;
  }

  /** The distance between two channel values. */
  function Gap(x: Byte, y: Byte): (g: Byte)
    ensures g == 0 <==> x == y
  {
    if x >= y then x - y else y - x
  }

  /** `n * n`, built by adding successive odd numbers so that distances
      stay in linear arithmetic. */
  function Square(n: nat): (s: nat)
    ensures s == 0 <==> n == 0
    decreases n
  {
    if n == 0 then 0 else Square(n - 1) + 2 * n - 1
  }

  lemma {:induction false} SquareIsProduct(n: nat)
    ensures Square(n) == n * n
    decreases n
  {
    if n > 0 {
      SquareIsProduct(n - 1);
      assert (n - 1) * (n - 1) == n * n - 2 * n + 1;
    }
  }

  lemma SquareBound(n: nat)
    requires n < 0x100
    ensures Square(n) <= 255 * 255
  {
    SquareIsProduct(n);
    assert n * n <= 255 * n <= 255 * 255;
  }

  /** The weighted squared distance with the weights 0.30, 0.59 and 0.11
      scaled to 30, 59 and 11, so that each squared channel difference is
      weighted 900, 3481 and 121: exactly 10^4 times the real-valued
      distance, so it orders colour pairs the same way. */
  function ColorDist(a: Rgb, b: Rgb): (d: nat)
    ensures d == 0 <==> a == b
    ensures d < DIST_CEILING
  {
    SquareBound(Gap(a.r, b.r));
    SquareBound(Gap(a.g, b.g));
    SquareBound(Gap(a.b, b.b));
    900 * Square(Gap(a.r, b.r)) + 3481 * Square(Gap(a.g, b.g)) + 121 * Square(Gap(a.b, b.b))
  }

  /** Greater than every distance: the role `f64::MAX` plays as the initial
      best distance of the scan. */
  const DIST_CEILING: nat := 300_000_000

  lemma GapSquare(x: Byte, y: Byte)
    ensures Square(Gap(x, y)) == (x - y) * (x - y)
  {
    SquareIsProduct(Gap(x, y));
    if x < y {
      assert (x - y) * (x - y) == (y - x) * (y - x);
    }
  }

  /** The distance is the source's `dx * dx + dy * dy + dz * dz` with
      `dx = (r1 - r2) * 0.30`, `dy = (g1 - g2) * 0.59`, `dz = (b1 - b2) * 0.11`,
      scaled by 10^4. */
  lemma ColorDistIsWeightedSquares(a: Rgb, b: Rgb)
    ensures ColorDist(a, b) ==
      (30 * (a.r - b.r)) * (30 * (a.r - b.r))
      + (59 * (a.g - b.g)) * (59 * (a.g - b.g))
      + (11 * (a.b - b.b)) * (11 * (a.b - b.b))
  {
    GapSquare(a.r, b.r);
    GapSquare(a.g, b.g);
    GapSquare(a.b, b.b);
    Scaled(a.r - b.r, 30);
    Scaled(a.g - b.g, 59);
    Scaled(a.b - b.b, 11);
  }

  lemma Scaled(d: int, w: int)
    ensures (w * d) * (w * d) == (w * w) * (d * d)
  {
  }

  lemma ColorDistSymmetric(a: Rgb, b: Rgb)
    ensures ColorDist(a, b) == ColorDist(b, a)
  {
  }

  /** The distance from `rgb` to every entry of the table, in table order. */
  function Distances(rgb: Rgb, pal: seq<Rgb8>): seq<nat> {
    seq(|pal|, k requires 0 <= k < |pal| => ColorDist(rgb, Unpack(pal[k])))
  }

  /** `k` is what a scan of `ds[0 .. count-1]` keeping the first strictly
      smaller value returns: no scanned value is smaller than `ds[k]`, and
      every earlier one is strictly larger. */
  ghost predicate IsArgMin(ds: seq<nat>, count: nat, k: nat) {
    && count <= |ds|
    && k < count
    && (forall j :: 0 <= j < count ==> ds[k] <= ds[j])
    && (forall j :: 0 <= j < k ==> ds[k] < ds[j])
  }

  /** The first position of the least of `ds[0 .. count-1]`. */
  function ArgMin(ds: seq<nat>, count: nat): (k: nat)
    requires 1 <= count <= |ds|
    ensures IsArgMin(ds, count, k)
    decreases count
  {
    if count == 1 then 0
    else
      var k := ArgMin(ds, count - 1);
      if ds[count - 1] < ds[k] then count - 1 else k
  }

  /** At most one position is the first least one, so the answer does not
      depend on how it was found. */
  lemma ArgMinUnique(ds: seq<nat>, count: nat, k1: nat, k2: nat)
    requires IsArgMin(ds, count, k1)
    requires IsArgMin(ds, count, k2)
    ensures k1 == k2
  {
    assert ds[k1] == ds[k2];
  }

  /** `k` is the answer of the scan over table entries 0 .. count-1: no
      scanned entry is closer to `rgb`, and every earlier entry is strictly
      farther (ties go to the lowest index). */
  ghost predicate IsClosest(rgb: Rgb, pal: seq<Rgb8>, count: nat, k: nat) {
    IsArgMin(Distances(rgb, pal), count, k)
  }

  /** The nearest of the first `count` table entries. */
  function Closest(rgb: Rgb, pal: seq<Rgb8>, count: nat): (k: nat)
    requires 1 <= count <= |pal|
    ensures k < count
    ensures IsClosest(rgb, pal, count, k)
  {
    ArgMin(Distances(rgb, pal), count)
  }

  /** The scan of `load` for one colour: entries 0 .. count-1 are unpacked and
      compared in order, starting from a best distance above every real one,
      and an entry replaces the best only when strictly closer. */
  method FindClosest(rgb: Rgb, pal: seq<Rgb8>, count: nat) returns (k: Color)
    requires 1 <= count <= |pal|
    requires count <= 0x100
    ensures k < count
    ensures k == Closest(rgb, pal, count)
  {
    ghost var ds := Distances(rgb, pal);
    k := 0;
    var closestDist := DIST_CEILING;
    var i := 0;
    while i < count
      invariant 0 <= i <= count
      invariant i == 0 ==> k == 0 && closestDist == DIST_CEILING
      invariant i > 0 ==> k == ArgMin(ds, i) && closestDist == ds[k]
    {
      var dist := ColorDist(rgb, Unpack(pal[i]));
      assert dist == ds[i];
      ghost var prev := k;
      if dist < closestDist {
        k := i;
        closestDist := dist;
      }
      assert i > 0 ==> ArgMin(ds, i + 1) == if ds[i] < ds[prev] then i else prev;
      i := i + 1;
    }
  }

  /** The scan reads entries 0 .. count-1 only when there is a pixel to
      quantise; with too short a table, the first pixel's scan panics. */
  predicate ScanPanics(src: RgbImage, pal: seq<Rgb8>, count: nat) {
    src.width > 0 && src.height > 0 && |pal| < count
  }

  /** The scan bound and palette admit every scan the image needs. */
  predicate Quantizable(src: RgbImage, pal: seq<Rgb8>, count: nat) {
    1 <= count <= 0x100 && !ScanPanics(src, pal, count)
  }

  /** The quantised image, defined pixel by pixel without a memo table: a new
      image of the source's size whose cell (i, j) is the nearest palette
      entry to pixel (i, j). */
  function Quantized(src: RgbImage, pal: seq<Rgb8>, count: nat): (q: Image)
    requires ValidRgb(src)
    requires Quantizable(src, pal, count)
    ensures Valid(q) && IdentityPalette(q)
    ensures q.width == src.width && q.height == src.height
    ensures forall i, j :: 0 <= i < src.height && 0 <= j < src.width ==>
      IsClosest(src.pixels[i][j], pal, count, q.data[i][j])
  {
    New(src.width, src.height).(data := seq(src.height, i requires 0 <= i < src.height =>
      seq(src.width, j requires 0 <= j < src.width => Closest(src.pixels[i][j], pal, count) as Color)))
  }

  /** A grid of the source's shape holding the nearest index in every cell
      is the quantised image's grid. */
  lemma QuantizedByCells(src: RgbImage, pal: seq<Rgb8>, count: nat, cells: seq<seq<Color>>)
    requires ValidRgb(src) && Quantizable(src, pal, count)
    requires |cells| == src.height
    requires forall a :: 0 <= a < src.height ==> |cells[a]| == src.width
    requires forall a, b :: 0 <= a < src.height && 0 <= b < src.width ==>
      cells[a][b] == Closest(src.pixels[a][b], pal, count)
    ensures cells == Quantized(src, pal, count).data
  {
    var q := Quantized(src, pal, count);
    assert forall a :: 0 <= a < src.height ==> cells[a] == q.data[a];
  }

  /** Pixels of the same colour get the same index. */
  lemma SameColourSameIndex(src: RgbImage, pal: seq<Rgb8>, count: nat, i1: nat, j1: nat, i2: nat, j2: nat)
    requires ValidRgb(src) && Quantizable(src, pal, count)
    requires i1 < src.height && j1 < src.width && i2 < src.height && j2 < src.width
    requires src.pixels[i1][j1] == src.pixels[i2][j2]
    ensures Quantized(src, pal, count).data[i1][j1] == Quantized(src, pal, count).data[i2][j2]
  {
    var q := Quantized(src, pal, count);
    ArgMinUnique(Distances(src.pixels[i1][j1], pal), count, q.data[i1][j1], q.data[i2][j2]);
  }

  /** Every entry of the memo table is the fresh scan result for its key. */
  ghost predicate MemoSound(table: map<Rgb, Color>, pal: seq<Rgb8>, count: nat) {
    forall rgb :: rgb in table ==> 1 <= count <= |pal| && table[rgb] == Closest(rgb, pal, count)
  }

  /** One pixel of `load`: a colour already in the memo table is looked up,
      any other is scanned and then recorded. */
  method LookupOrScan(rgb: Rgb, pal: seq<Rgb8>, count: nat, table: map<Rgb, Color>)
    returns (color: Color, table': map<Rgb, Color>)
    requires 1 <= count <= |pal| && count <= 0x100
    requires MemoSound(table, pal, count)
    ensures color < count
    ensures color == Closest(rgb, pal, count)
    ensures MemoSound(table', pal, count)
    ensures table'.Keys == table.Keys + {rgb}
  {
    if rgb in table {
      color, table' := table[rgb], table;
    } else {
      color := FindClosest(rgb, pal, count);
      table' := table[rgb := color];
    }
  }

  /** Appending the nearest index of pixel `j` to the nearest indices of
      pixels 0 .. j-1 gives those of pixels 0 .. j. */
  lemma RowStep(row: seq<Color>, color: Color, pixels: seq<Rgb>, pal: seq<Rgb8>, count: nat, j: nat)
    requires 1 <= count <= |pal|
    requires |row| == j < |pixels|
    requires forall b :: 0 <= b < j ==> row[b] == Closest(pixels[b], pal, count)
    requires color == Closest(pixels[j], pal, count)
    ensures forall b :: 0 <= b < j + 1 ==> (row + [color])[b] == Closest(pixels[b], pal, count)
  {
  }

  /** The inner loop of `load`: the pixels of one row, left to right. */
  method QuantizeRow(pixels: seq<Rgb>, pal: seq<Rgb8>, count: nat, table: map<Rgb, Color>)
    returns (row: seq<Color>, table': map<Rgb, Color>)
    requires |pixels| == 0 || (1 <= count <= |pal| && count <= 0x100)
    requires MemoSound(table, pal, count)
    ensures |row| == |pixels|
    ensures forall b :: 0 <= b < |pixels| ==> row[b] == Closest(pixels[b], pal, count)
    ensures MemoSound(table', pal, count)
    ensures forall rgb :: rgb in table' <==> rgb in table || rgb in pixels
  {
    row := [];
    table' := table;
    var j := 0;
    while j < |pixels|
      invariant 0 <= j <= |pixels|
      invariant |row| == j
      invariant forall b :: 0 <= b < j ==> row[b] == Closest(pixels[b], pal, count)
      invariant MemoSound(table', pal, count)
      invariant forall rgb :: rgb in table' <==> rgb in table || rgb in pixels[..j]
    {
      assert pixels[..j + 1] == pixels[..j] + [pixels[j]];
      var color;
      color, table' := LookupOrScan(pixels[j], pal, count, table');
      RowStep(row, color, pixels, pal, count, j);
      row := row + [color];
      j := j + 1;
    }
  }

  /** Appending the nearest indices of row `i` to those of rows 0 .. i-1
      gives those of rows 0 .. i. */
  lemma GridStep(src: RgbImage, pal: seq<Rgb8>, count: nat, cells: seq<seq<Color>>, row: seq<Color>, i: nat)
    requires ValidRgb(src) && Quantizable(src, pal, count)
    requires |cells| == i < src.height
    requires forall a :: 0 <= a < i ==> |cells[a]| == src.width
    requires forall a, b :: 0 <= a < i && 0 <= b < src.width ==>
      cells[a][b] == Closest(src.pixels[a][b], pal, count)
    requires |row| == src.width
    requires forall b :: 0 <= b < src.width ==> row[b] == Closest(src.pixels[i][b], pal, count)
    ensures forall a :: 0 <= a < i + 1 ==> |(cells + [row])[a]| == src.width
    ensures forall a, b :: 0 <= a < i + 1 && 0 <= b < src.width ==>
      (cells + [row])[a][b] == Closest(src.pixels[a][b], pal, count)
  {
  }

  /** A table holding the colours of rows 0 .. i-1, extended by those of
      row `i`, holds the colours of rows 0 .. i. */
  lemma KeysStep(src: RgbImage, table: map<Rgb, Color>, table': map<Rgb, Color>, i: nat)
    requires ValidRgb(src) && i < src.height
    requires forall rgb :: rgb in table <==>
      exists a, b :: 0 <= a < i && 0 <= b < src.width && src.pixels[a][b] == rgb
    requires forall rgb :: rgb in table' <==> rgb in table || rgb in src.pixels[i]
    ensures forall rgb :: rgb in table' <==>
      exists a, b :: 0 <= a < i + 1 && 0 <= b < src.width && src.pixels[a][b] == rgb
  {
    forall rgb
      ensures rgb in table' <==>
        exists a, b :: 0 <= a < i + 1 && 0 <= b < src.width && src.pixels[a][b] == rgb
    {
      if rgb in src.pixels[i] {
        var b :| 0 <= b < |src.pixels[i]| && src.pixels[i][b] == rgb;
        assert src.pixels[i][b] == rgb;
      }
    }
  }

  /** The pixel loop of `load`, row by row. The result is the memo-free
      quantised grid, and the table ends up holding exactly the colours of
      the image. */
  method QuantizePixels(src: RgbImage, pal: seq<Rgb8>, count: nat)
    returns (cells: seq<seq<Color>>, table: map<Rgb, Color>)
    requires ValidRgb(src)
    requires Quantizable(src, pal, count)
    ensures |cells| == src.height
    ensures cells == Quantized(src, pal, count).data
    ensures MemoSound(table, pal, count)
    ensures forall rgb :: rgb in table <==> exists i, j :: 0 <= i < src.height && 0 <= j < src.width && src.pixels[i][j] == rgb
  {
    cells := [];
    table := map[];
    var i := 0;
    while i < src.height
      invariant 0 <= i <= src.height
      invariant |cells| == i
      invariant forall a :: 0 <= a < i ==> |cells[a]| == src.width
      invariant forall a, b :: 0 <= a < i && 0 <= b < src.width ==>
        cells[a][b] == Closest(src.pixels[a][b], pal, count)
      invariant MemoSound(table, pal, count)
      invariant forall rgb :: rgb in table <==> exists a, b :: 0 <= a < i && 0 <= b < src.width && src.pixels[a][b] == rgb
    {
      var row;
      ghost var before := table;
      row, table := QuantizeRow(src.pixels[i], pal, count, table);
      GridStep(src, pal, count, cells, row, i);
      KeysStep(src, before, table, i);
      cells := cells + [row];
      i := i + 1;
    }
    QuantizedByCells(src, pal, count, cells);
  }

  /** `load` with the scan covering entries 0 .. count-1; the decoded grid
      becomes a new image that is copied opaquely into `img` at (x, y). A
      palette too short for the scan panics, and the panic comes before the
      only write to `img`. */
  method LoadScanning(img: Image, x: I32, y: I32, src: RgbImage, pal: seq<Rgb8>, count: nat, blt: Blitter)
    returns (r: Outcome<Image>)
    requires ValidRgb(src)
    requires 1 <= count <= 0x100
    ensures r.Panicked? <==> ScanPanics(src, pal, count)
    ensures r.Panicked? ==> r == Panicked(IndexOutOfBounds, img)
    ensures r.Done? ==> r.value == blt(img, x, y, Quantized(src, pal, count))
  {
    if ScanPanics(src, pal, count) {
      return Panicked(IndexOutOfBounds, img);
    }
    var cells, _ := QuantizePixels(src, pal, count);
    var dst := New(src.width, src.height).(data := cells);
    r := Done(blt(img, x, y, dst));
  }

  /** `load` as written: `for k in 0..=COLOR_COUNT` scans COLOR_COUNT + 1
      entries. */
  method LoadAsWritten(img: Image, x: I32, y: I32, src: RgbImage, pal: seq<Rgb8>, blt: Blitter)
    returns (r: Outcome<Image>)
    requires ValidRgb(src)
    ensures r.Panicked? <==> src.width > 0 && src.height > 0 && |pal| <= COLOR_COUNT
    ensures r.Panicked? ==> r == Panicked(IndexOutOfBounds, img)
    ensures r.Done? ==> r.value == blt(img, x, y, Quantized(src, pal, COLOR_COUNT + 1))
  {
    r := LoadScanning(img, x, y, src, pal, COLOR_COUNT + 1, blt);
  }

  /** `load` with the scan stopping at the last colour, `0..COLOR_COUNT`:
      a table of exactly COLOR_COUNT colours suffices and every index it
      yields is a colour of the palette. */
  method Load(img: Image, x: I32, y: I32, src: RgbImage, pal: seq<Rgb8>, blt: Blitter)
    returns (r: Outcome<Image>)
    requires ValidRgb(src)
    ensures r.Panicked? <==> src.width > 0 && src.height > 0 && |pal| < COLOR_COUNT
    ensures r.Panicked? ==> r == Panicked(IndexOutOfBounds, img)
    ensures r.Done? ==> r.value == blt(img, x, y, Quantized(src, pal, COLOR_COUNT))
    ensures r.Done? ==> forall i, j :: 0 <= i < src.height && 0 <= j < src.width ==>
      Quantized(src, pal, COLOR_COUNT).data[i][j] < COLOR_COUNT
  {
    r := LoadScanning(img, x, y, src, pal, COLOR_COUNT, blt);
  }

  /** A palette entry that matches the colour exactly, with no exact match
      before it, is the one chosen. */
  lemma ExactMatchWins(rgb: Rgb, pal: seq<Rgb8>, count: nat, k: nat)
    requires k < count <= |pal|
    requires Unpack(pal[k]) == rgb
    requires forall j :: 0 <= j < k ==> Unpack(pal[j]) != rgb
    ensures Closest(rgb, pal, count) == k
  {
    assert Distances(rgb, pal)[k] == 0;
  }

  /** A single white pixel against a table of COLOR_COUNT black entries
      followed by one white entry: the scan as written picks index
      COLOR_COUNT, which is not a colour of the palette (`pal`,
      `_palette_value` and drawing would index past it). */
  lemma AsWrittenYieldsIndexPastPalette(pal: seq<Rgb8>)
    requires pal == seq(COLOR_COUNT, _ => 0) + [0xFF_FFFF]
    ensures Closest(Rgb(255, 255, 255), pal, COLOR_COUNT + 1) == COLOR_COUNT
  {
    assert Unpack(pal[COLOR_COUNT]) == Rgb(255, 255, 255);
    assert Unpack(0) == Rgb(0, 0, 0);
    assert forall j :: 0 <= j < COLOR_COUNT ==> pal[j] == 0;
    ExactMatchWins(Rgb(255, 255, 255), pal, COLOR_COUNT + 1, COLOR_COUNT);
  }

  /** The scan as written panics on a table of exactly COLOR_COUNT colours,
      the size of the palette; the corrected scan does not. */
  lemma AsWrittenPanicsOnFullPalette(pal: seq<Rgb8>)
    requires |pal| == COLOR_COUNT
    ensures ScanPanics(RgbImage(1, 1, [[Rgb(0, 0, 0)]]), pal, COLOR_COUNT + 1)
    ensures !ScanPanics(RgbImage(1, 1, [[Rgb(0, 0, 0)]]), pal, COLOR_COUNT)
  {
  }

  /** Pure red against the table [black, red] quantises to index 1. */
  lemma RedScenario(pal: seq<Rgb8>)
    requires pal == [0x00_0000, 0xFF_0000]
    ensures Closest(Rgb(255, 0, 0), pal, 2) == 1
  {
    assert Unpack(pal[1]) == Rgb(255, 0, 0) by {
      assert pal[1] / 0x1_0000 == 255;
      assert pal[1] / 0x100 == 0xFF00;
    }
    assert Unpack(pal[0]) == Rgb(0, 0, 0);
    ExactMatchWins(Rgb(255, 0, 0), pal, 2, 1);
  }
}
