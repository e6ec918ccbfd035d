/** The colour-indexed image: its pixel grid, palette-substitution table and
    the two rectangles every drawing primitive clips against. */
module Images {
  import opened Settings
  import opened Outcomes
  import opened Rects

  datatype Image = Image(
    width: U32,
    height: U32,
    data: seq<seq<Color>>,     // `height` rows of `width` cells, row-major
    palette: seq<Color>,       // logical colour -> substituted colour
    selfRect: RectArea,
    clipRect: RectArea)

  /** `data` is a dense `height` x `width` grid, the palette has one entry
      per colour, and the self rectangle is the image's bounds (it is set
      once by `new` and nothing writes it afterwards; the clip rectangle, by
      contrast, is handed out mutably to the drawing core). */
  ghost predicate Valid(img: Image) {
    && |img.data| == img.height
    && (forall i :: 0 <= i < |img.data| ==> |img.data[i]| == img.width)
    && |img.palette| == COLOR_COUNT
    && img.selfRect == Bounds(img.width, img.height)
  }

  /** Every logical colour maps to itself. */
  ghost predicate IdentityPalette(img: Image) {
    |img.palette| == COLOR_COUNT && forall i :: 0 <= i < COLOR_COUNT ==> img.palette[i] == i
  }

  /** The block-transfer primitive of the shared drawing core: copies the whole
      of a source image opaquely into the destination at (x, y). Its body is
      not part of this model; operations that end in a `blt` take it as a
      parameter. */
  type Blitter = (Image, I32, I32, Image) -> Image

  /** `Image::new`: a zero-filled grid whose palette is then reset to the
      identity and whose rectangles both cover the whole image. */
  function New(width: U32, height: U32): (r: Image)
    ensures Valid(r)
    ensures r.width == width && r.height == height
    ensures forall i, j :: 0 <= i < height && 0 <= j < width ==> r.data[i][j] == 0
    ensures IdentityPalette(r)
    ensures r.selfRect == r.clipRect
    ensures forall x, y :: r.selfRect.Contains(x, y) <==> 0 <= x < width && 0 <= y < height
  {
    var zeroed := Image(
      width, height,
      seq(height, _ => seq(width, _ => 0)),
      seq(COLOR_COUNT, _ => 0),
      Bounds(width, height),
      Bounds(width, height));
    ResetPal(zeroed)
  }

  /** `pal`: substitute `col2` for logical colour `col1`. Indexing the
      palette with `col1 >= COLOR_COUNT` panics before anything is written. */
  function Pal(img: Image, col1: Color, col2: Color): (r: Outcome<Image>)
    requires Valid(img)
    ensures r.Done? <==> col1 < COLOR_COUNT
    ensures r.Panicked? ==> r == Panicked(IndexOutOfBounds, img)
    ensures Valid(r.After())
    ensures r.Done? ==> r.value.palette[col1] == col2
    ensures forall i :: 0 <= i < COLOR_COUNT && i != col1 ==> r.After().palette[i] == img.palette[i]
    ensures r.After().data == img.data
    ensures r.After().width == img.width && r.After().height == img.height
    ensures r.After().selfRect == img.selfRect && r.After().clipRect == img.clipRect
  {
    if col1 < COLOR_COUNT then Done(img.(palette := img.palette[col1 := col2]))
    else Panicked(IndexOutOfBounds, img)
  }

  /** `pal_`: reset every palette entry to the identity. */
  function ResetPal(img: Image): (r: Image)
    ensures IdentityPalette(r)
    ensures r.data == img.data && r.width == img.width && r.height == img.height
    ensures r.selfRect == img.selfRect && r.clipRect == img.clipRect
    ensures Valid(img) ==> Valid(r)
  {
    img.(palette := seq(COLOR_COUNT, i requires 0 <= i < COLOR_COUNT => i as Color))
  }

  /** `_palette_value`: the colour actually written for logical colour `val`.
      Indexing the palette with `val >= COLOR_COUNT` panics. */
  function PaletteValue(img: Image, val: Color): (r: Result<Color>)
    requires Valid(img)
    ensures r.Ok? <==> val < COLOR_COUNT
    ensures r.Err? ==> r.reason == IndexOutOfBounds
    ensures r.Ok? ==> r.value == img.palette[val]
  {
    if val < COLOR_COUNT then Ok(img.palette[val]) else Err(IndexOutOfBounds)
  }

  /** `_self_rect`: the image's own bounds, containing exactly its pixels. */
  function SelfRect(img: Image): (r: RectArea)
    requires Valid(img)
    ensures r.left == 0 && r.top == 0
    ensures forall x, y :: r.Contains(x, y) <==> 0 <= x < img.width && 0 <= y < img.height
  {
    img.selfRect
  }

  /** `_clip_rect`: the active drawing bounds. */
  function ClipRect(img: Image): RectArea {
    img.clipRect
  }

  /** After `pal(c1, c2)` drawing colour `c1` writes `c2`, and every other
      colour is substituted as before. */
  lemma PalThenPaletteValue(img: Image, c1: Color, c2: Color, v: Color)
    requires Valid(img)
    requires c1 < COLOR_COUNT
    ensures Pal(img, c1, c2).Done?
    ensures PaletteValue(Pal(img, c1, c2).value, v) == if v == c1 then Ok(c2) else PaletteValue(img, v)
  {
  }

  /** After `pal_` every colour is written as itself, whatever the palette
      held before; a value outside the palette still panics. */
  lemma ResetPalIsIdentity(img: Image, v: Color)
    requires Valid(img)
    ensures PaletteValue(ResetPal(img), v) == if v < COLOR_COUNT then Ok(v) else Err(IndexOutOfBounds)
  {
  }

  /** `pal_` is idempotent. */
  lemma ResetPalIdempotent(img: Image)
    ensures ResetPal(ResetPal(img)) == ResetPal(img)
  {
  }

  /** `pal_` undoes any earlier `pal`. */
  lemma ResetPalUndoesPal(img: Image, c1: Color, c2: Color)
    requires Valid(img)
    ensures ResetPal(Pal(img, c1, c2).After()) == ResetPal(img)
  {
  }

  /** Both rectangles of a new image are the whole image, anchored at the
      origin. */
  lemma NewRects(width: U32, height: U32)
    ensures SelfRect(New(width, height)) == ClipRect(New(width, height)) == RectArea(0, 0, width, height)
  {
  }
}
