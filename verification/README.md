# Pyxel image palette, pixel-art loading, colour quantisation and music container

A Dafny model of two pieces of the pyxel engine:

* the colour-indexed `Image` (`crates/engine/src/image.rs`): construction,
  the palette-substitution table (`pal`, `pal_`, `_palette_value`), the self
  and clip rectangles, bulk loading of a patch from rows of hexadecimal
  digits (`set`), and import of a decoded true-colour grid by nearest-colour
  quantisation with a memo table (`load`, `color_dist`);
* the `Music` container (`crates/pyxel-engine/src/music.rs`): a fixed array
  of one sound sequence per channel, `new` and `set`.

Modules: `Settings` (constants and integer types), `Outcomes` (how a call
that may panic ends), `Rects` (`RectArea`), `Images`, `PixelArt` (`set`),
`Quantize` (`load`), `Musics` (`Music`).

Modelling choices:

* A Rust panic is an `Outcome`: `Done(value)` or `Panicked(reason, state)`,
  where `state` is `self` as the panic leaves it. For `Image::set` and
  `Image::load` that is the untouched image; for `Music::set` with too few
  input sequences it is the music with the first channels already replaced.
* `blt` belongs to the shared drawing core, which is not part of this model.
  `set` and `load` end in one opaque `blt` of a temporary image; it is a
  function parameter (`Images.Blitter`) and nothing is assumed about it.
* `COLOR_COUNT = 16`, `CHANNEL_COUNT = 4`, `Color = u8` and `Rgb8 = u32`:
  the settings and types files are not part of this model. The channel count
  agrees with the unit test of `Music::set`. Contracts are stated in terms of
  the constants.
* `simplify_string` and `parse_hex_string` are not part of this model. They
  are taken to drop whitespace (space, tab, line feed, carriage return) and
  to map one hex digit (`0-9`, `a-f`, `A-F`) to 0..15.
* `color_dist` uses the weights 30, 59 and 11 in integers: exactly 10^4 times
  the real-valued distance, so it orders pairs of colours the same way.
* The quantisation scan takes its bound as a parameter: `COLOR_COUNT + 1`
  entries as written, `COLOR_COUNT` in the corrected `Quantize.Load` (see
  Findings).
* The palette has `COLOR_COUNT` entries (`[Color; COLOR_COUNT]`,
  `crates/engine/src/image.rs:16`), so `pal` and `_palette_value` panic on
  a colour from `COLOR_COUNT` up. A hex digit gives 0..15. An empty `data`
  panics at `data[0]` (`crates/engine/src/image.rs:56`) before the emptiness
  test.
* The self rectangle is written only by `new`, so `Images.Valid` includes
  "the self rectangle is the image's bounds". The clip rectangle is handed
  out mutably to the drawing core (`_clip_rect_mut`), so nothing is assumed
  about it.

## Model

| member | source | states |
|---|---|---|
| Rects.Bounds | crates/engine/src/image.rs:28-29 | the rectangle of a new surface contains exactly the points (x, y) with 0 <= x < width and 0 <= y < height |
| Images.New | crates/engine/src/image.rs:22-35 | a new image is a height x width grid of zeros with the identity palette, and its self and clip rectangles are equal and cover exactly the image |
| Images.NewRects | crates/engine/src/image.rs:174-180 | `_self_rect` and `_clip_rect` of a new image are both (0, 0, width, height) |
| Images.Pal | crates/engine/src/image.rs:45-47 | `pal(c1, c2)` succeeds exactly when c1 < COLOR_COUNT and then sets entry c1 to c2; every other entry, the pixels, the size and both rectangles are unchanged; an out-of-range c1 panics with the image untouched |
| Images.PaletteValue | crates/engine/src/image.rs:186-188 | `_palette_value(v)` succeeds exactly when v < COLOR_COUNT and then gives palette entry v; any other colour panics (index out of bounds) |
| Images.SelfRect | crates/engine/src/image.rs:174-176 | `_self_rect` is anchored at the origin and contains exactly the image's pixels |
| Images.PalThenPaletteValue | crates/engine/src/image.rs:186-188 | after `pal(c1, c2)`, `_palette_value(c1)` is c2 and every other colour gives what it gave before, a panic included |
| Images.ResetPal | crates/engine/src/image.rs:49-53 | `pal_` makes the palette the identity and changes nothing else |
| Images.ResetPalIsIdentity | crates/engine/src/image.rs:49-53 | after `pal_`, `_palette_value(v) == v` for every colour v < COLOR_COUNT, whatever the palette held before, and a larger v still panics |
| Images.ResetPalIdempotent | crates/engine/src/image.rs:49-53 | `pal_` twice is `pal_` once |
| Images.ResetPalUndoesPal | crates/engine/src/image.rs:45-53 | `pal_` after any `pal` gives the same image as `pal_` alone |
| PixelArt.Simplify | crates/engine/src/image.rs:67 | the simplified row is no longer than the row, holds no whitespace, and is the row itself when the row has none |
| PixelArt.SimplifyConcat | crates/engine/src/image.rs:67 | simplification distributes over concatenation |
| PixelArt.SimplifyKeeps | crates/engine/src/image.rs:67 | a character is in the simplified row exactly when it is in the row and is not whitespace |
| PixelArt.HexValue | crates/engine/src/image.rs:70 | a hex digit's value is below 16 |
| PixelArt.HexRoundTrip | crates/engine/src/image.rs:70 | every value below 16 prints as a digit that parses back to it, and every lower-case digit is how its value prints |
| PixelArt.ParseRow | crates/engine/src/image.rs:69-75 | a row yields `width` cells exactly when it is long enough and its first `width` characters are hex digits; cell j is the value of character j; the panic is "invalid image data" exactly when a non-digit comes before the end of the row, otherwise a slice out of range |
| PixelArt.ParseRows | crates/engine/src/image.rs:66-76 | the rows parse exactly when every simplified row does; the grid has one row per input row, `width` cells each, cell (i, j) the value of character j of simplified row i |
| PixelArt.Patch | crates/engine/src/image.rs:63-76 | the temporary image is width x height with the identity palette and cell (i, j) the value of character j of simplified row i |
| PixelArt.ParseAndBlit | crates/engine/src/image.rs:63-78 | the patch is copied into the image exactly when every row parses; a parse failure panics with the image untouched |
| PixelArt.Set | crates/engine/src/image.rs:55-79 | empty `data` panics (index out of bounds); an empty first row is a no-op; otherwise the call succeeds exactly when every simplified row yields as many digits as the raw first row is long, and then copies the patch; every panic leaves the image untouched |
| PixelArt.SetSimplifiedWidth | crates/engine/src/image.rs:55-79 | the corrected `set`: as `Set`, with the patch width taken from the simplified first row |
| PixelArt.ParseRowsSeesOnlySimplified | crates/engine/src/image.rs:66-67 | rows that simplify alike parse alike |
| PixelArt.SetSimplifiedWidthIgnoresWhitespace | crates/engine/src/image.rs:56-67 | with the corrected width, whitespace anywhere in the rows does not change the outcome |
| PixelArt.SpacedRowPanics | crates/engine/src/image.rs:56-70 | `set(0, 0, ["0 1"])` panics on a slice out of range with the image untouched |
| PixelArt.PlainRowLoads | crates/engine/src/image.rs:56-78 | `set(0, 0, ["01"])` succeeds |
| PixelArt.SpacedAndPlainAlike | crates/engine/src/image.rs:67 | "0 1" and "01" both simplify to "01", so the corrected `set` gives the same outcome for both |
| PixelArt.FirstRowWhitespacePanics | crates/engine/src/image.rs:56-70 | as written, "0 1" panics on a slice out of range while "01", which simplifies the same, succeeds; the corrected `set` treats both alike |
| PixelArt.SetDigitsScenario | crates/engine/src/image.rs:55-79 | the rows "012", "345", "678" load successfully |
| PixelArt.DigitPatch | crates/engine/src/image.rs:63-76 | the rows "012", "345", "678" are well formed for width 3 and make the 3 x 3 patch whose cell (i, j) is 3 * i + j |
| Quantize.PackUnpack | crates/engine/src/image.rs:119-123 | unpacking by shift and mask keeps the low three bytes of a packed colour |
| Quantize.UnpackPack | crates/engine/src/image.rs:119-123 | unpacking inverts packing |
| Quantize.ColorDist | crates/engine/src/image.rs:145-154 | the distance is zero exactly for equal colours and below the initial best distance of the scan |
| Quantize.ColorDistIsWeightedSquares | crates/engine/src/image.rs:145-154 | the distance is `dx * dx + dy * dy + dz * dz` with `dx`, `dy`, `dz` the red, green and blue differences weighted 30, 59 and 11 (the source's 0.30, 0.59, 0.11 scaled by 100) |
| Quantize.ColorDistSymmetric | crates/engine/src/image.rs:145-154 | the distance is symmetric |
| Quantize.ArgMin | crates/engine/src/image.rs:124-129 | keeping the first strictly smaller distance yields a position with no smaller distance among those scanned and a strictly larger distance at every earlier position |
| Quantize.ArgMinUnique | crates/engine/src/image.rs:124-129 | at most one position is least with the lowest-position tie-break, so the answer does not depend on how it is found |
| Quantize.Closest | crates/engine/src/image.rs:114-130 | the chosen entry is the nearest among the first `count`: its index is below `count`, no scanned entry is closer, and every earlier entry is strictly farther (ties go to the lowest index) |
| Quantize.FindClosest | crates/engine/src/image.rs:114-130 | the scan loop, starting from a best distance above every real one and replacing on a strictly smaller distance, returns the nearest entry |
| Quantize.ExactMatchWins | crates/engine/src/image.rs:124-129 | an entry equal to the colour, with no equal entry before it, is the one chosen |
| Quantize.Quantized | crates/engine/src/image.rs:102-136 | the quantised image, defined without a memo, has the source's size, the identity palette, and the nearest entry in every cell |
| Quantize.SameColourSameIndex | crates/engine/src/image.rs:111-133 | pixels of the same colour receive the same index |
| Quantize.QuantizedByCells | crates/engine/src/image.rs:106-136 | a grid of the source's shape holding the nearest entry in every cell is the quantised grid |
| Quantize.LookupOrScan | crates/engine/src/image.rs:111-133 | one pixel: the memo lookup or the fresh scan gives the nearest entry; the table stays sound and gains exactly that colour |
| Quantize.QuantizeRow | crates/engine/src/image.rs:107-135 | one row of pixels quantises to the nearest entries; the table stays sound and gains exactly the row's colours |
| Quantize.QuantizePixels | crates/engine/src/image.rs:104-136 | the memoised pixel loop produces exactly the memo-free quantised grid; every memo entry is the fresh scan result and the table's keys are exactly the image's colours |
| Quantize.LoadScanning | crates/engine/src/image.rs:99-139 | `load` panics exactly when there is a pixel and the palette table is shorter than the scan; the panic leaves the image untouched; otherwise the quantised image is copied in at (x, y) |
| Quantize.LoadAsWritten | crates/engine/src/image.rs:117-118 | as written, `load` panics whenever there is a pixel and the table has at most COLOR_COUNT entries |
| Quantize.Load | crates/engine/src/image.rs:99-139 | the corrected `load` needs only COLOR_COUNT entries and every index it writes is a palette colour (below COLOR_COUNT) |
| Quantize.AsWrittenYieldsIndexPastPalette | crates/engine/src/image.rs:117-133 | as written, a white pixel against COLOR_COUNT black entries and then a white one quantises to index COLOR_COUNT |
| Quantize.AsWrittenPanicsOnFullPalette | crates/engine/src/image.rs:117-118 | with exactly COLOR_COUNT table entries the scan as written panics and the corrected scan does not |
| Quantize.RedScenario | crates/engine/src/image.rs:114-130 | pure red against [black, red] quantises to index 1 |
| Musics.New | crates/pyxel-engine/src/music.rs:9-13 | a new music has exactly CHANNEL_COUNT channels, all empty |
| Musics.SetFrom | crates/pyxel-engine/src/music.rs:16-18 | the loop from channel i on: it completes exactly when it reaches the last channel without running past the input, replaces channels i.. with the input sequences it reaches, and panics (index out of bounds) otherwise |
| Musics.Set | crates/pyxel-engine/src/music.rs:15-19 | `set` completes exactly when there are at least CHANNEL_COUNT input sequences; channel c then holds input c; on a panic the channels with an input are already replaced and the rest unchanged; the channel count never changes |
| Musics.SetReplaces | crates/pyxel-engine/src/music.rs:17 | with enough input the music is exactly the first CHANNEL_COUNT input sequences, whatever it held before |
| Musics.SetIdempotent | crates/pyxel-engine/src/music.rs:17 | `set` twice with the same input is `set` once |
| Musics.SetIgnoresExtra | crates/pyxel-engine/src/music.rs:16-17 | input sequences beyond the last channel make no difference |
| Musics.SetScenario | crates/pyxel-engine/src/music.rs:36-43 | setting [[0,1,2],[1,2,3],[2,3,4],[3,4,5]] on a new music gives channel i the sequence [i, i+1, i+2] |

## Left out

- File decoding in `load` (`image::open(...).unwrap().to_rgb8()`): I/O. The model starts from a decoded RGB grid, so the panic on an unreadable file is not modelled.
- `blt` and the other drawing primitives of the shared core, `RectArea` beyond its constructor, and the tilemap: their source is not part of this model. `blt` is an opaque parameter.
- `bltm`, `text` and `save`: empty bodies in the source.
- `width()` and `height()`: plain field reads, visible as the datatype's fields.
- Images.ClipRect: returns the clip rectangle by value and carries no contract. Only the drawing core's `clip`, through `_clip_rect_mut`, writes that rectangle, and it is not part of this model. So nothing holds of it beyond a new image's value (Images.NewRects).
- The Python binding layer for tilemaps and the windowed demo application: host-language plumbing and an event loop.
- `HashMap` internals: the memo table is a Dafny `map`.
- Quantize.ColorDist: exact in integers, so rare `f64` rounding differences between nearly tied distances are not modelled.
- PixelArt.Set: requires the number of rows and each row's length to fit in `u32`, so the truncating `len() as u32` casts are not modelled.
- PixelArt.Set: characters are taken as bytes, so rows are assumed ASCII; a multi-byte character would change the byte length and could make a slice split a character.
- PixelArt.Simplify: any lower-casing done by `simplify_string` is not modelled; it does not change a hex digit's value.

## Findings

| source | as written | input that shows it | evidently intended | confidence | as-written member | corrected member |
|---|---|---|---|---|---|---|
| crates/engine/src/image.rs:117 | `for k in 0..=COLOR_COUNT` reads COLOR_COUNT + 1 palette colours | a table of exactly COLOR_COUNT colours panics on the first pixel (Quantize.AsWrittenPanicsOnFullPalette); with a 17th white entry, a white pixel becomes index 16, which is not a palette colour (Quantize.AsWrittenYieldsIndexPastPalette) | `for k in 0..COLOR_COUNT` | high; not executed | Quantize.LoadAsWritten | Quantize.Load |
| crates/engine/src/image.rs:56 | the patch width is the raw length of the first row, while the digits are read from the simplified rows | `set(x, y, ["0 1"])` is 3 wide but simplifies to "01", so reading digit 3 panics on a slice out of range (PixelArt.FirstRowWhitespacePanics) | the width of the simplified first row, so that whitespace is ignored everywhere (PixelArt.SetSimplifiedWidthIgnoresWhitespace) | medium; not executed | PixelArt.Set | PixelArt.SetSimplifiedWidth |
