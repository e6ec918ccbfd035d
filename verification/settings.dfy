/** Engine-wide constants and the primitive integer types of the engine. */
module Settings {

  /** Number of colours in the palette (the engine's `COLOR_COUNT`). */
  const COLOR_COUNT: nat := 16

  /** Number of music channels (the engine's `CHANNEL_COUNT`). */
  const CHANNEL_COUNT: nat := 4

  /** Rust `u8`: a palette colour index as stored in an image cell. */
  type Color = c: int | 0 <= c < 0x100

  /** Rust `u32`. */
  type U32 = n: int | 0 <= n < 0x1_0000_0000

  /** Rust `i32`. */
  type I32 = n: int | -0x8000_0000 <= n < 0x8000_0000

  /** A packed true colour `0xRRGGBB` (Rust `u32`). */
  type Rgb8 = U32
}
