/**
 * RGB565 pixel packing used by the atlas export, with the reserved
 * transparency key 0xF81F (magenta). Shifts and masks on the unsigned 16-bit
 * value are written as the divisions, remainders and products they amount to
 * on non-negative integers: `x >> k` is `x / 2^k`, `x << k` is `x * 2^k`, and
 * `|` of fields that do not overlap is their sum.
 */
module Rgb {
  import opened Arith
  import opened Bytes

  type U16 = n: int | 0 <= n < 0x1_0000

  /** An RGBA pixel with 8-bit channels, as the image library hands it out. */
  datatype Color = Color(r: Byte, g: Byte, b: Byte, a: Byte)

  /** The library's fully transparent colour. */
  const Transparent := Color(0, 0, 0, 0)

  const TransparencyKey: U16 := 0xF81F

  /** The red field (bits 11-15), the green field (bits 5-10) and the blue field (bits 0-4). */
  function RedField(p: U16): int { p / 2048 }
  function GreenField(p: U16): int { (p / 32) % 64 }
  function BlueField(p: U16): int { p % 32 }

  /**
   * `rgb565(MvColor)`: any pixel with alpha below 128 becomes the key; an opaque
   * pixel keeps the top 5, 6 and 5 bits of red, green and blue, each in its own field.
   */
  function Rgb565(c: Color): (p: U16)
    ensures c.a < 128 ==> p == TransparencyKey
    ensures c.a >= 128 ==> RedField(p) == c.r / 8 && GreenField(p) == c.g / 4 && BlueField(p) == c.b / 8
  {
    if c.a < 128 then TransparencyKey
    else
      var r, g, b := c.r / 8, c.g / 4, c.b / 8;
      Fields(r, g, b);
      r * 2048 + g * 32 + b
  }

  /** Three fields of 5, 6 and 5 bits packed side by side come apart again. */
  lemma Fields(r: int, g: int, b: int)
    requires 0 <= r < 32 && 0 <= g < 64 && 0 <= b < 32
    ensures 0 <= r * 2048 + g * 32 + b < 0x1_0000
    ensures (r * 2048 + g * 32 + b) / 2048 == r
    ensures ((r * 2048 + g * 32 + b) / 32) % 64 == g
    ensures (r * 2048 + g * 32 + b) % 32 == b
  {
    var p := r * 2048 + g * 32 + b;
    DivModUnique(p, 2048, r, g * 32 + b);
    DivModUnique(p, 32, r * 64 + g, b);
    DivModUnique(r * 64 + g, 64, r, g);
  }

  /**
   * `rgb565(uint16_t)`: the key decodes to transparent; anything else to an
   * opaque colour whose channels are the fields moved back to the top of a byte
   * (`(p & 0xF800) >> 8`, `(p & 0x07E0) >> 3`, `(p & 0x001F) << 3`).
   */
  function ColorOf565(p: U16): Color
  {
    if p == TransparencyKey then Transparent
    else Color(RedField(p) * 8, GreenField(p) * 4, BlueField(p) * 8, 255)
  }

  /** Every translucent pixel packs to the key, whatever its colour channels, and reads back transparent. */
  lemma TranslucentIsKey(c: Color)
    requires c.a < 128
    ensures ColorOf565(Rgb565(c)) == Transparent
  {
  }

  /** An opaque pixel that does not collide with the key survives packing with its low bits cleared. */
  lemma Rgb565RoundTrip(c: Color)
    requires c.a >= 128 && Rgb565(c) != TransparencyKey
    ensures ColorOf565(Rgb565(c)) == Color(c.r - c.r % 8, c.g - c.g % 4, c.b - c.b % 8, 255)
  {
  }

  /** Packing an opaque colour already on the 5-6-5 grid, then unpacking it, is the identity. */
  lemma Rgb565OfGrid(c: Color)
    requires c.a == 255 && c.r % 8 == 0 && c.g % 4 == 0 && c.b % 8 == 0
    requires Rgb565(c) != TransparencyKey
    ensures ColorOf565(Rgb565(c)) == c
  {
    Rgb565RoundTrip(c);
  }

  /** Unpacking any non-key value, then packing, gives that value back. */
  lemma ColorOf565RoundTrip(p: U16)
    requires p != TransparencyKey
    ensures Rgb565(ColorOf565(p)) == p
  {
    var c := ColorOf565(p);
    DivModUnique(p, 2048, RedField(p), p % 2048);
    DivModUnique(p % 2048, 32, GreenField(p), BlueField(p)) by {
      DivModUnique(p, 32, p / 32, p % 32);
      DivModUnique(p / 32, 64, p / 2048, (p / 32) % 64) by {
        DivDiv(p, 32, 64);
      }
    }
    Fields(RedField(p), GreenField(p), BlueField(p));
  }

  /** Opaque magenta packs to the key itself, so it reads back as transparent. */
  lemma OpaqueMagentaCollides()
    ensures Rgb565(Color(0xF8, 0, 0xF8, 255)) == TransparencyKey
    ensures ColorOf565(Rgb565(Color(0xFF, 0x03, 0xFF, 255))) == Transparent
  {
  }

  /** The export emits a pixel as its high byte then its low byte. */
  function PixelBytes(p: U16): (bs: seq<Byte>)
    ensures |bs| == 2 && (bs[0] as int) * 256 + bs[1] as int == p
  {
    [p / 256, p % 256]
  }
}
