/**
 * Integer vectors, the empty-tile sentinel, the half-open range tests of the
 * math library and the RGBA image the editor draws from.
 */
module Geometry {
  import opened Bytes
  import opened Rgb

  datatype Option<T> = None | Some(value: T)

  /** `vec2i`: a pair of 32-bit ints. */
  datatype Vec2 = Vec2(x: int, y: int)

  /** `vec2i(-1)`: both components -1; marks an empty cell and "no patch". */
  const Empty := Vec2(-1, -1)

  /** `inRange(v, lo, hi)`: lo <= v < hi. */
  predicate InRange(v: int, lo: int, hi: int) { lo <= v < hi }

  /** `inRangeW(v, s, w)`: s <= v < s + w. */
  predicate InRangeW(v: int, s: int, w: int) { s <= v < s + w }

  predicate IsInt32Vec(v: Vec2) { IsInt32(v.x) && IsInt32(v.y) }

  /** A decoded image: width × height pixels in row-major order. */
  datatype Image = Image(width: nat, height: nat, pixels: seq<Color>)

  predicate WellFormed(img: Image) { |img.pixels| == img.width * img.height }

  /**
   * `MvImage::getPixel`. What the library returns for a position outside the
   * image is not known; the model answers transparent there.
   */
  function GetPixel(img: Image, x: int, y: int): Color
    requires WellFormed(img)
  {
    if InRange(x, 0, img.width) && InRange(y, 0, img.height) then
      var k := x + y * img.width;
      Arith.IndexInGrid(x, y, img.width, img.height);
      img.pixels[k]
    else Transparent
  }

  /** The 8 bytes of a `vec2i` in memory: x then y, each 4 bytes little-endian. */
  function Vec2Bytes(v: Vec2): (bs: seq<Byte>)
    ensures |bs| == 8
  {
    LeBytes(v.x, 4) + LeBytes(v.y, 4)
  }

  /** Reading a `vec2i` back: two 32-bit fields, each reinterpreted as a signed int. */
  function ReadVec2(f: seq<Byte>): (Vec2, seq<Byte>)
  {
    var x := GetN(f, 4);
    var y := GetN(x.1, 4);
    (Vec2(ToInt32(x.0), ToInt32(y.0)), y.1)
  }

  lemma ReadVec2OfBytes(v: Vec2, t: seq<Byte>)
    requires IsInt32Vec(v)
    ensures ReadVec2(Vec2Bytes(v) + t) == (v, t)
  {
    assert Vec2Bytes(v) + t == LeBytes(v.x, 4) + (LeBytes(v.y, 4) + t);
    GetNOfLeBytes(v.x, 4, LeBytes(v.y, 4) + t);
    GetNOfLeBytes(v.y, 4, t);
    ToInt32OfTruncated(v.x);
    ToInt32OfTruncated(v.y);
  }

  /** An array of `vec2i` as raw bytes. */
  function Vec2sBytes(vs: seq<Vec2>): (bs: seq<Byte>)
    ensures |bs| == 8 * |vs|
  {
    if vs == [] then [] else Vec2Bytes(vs[0]) + Vec2sBytes(vs[1..])
  }

  /** `fread` of n `vec2i` values. */
  function ReadVec2s(f: seq<Byte>, n: nat): (r: (seq<Vec2>, seq<Byte>))
    ensures |r.0| == n
  {
    if n == 0 then ([], f)
    else
      var first := ReadVec2(f);
      var rest := ReadVec2s(first.1, n - 1);
      ([first.0] + rest.0, rest.1)
  }

  /** Raw `vec2i` arrays read back as written. */
  lemma {:induction false} ReadVec2sRoundTrip(vs: seq<Vec2>, t: seq<Byte>)
    requires forall i :: 0 <= i < |vs| ==> IsInt32Vec(vs[i])
    ensures ReadVec2s(Vec2sBytes(vs) + t, |vs|) == (vs, t)
  {
    if vs != [] {
      assert Vec2sBytes(vs) + t == Vec2Bytes(vs[0]) + (Vec2sBytes(vs[1..]) + t);
      ReadVec2OfBytes(vs[0], Vec2sBytes(vs[1..]) + t);
      ReadVec2sRoundTrip(vs[1..], t);
      assert [vs[0]] + vs[1..] == vs;
    } else {
      assert Vec2sBytes(vs) + t == t;
    }
  }
}
