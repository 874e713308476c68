/**
 * The atlas export (`Textures::exportData`): every atlas's tiles as RGB565
 * pixels, its patches and its collider bits, then each object class's atlas,
 * packed into one byte array for the game as a list of fields. Each field is
 * written as its decimal value followed by ", "; the text and the clipboard
 * are not modelled, only the field values in order. The export only reads
 * the editor's state, so it works on views of the atlases, and on the
 * position of each class's atlas in the atlas list.
 */
module AtlasExport {
  import opened Arith
  import opened Bytes
  import opened Rgb
  import opened Geometry
  import opened Atlases
  import opened Objects

  datatype TilesetView = TilesetView(patches: seq<Vec2>, colliders: Option<seq<bool>>)

  datatype AtlasView = AtlasView(image: Image, tilesize: Vec2, tileset: Option<TilesetView>)

  // ---------------------------------------------------------------------------
  // Views of the editor's objects.

  /** An atlas as the export sees it. */
  function AtlasViewOf(a: Atlas): (v: AtlasView)
    reads a, a.tileset, if a.tileset == null then null else a.tileset.colliders
    ensures v.image == a.image && v.tilesize == a.tilesize && (v.tileset.None? <==> a.tileset == null)
    ensures a.tileset != null ==>
      v.tileset.value.patches == a.tileset.patches && (v.tileset.value.colliders.None? <==> a.tileset.colliders == null)
  {
    AtlasView(a.image, a.tilesize,
      if a.tileset == null then None
      else Some(TilesetView(a.tileset.patches,
        if a.tileset.colliders == null then None else Some(a.tileset.colliders[..]))))
  }

  /** Per class, `std::find(atlases, class->atlas) - begin`: its atlas's position, or the atlas count. */
  function ClassAtlases(atlases: seq<Atlas>, classes: seq<ObjectClass>): (ix: seq<nat>)
    reads classes
    ensures |ix| == |classes| && forall k :: 0 <= k < |classes| ==> ix[k] == IndexOf(atlases, classes[k].atlas)
  {
    seq(|classes|, k requires 0 <= k < |classes| reads classes => IndexOf(atlases, classes[k].atlas))
  }

  // ---------------------------------------------------------------------------
  // The grid.

  /**
   * An atlas the export can pack: a positive tile size, a decoded image, and
   * collider flags, when present, one per tile.
   */
  predicate Exportable(v: AtlasView)
  {
    v.tilesize.x > 0 && v.tilesize.y > 0 && WellFormed(v.image) &&
    (v.tileset.Some? && v.tileset.value.colliders.Some? ==>
      |v.tileset.value.colliders.value| == Columns(v.image, v.tilesize) * Rows(v.image, v.tilesize))
  }

  /** `atlas->width()`: tiles across. */
  function GridWidth(v: AtlasView): nat
    requires Exportable(v)
  {
    Columns(v.image, v.tilesize)
  }

  /** `nTiles`, `width() * height()`. */
  function TileCount(v: AtlasView): nat
    requires Exportable(v)
  {
    Columns(v.image, v.tilesize) * Rows(v.image, v.tilesize)
  }

  /** An atlas with a tile is at least one tile wide, so its image is not empty. */
  lemma TilesNeedWidth(v: AtlasView)
    requires Exportable(v) && TileCount(v) > 0
    ensures GridWidth(v) > 0 && v.image.width >= v.tilesize.x > 0
  {
    GridCountsWholeTiles(v.image, v.tilesize);
    MulMono(1, GridWidth(v), v.tilesize.x);
  }

  // ---------------------------------------------------------------------------
  // The pixels.

  /**
   * Where pixel (0, 0) of tile i is read: `i * tilesize.x % image.width` across
   * and `i * tilesize.x / image.width * tilesize.y` down.
   */
  function SampleOrigin(v: AtlasView, i: nat): Vec2
    requires Exportable(v) && i < TileCount(v)
  {
    TilesNeedWidth(v);
    var ts, w := v.tilesize, v.image.width;
    Vec2((i * ts.x) % w, (i * ts.x) / w * ts.y)
  }

  /** The colour exported for pixel (x, y) of tile i. */
  function Sample(v: AtlasView, i: nat, x: nat, y: nat): Color
    requires Exportable(v) && i < TileCount(v)
  {
    var o := SampleOrigin(v, i);
    GetPixel(v.image, o.x + x, o.y + y)
  }

  /** A row of a tile: each pixel as RGB565, high byte then low byte. */
  function RowPieces(v: AtlasView, i: nat, y: nat): (ps: seq<seq<Byte>>)
    requires Exportable(v) && i < TileCount(v)
    ensures |ps| == v.tilesize.x && forall x :: 0 <= x < |ps| ==> ps[x] == PixelBytes(Rgb565(Sample(v, i, x, y)))
  {
    seq(v.tilesize.x, x requires 0 <= x < v.tilesize.x => PixelBytes(Rgb565(Sample(v, i, x, y))))
  }

  function TilePieces(v: AtlasView, i: nat): (ps: seq<seq<Byte>>)
    requires Exportable(v) && i < TileCount(v)
    ensures |ps| == v.tilesize.y && forall y :: 0 <= y < |ps| ==> ps[y] == Concat(RowPieces(v, i, y))
  {
    seq(v.tilesize.y, y requires 0 <= y < v.tilesize.y => Concat(RowPieces(v, i, y)))
  }

  function PixelPieces(v: AtlasView): (ps: seq<seq<Byte>>)
    requires Exportable(v)
    ensures |ps| == TileCount(v) && forall i :: 0 <= i < |ps| ==> ps[i] == Concat(TilePieces(v, i))
  {
    seq(TileCount(v), i requires 0 <= i < TileCount(v) => Concat(TilePieces(v, i)))
  }

  /** Every tile in order, each row of a tile in order, each pixel of a row in order. */
  function PixelFields(v: AtlasView): seq<Byte>
    requires Exportable(v)
  {
    Concat(PixelPieces(v))
  }

  /** Every tile contributes 2 * tilesize.x * tilesize.y fields, every row of it 2 * tilesize.x. */
  lemma PixelWidths(v: AtlasView)
    requires Exportable(v)
    ensures forall i, y :: 0 <= i < TileCount(v) && 0 <= y < v.tilesize.y ==>
      |Concat(RowPieces(v, i, y))| == 2 * v.tilesize.x
    ensures forall i :: 0 <= i < TileCount(v) ==> |Concat(TilePieces(v, i))| == v.tilesize.y * (2 * v.tilesize.x)
    ensures |PixelFields(v)| == TileCount(v) * (v.tilesize.y * (2 * v.tilesize.x))
  {
    var row, tile := 2 * v.tilesize.x, v.tilesize.y * (2 * v.tilesize.x);
    forall i, y | 0 <= i < TileCount(v) && 0 <= y < v.tilesize.y
      ensures |Concat(RowPieces(v, i, y))| == row
    {
      ConcatUniformLength(RowPieces(v, i, y), 2);
    }
    forall i | 0 <= i < TileCount(v)
      ensures |Concat(TilePieces(v, i))| == tile
    {
      ConcatUniformLength(TilePieces(v, i), row);
    }
    ConcatUniformLength(PixelPieces(v), tile);
  }

  /**
   * Tiles in order, rows in order, pixels in order: byte b of pixel (x, y)
   * of tile i (0 the high byte of its RGB565 value, 1 the low) is the field
   * after i tiles' 2 * tilesize.x * tilesize.y fields, y rows' 2 * tilesize.x
   * fields and x pixels' 2.
   */
  lemma PixelOrder(v: AtlasView, i: nat, y: nat, x: nat, b: nat)
    requires Exportable(v) && i < TileCount(v) && y < v.tilesize.y && x < v.tilesize.x && b < 2
    ensures var row := 2 * v.tilesize.x; var k := Offset(i, v.tilesize.y * row, Offset(y, row, Offset(x, 2, b)));
      k < |PixelFields(v)| && PixelFields(v)[k] == PixelBytes(Rgb565(Sample(v, i, x, y)))[b]
  {
    var row := 2 * v.tilesize.x;
    PixelWidths(v);
    ConcatUniformAt(RowPieces(v, i, y), 2, x, b);
    ConcatUniformAt(TilePieces(v, i), row, y, Offset(x, 2, b));
    ConcatUniformAt(PixelPieces(v), v.tilesize.y * row, i, Offset(y, row, Offset(x, 2, b)));
  }

  /**
   * When the image is a whole number of tiles wide, tile i is read from its
   * place in the grid: column i mod width, row i div width.
   */
  lemma SampleOfWholeTiles(v: AtlasView, i: nat)
    requires Exportable(v) && i < TileCount(v) && v.image.width == GridWidth(v) * v.tilesize.x
    ensures SampleOrigin(v, i) == Vec2((i % GridWidth(v)) * v.tilesize.x, (i / GridWidth(v)) * v.tilesize.y)
  {
    TilesNeedWidth(v);
    var w, tx := GridWidth(v), v.tilesize.x;
    var q, r := i / w, i % w;
    DivMod(i, w);
    assert i * tx == q * (w * tx) + r * tx;
    MulMono(r, w - 1, tx);
    MulMono(0, r, tx);
    DivModUnique(i * tx, w * tx, q, r * tx);
  }

  /**
   * Otherwise the reading drifts: in a 10×8 image of 4×4 tiles (2 across,
   * 2 down) tile 2 is the first of the second row, at (0, 4), but is read
   * from (8, 0), the leftover strip at the right of the first row.
   */
  lemma SampleSkewsOnPartialTiles()
    ensures var v := AtlasView(Image(10, 8, seq(80, _ => Transparent)), Vec2(4, 4), None);
      Exportable(v) && GridWidth(v) == 2 && TileCount(v) == 4 &&
      SampleOrigin(v, 2) == Vec2(8, 0) &&
      Vec2((2 % GridWidth(v)) * 4, (2 / GridWidth(v)) * 4) == Vec2(0, 4)
  {
    var v := AtlasView(Image(10, 8, seq(80, _ => Transparent)), Vec2(4, 4), None);
    assert Columns(v.image, v.tilesize) == 2 && Rows(v.image, v.tilesize) == 2;
  }

  // ---------------------------------------------------------------------------
  // Patches and colliders.

  /** Per patch `patch.x + patch.y * width() + 1`. */
  function PatchIds(ps: seq<Vec2>, w: int): (ids: seq<int>)
    ensures |ids| == |ps| && forall k :: 0 <= k < |ps| ==> ids[k] == ps[k].x + ps[k].y * w + 1
  {
    seq(|ps|, k requires 0 <= k < |ps| => ps[k].x + ps[k].y * w + 1)
  }

  /** A patch on the grid gets one more than its tile number, from which its column and row come back. */
  lemma PatchIdLocates(p: Vec2, w: nat)
    requires InRange(p.x, 0, w) && p.y >= 0
    ensures var id := PatchIds([p], w)[0]; id >= 1 && (id - 1) % w == p.x && (id - 1) / w == p.y
  {
    MulMono(0, p.y, w);
    IndexDecompose(p.x, p.y, w);
  }

  /** Tile k's collider flag as a bit: 0 past the last tile. */
  function Flag(cs: seq<bool>, k: nat): bv8
  {
    if k < |cs| && cs[k] then 1 else 0
  }

  /** Byte i with its first m bits set: `byte |= colliders[i * 8 + j] << j` for j below m. */
  function Packed(cs: seq<bool>, i: nat, m: nat): bv8
    requires m <= 8
  {
    if m == 0 then 0 else Packed(cs, i, m - 1) | (Flag(cs, i * 8 + m - 1) << (m - 1))
  }

  /** `tilesTotal / 8 + (tilesTotal % 8 != 0)`: bytes for n flags. */
  function ColliderCount(n: nat): (c: nat)
    ensures c * 8 - 8 < n <= c * 8
  {
    n / 8 + (if n % 8 != 0 then 1 else 0)
  }

  function ColliderBytes(cs: seq<bool>): (bs: seq<int>)
    ensures |bs| == ColliderCount(|cs|) && forall i :: 0 <= i < |bs| ==> bs[i] == Packed(cs, i, 8) as int
  {
    seq(ColliderCount(|cs|), i requires 0 <= i < ColliderCount(|cs|) => Packed(cs, i, 8) as int)
  }

  /** Bit j of an OR is the OR of the bits. */
  lemma OrBit(p: bv8, q: bv8, j: nat)
    requires j < 8
    ensures ((p | q) >> j) & 1 == ((p >> j) & 1) | ((q >> j) & 1)
  {
  }

  /** A one-bit value shifted to bit s has bit j set only when j is s and the value is 1. */
  lemma ShiftedBit(f: bv8, s: nat, j: nat)
    requires (f == 0 || f == 1) && s < 8 && j < 8
    ensures ((f << s) >> j) & 1 == if j == s then f else 0
  {
  }

  /** Bit j of a byte packed up to m holds flag i*8+j below m, and nothing above. */
  lemma {:induction false} PackedBit(cs: seq<bool>, i: nat, m: nat, j: nat)
    requires m <= 8 && j < 8
    ensures (Packed(cs, i, m) >> j) & 1 == if j < m then Flag(cs, i * 8 + j) else 0
  {
    if m > 0 {
      PackedBit(cs, i, m - 1, j);
      var f := Flag(cs, i * 8 + m - 1);
      assert f == 0 || f == 1;
      OrBit(Packed(cs, i, m - 1), f << (m - 1), j);
      ShiftedBit(f, m - 1, j);
    }
  }

  /** Tile k's flag is bit k mod 8 of byte k div 8, lowest bit first. */
  lemma ColliderUnpacks(cs: seq<bool>, k: nat)
    requires k < |cs|
    ensures k / 8 < |ColliderBytes(cs)|
    ensures var b := Packed(cs, k / 8, 8); ColliderBytes(cs)[k / 8] == b as int && ((b >> (k % 8)) & 1 == 1 <==> cs[k])
  {
    PackedBit(cs, k / 8, 8, k % 8);
    assert (k / 8) * 8 + k % 8 == k;
  }

  /** The padding bits after the last tile are clear. */
  lemma ColliderPadding(cs: seq<bool>, i: nat, j: nat)
    requires j < 8 && i * 8 + j >= |cs|
    ensures (Packed(cs, i, 8) >> j) & 1 == 0
  {
    PackedBit(cs, i, 8, j);
  }

  /**
   * The tileset part: a 0, or a 1, the patch count and the patch numbers,
   * then a 0, or a 1 and the collider bytes.
   */
  function TilesetFields(v: AtlasView): seq<int>
    requires Exportable(v)
  {
    match v.tileset
    case None => [0]
    case Some(t) =>
      [1, |t.patches|] + PatchIds(t.patches, GridWidth(v)) +
      (match t.colliders case None => [0] case Some(cs) => [1] + ColliderBytes(cs))
  }

  /** An atlas: tile count, tile width and height, the pixels, then the tileset part. */
  function AtlasFields(v: AtlasView): seq<int>
    requires Exportable(v)
  {
    [TileCount(v), v.tilesize.x, v.tilesize.y] + PixelFields(v) + TilesetFields(v)
  }

  function AtlasPieces(vs: seq<AtlasView>): (ps: seq<seq<int>>)
    requires forall i :: 0 <= i < |vs| ==> Exportable(vs[i])
    ensures |ps| == |vs| && forall i :: 0 <= i < |vs| ==> ps[i] == AtlasFields(vs[i])
  {
    seq(|vs|, i requires 0 <= i < |vs| => AtlasFields(vs[i]))
  }

  function ClassPieces(ix: seq<int>): (ps: seq<seq<Byte>>)
    ensures |ps| == |ix| && forall k :: 0 <= k < |ix| ==> ps[k] == LeBytes(ix[k], 2)
  {
    seq(|ix|, k requires 0 <= k < |ix| => LeBytes(ix[k], 2))
  }

  /** The class part: the class count, then each class's atlas position, 2 bytes each. */
  function ClassFields(ix: seq<int>): seq<Byte>
  {
    LeBytes(|ix|, 2) + Concat(ClassPieces(ix))
  }

  /** The whole export: the atlas count (2 bytes), every atlas in order, then the class part. */
  function Export(vs: seq<AtlasView>, ix: seq<int>): seq<int>
    requires forall i :: 0 <= i < |vs| ==> Exportable(vs[i])
  {
    LeBytes(|vs|, 2) + Concat(AtlasPieces(vs)) + ClassFields(ix)
  }

  /**
   * Reading an atlas's fields back: the tile count and size, its pixels,
   * then the tileset flag; for a tileset the patch count, the patch numbers
   * and the collider flag.
   */
  lemma AtlasLayout(v: AtlasView)
    requires Exportable(v)
    ensures var f, n := AtlasFields(v), |PixelFields(v)|;
      |f| > 3 + n && f[..3] == [TileCount(v), v.tilesize.x, v.tilesize.y] &&
      f[3..3 + n] == PixelFields(v) &&
      f[3 + n] == (if v.tileset.Some? then 1 else 0) &&
      (v.tileset.Some? ==>
        var ps := v.tileset.value.patches;
        |f| > 5 + n + |ps| && f[4 + n] == |ps| && f[5 + n..5 + n + |ps|] == PatchIds(ps, GridWidth(v)) &&
        f[5 + n + |ps|] == (if v.tileset.value.colliders.Some? then 1 else 0))
  {
    var head: seq<int> := [TileCount(v), v.tilesize.x, v.tilesize.y];
    var px: seq<int> := PixelFields(v);
    var rest := TilesetFields(v);
    Split3(head, px, rest);
    if v.tileset.Some? {
      var t := v.tileset.value;
      var ids := PatchIds(t.patches, GridWidth(v));
      var tail: seq<int> := match t.colliders case None => [0] case Some(cs) => [1] + ColliderBytes(cs);
      assert rest == [1, |t.patches|] + ids + tail;
      Split3([1, |t.patches|], ids, tail);
      var f := head + px + rest;
      assert f[5 + |px|..5 + |px| + |ids|] == rest[2..2 + |ids|];
    }
  }

  /** The class part reads back as each class's atlas position modulo 2^16, in class order. */
  lemma ClassFieldsLayout(ix: seq<int>, k: nat)
    requires k < |ix|
    ensures var f := ClassFields(ix);
      |f| == 2 + 2 * |ix| && LeValue(f[..2]) == |ix| % 0x1_0000 && LeValue(f[2 + 2 * k..4 + 2 * k]) == ix[k] % 0x1_0000
  {
    var ps := ClassPieces(ix);
    var n := LeBytes(|ix|, 2);
    var body := Concat(ps);
    var f := ClassFields(ix);
    assert f == n + body;
    ConcatUniformLength(ps, 2);
    assert |f| == 2 + 2 * |ix|;
    ClassCountField(n, body, |ix|);
    ClassEntryField(ps, n, ix, k);
  }

  /** The first two bytes of the class part are the class count modulo 2^16. */
  lemma ClassCountField(n: seq<Byte>, body: seq<Byte>, count: nat)
    requires n == LeBytes(count, 2)
    ensures LeValue((n + body)[..2]) == count % 0x1_0000
  {
    SplitAt(n, body);
    LeValueOfLeBytes(count, 2);
    assert Pow256(2) == 0x1_0000;
  }

  /** Bytes 2 + 2k and 3 + 2k of the class part are class k's atlas position modulo 2^16. */
  lemma ClassEntryField(ps: seq<seq<Byte>>, n: seq<Byte>, ix: seq<int>, k: nat)
    requires ps == ClassPieces(ix) && |n| == 2 && k < |ix|
    ensures |Concat(ps)| == 2 * |ix| && LeValue((n + Concat(ps))[2 + 2 * k..4 + 2 * k]) == ix[k] % 0x1_0000
  {
    ConcatUniformLength(ps, 2);
    ConcatUniformSlice(ps, 2, k);
    assert Offset(k, 2, 0) == 2 * k && Offset(k, 2, 2) == 2 * k + 2;
    SliceAfter(n, Concat(ps), 2 * k, 2 * k + 2);
    assert (n + Concat(ps))[2 + 2 * k..4 + 2 * k] == LeBytes(ix[k], 2);
    LeValueOfLeBytes(ix[k], 2);
    assert Pow256(2) == 0x1_0000;
  }

  // ---------------------------------------------------------------------------
  // The packer.

  method ExportRow(v: AtlasView, i: nat, y: nat) returns (fields: seq<Byte>)
    requires Exportable(v) && i < TileCount(v)
    ensures fields == Concat(RowPieces(v, i, y))
  {
    TilesNeedWidth(v);
    ghost var ps := RowPieces(v, i, y);
    fields := [];
    for x := 0 to v.tilesize.x
      invariant fields == Concat(ps[..x])
    {
      var pixel := Rgb565(GetPixel(v.image, (i * v.tilesize.x) % v.image.width + x,
                                   (i * v.tilesize.x) / v.image.width * v.tilesize.y + y));
      ConcatSnoc(ps[..x], ps[x]);
      TakeSnoc(ps, x);
      fields := fields + [pixel / 256, pixel % 256];
    }
    TakeAll(ps);
  }

  method ExportTile(v: AtlasView, i: nat) returns (fields: seq<Byte>)
    requires Exportable(v) && i < TileCount(v)
    ensures fields == Concat(TilePieces(v, i))
  {
    ghost var ps := TilePieces(v, i);
    fields := [];
    for y := 0 to v.tilesize.y
      invariant fields == Concat(ps[..y])
    {
      var row := ExportRow(v, i, y);
      ConcatSnoc(ps[..y], ps[y]);
      TakeSnoc(ps, y);
      fields := fields + row;
    }
    TakeAll(ps);
  }

  method ExportPixels(v: AtlasView) returns (fields: seq<Byte>)
    requires Exportable(v)
    ensures fields == PixelFields(v)
  {
    ghost var ps := PixelPieces(v);
    var nTiles := Columns(v.image, v.tilesize) * Rows(v.image, v.tilesize);
    fields := [];
    for i := 0 to nTiles
      invariant fields == Concat(ps[..i])
    {
      var tile := ExportTile(v, i);
      ConcatSnoc(ps[..i], ps[i]);
      TakeSnoc(ps, i);
      fields := fields + tile;
    }
    TakeAll(ps);
  }

  /** Packing one more bit ORs flag i*8+m in at bit m. */
  lemma PackedStep(cs: seq<bool>, i: nat, m: nat)
    requires m < 8
    ensures Packed(cs, i, m + 1) == Packed(cs, i, m) | (Flag(cs, i * 8 + m) << m)
  {
    assert i * 8 + (m + 1) - 1 == i * 8 + m;
  }

  /** ORing in a clear bit changes nothing. */
  lemma OrClearBit(p: bv8, m: nat)
    requires m < 8
    ensures p | (0 << m) == p
  {
    if m == 0 { } else if m == 1 { } else if m == 2 { } else if m == 3 { }
    else if m == 4 { } else if m == 5 { } else if m == 6 { } else { }
  }

  /** One collider byte: flag i*8+j, while there is one, ORed in at bit j. */
  method PackByte(cs: seq<bool>, i: nat) returns (byte: bv8)
    ensures byte == Packed(cs, i, 8)
  {
    byte := 0;
    for j := 0 to 8
      invariant byte == Packed(cs, i, j)
    {
      PackedStep(cs, i, j);
      if i * 8 + j < |cs| {
        // Flag(cs, i * 8 + j) is colliders[i * 8 + j] as a bit
        byte := byte | (Flag(cs, i * 8 + j) << j);
      } else {
        assert Flag(cs, i * 8 + j) == 0;
        OrClearBit(byte, j);
      }
    }
  }

  method ExportColliders(cs: seq<bool>) returns (fields: seq<int>)
    ensures fields == ColliderBytes(cs)
  {
    var tilesTotal := |cs|;
    fields := [];
    for i := 0 to tilesTotal / 8 + (if tilesTotal % 8 != 0 then 1 else 0)
      invariant |fields| == i && forall k :: 0 <= k < i ==> fields[k] == Packed(cs, k, 8) as int
    {
      var byte := PackByte(cs, i);
      fields := fields + [byte as int];
    }
  }

  method ExportTileset(v: AtlasView) returns (fields: seq<int>)
    requires Exportable(v)
    ensures fields == TilesetFields(v)
  {
    if v.tileset.None? {
      return [0];
    }
    var t := v.tileset.value;
    var w := Columns(v.image, v.tilesize);
    fields := [1, |t.patches|];
    ghost var head := fields;
    for k := 0 to |t.patches|
      invariant fields == head + PatchIds(t.patches[..k], w)
    {
      var p := t.patches[k];
      assert PatchIds(t.patches[..k + 1], w) == PatchIds(t.patches[..k], w) + [p.x + p.y * w + 1];
      fields := fields + [p.x + p.y * w + 1];
    }
    TakeAll(t.patches);
    if t.colliders.None? {
      fields := fields + [0];
    } else {
      var bytes := ExportColliders(t.colliders.value);
      fields := fields + ([1] + bytes);
    }
  }

  method ExportAtlas(v: AtlasView) returns (fields: seq<int>)
    requires Exportable(v)
    ensures fields == AtlasFields(v)
  {
    var nTiles := Columns(v.image, v.tilesize) * Rows(v.image, v.tilesize);
    var pixels := ExportPixels(v);
    var tileset := ExportTileset(v);
    fields := [nTiles, v.tilesize.x, v.tilesize.y] + pixels + tileset;
  }

  /** The atlas count, then each atlas in list order. */
  method ExportAtlases(vs: seq<AtlasView>) returns (data: seq<int>)
    requires forall i :: 0 <= i < |vs| ==> Exportable(vs[i])
    ensures data == LeBytes(|vs|, 2) + Concat(AtlasPieces(vs))
  {
    ghost var ps := AtlasPieces(vs);
    var count := IntToBytes(|vs|, 2);
    data := count;
    for i := 0 to |vs|
      invariant data == count + Concat(ps[..i])
    {
      var one := ExportAtlas(vs[i]);
      ConcatSnoc(ps[..i], ps[i]);
      TakeSnoc(ps, i);
      ConcatAssoc(count, Concat(ps[..i]), one);
      data := data + one;
    }
    TakeAll(ps);
  }

  /** The class count, then each class's atlas position. */
  method ExportClasses(ix: seq<int>) returns (data: seq<Byte>)
    ensures data == ClassFields(ix)
  {
    ghost var cs := ClassPieces(ix);
    var classCount := IntToBytes(|ix|, 2);
    data := classCount;
    for k := 0 to |ix|
      invariant data == classCount + Concat(cs[..k])
    {
      var one := IntToBytes(ix[k], 2);
      ConcatSnoc(cs[..k], cs[k]);
      TakeSnoc(cs, k);
      ConcatAssoc(classCount, Concat(cs[..k]), one);
      data := data + one;
    }
    TakeAll(cs);
  }

  /** `exportData`: the atlas part, then the class part. */
  method ExportData(vs: seq<AtlasView>, ix: seq<int>) returns (data: seq<int>)
    requires forall i :: 0 <= i < |vs| ==> Exportable(vs[i])
    ensures data == Export(vs, ix)
  {
    var atlases := ExportAtlases(vs);
    var classes := ExportClasses(ix);
    data := atlases + classes;
  }
}
