/**
 * Auto-tiling of patches in the level editor: a cell showing a tile of a
 * 4×1 patch is drawn as four quadrants, and each quadrant picks one of the
 * patch's four columns from whether the cell's horizontal and vertical
 * neighbours on that quadrant's side show the same patch. Only the choice
 * of column and the source rectangle are modelled; where on screen the
 * quadrant lands (floating-point) is not.
 */
module AutoTile {
  import opened Arith
  import opened Bytes
  import opened Geometry
  import opened Atlases
  import opened Levels

  /** The current level, its atlas and that atlas's tileset all exist: what drawing a patch reads. */
  ghost predicate Drawable(level: Level)
    reads level, level.tileset
  {
    level.Valid() && level.tileset != null && level.tileset.tileset != null
  }

  /** `(int)level->width`: a size at or above 2^31 turns negative. */
  lemma SizeAsInt(n: nat)
    requires n < U32
    ensures ToInt32(n) <= n
    ensures n < 0x8000_0000 ==> ToInt32(n) == n
  {
    DivModUnique(n, U32, 0, n);
  }

  /** On the grid, `getTile` reads the row-major cell. */
  lemma GetTileOnGrid(level: Level, v: Vec2)
    requires level.Valid() && InRange(v.x, 0, level.width) && InRange(v.y, 0, level.height)
    ensures TileIndex(level.width, v) == Cell(v.x, v.y, level.width, level.height) < level.data.Length
    ensures level.GetTile(v) == level.data[Cell(v.x, v.y, level.width, level.height)]
  {
    TileIndexInGrid(level.width, level.height, v);
  }

  /**
   * `concatX`: the cell dir columns away is on the grid and shows the patch
   * that covers tile.
   */
  function ConcatX(level: Level, tile: Vec2, pos: Vec2, dir: int): (b: bool)
    reads level, level.data, level.tileset, level.tileset.tileset
    requires Drawable(level) && InRange(pos.y, 0, level.height)
    ensures b <==> (InRange(pos.x + dir, 0, ToInt32(level.width)) &&
      level.data[Cell(pos.x + dir, pos.y, level.width, level.height)] == PatchOf(level.tileset.tileset.patches, tile))
    ensures b ==> InRange(pos.x + dir, 0, level.width)
  {
    SizeAsInt(level.width);
    InRange(pos.x + dir, 0, ToInt32(level.width)) &&
      (GetTileOnGrid(level, Vec2(pos.x + dir, pos.y));
       level.GetTile(Vec2(pos.x + dir, pos.y)) == PatchOf(level.tileset.tileset.patches, tile))
  }

  /** `concatY`: the same test on the cell dir rows away. */
  function ConcatY(level: Level, tile: Vec2, pos: Vec2, dir: int): (b: bool)
    reads level, level.data, level.tileset, level.tileset.tileset
    requires Drawable(level) && InRange(pos.x, 0, level.width)
    ensures b <==> (InRange(pos.y + dir, 0, ToInt32(level.height)) &&
      level.data[Cell(pos.x, pos.y + dir, level.width, level.height)] == PatchOf(level.tileset.tileset.patches, tile))
    ensures b ==> InRange(pos.y + dir, 0, level.height)
  {
    SizeAsInt(level.height);
    InRange(pos.y + dir, 0, ToInt32(level.height)) &&
      (GetTileOnGrid(level, Vec2(pos.x, pos.y + dir));
       level.GetTile(Vec2(pos.x, pos.y + dir)) == PatchOf(level.tileset.tileset.patches, tile))
  }

  /**
   * The patch column a quadrant shows, from whether it joins its horizontal
   * (cx) and vertical (cy) neighbour: 0 inside a run in both directions,
   * 1 alone, 2 joined only horizontally, 3 joined only vertically.
   */
  function Column(cx: bool, cy: bool): (d: nat)
    ensures d < 4
    ensures d == 0 <==> cx && cy
  {
    if !cx then (if cy then 3 else 1) else if !cy then 2 else 0
  }

  /** The four neighbour situations map to four different columns. */
  lemma ColumnInjective(cx1: bool, cy1: bool, cx2: bool, cy2: bool)
    ensures Column(cx1, cy1) == Column(cx2, cy2) <==> cx1 == cx2 && cy1 == cy2
  {
  }

  /** Every column is chosen for some neighbour situation. */
  lemma ColumnOnto(d: nat)
    requires d < 4
    ensures exists cx: bool, cy: bool :: Column(cx, cy) == d
  {
    if d == 0 { assert Column(true, true) == 0; }
    else if d == 1 { assert Column(false, false) == 1; }
    else if d == 2 { assert Column(true, false) == 2; }
    else { assert Column(false, true) == 3; }
  }

  /** A quadrant: (0,0) top left, (1,0) top right, (0,1) bottom left, (1,1) bottom right. */
  predicate IsQuarter(q: Vec2) { InRange(q.x, 0, 2) && InRange(q.y, 0, 2) }

  /** `quater * 2 - 1`: the side a quadrant looks to, -1 for left/up and +1 for right/down. */
  function Delta(q: Vec2): (d: Vec2)
    requires IsQuarter(q)
    ensures d.x == (if q.x == 0 then -1 else 1) && d.y == (if q.y == 0 then -1 else 1)
  {
    Vec2(q.x * 2 - 1, q.y * 2 - 1)
  }

  /** A rectangle of the atlas image: its top-left corner and its size in pixels. */
  datatype Rect = Rect(origin: Vec2, size: Vec2)

  /** The grid cell is on the level. */
  predicate OnGrid(level: Level, pos: Vec2)
    reads level
  {
    InRange(pos.x, 0, level.width) && InRange(pos.y, 0, level.height)
  }

  /** The patch column quadrant q of the cell at pos shows. */
  function QuarterColumn(level: Level, tile: Vec2, pos: Vec2, q: Vec2): (d: nat)
    reads level, level.data, level.tileset, level.tileset.tileset
    requires Drawable(level) && OnGrid(level, pos) && IsQuarter(q)
    ensures d < 4
  {
    var delta := Delta(q);
    Column(ConcatX(level, tile, pos, delta.x), ConcatY(level, tile, pos, delta.y))
  }

  /**
   * `drawQuater`: the image area drawn for quadrant q, `(tile' * 2 + q) *
   * tilesize / 2` sized `tilesize / 2`, tile' being tile moved right by the
   * chosen column, with C++'s truncating division.
   */
  function QuarterSource(level: Level, tile: Vec2, pos: Vec2, q: Vec2): (r: Rect)
    reads level, level.data, level.tileset, level.tileset.tileset
    requires Drawable(level) && OnGrid(level, pos) && IsQuarter(q)
  {
    var ts := level.tileset.tilesize;
    var t := Vec2(tile.x + QuarterColumn(level, tile, pos, q), tile.y);
    Rect(Vec2(CDiv((t.x * 2 + q.x) * ts.x, 2), CDiv((t.y * 2 + q.y) * ts.y, 2)),
         Vec2(CDiv(ts.x, 2), CDiv(ts.y, 2)))
  }

  /** Halving `(2t + q) * s` for a non-negative tile and a positive size: t whole tiles and q half tiles. */
  lemma HalfStep(t: int, q: int, s: int)
    requires t >= 0 && IsQuarter(Vec2(q, 0)) && s > 0
    ensures CDiv((t * 2 + q) * s, 2) == t * s + (q * s) / 2
  {
    assert (t * 2 + q) * s == 2 * (t * s) + q * s;
    MulMono(0, t * 2 + q, s);
    CDivNonNegative((t * 2 + q) * s, 2);
    DivModUnique((t * 2 + q) * s, 2, t * s + (q * s) / 2, (q * s) % 2);
  }

  /**
   * For a positive tile size and a tile at non-negative coordinates the
   * source rectangle is quadrant q of the tile `column` places right of
   * tile: a half-tile offset for the right and bottom quadrants, half a tile
   * in size.
   */
  lemma QuarterSourceInTile(level: Level, tile: Vec2, pos: Vec2, q: Vec2)
    requires Drawable(level) && OnGrid(level, pos) && IsQuarter(q)
    requires level.tileset.tilesize.x > 0 && level.tileset.tilesize.y > 0 && tile.x >= 0 && tile.y >= 0
    ensures var ts, r, d := level.tileset.tilesize, QuarterSource(level, tile, pos, q), QuarterColumn(level, tile, pos, q);
      r.origin == Vec2((tile.x + d) * ts.x + (q.x * ts.x) / 2, tile.y * ts.y + (q.y * ts.y) / 2) &&
      r.size == Vec2(ts.x / 2, ts.y / 2)
  {
    var ts, d := level.tileset.tilesize, QuarterColumn(level, tile, pos, q);
    HalfStep(tile.x + d, q.x, ts.x);
    HalfStep(tile.y, q.y, ts.y);
  }

  /** The quadrants in the order `drawPatch` draws them. */
  const Quarters: seq<Vec2> := [Vec2(0, 0), Vec2(1, 0), Vec2(0, 1), Vec2(1, 1)]

  /**
   * `drawPatch`: the four quadrants' source rectangles in drawing order;
   * each comes from a column inside the four-tile run that starts at tile.
   */
  function DrawPatch(level: Level, tile: Vec2, pos: Vec2): (rs: seq<Rect>)
    reads level, level.data, level.tileset, level.tileset.tileset
    requires Drawable(level) && OnGrid(level, pos)
    ensures |rs| == 4
    ensures forall i :: 0 <= i < 4 ==> IsQuarter(Quarters[i]) && Covers(tile, Vec2(tile.x + QuarterColumn(level, tile, pos, Quarters[i]), tile.y))
  {
    [QuarterSource(level, tile, pos, Quarters[0]), QuarterSource(level, tile, pos, Quarters[1]),
     QuarterSource(level, tile, pos, Quarters[2]), QuarterSource(level, tile, pos, Quarters[3])]
  }

  /**
   * For a positive tile size and a tile at non-negative coordinates, the i-th
   * rectangle `drawPatch` draws is the i-th quadrant (top-left, top-right,
   * bottom-left, bottom-right) of the tile its column picks.
   */
  lemma DrawPatchQuadrants(level: Level, tile: Vec2, pos: Vec2)
    requires Drawable(level) && OnGrid(level, pos)
    requires level.tileset.tilesize.x > 0 && level.tileset.tilesize.y > 0 && tile.x >= 0 && tile.y >= 0
    ensures var ts, rs := level.tileset.tilesize, DrawPatch(level, tile, pos);
      forall i :: 0 <= i < 4 ==>
        var q, d := Quarters[i], QuarterColumn(level, tile, pos, Quarters[i]);
        rs[i].origin == Vec2((tile.x + d) * ts.x + (q.x * ts.x) / 2, tile.y * ts.y + (q.y * ts.y) / 2) &&
        rs[i].size == Vec2(ts.x / 2, ts.y / 2)
  {
    var ts, rs := level.tileset.tilesize, DrawPatch(level, tile, pos);
    forall i | 0 <= i < 4
      ensures var q, d := Quarters[i], QuarterColumn(level, tile, pos, Quarters[i]);
        rs[i].origin == Vec2((tile.x + d) * ts.x + (q.x * ts.x) / 2, tile.y * ts.y + (q.y * ts.y) / 2) &&
        rs[i].size == Vec2(ts.x / 2, ts.y / 2)
    {
      assert IsQuarter(Quarters[i]) && rs[i] == QuarterSource(level, tile, pos, Quarters[i]);
      QuarterSourceInTile(level, tile, pos, Quarters[i]);
    }
  }

  /** The cell at pos shows the patch that covers tile. */
  predicate Shows(level: Level, tile: Vec2, pos: Vec2)
    reads level, level.data, level.tileset, level.tileset.tileset
    requires Drawable(level) && OnGrid(level, pos)
  {
    level.data[Cell(pos.x, pos.y, level.width, level.height)] == PatchOf(level.tileset.tileset.patches, tile)
  }

  /** The level fits in a signed 32-bit width and height, as `(int)level->width` assumes. */
  predicate SignedSizes(level: Level)
    reads level
  {
    level.width < 0x8000_0000 && level.height < 0x8000_0000
  }

  /** The neighbours a quadrant looks at both show the patch: it uses column 0. */
  lemma JoinedQuarter(level: Level, tile: Vec2, pos: Vec2, q: Vec2)
    requires Drawable(level) && SignedSizes(level) && OnGrid(level, pos) && IsQuarter(q)
    requires var d := Delta(q);
      OnGrid(level, Vec2(pos.x + d.x, pos.y)) && Shows(level, tile, Vec2(pos.x + d.x, pos.y)) &&
      OnGrid(level, Vec2(pos.x, pos.y + d.y)) && Shows(level, tile, Vec2(pos.x, pos.y + d.y))
    ensures QuarterColumn(level, tile, pos, q) == 0
  {
    SizeAsInt(level.width);
    SizeAsInt(level.height);
  }

  /**
   * A cell with all four neighbours on the grid and showing the same patch
   * draws every quadrant from the patch's first column: the tile itself.
   */
  lemma InteriorUsesFirstColumn(level: Level, tile: Vec2, pos: Vec2)
    requires Drawable(level) && SignedSizes(level)
    requires InRange(pos.x, 1, level.width - 1) && InRange(pos.y, 1, level.height - 1)
    requires Shows(level, tile, Vec2(pos.x - 1, pos.y)) && Shows(level, tile, Vec2(pos.x + 1, pos.y))
    requires Shows(level, tile, Vec2(pos.x, pos.y - 1)) && Shows(level, tile, Vec2(pos.x, pos.y + 1))
    ensures forall i :: 0 <= i < 4 ==> QuarterColumn(level, tile, pos, Quarters[i]) == 0
  {
    JoinedQuarter(level, tile, pos, Quarters[0]);
    JoinedQuarter(level, tile, pos, Quarters[1]);
    JoinedQuarter(level, tile, pos, Quarters[2]);
    JoinedQuarter(level, tile, pos, Quarters[3]);
  }

  /**
   * A cell none of whose neighbours shows the patch (or that has none on the
   * grid) draws every quadrant from column 1, the stand-alone piece.
   */
  lemma IsolatedUsesSecondColumn(level: Level, tile: Vec2, pos: Vec2)
    requires Drawable(level) && OnGrid(level, pos)
    requires pos.x > 0 ==> !Shows(level, tile, Vec2(pos.x - 1, pos.y))
    requires pos.x + 1 < level.width ==> !Shows(level, tile, Vec2(pos.x + 1, pos.y))
    requires pos.y > 0 ==> !Shows(level, tile, Vec2(pos.x, pos.y - 1))
    requires pos.y + 1 < level.height ==> !Shows(level, tile, Vec2(pos.x, pos.y + 1))
    ensures forall i :: 0 <= i < 4 ==> QuarterColumn(level, tile, pos, Quarters[i]) == 1
  {
    forall i | 0 <= i < 4
      ensures QuarterColumn(level, tile, pos, Quarters[i]) == 1
    {
      var d := Delta(Quarters[i]);
      assert !ConcatX(level, tile, pos, d.x) && !ConcatY(level, tile, pos, d.y);
    }
  }
}
