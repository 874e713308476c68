/**
 * Texture atlases (`Textures::Atlas`): a tile grid cut out of an image, an
 * optional tileset holding 4-wide auto-tile patches and per-tile colliders,
 * the `.atl` file layout, and lookup by name.
 */
module Atlases {
  import opened Arith
  import opened Bytes
  import opened Geometry
  import opened Metadata

  // ---------------------------------------------------------------------------
  // Patches.

  /** A patch starting at p spans the four tiles p.x .. p.x+3 of row p.y. */
  predicate Covers(p: Vec2, tile: Vec2) { InRangeW(tile.x, p.x, 4) && tile.y == p.y }

  /** The position of the first patch that covers tile, or the list length when none does. */
  function FirstCovering(patches: seq<Vec2>, tile: Vec2): (i: nat)
    ensures i <= |patches|
    ensures forall j :: 0 <= j < i ==> !Covers(patches[j], tile)
    ensures i < |patches| ==> Covers(patches[i], tile)
  {
    if patches == [] then 0
    else if Covers(patches[0], tile) then 0
    else 1 + FirstCovering(patches[1..], tile)
  }

  /** `Tileset::patch`: the first covering patch in list order, or (-1,-1). */
  function PatchOf(patches: seq<Vec2>, tile: Vec2): Vec2
  {
    var i := FirstCovering(patches, tile);
    if i < |patches| then patches[i] else Empty
  }

  /** The patch list with its first patch covering tile erased. */
  function WithoutPatch(patches: seq<Vec2>, tile: Vec2): seq<Vec2>
  {
    var i := FirstCovering(patches, tile);
    if i < |patches| then patches[..i] + patches[i + 1..] else patches
  }

  /** A position whose earlier entries do not cover tile and which does is the first covering one. */
  lemma FirstCoveringAt(patches: seq<Vec2>, tile: Vec2, i: nat)
    requires i < |patches| && Covers(patches[i], tile)
    requires forall j :: 0 <= j < i ==> !Covers(patches[j], tile)
    ensures FirstCovering(patches, tile) == i
  {
  }

  /** The lookup answers a covering patch, the first one, and (-1,-1) only when no patch covers the tile. */
  lemma PatchOfSpec(patches: seq<Vec2>, tile: Vec2)
    requires Empty !in patches
    ensures PatchOf(patches, tile) == Empty <==> forall j :: 0 <= j < |patches| ==> !Covers(patches[j], tile)
    ensures PatchOf(patches, tile) != Empty ==>
      Covers(PatchOf(patches, tile), tile) &&
      exists i :: 0 <= i < |patches| && patches[i] == PatchOf(patches, tile) &&
        forall j :: 0 <= j < i ==> !Covers(patches[j], tile)
  {
    var i := FirstCovering(patches, tile);
    if i < |patches| {
      assert patches[i] in patches;
    }
  }

  /**
   * Erasing the first covering patch: when none covers, the list is unchanged;
   * otherwise exactly that entry goes and the others keep their order.
   */
  lemma WithoutPatchSpec(patches: seq<Vec2>, tile: Vec2)
    ensures (forall j :: 0 <= j < |patches| ==> !Covers(patches[j], tile)) ==> WithoutPatch(patches, tile) == patches
    ensures var i, r := FirstCovering(patches, tile), WithoutPatch(patches, tile);
      i < |patches| ==>
        |r| == |patches| - 1 && Covers(patches[i], tile) &&
        (forall j :: 0 <= j < i ==> r[j] == patches[j] && !Covers(r[j], tile)) &&
        (forall j :: i <= j < |r| ==> r[j] == patches[j + 1]) &&
        multiset(r) + multiset{patches[i]} == multiset(patches)
  {
    var i := FirstCovering(patches, tile);
    if i < |patches| {
      var pre, post := patches[..i], patches[i + 1..];
      assert WithoutPatch(patches, tile) == pre + post;
      assert patches == pre + [patches[i]] + post;
      assert multiset(patches) == multiset(pre) + multiset{patches[i]} + multiset(post);
      assert multiset(pre + post) == multiset(pre) + multiset(post);
    }
  }

  /** `Atlas::Tileset`: the patch list and the optional collider flags (one per tile). */
  class Tileset {
    var patches: seq<Vec2>
    var colliders: array?<bool>

    constructor ()
      ensures patches == [] && colliders == null
    {
      patches, colliders := [], null;
    }

    /** `patch`: scan the list for the first patch covering tile. */
    method Patch(tile: Vec2) returns (p: Vec2)
      ensures p == PatchOf(patches, tile)
    {
      var i := 0;
      while i < |patches|
        invariant i <= |patches|
        invariant forall j :: 0 <= j < i ==> !Covers(patches[j], tile)
      {
        if Covers(patches[i], tile) {
          FirstCoveringAt(patches, tile, i);
          return patches[i];
        }
        i := i + 1;
      }
      return Empty;
    }

    /** `inPatch`: some patch reports for tile. */
    predicate InPatch(tile: Vec2)
      reads this
    {
      PatchOf(patches, tile) != Empty
    }

    /** `removePatch`: erase the first patch covering tile, if any. */
    method RemovePatch(tile: Vec2)
      modifies this
      ensures patches == WithoutPatch(old(patches), tile)
      ensures colliders == old(colliders)
    {
      var i := 0;
      while i < |patches|
        invariant i <= |patches| && patches == old(patches)
        invariant forall j :: 0 <= j < i ==> !Covers(patches[j], tile)
      {
        if Covers(patches[i], tile) {
          FirstCoveringAt(patches, tile, i);
          patches := patches[..i] + patches[i + 1..];
          return;
        }
        i := i + 1;
      }
    }
  }

  // ---------------------------------------------------------------------------
  // Grid arithmetic.

  /** Tiles across an image: `image.width / tilesize.x`, C++ division. */
  function Columns(image: Image, tilesize: Vec2): (w: int)
    requires tilesize.x != 0
    ensures tilesize.x > 0 ==> w >= 0
  {
    CDiv(image.width, tilesize.x)
  }

  /** Tiles down an image: `image.height / tilesize.y`. */
  function Rows(image: Image, tilesize: Vec2): (h: int)
    requires tilesize.y != 0
    ensures tilesize.y > 0 ==> h >= 0
  {
    CDiv(image.height, tilesize.y)
  }

  /** With a positive tile size the grid counts the whole tiles that fit; a partial tile at the edge is dropped. */
  lemma GridCountsWholeTiles(image: Image, tilesize: Vec2)
    requires tilesize.x > 0 && tilesize.y > 0
    ensures var w, h := Columns(image, tilesize), Rows(image, tilesize);
      0 <= w && w * tilesize.x <= image.width < (w + 1) * tilesize.x &&
      0 <= h && h * tilesize.y <= image.height < (h + 1) * tilesize.y
  {
    CDivNonNegative(image.width, tilesize.x);
    CDivNonNegative(image.height, tilesize.y);
  }

  // ---------------------------------------------------------------------------
  // The `.atl` file.

  /** The collider section: the grid size it was saved with, then one flag per tile. */
  datatype ColliderSection = ColliderSection(w: nat, h: nat, cells: seq<bool>)

  datatype TilesetSection = TilesetSection(patches: seq<Vec2>, colliders: Option<ColliderSection>)

  /** What an `.atl` file holds. */
  datatype AtlasFile = AtlasFile(tilesize: Vec2, tileset: Option<TilesetSection>)

  /** A `bool` in memory: 1 or 0. */
  function BoolByte(b: bool): Byte { if b then 1 else 0 }

  function BoolBytes(cs: seq<bool>): (bs: seq<Byte>)
    ensures |bs| == |cs|
  {
    seq(|cs|, i requires 0 <= i < |cs| => BoolByte(cs[i]))
  }

  /** `fread` into a `bool` array: a byte other than 0 is taken as true. */
  function ReadBools(f: seq<Byte>, n: nat): (r: (seq<bool>, seq<Byte>))
    ensures |r.0| == n
  {
    var bs := ReadBytes(f, n);
    (seq(n, i requires 0 <= i < n => bs.0[i] != 0), bs.1)
  }

  lemma ReadBoolsRoundTrip(cs: seq<bool>, t: seq<Byte>)
    ensures ReadBools(BoolBytes(cs) + t, |cs|) == (cs, t)
  {
    ReadBytesPrefix(BoolBytes(cs), t);
    var r := ReadBools(BoolBytes(cs) + t, |cs|);
    assert r.0 == cs;
  }

  /** The codes of the grid-size record "%32i %32i". */
  const SizeCodes := [Int(4), Int(4)]

  /** The saved grid size, as `writeMetadata(file, "%32i %32i", width(), height())` passes it. */
  function SizeArgs(w: int, h: int): (args: seq<Arg>)
    ensures Matches(SizeCodes, args)
  {
    assert Matches(SizeCodes[1..], [IntArg(h)]);
    [IntArg(w), IntArg(h)]
  }

  function EncodeColliders(c: ColliderSection): seq<Byte>
  {
    EncodeAll(SizeCodes, SizeArgs(c.w, c.h)) + BoolBytes(c.cells)
  }

  function EncodeTileset(ts: TilesetSection): seq<Byte>
  {
    LeBytes(|ts.patches|, 2) + Vec2sBytes(ts.patches) + ColliderTail(ts.colliders)
  }

  /** The collider flag, then for colliders their section. */
  function ColliderTail(c: Option<ColliderSection>): seq<Byte>
  {
    match c
    case None => [0]
    case Some(c) => [1] + EncodeColliders(c)
  }

  /**
   * `Atlas::save`: the tile size as raw `vec2i`, a tileset flag, and for a
   * tileset its 16-bit patch count, every patch as raw `vec2i`, a collider
   * flag and for colliders the grid size and one byte per tile.
   */
  function EncodeAtlasFile(a: AtlasFile): seq<Byte>
  {
    Vec2Bytes(a.tilesize) + TilesetTail(a.tileset)
  }

  /** The tileset flag, then for a tileset its section. */
  function TilesetTail(ts: Option<TilesetSection>): seq<Byte>
  {
    match ts
    case None => [0]
    case Some(ts) => [1] + EncodeTileset(ts)
  }

  /**
   * The collider section as the loader reads it: `readMetadata` of the two
   * sizes into `uint32_t`, then w*h flags, the product taken in 32 bits.
   */
  function ReadColliders(f: seq<Byte>): (r: (ColliderSection, seq<Byte>))
    ensures r.0.w * r.0.h < 0x1_0000_0000 ==> |r.0.cells| == r.0.w * r.0.h
  {
    assert AcceptsAll(SizeCodes[1..], [IntSlot]);
    var hdr := DecodeAll(SizeCodes, [IntSlot, IntSlot], f);
    var w, h := IntOf(hdr.0[0]), IntOf(hdr.0[1]);
    var cells := ReadBools(hdr.1, (w * h) % 0x1_0000_0000);
    (ColliderSection(w, h, cells.0), cells.1)
  }

  function ReadTileset(f: seq<Byte>): (TilesetSection, seq<Byte>)
  {
    var n := GetN(f, 2);
    var ps := ReadVec2s(n.1, n.0);
    var flag := GetN(ps.1, 1);
    if flag.0 == 0 then (TilesetSection(ps.0, None), flag.1)
    else
      var c := ReadColliders(flag.1);
      (TilesetSection(ps.0, Some(c.0)), c.1)
  }

  /** The `Atlas(name)` loader's reading of an `.atl` file; a flag byte other than 0 is true. */
  function DecodeAtlasFile(f: seq<Byte>): (AtlasFile, seq<Byte>)
  {
    var ts := ReadVec2(f);
    var flag := GetN(ts.1, 1);
    if flag.0 == 0 then (AtlasFile(ts.0, None), flag.1)
    else
      var t := ReadTileset(flag.1);
      (AtlasFile(ts.0, Some(t.0)), t.1)
  }

  /** The atlases a save can reproduce: 32-bit coordinates, fewer than 65536 patches, a 32-bit collider grid. */
  predicate Saveable(a: AtlasFile)
  {
    IsInt32Vec(a.tilesize) &&
    (a.tileset.Some? ==>
      var ts := a.tileset.value;
      |ts.patches| < 0x1_0000 && (forall i :: 0 <= i < |ts.patches| ==> IsInt32Vec(ts.patches[i])) &&
      (ts.colliders.Some? ==>
        var c := ts.colliders.value;
        c.w * c.h < 0x1_0000_0000 && |c.cells| == c.w * c.h && c.w < 0x1_0000_0000 && c.h < 0x1_0000_0000))
  }

  lemma ReadCollidersRoundTrip(c: ColliderSection, t: seq<Byte>)
    requires c.w * c.h < 0x1_0000_0000 && |c.cells| == c.w * c.h && c.w < 0x1_0000_0000 && c.h < 0x1_0000_0000
    ensures ReadColliders(EncodeColliders(c) + t) == (c, t)
  {
    var args := SizeArgs(c.w, c.h);
    var rest := BoolBytes(c.cells) + t;
    assert EncodeColliders(c) + t == EncodeAll(SizeCodes, args) + rest;
    assert StringsReadable(args[1..][1..]);
    DecodeAllOfEncodeAll(SizeCodes, args, rest);
    assert SlotsOf(args[1..][1..]) == [];
    assert SlotsOf(args) == [IntSlot, IntSlot];
    var vals := ExpectedAll(SizeCodes, args);
    assert vals == [Expected(Int(4), args[0]), Expected(Int(4), args[1])];
    Uint32RoundTrip(c.w);
    Uint32RoundTrip(c.h);
    DivModUnique(c.w * c.h, 0x1_0000_0000, 0, c.w * c.h);
    ReadBoolsRoundTrip(c.cells, t);
  }

  /** A 16-bit count followed by that many raw `vec2i` reads back as the list. */
  lemma ReadPatchList(ps: seq<Vec2>, rest: seq<Byte>)
    requires |ps| < 0x1_0000 && forall i :: 0 <= i < |ps| ==> IsInt32Vec(ps[i])
    ensures var n := GetN(LeBytes(|ps|, 2) + (Vec2sBytes(ps) + rest), 2);
      n.1 == Vec2sBytes(ps) + rest && ReadVec2s(n.1, n.0) == (ps, rest)
  {
    var f := LeBytes(|ps|, 2) + (Vec2sBytes(ps) + rest);
    GetNOfLeBytes(|ps|, 2, Vec2sBytes(ps) + rest);
    assert Pow256(2) == 0x1_0000;
    DivModUnique(|ps|, 0x1_0000, 0, |ps|);
    assert GetN(f, 2) == (|ps|, Vec2sBytes(ps) + rest);
    ReadVec2sRoundTrip(ps, rest);
  }

  /** A flag byte reads back as written. */
  lemma ReadFlag(b: bool, rest: seq<Byte>)
    ensures GetN([BoolByte(b)] + rest, 1) == (BoolByte(b), rest)
  {
    GetNOfBytes([BoolByte(b)], rest);
  }

  /** What follows the patch list: the collider flag, then for colliders their section. */
  lemma ReadColliderTail(c: Option<ColliderSection>, t: seq<Byte>)
    requires c.Some? ==>
      c.value.w * c.value.h < 0x1_0000_0000 && |c.value.cells| == c.value.w * c.value.h &&
      c.value.w < 0x1_0000_0000 && c.value.h < 0x1_0000_0000
    ensures var flag := GetN(ColliderTail(c) + t, 1);
      (flag.0 == 0 <==> c.None?) && (c.Some? ==> ReadColliders(flag.1) == (c.value, t)) && (c.None? ==> flag.1 == t)
  {
    if c.None? {
      assert ColliderTail(c) + t == [BoolByte(false)] + t;
      ReadFlag(false, t);
    } else {
      assert ColliderTail(c) + t == [BoolByte(true)] + (EncodeColliders(c.value) + t);
      ReadFlag(true, EncodeColliders(c.value) + t);
      ReadCollidersRoundTrip(c.value, t);
    }
  }

  lemma ReadTilesetRoundTrip(ts: TilesetSection, t: seq<Byte>)
    requires |ts.patches| < 0x1_0000 && forall i :: 0 <= i < |ts.patches| ==> IsInt32Vec(ts.patches[i])
    requires ts.colliders.Some? ==>
      var c := ts.colliders.value;
      c.w * c.h < 0x1_0000_0000 && |c.cells| == c.w * c.h && c.w < 0x1_0000_0000 && c.h < 0x1_0000_0000
    ensures ReadTileset(EncodeTileset(ts) + t) == (ts, t)
  {
    var tail := ColliderTail(ts.colliders);
    assert EncodeTileset(ts) + t == LeBytes(|ts.patches|, 2) + (Vec2sBytes(ts.patches) + (tail + t));
    ReadPatchList(ts.patches, tail + t);
    ReadColliderTail(ts.colliders, t);
  }

  lemma ReadTilesetTail(ts: Option<TilesetSection>, t: seq<Byte>)
    requires ts.Some? ==>
      var ts := ts.value;
      |ts.patches| < 0x1_0000 && (forall i :: 0 <= i < |ts.patches| ==> IsInt32Vec(ts.patches[i])) &&
      (ts.colliders.Some? ==>
        var c := ts.colliders.value;
        c.w * c.h < 0x1_0000_0000 && |c.cells| == c.w * c.h && c.w < 0x1_0000_0000 && c.h < 0x1_0000_0000)
    ensures var flag := GetN(TilesetTail(ts) + t, 1);
      (flag.0 == 0 <==> ts.None?) && (ts.Some? ==> ReadTileset(flag.1) == (ts.value, t)) && (ts.None? ==> flag.1 == t)
  {
    if ts.None? {
      assert TilesetTail(ts) + t == [BoolByte(false)] + t;
      ReadFlag(false, t);
    } else {
      assert TilesetTail(ts) + t == [BoolByte(true)] + (EncodeTileset(ts.value) + t);
      ReadFlag(true, EncodeTileset(ts.value) + t);
      ReadTilesetRoundTrip(ts.value, t);
    }
  }

  /** An `.atl` file reads back as saved, and reading resumes after it. */
  lemma AtlasFileRoundTrip(a: AtlasFile, t: seq<Byte>)
    requires Saveable(a)
    ensures DecodeAtlasFile(EncodeAtlasFile(a) + t) == (a, t)
  {
    assert EncodeAtlasFile(a) + t == Vec2Bytes(a.tilesize) + (TilesetTail(a.tileset) + t);
    ReadVec2OfBytes(a.tilesize, TilesetTail(a.tileset) + t);
    ReadTilesetTail(a.tileset, t);
  }

  // ---------------------------------------------------------------------------
  // The collider copy of the loader.

  /**
   * The progress of the load's copy loop over a W-wide grid: the columns
   * before x are done for rows below mh, and column x for rows below y.
   */
  predicate Copied(W: nat, x: nat, y: nat, mh: nat, k: nat)
    requires W > 0
  {
    (k % W < x && k / W < mh) || (k % W == x && k / W < y)
  }

  /** One flag part-way through the copy: the saved flag of the same (x, y) once copied, the old flag before. */
  function PartialCell(orig: seq<bool>, W: nat, stored: seq<bool>, w: nat, h: nat, x: nat, y: nat, mh: nat, k: nat): bool
    requires k < |orig| && W > 0 && |stored| == w * h
    requires x <= w && y <= mh <= h && (y > 0 ==> x < w)
  {
    if Copied(W, x, y, mh, k) then
      IndexInGrid(k % W, k / W, w, h);
      stored[k % W + (k / W) * w]
    else orig[k]
  }

  function Partial(orig: seq<bool>, W: nat, stored: seq<bool>, w: nat, h: nat, x: nat, y: nat, mh: nat): (r: seq<bool>)
    requires |orig| > 0 ==> W > 0
    requires |stored| == w * h && x <= w && y <= mh <= h && (y > 0 ==> x < w)
    ensures |r| == |orig|
  {
    seq(|orig|, k requires 0 <= k < |orig| => PartialCell(orig, W, stored, w, h, x, y, mh, k))
  }

  /**
   * The flags after the whole copy: a cell (x, y) of the W-wide grid inside the
   * mw×mh overlap takes the saved flag of (x, y); any other cell keeps its old flag.
   */
  function Overlay(orig: seq<bool>, W: nat, stored: seq<bool>, w: nat, h: nat, mw: nat, mh: nat): (r: seq<bool>)
    requires |orig| > 0 ==> W > 0
    requires |stored| == w * h && mw <= w && mh <= h
    ensures |r| == |orig|
  {
    Partial(orig, W, stored, w, h, mw, 0, mh)
  }

  /** Copying cell (x, y) advances the inner loop by one row. */
  lemma CopyStep(orig: seq<bool>, W: nat, H: nat, stored: seq<bool>, w: nat, h: nat, x: nat, y: nat, mh: nat)
    requires |orig| == W * H && |stored| == w * h
    requires x < W && x < w && y < mh && mh <= h && mh <= H
    ensures x + y * W < |orig| && x + y * w < |stored|
    ensures Partial(orig, W, stored, w, h, x, y + 1, mh) ==
      Partial(orig, W, stored, w, h, x, y, mh)[x + y * W := stored[x + y * w]]
  {
    IndexInGrid(x, y, W, H);
    IndexInGrid(x, y, w, h);
    IndexDecompose(x, y, W);
    var a, b := Partial(orig, W, stored, w, h, x, y + 1, mh), Partial(orig, W, stored, w, h, x, y, mh);
    forall k | 0 <= k < |orig|
      ensures a[k] == b[x + y * W := stored[x + y * w]][k]
    {
      DivMod(k, W);
    }
  }

  /** A finished column hands over to the next. */
  lemma ColumnDone(orig: seq<bool>, W: nat, stored: seq<bool>, w: nat, h: nat, x: nat, mh: nat)
    requires |orig| > 0 ==> W > 0
    requires |stored| == w * h && x < w && mh <= h
    ensures Partial(orig, W, stored, w, h, x, mh, mh) == Partial(orig, W, stored, w, h, x + 1, 0, mh)
  {
  }

  /** Cell by cell: inside the overlap the saved flag of the same (x, y), outside it the old flag. */
  lemma OverlayAt(orig: seq<bool>, W: nat, H: nat, stored: seq<bool>, w: nat, h: nat, x: nat, y: nat)
    requires |orig| == W * H && |stored| == w * h && x < W && y < H
    ensures x + y * W < |orig|
    ensures x < Min(w, W) && y < Min(h, H) ==>
      x + y * w < |stored| && Overlay(orig, W, stored, w, h, Min(w, W), Min(h, H))[x + y * W] == stored[x + y * w]
    ensures !(x < Min(w, W) && y < Min(h, H)) ==> Overlay(orig, W, stored, w, h, Min(w, W), Min(h, H))[x + y * W] == orig[x + y * W]
  {
    IndexInGrid(x, y, W, H);
    IndexDecompose(x, y, W);
    if x < Min(w, W) && y < Min(h, H) {
      IndexInGrid(x, y, w, h);
    }
  }

  /** When the saved grid has the current size, every flag is the saved one, whatever the array held. */
  lemma OverlayWhole(orig: seq<bool>, W: nat, H: nat, stored: seq<bool>)
    requires |orig| == W * H && |stored| == W * H
    ensures Overlay(orig, W, stored, W, H, W, H) == stored
  {
    var r := Overlay(orig, W, stored, W, H, W, H);
    forall k | 0 <= k < |r|
      ensures r[k] == stored[k]
    {
      DivMod(k, W);
      if k / W >= H {
        MulMono(H, k / W, W);
      }
    }
  }

  /** Whatever the fresh array held, copying a grid of the atlas's own size over it yields that grid. */
  lemma OverlayOfWhole(stored: seq<bool>, W: nat, H: nat, got: seq<bool>)
    requires |stored| == W * H
    requires exists orig: seq<bool> :: |orig| == W * H && got == Overlay(orig, W, stored, W, H, Min(W, W), Min(H, H))
    ensures got == stored
  {
    var orig: seq<bool> :| |orig| == W * H && got == Overlay(orig, W, stored, W, H, Min(W, W), Min(H, H));
    OverlayWhole(orig, W, H, stored);
  }

  /**
   * The loader's nested copy: for x below min(w, W) and y below min(h, H),
   * flags[x + y*W] := stored[x + y*w]; the loop writes no other cell.
   */
  method CopyColliders(flags: array<bool>, W: nat, H: nat, stored: seq<bool>, w: nat, h: nat)
    requires flags.Length == W * H && |stored| == w * h
    modifies flags
    ensures flags[..] == Overlay(old(flags[..]), W, stored, w, h, Min(w, W), Min(h, H))
  {
    ghost var orig := flags[..];
    var mw, mh := Min(w, W), Min(h, H);
    assert flags[..] == Partial(orig, W, stored, w, h, 0, 0, mh);
    for x := 0 to mw
      invariant flags[..] == Partial(orig, W, stored, w, h, x, 0, mh)
    {
      for y := 0 to mh
        invariant flags[..] == Partial(orig, W, stored, w, h, x, y, mh)
      {
        CopyStep(orig, W, H, stored, w, h, x, y, mh);
        flags[x + y * W] := stored[x + y * w];
      }
      ColumnDone(orig, W, stored, w, h, x, mh);
    }
  }

  // ---------------------------------------------------------------------------
  // The atlas.

  /** The grid sizes a load can work with: a positive tile size and a saved grid of fewer than 2^32 cells. */
  predicate Loadable(a: AtlasFile)
  {
    a.tileset.Some? && a.tileset.value.colliders.Some? ==>
      var c := a.tileset.value.colliders.value;
      a.tilesize.x > 0 && a.tilesize.y > 0 && c.w * c.h < 0x1_0000_0000
  }

  /**
   * A tileset holds the section s of a file: its patches, and for colliders
   * one flag per tile of the current grid, the part overlapping the saved grid
   * copied from it and the rest whatever the fresh array held.
   */
  ghost predicate TilesetHolds(t: Tileset, image: Image, tilesize: Vec2, s: TilesetSection)
    reads t, t.colliders
  {
    t.patches == s.patches && (t.colliders == null <==> s.colliders.None?) &&
    (t.colliders != null ==>
      tilesize.x > 0 && tilesize.y > 0 &&
      var c, W, H := s.colliders.value, Columns(image, tilesize), Rows(image, tilesize);
      t.colliders.Length == W * H && |c.cells| == c.w * c.h &&
      exists orig: seq<bool> :: |orig| == W * H &&
        t.colliders[..] == Overlay(orig, W, c.cells, c.w, c.h, Min(c.w, W), Min(c.h, H)))
  }

  /**
   * The tileset part of the `Atlas(name)` loader: the patch count and patches,
   * the collider flag, and for colliders a fresh flag per tile of the current
   * grid with the overlapping part of the saved grid copied in.
   */
  method LoadTileset(image: Image, tilesize: Vec2, f: seq<Byte>) returns (t: Tileset)
    requires ReadTileset(f).0.colliders.Some? ==>
      var c := ReadTileset(f).0.colliders.value;
      tilesize.x > 0 && tilesize.y > 0 && c.w * c.h < 0x1_0000_0000
    ensures fresh(t) && (t.colliders != null ==> fresh(t.colliders))
    ensures TilesetHolds(t, image, tilesize, ReadTileset(f).0)
  {
    t := new Tileset();
    var n := GetN(f, 2);
    var ps := ReadVec2s(n.1, n.0);
    t.patches := ps.0;
    var flag := GetN(ps.1, 1);
    if flag.0 != 0 {
      var W, H := Columns(image, tilesize), Rows(image, tilesize);
      var flags := new bool[W * H];
      FormatSizes();
      var sizes, rest := ReadMetadata(SizesFormat, [IntSlot, IntSlot], flag.1);
      var w, h := IntOf(sizes[0]), IntOf(sizes[1]);
      var stored := ReadBools(rest, (w * h) % 0x1_0000_0000);
      assert (ColliderSection(w, h, stored.0), stored.1) == ReadColliders(flag.1);
      ghost var orig := flags[..];
      CopyColliders(flags, W, H, stored.0, w, h);
      t.colliders := flags;
    }
  }

  /** `Textures::Atlas`. The image is the decoded PNG beside the `.atl` file. */
  class Atlas {
    var tilesize: Vec2
    var name: Str
    var image: Image
    var tileset: Tileset?

    /** `width()`: tiles across. */
    function Width(): int
      reads this
      requires tilesize.x != 0
    {
      Columns(image, tilesize)
    }

    /** `height()`: tiles down. */
    function Height(): int
      reads this
      requires tilesize.y != 0
    {
      Rows(image, tilesize)
    }

    /** `toIndex`: the row-major tile number. */
    function ToIndex(tile: Vec2): int
      reads this
      requires tilesize.x != 0
    {
      tile.x + tile.y * Width()
    }

    /**
     * With a positive tile size, a tile of the grid numbers one of the
     * Width() × Height() cells, the number gives the tile back (column
     * number mod width, row number div width), and different tiles number
     * different cells.
     */
    lemma ToIndexNumbersCells(tile: Vec2, other: Vec2)
      requires tilesize.x > 0 && tilesize.y > 0
      requires InRange(tile.x, 0, Width()) && InRange(tile.y, 0, Height())
      requires InRange(other.x, 0, Width()) && InRange(other.y, 0, Height())
      ensures 0 <= ToIndex(tile) < Width() * Height()
      ensures ToIndex(tile) % Width() == tile.x && ToIndex(tile) / Width() == tile.y
      ensures ToIndex(tile) == ToIndex(other) <==> tile == other
    {
      var w := Width();
      IndexInGrid(tile.x, tile.y, w, Height());
      IndexDecompose(tile.x, tile.y, w);
      if ToIndex(tile) == ToIndex(other) {
        IndexInjective(tile.x, tile.y, other.x, other.y, w);
      }
    }

    /** The collider flags, when present, hold one flag per tile of the grid. */
    predicate Valid()
      reads this, tileset
    {
      tileset != null && tileset.colliders != null ==>
        tilesize.x > 0 && tilesize.y > 0 && tileset.colliders.Length == Width() * Height()
    }

    /** What `save` writes to the `.atl` file. */
    function Saved(): AtlasFile
      reads this, tileset, if tileset == null then null else tileset.colliders
      requires Valid()
    {
      AtlasFile(tilesize,
        if tileset == null then None
        else Some(TilesetSection(tileset.patches,
          if tileset.colliders == null then None
          else
            GridCountsWholeTiles(image, tilesize);
            Some(ColliderSection(Width(), Height(), tileset.colliders[..])))))
    }

    /** The fields hold what the `.atl` contents a describe, for this atlas's image. */
    ghost predicate Holds(a: AtlasFile)
      reads this, tileset, if tileset == null then null else tileset.colliders
    {
      tilesize == a.tilesize && (tileset == null <==> a.tileset.None?) &&
      (tileset != null ==> TilesetHolds(tileset, image, tilesize, a.tileset.value))
    }

    /**
     * `Atlas(name)`: read the tile size and the tileset flag, and for a
     * tileset the rest of the file.
     */
    constructor Load(name: Str, image: Image, f: seq<Byte>)
      requires Loadable(DecodeAtlasFile(f).0)
      ensures this.name == name && this.image == image
      ensures Valid() && Holds(DecodeAtlasFile(f).0)
      ensures tileset != null ==> fresh(tileset) && (tileset.colliders != null ==> fresh(tileset.colliders))
    {
      var ts := ReadVec2(f);
      var flag := GetN(ts.1, 1);
      var loaded: Tileset? := null;
      if flag.0 != 0 {
        loaded := LoadTileset(image, ts.0, flag.1);
      }
      this.name, this.image, tilesize, tileset := name, image, ts.0, loaded;
    }

    /** `save`: the `.atl` bytes of this atlas, in the order they are written. */
    method Save() returns (bytes: seq<Byte>)
      requires Valid()
      ensures bytes == EncodeAtlasFile(Saved())
    {
      var tail: seq<Byte> := [BoolByte(false)];
      if tileset != null {
        var ctail: seq<Byte> := [BoolByte(false)];
        if tileset.colliders != null {
          FormatSizes();
          var sizes := WriteMetadata(SizesFormat, SizeArgs(Width(), Height()));
          ctail := [BoolByte(true)] + (sizes + BoolBytes(tileset.colliders[..]));
        }
        tail := [BoolByte(true)] + (LeBytes(|tileset.patches|, 2) + Vec2sBytes(tileset.patches) + ctail);
      }
      bytes := Vec2Bytes(tilesize) + tail;
    }
  }

  /**
   * `save` followed by `Atlas(name)` on the same image: the tile size, the
   * patches and the collider flags come back as they were.
   */
  method SaveThenLoad(a: Atlas) returns (b: Atlas)
    requires a.Valid() && Saveable(a.Saved())
    ensures b.name == a.name && b.image == a.image && b.tilesize == a.tilesize
    ensures (b.tileset == null) == (a.tileset == null)
    ensures a.tileset != null ==>
      b.tileset.patches == a.tileset.patches && (b.tileset.colliders == null) == (a.tileset.colliders == null)
    ensures a.tileset != null && a.tileset.colliders != null ==>
      b.tileset.colliders[..] == a.tileset.colliders[..]
  {
    ghost var saved := a.Saved();
    var bytes := a.Save();
    AtlasFileRoundTrip(saved, []);
    assert bytes + [] == bytes;
    assert DecodeAtlasFile(bytes).0 == saved;
    b := new Atlas.Load(a.name, a.image, bytes);
    if a.tileset != null && a.tileset.colliders != null {
      var c := saved.tileset.value.colliders.value;
      assert c.w == b.Width() && c.h == b.Height() && c.cells == a.tileset.colliders[..];
      OverlayOfWhole(c.cells, c.w, c.h, b.tileset.colliders[..]);
    }
  }

  // ---------------------------------------------------------------------------
  // Lookup by name.

  /** The position of the first atlas called name, or the list length. */
  function NameIndex(atlases: seq<Atlas>, name: Str): (i: nat)
    reads atlases
    ensures i <= |atlases|
    ensures forall j :: 0 <= j < i ==> atlases[j].name != name
    ensures i < |atlases| ==> atlases[i].name == name
  {
    if atlases == [] then 0
    else if atlases[0].name == name then 0
    else 1 + NameIndex(atlases[1..], name)
  }

  /** `atlasByName`: the first atlas with that name; failing that the first atlas; null for an empty list. */
  function FindAtlas(atlases: seq<Atlas>, name: Str): Atlas?
    reads atlases
  {
    var i := NameIndex(atlases, name);
    if i < |atlases| then atlases[i] else if atlases == [] then null else atlases[0]
  }

  /** The lookup finds an atlas of that name whenever one exists, the first such; it answers null only for no atlases. */
  lemma FindAtlasSpec(atlases: seq<Atlas>, name: Str)
    ensures FindAtlas(atlases, name) == null <==> atlases == []
    ensures (exists j :: 0 <= j < |atlases| && atlases[j].name == name) ==>
      exists i :: 0 <= i < |atlases| && FindAtlas(atlases, name) == atlases[i] && atlases[i].name == name &&
        forall m :: 0 <= m < i ==> atlases[m].name != name
    ensures (forall j :: 0 <= j < |atlases| ==> atlases[j].name != name) && atlases != [] ==> FindAtlas(atlases, name) == atlases[0]
  {
    var i := NameIndex(atlases, name);
    if exists j :: 0 <= j < |atlases| && atlases[j].name == name {
      var j :| 0 <= j < |atlases| && atlases[j].name == name;
      assert i <= j;
    }
  }

  /** `atlasByName`: scan the list. */
  method AtlasByName(atlases: seq<Atlas>, name: Str) returns (a: Atlas?)
    ensures a == FindAtlas(atlases, name)
  {
    var i := 0;
    while i < |atlases|
      invariant i <= |atlases|
      invariant forall j :: 0 <= j < i ==> atlases[j].name != name
    {
      if atlases[i].name == name {
        assert NameIndex(atlases, name) == i;
        return atlases[i];
      }
      i := i + 1;
    }
    a := if atlases == [] then null else atlases[0];
  }
}
