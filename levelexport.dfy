/**
 * The level export (`TiledLevel::exportData`): every level packed into one
 * byte array for the game, as a list of fields. Each field is written as
 * its decimal value followed by ", "; that text, and the clipboard, are not
 * modelled, only the field values in order. The export only reads the
 * editor's state, so it works on views of the levels: their size, their
 * cells, the raster and tile width of their atlas, and per object its
 * position, its class's position in the class list, its values and the
 * types its class gives them.
 */
module LevelExport {
  import opened Arith
  import opened Bytes
  import opened Geometry
  import opened Objects
  import opened Levels

  /** What `std::stoi` can return. */
  type Int32 = n: int | IsInt32(n)

  datatype ObjectView = ObjectView(pos: Vec2, classIndex: nat, values: seq<Str>, kinds: seq<Byte>)

  datatype LevelView = LevelView(width: nat, height: nat, tiles: seq<Vec2>, rasterWidth: nat, tileWidth: int,
                                 objects: seq<ObjectView>)

  // ---------------------------------------------------------------------------
  // Views of the editor's objects.

  /** The types of the first n properties of a class. */
  function Kinds(ps: seq<Property>, n: nat): (ks: seq<Byte>)
    requires n <= |ps|
    ensures |ks| == n && forall i :: 0 <= i < n ==> ks[i] == ps[i].kind
  {
    seq(n, i requires 0 <= i < n => ps[i].kind)
  }

  /** An object as the export sees it; the source indexes its class's properties by the object's value positions. */
  function ObjectViewOf(o: Object, classes: seq<ObjectClass>): (v: ObjectView)
    reads o, o.parent
    requires o.parent != null && |o.properties| <= |o.parent.properties|
    ensures v.pos == o.pos && v.values == o.properties && v.classIndex == IndexOf(classes, o.parent)
  {
    ObjectView(o.pos, IndexOf(classes, o.parent), o.properties, Kinds(o.parent.properties, |o.properties|))
  }

  /** Every object has a class with at least as many properties as it has values. */
  predicate Viewable(objs: seq<Object>)
    reads objs, Parents(objs)
  {
    forall k :: 0 <= k < |objs| ==>
      objs[k].parent != null && |objs[k].properties| <= |objs[k].parent.properties|
  }

  function ObjectViews(objs: seq<Object>, classes: seq<ObjectClass>): (vs: seq<ObjectView>)
    reads objs, Parents(objs)
    requires Viewable(objs)
    ensures |vs| == |objs| && forall k :: 0 <= k < |objs| ==> vs[k] == ObjectViewOf(objs[k], classes)
  {
    if objs == [] then []
    else
      assert Parents(objs[1..]) <= Parents(objs) by {
        forall c | c in Parents(objs[1..])
          ensures c in Parents(objs)
        {
          var k :| 0 <= k < |objs[1..]| && objs[1..][k].parent != null && objs[1..][k].parent == c;
          assert objs[k + 1].parent == c;
        }
      }
      [ObjectViewOf(objs[0], classes)] + ObjectViews(objs[1..], classes)
  }

  /** A level as the export sees it. */
  function LevelViewOf(l: Level, classes: seq<ObjectClass>): (v: LevelView)
    reads l, l.data, l.tileset, l.objects, Parents(l.objects)
    requires l.tileset != null && Viewable(l.objects)
    ensures v.width == l.width && v.height == l.height && v.tiles == l.data[..]
    ensures v.rasterWidth == l.tileset.image.width && v.tileWidth == l.tileset.tilesize.x
    ensures |v.objects| == |l.objects|
  {
    LevelView(l.width, l.height, l.data[..], l.tileset.image.width, l.tileset.tilesize.x, ObjectViews(l.objects, classes))
  }

  // ---------------------------------------------------------------------------
  // The fields.

  /** A tile can be numbered: it is empty, or the tile width it is divided by is not zero. */
  predicate TileExportable(t: Vec2, tileWidth: int) { t == Empty || tileWidth != 0 }

  /** A level the export can pack: one cell per grid position, numberable tiles, a type for every value. */
  predicate Exportable(v: LevelView)
  {
    |v.tiles| == v.width * v.height &&
    (forall k :: 0 <= k < |v.tiles| ==> TileExportable(v.tiles[k], v.tileWidth)) &&
    (forall j :: 0 <= j < |v.objects| ==> |v.objects[j].kinds| == |v.objects[j].values|)
  }

  /**
   * A cell: 0 when empty, otherwise the one byte of `tile.x + tile.y *
   * rasterWidth / tileWidth + 1`, the product divided (toward zero) before
   * the sum.
   */
  function TileField(t: Vec2, rasterWidth: nat, tileWidth: int): Byte
    requires TileExportable(t, tileWidth)
  {
    if t == Empty then 0 else LeBytes(t.x + CDiv(t.y * rasterWidth, tileWidth) + 1, 1)[0]
  }

  function TileFields(ts: seq<Vec2>, rasterWidth: nat, tileWidth: int): (fs: seq<Byte>)
    requires forall k :: 0 <= k < |ts| ==> TileExportable(ts[k], tileWidth)
    ensures |fs| == |ts| && forall k :: 0 <= k < |ts| ==> fs[k] == TileField(ts[k], rasterWidth, tileWidth)
  {
    seq(|ts|, k requires 0 <= k < |ts| => TileField(ts[k], rasterWidth, tileWidth))
  }

  /** A value: an `int` property as 4 bytes of its parsed value, a `string` one as its bytes and a 0, any other nothing. */
  function ValueField(value: Str, kind: Byte, parse: Str -> Int32): seq<Byte>
  {
    if kind == IntType then LeBytes(parse(value), 4)
    else if kind == StringType then value + [0]
    else []
  }

  function ValuePieces(vs: seq<Str>, ks: seq<Byte>, parse: Str -> Int32): (ps: seq<seq<Byte>>)
    requires |ks| == |vs|
    ensures |ps| == |vs| && forall i :: 0 <= i < |vs| ==> ps[i] == ValueField(vs[i], ks[i], parse)
  {
    seq(|vs|, i requires 0 <= i < |vs| => ValueField(vs[i], ks[i], parse))
  }

  /** An object: x, y and class index as 2 bytes each, then its values in order. */
  function ObjectFields(o: ObjectView, parse: Str -> Int32): seq<Byte>
    requires |o.kinds| == |o.values|
  {
    LeBytes(o.pos.x, 2) + LeBytes(o.pos.y, 2) + LeBytes(o.classIndex, 2) + Concat(ValuePieces(o.values, o.kinds, parse))
  }

  predicate Typed(os: seq<ObjectView>) { forall j :: 0 <= j < |os| ==> |os[j].kinds| == |os[j].values| }

  function ObjectPieces(os: seq<ObjectView>, parse: Str -> Int32): (ps: seq<seq<Byte>>)
    requires Typed(os)
    ensures |ps| == |os| && forall j :: 0 <= j < |os| ==> ps[j] == ObjectFields(os[j], parse)
  {
    seq(|os|, j requires 0 <= j < |os| => ObjectFields(os[j], parse))
  }

  /** The object section: the object count (2 bytes), then the objects. */
  function ObjectSection(os: seq<ObjectView>, parse: Str -> Int32): seq<Byte>
    requires Typed(os)
  {
    LeBytes(|os|, 2) + Concat(ObjectPieces(os, parse))
  }

  /**
   * A level: width and height (2 bytes each), its cells in row-major order,
   * then the number of fields of its object section (4 bytes) and that section.
   */
  function LevelFields(v: LevelView, parse: Str -> Int32): seq<Byte>
    requires Exportable(v)
  {
    var section := ObjectSection(v.objects, parse);
    LeBytes(v.width, 2) + LeBytes(v.height, 2) + TileFields(v.tiles, v.rasterWidth, v.tileWidth) +
      (LeBytes(|section|, 4) + section)
  }

  function LevelPieces(vs: seq<LevelView>, parse: Str -> Int32): (ps: seq<seq<Byte>>)
    requires forall i :: 0 <= i < |vs| ==> Exportable(vs[i])
    ensures |ps| == |vs| && forall i :: 0 <= i < |vs| ==> ps[i] == LevelFields(vs[i], parse)
  {
    seq(|vs|, i requires 0 <= i < |vs| => LevelFields(vs[i], parse))
  }

  /** The whole export: nothing without a current level; otherwise the level count (2 bytes) and every level. */
  function Export(vs: seq<LevelView>, hasCurrent: bool, parse: Str -> Int32): Option<seq<Byte>>
    requires forall i :: 0 <= i < |vs| ==> Exportable(vs[i])
  {
    if !hasCurrent then None else Some(LeBytes(|vs|, 2) + Concat(LevelPieces(vs, parse)))
  }

  // ---------------------------------------------------------------------------
  // What the fields mean.

  /** A cell exports 0 when empty; otherwise one more than its tile number, truncated to a byte. */
  lemma TileFieldSpec(t: Vec2, rasterWidth: nat, tileWidth: int)
    requires TileExportable(t, tileWidth)
    ensures t == Empty ==> TileField(t, rasterWidth, tileWidth) == 0
    ensures t != Empty ==> TileField(t, rasterWidth, tileWidth) == (t.x + CDiv(t.y * rasterWidth, tileWidth) + 1) % 256
    ensures t != Empty && 0 <= t.x + CDiv(t.y * rasterWidth, tileWidth) < 255 ==>
      TileField(t, rasterWidth, tileWidth) != 0 &&
      TileField(t, rasterWidth, tileWidth) - 1 == t.x + CDiv(t.y * rasterWidth, tileWidth)
  {
    if t != Empty {
      var n := t.x + CDiv(t.y * rasterWidth, tileWidth) + 1;
      if 0 < n < 256 {
        DivModUnique(n, 256, 0, n);
      }
    }
  }

  /**
   * When the raster width is a whole number W of tiles, the tile number is
   * the atlas's row-major index `x + y * W`.
   */
  lemma TileNumberOfWholeTiles(t: Vec2, columns: nat, tileWidth: int)
    requires tileWidth > 0 && t.y >= 0 && t != Empty
    ensures TileField(t, columns * tileWidth, tileWidth) == (t.x + t.y * columns + 1) % 256
  {
    assert t.y * (columns * tileWidth) == (t.y * columns) * tileWidth;
    MulMono(0, t.y, columns * tileWidth);
    CDivNonNegative(t.y * (columns * tileWidth), tileWidth);
    DivModUnique((t.y * columns) * tileWidth, tileWidth, t.y * columns, 0);
  }

  /**
   * Otherwise the two numberings part: a 10-pixel-wide image of 4-pixel
   * tiles has 2 columns, so tile (0, 2) is atlas tile 4, yet it exports as 6.
   */
  lemma TileNumberFollowsRaster()
    ensures CDiv(10, 4) == 2 && 0 + 2 * CDiv(10, 4) + 1 == 5
    ensures TileField(Vec2(0, 2), 10, 4) == 6
  {
    DivModUnique(6, 256, 0, 6);
  }

  /** Five pieces laid end to end split back into the five. */
  lemma Parts<T>(a: seq<T>, b: seq<T>, c: seq<T>, d: seq<T>, e: seq<T>)
    ensures var f := a + b + c + (d + e);
      var i, j, k, l := |a|, |a| + |b|, |a| + |b| + |c|, |a| + |b| + |c| + |d|;
      f[..i] == a && f[i..j] == b && f[j..k] == c && f[k..l] == d && f[l..] == e && |f| == l + |e|
  {
  }

  /**
   * Reading a level's fields back: width and height modulo 2^16, the cells
   * in row-major order, and a length field that counts exactly the fields
   * of the object section after it (modulo 2^32).
   */
  lemma LevelLayout(v: LevelView, parse: Str -> Int32)
    requires Exportable(v)
    ensures var f, n := LevelFields(v, parse), |v.tiles|;
      |f| >= 8 + n &&
      LeValue(f[..2]) == v.width % 0x1_0000 && LeValue(f[2..4]) == v.height % 0x1_0000 &&
      (forall k :: 0 <= k < n ==> f[4 + k] == TileField(v.tiles[k], v.rasterWidth, v.tileWidth)) &&
      LeValue(f[4 + n..8 + n]) == (|f| - (8 + n)) % 0x1_0000_0000 &&
      f[8 + n..] == ObjectSection(v.objects, parse)
  {
    var section := ObjectSection(v.objects, parse);
    var a, b, c, d := LeBytes(v.width, 2), LeBytes(v.height, 2), TileFields(v.tiles, v.rasterWidth, v.tileWidth), LeBytes(|section|, 4);
    Parts(a, b, c, d, section);
    var f := a + b + c + (d + section);
    forall k | 0 <= k < |c|
      ensures f[4 + k] == c[k]
    {
      assert f[4..4 + |c|] == c;
    }
    LeValueOfLeBytes(v.width, 2);
    LeValueOfLeBytes(v.height, 2);
    LeValueOfLeBytes(|section|, 4);
  }

  // ---------------------------------------------------------------------------
  // Reading the export back, as the game does.

  /** A value as the game reads it. */
  datatype Value = IntValue(n: int) | StringValue(s: Str) | NoValue

  /** The value the editor meant to hand over. */
  function Expected(value: Str, kind: Byte, parse: Str -> Int32): Value
  {
    if kind == IntType then IntValue(parse(value)) else if kind == StringType then StringValue(value) else NoValue
  }

  /** A 0-terminated string: the bytes up to the first 0, and what follows that 0. */
  function ReadCString(f: seq<Byte>): (Str, seq<Byte>)
  {
    if f == [] then ([], [])
    else if f[0] == 0 then ([], f[1..])
    else var r := ReadCString(f[1..]); ([f[0]] + r.0, r.1)
  }

  function ReadValue(f: seq<Byte>, kind: Byte): (Value, seq<Byte>)
  {
    if kind == IntType then var r := GetN(f, 4); (IntValue(ToInt32(r.0)), r.1)
    else if kind == StringType then var r := ReadCString(f); (StringValue(r.0), r.1)
    else (NoValue, f)
  }

  function ReadValues(f: seq<Byte>, ks: seq<Byte>): (r: (seq<Value>, seq<Byte>))
    ensures |r.0| == |ks|
    decreases |ks|
  {
    if ks == [] then ([], f)
    else
      var v := ReadValue(f, ks[0]);
      var rest := ReadValues(v.1, ks[1..]);
      ([v.0] + rest.0, rest.1)
  }

  datatype ExportedObject = ExportedObject(x: nat, y: nat, classIndex: nat, values: seq<Value>)

  function ReadObject(f: seq<Byte>, ks: seq<Byte>): (ExportedObject, seq<Byte>)
  {
    var x := GetN(f, 2);
    var y := GetN(x.1, 2);
    var c := GetN(y.1, 2);
    var vs := ReadValues(c.1, ks);
    (ExportedObject(x.0, y.0, c.0, vs.0), vs.1)
  }

  /** No 0 byte in a string value, which would end it early. */
  predicate ZeroFree(s: Str) { forall i :: 0 <= i < |s| ==> s[i] != 0 }

  lemma {:induction false} ReadCStringRoundTrip(s: Str, t: seq<Byte>)
    requires ZeroFree(s)
    ensures ReadCString(s + [0] + t) == (s, t)
  {
    if s == [] {
      assert s + [0] + t == [0] + t;
    } else {
      assert (s + [0] + t)[1..] == s[1..] + [0] + t;
      ReadCStringRoundTrip(s[1..], t);
      assert [s[0]] + s[1..] == s;
    }
  }

  /** A string value whose type is not `string` needs no care; a `string` one must not hold a 0. */
  predicate Readable(value: Str, kind: Byte) { kind == StringType ==> ZeroFree(value) }

  /** Each value reads back as the editor's value: the parsed number, the string, or nothing. */
  lemma ReadValueRoundTrip(value: Str, kind: Byte, parse: Str -> Int32, t: seq<Byte>)
    requires Readable(value, kind)
    ensures ReadValue(ValueField(value, kind, parse) + t, kind) == (Expected(value, kind, parse), t)
  {
    if kind == IntType {
      GetNOfLeBytes(parse(value), 4, t);
      ToInt32OfTruncated(parse(value));
    } else if kind == StringType {
      ReadCStringRoundTrip(value, t);
    } else {
      assert [] + t == t;
    }
  }

  function ExpectedValues(vs: seq<Str>, ks: seq<Byte>, parse: Str -> Int32): (es: seq<Value>)
    requires |ks| == |vs|
    ensures |es| == |vs| && forall i :: 0 <= i < |vs| ==> es[i] == Expected(vs[i], ks[i], parse)
  {
    seq(|vs|, i requires 0 <= i < |vs| => Expected(vs[i], ks[i], parse))
  }

  lemma {:induction false} ReadValuesRoundTrip(vs: seq<Str>, ks: seq<Byte>, parse: Str -> Int32, t: seq<Byte>)
    requires |ks| == |vs| && forall i :: 0 <= i < |vs| ==> Readable(vs[i], ks[i])
    ensures ReadValues(Concat(ValuePieces(vs, ks, parse)) + t, ks) == (ExpectedValues(vs, ks, parse), t)
  {
    var ps := ValuePieces(vs, ks, parse);
    if vs == [] {
      assert Concat(ps) + t == t;
    } else {
      var tail := ValuePieces(vs[1..], ks[1..], parse);
      assert ps[1..] == tail;
      var more := Concat(tail) + t;
      assert Concat(ps) == ps[0] + Concat(tail);
      ConcatAssoc(ps[0], Concat(tail), t);
      ReadValueRoundTrip(vs[0], ks[0], parse, more);
      ReadValuesRoundTrip(vs[1..], ks[1..], parse, t);
      var es, rest := ExpectedValues(vs, ks, parse), ExpectedValues(vs[1..], ks[1..], parse);
      assert es == [Expected(vs[0], ks[0], parse)] + rest;
    }
  }

  /**
   * An exported object reads back, given its class's property types, as its
   * position and class index modulo 2^16 and its values as the editor held
   * them.
   */
  lemma ObjectRoundTrip(o: ObjectView, parse: Str -> Int32, t: seq<Byte>)
    requires |o.kinds| == |o.values| && forall i :: 0 <= i < |o.values| ==> Readable(o.values[i], o.kinds[i])
    ensures ReadObject(ObjectFields(o, parse) + t, o.kinds) ==
      (ExportedObject(o.pos.x % 0x1_0000, o.pos.y % 0x1_0000, o.classIndex % 0x1_0000,
                      ExpectedValues(o.values, o.kinds, parse)), t)
  {
    var a, b, c := LeBytes(o.pos.x, 2), LeBytes(o.pos.y, 2), LeBytes(o.classIndex, 2);
    var vals := Concat(ValuePieces(o.values, o.kinds, parse));
    assert ObjectFields(o, parse) + t == a + (b + (c + (vals + t)));
    GetNOfLeBytes(o.pos.x, 2, b + (c + (vals + t)));
    GetNOfLeBytes(o.pos.y, 2, c + (vals + t));
    GetNOfLeBytes(o.classIndex, 2, vals + t);
    ReadValuesRoundTrip(o.values, o.kinds, parse, t);
  }

  // ---------------------------------------------------------------------------
  // The packer.

  /** The cells, row by row, each column of a row in turn. */
  method ExportTiles(v: LevelView) returns (fields: seq<Byte>)
    requires Exportable(v)
    ensures fields == TileFields(v.tiles, v.rasterWidth, v.tileWidth)
  {
    fields := [];
    for y := 0 to v.height
      invariant |fields| == y * v.width <= |v.tiles|
      invariant forall k :: 0 <= k < |fields| ==> fields[k] == TileField(v.tiles[k], v.rasterWidth, v.tileWidth)
    {
      for x := 0 to v.width
        invariant |fields| == y * v.width + x <= |v.tiles|
        invariant forall k :: 0 <= k < |fields| ==> fields[k] == TileField(v.tiles[k], v.rasterWidth, v.tileWidth)
      {
        var tile := v.tiles[Cell(x, y, v.width, v.height)];
        if tile == Empty {
          fields := fields + [0];
        } else {
          var b := IntToBytes(tile.x + CDiv(tile.y * v.rasterWidth, v.tileWidth) + 1, 1);
          fields := fields + b;
        }
      }
      assert y * v.width + v.width == (y + 1) * v.width;
    }
  }

  /** The values of an object, each by its class's type for it; a string byte by byte, then its 0. */
  method ExportValues(vs: seq<Str>, ks: seq<Byte>, parse: Str -> Int32) returns (fields: seq<Byte>)
    requires |ks| == |vs|
    ensures fields == Concat(ValuePieces(vs, ks, parse))
  {
    ghost var ps := ValuePieces(vs, ks, parse);
    fields := [];
    for i := 0 to |vs|
      invariant fields == Concat(ps[..i])
    {
      ghost var before := fields;
      if ks[i] == IntType {
        var b := IntToBytes(parse(vs[i]), 4);
        fields := fields + b;
      } else if ks[i] == StringType {
        for j := 0 to |vs[i]|
          invariant fields == before + vs[i][..j]
        {
          fields := fields + [vs[i][j]];
          TakeSnoc(vs[i], j);
        }
        TakeAll(vs[i]);
        fields := fields + [0];
        ConcatAssoc(before, vs[i], [0]);
      } else {
        assert fields == before + [];
      }
      ConcatSnoc(ps[..i], ps[i]);
      TakeSnoc(ps, i);
    }
    TakeAll(ps);
  }

  method ExportObject(o: ObjectView, parse: Str -> Int32) returns (fields: seq<Byte>)
    requires |o.kinds| == |o.values|
    ensures fields == ObjectFields(o, parse)
  {
    var x := IntToBytes(o.pos.x, 2);
    var y := IntToBytes(o.pos.y, 2);
    var c := IntToBytes(o.classIndex, 2);
    var vals := ExportValues(o.values, o.kinds, parse);
    fields := x + y + c + vals;
  }

  /** The object count, then each object in list order, appended to what is already there. */
  method AppendObjects(data: seq<Byte>, os: seq<ObjectView>, parse: Str -> Int32) returns (fields: seq<Byte>)
    requires Typed(os)
    ensures fields == data + ObjectSection(os, parse)
  {
    var n := IntToBytes(|os|, 2);
    fields := data + n;
    ghost var ps := ObjectPieces(os, parse);
    for j := 0 to |os|
      invariant fields == data + (n + Concat(ps[..j]))
    {
      var one := ExportObject(os[j], parse);
      ConcatSnoc(ps[..j], ps[j]);
      TakeSnoc(ps, j);
      ConcatAssoc(data, n + Concat(ps[..j]), one);
      ConcatAssoc(n, Concat(ps[..j]), one);
      fields := fields + one;
    }
    TakeAll(ps);
  }

  /**
   * One level: size and cells, then the object section, into whose start
   * the count of its fields is inserted once it is complete.
   */
  method ExportLevel(v: LevelView, parse: Str -> Int32) returns (fields: seq<Byte>)
    requires Exportable(v)
    ensures fields == LevelFields(v, parse)
  {
    var w := IntToBytes(v.width, 2);
    var h := IntToBytes(v.height, 2);
    var tiles := ExportTiles(v);
    fields := w + h + tiles;
    var insertAt := |fields|;
    ghost var head := fields;
    fields := AppendObjects(fields, v.objects, parse);
    ghost var section := ObjectSection(v.objects, parse);
    SplitAt(head, section);
    var count := IntToBytes(|fields| - insertAt, 4);
    fields := fields[..insertAt] + count + fields[insertAt..];
    ConcatAssoc(head, count, section);
  }

  /** `exportData`: nothing when no level is open; otherwise the level count and each level in list order. */
  method ExportData(vs: seq<LevelView>, hasCurrent: bool, parse: Str -> Int32) returns (out: Option<seq<Byte>>)
    requires forall i :: 0 <= i < |vs| ==> Exportable(vs[i])
    ensures out == Export(vs, hasCurrent, parse)
  {
    if !hasCurrent {
      return None;
    }
    ghost var ps := LevelPieces(vs, parse);
    var data := IntToBytes(|vs|, 2);
    ghost var head := data;
    for i := 0 to |vs|
      invariant data == head + Concat(ps[..i])
    {
      var one := ExportLevel(vs[i], parse);
      ConcatSnoc(ps[..i], ps[i]);
      TakeSnoc(ps, i);
      ConcatAssoc(head, Concat(ps[..i]), one);
      data := data + one;
    }
    TakeAll(ps);
    out := Some(data);
  }
}
