/**
 * A tiled level (`TiledLevel::Level`): a width×height grid, row-major in a
 * `vec2i` array, whose cells hold the atlas tile they show or (-1, -1) for
 * none; the objects placed on it; creating, loading and saving it; and
 * resizing it with its content kept against the bottom edge.
 */
module Levels {
  import opened Arith
  import opened Bytes
  import opened Strings
  import opened Geometry
  import opened Metadata
  import opened Atlases
  import opened Objects
  import opened LevelFiles

  /** `uint32_t` arithmetic wraps at 2^32. */
  const U32 := 0x1_0000_0000

  /** `pos.x + pos.y * width` with `width` a `uint32_t`: the sum is taken modulo 2^32. */
  function TileIndex(width: nat, pos: Vec2): nat
  {
    (pos.x + pos.y * width) % U32
  }

  /** Inside the grid the index is the row-major cell number, and different cells have different indices. */
  lemma TileIndexInGrid(width: nat, height: nat, pos: Vec2)
    requires width * height < U32 && InRange(pos.x, 0, width) && InRange(pos.y, 0, height)
    ensures TileIndex(width, pos) == pos.x + pos.y * width < width * height
  {
    IndexInGrid(pos.x, pos.y, width, height);
    DivModUnique(pos.x + pos.y * width, U32, 0, pos.x + pos.y * width);
  }

  lemma TileIndexInjective(width: nat, height: nat, p: Vec2, q: Vec2)
    requires width * height < U32
    requires InRange(p.x, 0, width) && InRange(p.y, 0, height) && InRange(q.x, 0, width) && InRange(q.y, 0, height)
    ensures TileIndex(width, p) == TileIndex(width, q) <==> p == q
  {
    TileIndexInGrid(width, height, p);
    TileIndexInGrid(width, height, q);
    if TileIndex(width, p) == TileIndex(width, q) {
      IndexInjective(p.x, p.y, q.x, q.y, width);
    }
  }

  // ---------------------------------------------------------------------------
  // Resizing.

  /** A cell index of a w×h grid has its column below w and its row below h. */
  lemma CellInGrid(k: nat, w: nat, h: nat)
    requires k < w * h
    ensures w > 0 && k % w < w && k / w < h
  {
    DivMod(k, w);
    if k / w >= h {
      MulMono(h, k / w, w);
    }
  }

  /**
   * The progress of the resize loop: the bottom mh rows of column x' < x are
   * done, and the bottom y rows of column x. Target cell k lies in column
   * k % nw and row k / nw.
   */
  predicate Moved(nw: nat, nh: nat, x: nat, y: nat, mh: nat, k: nat)
    requires nw > 0
  {
    var tx, ty := k % nw, k / nw;
    (tx < x && nh - mh <= ty) || (tx == x && nh - y <= ty)
  }

  /** One cell part-way through: once moved, the old tile of the same column and the same row counted from the bottom. */
  function ResizeCell(src: seq<Vec2>, W: nat, H: nat, nw: nat, nh: nat, x: nat, y: nat, mw: nat, mh: nat, k: nat): Vec2
    requires |src| == W * H && k < nw * nh && x <= mw <= W && y <= mh <= H && (y > 0 ==> x < mw)
  {
    CellInGrid(k, nw, nh);
    if Moved(nw, nh, x, y, mh, k) then
      var tx, ty := k % nw, k / nw;
      IndexInGrid(tx, ty + H - nh, W, H);
      src[tx + (ty + H - nh) * W]
    else Empty
  }

  function ResizePartial(src: seq<Vec2>, W: nat, H: nat, nw: nat, nh: nat, x: nat, y: nat, mw: nat, mh: nat): (r: seq<Vec2>)
    requires |src| == W * H && x <= mw <= W && y <= mh <= H && (y > 0 ==> x < mw)
    ensures |r| == nw * nh
  {
    seq(nw * nh, k requires 0 <= k < nw * nh => ResizeCell(src, W, H, nw, nh, x, y, mw, mh, k))
  }

  /** The grid `resize` builds from a W×H grid: the overlap copied bottom-aligned, every other cell empty. */
  function Resized(src: seq<Vec2>, W: nat, H: nat, nw: nat, nh: nat): (r: seq<Vec2>)
    requires |src| == W * H
    ensures |r| == nw * nh
  {
    ResizePartial(src, W, H, nw, nh, Min(W, nw), 0, Min(W, nw), Min(H, nh))
  }

  lemma ResizeStart(src: seq<Vec2>, W: nat, H: nat, nw: nat, nh: nat, mw: nat, mh: nat)
    requires |src| == W * H && mw <= W && mh <= H
    ensures ResizePartial(src, W, H, nw, nh, 0, 0, mw, mh) == seq(nw * nh, _ => Empty)
  {
    forall k | 0 <= k < nw * nh
      ensures ResizePartial(src, W, H, nw, nh, 0, 0, mw, mh)[k] == Empty
    {
      CellInGrid(k, nw, nh);
    }
  }

  /** The row-major number of cell (x, y) of a w×h grid. */
  function Cell(x: nat, y: nat, w: nat, h: nat): (k: nat)
    requires x < w && y < h
    ensures k < w * h
  {
    IndexInGrid(x, y, w, h);
    x + y * w
  }

  /** Moving cell (x, y), y counted from the bottom, advances the inner loop by one row. */
  lemma ResizeStep(src: seq<Vec2>, W: nat, H: nat, nw: nat, nh: nat, x: nat, y: nat, mw: nat, mh: nat)
    requires |src| == W * H && mw == Min(W, nw) && mh == Min(H, nh) && x < mw && y < mh
    ensures ResizePartial(src, W, H, nw, nh, x, y + 1, mw, mh) ==
      ResizePartial(src, W, H, nw, nh, x, y, mw, mh)[Cell(x, nh - y - 1, nw, nh) := src[Cell(x, H - y - 1, W, H)]]
  {
    var ty := nh - y - 1;
    var t, v := Cell(x, ty, nw, nh), src[Cell(x, H - y - 1, W, H)];
    IndexDecompose(x, ty, nw);
    assert ty + H - nh == H - y - 1;
    var a, b := ResizePartial(src, W, H, nw, nh, x, y + 1, mw, mh), ResizePartial(src, W, H, nw, nh, x, y, mw, mh);
    forall k | 0 <= k < nw * nh
      ensures a[k] == b[t := v][k]
    {
      CellInGrid(k, nw, nh);
      DivMod(k, nw);
    }
  }

  lemma ResizeColumnDone(src: seq<Vec2>, W: nat, H: nat, nw: nat, nh: nat, x: nat, mw: nat, mh: nat)
    requires |src| == W * H && x < mw <= W && mh <= H
    ensures ResizePartial(src, W, H, nw, nh, x, mh, mw, mh) == ResizePartial(src, W, H, nw, nh, x + 1, 0, mw, mh)
  {
    forall k | 0 <= k < nw * nh
      ensures ResizePartial(src, W, H, nw, nh, x, mh, mw, mh)[k] == ResizePartial(src, W, H, nw, nh, x + 1, 0, mw, mh)[k]
    {
      CellInGrid(k, nw, nh);
    }
  }

  /**
   * Cell by cell: column x, row ty of the new grid shows the old tile of
   * column x, row ty + H - nh (the same row counted from the bottom) when that
   * cell is in the overlap, and no tile otherwise.
   */
  lemma ResizedAt(src: seq<Vec2>, W: nat, H: nat, nw: nat, nh: nat, x: nat, ty: nat)
    requires |src| == W * H && x < nw && ty < nh
    ensures Resized(src, W, H, nw, nh)[Cell(x, ty, nw, nh)] ==
      if x < Min(W, nw) && nh - Min(H, nh) <= ty then src[Cell(x, ty + H - nh, W, H)] else Empty
  {
    IndexDecompose(x, ty, nw);
  }

  /** Resizing to the same size changes nothing, so the early return agrees with the general case. */
  lemma ResizedSame(src: seq<Vec2>, W: nat, H: nat)
    requires |src| == W * H
    ensures Resized(src, W, H, W, H) == src
  {
    var r := Resized(src, W, H, W, H);
    forall k | 0 <= k < W * H
      ensures r[k] == src[k]
    {
      CellInGrid(k, W, H);
      DivMod(k, W);
      var x, y := k % W, k / W;
      assert Cell(x, y, W, H) == k;
      ResizedAt(src, W, H, W, H, x, y);
    }
  }

  /** Growing a level, then shrinking it back, gives the original tiles. */
  lemma ResizedGrowShrink(src: seq<Vec2>, W: nat, H: nat, nw: nat, nh: nat)
    requires |src| == W * H && W <= nw && H <= nh
    ensures Resized(Resized(src, W, H, nw, nh), nw, nh, W, H) == src
  {
    var mid := Resized(src, W, H, nw, nh);
    var r := Resized(mid, nw, nh, W, H);
    forall k | 0 <= k < W * H
      ensures r[k] == src[k]
    {
      CellInGrid(k, W, H);
      DivMod(k, W);
      var x, y := k % W, k / W;
      assert Cell(x, y, W, H) == k;
      ResizedAt(mid, nw, nh, W, H, x, y);
      ResizedAt(src, W, H, nw, nh, x, y + nh - H);
    }
  }

  // ---------------------------------------------------------------------------
  // Parents of placed objects.

  /** The class names, read once: resolution only looks at names. */
  function ClassNames(classes: seq<ObjectClass>): (ns: seq<Str>)
    reads classes`name
    ensures |ns| == |classes| && forall i :: 0 <= i < |classes| ==> ns[i] == classes[i].name
  {
    if classes == [] then [] else [classes[0].name] + ClassNames(classes[1..])
  }

  /** The position of the first name equal to name, or |names| for none. */
  function FirstNamed(names: seq<Str>, name: Str): (i: nat)
    ensures i <= |names|
    ensures forall j :: 0 <= j < i ==> names[j] != name
    ensures i < |names| ==> names[i] == name
  {
    if names == [] then 0
    else if names[0] == name then 0
    else 1 + FirstNamed(names[1..], name)
  }

  /** The parent `Level(name)` gives an object of class `name`: the first class so named, or none. */
  function ParentIn(classes: seq<ObjectClass>, names: seq<Str>, name: Str): (c: ObjectClass?)
    requires |names| == |classes|
  {
    var i := FirstNamed(names, name);
    if i < |classes| then classes[i] else null
  }

  /** An object gets no class exactly when no class has its class name; otherwise the first class of that name. */
  lemma ParentInSpec(classes: seq<ObjectClass>, names: seq<Str>, name: Str)
    requires |names| == |classes|
    ensures ParentIn(classes, names, name) == null <==> forall j :: 0 <= j < |names| ==> names[j] != name
    ensures ParentIn(classes, names, name) != null ==>
      exists i :: 0 <= i < |classes| && ParentIn(classes, names, name) == classes[i] && names[i] == name &&
        forall m :: 0 <= m < i ==> names[m] != name
  {
    var i := FirstNamed(names, name);
    if i < |classes| {
      assert ParentIn(classes, names, name) == classes[i];
    }
  }

  /** The level loader's search of the class list (the loop that breaks at the first match). */
  method FindParent(classes: seq<ObjectClass>, name: Str) returns (c: ObjectClass?)
    ensures c == ParentIn(classes, ClassNames(classes), name)
  {
    ghost var names := ClassNames(classes);
    var i := 0;
    while i < |classes|
      invariant i <= |classes|
      invariant forall j :: 0 <= j < i ==> names[j] != name
    {
      if classes[i].name == name {
        assert FirstNamed(names, name) == i;
        return classes[i];
      }
      i := i + 1;
    }
    c := null;
  }

  /** The objects of objs whose class is c, in order: what loading pushes onto c's children. */
  ghost function Attached(objs: seq<Object>, c: ObjectClass): seq<Object>
    reads objs
  {
    if objs == [] then []
    else Attached(objs[..|objs| - 1], c) + (if objs[|objs| - 1].parent == c then [objs[|objs| - 1]] else [])
  }

  lemma AttachedSnoc(objs: seq<Object>, o: Object, c: ObjectClass)
    ensures Attached(objs + [o], c) == Attached(objs, c) + (if o.parent == c then [o] else [])
  {
    assert (objs + [o])[..|objs|] == objs;
  }

  /** The objects whose recorded class is c, given each object's class in ps. */
  function AttachedTo(objs: seq<Object>, ps: seq<ObjectClass?>, c: ObjectClass): seq<Object>
    requires |ps| == |objs|
  {
    if objs == [] then []
    else AttachedTo(objs[..|objs| - 1], ps[..|ps| - 1], c) + (if ps[|ps| - 1] == c then [objs[|objs| - 1]] else [])
  }

  lemma AttachedToSnoc(objs: seq<Object>, ps: seq<ObjectClass?>, o: Object, p: ObjectClass?, c: ObjectClass)
    requires |ps| == |objs|
    ensures AttachedTo(objs + [o], ps + [p], c) == AttachedTo(objs, ps, c) + (if p == c then [o] else [])
  {
    assert (objs + [o])[..|objs|] == objs && (ps + [p])[..|ps|] == ps;
  }

  lemma {:induction false} AttachedAgrees(objs: seq<Object>, ps: seq<ObjectClass?>, c: ObjectClass)
    requires |ps| == |objs| && forall k :: 0 <= k < |objs| ==> objs[k].parent == ps[k]
    ensures Attached(objs, c) == AttachedTo(objs, ps, c)
  {
    if objs != [] {
      AttachedAgrees(objs[..|objs| - 1], ps[..|ps| - 1], c);
    }
  }

  /** `n` values with `freadstr`. */
  method ReadStrList(f: seq<Byte>, n: nat) returns (vs: seq<Str>, rest: seq<Byte>)
    ensures (vs, rest) == ReadStrs(f, n)
  {
    vs, rest := [], f;
    ghost var total := ReadStrs(f, n);
    assert [] + total.0 == total.0;
    for k := 0 to n
      invariant total == (vs + ReadStrs(rest, n - k).0, ReadStrs(rest, n - k).1)
    {
      var s, unread := ReadStr(rest);
      ghost var after := ReadStrs(unread, n - k - 1);
      ConcatAssoc(vs, [s], after.0);
      vs, rest := vs + [s], unread;
    }
    assert vs + [] == vs;
  }

  /** The record fields of one object as the loader reads them. */
  method ReadObjectHeader(f: seq<Byte>) returns (pos: Vec2, className: Str, count: nat, rest: seq<Byte>)
    ensures var n := DecodeAll(ObjectCodes, ObjectSlots, f);
      pos == Vec2(ToInt32(IntOf(n.0[0])), ToInt32(IntOf(n.0[1]))) && className == StrOf(n.0[2]) &&
      count == IntOf(n.0[3]) && rest == n.1
  {
    FormatObject();
    assert AcceptsAll(ObjectCodes[1..][1..][1..], ObjectSlots[1..][1..][1..]);
    var vals, unread := ReadMetadata(ObjectFormat, ObjectSlots, f);
    pos, className, count, rest := Vec2(ToInt32(IntOf(vals[0])), ToInt32(IntOf(vals[1]))), StrOf(vals[2]), IntOf(vals[3]), unread;
  }

  /** One object's record and values, read as `Level(name)` reads them. */
  method ReadRecord(f: seq<Byte>) returns (rec: ObjectRecord, rest: seq<Byte>)
    ensures (rec, rest) == ReadObject(f)
  {
    var pos, className, count, unread := ReadObjectHeader(f);
    var values, after := ReadStrList(unread, count);
    rec, rest := ObjectRecord(pos, className, values), after;
  }

  /** Where each of n consecutive records starts, and where the last ends. */
  ghost function Cursors(f: seq<Byte>, n: nat): (cs: seq<seq<Byte>>)
    ensures |cs| == n + 1 && cs[0] == f
    decreases n
  {
    if n == 0 then [f] else [f] + Cursors(ReadObject(f).1, n - 1)
  }

  /** Record j is read from cursor j and leaves cursor j + 1. */
  ghost predicate Chain(cs: seq<seq<Byte>>, rs: seq<ObjectRecord>)
  {
    |cs| == |rs| + 1 && forall j {:trigger ReadObject(cs[j])} :: 0 <= j < |rs| ==> ReadObject(cs[j]) == (rs[j], cs[j + 1])
  }

  lemma {:induction false} CursorsChain(f: seq<Byte>, n: nat)
    ensures Chain(Cursors(f, n), ReadObjects(f, n).0) && ReadObjects(f, n).1 == Cursors(f, n)[n]
    decreases n
  {
    if n > 0 {
      var o := ReadObject(f);
      CursorsChain(o.1, n - 1);
      var cs, r := Cursors(f, n), ReadObjects(f, n);
      var cs', r' := Cursors(o.1, n - 1), ReadObjects(o.1, n - 1);
      assert cs == [f] + cs' && r.0 == [o.0] + r'.0;
      forall j | 0 <= j < n
        ensures ReadObject(cs[j]) == (r.0[j], cs[j + 1])
      {
        if j > 0 {
          assert cs[j] == cs'[j - 1] && cs[j + 1] == cs'[j] && r.0[j] == r'.0[j - 1];
          assert ReadObject(cs'[j - 1]) == (r'.0[j - 1], cs'[j]);
        }
      }
    }
  }

  /** A placed object as loaded from record r, with class c. */
  ghost predicate LoadedAs(o: Object, r: ObjectRecord, c: ObjectClass?)
    reads o
  {
    o.pos == r.pos && o.properties == r.values && o.parent == c
  }

  /** The objects loaded so far, each built from the record of its place with its class. */
  ghost predicate Placed(objs: seq<Object>, parents: seq<ObjectClass?>, recs: seq<ObjectRecord>)
    reads objs
  {
    |objs| == |parents| <= |recs| && forall m :: 0 <= m < |objs| ==> LoadedAs(objs[m], recs[m], parents[m])
  }

  lemma PlacedSnoc(objs: seq<Object>, parents: seq<ObjectClass?>, recs: seq<ObjectRecord>, o: Object, p: ObjectClass?)
    requires Placed(objs, parents, recs) && |objs| < |recs| && LoadedAs(o, recs[|objs|], p)
    ensures Placed(objs + [o], parents + [p], recs)
  {
  }

  /** Each class's children: those at the start, then the loaded objects of that class. */
  ghost predicate Attaching(classes: seq<ObjectClass>, start: map<ObjectClass, seq<Object>>, objs: seq<Object>, parents: seq<ObjectClass?>)
    requires |parents| == |objs|
    reads classes`children
  {
    forall c :: c in classes ==> c in start && c.children == start[c] + AttachedTo(objs, parents, c)
  }

  /** Record k of a chain of records. */
  method ReadNth(f: seq<Byte>, ghost cs: seq<seq<Byte>>, ghost rs: seq<ObjectRecord>, ghost k: nat)
    returns (rec: ObjectRecord, rest: seq<Byte>)
    requires Chain(cs, rs) && k < |rs| && f == cs[k]
    ensures rec == rs[k] && rest == cs[k + 1]
  {
    assert ReadObject(cs[k]) == (rs[k], cs[k + 1]);
    rec, rest := ReadRecord(f);
  }

  /**
   * The state after the first |objs| objects of `Level(name)`: each built from
   * its record, with the first class of the record's class name as its class,
   * no object twice, and each class's children extended by its objects.
   */
  ghost predicate Loading(classes: seq<ObjectClass>, names: seq<Str>, start: map<ObjectClass, seq<Object>>,
                          objs: seq<Object>, parents: seq<ObjectClass?>, rs: seq<ObjectRecord>)
    reads objs, classes`children
  {
    |names| == |classes| && Placed(objs, parents, rs) && Distinct(objs) && Attaching(classes, start, objs, parents) &&
    forall m :: 0 <= m < |objs| ==> parents[m] == ParentIn(classes, names, rs[m].className)
  }

  /**
   * One object of `Level(name)` from its record: a new object with the
   * record's position and values; when a class has the record's class name,
   * the first such becomes its parent and the object joins its children.
   */
  method PlaceObject(classes: seq<ObjectClass>, rec: ObjectRecord, ghost names: seq<Str>, ghost start: map<ObjectClass, seq<Object>>,
                     ghost objs: seq<Object>, ghost parents: seq<ObjectClass?>)
    returns (obj: Object)
    requires names == ClassNames(classes) && |parents| == |objs| && Attaching(classes, start, objs, parents)
    modifies classes`children
    ensures fresh(obj) && obj !in objs
    ensures LoadedAs(obj, rec, obj.parent) && obj.parent == ParentIn(classes, names, rec.className)
    ensures Attaching(classes, start, objs + [obj], parents + [obj.parent])
  {
    obj := new Object.Placed(rec.pos, rec.values);
    var parent := FindParent(classes, rec.className);
    if parent != null {
      obj.parent := parent;
      parent.children := parent.children + [obj];
    }
    forall c | c in classes
      ensures c.children == start[c] + AttachedTo(objs + [obj], parents + [obj.parent], c)
    {
      AttachedToSnoc(objs, parents, obj, obj.parent, c);
      assert old(c.children) == start[c] + AttachedTo(objs, parents, c);
    }
  }

  /** One turn of the object loop: the next object placed keeps the loading state. */
  method LoadStep(classes: seq<ObjectClass>, rec: ObjectRecord, ghost names: seq<Str>, ghost start: map<ObjectClass, seq<Object>>,
                  ghost objs: seq<Object>, ghost parents: seq<ObjectClass?>, ghost rs: seq<ObjectRecord>)
    returns (obj: Object)
    requires names == ClassNames(classes) && Loading(classes, names, start, objs, parents, rs)
    requires |objs| < |rs| && rec == rs[|objs|]
    modifies classes`children
    ensures names == ClassNames(classes)
    ensures Loading(classes, names, start, objs + [obj], parents + [obj.parent], rs)
  {
    obj := PlaceObject(classes, rec, names, start, objs, parents);
    PlacedSnoc(objs, parents, rs, obj, obj.parent);
    DistinctSnoc(objs, obj);
  }

  /**
   * Objects as `Level(name)` loads them from records: one object per record, with its
   * position and values, and as class the first class of the record's class
   * name among classes with the given names (none when no class has it).
   */
  ghost predicate LoadedFrom(objs: seq<Object>, recs: seq<ObjectRecord>, classes: seq<ObjectClass>, names: seq<Str>)
    reads objs
  {
    |objs| == |recs| && |names| == |classes| && Distinct(objs) &&
    forall k :: 0 <= k < |objs| ==>
      objs[k].pos == recs[k].pos && objs[k].properties == recs[k].values &&
      objs[k].parent == ParentIn(classes, names, recs[k].className)
  }

  /** The object loop of `Level(name)`: n objects, attached in file order. */
  method LoadObjects(classes: seq<ObjectClass>, f: seq<Byte>, n: nat) returns (objs: seq<Object>, rest: seq<Byte>)
    modifies classes`children
    ensures rest == ReadObjects(f, n).1 && LoadedFrom(objs, ReadObjects(f, n).0, classes, old(ClassNames(classes)))
    ensures forall c :: c in classes ==> c.children == old(c.children) + Attached(objs, c)
  {
    objs, rest := [], f;
    ghost var parents: seq<ObjectClass?> := [];
    ghost var cs, rs := Cursors(f, n), ReadObjects(f, n).0;
    CursorsChain(f, n);
    ghost var start := map c | c in classes :: c.children;
    ghost var names := ClassNames(classes);
    for k := 0 to n
      invariant |objs| == |parents| == k && rest == cs[k]
      invariant names == ClassNames(classes) && Loading(classes, names, start, objs, parents, rs)
    {
      var rec, after := ReadNth(rest, cs, rs, k);
      var obj := LoadStep(classes, rec, names, start, objs, parents, rs);
      objs, rest, parents := objs + [obj], after, parents + [obj.parent];
    }
    forall c | c in classes
      ensures c.children == old(c.children) + Attached(objs, c)
    {
      AttachedAgrees(objs, parents, c);
    }
  }

  /** The file record of a placed object (saving dereferences its class). */
  function Record(o: Object): ObjectRecord
    reads o, o.parent
    requires o.parent != null
  {
    ObjectRecord(o.pos, o.parent.name, o.properties)
  }

  /** The classes the objects of objs point to. */
  function Parents(objs: seq<Object>): set<ObjectClass>
    reads objs
  {
    set k | 0 <= k < |objs| && objs[k].parent != null :: objs[k].parent
  }

  function Records(objs: seq<Object>): (rs: seq<ObjectRecord>)
    reads objs, Parents(objs)
    requires forall k :: 0 <= k < |objs| ==> objs[k].parent != null
    ensures |rs| == |objs| && forall k :: 0 <= k < |objs| ==> rs[k] == Record(objs[k])
  {
    if objs == [] then []
    else
      assert Parents(objs[1..]) <= Parents(objs) by {
        forall c | c in Parents(objs[1..])
          ensures c in Parents(objs)
        {
          var k :| 0 <= k < |objs[1..]| && objs[1..][k].parent == c;
          assert objs[k + 1].parent == c;
        }
      }
      assert objs[0].parent in Parents(objs);
      [Record(objs[0])] + Records(objs[1..])
  }

  /** Each value with `fwritestr`. */
  method WriteStrs(vs: seq<Str>) returns (bytes: seq<Byte>)
    ensures bytes == EncodeStrs(vs)
  {
    bytes := [];
    for k := 0 to |vs|
      invariant EncodeStrs(vs) == bytes + EncodeStrs(vs[k..])
    {
      assert vs[k..][1..] == vs[k + 1..];
      bytes := bytes + WriteStr(vs[k]);
    }
    assert vs[|vs|..] == [];
  }

  /** One object of `Level::save`: its record, then its values. */
  method WriteObject(o: Object) returns (bytes: seq<Byte>)
    requires o.parent != null
    ensures bytes == EncodeObject(Record(o))
  {
    FormatObject();
    var rec := WriteMetadata(ObjectFormat, ObjectArgs(Record(o)));
    var values := WriteStrs(o.properties);
    bytes := rec + values;
  }

  /** The level objects of `Level::save`, one after another. */
  method WriteObjects(objs: seq<Object>) returns (bytes: seq<Byte>)
    requires forall k :: 0 <= k < |objs| ==> objs[k].parent != null
    ensures bytes == EncodeObjects(Records(objs))
  {
    ghost var recs := Records(objs);
    bytes := [];
    for k := 0 to |objs|
      invariant EncodeObjects(recs) == bytes + EncodeObjects(recs[k..])
    {
      var one := WriteObject(objs[k]);
      EncodeObjectsStep(recs, k, bytes);
      bytes := bytes + one;
    }
    EncodeObjectsDone(recs, bytes);
    assert recs == Records(objs);
  }

  /** The header record of a level file, then its objects. */
  lemma SaveJoin(lf: LevelFile, head: seq<Byte>, body: seq<Byte>)
    requires |lf.tiles| == lf.width * lf.height
    requires head + EncodeObjects(lf.objects) == EncodeLevelFile(lf) && body == EncodeObjects(lf.objects)
    ensures head + body == EncodeLevelFile(lf)
  {
  }

  /** The header record of `Level::save`: sizes, tileset name, the raw tile array and the object count. */
  method WriteLevelHeader(lf: LevelFile) returns (bytes: seq<Byte>)
    requires |lf.tiles| == lf.width * lf.height
    ensures bytes + EncodeObjects(lf.objects) == EncodeLevelFile(lf)
  {
    LevelCodesSplit();
    MatchesAppend(HeaderCodes, HeadArgs(lf), TailCodes, TailArgs(lf));
    var args := [IntArg(lf.width), IntArg(lf.height), StrArg(lf.tilesetName),
      BlobArg(Vec2sBytes(lf.tiles), BlockSize(lf.width, lf.height)), IntArg(|lf.objects|)];
    assert args == HeadArgs(lf) + TailArgs(lf);
    bytes := WriteMetadata(LevelFormat, args);
  }

  /**
   * The copy loop of `resize`: for the overlap's columns x and bottom-counted
   * rows y, cell x of row nh - y - 1 of the new grid gets `getTile` of
   * column x, row H - y - 1 of the old one.
   */
  method CopyResized(src: array<Vec2>, W: nat, H: nat, grid: array<Vec2>, nw: nat, nh: nat)
    requires src.Length == W * H && W * H < U32 && grid.Length == nw * nh && src != grid
    requires forall k :: 0 <= k < grid.Length ==> grid[k] == Empty
    modifies grid
    ensures grid[..] == Resized(src[..], W, H, nw, nh)
  {
    ghost var from := src[..];
    var mw, mh := Min(W, nw), Min(H, nh);
    ResizeStart(from, W, H, nw, nh, mw, mh);
    assert grid[..] == ResizePartial(from, W, H, nw, nh, 0, 0, mw, mh);
    for x := 0 to mw
      invariant grid[..] == ResizePartial(from, W, H, nw, nh, x, 0, mw, mh)
    {
      for y := 0 to mh
        invariant grid[..] == ResizePartial(from, W, H, nw, nh, x, y, mw, mh)
      {
        ResizeStep(from, W, H, nw, nh, x, y, mw, mh);
        grid[Cell(x, nh - y - 1, nw, nh)] := src[Cell(x, H - y - 1, W, H)];
      }
      ResizeColumnDone(from, W, H, nw, nh, x, mw, mh);
    }
  }

  /** The new array of `resize`: nw × nh cells filled with (-1, -1), then the copy. */
  method ResizedArray(src: array<Vec2>, W: nat, H: nat, nw: nat, nh: nat) returns (grid: array<Vec2>)
    requires src.Length == W * H && W * H < U32
    ensures fresh(grid) && grid[..] == Resized(src[..], W, H, nw, nh)
  {
    grid := new Vec2[nw * nh](_ => Empty);
    CopyResized(src, W, H, grid, nw, nh);
  }

  /** `TiledLevel::Level`. */
  class Level {
    var tileset: Atlas?
    var width: nat
    var height: nat
    var name: Str
    var data: array<Vec2>
    var objects: seq<Object>

    /** The sizes are 32-bit, their product did not wrap, and the array holds one tile per cell. */
    ghost predicate Valid()
      reads this
    {
      width < U32 && height < U32 && width * height < U32 && data.Length == width * height
    }

    /** `getTile`. */
    function GetTile(pos: Vec2): Vec2
      reads this, data
      requires TileIndex(width, pos) < data.Length
    {
      data[TileIndex(width, pos)]
    }

    /** `setTile`: only the addressed cell changes. */
    method SetTile(pos: Vec2, tile: Vec2)
      requires TileIndex(width, pos) < data.Length
      modifies data
      ensures data[..] == old(data[..])[TileIndex(width, pos) := tile]
      ensures GetTile(pos) == tile
    {
      data[TileIndex(width, pos)] := tile;
    }

    /** `Level(name, tileset, width, height)`: a grid of (width × height mod 2^32) empty cells and no objects. */
    constructor New(name: Str, tileset: Atlas?, width: nat, height: nat)
      requires width < U32 && height < U32
      ensures this.name == name && this.tileset == tileset && this.width == width && this.height == height
      ensures fresh(data) && data.Length == (width * height) % U32
      ensures forall k :: 0 <= k < data.Length ==> data[k] == Empty
      ensures objects == []
      ensures width * height < U32 ==> Valid()
    {
      this.name, this.tileset, this.width, this.height := name, tileset, width, height;
      data := new Vec2[(width * height) % U32](_ => Empty);
      objects := [];
      if width * height < U32 {
        DivModUnique(width * height, U32, 0, width * height);
      }
    }

    /**
     * `resize(size)`: nothing for the current size; otherwise a fresh empty
     * grid of the new size into which the overlap is copied bottom-aligned.
     */
    method Resize(size: Vec2)
      requires Valid() && IsInt32Vec(size) && 0 <= size.x && 0 <= size.y && size.x * size.y < 0x8000_0000
      modifies this
      ensures tileset == old(tileset) && name == old(name) && objects == old(objects)
      ensures Vec2(ToInt32(old(width)), ToInt32(old(height))) == size ==>
        width == old(width) && height == old(height) && data == old(data)
      ensures Vec2(ToInt32(old(width)), ToInt32(old(height))) != size ==>
        width == size.x && height == size.y && fresh(data) &&
        data[..] == Resized(old(data[..]), old(width), old(height), size.x, size.y)
      ensures Valid()
    {
      if Vec2(ToInt32(width), ToInt32(height)) == size {
        return;
      }
      var nw, nh: nat := size.x, size.y;
      var grid := ResizedArray(data, width, height, nw, nh);
      data, width, height := grid, nw, nh;
    }

    /** What `save` writes; it dereferences the tileset and every object's class. */
    function Saved(): (lf: LevelFile)
      reads this, data, tileset, objects, Parents(objects)
      requires tileset != null && Valid() && forall k :: 0 <= k < |objects| ==> objects[k].parent != null
      ensures |lf.tiles| == lf.width * lf.height
    {
      LevelFile(width, height, tileset.name, data[..], Records(objects))
    }

    /** `save`: the header record with the raw tile array, then each object. */
    method Save() returns (bytes: seq<Byte>)
      requires tileset != null && Valid() && forall k :: 0 <= k < |objects| ==> objects[k].parent != null
      ensures bytes == EncodeLevelFile(Saved())
    {
      var lf := Saved();
      var head := WriteLevelHeader(lf);
      var body := WriteObjects(objects);
      bytes := head + body;
      assert lf == Saved();
      assert body == EncodeObjects(lf.objects);
      SaveJoin(lf, head, body);
    }

    /**
     * `Level(name)`: the header, the tileset by name, the raw tile array, then
     * the objects; the tile array has (width × height mod 2^32) cells while
     * width × height tiles are read into it, so a wrapping product overruns it.
     */
    constructor Load(name: Str, atlases: seq<Atlas>, classes: seq<ObjectClass>, f: seq<Byte>)
      requires DecodeLevelFile(f).width * DecodeLevelFile(f).height < U32
      modifies classes`children
      ensures var lf := DecodeLevelFile(f);
        this.name == name && width == lf.width && height == lf.height &&
        tileset == FindAtlas(atlases, lf.tilesetName) && fresh(data) && data[..] == lf.tiles && Valid()
      ensures LoadedFrom(objects, DecodeLevelFile(f).objects, classes, old(ClassNames(classes)))
      ensures forall c :: c in classes ==> c.children == old(c.children) + Attached(objects, c)
    {
      var w, h, found, cells, objs := LoadLevel(atlases, classes, f);
      this.name, width, height, tileset, data, objects := name, w, h, found, cells, objs;
    }
  }

  /**
   * `save` followed by `Level(name)`: the same sizes and tiles, the tileset
   * found again by name, and one object per saved object with its position and
   * values, re-attached to the first class of its class's name.
   */
  method SaveThenLoad(l: Level, atlases: seq<Atlas>, classes: seq<ObjectClass>) returns (m: Level)
    requires l.tileset != null && l.Valid() && forall k :: 0 <= k < |l.objects| ==> l.objects[k].parent != null
    requires LevelFiles.Saveable(l.Saved())
    modifies classes`children
    ensures m.name == l.name && m.width == l.width && m.height == l.height
    ensures fresh(m.data) && m.data[..] == l.data[..] && m.Valid()
    ensures m.tileset == FindAtlas(atlases, l.tileset.name)
    ensures LoadedFrom(m.objects, old(Records(l.objects)), classes, old(ClassNames(classes)))
    ensures forall k :: 0 <= k < |l.objects| ==>
      m.objects[k].pos == old(l.objects[k].pos) && m.objects[k].properties == old(l.objects[k].properties)
    ensures forall c :: c in classes ==> c.children == old(c.children) + Attached(m.objects, c)
  {
    ghost var saved := l.Saved();
    var bytes := SaveReadable(l);
    m := new Level.Load(l.name, atlases, classes, bytes);
  }

  /** `save` of a saveable level: the bytes decode to what was saved, whose grid fits the loader's array. */
  method SaveReadable(l: Level) returns (bytes: seq<Byte>)
    requires l.tileset != null && l.Valid() && forall k :: 0 <= k < |l.objects| ==> l.objects[k].parent != null
    requires LevelFiles.Saveable(l.Saved())
    ensures DecodeLevelFile(bytes) == old(l.Saved())
    ensures DecodeLevelFile(bytes).width * DecodeLevelFile(bytes).height < U32
  {
    ghost var saved := l.Saved();
    assert LevelFiles.Saveable(saved);
    bytes := l.Save();
    assert Records(l.objects) == saved.objects;
    assert l.data[..] == saved.tiles;
    assert l.tileset.name == saved.tilesetName;
    assert bytes == EncodeLevelFile(saved);
    LevelFileRoundTrip(saved, []);
    assert bytes + [] == bytes;
  }

  /** The reading steps of `Level(name)`, in order: header, tileset, tiles, object count, objects. */
  method LoadLevel(atlases: seq<Atlas>, classes: seq<ObjectClass>, f: seq<Byte>)
    returns (width: nat, height: nat, tileset: Atlas?, cells: array<Vec2>, objs: seq<Object>)
    requires DecodeLevelFile(f).width * DecodeLevelFile(f).height < U32
    modifies classes`children
    ensures var lf := DecodeLevelFile(f);
      width == lf.width && height == lf.height && width < U32 && height < U32 && width * height < U32 &&
      tileset == FindAtlas(atlases, lf.tilesetName) && fresh(cells) && cells[..] == lf.tiles
    ensures LoadedFrom(objs, DecodeLevelFile(f).objects, classes, old(ClassNames(classes)))
    ensures forall c :: c in classes ==> c.children == old(c.children) + Attached(objs, c)
  {
    var tilesetName, afterHeader;
    width, height, tilesetName, afterHeader := ReadLevelHeader(f);
    tileset := AtlasByName(atlases, tilesetName);
    var afterTiles;
    cells, afterTiles := ReadTiles(afterHeader, width, height);
    var count := GetN(afterTiles, 2);
    var unread;
    objs, unread := LoadObjects(classes, count.1, count.0);
  }

  /**
   * The tile array of `Level(name)`: (width × height mod 2^32) cells, into
   * which width × height raw `vec2i` values are read; the product must not wrap.
   */
  method ReadTiles(f: seq<Byte>, width: nat, height: nat) returns (cells: array<Vec2>, rest: seq<Byte>)
    requires width * height < U32
    ensures fresh(cells) && (cells[..], rest) == ReadVec2s(f, width * height)
  {
    var tiles := ReadVec2s(f, width * height);
    DivModUnique(width * height, U32, 0, width * height);
    cells := new Vec2[(width * height) % U32](k requires 0 <= k < width * height => tiles.0[k]);
    rest := tiles.1;
    assert cells[..] == tiles.0;
  }

  /** The header record of `Level(name)`. */
  method ReadLevelHeader(f: seq<Byte>) returns (width: nat, height: nat, tilesetName: Str, rest: seq<Byte>)
    ensures (width, height, tilesetName, rest) == ReadHeader(f)
    ensures width < U32 && height < U32
  {
    FormatLevelHeader();
    assert AcceptsAll(HeaderCodes[1..][1..], HeaderSlots[1..][1..]);
    var hdr, unread := ReadMetadata(LevelHeaderFormat, HeaderSlots, f);
    width, height, tilesetName, rest := IntOf(hdr[0]), IntOf(hdr[1]), StrOf(hdr[2]), unread;
    ReadHeaderBounds(f);
  }

  /** The header sizes are read from 4-byte fields, so each is below 2^32. */
  lemma ReadHeaderBounds(f: seq<Byte>)
    ensures ReadHeader(f).0 < U32 && ReadHeader(f).1 < U32
  {
    assert AcceptsAll(HeaderCodes[1..][1..], HeaderSlots[1..][1..]);
    var first := ReadBytes(f, 4);
    var second := ReadBytes(first.1, 4);
    LeValueBound(first.0);
    LeValueBound(second.0);
    assert Pow256(4) == U32;
    DecodeAllCons(HeaderCodes, HeaderSlots, f);
    DecodeAllCons(HeaderCodes[1..], HeaderSlots[1..], first.1);
  }

}
