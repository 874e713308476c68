/**
 * The `.lvl` file layout of a tiled level: a header written with
 * "%32i %32i %s %b %16i" (width, height, tileset name, the raw tile array,
 * object count), then per object a "%32i %32i %s %16i" record (position,
 * class name, value count) followed by its values as stored strings. The
 * loader reads the header through "%32i, %32i, %s" and the rest directly.
 */
module LevelFiles {
  import opened Arith
  import opened Bytes
  import opened Strings
  import opened Geometry
  import opened Metadata

  /** One placed object as the file holds it. */
  datatype ObjectRecord = ObjectRecord(pos: Vec2, className: Str, values: seq<Str>)

  /** A whole level file. */
  datatype LevelFile = LevelFile(width: nat, height: nat, tilesetName: Str, tiles: seq<Vec2>, objects: seq<ObjectRecord>)

  const HeaderCodes := [Int(4), Int(4), Text]
  const HeaderSlots := [IntSlot, IntSlot, StrSlot]
  const TailCodes := [Blob, Int(2)]
  const ObjectCodes := [Int(4), Int(4), Text, Int(2)]
  const ObjectSlots := [IntSlot, IntSlot, StrSlot, IntSlot]

  /** `sizeof(vec2i) * width * height`, as the `%b` size is taken off the argument list: a `uint32_t`. */
  function BlockSize(width: nat, height: nat): nat
  {
    (8 * (width * height)) % 0x1_0000_0000
  }

  /** The first three arguments of the saved header: width, height, tileset name. */
  function HeadArgs(lf: LevelFile): (args: seq<Arg>)
    ensures Matches(HeaderCodes, args)
  {
    var args := [IntArg(lf.width), IntArg(lf.height), StrArg(lf.tilesetName)];
    assert Matches(HeaderCodes[2..], args[2..]);
    assert Matches(HeaderCodes[1..], args[1..]);
    args
  }

  /** The rest of the saved header: the tile block with its size, then the object count. */
  function TailArgs(lf: LevelFile): (args: seq<Arg>)
    requires |lf.tiles| == lf.width * lf.height
    ensures Matches(TailCodes, args)
  {
    var args := [BlobArg(Vec2sBytes(lf.tiles), BlockSize(lf.width, lf.height)), IntArg(|lf.objects|)];
    assert Matches(TailCodes[1..], args[1..]);
    args
  }

  function ObjectArgs(o: ObjectRecord): (args: seq<Arg>)
    ensures Matches(ObjectCodes, args)
  {
    var args := [IntArg(o.pos.x), IntArg(o.pos.y), StrArg(o.className), IntArg(|o.values|)];
    assert Matches(ObjectCodes[3..], args[3..]);
    assert Matches(ObjectCodes[2..], args[2..]);
    assert Matches(ObjectCodes[1..], args[1..]);
    args
  }

  /** Each value with `fwritestr` on the whole `std::string`. */
  function EncodeStrs(vs: seq<Str>): seq<Byte>
  {
    if vs == [] then [] else WriteStr(vs[0]) + EncodeStrs(vs[1..])
  }

  function EncodeObject(o: ObjectRecord): seq<Byte>
  {
    EncodeAll(ObjectCodes, ObjectArgs(o)) + EncodeStrs(o.values)
  }

  function EncodeObjects(os: seq<ObjectRecord>): seq<Byte>
  {
    if os == [] then [] else EncodeObject(os[0]) + EncodeObjects(os[1..])
  }

  /** The objects from position k on: object k, then those after it. */
  lemma EncodeObjectsAt(os: seq<ObjectRecord>, k: nat)
    requires k < |os|
    ensures EncodeObjects(os[k..]) == EncodeObject(os[k]) + EncodeObjects(os[k + 1..])
  {
    assert os[k..][1..] == os[k + 1..];
  }

  /** Writing object k after the first k extends what has been written by object k. */
  lemma EncodeObjectsStep(os: seq<ObjectRecord>, k: nat, bytes: seq<Byte>)
    requires k < |os| && EncodeObjects(os) == bytes + EncodeObjects(os[k..])
    ensures EncodeObjects(os) == (bytes + EncodeObject(os[k])) + EncodeObjects(os[k + 1..])
  {
    EncodeObjectsAt(os, k);
    ConcatAssoc(bytes, EncodeObject(os[k]), EncodeObjects(os[k + 1..]));
  }

  /** Once every object is written, the written bytes are all of them. */
  lemma EncodeObjectsDone(os: seq<ObjectRecord>, bytes: seq<Byte>)
    requires EncodeObjects(os) == bytes + EncodeObjects(os[|os|..])
    ensures EncodeObjects(os) == bytes
  {
    assert os[|os|..] == [] && bytes + [] == bytes;
  }

  /** `Level::save`. */
  function EncodeLevelFile(lf: LevelFile): seq<Byte>
    requires |lf.tiles| == lf.width * lf.height
  {
    LevelCodesSplit();
    MatchesAppend(HeaderCodes, HeadArgs(lf), TailCodes, TailArgs(lf));
    EncodeAll(Codes(LevelFormat), HeadArgs(lf) + TailArgs(lf)) + EncodeObjects(lf.objects)
  }

  /** The saved header's codes are the loaded header's, then the tile block and the object count. */
  lemma LevelCodesSplit()
    ensures Codes(LevelFormat) == HeaderCodes + TailCodes
  {
    FormatLevel();
    assert HeaderCodes + TailCodes == [Int(4), Int(4), Text, Blob, Int(2)];
  }

  /** n strings with `freadstr`. */
  function ReadStrs(f: seq<Byte>, n: nat): (r: (seq<Str>, seq<Byte>))
    ensures |r.0| == n
    decreases n
  {
    if n == 0 then ([], f)
    else
      var s := ScanStr(f);
      var rest := ReadStrs(s.1, n - 1);
      ([s.0] + rest.0, rest.1)
  }

  /** One object: its record, then as many strings as the record's count. */
  function ReadObject(f: seq<Byte>): (ObjectRecord, seq<Byte>)
  {
    assert AcceptsAll(ObjectCodes[1..][1..][1..], ObjectSlots[1..][1..][1..]);
    var r := DecodeAll(ObjectCodes, ObjectSlots, f);
    var values := ReadStrs(r.1, IntOf(r.0[3]));
    (ObjectRecord(Vec2(ToInt32(IntOf(r.0[0])), ToInt32(IntOf(r.0[1]))), StrOf(r.0[2]), values.0), values.1)
  }

  function ReadObjects(f: seq<Byte>, n: nat): (r: (seq<ObjectRecord>, seq<Byte>))
    ensures |r.0| == n
    decreases n
  {
    if n == 0 then ([], f)
    else
      var o := ReadObject(f);
      var rest := ReadObjects(o.1, n - 1);
      ([o.0] + rest.0, rest.1)
  }

  /** The tile data a loader with this header reads: `sizeof(vec2i) * width * height` bytes, as `vec2i` values. */
  function ReadHeader(f: seq<Byte>): (r: (nat, nat, Str, seq<Byte>))
  {
    assert AcceptsAll(HeaderCodes[1..][1..], HeaderSlots[1..][1..]);
    var hdr := DecodeAll(HeaderCodes, HeaderSlots, f);
    (IntOf(hdr.0[0]), IntOf(hdr.0[1]), StrOf(hdr.0[2]), hdr.1)
  }

  /** `Level(name)` on the file's bytes. */
  function DecodeLevelFile(f: seq<Byte>): (lf: LevelFile)
    ensures |lf.tiles| == lf.width * lf.height
  {
    var hdr := ReadHeader(f);
    var tiles := ReadVec2s(hdr.3, hdr.0 * hdr.1);
    var n := GetN(tiles.1, 2);
    LevelFile(hdr.0, hdr.1, hdr.2, tiles.0, ReadObjects(n.1, n.0).0)
  }

  // ---------------------------------------------------------------------------
  // Round trip.

  /** An object record that reads back unchanged: 32-bit position, readable strings, a 16-bit count. */
  predicate ObjectSaveable(o: ObjectRecord)
  {
    IsInt32Vec(o.pos) && Readable(o.className) && |o.values| < 0x1_0000 &&
    forall k :: 0 <= k < |o.values| ==> Readable(o.values[k])
  }

  /** A level that reads back unchanged: 32-bit sizes whose tile block fits the 32-bit size field, and so on. */
  predicate Saveable(lf: LevelFile)
  {
    lf.width < 0x1_0000_0000 && lf.height < 0x1_0000_0000 && 8 * (lf.width * lf.height) < 0x1_0000_0000 &&
    |lf.tiles| == lf.width * lf.height && (forall k :: 0 <= k < |lf.tiles| ==> IsInt32Vec(lf.tiles[k])) &&
    Readable(lf.tilesetName) && |lf.objects| < 0x1_0000 &&
    forall k :: 0 <= k < |lf.objects| ==> ObjectSaveable(lf.objects[k])
  }

  lemma {:induction false} ReadStrsRoundTrip(vs: seq<Str>, t: seq<Byte>)
    requires forall k :: 0 <= k < |vs| ==> Readable(vs[k])
    ensures ReadStrs(EncodeStrs(vs) + t, |vs|) == (vs, t)
  {
    if vs != [] {
      var more := EncodeStrs(vs[1..]) + t;
      assert EncodeStrs(vs) + t == WriteStr(vs[0]) + more;
      ReadStrRoundTrip(vs[0], more);
      ReadStrsRoundTrip(vs[1..], t);
      assert [vs[0]] + vs[1..] == vs;
    } else {
      assert EncodeStrs(vs) + t == t;
    }
  }

  /** An integer of a 32-bit `int` argument, read back through a `uint32_t` and reinterpreted as `int`. */
  lemma Int32Field(n: int)
    requires IsInt32(n)
    ensures ToInt32(LeValue(LeBytes(ToInt32(n), 4))) == n
  {
    Int32Fixed(n);
    LeValueOfLeBytes(n, 4);
    ToInt32OfTruncated(n);
  }

  /** A 16-bit count passed as `int` reads back unchanged. */
  lemma CountField(n: int)
    requires 0 <= n < 0x1_0000
    ensures LeValue(LeBytes(ToInt32(n), 2)) == n
  {
    Int32Fixed(n);
    LeValueOfLeBytes(n, 2);
    assert Pow256(2) == 0x1_0000;
    DivModUnique(n, 0x1_0000, 0, n);
  }

  /** The slots an object record's arguments ask for are the ones the loader reads with. */
  lemma ObjectArgsSlots(o: ObjectRecord)
    requires ObjectSaveable(o)
    ensures SlotsOf(ObjectArgs(o)) == ObjectSlots && StringsReadable(ObjectArgs(o))
  {
    var args := ObjectArgs(o);
    ReadableIsCStr(o.className);
    assert StringsReadable(args[3..]);
    assert StringsReadable(args[2..]);
    assert StringsReadable(args[1..]);
    assert SlotsOf(args[3..]) == [IntSlot];
    assert SlotsOf(args[2..]) == [StrSlot, IntSlot];
    assert SlotsOf(args[1..]) == [IntSlot, StrSlot, IntSlot];
  }

  /** The values an object record's fields read back as. */
  lemma ObjectArgsExpected(o: ObjectRecord)
    requires ObjectSaveable(o)
    ensures ExpectedAll(ObjectCodes, ObjectArgs(o)) == [IntVal(LeValue(LeBytes(ToInt32(o.pos.x), 4))),
      IntVal(LeValue(LeBytes(ToInt32(o.pos.y), 4))), StrVal(o.className), IntVal(|o.values|)]
  {
    var args := ObjectArgs(o);
    ReadableIsCStr(o.className);
    CountField(|o.values|);
    assert ExpectedAll(ObjectCodes[3..], args[3..]) == [IntVal(|o.values|)];
    assert ExpectedAll(ObjectCodes[2..], args[2..]) == [StrVal(o.className), IntVal(|o.values|)];
    assert ExpectedAll(ObjectCodes[1..], args[1..]) ==
      [IntVal(LeValue(LeBytes(ToInt32(o.pos.y), 4))), StrVal(o.className), IntVal(|o.values|)];
  }

  lemma ReadObjectRecord(o: ObjectRecord, t: seq<Byte>)
    requires ObjectSaveable(o)
    ensures var r := DecodeAll(ObjectCodes, ObjectSlots, EncodeAll(ObjectCodes, ObjectArgs(o)) + t);
      r.1 == t && r.0 == [IntVal(LeValue(LeBytes(ToInt32(o.pos.x), 4))), IntVal(LeValue(LeBytes(ToInt32(o.pos.y), 4))),
        StrVal(o.className), IntVal(|o.values|)]
  {
    ObjectArgsSlots(o);
    DecodeAllOfEncodeAll(ObjectCodes, ObjectArgs(o), t);
    ObjectArgsExpected(o);
  }

  lemma ReadObjectRoundTrip(o: ObjectRecord, t: seq<Byte>)
    requires ObjectSaveable(o)
    ensures ReadObject(EncodeObject(o) + t) == (o, t)
  {
    var rest := EncodeStrs(o.values) + t;
    assert EncodeObject(o) + t == EncodeAll(ObjectCodes, ObjectArgs(o)) + rest;
    ReadObjectRecord(o, rest);
    Int32Field(o.pos.x);
    Int32Field(o.pos.y);
    ReadStrsRoundTrip(o.values, t);
  }

  lemma {:induction false} ReadObjectsRoundTrip(os: seq<ObjectRecord>, t: seq<Byte>)
    requires forall k :: 0 <= k < |os| ==> ObjectSaveable(os[k])
    ensures ReadObjects(EncodeObjects(os) + t, |os|) == (os, t)
  {
    if os != [] {
      var more := EncodeObjects(os[1..]) + t;
      assert EncodeObjects(os) + t == EncodeObject(os[0]) + more;
      ReadObjectRoundTrip(os[0], more);
      ReadObjectsRoundTrip(os[1..], t);
      assert [os[0]] + os[1..] == os;
    } else {
      assert EncodeObjects(os) + t == t;
    }
  }

  /**
   * The saved header is the header the loader reads, then the whole tile
   * block, then the 16-bit object count: the block fits its size field.
   */
  lemma HeaderSplit(lf: LevelFile)
    requires Saveable(lf)
    ensures Matches(HeaderCodes + TailCodes, HeadArgs(lf) + TailArgs(lf))
    ensures EncodeAll(HeaderCodes + TailCodes, HeadArgs(lf) + TailArgs(lf)) ==
      EncodeAll(HeaderCodes, HeadArgs(lf)) + (Vec2sBytes(lf.tiles) + LeBytes(ToInt32(|lf.objects|), 2))
  {
    var args := TailArgs(lf);
    EncodeAllAppend(HeaderCodes, HeadArgs(lf), TailCodes, args);
    DivModUnique(8 * (lf.width * lf.height), 0x1_0000_0000, 0, 8 * (lf.width * lf.height));
    assert Vec2sBytes(lf.tiles)[..BlockSize(lf.width, lf.height)] == Vec2sBytes(lf.tiles);
    assert EncodeAll(TailCodes[1..], args[1..]) == LeBytes(ToInt32(|lf.objects|), 2);
    assert EncodeAll(TailCodes, args) == Vec2sBytes(lf.tiles) + LeBytes(ToInt32(|lf.objects|), 2);
  }

  lemma ReadHeaderRoundTrip(lf: LevelFile, rest: seq<Byte>)
    requires Saveable(lf)
    ensures ReadHeader(EncodeAll(HeaderCodes, HeadArgs(lf)) + rest) == (lf.width, lf.height, lf.tilesetName, rest)
  {
    var args := HeadArgs(lf);
    ReadableIsCStr(lf.tilesetName);
    assert StringsReadable(args[2..]);
    assert StringsReadable(args[1..]);
    DecodeAllOfEncodeAll(HeaderCodes, args, rest);
    assert SlotsOf(args[2..]) == [StrSlot];
    assert SlotsOf(args[1..]) == [IntSlot, StrSlot];
    assert SlotsOf(args) == HeaderSlots;
    Uint32RoundTrip(lf.width);
    Uint32RoundTrip(lf.height);
    assert ExpectedAll(HeaderCodes[2..], args[2..]) == [StrVal(lf.tilesetName)];
    assert ExpectedAll(HeaderCodes[1..], args[1..]) == [IntVal(lf.height), StrVal(lf.tilesetName)];
  }

  /** The tiles and objects after a header read back, given the saved object count. */
  lemma ReadBody(lf: LevelFile, t: seq<Byte>)
    requires Saveable(lf)
    ensures var body := Vec2sBytes(lf.tiles) + (LeBytes(ToInt32(|lf.objects|), 2) + (EncodeObjects(lf.objects) + t));
      var tiles := ReadVec2s(body, lf.width * lf.height);
      var n := GetN(tiles.1, 2);
      tiles.0 == lf.tiles && n.0 == |lf.objects| && ReadObjects(n.1, n.0).0 == lf.objects
  {
    var objs := EncodeObjects(lf.objects) + t;
    ReadVec2sRoundTrip(lf.tiles, LeBytes(ToInt32(|lf.objects|), 2) + objs);
    GetNOfBytes(LeBytes(ToInt32(|lf.objects|), 2), objs);
    CountField(|lf.objects|);
    ReadObjectsRoundTrip(lf.objects, t);
  }

  lemma SeqAssoc4(a: seq<Byte>, b: seq<Byte>, c: seq<Byte>, d: seq<Byte>, e: seq<Byte>)
    ensures ((a + (b + c)) + d) + e == a + (b + (c + (d + e)))
  {
  }

  /** A saved level reads back as the level it was saved from, whatever follows it. */
  lemma LevelFileRoundTrip(lf: LevelFile, t: seq<Byte>)
    requires Saveable(lf)
    ensures DecodeLevelFile(EncodeLevelFile(lf) + t) == lf
  {
    var body := Vec2sBytes(lf.tiles) + (LeBytes(ToInt32(|lf.objects|), 2) + (EncodeObjects(lf.objects) + t));
    LevelCodesSplit();
    HeaderSplit(lf);
    var head := EncodeAll(HeaderCodes, HeadArgs(lf));
    var tail := Vec2sBytes(lf.tiles) + LeBytes(ToInt32(|lf.objects|), 2);
    assert EncodeLevelFile(lf) == (head + tail) + EncodeObjects(lf.objects);
    var objs := EncodeObjects(lf.objects);
    var v, l := Vec2sBytes(lf.tiles), LeBytes(ToInt32(|lf.objects|), 2);
    calc {
      EncodeLevelFile(lf) + t;
      ((head + (v + l)) + objs) + t;
      { SeqAssoc4(head, v, l, objs, t); }
      head + (v + (l + (objs + t)));
    }
    ReadHeaderRoundTrip(lf, body);
    ReadBody(lf, t);
  }
}
