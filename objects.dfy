/**
 * Object classes (`Textures::ObjectClass`) with their typed properties and the
 * `.obj` file layout, placed objects (`TiledLevel::Object`) that hold one value
 * per property of their class, and the edits of a class's property list that
 * keep every placed object in step with it.
 */
module Objects {
  import opened Arith
  import opened Bytes
  import opened Strings
  import opened Geometry
  import opened Metadata
  import opened Atlases

  // ---------------------------------------------------------------------------
  // Sequence edits the property list and the children list go through.

  /** `erase(begin() + i)`: the entry at i goes, the ones after it move up. */
  function Erase<T>(s: seq<T>, i: nat): (r: seq<T>)
    requires i < |s|
    ensures |r| == |s| - 1
    ensures forall j :: 0 <= j < i ==> r[j] == s[j]
    ensures forall j :: i <= j < |r| ==> r[j] == s[j + 1]
  {
    s[..i] + s[i + 1..]
  }

  /** `iter_swap(begin() + i, begin() + j)`: the two entries trade places. */
  function Swap<T>(s: seq<T>, i: nat, j: nat): (r: seq<T>)
    requires i < |s| && j < |s|
    ensures |r| == |s| && r[i] == s[j] && r[j] == s[i]
    ensures forall k :: 0 <= k < |s| && k != i && k != j ==> r[k] == s[k]
  {
    s[i := s[j]][j := s[i]]
  }

  /** Erasing loses exactly the erased entry. */
  lemma EraseMultiset<T>(s: seq<T>, i: nat)
    requires i < |s|
    ensures multiset(Erase(s, i)) + multiset{s[i]} == multiset(s)
  {
    assert s == s[..i] + [s[i]] + s[i + 1..];
    assert Erase(s, i) == s[..i] + s[i + 1..];
  }

  /** A swap is a permutation, and swapping again undoes it. */
  lemma SwapPermutes<T>(s: seq<T>, i: nat, j: nat)
    requires i < |s| && j < |s|
    ensures multiset(Swap(s, i, j)) == multiset(s)
    ensures Swap(Swap(s, i, j), i, j) == s && Swap(s, i, j) == Swap(s, j, i)
  {
    var r := s[i := s[j]];
    assert multiset(r) == multiset(s) - multiset{s[i]} + multiset{s[j]};
    assert multiset(r[j := s[i]]) == multiset(r) - multiset{r[j]} + multiset{s[i]};
  }

  /** Erasing the entry just appended gives the list back. */
  lemma EraseAppended<T>(s: seq<T>, x: T)
    ensures Erase(s + [x], |s|) == s
  {
    assert (s + [x])[..|s|] == s;
  }

  /** Entries side by side: a property of the class with the value an object holds for it. */
  function Zip<A, B>(a: seq<A>, b: seq<B>): (z: seq<(A, B)>)
    requires |a| == |b|
    ensures |z| == |a| && forall k :: 0 <= k < |a| ==> z[k] == (a[k], b[k])
  {
    seq(|a|, k requires 0 <= k < |a| => (a[k], b[k]))
  }

  /** Applying the same erase to both lists keeps every surviving value beside its property. */
  lemma EraseKeepsPairs<A, B>(a: seq<A>, b: seq<B>, i: nat)
    requires |a| == |b| && i < |a|
    ensures Erase(Zip(a, b), i) == Zip(Erase(a, i), Erase(b, i))
  {
    var l, r := Erase(Zip(a, b), i), Zip(Erase(a, i), Erase(b, i));
    assert forall k :: 0 <= k < |l| ==> l[k] == r[k];
  }

  /** Applying the same swap to both lists keeps every value beside its property. */
  lemma SwapKeepsPairs<A, B>(a: seq<A>, b: seq<B>, i: nat, j: nat)
    requires |a| == |b| && i < |a| && j < |a|
    ensures Swap(Zip(a, b), i, j) == Zip(Swap(a, i, j), Swap(b, i, j))
  {
    var l, r := Swap(Zip(a, b), i, j), Zip(Swap(a, i, j), Swap(b, i, j));
    assert forall k :: 0 <= k < |l| ==> l[k] == r[k];
  }

  /** Appending to both lists pairs the new value with the new property. */
  lemma AppendKeepsPairs<A, B>(a: seq<A>, b: seq<B>, x: A, y: B)
    requires |a| == |b|
    ensures Zip(a, b) + [(x, y)] == Zip(a + [x], b + [y])
  {
    var l, r := Zip(a, b) + [(x, y)], Zip(a + [x], b + [y]);
    assert forall k :: 0 <= k < |l| ==> l[k] == r[k];
  }

  predicate Distinct<T(==)>(s: seq<T>)
  {
    forall i, j :: 0 <= i < j < |s| ==> s[i] != s[j]
  }

  lemma DistinctSnoc<T>(s: seq<T>, x: T)
    requires Distinct(s) && x !in s
    ensures Distinct(s + [x])
  {
  }

  /** `std::find(begin, end, x) - begin`: the first position holding x, or the length when none does. */
  function IndexOf<T(==)>(s: seq<T>, x: T): (i: nat)
    ensures i <= |s|
    ensures i < |s| ==> s[i] == x
    ensures forall j :: 0 <= j < i ==> s[j] != x
    ensures i == |s| <==> x !in s
  {
    if s == [] then 0 else if s[0] == x then 0 else 1 + IndexOf(s[1..], x)
  }

  /** `erase(remove(begin(), end(), x), end())`: every occurrence of x goes, the rest keep their order. */
  function RemoveAll<T(==)>(s: seq<T>, x: T): (r: seq<T>)
    ensures |r| <= |s|
  {
    if s == [] then [] else (if s[0] == x then [] else [s[0]]) + RemoveAll(s[1..], x)
  }

  /** What is left is everything other than x, and nothing else; without x the list is untouched. */
  lemma {:induction false} RemoveAllSpec<T>(s: seq<T>, x: T)
    ensures forall y :: y in RemoveAll(s, x) <==> y in s && y != x
    ensures x !in s ==> RemoveAll(s, x) == s
    ensures Distinct(s) ==> Distinct(RemoveAll(s, x))
  {
    if s != [] {
      RemoveAllSpec(s[1..], x);
      assert s == [s[0]] + s[1..];
      var r := RemoveAll(s, x);
      if Distinct(s) {
        assert Distinct(s[1..]) by {
          forall i, j | 0 <= i < j < |s[1..]|
            ensures s[1..][i] != s[1..][j]
          {
            assert s[1..][i] == s[i + 1] && s[1..][j] == s[j + 1];
          }
        }
        assert s[0] !in s[1..] by {
          forall j | 0 <= j < |s[1..]|
            ensures s[1..][j] != s[0]
          {
            assert s[1..][j] == s[j + 1];
          }
        }
      }
    }
  }

  /** In a list without repeats, removing x is erasing its one position. */
  lemma {:induction false} RemoveAllOnce<T>(s: seq<T>, x: T, i: nat)
    requires Distinct(s) && i < |s| && s[i] == x
    ensures RemoveAll(s, x) == Erase(s, i)
  {
    if i == 0 {
      RemoveAllSpec(s[1..], x);
      assert x !in s[1..] by {
        forall j | 0 <= j < |s[1..]|
          ensures s[1..][j] != x
        {
          assert s[1..][j] == s[j + 1];
        }
      }
      assert Erase(s, 0) == s[1..];
    } else {
      assert Distinct(s[1..]) by {
        forall a, b | 0 <= a < b < |s[1..]|
          ensures s[1..][a] != s[1..][b]
        {
          assert s[1..][a] == s[a + 1] && s[1..][b] == s[b + 1];
        }
      }
      assert s[1..][i - 1] == x;
      RemoveAllOnce(s[1..], x, i - 1);
      assert s[0] != x;
      assert [s[0]] + Erase(s[1..], i - 1) == Erase(s, i);
    }
  }

  // ---------------------------------------------------------------------------
  // Properties and the `.obj` file.

  /** `ObjectClass::Property`: name, default value and type (`PropertyType`, one byte). */
  datatype Property = Property(name: Str, defaultValue: Str, kind: Byte)

  const IntType: Byte := 0
  const FloatType: Byte := 1
  const StringType: Byte := 2

  /** The property "+" adds: empty name and default, type `int`. */
  const NewProperty := Property([], [], IntType)

  /** The values a new object starts with: each property's default. */
  function Defaults(ps: seq<Property>): (vs: seq<Str>)
    ensures |vs| == |ps| && forall k :: 0 <= k < |ps| ==> vs[k] == ps[k].defaultValue
  {
    seq(|ps|, k requires 0 <= k < |ps| => ps[k].defaultValue)
  }

  /** What an `.obj` file holds: the class's atlas name and its properties. */
  datatype ClassFile = ClassFile(atlasName: Str, properties: seq<Property>)

  /** The codes of a property record "%s, %s, %8i". */
  const PropertyCodes := [Text, Text, Int(1)]
  const PropertySlots := [StrSlot, StrSlot, IntSlot]

  /** A property as `writeMetadata` is passed it: two `c_str()` pointers and the type. */
  function PropertyArgs(p: Property): (args: seq<Arg>)
    ensures Matches(PropertyCodes, args)
  {
    assert Matches(PropertyCodes[1..][1..], [IntArg(p.kind)]);
    [StrArg(p.name), StrArg(p.defaultValue), IntArg(p.kind)]
  }

  function EncodeProperty(p: Property): seq<Byte>
  {
    EncodeAll(PropertyCodes, PropertyArgs(p))
  }

  function EncodeProperties(ps: seq<Property>): seq<Byte>
  {
    if ps == [] then [] else EncodeProperty(ps[0]) + EncodeProperties(ps[1..])
  }

  /** `ObjectClass::save`: the atlas name, the 32-bit property count, then each property record. */
  function EncodeClassFile(cf: ClassFile): seq<Byte>
  {
    WriteStr(CStr(cf.atlasName)) + LeBytes(|cf.properties|, 4) + EncodeProperties(cf.properties)
  }

  /** One property record read back; the type lands in a one-byte field. */
  function ReadProperty(f: seq<Byte>): (Property, seq<Byte>)
  {
    assert AcceptsAll(PropertyCodes[1..][1..], PropertySlots[1..][1..]);
    var r := DecodeAll(PropertyCodes, PropertySlots, f);
    (Property(StrOf(r.0[0]), StrOf(r.0[1]), IntOf(r.0[2]) % 256), r.1)
  }

  function ReadProperties(f: seq<Byte>, n: nat): (r: (seq<Property>, seq<Byte>))
    ensures |r.0| == n
    decreases n
  {
    if n == 0 then ([], f)
    else
      var p := ReadProperty(f);
      var rest := ReadProperties(p.1, n - 1);
      ([p.0] + rest.0, rest.1)
  }

  /** The `ObjectClass(path)` loader on the file's bytes. */
  function DecodeClassFile(f: seq<Byte>): ClassFile
  {
    var name := ScanStr(f);
    var n := GetN(name.1, 4);
    ClassFile(name.0, ReadProperties(n.1, n.0).0)
  }

  /** Names and defaults that `freadstr` can read back whole. */
  predicate PropertyReadable(p: Property) { Readable(p.name) && Readable(p.defaultValue) }

  /** A property record reads back as the property it was written from. */
  lemma ReadPropertyRoundTrip(p: Property, t: seq<Byte>)
    requires PropertyReadable(p)
    ensures ReadProperty(EncodeProperty(p) + t) == (p, t)
  {
    var args := PropertyArgs(p);
    ReadableIsCStr(p.name);
    ReadableIsCStr(p.defaultValue);
    assert StringsReadable(args[1..][1..]);
    DecodeAllOfEncodeAll(PropertyCodes, args, t);
    assert SlotsOf(args[1..][1..]) == [IntSlot];
    assert SlotsOf(args) == PropertySlots;
    var vals := ExpectedAll(PropertyCodes, args);
    assert ExpectedAll(PropertyCodes[1..][1..], args[1..][1..]) == [Expected(Int(1), args[2])];
    assert ExpectedAll(PropertyCodes[1..], args[1..]) == [Expected(Text, args[1]), Expected(Int(1), args[2])];
    assert vals == [Expected(Text, args[0]), Expected(Text, args[1]), Expected(Int(1), args[2])];
    ExpectedInt(Int(1), args[2]);
    assert Pow256(1) == 256;
    DivModUnique(p.kind, 0x1_0000_0000, 0, p.kind);
    DivModUnique(p.kind, 256, 0, p.kind);
  }

  lemma {:induction false} ReadPropertiesRoundTrip(ps: seq<Property>, t: seq<Byte>)
    requires forall k :: 0 <= k < |ps| ==> PropertyReadable(ps[k])
    ensures ReadProperties(EncodeProperties(ps) + t, |ps|) == (ps, t)
  {
    if ps != [] {
      var more := EncodeProperties(ps[1..]) + t;
      assert EncodeProperties(ps) + t == EncodeProperty(ps[0]) + more;
      ReadPropertyRoundTrip(ps[0], more);
      ReadPropertiesRoundTrip(ps[1..], t);
      assert [ps[0]] + ps[1..] == ps;
    } else {
      assert EncodeProperties(ps) + t == t;
    }
  }

  /** An `.obj` file reads back as the class it was saved from, whatever follows it. */
  lemma ClassFileRoundTrip(cf: ClassFile, t: seq<Byte>)
    requires Readable(cf.atlasName) && |cf.properties| < 0x1_0000_0000
    requires forall k :: 0 <= k < |cf.properties| ==> PropertyReadable(cf.properties[k])
    ensures DecodeClassFile(EncodeClassFile(cf) + t) == cf
  {
    var ps := cf.properties;
    var body := EncodeProperties(ps) + t;
    ReadableIsCStr(cf.atlasName);
    assert EncodeClassFile(cf) + t == WriteStr(cf.atlasName) + (LeBytes(|ps|, 4) + body);
    ReadStrRoundTrip(cf.atlasName, LeBytes(|ps|, 4) + body);
    GetNOfLeBytes(|ps|, 4, body);
    assert Pow256(4) == 0x1_0000_0000;
    DivModUnique(|ps|, 0x1_0000_0000, 0, |ps|);
    ReadPropertiesRoundTrip(ps, t);
  }

  /** The property loop of the `ObjectClass(path)` loader: n records through `readMetadata`. */
  method ReadPropertyList(f: seq<Byte>, n: nat) returns (ps: seq<Property>, rest: seq<Byte>)
    ensures (ps, rest) == ReadProperties(f, n)
  {
    ps, rest := [], f;
    ghost var total := ReadProperties(f, n);
    assert [] + total.0 == total.0;
    var k := 0;
    while k < n
      invariant k <= n
      invariant total == (ps + ReadProperties(rest, n - k).0, ReadProperties(rest, n - k).1)
    {
      FormatProperty();
      assert AcceptsAll(PropertyCodes[1..][1..], PropertySlots[1..][1..]);
      var vals, unread := ReadMetadata(PropertyFormat, PropertySlots, rest);
      var p := Property(StrOf(vals[0]), StrOf(vals[1]), IntOf(vals[2]) % 256);
      assert (p, unread) == ReadProperty(rest);
      ghost var after := ReadProperties(unread, n - k - 1);
      ConcatAssoc(ps, [p], after.0);
      ps, rest, k := ps + [p], unread, k + 1;
    }
    assert ps + [] == ps;
  }

  // ---------------------------------------------------------------------------
  // The class name taken from the file path.

  predicate IsSeparator(b: Byte) { b == '/' as int || b == '\\' as int }

  /** `find_last_of("/\\")`: the position of the last separator, or -1 for `npos`. */
  function LastSeparator(s: Str): (p: int)
    ensures -1 <= p < |s|
    ensures p >= 0 ==> IsSeparator(s[p])
    ensures forall i :: p < i < |s| ==> !IsSeparator(s[i])
  {
    if s == [] then -1
    else if IsSeparator(s[|s| - 1]) then |s| - 1
    else LastSeparator(s[..|s| - 1])
  }

  /** `size_t` arithmetic wraps at 2^64. */
  const SizeModulus := 0x1_0000_0000_0000_0000

  /**
   * The class name `path.substr(p + 1, path.size() - p - 5)`, p the last
   * separator: `npos + 1` wraps to 0, a negative count wraps to a huge one,
   * and `substr` clamps the count to the rest of the string.
   */
  function ClassName(path: Str): (name: Str)
    ensures var start := LastSeparator(path) + 1;
      start + |name| <= |path| && name == path[start..start + |name|]
  {
    var start := LastSeparator(path) + 1;
    var count := (|path| - start - 4) % SizeModulus;
    path[start..start + Min(count, |path| - start)]
  }

  /** The ".obj" extension. */
  const ObjExtension: Str := ['.' as int, 'o' as int, 'b' as int, 'j' as int]

  predicate NoSeparator(s: Str) { forall i :: 0 <= i < |s| ==> !IsSeparator(s[i]) }

  /** The part of a path after its last separator. */
  lemma {:induction false} LastSeparatorOfJoin(dir: Str, file: Str)
    requires (dir == [] || IsSeparator(dir[|dir| - 1])) && NoSeparator(file)
    ensures LastSeparator(dir + file) == |dir| - 1
    decreases |file|
  {
    if file == [] {
      assert dir + file == dir;
    } else {
      var s, init := dir + file, file[..|file| - 1];
      assert s[|s| - 1] == file[|file| - 1];
      assert s[..|s| - 1] == dir + init;
      LastSeparatorOfJoin(dir, init);
    }
  }

  /** A stem without separators keeps none once ".obj" is added. */
  lemma ObjFileNoSeparator(stem: Str)
    requires NoSeparator(stem)
    ensures NoSeparator(stem + ObjExtension)
  {
    var file := stem + ObjExtension;
    forall i | 0 <= i < |file|
      ensures !IsSeparator(file[i])
    {
      if i >= |stem| {
        assert file[i] == ObjExtension[i - |stem|];
      }
    }
  }

  /** A class file named "<stem>.obj" in any directory is the class called stem. */
  lemma ClassNameOfFile(dir: Str, stem: Str)
    requires dir == [] || IsSeparator(dir[|dir| - 1])
    requires NoSeparator(stem) && |stem| < SizeModulus
    ensures ClassName(dir + stem + ObjExtension) == stem
  {
    var file := stem + ObjExtension;
    ObjFileNoSeparator(stem);
    ConcatAssoc(dir, stem, ObjExtension);
    LastSeparatorOfJoin(dir, file);
    assert |dir + file| - |dir| - 4 == |stem|;
    DivModUnique(|stem|, SizeModulus, 0, |stem|);
    Middle(dir, stem, ObjExtension);
  }

  /** A file name of fewer than four characters is not cut: the wrapped count covers the rest of the path. */
  lemma ClassNameOfShortFile(dir: Str, file: Str)
    requires dir == [] || IsSeparator(dir[|dir| - 1])
    requires NoSeparator(file) && |file| < 4
    ensures ClassName(dir + file) == file
  {
    LastSeparatorOfJoin(dir, file);
    DivModUnique(|file| - 4, SizeModulus, -1, |file| - 4 + SizeModulus);
    assert (dir + file)[|dir|..] == file;
  }

  // ---------------------------------------------------------------------------
  // Classes and placed objects.

  /** `Textures::ObjectClass`. */
  class ObjectClass {
    var atlas: Atlas?
    var name: Str
    var path: Str
    var properties: seq<Property>
    var children: seq<Object>

    /** Every child appears once, points back here and holds one value per property. */
    ghost predicate Valid()
      reads this, children
    {
      Distinct(children) &&
      forall k :: 0 <= k < |children| ==> children[k].parent == this && |children[k].properties| == |properties|
    }

    /** `ObjectClass(path)`: name from the path, atlas by name, then the property records. */
    constructor Load(path: Str, atlases: seq<Atlas>, f: seq<Byte>)
      ensures this.path == path && name == ClassName(path)
      ensures atlas == FindAtlas(atlases, DecodeClassFile(f).atlasName)
      ensures properties == DecodeClassFile(f).properties
      ensures children == []
    {
      var atlasName, rest := ReadStr(f);
      var found := AtlasByName(atlases, atlasName);
      var n := GetN(rest, 4);
      var ps, unread := ReadPropertyList(n.1, n.0);
      this.path, name, atlas, properties, children := path, ClassName(path), found, ps, [];
    }

    /** What `save` writes (it dereferences the atlas). */
    function Saved(): ClassFile
      reads this, atlas
      requires atlas != null
    {
      ClassFile(atlas.name, properties)
    }

    /** `save`: the atlas name, the property count, then one record per property. */
    method Save() returns (bytes: seq<Byte>)
      requires atlas != null
      ensures bytes == EncodeClassFile(Saved())
    {
      var head := WriteStr(CStr(atlas.name)) + LeBytes(|properties|, 4);
      bytes := head;
      assert EncodeProperties(properties[0..]) == EncodeProperties(properties);
      for k := 0 to |properties|
        invariant head + EncodeProperties(properties) == bytes + EncodeProperties(properties[k..])
      {
        FormatProperty();
        var rec := WriteMetadata(PropertyFormat, PropertyArgs(properties[k]));
        assert properties[k..][1..] == properties[k + 1..];
        bytes := bytes + rec;
      }
      assert bytes + [] == bytes;
    }

    /** "-" on property i: drop it from the class and the matching value from every child. */
    method RemoveProperty(i: nat)
      requires Valid() && i < |properties|
      modifies this, children
      ensures atlas == old(atlas) && name == old(name) && path == old(path) && children == old(children)
      ensures properties == Erase(old(properties), i)
      ensures forall k :: 0 <= k < |children| ==>
        children[k].properties == Erase(old(children[k].properties), i) && children[k].pos == old(children[k].pos)
      ensures Valid()
    {
      properties := Erase(properties, i);
      var k := 0;
      while k < |children|
        invariant k <= |children| && children == old(children) && properties == Erase(old(properties), i)
        invariant atlas == old(atlas) && name == old(name) && path == old(path)
        invariant forall m :: 0 <= m < |children| ==>
          children[m].parent == old(children[m].parent) && children[m].pos == old(children[m].pos) &&
          |old(children[m].properties)| == |old(properties)|
        invariant forall m :: 0 <= m < k ==> children[m].properties == Erase(old(children[m].properties), i)
        invariant forall m :: k <= m < |children| ==> children[m].properties == old(children[m].properties)
      {
        var c := children[k];
        c.properties := Erase(c.properties, i);
        k := k + 1;
      }
    }

    /** "+": a new empty `int` property on the class, and an empty value on every child. */
    method AddProperty()
      requires Valid()
      modifies this, children
      ensures atlas == old(atlas) && name == old(name) && path == old(path) && children == old(children)
      ensures properties == old(properties) + [NewProperty]
      ensures forall k :: 0 <= k < |children| ==>
        children[k].properties == old(children[k].properties) + [[]] && children[k].pos == old(children[k].pos)
      ensures Valid()
    {
      properties := properties + [NewProperty];
      var k := 0;
      while k < |children|
        invariant k <= |children| && children == old(children) && properties == old(properties) + [NewProperty]
        invariant atlas == old(atlas) && name == old(name) && path == old(path)
        invariant forall m :: 0 <= m < |children| ==>
          children[m].parent == old(children[m].parent) && children[m].pos == old(children[m].pos) &&
          |old(children[m].properties)| == |old(properties)|
        invariant forall m :: 0 <= m < k ==> children[m].properties == old(children[m].properties) + [[]]
        invariant forall m :: k <= m < |children| ==> children[m].properties == old(children[m].properties)
      {
        var c := children[k];
        c.properties := c.properties + [[]];
        k := k + 1;
      }
    }

    /**
     * The arrows on property k: swap it with its neighbour k + dir, on the
     * class and on every child, when that neighbour exists; otherwise nothing.
     */
    method MoveProperty(k: nat, dir: int)
      requires Valid() && k < |properties|
      modifies this, children
      ensures atlas == old(atlas) && name == old(name) && path == old(path) && children == old(children)
      ensures !InRange(k + dir, 0, |old(properties)|) ==>
        properties == old(properties) &&
        forall m :: 0 <= m < |children| ==> children[m].properties == old(children[m].properties)
      ensures InRange(k + dir, 0, |old(properties)|) ==>
        properties == Swap(old(properties), k, k + dir) &&
        forall m :: 0 <= m < |children| ==> children[m].properties == Swap(old(children[m].properties), k, k + dir)
      ensures forall m :: 0 <= m < |children| ==> children[m].pos == old(children[m].pos)
      ensures Valid()
    {
      if !InRange(k + dir, 0, |properties|) {
        return;
      }
      var j: nat := k + dir;
      properties := Swap(properties, k, j);
      SwapChildValues(k, j);
    }

    /** The loop of the arrows: swap values k and j on every child. */
    method SwapChildValues(k: nat, j: nat)
      requires Distinct(children)
      requires forall m :: 0 <= m < |children| ==> k < |children[m].properties| && j < |children[m].properties|
      modifies children
      ensures forall m :: 0 <= m < |children| ==>
        children[m].properties == Swap(old(children[m].properties), k, j) &&
        children[m].pos == old(children[m].pos) && children[m].parent == old(children[m].parent)
    {
      var n := 0;
      while n < |children|
        invariant n <= |children|
        invariant forall m :: 0 <= m < |children| ==>
          children[m].parent == old(children[m].parent) && children[m].pos == old(children[m].pos) &&
          |children[m].properties| == |old(children[m].properties)|
        invariant forall m :: 0 <= m < n ==> children[m].properties == Swap(old(children[m].properties), k, j)
        invariant forall m :: n <= m < |children| ==> children[m].properties == old(children[m].properties)
      {
        var c := children[n];
        c.properties := Swap(c.properties, k, j);
        n := n + 1;
      }
    }
  }

  /** `TiledLevel::Object`: a placed instance of a class. */
  class Object {
    var pos: Vec2
    var parent: ObjectClass?
    var properties: seq<Str>

    /** `Object(parent, pos)`: joins the class's children and starts from its defaults. */
    constructor (parent: ObjectClass, pos: Vec2)
      modifies parent
      ensures this.pos == pos && this.parent == parent
      ensures properties == Defaults(parent.properties)
      ensures parent.children == old(parent.children) + [this]
      ensures parent.properties == old(parent.properties) && parent.atlas == old(parent.atlas)
      ensures parent.name == old(parent.name) && parent.path == old(parent.path)
      ensures old(parent.Valid()) ==> parent.Valid()
    {
      this.pos := pos;
      this.parent := parent;
      var values: seq<Str> := [];
      for k := 0 to |parent.properties|
        invariant values == Defaults(parent.properties[..k])
      {
        assert parent.properties[..k + 1] == parent.properties[..k] + [parent.properties[k]];
        values := values + [parent.properties[k].defaultValue];
      }
      assert parent.properties[..|parent.properties|] == parent.properties;
      properties := values;
      new;
      parent.children := parent.children + [this];
    }

    /** The default constructor the level loader fills in: no class yet, the values read from the file. */
    constructor Placed(pos: Vec2, properties: seq<Str>)
      ensures this.pos == pos && this.properties == properties && parent == null
    {
      this.pos, this.properties, parent := pos, properties, null;
    }

    /** `~Object()`: leave the class's children. */
    method Destroy()
      requires parent != null
      modifies parent
      ensures parent == old(parent)
      ensures parent.children == RemoveAll(old(parent.children), this)
      ensures parent.properties == old(parent.properties) && parent.atlas == old(parent.atlas)
      ensures parent.name == old(parent.name) && parent.path == old(parent.path)
      ensures old(parent.Valid()) ==> parent.Valid() && this !in parent.children
    {
      var before := parent.children;
      RemoveAllSpec(before, this);
      parent.children := RemoveAll(before, this);
      if old(parent.Valid()) {
        forall k | 0 <= k < |parent.children|
          ensures parent.children[k].parent == parent && |parent.children[k].properties| == |parent.properties|
        {
          assert parent.children[k] in before;
          var j :| 0 <= j < |before| && before[j] == parent.children[k];
        }
      }
    }
  }

  /**
   * `save` followed by `ObjectClass(path)`: the class comes back with the same
   * properties, and its atlas is found again by name.
   */
  method SaveThenLoad(c: ObjectClass, atlases: seq<Atlas>) returns (d: ObjectClass)
    requires c.atlas != null && Readable(c.atlas.name) && |c.properties| < 0x1_0000_0000
    requires forall k :: 0 <= k < |c.properties| ==> PropertyReadable(c.properties[k])
    ensures d.path == c.path && d.name == ClassName(c.path)
    ensures d.properties == c.properties && d.children == []
    ensures d.atlas == FindAtlas(atlases, c.atlas.name)
    ensures c.atlas in atlases ==> d.atlas != null && d.atlas.name == c.atlas.name
  {
    ghost var saved := c.Saved();
    var bytes := c.Save();
    ClassFileRoundTrip(saved, []);
    assert bytes + [] == bytes;
    d := new ObjectClass.Load(c.path, atlases, bytes);
    FindAtlasSpec(atlases, saved.atlasName);
  }
}
