/**
 * The format-string driven record codec `writeMetadata`/`readMetadata`.
 * The format is scanned left to right; each of the codes `%8i %16i %32i %64i`
 * moves one little-endian integer of 1, 2, 4 or 8 bytes, `%s` one
 * null-terminated string and `%b` a raw block of caller-given size; any other
 * character is skipped and moves nothing. Scanning stops at '\0' or at the end
 * of the format.
 */
module Metadata {
  import opened Arith
  import opened Bytes
  import opened Strings

  datatype Code = Int(width: nat) | Text | Blob | Skip

  /** What the caller passes for one code: the variadic argument of `writeMetadata`. */
  datatype Arg = IntArg(n: int) | StrArg(s: Str) | BlobArg(data: seq<Byte>, size: nat)

  /** Where `readMetadata` stores one value: only a block read carries information (its size). */
  datatype Slot = IntSlot | StrSlot | BlobSlot(size: nat)

  /** What `readMetadata` stores through one pointer. */
  datatype Val = IntVal(v: nat) | StrVal(s: Str) | BlobVal(data: seq<Byte>)

  predicate IsCode(c: Code)
  {
    c.Int? ==> c.width in {1, 2, 4, 8}
  }

  /** The format character at k; a C string reads '\0' past its end. */
  function Ch(fmt: string, k: nat): char { if k < |fmt| then fmt[k] else '\0' }

  /**
   * One scanning step at fmt[i]: a code advances by its spelling's length,
   * any other character by one. The source tests the spellings one after
   * another with `strncmp`; as no spelling is a prefix of another, testing the
   * first two characters first selects the same code.
   */
  function Step(fmt: string, i: nat): (r: (Code, nat))
    requires i < |fmt| && fmt[i] != '\0'
    ensures IsCode(r.0) && 1 <= r.1 && i + r.1 <= |fmt|
    ensures r.0 == Skip <==> r.1 == 1
    ensures r.0 != Skip ==> fmt[i] == '%'
  {
    if fmt[i] != '%' then (Skip, 1)
    else
      var c1, c2, c3 := Ch(fmt, i + 1), Ch(fmt, i + 2), Ch(fmt, i + 3);
      if c1 == '8' && c2 == 'i' then (Int(1), 3)
      else if c1 == '1' && c2 == '6' && c3 == 'i' then (Int(2), 4)
      else if c1 == '3' && c2 == '2' && c3 == 'i' then (Int(4), 4)
      else if c1 == '6' && c2 == '4' && c3 == 'i' then (Int(8), 4)
      else if c1 == 's' then (Text, 2)
      else if c1 == 'b' then (Blob, 2)
      else (Skip, 1)
  }

  /** The codes of fmt from position i on, separators dropped. */
  function CodesFrom(fmt: string, i: nat): (cs: seq<Code>)
    decreases |fmt| - i
  {
    if i >= |fmt| || fmt[i] == '\0' then []
    else
      var step := Step(fmt, i);
      (if step.0 == Skip then [] else [step.0]) + CodesFrom(fmt, i + step.1)
  }

  function Codes(fmt: string): seq<Code> { CodesFrom(fmt, 0) }

  /** The argument kind each code takes; a block must be at least as long as its size. */
  predicate Fits(c: Code, a: Arg)
  {
    match c
    case Int(_) => a.IntArg?
    case Text => a.StrArg?
    case Blob => a.BlobArg? && a.size <= |a.data|
    case Skip => false
  }

  /** The arguments line up with the codes, one each. */
  predicate Matches(cs: seq<Code>, args: seq<Arg>)
  {
    |cs| == |args| && (cs != [] ==> Fits(cs[0], args[0]) && Matches(cs[1..], args[1..]))
  }

  /**
   * The bytes one code writes. An integer argument is read as a 32-bit `int`
   * and converted to the field's unsigned width (sign-extended for `%64i`);
   * a string argument is a `const char*`, so it ends at its first 0 byte.
   */
  function EncodeOne(c: Code, a: Arg): seq<Byte>
    requires Fits(c, a)
  {
    match c
    case Int(k) => LeBytes(ToInt32(a.n), k)
    case Text => WriteStr(CStr(a.s))
    case Blob => a.data[..a.size]
  }

  /** The number of bytes one code writes. */
  function Width(c: Code, a: Arg): nat
    requires Fits(c, a)
  {
    match c
    case Int(k) => k
    case Text => |CStr(a.s)| + 1
    case Blob => a.size
  }

  /** The bytes of a whole record: its fields one after another, nothing between them. */
  function EncodeAll(cs: seq<Code>, args: seq<Arg>): seq<Byte>
    requires Matches(cs, args)
  {
    if cs == [] then [] else EncodeOne(cs[0], args[0]) + EncodeAll(cs[1..], args[1..])
  }

  function TotalWidth(cs: seq<Code>, args: seq<Arg>): nat
    requires Matches(cs, args)
  {
    if cs == [] then 0 else Width(cs[0], args[0]) + TotalWidth(cs[1..], args[1..])
  }

  /** Each code writes exactly its width, so a record is as long as the sum of its fields. */
  lemma {:induction false} EncodedLength(cs: seq<Code>, args: seq<Arg>)
    requires Matches(cs, args)
    ensures |EncodeAll(cs, args)| == TotalWidth(cs, args)
  {
    if cs != [] {
      EncodedLength(cs[1..], args[1..]);
    }
  }

  /** One scanning step either skips a character or consumes the next code of the record. */
  lemma CodesStep(fmt: string, i: nat)
    requires i < |fmt| && fmt[i] != '\0'
    ensures Step(fmt, i).0 == Skip ==> CodesFrom(fmt, i) == CodesFrom(fmt, i + Step(fmt, i).1)
    ensures Step(fmt, i).0 != Skip ==>
      CodesFrom(fmt, i) != [] && CodesFrom(fmt, i)[0] == Step(fmt, i).0 &&
      CodesFrom(fmt, i)[1..] == CodesFrom(fmt, i + Step(fmt, i).1)
  {
    if Step(fmt, i).0 != Skip {
      assert CodesFrom(fmt, i) == [Step(fmt, i).0] + CodesFrom(fmt, i + Step(fmt, i).1);
    }
  }

  /** A record is its first field followed by the rest. */
  lemma EncodeAllCons(cs: seq<Code>, args: seq<Arg>)
    requires Matches(cs, args) && cs != []
    ensures Fits(cs[0], args[0]) && Matches(cs[1..], args[1..])
    ensures EncodeAll(cs, args) == EncodeOne(cs[0], args[0]) + EncodeAll(cs[1..], args[1..])
  {
  }

  lemma {:induction false} MatchesAppend(cs: seq<Code>, args: seq<Arg>, ds: seq<Code>, brgs: seq<Arg>)
    requires Matches(cs, args) && Matches(ds, brgs)
    ensures Matches(cs + ds, args + brgs)
  {
    if cs == [] {
      assert cs + ds == ds && args + brgs == brgs;
    } else {
      MatchesAppend(cs[1..], args[1..], ds, brgs);
      assert (cs + ds)[1..] == cs[1..] + ds && (args + brgs)[1..] == args[1..] + brgs;
    }
  }

  /** Two records written back to back are the record of the joined codes and arguments. */
  lemma {:induction false} EncodeAllAppend(cs: seq<Code>, args: seq<Arg>, ds: seq<Code>, brgs: seq<Arg>)
    requires Matches(cs, args) && Matches(ds, brgs)
    ensures Matches(cs + ds, args + brgs)
    ensures EncodeAll(cs + ds, args + brgs) == EncodeAll(cs, args) + EncodeAll(ds, brgs)
  {
    MatchesAppend(cs, args, ds, brgs);
    if cs == [] {
      assert cs + ds == ds && args + brgs == brgs;
    } else {
      EncodeAllAppendStep(cs, args, ds, brgs);
      EncodeAllAppend(cs[1..], args[1..], ds, brgs);
      EncodeAllCons(cs, args);
    }
  }

  lemma EncodeAllAppendStep(cs: seq<Code>, args: seq<Arg>, ds: seq<Code>, brgs: seq<Arg>)
    requires Matches(cs, args) && Matches(ds, brgs) && cs != []
    requires Matches(cs + ds, args + brgs)
    ensures Fits(cs[0], args[0]) && Matches(cs[1..] + ds, args[1..] + brgs)
    ensures EncodeAll(cs + ds, args + brgs) == EncodeOne(cs[0], args[0]) + EncodeAll(cs[1..] + ds, args[1..] + brgs)
  {
    var es, eargs := cs + ds, args + brgs;
    assert es[1..] == cs[1..] + ds && eargs[1..] == args[1..] + brgs;
    assert es[0] == cs[0] && eargs[0] == args[0];
    EncodeAllCons(es, eargs);
  }

  /** What one scanning step of the writer does to the codes and arguments still ahead. */
  lemma WriteStep(fmt: string, i: nat, rest: seq<Code>, ra: seq<Arg>)
    requires i < |fmt| && fmt[i] != '\0'
    requires rest == CodesFrom(fmt, i) && Matches(rest, ra)
    ensures Step(fmt, i).0 == Skip ==> rest == CodesFrom(fmt, i + Step(fmt, i).1)
    ensures Step(fmt, i).0 != Skip ==>
      rest != [] && ra != [] && rest[0] == Step(fmt, i).0 && Fits(rest[0], ra[0]) &&
      rest[1..] == CodesFrom(fmt, i + Step(fmt, i).1) && Matches(rest[1..], ra[1..]) &&
      EncodeAll(rest, ra) == EncodeOne(rest[0], ra[0]) + EncodeAll(rest[1..], ra[1..])
  {
    CodesStep(fmt, i);
    if Step(fmt, i).0 != Skip {
      EncodeAllCons(rest, ra);
    }
  }

  /** `writeMetadata`: walk the format, taking the next argument for each code. */
  method WriteMetadata(fmt: string, args: seq<Arg>) returns (out: seq<Byte>)
    requires Matches(Codes(fmt), args)
    ensures out == EncodeAll(Codes(fmt), args)
    ensures |out| == TotalWidth(Codes(fmt), args)
  {
    out := [];
    var i, ap := 0, args;
    ghost var rest := Codes(fmt);
    ghost var total := EncodeAll(rest, ap);
    while i < |fmt| && fmt[i] != '\0'
      invariant i <= |fmt|
      invariant rest == CodesFrom(fmt, i)
      invariant Matches(rest, ap)
      invariant total == out + EncodeAll(rest, ap)
      decreases |fmt| - i
    {
      var step := Step(fmt, i);
      WriteStep(fmt, i, rest, ap);
      if step.0 != Skip {
        ghost var field, more := EncodeOne(step.0, ap[0]), EncodeAll(rest[1..], ap[1..]);
        ConcatAssoc(out, field, more);
        out := out + EncodeOne(step.0, ap[0]);
        ap := ap[1..];
        rest := rest[1..];
      }
      i := i + step.1;
    }
    EncodedLength(Codes(fmt), args);
  }

  // ---------------------------------------------------------------------------
  // Reading.

  predicate Accepts(c: Code, sl: Slot)
  {
    match c
    case Int(_) => sl.IntSlot?
    case Text => sl.StrSlot?
    case Blob => sl.BlobSlot?
    case Skip => false
  }

  /** The integer a pointer received (`readMetadata` stores an integer only through an integer slot). */
  function IntOf(v: Val): nat { if v.IntVal? then v.v else 0 }

  /** The string a pointer received. */
  function StrOf(v: Val): Str { if v.StrVal? then v.s else [] }

  /** The destinations line up with the codes, one each. */
  predicate AcceptsAll(cs: seq<Code>, slots: seq<Slot>)
  {
    |cs| == |slots| && (cs != [] ==> Accepts(cs[0], slots[0]) && AcceptsAll(cs[1..], slots[1..]))
  }

  /** The value one code reads from the unread bytes f, and what is left unread. */
  function DecodeOne(c: Code, sl: Slot, f: seq<Byte>): (r: (Val, seq<Byte>))
    requires Accepts(c, sl)
  {
    match c
    case Int(k) =>
      var n := GetN(f, k);
      (IntVal(n.0), n.1)
    case Text =>
      var str := ScanStr(f);
      (StrVal(str.0), str.1)
    case Blob =>
      var data := ReadBytes(f, sl.size);
      (BlobVal(data.0), data.1)
  }

  /** The values of a whole record read from f, and what is left unread. */
  function DecodeAll(cs: seq<Code>, slots: seq<Slot>, f: seq<Byte>): (r: (seq<Val>, seq<Byte>))
    requires AcceptsAll(cs, slots)
    ensures |r.0| == |cs|
  {
    if cs == [] then ([], f)
    else
      var first := DecodeOne(cs[0], slots[0], f);
      var rest := DecodeAll(cs[1..], slots[1..], first.1);
      ([first.0] + rest.0, rest.1)
  }

  /** What one scanning step of the reader does to the codes and destinations still ahead. */
  lemma ReadStep(fmt: string, i: nat, rest: seq<Code>, sp: seq<Slot>, f: seq<Byte>)
    requires i < |fmt| && fmt[i] != '\0'
    requires rest == CodesFrom(fmt, i) && AcceptsAll(rest, sp)
    ensures Step(fmt, i).0 == Skip ==> rest == CodesFrom(fmt, i + Step(fmt, i).1)
    ensures Step(fmt, i).0 != Skip ==>
      rest != [] && sp != [] && rest[0] == Step(fmt, i).0 && Accepts(rest[0], sp[0]) &&
      rest[1..] == CodesFrom(fmt, i + Step(fmt, i).1) && AcceptsAll(rest[1..], sp[1..]) &&
      DecodeAll(rest, sp, f) ==
        ([DecodeOne(rest[0], sp[0], f).0] + DecodeAll(rest[1..], sp[1..], DecodeOne(rest[0], sp[0], f).1).0,
         DecodeAll(rest[1..], sp[1..], DecodeOne(rest[0], sp[0], f).1).1)
  {
    CodesStep(fmt, i);
  }

  /** `readMetadata`: walk the format, storing through the next destination for each code. */
  method ReadMetadata(fmt: string, slots: seq<Slot>, f: seq<Byte>) returns (vals: seq<Val>, unread: seq<Byte>)
    requires AcceptsAll(Codes(fmt), slots)
    ensures (vals, unread) == DecodeAll(Codes(fmt), slots, f)
  {
    vals, unread := [], f;
    var i, sp := 0, slots;
    ghost var rest := Codes(fmt);
    ghost var total := DecodeAll(rest, sp, f);
    assert [] + total.0 == total.0;
    while i < |fmt| && fmt[i] != '\0'
      invariant i <= |fmt|
      invariant rest == CodesFrom(fmt, i)
      invariant AcceptsAll(rest, sp)
      invariant total == (vals + DecodeAll(rest, sp, unread).0, DecodeAll(rest, sp, unread).1)
      decreases |fmt| - i
    {
      var step := Step(fmt, i);
      ReadStep(fmt, i, rest, sp, unread);
      if step.0 != Skip {
        var one := DecodeOne(step.0, sp[0], unread);
        ghost var after := DecodeAll(rest[1..], sp[1..], one.1);
        ConcatAssoc(vals, [one.0], after.0);
        vals := vals + [one.0];
        unread := one.1;
        sp := sp[1..];
        rest := rest[1..];
      }
      i := i + step.1;
    }
    assert vals + [] == vals;
  }

  // ---------------------------------------------------------------------------
  // Round trip.

  /** The slot a reader passes for the value a writer passed. */
  function SlotOf(a: Arg): Slot
  {
    match a
    case IntArg(_) => IntSlot
    case StrArg(_) => StrSlot
    case BlobArg(_, size) => BlobSlot(size)
  }

  function SlotsOf(args: seq<Arg>): (slots: seq<Slot>)
    ensures |slots| == |args|
  {
    if args == [] then [] else [SlotOf(args[0])] + SlotsOf(args[1..])
  }

  /** What reading back one written field yields: the value of an integer field's bytes, a string up to its terminator, a block. */
  function Expected(c: Code, a: Arg): Val
    requires Fits(c, a)
  {
    match c
    case Int(k) => IntVal(LeValue(LeBytes(ToInt32(a.n), k)))
    case Text => StrVal(CStr(a.s))
    case Blob => BlobVal(a.data[..a.size])
  }

  /** An integer reads back as the 32-bit argument truncated to the field width. */
  lemma ExpectedInt(c: Code, a: Arg)
    requires Fits(c, a) && c.Int?
    ensures Expected(c, a) == IntVal(ToInt32(a.n) % Pow256(c.width))
  {
    LeValueOfLeBytes(ToInt32(a.n), c.width);
  }

  function ExpectedAll(cs: seq<Code>, args: seq<Arg>): (vs: seq<Val>)
    requires Matches(cs, args)
    ensures |vs| == |cs|
  {
    if cs == [] then [] else [Expected(cs[0], args[0])] + ExpectedAll(cs[1..], args[1..])
  }

  /** Every string argument can be read back whole. */
  predicate StringsReadable(args: seq<Arg>)
  {
    args != [] ==> (args[0].StrArg? ==> Readable(CStr(args[0].s))) && StringsReadable(args[1..])
  }

  lemma DecodeOneOfEncodeOne(c: Code, a: Arg, t: seq<Byte>)
    requires Fits(c, a) && (a.StrArg? ==> Readable(CStr(a.s)))
    ensures Accepts(c, SlotOf(a))
    ensures DecodeOne(c, SlotOf(a), EncodeOne(c, a) + t) == (Expected(c, a), t)
  {
    match c
    case Int(k) => GetNOfBytes(LeBytes(ToInt32(a.n), k), t);
    case Text => ReadStrRoundTrip(CStr(a.s), t);
    case Blob => ReadBytesPrefix(a.data[..a.size], t);
  }

  /** Reading with the writer's codes and block sizes recovers every value, in order, and leaves what followed the record. */
  lemma {:induction false} DecodeAllOfEncodeAll(cs: seq<Code>, args: seq<Arg>, t: seq<Byte>)
    requires Matches(cs, args) && StringsReadable(args)
    ensures AcceptsAll(cs, SlotsOf(args))
    ensures DecodeAll(cs, SlotsOf(args), EncodeAll(cs, args) + t) == (ExpectedAll(cs, args), t)
  {
    if cs != [] {
      var one, more := EncodeOne(cs[0], args[0]), EncodeAll(cs[1..], args[1..]);
      EncodeAllCons(cs, args);
      assert EncodeAll(cs, args) + t == one + (more + t);
      DecodeOneOfEncodeOne(cs[0], args[0], more + t);
      DecodeAllOfEncodeAll(cs[1..], args[1..], t);
      DecodeCons(cs, args, one + (more + t), more + t, t);
    } else {
      assert EncodeAll(cs, args) + t == t;
    }
  }

  /** Decoding the first field, then the rest, decodes the record. */
  lemma DecodeCons(cs: seq<Code>, args: seq<Arg>, f: seq<Byte>, f1: seq<Byte>, t: seq<Byte>)
    requires Matches(cs, args) && cs != []
    requires Fits(cs[0], args[0]) && Accepts(cs[0], SlotOf(args[0]))
    requires DecodeOne(cs[0], SlotOf(args[0]), f) == (Expected(cs[0], args[0]), f1)
    requires AcceptsAll(cs[1..], SlotsOf(args[1..]))
    requires DecodeAll(cs[1..], SlotsOf(args[1..]), f1) == (ExpectedAll(cs[1..], args[1..]), t)
    ensures AcceptsAll(cs, SlotsOf(args))
    ensures DecodeAll(cs, SlotsOf(args), f) == (ExpectedAll(cs, args), t)
  {
    SlotsOfCons(args);
    DecodeAllCons(cs, SlotsOf(args), f);
    ExpectedAllCons(cs, args);
  }

  lemma SlotsOfCons(args: seq<Arg>)
    requires args != []
    ensures SlotsOf(args)[0] == SlotOf(args[0]) && SlotsOf(args)[1..] == SlotsOf(args[1..])
  {
  }

  lemma DecodeAllCons(cs: seq<Code>, slots: seq<Slot>, f: seq<Byte>)
    requires cs != [] && |slots| == |cs| && Accepts(cs[0], slots[0]) && AcceptsAll(cs[1..], slots[1..])
    ensures AcceptsAll(cs, slots)
    ensures DecodeAll(cs, slots, f) ==
      ([DecodeOne(cs[0], slots[0], f).0] + DecodeAll(cs[1..], slots[1..], DecodeOne(cs[0], slots[0], f).1).0,
       DecodeAll(cs[1..], slots[1..], DecodeOne(cs[0], slots[0], f).1).1)
  {
  }

  lemma ExpectedAllCons(cs: seq<Code>, args: seq<Arg>)
    requires Matches(cs, args) && cs != []
    ensures Fits(cs[0], args[0]) && Matches(cs[1..], args[1..])
    ensures ExpectedAll(cs, args) == [Expected(cs[0], args[0])] + ExpectedAll(cs[1..], args[1..])
  {
  }

  /** A record written with fmt reads back through the same format. */
  lemma MetadataRoundTrip(fmt: string, args: seq<Arg>, t: seq<Byte>)
    requires Matches(Codes(fmt), args) && StringsReadable(args)
    ensures AcceptsAll(Codes(fmt), SlotsOf(args))
    ensures DecodeAll(Codes(fmt), SlotsOf(args), EncodeAll(Codes(fmt), args) + t) == (ExpectedAll(Codes(fmt), args), t)
  {
    DecodeAllOfEncodeAll(Codes(fmt), args, t);
  }

  // ---------------------------------------------------------------------------
  // The formats the record layouts use; separators such as ", " are skipped.

  /** A step at position |p| + k of p + q is the step at k of q: it looks ahead only. */
  lemma StepShift(p: string, q: string, k: nat)
    requires k < |q| && q[k] != '\0'
    ensures (p + q)[|p| + k] == q[k] && Step(p + q, |p| + k) == Step(q, k)
  {
    var f := p + q;
    assert Ch(f, |p| + k + 1) == Ch(q, k + 1) && Ch(f, |p| + k + 2) == Ch(q, k + 2);
    assert Ch(f, |p| + k + 3) == Ch(q, k + 3);
  }

  /** Scanning the tail of p + q is scanning q. */
  lemma {:induction false} CodesShift(p: string, q: string, k: nat)
    ensures CodesFrom(p + q, |p| + k) == CodesFrom(q, k)
    decreases |q| - k
  {
    if k < |q| && q[k] != '\0' {
      StepShift(p, q, k);
      CodesShift(p, q, k + Step(q, k).1);
    }
  }

  /** A format written out piece by piece: a code's spelling, or one separator character. */
  datatype Piece = Int8 | Int16 | Int32 | Int64 | Str | Block | Sep(c: char)

  predicate IsPiece(p: Piece) { p.Sep? ==> p.c != '%' && p.c != '\0' }

  function Spelling(p: Piece): string
  {
    match p
    case Int8 => "%8i"
    case Int16 => "%16i"
    case Int32 => "%32i"
    case Int64 => "%64i"
    case Str => "%s"
    case Block => "%b"
    case Sep(c) => [c]
  }

  /** The code a piece stands for; a separator stands for none. */
  function PieceCode(p: Piece): seq<Code>
  {
    match p
    case Int8 => [Int(1)]
    case Int16 => [Int(2)]
    case Int32 => [Int(4)]
    case Int64 => [Int(8)]
    case Str => [Text]
    case Block => [Blob]
    case Sep(_) => []
  }

  /** A piece at the front of a format scans to its code. */
  lemma CodesOfPiece(p: Piece, q: string)
    requires IsPiece(p)
    ensures CodesFrom(Spelling(p) + q, 0) == PieceCode(p) + CodesFrom(q, 0)
  {
    var t := Spelling(p);
    var f := t + q;
    assert f[..|t|] == t;
    CodesShift(t, q, 0);
    if !p.Sep? {
      assert Step(f, 0) == (PieceCode(p)[0], |t|);
    }
  }

  function Spell(ps: seq<Piece>): string
  {
    if ps == [] then "" else Spelling(ps[0]) + Spell(ps[1..])
  }

  function PieceCodes(ps: seq<Piece>): seq<Code>
  {
    if ps == [] then [] else PieceCode(ps[0]) + PieceCodes(ps[1..])
  }

  predicate AllPieces(ps: seq<Piece>)
  {
    ps != [] ==> IsPiece(ps[0]) && AllPieces(ps[1..])
  }

  /** A format made of pieces scans to the codes of its pieces, in order. */
  lemma {:induction false} CodesOfPieces(ps: seq<Piece>)
    requires AllPieces(ps)
    ensures Codes(Spell(ps)) == PieceCodes(ps)
  {
    if ps != [] {
      CodesOfPieces(ps[1..]);
      CodesOfPiece(ps[0], Spell(ps[1..]));
    }
  }


  /** The collider grid header of an atlas file: width and height. */
  const SizesFormat := "%32i %32i"
  const SizesPieces := [Int32, Sep(' '), Int32]

  lemma SizesSpelled()
    ensures Spell(SizesPieces) == SizesFormat
  {
  }

  lemma SizesPieceCodes()
    ensures AllPieces(SizesPieces) && PieceCodes(SizesPieces) == [Int(4), Int(4)]
  {
  }

  lemma FormatSizes()
    ensures Codes(SizesFormat) == [Int(4), Int(4)]
  {
    SizesSpelled();
    SizesPieceCodes();
    CodesOfPieces(SizesPieces);
  }

  /** One property of an object class: name, default value, type. */
  const PropertyFormat := "%s, %s, %8i"
  const PropertyPieces := [Str, Sep(','), Sep(' '), Str, Sep(','), Sep(' '), Int8]

  lemma PropertySpelled()
    ensures Spell(PropertyPieces) == PropertyFormat
  {
  }

  lemma PropertyPieceCodes()
    ensures AllPieces(PropertyPieces) && PieceCodes(PropertyPieces) == [Text, Text, Int(1)]
  {
  }

  lemma FormatProperty()
    ensures Codes(PropertyFormat) == [Text, Text, Int(1)]
  {
    PropertySpelled();
    PropertyPieceCodes();
    CodesOfPieces(PropertyPieces);
  }

  /** The header a level is loaded with: width, height, tileset name. */
  const LevelHeaderFormat := "%32i, %32i, %s"
  const LevelHeaderPieces := [Int32, Sep(','), Sep(' '), Int32, Sep(','), Sep(' '), Str]

  lemma LevelHeaderSpelled()
    ensures Spell(LevelHeaderPieces) == LevelHeaderFormat
  {
  }

  lemma LevelHeaderPieceCodes()
    ensures AllPieces(LevelHeaderPieces) && PieceCodes(LevelHeaderPieces) == [Int(4), Int(4), Text]
  {
  }

  lemma FormatLevelHeader()
    ensures Codes(LevelHeaderFormat) == [Int(4), Int(4), Text]
  {
    LevelHeaderSpelled();
    LevelHeaderPieceCodes();
    CodesOfPieces(LevelHeaderPieces);
  }

  /** The header a level is saved with: width, height, tileset name, tile block, object count. */
  const LevelFormat := "%32i %32i %s %b %16i"
  const LevelPieces := [Int32, Sep(' '), Int32, Sep(' '), Str, Sep(' '), Block, Sep(' '), Int16]

  lemma LevelSpelled()
    ensures Spell(LevelPieces) == LevelFormat
  {
  }

  lemma LevelPieceCodes()
    ensures AllPieces(LevelPieces) && PieceCodes(LevelPieces) == [Int(4), Int(4), Text, Blob, Int(2)]
  {
  }

  lemma FormatLevel()
    ensures Codes(LevelFormat) == [Int(4), Int(4), Text, Blob, Int(2)]
  {
    LevelSpelled();
    LevelPieceCodes();
    CodesOfPieces(LevelPieces);
  }

  /** One placed object of a level: position, class name, property count. */
  const ObjectFormat := "%32i %32i %s %16i"
  const ObjectPieces := [Int32, Sep(' '), Int32, Sep(' '), Str, Sep(' '), Int16]

  lemma ObjectSpelled()
    ensures Spell(ObjectPieces) == ObjectFormat
  {
  }

  lemma ObjectPieceCodes()
    ensures AllPieces(ObjectPieces) && PieceCodes(ObjectPieces) == [Int(4), Int(4), Text, Int(2)]
  {
  }

  lemma FormatObject()
    ensures Codes(ObjectFormat) == [Int(4), Int(4), Text, Int(2)]
  {
    ObjectSpelled();
    ObjectPieceCodes();
    CodesOfPieces(ObjectPieces);
  }
}
