/**
 * Null-terminated strings in a file (`fwritestr`, `freadstr`), the `const char*`
 * view of a `std::string`, and the `strcmp` name comparator.
 */
module Strings {
  import opened Bytes

  /**
   * A byte at which `freadstr` stops: the terminator 0, or 0xFF, which a signed
   * `char` holds as -1 and therefore compares equal to `EOF`.
   */
  predicate IsStop(b: Byte) { b == 0 || b == 0xFF }

  /** The strings that `freadstr` can read back whole. */
  predicate Readable(s: Str) { forall i :: 0 <= i < |s| ==> !IsStop(s[i]) }

  /** `fwritestr`: the string's bytes, then one 0 byte. */
  function WriteStr(str: Str): seq<Byte>
  {
    str + [0]
  }

  /** The string a `c_str()` pointer denotes once converted back: the bytes before the first 0. */
  function CStr(s: Str): Str
  {
    if s == [] || s[0] == 0 then [] else [s[0]] + CStr(s[1..])
  }

  /** The converted string is the part of s before its first 0 byte. */
  lemma {:induction false} CStrPrefix(s: Str)
    ensures |CStr(s)| <= |s| && CStr(s) == s[..|CStr(s)|]
    ensures forall i :: 0 <= i < |CStr(s)| ==> CStr(s)[i] != 0
    ensures |CStr(s)| < |s| ==> s[|CStr(s)|] == 0
  {
    if s != [] && s[0] != 0 {
      CStrPrefix(s[1..]);
      assert s[..|CStr(s)|] == [s[0]] + s[1..][..|CStr(s[1..])|];
    }
  }

  /** A string without 0 bytes survives the trip through `c_str()`. */
  lemma {:induction false} CStrOfZeroFree(s: Str)
    requires forall i :: 0 <= i < |s| ==> s[i] != 0
    ensures CStr(s) == s
  {
    if s != [] {
      CStrOfZeroFree(s[1..]);
      assert s == [s[0]] + s[1..];
    }
  }

  /** A string `freadstr` can read back survives `c_str()` too. */
  lemma ReadableIsCStr(s: Str)
    requires Readable(s)
    ensures CStr(s) == s
  {
    CStrOfZeroFree(s);
  }

  /**
   * `freadstr` on the unread bytes f: the bytes up to the first stop byte or
   * the end of the file, and what is left unread; the stop byte is consumed.
   */
  function ScanStr(f: seq<Byte>): (Str, seq<Byte>)
  {
    if f == [] then ([], [])
    else if IsStop(f[0]) then ([], f[1..])
    else
      var rest := ScanStr(f[1..]);
      ([f[0]] + rest.0, rest.1)
  }

  /**
   * What `freadstr` reads holds no stop byte and is where the file continued;
   * either the whole rest of the file, or it is followed by one stop byte that
   * is consumed.
   */
  lemma {:induction false} ScanStrSound(f: seq<Byte>)
    ensures Readable(ScanStr(f).0)
    ensures var r := ScanStr(f);
      (f == r.0 && r.1 == []) ||
      (|r.0| < |f| && IsStop(f[|r.0|]) && f == r.0 + [f[|r.0|]] + r.1)
  {
    if f != [] && !IsStop(f[0]) {
      ScanStrSound(f[1..]);
      var rest := ScanStr(f[1..]);
      assert ScanStr(f) == ([f[0]] + rest.0, rest.1);
      assert f == [f[0]] + f[1..];
      if |rest.0| < |f[1..]| && IsStop(f[1..][|rest.0|]) {
        assert f[1..] == rest.0 + [f[1..][|rest.0|]] + rest.1;
        assert [f[0]] + (rest.0 + [f[1..][|rest.0|]] + rest.1) == ([f[0]] + rest.0) + [f[1..][|rest.0|]] + rest.1;
      }
    } else if f != [] {
      assert f == [] + [f[0]] + f[1..];
    }
  }

  /** `freadstr`: read characters one by one until a stop byte or the end of the file. */
  method ReadStr(f: seq<Byte>) returns (str: Str, rest: seq<Byte>)
    ensures (str, rest) == ScanStr(f)
  {
    str, rest := [], f;
    assert str + ScanStr(rest).0 == ScanStr(rest).0;
    while true
      invariant ScanStr(f) == (str + ScanStr(rest).0, ScanStr(rest).1)
      decreases |rest|
    {
      if rest == [] {
        assert str + [] == str;
        return;
      }
      var c := rest[0];
      if IsStop(c) {
        assert str + [] == str;
        rest := rest[1..];
        return;
      }
      ghost var after := ScanStr(rest[1..]);
      assert str + ScanStr(rest).0 == (str + [c]) + after.0;
      str := str + [c];
      rest := rest[1..];
    }
  }

  /** A string without stop bytes reads back as written, and reading resumes after its terminator. */
  lemma {:induction false} ReadStrRoundTrip(str: Str, t: seq<Byte>)
    requires Readable(str)
    ensures ScanStr(WriteStr(str) + t) == (str, t)
  {
    var f := WriteStr(str) + t;
    if str == [] {
      assert f == [0] + t;
    } else {
      assert f[0] == str[0] && f[1..] == WriteStr(str[1..]) + t;
      ReadStrRoundTrip(str[1..], t);
      assert [str[0]] + str[1..] == str;
    }
  }

  /** A 0xFF byte cuts the string short and leaves the rest of it unread. */
  lemma ReadStrStopsAtFF()
    ensures ScanStr(WriteStr([0x41, 0xFF, 0x42])) == ([0x41], [0x42, 0])
  {
    var f := WriteStr([0x41, 0xFF, 0x42]);
    assert f == [0x41, 0xFF, 0x42, 0];
    assert f[1..][1..] == [0x42, 0];
    assert ScanStr(f[1..]) == ([], [0x42, 0]);
    assert [0x41] + ScanStr(f[1..]).0 == [0x41];
  }

  // ---------------------------------------------------------------------------
  // The `strcmp` name comparator.

  predicate IsDigit(b: Byte) { '0' as int <= b <= '9' as int }

  /** `s[0]` of a `std::string`; an empty string yields its terminating '\0'. */
  function First(s: Str): Byte { if s == [] then 0 else s[0] }

  /** The leading run of decimal digits. */
  function DigitPrefix(s: Str): (d: Str)
    ensures |d| <= |s| && d == s[..|d|]
    ensures forall i :: 0 <= i < |d| ==> IsDigit(d[i])
    ensures |d| < |s| ==> !IsDigit(s[|d|])
  {
    if s == [] || !IsDigit(s[0]) then [] else [s[0]] + DigitPrefix(s[1..])
  }

  /** The value of a digit string, as `std::stoi` computes it. */
  function DecimalValue(d: Str): nat
    decreases |d|
  {
    if d == [] then 0 else DecimalValue(d[..|d| - 1]) * 10 + (d[|d| - 1] - '0' as int) % 10
  }

  /** `operator<` on `std::string`: lexicographic on unsigned bytes, a proper prefix first. */
  predicate LexLess(a: Str, b: Str)
  {
    if a == [] then b != []
    else if b == [] then false
    else if a[0] != b[0] then a[0] < b[0]
    else LexLess(a[1..], b[1..])
  }

  /**
   * `strcmp(a, b)` as written: a digit-led name compares by its leading number
   * against another digit-led name and is "less" than any other name; any
   * other name compares lexicographically.
   */
  predicate StrLess(a: Str, b: Str)
  {
    if IsDigit(First(a)) then
      if IsDigit(First(b)) then DecimalValue(DigitPrefix(a)) < DecimalValue(DigitPrefix(b)) else true
    else LexLess(a, b)
  }

  lemma {:induction false} LexLessIrreflexive(a: Str)
    ensures !LexLess(a, a)
    decreases |a|
  {
    if a != [] {
      LexLessIrreflexive(a[1..]);
    }
  }

  /** No name precedes itself. */
  lemma StrLessIrreflexive(a: Str)
    ensures !StrLess(a, a)
  {
    if !IsDigit(First(a)) {
      LexLessIrreflexive(a);
    }
  }

  /** Numbered names sort by value, not by spelling: "9" before "10". */
  lemma StrLessNumeric()
    ensures StrLess([0x39], [0x31, 0x30]) && !LexLess([0x39], [0x31, 0x30])
  {
    assert DigitPrefix([0x31, 0x30]) == [0x31, 0x30];
    assert DigitPrefix([0x39]) == [0x39];
    assert DecimalValue([0x31]) == 1;
  }

  /**
   * As written, a digit-led name and a name that starts below '0' (here "-")
   * each compare less than the other, so the comparator handed to `std::sort`
   * is not a strict weak ordering.
   */
  lemma StrLessNotAsymmetric()
    ensures StrLess([0x31], [0x2D]) && StrLess([0x2D], [0x31])
  {
  }

  /** The evidently intended comparator: digit-led names first, by value; others lexicographically. */
  predicate NameLess(a: Str, b: Str)
  {
    if IsDigit(First(a)) then
      if IsDigit(First(b)) then DecimalValue(DigitPrefix(a)) < DecimalValue(DigitPrefix(b)) else true
    else if IsDigit(First(b)) then false
    else LexLess(a, b)
  }

  lemma {:induction false} LexLessAsymmetric(a: Str, b: Str)
    ensures LexLess(a, b) ==> !LexLess(b, a)
    decreases |a|
  {
    if a != [] && b != [] && a[0] == b[0] {
      LexLessAsymmetric(a[1..], b[1..]);
    }
  }

  lemma {:induction false} LexLessTransitive(a: Str, b: Str, c: Str)
    requires LexLess(a, b) && LexLess(b, c)
    ensures LexLess(a, c)
    decreases |a|
  {
    if a != [] && a[0] == b[0] && b[0] == c[0] {
      LexLessTransitive(a[1..], b[1..], c[1..]);
    }
  }

  /** The corrected comparator is irreflexive, asymmetric and transitive. */
  lemma NameLessStrictOrder(a: Str, b: Str, c: Str)
    ensures !NameLess(a, a)
    ensures NameLess(a, b) ==> !NameLess(b, a)
    ensures NameLess(a, b) && NameLess(b, c) ==> NameLess(a, c)
  {
    LexLessIrreflexive(a);
    LexLessAsymmetric(a, b);
    if NameLess(a, b) && NameLess(b, c) && !IsDigit(First(a)) && !IsDigit(First(c)) {
      LexLessTransitive(a, b, c);
    }
  }

  /** Equivalence under the corrected comparator (neither precedes the other) is transitive too. */
  lemma NameLessIncomparableTransitive(a: Str, b: Str, c: Str)
    requires !NameLess(a, b) && !NameLess(b, a) && !NameLess(b, c) && !NameLess(c, b)
    ensures !NameLess(a, c) && !NameLess(c, a)
  {
    if !IsDigit(First(a)) && !IsDigit(First(b)) && !IsDigit(First(c)) {
      LexLessTotal(a, b);
      LexLessTotal(b, c);
      LexLessIrreflexive(a);
    }
  }

  lemma {:induction false} LexLessTotal(a: Str, b: Str)
    ensures a == b || LexLess(a, b) || LexLess(b, a)
    decreases |a|
  {
    if a != [] && b != [] && a[0] == b[0] {
      LexLessTotal(a[1..], b[1..]);
      if a[1..] == b[1..] {
        assert a == [a[0]] + a[1..] && b == [b[0]] + b[1..];
      }
    }
  }
}
