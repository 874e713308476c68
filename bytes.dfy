/**
 * Files as byte sequences: little-endian fixed-width fields (`fputn`/`fgetn`,
 * the raw `fwrite`/`fread` of integer structs) and the `itobytes` splitter of
 * the export packers. Native byte order is little-endian.
 */
module Bytes {
  import opened Arith

  type Byte = b: int | 0 <= b < 256

  /** A `std::string` is modelled by its bytes. */
  type Str = seq<Byte>

  /**
   * Concatenation regroups. Stated once for any element type, so that using it
   * on long encodings does not make the verifier look inside them.
   */
  lemma ConcatAssoc<T>(a: seq<T>, b: seq<T>, c: seq<T>)
    ensures a + (b + c) == (a + b) + c
  {
  }

  /** A concatenation splits back into its two parts. */
  lemma SplitAt<T>(a: seq<T>, b: seq<T>)
    ensures (a + b)[..|a|] == a && (a + b)[|a|..] == b
  {
  }

  /** A prefix one longer is the prefix and the next element. */
  lemma TakeSnoc<T>(s: seq<T>, i: nat)
    requires i < |s|
    ensures s[..i + 1] == s[..i] + [s[i]]
  {
  }

  lemma TakeAll<T>(s: seq<T>)
    ensures s[..|s|] == s
  {
  }

  /** The middle of three pieces, cut back out. */
  lemma Middle<T>(a: seq<T>, b: seq<T>, c: seq<T>)
    ensures (a + (b + c))[|a|..|a| + |b|] == b
  {
    SplitAt(a, b + c);
    SplitAt(b, c);
  }

  /** Three pieces laid end to end split back into the three. */
  lemma Split3<T>(a: seq<T>, b: seq<T>, c: seq<T>)
    ensures var f := a + b + c;
      |f| == |a| + |b| + |c| && f[..|a|] == a && f[|a|..|a| + |b|] == b && f[|a| + |b|..] == c
  {
  }

  /** The pieces of a list laid end to end, as the export packers append them. */
  function Concat<T>(ss: seq<seq<T>>): (r: seq<T>)
  {
    if ss == [] then [] else ss[0] + Concat(ss[1..])
  }

  /** Appending one more piece appends its bytes. */
  lemma {:induction false} ConcatSnoc<T>(ss: seq<seq<T>>, s: seq<T>)
    ensures Concat(ss + [s]) == Concat(ss) + s
  {
    if ss == [] {
      assert [s][1..] == [];
    } else {
      assert (ss + [s])[1..] == ss[1..] + [s];
      ConcatSnoc(ss[1..], s);
      ConcatAssoc(ss[0], Concat(ss[1..]), s);
    }
  }

  /** Pieces all of width w lay out |ss| * w elements. */
  lemma {:induction false} ConcatUniformLength<T>(ss: seq<seq<T>>, w: nat)
    requires forall j :: 0 <= j < |ss| ==> |ss[j]| == w
    ensures |Concat(ss)| == |ss| * w
  {
    if ss != [] {
      ConcatUniformLength(ss[1..], w);
    }
  }

  /** With pieces all of width w, element q * w + m is element m of piece q. */
  lemma {:induction false} ConcatUniformAt<T>(ss: seq<seq<T>>, w: nat, q: nat, m: nat)
    requires forall j :: 0 <= j < |ss| ==> |ss[j]| == w
    requires q < |ss| && m < w
    ensures Offset(q, w, m) < |Concat(ss)| && Concat(ss)[Offset(q, w, m)] == ss[q][m]
  {
    var r := ss[1..];
    ConcatUniformLength(r, w);
    assert Concat(ss) == ss[0] + Concat(r);
    if q > 0 {
      ConcatUniformAt(r, w, q - 1, m);
      assert q * w + m == w + ((q - 1) * w + m);
      assert r[q - 1] == ss[q];
    }
  }

  /** A slice of the second piece, cut from the two laid end to end. */
  lemma SliceAfter<T>(a: seq<T>, b: seq<T>, i: nat, j: nat)
    requires i <= j <= |b|
    ensures (a + b)[|a| + i..|a| + j] == b[i..j]
  {
  }

  /** Pieces of length w laid end to end: piece q is the slice starting after q pieces. */
  lemma {:induction false} ConcatUniformSlice<T>(ss: seq<seq<T>>, w: nat, q: nat)
    requires forall j :: 0 <= j < |ss| ==> |ss[j]| == w
    requires q < |ss|
    ensures Offset(q, w, w) <= |Concat(ss)| && Concat(ss)[Offset(q, w, 0)..Offset(q, w, w)] == ss[q]
  {
    var r := ss[1..];
    ConcatUniformLength(r, w);
    assert Concat(ss) == ss[0] + Concat(r);
    if q == 0 {
      SplitAt(ss[0], Concat(r));
    } else {
      ConcatUniformSlice(r, w, q - 1);
      assert Offset(q, w, 0) == w + Offset(q - 1, w, 0) && Offset(q, w, w) == w + Offset(q - 1, w, w);
      SliceAfter(ss[0], Concat(r), Offset(q - 1, w, 0), Offset(q - 1, w, w));
      assert r[q - 1] == ss[q];
    }
  }

  /** The k bytes of n, least significant first: what `fputn` on a k-byte unsigned integer writes. */
  function LeBytes(n: int, k: nat): (bs: seq<Byte>)
    ensures |bs| == k
    decreases k
  {
    if k == 0 then [] else [n % 256] + LeBytes(n / 256, k - 1)
  }

  /** The unsigned value of a little-endian byte string: what `fgetn` returns. */
  function LeValue(bs: seq<Byte>): nat
  {
    if bs == [] then 0 else bs[0] + 256 * LeValue(bs[1..])
  }

  lemma {:induction false} LeValueBound(bs: seq<Byte>)
    ensures LeValue(bs) < Pow256(|bs|)
  {
    if bs != [] {
      LeValueBound(bs[1..]);
      assert LeValue(bs[1..]) <= Pow256(|bs| - 1) - 1;
      assert 256 * LeValue(bs[1..]) <= 256 * Pow256(|bs| - 1) - 256;
    }
  }

  lemma ModStep(n: int, p: nat)
    requires p > 0
    ensures n % (256 * p) == n % 256 + 256 * ((n / 256) % p)
  {
    var a, b := n / 256, n % 256;
    var c, d := a / p, a % p;
    assert n == 256 * a + b;
    assert a == c * p + d;
    assert n == c * (256 * p) + (256 * d + b) by {
      calc {
        n;
        256 * a + b;
        256 * (c * p + d) + b;
        c * (256 * p) + (256 * d + b);
      }
    }
    assert 256 * d <= 256 * (p - 1);
    DivModUnique(n, 256 * p, c, 256 * d + b);
  }

  /** Reading back k written bytes yields n truncated to k bytes. */
  lemma {:induction false} LeValueOfLeBytes(n: int, k: nat)
    ensures LeValue(LeBytes(n, k)) == n % Pow256(k)
    decreases k
  {
    if k > 0 {
      var bs := LeBytes(n, k);
      assert bs[1..] == LeBytes(n / 256, k - 1);
      LeValueOfLeBytes(n / 256, k - 1);
      ModStep(n, Pow256(k - 1));
    }
  }

  /** Writing back the value read from k bytes reproduces those bytes. */
  lemma {:induction false} LeBytesOfLeValue(bs: seq<Byte>)
    ensures LeBytes(LeValue(bs), |bs|) == bs
  {
    if bs != [] {
      var v := LeValue(bs);
      DivModUnique(v, 256, LeValue(bs[1..]), bs[0]);
      LeBytesOfLeValue(bs[1..]);
      assert LeBytes(v, |bs|) == [bs[0]] + bs[1..];
    }
  }

  /** Field i of the splitter is the byte `(n >> 8i) & 0xff` (arithmetic shift = floor division). */
  lemma {:induction false} LeBytesAt(n: int, k: nat, i: nat)
    requires i < k
    ensures LeBytes(n, k)[i] == (n / Pow256(i)) % 256
    decreases i
  {
    if i > 0 {
      LeBytesAt(n / 256, k - 1, i - 1);
      DivDiv(n, 256, Pow256(i - 1));
    }
  }

  /**
   * `itobytes(n, k)`: k fields, each `(n >> (i*8)) & 0xff`, least significant first.
   * Together they encode n modulo 256^k.
   */
  method IntToBytes(n: int, k: nat) returns (fields: seq<Byte>)
    ensures fields == LeBytes(n, k)
    ensures |fields| == k && LeValue(fields) == n % Pow256(k)
  {
    fields := [];
    for i := 0 to k
      invariant |fields| == i
      invariant forall j :: 0 <= j < i ==> fields[j] == (n / Pow256(j)) % 256
    {
      fields := fields + [(n / Pow256(i)) % 256];
    }
    forall j | 0 <= j < k
      ensures fields[j] == LeBytes(n, k)[j]
    {
      LeBytesAt(n, k, j);
    }
    LeValueOfLeBytes(n, k);
  }

  function Zeros(k: nat): (z: seq<Byte>)
    ensures |z| == k && forall i :: 0 <= i < k ==> z[i] == 0
  {
    if k == 0 then [] else [0] + Zeros(k - 1)
  }

  // A file open for reading is modelled by its unread bytes; the cursor is the
  // file's length minus theirs. Reading at the end of the file moves nothing.

  /**
   * `fread` of k bytes: the bytes present, with any that lie past the end of
   * the file read as 0, and the bytes left unread.
   */
  function ReadBytes(f: seq<Byte>, k: nat): (r: (seq<Byte>, seq<Byte>))
    ensures |r.0| == k
    decreases k
  {
    if k == 0 then ([], f)
    else if f == [] then (Zeros(k), [])
    else
      var rest := ReadBytes(f[1..], k - 1);
      ([f[0]] + rest.0, rest.1)
  }

  /** Reading bytes that are there yields them and leaves what follows. */
  lemma {:induction false} ReadBytesPrefix(bs: seq<Byte>, t: seq<Byte>)
    ensures ReadBytes(bs + t, |bs|) == (bs, t)
  {
    if bs != [] {
      ReadBytesPrefix(bs[1..], t);
      assert (bs + t)[1..] == bs[1..] + t;
      assert [bs[0]] + bs[1..] == bs;
    } else {
      assert bs + t == t;
    }
  }

  /** Reading past the end of the file yields what is left, then zeros, and leaves nothing. */
  lemma {:induction false} ReadBytesPastEnd(f: seq<Byte>, k: nat)
    requires |f| < k
    ensures ReadBytes(f, k) == (f + Zeros(k - |f|), [])
  {
    if f != [] {
      ReadBytesPastEnd(f[1..], k - 1);
      var rest := ReadBytes(f[1..], k - 1);
      ConcatAssoc([f[0]], f[1..], Zeros(k - |f|));
      assert [f[0]] + f[1..] == f;
    } else {
      assert f + Zeros(k) == Zeros(k);
    }
  }

  /** `fgetn` of a k-byte unsigned integer. */
  function GetN(f: seq<Byte>, k: nat): (r: (nat, seq<Byte>))
  {
    var r := ReadBytes(f, k);
    (LeValue(r.0), r.1)
  }

  /** `fgetn` of k bytes that are there yields their value. */
  lemma GetNOfBytes(bs: seq<Byte>, t: seq<Byte>)
    ensures GetN(bs + t, |bs|) == (LeValue(bs), t)
  {
    ReadBytesPrefix(bs, t);
  }

  /** `fgetn` reads back what `fputn` wrote, truncated to the field width. */
  lemma GetNOfLeBytes(n: int, k: nat, t: seq<Byte>)
    ensures GetN(LeBytes(n, k) + t, k) == (n % Pow256(k), t)
  {
    GetNOfBytes(LeBytes(n, k), t);
    LeValueOfLeBytes(n, k);
  }

  /** A 32-bit two's-complement reinterpretation of an unsigned 32-bit field (`int` read through `uint32_t*`). */
  function ToInt32(v: int): int
  {
    var u := v % 0x1_0000_0000;
    if u >= 0x8000_0000 then u - 0x1_0000_0000 else u
  }

  predicate IsInt32(n: int) { -0x8000_0000 <= n < 0x8000_0000 }

  lemma ToInt32OfTruncated(n: int)
    requires IsInt32(n)
    ensures ToInt32(n % Pow256(4)) == n
  {
    assert Pow256(4) == 0x1_0000_0000;
    if n < 0 {
      DivModUnique(n, 0x1_0000_0000, -1, n + 0x1_0000_0000);
    } else {
      DivModUnique(n, 0x1_0000_0000, 0, n);
    }
  }

  /** A value that is already a 32-bit `int` is its own reinterpretation. */
  lemma Int32Fixed(n: int)
    requires IsInt32(n)
    ensures ToInt32(n) == n
  {
    if n < 0 {
      DivModUnique(n, 0x1_0000_0000, -1, n + 0x1_0000_0000);
    } else {
      DivModUnique(n, 0x1_0000_0000, 0, n);
    }
  }

  /** An unsigned 32-bit value passed through `int` and written as 4 bytes reads back unchanged. */
  lemma Uint32RoundTrip(n: int)
    requires 0 <= n < 0x1_0000_0000
    ensures LeValue(LeBytes(ToInt32(n), 4)) == n
  {
    LeValueOfLeBytes(ToInt32(n), 4);
    assert Pow256(4) == 0x1_0000_0000;
    if n >= 0x8000_0000 {
      DivModUnique(n, 0x1_0000_0000, 0, n);
      DivModUnique(n - 0x1_0000_0000, 0x1_0000_0000, -1, n);
    } else {
      DivModUnique(n, 0x1_0000_0000, 0, n);
    }
  }
}
