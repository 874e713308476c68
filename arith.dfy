/** Integer facts shared by the byte codecs and the grid arithmetic. */
module Arith {

  function Min(a: int, b: int): int { if a <= b then a else b }

  /** Position m of the (q+1)-th piece when pieces are w long. */
  function Offset(q: nat, w: nat, m: nat): nat { q * w + m }

  /** 256^k, the range of a k-byte unsigned field. */
  function Pow256(k: nat): (p: nat)
    ensures p > 0
  {
    if k == 0 then 1 else 256 * Pow256(k - 1)
  }

  /** C++ integer division, which truncates toward zero (Dafny's `/` is Euclidean). */
  function CDiv(a: int, b: int): int
    requires b != 0
  {
    if (a >= 0) == (b > 0) then
      (if a >= 0 then a / b else (-a) / (-b))
    else
      -((if a >= 0 then a else -a) / (if b > 0 then b else -b))
  }

  lemma CDivNonNegative(a: int, b: int)
    requires a >= 0 && b > 0
    ensures CDiv(a, b) == a / b
  {
  }

  /** Multiplication by a non-negative factor is monotone. */
  lemma MulMono(a: int, b: int, d: int)
    requires a <= b && 0 <= d
    ensures a * d <= b * d
  {
    var k := b - a;
    assert b * d == a * d + k * d;
    assert k * d >= 0;
  }

  /** Euclidean division is determined by any quotient/remainder pair. */
  lemma DivModUnique(n: int, d: int, q: int, r: int)
    requires d > 0 && 0 <= r < d && n == q * d + r
    ensures n / d == q && n % d == r
  {
    var q0, r0 := n / d, n % d;
    assert n == q0 * d + r0;
    if q0 > q {
      assert (q + 1) * d == q * d + d;
      MulMono(q + 1, q0, d);
      assert false;
    } else if q0 < q {
      assert (q0 + 1) * d == q0 * d + d;
      MulMono(q0 + 1, q, d);
      assert false;
    }
  }

  /** A number is its remainder plus its quotient times the divisor. */
  lemma DivMod(k: int, d: int)
    requires d > 0
    ensures k == k % d + (k / d) * d
  {
  }

  lemma Regroup(x: int, y: int, a: int, b: int)
    ensures (x * b + y) * a == x * (a * b) + y * a
  {
  }

  lemma DivDiv(n: int, a: int, b: int)
    requires a > 0 && b > 0
    ensures a * b > 0
    ensures (n / a) / b == n / (a * b)
  {
    MulMono(1, b, a);
    var q1, r1 := n / a, n % a;
    var q2, r2 := q1 / b, q1 % b;
    Regroup(q2, r2, a, b);
    assert n == q2 * (a * b) + (r2 * a + r1);
    MulMono(r2, b - 1, a);
    Regroup(1, -1, a, b);
    DivModUnique(n, a * b, q2, r2 * a + r1);
  }

  /** Row-major cell index: x + y * w lies in [0, w*h) for an in-grid cell. */
  lemma IndexInGrid(x: int, y: int, w: int, h: int)
    requires 0 <= x < w && 0 <= y < h
    ensures 0 <= x + y * w < w * h
  {
    MulMono(0, y, w);
    MulMono(y, h - 1, w);
    assert (h - 1) * w == h * w - w;
  }

  /** Distinct in-row offsets and rows give distinct row-major indices. */
  lemma IndexInjective(x1: int, y1: int, x2: int, y2: int, w: int)
    requires 0 <= x1 < w && 0 <= x2 < w
    requires x1 + y1 * w == x2 + y2 * w
    ensures x1 == x2 && y1 == y2
  {
    DivModUnique(x1 + y1 * w, w, y1, x1);
    DivModUnique(x2 + y2 * w, w, y2, x2);
  }

  /** Row-major indices decompose back into their column and row. */
  lemma IndexDecompose(x: int, y: int, w: int)
    requires 0 <= x < w
    ensures (x + y * w) % w == x && (x + y * w) / w == y
  {
    DivModUnique(x + y * w, w, y, x);
  }
}
