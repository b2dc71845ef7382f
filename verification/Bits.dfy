/** Numbers and bits that several models share: powers of two, small facts about products
    and quotients, little-endian bit strings, the zero-extended bit stream of a byte buffer
    and the bitwise OR that the bit reader uses to append a byte to its accumulator. */
module Bits {

  type bit = b: int | 0 <= b < 2
  type byte = b: int | 0 <= b < 256

  const TWO32: nat := 0x1_0000_0000

  function Min(a: nat, b: nat): nat { if a <= b then a else b }

  function Pow2(n: nat): (p: nat)
    ensures p > 0
  {
    if n == 0 then 1 else 2 * Pow2(n - 1)
  }

  lemma {:induction false} Pow2Add(a: nat, b: nat)
    ensures Pow2(a + b) == Pow2(a) * Pow2(b)
  {
    if a > 0 {
      Pow2Add(a - 1, b);
      assert Pow2(a) * Pow2(b) == 2 * (Pow2(a - 1) * Pow2(b));
    }
  }

  lemma {:induction false} Pow2Monotone(a: nat, b: nat)
    requires a <= b
    ensures Pow2(a) <= Pow2(b)
  {
    if a < b { Pow2Monotone(a, b - 1); }
  }

  function Quot(x: nat, d: nat): nat
    requires d > 0
  {
    x / d
  }

  lemma MulGe(d: nat, k: nat)
    requires k >= 1
    ensures d * k >= d
  {
  }

  lemma MulMonotone(a: nat, b: nat, c: nat)
    requires a <= b
    ensures a * c <= b * c
  {
  }

  lemma MulCancelLess(a: int, b: int, c: nat)
    requires a * c < b * c
    ensures a < b
  {
  }

  lemma MulDistribute(a: int, b: int, c: int)
    ensures a * (b + c) == a * b + a * c
    ensures a * (b - c) == a * b - a * c
  {
  }

  lemma MulDistributeRight(a: int, b: int, c: int)
    ensures (a + b) * c == a * c + b * c
  {
  }

  lemma MulComm(a: int, b: int)
    ensures a * b == b * a
  {
  }

  lemma MulAssoc(a: int, b: int, c: int)
    ensures a * (b * c) == (a * b) * c
  {
  }

  lemma SmallMod(x: nat, m: nat)
    requires x < m
    ensures x % m == x
  {
  }

  lemma DivUnique(x: nat, d: nat, q: nat, r: nat)
    requires d > 0 && x == d * q + r && r < d
    ensures x / d == q && x % d == r
  {
    var q', r' := x / d, x % d;
    assert x == d * q' + r';
    if q > q' {
      MulDistribute(d, q, q');
      MulGe(d, q - q');
    } else if q < q' {
      MulDistribute(d, q', q);
      MulGe(d, q' - q);
    }
  }

  lemma DivExact(x: nat, d: nat, q: nat)
    requires d > 0 && x == q * d
    ensures x / d == q
  {
    MulComm(q, d);
    DivUnique(x, d, q, 0);
  }

  lemma DivLess(x: nat, d: nat, k: nat)
    requires d > 0 && x < k * d
    ensures x / d < k
  {
    if x / d >= k { MulMonotone(k, x / d, d); }
  }

  lemma RemainderFits(a: nat, b: nat, r2: nat, r: nat)
    requires r < a && r2 < b
    ensures a * r2 + r < a * b
  {
    MulDistribute(a, r2, b - r2);
    MulGe(a, b - r2);
  }

  lemma DivDivSum(x: nat, a: nat, b: nat, q: nat, r: nat, q2: nat, r2: nat)
    requires x == a * q + r && q == b * q2 + r2
    ensures x == (a * b) * q2 + (a * r2 + r)
  {
    MulDistribute(a, b * q2, r2);
    MulAssoc(a, b, q2);
  }

  /** Two successive right shifts are one. */
  lemma DivDiv(x: nat, a: nat, b: nat)
    requires a > 0 && b > 0
    ensures a * b > 0 && x / a / b == x / (a * b)
  {
    var q, r := x / a, x % a;
    var q2, r2 := q / b, q % b;
    MulGe(a, b);
    DivDivSum(x, a, b, q, r, q2, r2);
    RemainderFits(a, b, r2, r);
    DivUnique(x, a * b, q2, a * r2 + r);
  }

  // ---- little-endian bit strings -------------------------------------------------

  /** The number whose binary digits, least significant first, are w. */
  function Value(w: seq<bit>): (v: nat)
    ensures v < Pow2(|w|)
  {
    if w == [] then 0 else w[0] + 2 * Value(w[1..])
  }

  /** The n low bits of v, least significant first. */
  function LsbBits(v: nat, n: nat): (w: seq<bit>)
    ensures |w| == n
  {
    if n == 0 then [] else [v % 2] + LsbBits(v / 2, n - 1)
  }

  lemma {:induction false} ValueOfLsbBits(v: nat, n: nat)
    requires v < Pow2(n)
    ensures Value(LsbBits(v, n)) == v
  {
    if n > 0 {
      ValueOfLsbBits(v / 2, n - 1);
      assert LsbBits(v, n)[1..] == LsbBits(v / 2, n - 1);
    }
  }

  lemma {:induction false} LsbBitsOfValue(w: seq<bit>)
    ensures LsbBits(Value(w), |w|) == w
  {
    if w != [] {
      LsbBitsOfValue(w[1..]);
      assert Value(w) % 2 == w[0] && Value(w) / 2 == Value(w[1..]);
      assert w == [w[0]] + w[1..];
    }
  }

  lemma {:induction false} ValueConcat(a: seq<bit>, b: seq<bit>)
    ensures Value(a + b) == Value(a) + Value(b) * Pow2(|a|)
  {
    if a == [] {
      assert a + b == b;
    } else {
      ValueConcat(a[1..], b);
      assert (a + b)[1..] == a[1..] + b;
      MulAssoc(Value(b), Pow2(|a| - 1), 2);
    }
  }

  lemma ValueSplit(a: seq<bit>, b: seq<bit>)
    ensures Value(a + b) % Pow2(|a|) == Value(a)
    ensures Value(a + b) / Pow2(|a|) == Value(b)
  {
    ValueConcat(a, b);
    MulComm(Value(b), Pow2(|a|));
    DivUnique(Value(a + b), Pow2(|a|), Value(b), Value(a));
  }

  // ---- the bit stream of a byte buffer -------------------------------------------

  /** Bit i of the stream: bytes in order, each least significant bit first, and
      zeros after the end of the buffer. */
  function BitAt(src: seq<byte>, i: nat): bit {
    if i / 8 < |src| then src[i / 8] / Pow2(i % 8) % 2 else 0
  }

  function Window(src: seq<byte>, p: nat, n: nat): (w: seq<bit>)
    ensures |w| == n
  {
    seq<bit>(n, i requires 0 <= i => BitAt(src, p + i))
  }

  lemma WindowSplit(src: seq<byte>, p: nat, a: nat, b: nat)
    ensures Window(src, p, a + b) == Window(src, p, a) + Window(src, p + a, b)
  {
    var w, u, v := Window(src, p, a + b), Window(src, p, a), Window(src, p + a, b);
    forall i | 0 <= i < a + b ensures w[i] == (u + v)[i] {
      if i >= a { assert v[i - a] == BitAt(src, p + a + (i - a)); }
    }
  }

  /** Eight stream bits starting at a byte boundary spell that byte. */
  lemma ByteWindow(src: seq<byte>, k: nat)
    ensures Value(Window(src, 8 * k, 8)) == if k < |src| then src[k] else 0
  {
    var v: nat := if k < |src| then src[k] else 0;
    var w := Window(src, 8 * k, 8);
    forall i | 0 <= i < 8 ensures w[i] == v / Pow2(i) % 2 {
      assert w[i] == BitAt(src, 8 * k + i);
      assert (8 * k + i) / 8 == k && (8 * k + i) % 8 == i;
    }
    ByteDigits(v);
    assert LsbBits(v, 8) == w;
    assert v < Pow2(8) by { assert Pow2(8) == 256; }
    ValueOfLsbBits(v, 8);
  }

  lemma ByteDigits(v: nat)
    ensures forall i :: 0 <= i < 8 ==> LsbBits(v, 8)[i] == v / Pow2(i) % 2
  {
    forall i | 0 <= i < 8 ensures LsbBits(v, 8)[i] == v / Pow2(i) % 2 { LsbDigit(v, 8, i); }
  }

  lemma {:induction false} LsbDigit(v: nat, n: nat, i: nat)
    requires i < n
    ensures LsbBits(v, n)[i] == v / Pow2(i) % 2
  {
    if i > 0 {
      LsbDigit(v / 2, n - 1, i - 1);
      DivDiv(v, 2, Pow2(i - 1));
    }
  }

  // ---- bitwise OR -----------------------------------------------------------------

  function BitOr(x: nat, y: nat): nat
    decreases x + y
  {
    if x == 0 && y == 0 then 0
    else (if x % 2 == 1 || y % 2 == 1 then 1 else 0) + 2 * BitOr(x / 2, y / 2)
  }

  /** OR of bits that do not overlap is addition. */
  lemma {:induction false} OrDisjoint(x: nat, y: nat, k: nat)
    requires x < Pow2(k)
    ensures BitOr(x, y * Pow2(k)) == x + y * Pow2(k)
    decreases k
  {
    if k == 0 {
      OrZero(y);
    } else {
      var z := y * Pow2(k);
      assert z == 2 * (y * Pow2(k - 1));
      OrDisjoint(x / 2, y, k - 1);
      assert z / 2 == y * Pow2(k - 1) && z % 2 == 0;
      if x == 0 && z == 0 {
      } else {
        assert BitOr(x, z) == x % 2 + 2 * BitOr(x / 2, z / 2);
      }
    }
  }

  lemma {:induction false} OrZero(y: nat)
    ensures BitOr(0, y) == y
  {
    if y > 0 { OrZero(y / 2); }
  }
}
