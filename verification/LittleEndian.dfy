/** Byte buffers: zeros, little-endian numbers, and 16- and 32-bit words in place. */
module LittleEndian {
  import opened Bits

  function Zeros(n: nat): (z: seq<byte>)
    ensures |z| == n && forall i :: 0 <= i < n ==> z[i] == 0
  {
    seq(n, _ => 0)
  }

  /** The n low bytes of v, least significant first. */
  function Le(v: nat, n: nat): (s: seq<byte>)
    ensures |s| == n
  {
    if n == 0 then [] else [v % 256] + Le(v / 256, n - 1)
  }

  function U16(rec: seq<byte>, p: nat): (w: nat)
    requires p + 2 <= |rec|
    ensures w < 0x1_0000
  {
    rec[p] as int + 256 * rec[p + 1] as int
  }

  function PutU16(rec: seq<byte>, p: nat, w: nat): (r: seq<byte>)
    requires p + 2 <= |rec| && w < 0x1_0000
    ensures |r| == |rec|
    ensures forall b :: 0 <= b < |rec| && b != p && b != p + 1 ==> r[b] == rec[b]
    ensures U16(r, p) == w
  {
    rec[p := w % 256][p + 1 := w / 256]
  }

  /** Putting a word back restores the record. */
  lemma PutBack(rec: seq<byte>, p: nat, w: nat)
    requires p + 2 <= |rec| && w < 0x1_0000
    ensures PutU16(PutU16(rec, p, w), p, U16(rec, p)) == rec
  {
  }

  /** A word written elsewhere leaves this one alone. */
  lemma OtherWord(rec: seq<byte>, p: nat, w: nat, q: nat)
    requires p + 2 <= |rec| && q + 2 <= |rec| && w < 0x1_0000 && (p + 2 <= q || q + 2 <= p)
    ensures U16(PutU16(rec, p, w), q) == U16(rec, q)
  {
  }

  /** Disjoint words can be written in either order. */
  lemma PutCommutes(rec: seq<byte>, p: nat, v: nat, q: nat, w: nat)
    requires p + 2 <= |rec| && q + 2 <= |rec| && v < 0x1_0000 && w < 0x1_0000 && (p + 2 <= q || q + 2 <= p)
    ensures PutU16(PutU16(rec, p, v), q, w) == PutU16(PutU16(rec, q, w), p, v)
  {
  }

  function U32(rec: seq<byte>, p: nat): (w: nat)
    requires p + 4 <= |rec|
    ensures w < TWO32
  {
    U16(rec, p) + 0x1_0000 * U16(rec, p + 2)
  }

  function PutU32(rec: seq<byte>, p: nat, w: nat): (r: seq<byte>)
    requires p + 4 <= |rec| && w < TWO32
    ensures |r| == |rec|
    ensures forall b :: 0 <= b < |rec| && !(p <= b < p + 4) ==> r[b] == rec[b]
    ensures U32(r, p) == w
  {
    var one := PutU16(rec, p, w % 0x1_0000);
    var r := PutU16(one, p + 2, w / 0x1_0000);
    OtherWord(one, p + 2, w / 0x1_0000, p);
    r
  }

  /** Words made of the same bytes are equal. */
  lemma SameU16(a: seq<byte>, p: nat, b: seq<byte>, q: nat)
    requires p + 2 <= |a| && q + 2 <= |b| && a[p..p + 2] == b[q..q + 2]
    ensures U16(a, p) == U16(b, q)
  {
    assert a[p..p + 2][0] == a[p] && a[p..p + 2][1] == a[p + 1] && b[q..q + 2][0] == b[q] && b[q..q + 2][1] == b[q + 1];
  }

  lemma SameU32(a: seq<byte>, p: nat, b: seq<byte>, q: nat)
    requires p + 4 <= |a| && q + 4 <= |b| && a[p..p + 4] == b[q..q + 4]
    ensures U32(a, p) == U32(b, q)
  {
    SubWindow(a, p, b, q, 4, 0, 2);
    SubWindow(a, p, b, q, 4, 2, 4);
    SameU16(a, p, b, q);
    SameU16(a, p + 2, b, q + 2);
  }

  /** Equal windows have equal parts. */
  lemma SubWindow(a: seq<byte>, p: nat, b: seq<byte>, q: nat, n: nat, i: nat, j: nat)
    requires p + n <= |a| && q + n <= |b| && a[p..p + n] == b[q..q + n] && i <= j <= n
    ensures a[p + i..p + j] == b[q + i..q + j]
  {
    var x, y := a[p..p + n], b[q..q + n];
    var u, v := a[p + i..p + j], b[q + i..q + j];
    forall t | 0 <= t < |u| ensures u[t] == v[t] { assert u[t] == x[i + t] && v[t] == y[i + t]; }
  }

  /** Equal words have equal bytes. */
  lemma WordBytes(a: seq<byte>, b: seq<byte>, p: nat, x: nat)
    requires p + 4 <= |a| && p + 4 <= |b| && U32(a, p) == U32(b, p) && p <= x < p + 4
    ensures a[x] == b[x]
  {
    HalfBytes(U16(a, p), U16(a, p + 2), U16(b, p), U16(b, p + 2));
    if x < p + 2 { WordByte(a, b, p, x); } else { WordByte(a, b, p + 2, x); }
  }

  lemma HalfBytes(a: nat, b: nat, c: nat, d: nat)
    requires a < 0x1_0000 && b < 0x1_0000 && c < 0x1_0000 && d < 0x1_0000 && a + 0x1_0000 * b == c + 0x1_0000 * d
    ensures a == c && b == d
  {
  }

  lemma WordByte(a: seq<byte>, b: seq<byte>, p: nat, x: nat)
    requires p + 2 <= |a| && p + 2 <= |b| && U16(a, p) == U16(b, p) && p <= x < p + 2
    ensures a[x] == b[x]
  {
    var i, j, k, l := a[p] as int, a[p + 1] as int, b[p] as int, b[p + 1] as int;
    assert i + 256 * j == k + 256 * l;
    assert i == k && j == l;
  }
}
