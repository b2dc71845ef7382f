/** PNG row filters (RFC 2083 section 6) and their reconstruction in src/image.c. */
module Png {
  import opened Bits
  import opened LittleEndian

  function Abs(x: int): nat { if x < 0 then -x else x }

  /** paeth_predict: whichever of left, above and upper-left is nearest to
      left + above - upperLeft, ties resolved in that order. */
  function Paeth(a: byte, b: byte, c: byte): (r: byte)
    ensures var p := a + b - c;
            && (r == a || r == b || r == c)
            && Abs(p - r) <= Abs(p - a) && Abs(p - r) <= Abs(p - b) && Abs(p - r) <= Abs(p - c)
            && (Abs(p - a) == Abs(p - r) ==> r == a)
            && (Abs(p - b) == Abs(p - r) ==> r == a || r == b)
  {
    var p := a + b - c;
    var pa, pb, pc := Abs(p - a), Abs(p - b), Abs(p - c);
    if pa <= pb && pa <= pc then a else if pb <= pc then b else c
  }

  /** Byte x of a row, zero to the left of the first pixel. */
  function At(row: seq<byte>, x: int): byte
    requires x < |row|
  {
    if x >= 0 then row[x] else 0
  }

  /** Byte x of a row is what byte x of its scanline means: the value stored, plus the byte
      one pixel to the left, the byte above, half their sum, or the Paeth choice. */
  ghost predicate ByteRestored(filter: byte, raw: seq<byte>, prev: seq<byte>, bpp: nat, row: seq<byte>, x: nat)
    requires bpp > 0 && x < |raw| && x < |prev| && x < |row|
  {
    var left: int, above: int := At(row, x - bpp), prev[x];
    if filter == 1 then row[x] == (raw[x] + left) % 256
    else if filter == 2 then row[x] == (raw[x] + above) % 256
    else if filter == 3 then row[x] == (raw[x] + (left + above) / 2) % 256
    else if filter == 4 then row[x] == (raw[x] as int + Paeth(At(row, x - bpp), prev[x], At(prev, x - bpp))) % 256
    else row[x] == raw[x]
  }

  /** `row` is what the scanline `raw` with this filter type means below the row `prev`. */
  ghost predicate Restored(filter: byte, raw: seq<byte>, prev: seq<byte>, bpp: nat, row: seq<byte>) {
    && bpp > 0 && |raw| == |prev| == |row|
    && forall x :: 0 <= x < |row| ==> ByteRestored(filter, raw, prev, bpp, row, x)
  }

  /** The filter loop, left to right and in place, on any scanline. */
  method UnfilterRow(filter: byte, raw: seq<byte>, prev: seq<byte>, bpp: nat, cur: array<byte>)
    requires bpp > 0 && |prev| == |raw| <= cur.Length
    modifies cur
    ensures Restored(filter, raw, prev, bpp, cur[..|raw|])
    ensures forall x :: |raw| <= x < cur.Length ==> cur[x] == old(cur[x])
  {
    hide Paeth;
    var x := 0;
    while x < |raw|
      invariant 0 <= x <= |raw| && forall k :: 0 <= k < x ==> ByteRestored(filter, raw, prev, bpp, cur[..|raw|], k)
      invariant forall k :: |raw| <= k < cur.Length ==> cur[k] == old(cur[k])
    {
      var a: byte := if x >= bpp then cur[x - bpp] else 0;
      var b := prev[x];
      var c: byte := if x >= bpp then prev[x - bpp] else 0;
      var r := raw[x];
      ghost var was := cur[..|raw|];
      match filter {
        case 0 => cur[x] := r;
        case 1 => cur[x] := (r + a) % 256;
        case 2 => cur[x] := (r + b) % 256;
        case 3 => cur[x] := (r + (a + b) / 2) % 256;
        case 4 => cur[x] := (r + Paeth(a, b, c)) % 256;
        case _ => cur[x] := r;
      }
      ghost var now := cur[..|raw|];
      forall k | 0 <= k < x ensures ByteRestored(filter, raw, prev, bpp, now, k) {
        SameByte(filter, raw, prev, bpp, was, now, k);
      }
      assert At(now, x - bpp) == a && At(prev, x - bpp) == c;
      x := x + 1;
    }
  }

  lemma SameByte(
      filter: byte, raw: seq<byte>, prev: seq<byte>, bpp: nat, was: seq<byte>, now: seq<byte>, x: nat)
    requires bpp > 0 && |raw| == |prev| == |was| == |now| && x < |raw| && was[..x + 1] == now[..x + 1]
    requires ByteRestored(filter, raw, prev, bpp, was, x)
    ensures ByteRestored(filter, raw, prev, bpp, now, x)
  {
    hide Paeth;
    assert was[x] == was[..x + 1][x] == now[..x + 1][x] == now[x];
    if x >= bpp { assert was[x - bpp] == was[..x + 1][x - bpp] == now[..x + 1][x - bpp]; }
  }

  // ---- the filters, and that reconstruction undoes them ---------------------------

  /** What an encoder stores for byte x (RFC 2083 sections 6.2 to 6.6). */
  function Filtered(filter: byte, row: seq<byte>, prev: seq<byte>, bpp: nat, x: nat): byte
    requires bpp > 0 && |row| == |prev| && x < |row|
  {
    var left: int, above: int := At(row, x - bpp), prev[x];
    match filter
    case 1 => (row[x] - left) % 256
    case 2 => (row[x] - above) % 256
    case 3 => (row[x] - (left + above) / 2) % 256
    case 4 => (row[x] as int - Paeth(At(row, x - bpp), prev[x], At(prev, x - bpp))) % 256
    case _ => row[x]
  }

  function FilterRow(filter: byte, row: seq<byte>, prev: seq<byte>, bpp: nat): (r: seq<byte>)
    requires bpp > 0 && |row| == |prev|
    ensures |r| == |row|
  {
    seq(|row|, x requires 0 <= x < |row| => Filtered(filter, row, prev, bpp, x))
  }

  /** Addition modulo 256 is undone by subtraction and the other way round. */
  lemma ByteWrap(v: int, r: int, p: int)
    requires 0 <= v < 256 && 0 <= r < 256
    ensures v == (r + p) % 256 <==> r == (v - p) % 256
  {
  }

  /** A row is what a scanline means if and only if the scanline is the filtered row. */
  lemma RestoredIffFiltered(filter: byte, raw: seq<byte>, prev: seq<byte>, bpp: nat, row: seq<byte>)
    requires bpp > 0 && |raw| == |prev| == |row|
    ensures Restored(filter, raw, prev, bpp, row) <==> raw == FilterRow(filter, row, prev, bpp)
  {
    hide ByteRestored, Filtered;
    forall x | 0 <= x < |row|
      ensures ByteRestored(filter, raw, prev, bpp, row, x) <==> raw[x] == FilterRow(filter, row, prev, bpp)[x]
    {
      ByteRestoredIff(filter, raw, prev, bpp, row, x);
    }
  }

  lemma ByteRestoredIff(filter: byte, raw: seq<byte>, prev: seq<byte>, bpp: nat, row: seq<byte>, x: nat)
    requires bpp > 0 && |raw| == |prev| == |row| && x < |row|
    ensures ByteRestored(filter, raw, prev, bpp, row, x) <==> raw[x] == Filtered(filter, row, prev, bpp, x)
  {
    hide Paeth, At;
    var left: int, above: int, p: int := At(row, x - bpp), prev[x], Paeth(At(row, x - bpp), prev[x], At(prev, x - bpp));
    ByteWrap(row[x], raw[x], left);
    ByteWrap(row[x], raw[x], above);
    ByteWrap(row[x], raw[x], (left + above) / 2);
    ByteWrap(row[x], raw[x], p);
  }

  /** No two rows are what one scanline means. */
  lemma {:induction false} RestoredOnce(
      filter: byte, raw: seq<byte>, prev: seq<byte>, bpp: nat, a: seq<byte>, b: seq<byte>, n: nat)
    requires Restored(filter, raw, prev, bpp, a) && Restored(filter, raw, prev, bpp, b) && n <= |raw|
    ensures a[..n] == b[..n]
  {
    if n > 0 {
      RestoredOnce(filter, raw, prev, bpp, a, b, n - 1);
      var x := n - 1;
      assert At(a, x - bpp) == At(b, x - bpp) by {
        if x >= bpp { assert a[..x][x - bpp] == b[..x][x - bpp]; }
      }
      assert ByteRestored(filter, raw, prev, bpp, a, x) && ByteRestored(filter, raw, prev, bpp, b, x);
      assert a[..n] == a[..x] + [a[x]] && b[..n] == b[..x] + [b[x]];
    }
  }

  // ---- whole images ---------------------------------------------------------------

  /** Every row of the image is what its scanline means below the row above it; above the
      first row there are zeros. */
  ghost predicate ImageOf(data: seq<byte>, stride: nat, bpp: nat, image: seq<seq<byte>>) {
    forall y :: 0 <= y < |image| ==> RowOf(data, stride, bpp, image, y)
  }

  ghost predicate RowOf(data: seq<byte>, stride: nat, bpp: nat, image: seq<seq<byte>>, y: nat)
    requires y < |image|
  {
    && LineEnd(stride, y) <= |data|
    && Restored(data[LineEnd(stride, y) - stride - 1], data[LineEnd(stride, y) - stride..LineEnd(stride, y)],
                if y == 0 then Zeros(stride) else image[y - 1], bpp, image[y])
  }

  /** Where scanline y ends: each has its filter byte and `stride` bytes. */
  function LineEnd(stride: nat, y: nat): (e: nat)
    ensures e >= stride + 1
  {
    if y == 0 then stride + 1 else LineEnd(stride, y - 1) + stride + 1
  }

  lemma {:induction false} LineEndIs(stride: nat, y: nat)
    ensures LineEnd(stride, y) == (y + 1) * (stride + 1)
  {
    if y > 0 {
      LineEndIs(stride, y - 1);
      MulDistributeRight(y, 1, stride + 1);
    }
  }

  lemma LineInside(data: seq<byte>, stride: nat, h: nat, y: nat)
    requires y < h && |data| >= h * (stride + 1)
    ensures LineEnd(stride, y) <= |data|
  {
    LineEndIs(stride, y);
    MulMonotone(y + 1, h, stride + 1);
  }

  /** The row loop of image_load_png on any decompressed data that is long enough. */
  method UnfilterImage(data: seq<byte>, h: nat, stride: nat, bpp: nat) returns (image: seq<seq<byte>>)
    requires bpp > 0 && |data| >= h * (stride + 1)
    ensures |image| == h && ImageOf(data, stride, bpp, image)
  {
    image := [];
    var prev := Zeros(stride);
    var cur := new byte[stride];
    var rp := 0;
    var y := 0;
    while y < h
      invariant 0 <= y == |image| <= h && |prev| == stride && prev == (if y == 0 then Zeros(stride) else image[y - 1])
      invariant rp == LineEnd(stride, y) - stride - 1 && ImageOf(data, stride, bpp, image)
    {
      LineInside(data, stride, h, y);
      var filter := data[rp];
      rp := rp + 1;
      var raw := data[rp..rp + stride];
      rp := rp + stride;
      UnfilterRow(filter, raw, prev, bpp, cur);
      assert cur[..] == cur[..stride];
      ghost var was := image;
      image := image + [cur[..]];
      prev := cur[..];
      assert RowOf(data, stride, bpp, image, y);
      forall k | 0 <= k < y ensures RowOf(data, stride, bpp, image, k) { assert RowOf(data, stride, bpp, was, k); }
      y := y + 1;
    }
  }

  /** The scanline stream of an image, each row filtered against the one above it. */
  function Scanlines(rows: seq<seq<byte>>, filters: seq<byte>, stride: nat, bpp: nat): (r: seq<byte>)
    requires bpp > 0 && |filters| == |rows| && forall y :: 0 <= y < |rows| ==> |rows[y]| == stride
    ensures rows != [] ==> |r| == LineEnd(stride, |rows| - 1)
  {
    if rows == [] then []
    else
      var y := |rows| - 1;
      Scanlines(rows[..y], filters[..y], stride, bpp) + [filters[y]]
      + FilterRow(filters[y], rows[y], if y == 0 then Zeros(stride) else rows[y - 1], bpp)
  }

  /** Decoding the scanlines of an image, whatever filter each row uses and whatever follows
      them, gives the image back and nothing else. */
  lemma {:induction false} ScanlinesDecode(
      rows: seq<seq<byte>>, filters: seq<byte>, stride: nat, bpp: nat, data: seq<byte>, image: seq<seq<byte>>)
    requires bpp > 0 && |filters| == |rows| && forall y :: 0 <= y < |rows| ==> |rows[y]| == stride
    requires Scanlines(rows, filters, stride, bpp) <= data && |image| == |rows| && ImageOf(data, stride, bpp, image)
    ensures image == rows
  {
    hide Restored, FilterRow, RowOf;
    if rows != [] {
      var y := |rows| - 1;
      forall k | 0 <= k < y ensures RowOf(data, stride, bpp, image[..y], k) {
        SameRow(data, stride, bpp, image, y, k);
      }
      ScanlinesDecode(rows[..y], filters[..y], stride, bpp, data, image[..y]);
      assert image == image[..y] + [image[y]] && rows == rows[..y] + [rows[y]];
      LastLine(rows, filters, stride, bpp, data, image);
    }
  }

  lemma SameRow(data: seq<byte>, stride: nat, bpp: nat, image: seq<seq<byte>>, n: nat, y: nat)
    requires y < n <= |image| && RowOf(data, stride, bpp, image, y)
    ensures RowOf(data, stride, bpp, image[..n], y)
  {
    hide Restored;
  }

  lemma LastLine(
      rows: seq<seq<byte>>, filters: seq<byte>, stride: nat, bpp: nat, data: seq<byte>, image: seq<seq<byte>>)
    requires bpp > 0 && |filters| == |rows| > 0 && forall y :: 0 <= y < |rows| ==> |rows[y]| == stride
    requires Scanlines(rows, filters, stride, bpp) <= data && |image| == |rows|
    requires RowOf(data, stride, bpp, image, |rows| - 1) && image[..|rows| - 1] == rows[..|rows| - 1]
    ensures image[|rows| - 1] == rows[|rows| - 1]
  {
    hide Restored, FilterRow;
    var y := |rows| - 1;
    var end := LineEnd(stride, y);
    var prev := if y == 0 then Zeros(stride) else rows[y - 1];
    var raw := FilterRow(filters[y], rows[y], prev, bpp);
    var front := Scanlines(rows[..y], filters[..y], stride, bpp);
    assert front + [filters[y]] + raw <= data && |front| == end - stride - 1;
    assert data[end - stride - 1] == filters[y];
    assert data[end - stride..end] == raw;
    assert y > 0 ==> image[..y][y - 1] == image[y - 1] && rows[..y][y - 1] == rows[y - 1];
    RestoredIffFiltered(filters[y], raw, prev, bpp, rows[y]);
    assert |image[y]| == stride by { RestoredSize(filters[y], raw, prev, bpp, image[y]); }
    RestoredOnce(filters[y], raw, prev, bpp, image[y], rows[y], stride);
    assert image[y][..stride] == image[y] && rows[y][..stride] == rows[y];
  }

  lemma RestoredSize(filter: byte, raw: seq<byte>, prev: seq<byte>, bpp: nat, row: seq<byte>)
    requires Restored(filter, raw, prev, bpp, row)
    ensures |row| == |raw|
  {
  }
}
