/** The imperative DEFLATE decoder of src/image.c, proved against the format. */
module Inflate {
  import opened Bits
  import opened Huffman
  import opened Deflate
  import LittleEndian
  import opened InflateScan
  import opened BitReader
  import opened HuffmanTree

  ghost predicate TreeFor(t: Tree, lens: seq<nat>)
    reads t, t.ch
  {
    t.Valid() && Codable(lens) && t.codes == Codes(lens)
  }

  /** The output buffer holds the history, cut at omax bytes. */
  ghost predicate Clipped(out: array<byte>, opos: nat, hist: seq<byte>, omax: nat)
    reads out
  {
    omax <= out.Length && opos == Min(|hist|, omax) && out[..opos] == hist[..opos]
  }

  /** ht_decode on a canonical tree. */
  method DecodeSym(t: Tree, b: Reader, ghost lens: seq<nat>) returns (r: int)
    requires TreeFor(t, lens) && b.Valid()
    modifies b
    ensures b.Valid()
    ensures match DecodeSymbol(Codes(lens), b.src, old(b.Pos()))
            case Sym(s, size) => r == s && b.Pos() == old(b.Pos()) + size
            case NoSym => r == -1
  {
    CodesPrefixFree(lens, |lens|);
    r := t.Decode(b);
  }

  /** The byte-by-byte copy loop; it may read bytes it has just written, and looks at the
      distance only while the output has room. */
  method CopyMatch(out: array<byte>, start: nat, omax: nat, length: nat, distance: nat, ghost hist: seq<byte>)
    returns (opos: nat)
    requires Clipped(out, start, hist, omax) && (|hist| < omax ==> 0 < distance <= |hist|)
    modifies out
    ensures |hist| < omax ==> Clipped(out, opos, Copy(hist, distance, length), omax)
    ensures |hist| >= omax ==> Clipped(out, opos, hist, omax)
    ensures forall k :: opos <= k < out.Length ==> out[k] == old(out[k])
  {
    ghost var h := hist;
    opos := start;
    var i := 0;
    while i < length && opos < omax
      invariant 0 <= i <= length && Clipped(out, opos, h, omax)
      invariant |hist| >= omax ==> h == hist
      invariant |hist| < omax ==> distance <= |h| && Copy(h, distance, length - i) == Copy(hist, distance, length)
      invariant forall k :: opos <= k < out.Length ==> out[k] == old(out[k])
    {
      out[opos] := out[opos - distance];
      h := h + [h[|h| - distance]];
      opos := opos + 1;
      i := i + 1;
    }
    if |hist| < omax { CopyExtends(h, distance, length - i); }
  }

  /** `if (opos < omax) out[opos++] = v` */
  method PutByte(out: array<byte>, start: nat, omax: nat, v: byte, ghost hist: seq<byte>) returns (opos: nat)
    requires Clipped(out, start, hist, omax)
    modifies out
    ensures Clipped(out, opos, hist + [v], omax)
    ensures forall k :: opos <= k < out.Length ==> out[k] == old(out[k])
  {
    opos := start;
    if opos < omax {
      out[opos] := v;
      opos := opos + 1;
    }
  }

  /** The extra length bits, the distance symbol and the extra distance bits. */
  method ReadMatch(b: Reader, dt: Tree, sym: nat, ghost dist: seq<nat>, ghost have: nat, ghost omax: nat)
    returns (ok: bool, length: nat, distance: nat)
    requires b.Valid() && TreeFor(dt, dist) && 257 <= sym <= 285
    modifies b
    ensures b.Valid()
    ensures var p := old(b.Pos());
            var x := LEN_EXTRA[sym - 257];
            match ScanDistance(b.src, p + x, Codes(dist), sym - 257, Field(b.src, p, x), have, omax)
            case Malformed => !ok
            case Undefined => true
            case Ok(it, q) => ok && length == it.t.Length() && distance == it.t.Distance() && b.Pos() == q
  {
    hide DecodeSymbol, Codes, Window, Value, Pow2, ValidLens, Kraft, Tree.Valid, ScanDistance, Token.Length,
      Token.Distance, Token.WellFormed;
    ghost var p: nat, x := b.Pos(), LEN_EXTRA[sym - 257];
    DistanceScanned(b.src, p + x, Codes(dist), sym - 257, Field(b.src, p, x), have, omax);
    length := ReadLength(b, sym - 257);
    ok, distance := ReadDistance(b, dt, dist);
  }

  method ReadLength(b: Reader, li: nat) returns (length: nat)
    requires b.Valid() && li < 29
    modifies b
    ensures b.Valid() && b.Pos() == old(b.Pos()) + LEN_EXTRA[li]
    ensures length == LEN_BASE[li] + Field(b.src, old(b.Pos()), LEN_EXTRA[li])
  {
    hide Window, Value, Pow2, Reader.Valid;
    LengthExtra(li);
    var lx := b.Read(LEN_EXTRA[li]);
    length := LEN_BASE[li] + lx;
  }

  method ReadDistance(b: Reader, dt: Tree, ghost dist: seq<nat>) returns (ok: bool, distance: nat)
    requires b.Valid() && TreeFor(dt, dist)
    modifies b
    ensures b.Valid()
    ensures var p := old(b.Pos());
            var d := DecodeSymbol(Codes(dist), b.src, p);
            && (ok <==> d.Sym? && d.sym <= 29)
            && (ok ==> && distance == DIST_BASE[d.sym] + Field(b.src, p + d.size, DIST_EXTRA[d.sym])
                       && b.Pos() == p + d.size + DIST_EXTRA[d.sym])
  {
    hide DecodeSymbol, Codes, Window, Value, Pow2, ValidLens, Kraft, Tree.Valid;
    var di := DecodeSym(dt, b, dist);
    if di < 0 || di > 29 { return false, 0; }
    DistanceExtra(di);
    var dx := b.Read(DIST_EXTRA[di]);
    return true, DIST_BASE[di] + dx;
  }

  lemma LengthExtra(i: nat)
    requires i < 29
    ensures LEN_EXTRA[i] <= 5
  {
  }

  lemma DistanceExtra(i: nat)
    requires i < 30
    ensures DIST_EXTRA[i] <= 13
  {
  }

  /** A distance in terms of its symbol and extra bits. */
  lemma DistanceScanned(src: seq<byte>, q: nat, codes: map<seq<bit>, nat>, li: nat, lx: nat, have: nat, omax: nat)
    requires li < 29 && lx < Pow2(LEN_EXTRA[li])
    ensures var d := DecodeSymbol(codes, src, q);
            match ScanDistance(src, q, codes, li, lx, have, omax)
            case Malformed => d.NoSym? || d.sym > 29
            case Undefined => true
            case Ok(it, next) =>
              && d.Sym? && d.sym <= 29 && next == q + d.size + DIST_EXTRA[d.sym] && it.t.Length() == LEN_BASE[li] + lx
              && it.t.Distance() == DIST_BASE[d.sym] + Field(src, q + d.size, DIST_EXTRA[d.sym])
  {
    hide DecodeSymbol, Window, Value, Pow2;
  }

  /** What is left to decode leads to the same outcome as the whole block. */
  ghost predicate SameOutcome(
      now: Parsed<seq<Token>>, hist: seq<byte>, all: Parsed<seq<Token>>, hist0: seq<byte>, omax: nat) {
    && (all.Malformed? <==> now.Malformed?) && (all.Undefined? <==> now.Undefined?)
    && (all.Ok? ==>
          && now.next == all.next && TokensFit(|hist|, now.value, omax) && TokensFit(|hist0|, all.value, omax)
          && DeliverTokens(hist, now.value, omax) == DeliverTokens(hist0, all.value, omax))
  }

  lemma OutcomeInit(
      src: seq<byte>, p: nat, lit: map<seq<bit>, nat>, dist: map<seq<bit>, nat>, hist: seq<byte>, omax: nat)
    ensures var all := ScanTokens(src, p, lit, dist, |hist|, omax);
            SameOutcome(all, hist, all, hist, omax) && (all.Ok? ==> TokensFit(|hist|, all.value, omax))
  {
    if ScanTokens(src, p, lit, dist, |hist|, omax).Ok? { ScannedTokensFit(src, p, lit, dist, |hist|, omax); }
  }

  lemma OutcomeStep(
      src: seq<byte>, p: nat, lit: map<seq<bit>, nat>, dist: map<seq<bit>, nat>, hist: seq<byte>,
      all: Parsed<seq<Token>>, hist0: seq<byte>, omax: nat)
    requires SameOutcome(ScanTokens(src, p, lit, dist, |hist|, omax), hist, all, hist0, omax) && !all.Undefined?
    ensures match ScanItem(src, p, lit, dist, |hist|, omax)
            case Malformed => all.Malformed?
            case Undefined => false
            case Ok(End, q) => all.Ok? && all.next == q && DeliverTokens(hist0, all.value, omax) == hist
            case Ok(Tok(t), q) =>
              var h := Deliver(hist, t, omax);
              && p < q && p < 8 * |src|
              && SameOutcome(ScanTokens(src, q, lit, dist, |h|, omax), h, all, hist0, omax)
  {
    hide ScanItem, Deliver, TokenFits;
    var item := ScanItem(src, p, lit, dist, |hist|, omax);
    if item.Ok? && item.value.Tok? {
      var t, q := item.value.t, item.next;
      var rest := ScanTokens(src, q, lit, dist, |hist| + t.Size(), omax);
      if rest.Ok? { assert Prepend(t, rest).value[1..] == rest.value; }
    }
  }

  datatype Progress = More | Done | Bad

  /** One turn of the decoding loop: decode a symbol and act on it. */
  method DecodeItem(b: Reader, lt: Tree, dt: Tree, out: array<byte>, start: nat, omax: nat,
                    ghost lit: seq<nat>, ghost dist: seq<nat>, ghost hist: seq<byte>)
    returns (st: Progress, opos: nat)
    requires b.Valid() && TreeFor(lt, lit) && TreeFor(dt, dist)
    requires Clipped(out, start, hist, omax)
    requires !ScanItem(b.src, b.Pos(), Codes(lit), Codes(dist), |hist|, omax).Undefined?
    modifies b, out
    ensures b.Valid()
    ensures forall k :: opos <= k < out.Length ==> out[k] == old(out[k])
    ensures match ScanItem(b.src, old(b.Pos()), Codes(lit), Codes(dist), |hist|, omax)
            case Malformed => st == Bad
            case Undefined => true
            case Ok(End, q) => st == Done && b.Pos() == q && Clipped(out, opos, hist, omax)
            case Ok(Tok(t), q) => st == More && b.Pos() == q && Clipped(out, opos, Deliver(hist, t, omax), omax)
  {
    hide DecodeSymbol, Codes, Window, Value, Pow2, ValidLens, Kraft, Tree.Valid, ScanDistance, Copy, Token.Distance,
      Token.Length, Token.WellFormed, Clipped, Reader.Valid, TokenFits;
    ghost var item := ScanItem(b.src, b.Pos(), Codes(lit), Codes(dist), |hist|, omax);
    opos := start;
    var sym := DecodeSym(lt, b, lit);
    if sym < 0 || sym > 285 { return Bad, opos; }
    if sym < 256 {
      opos := PutByte(out, opos, omax, sym, hist);
      return More, opos;
    } else if sym == 256 {
      return Done, opos;
    } else {
      var ok, length, distance := ReadMatch(b, dt, sym, dist, |hist|, omax);
      if !ok { return Bad, opos; }
      opos := CopyToken(out, opos, omax, length, distance, hist, item.value.t);
      return More, opos;
    }
  }

  /** The copy loop as what the token delivers. */
  method CopyToken(out: array<byte>, start: nat, omax: nat, length: nat, distance: nat, ghost hist: seq<byte>,
                   ghost t: Token)
    returns (opos: nat)
    requires Clipped(out, start, hist, omax) && t.Match? && TokenFits(t, |hist|, omax)
    requires length == t.Length() && distance == t.Distance()
    modifies out
    ensures Clipped(out, opos, Deliver(hist, t, omax), omax)
    ensures forall k :: opos <= k < out.Length ==> out[k] == old(out[k])
  {
    hide Clipped, Copy, Token.Length, Token.Distance, Token.WellFormed;
    opos := CopyMatch(out, start, omax, length, distance, hist);
    if |hist| >= omax { FullClipped(out, opos, hist, LittleEndian.Zeros(length), omax); }
  }

  lemma FullClipped(out: array<byte>, opos: nat, hist: seq<byte>, more: seq<byte>, omax: nat)
    requires |hist| >= omax
    ensures Clipped(out, opos, hist, omax) ==> Clipped(out, opos, hist + more, omax)
  {
    assert (hist + more)[..omax] == hist[..omax];
  }

  /** decode_block: symbols until end of block. */
  method DecodeBlock(b: Reader, lt: Tree, dt: Tree, out: array<byte>, start: nat, omax: nat,
                     ghost lit: seq<nat>, ghost dist: seq<nat>, ghost hist0: seq<byte>) returns (r: int)
    requires b.Valid() && TreeFor(lt, lit) && TreeFor(dt, dist)
    requires lt.ch as object != out && dt.ch as object != out
    requires Clipped(out, start, hist0, omax)
    requires !ScanTokens(b.src, b.Pos(), Codes(lit), Codes(dist), |hist0|, omax).Undefined?
    modifies b, out
    ensures b.Valid()
    ensures match ScanTokens(b.src, old(b.Pos()), Codes(lit), Codes(dist), |hist0|, omax)
            case Malformed => r == -1
            case Undefined => true
            case Ok(toks, q) =>
              && b.Pos() == q && r >= 0 && TokensFit(|hist0|, toks, omax)
              && Clipped(out, r, DeliverTokens(hist0, toks, omax), omax)
              && forall k :: r <= k < out.Length ==> out[k] == old(out[k])
  {
    hide DecodeSymbol, Codes, Window, Value, Kraft, ValidLens, Tree.Valid, SameOutcome, ScanItem, ScanTokens,
      DeliverTokens, TokensFit;
    ghost var all := ScanTokens(b.src, b.Pos(), Codes(lit), Codes(dist), |hist0|, omax);
    ghost var hist: seq<byte> := hist0;
    OutcomeInit(b.src, b.Pos(), Codes(lit), Codes(dist), hist0, omax);
    var opos: nat := start;
    while true
      invariant b.Valid() && TreeFor(lt, lit) && TreeFor(dt, dist) && Clipped(out, opos, hist, omax)
      invariant SameOutcome(ScanTokens(b.src, b.Pos(), Codes(lit), Codes(dist), |hist|, omax), hist, all, hist0, omax)
      invariant forall k :: opos <= k < out.Length ==> out[k] == old(out[k])
      decreases Left(b.src, b.Pos())
    {
      ghost var item := ScanItem(b.src, b.Pos(), Codes(lit), Codes(dist), |hist|, omax);
      OutcomeStep(b.src, b.Pos(), Codes(lit), Codes(dist), hist, all, hist0, omax);
      var st;
      st, opos := DecodeItem(b, lt, dt, out, opos, omax, lit, dist, hist);
      if st == Bad { return -1; }
      if st == Done { return opos; }
      hist := Deliver(hist, item.value.t, omax);
    }
  }

  // ---- stored blocks --------------------------------------------------------------

  /** `lo | (hi << 8)` */
  function Join(lo: nat, hi: nat): nat { BitOr(lo, hi * 256) }

  /** A little-endian 16-bit field at a byte boundary. */
  lemma TwoBytes(src: seq<byte>, k: nat)
    requires k + 2 <= |src|
    ensures Field(src, 8 * k, 16) == Join(src[k], src[k + 1])
  {
    WindowSplit(src, 8 * k, 8, 8);
    ValueConcat(Window(src, 8 * k, 8), Window(src, 8 * k + 8, 8));
    ByteWindow(src, k);
    ByteWindow(src, k + 1);
    assert Pow2(8) == 256;
    OrDisjoint(src[k], src[k + 1], 8);
  }

  /** The stored-block branch: align, read the length, skip its complement, copy.
      When the output is full the rest of the block is not skipped, so the reader
      stands behind the block exactly when the block fits or is empty. */
  method StoredBlock(b: Reader, out: array<byte>, start: nat, omax: nat, ghost hist: seq<byte>) returns (r: int)
    requires b.Valid() && Clipped(out, start, hist, omax)
    modifies b, out
    ensures b.Valid()
    ensures Reported(ScanStored(b.src, old(b.Pos()), Room(|hist|, omax)), r, b.Pos(), out, hist, omax)
    ensures match ParseStored(b.src, old(b.Pos()))
            case Malformed => r == -1
            case Undefined => true
            case Ok(s, q) =>
              && r >= 0 && Clipped(out, r, hist + s.data, omax)
              && (b.Pos() == q <==> |hist| + |s.data| <= omax || s.data == [])
    ensures forall k :: 0 <= r <= k < out.Length ==> out[k] == old(out[k])
  {
    hide ScanStored, ParseStored;
    StoredCut(b.src, b.Pos(), hist, omax);
    r := StoredBytes(b, out, start, omax, hist);
  }

  /** The same branch against what the decoder reads. */
  method StoredBytes(b: Reader, out: array<byte>, start: nat, omax: nat, ghost hist: seq<byte>) returns (r: int)
    requires b.Valid() && Clipped(out, start, hist, omax)
    modifies b, out
    ensures b.Valid()
    ensures Reported(ScanStored(b.src, old(b.Pos()), Room(|hist|, omax)), r, b.Pos(), out, hist, omax)
    ensures forall k :: 0 <= r <= k < out.Length ==> out[k] == old(out[k])
  {
    hide Window, Value, Join;
    ghost var p := b.Pos();
    b.Align();
    assert Align(p) / 8 == b.pos + b.pad;
    if b.pos + 4 > |b.src| { return -1; }
    TwoBytes(b.src, b.pos);
    var len := Join(b.src[b.pos], b.src[b.pos + 1]);
    b.pos := b.pos + 4;
    r := CopyStored(b, out, start, omax, len, hist);
  }

  /** Copies len bytes, or as many as fit; behind the end of the stream zeros. */
  method CopyStored(b: Reader, out: array<byte>, start: nat, omax: nat, len: nat, ghost hist: seq<byte>)
    returns (opos: nat)
    requires b.Valid() && b.cnt == 0 && b.pad == 0 && Clipped(out, start, hist, omax)
    modifies b, out
    ensures b.Valid() && b.cnt == 0 && b.pad == 0
    ensures opos == start + Min(len, Room(|hist|, omax))
    ensures Clipped(out, opos, hist + Bytes(b.src, old(b.pos), opos - start), omax)
    ensures b.pos == Min(old(b.pos) + (opos - start), |b.src|)
    ensures forall k :: opos <= k < out.Length ==> out[k] == old(out[k])
  {
    ghost var first := b.pos;
    ghost var data := Bytes(b.src, first, Min(len, Room(|hist|, omax)));
    opos := start;
    var i := 0;
    while i < len && opos < omax
      invariant 0 <= i <= |data| && opos == start + i
      invariant b.Valid() && b.cnt == 0 && b.pad == 0 && b.pos == Min(first + i, |b.src|)
      invariant Clipped(out, opos, hist + data[..i], omax)
      invariant forall k :: opos <= k < out.Length ==> out[k] == old(out[k])
    {
      if b.pos < |b.src| {
        out[opos] := b.src[b.pos];
        b.pos := b.pos + 1;
      } else {
        out[opos] := 0;
      }
      opos := opos + 1;
      assert data[..i + 1] == data[..i] + [data[i]];
      i := i + 1;
    }
    assert data[..i] == data;
  }

  // ---- dynamic headers ------------------------------------------------------------

  /** `for (i < rep && ai < total) all_lens[ai++] = v` */
  method Repeat(acc: seq<nat>, v: nat, rep: nat, total: nat) returns (r: seq<nat>)
    requires |acc| <= total
    ensures r == acc + Rep(v, Min(rep, total - |acc|))
  {
    r := acc;
    var i := 0;
    while i < rep && |r| < total
      invariant 0 <= i <= rep && r == acc + Rep(v, i) && |r| <= total
    {
      r := r + [v];
      assert Rep(v, i + 1) == Rep(v, i) + [v];
      i := i + 1;
    }
  }

  ghost predicate SameLens(now: Parsed<seq<LenOp>>, acc: seq<nat>, all: Parsed<seq<LenOp>>, total: nat) {
    && |acc| <= total
    && (all.Malformed? <==> now.Malformed?) && (all.Undefined? <==> now.Undefined?)
    && (all.Ok? ==>
          && now.next == all.next && OpsFill(now.value, total, acc) && OpsFill(all.value, total, [])
          && OpsLens(now.value, total, acc) == OpsLens(all.value, total, []))
  }

  lemma LensInit(src: seq<byte>, p: nat, cl: map<seq<bit>, nat>, total: nat)
    ensures var all := ScanOps(src, p, cl, total, []); SameLens(all, [], all, total)
  {
    if ScanOps(src, p, cl, total, []).Ok? { ScanOpsFill(src, p, cl, total, []); }
  }

  lemma LensStep(src: seq<byte>, p: nat, cl: map<seq<bit>, nat>, total: nat, acc: seq<nat>, all: Parsed<seq<LenOp>>)
    requires |acc| < total && SameLens(ScanOps(src, p, cl, total, acc), acc, all, total)
    ensures match DecodeSymbol(cl, src, p)
            case NoSym => all.Malformed?
            case Sym(s, n) =>
              var op := OpOf(s, Field(src, p + n, OpBits(s)));
              var q := p + n + OpBits(s);
              SameLens(ScanOps(src, q, cl, total, op.Apply(acc, total)), op.Apply(acc, total), all, total)
  {
    hide DecodeSymbol, Field, LenOp.Apply, OpOf, OpBits;
    var d := DecodeSymbol(cl, src, p);
    if d.Sym? {
      var op := OpOf(d.sym, Field(src, p + d.size, OpBits(d.sym)));
      var rest := ScanOps(src, p + d.size + OpBits(d.sym), cl, total, op.Apply(acc, total));
      if rest.Ok? { assert Prepend(op, rest).value[1..] == rest.value; }
    }
  }

  /** One code-length symbol: a length, or a run described by extra bits. */
  method ReadOp(b: Reader, s: nat, acc: seq<nat>, total: nat) returns (r: seq<nat>)
    requires b.Valid() && |acc| < total && s < 19
    modifies b
    ensures b.Valid() && b.Pos() == old(b.Pos()) + OpBits(s)
    ensures r == OpOf(s, Field(b.src, old(b.Pos()), OpBits(s))).Apply(acc, total)
  {
    hide Window, Value;
    if s < 16 {
      r := acc + [s];
    } else if s == 16 {
      var x := b.Read(2);
      var prev := if |acc| > 0 then acc[|acc| - 1] else 0;
      r := Repeat(acc, prev, x + 3, total);
    } else if s == 17 {
      var x := b.Read(3);
      r := Repeat(acc, 0, x + 3, total);
    } else {
      var x := b.Read(7);
      r := Repeat(acc, 0, x + 11, total);
    }
  }

  /** The loop that fills all_lens. */
  method ReadLens(b: Reader, t: Tree, total: nat, ghost cl: seq<nat>) returns (ok: bool, lens: seq<nat>)
    requires b.Valid() && TreeFor(t, cl) && |cl| == 19
    requires !ScanOps(b.src, b.Pos(), Codes(cl), total, []).Undefined?
    modifies b
    ensures b.Valid()
    ensures match ScanOps(b.src, old(b.Pos()), Codes(cl), total, [])
            case Malformed => !ok
            case Undefined => true
            case Ok(ops, q) => ok && b.Pos() == q && OpsFill(ops, total, []) && lens == OpsLens(ops, total, [])
  {
    hide DecodeSymbol, Codes, Window, Value, ValidLens, Kraft, Tree.Valid, SameLens, OpOf, OpBits, LenOp.Apply, Field;
    ghost var all := ScanOps(b.src, b.Pos(), Codes(cl), total, []);
    LensInit(b.src, b.Pos(), Codes(cl), total);
    lens := [];
    while |lens| < total
      invariant |lens| <= total && b.Valid() && TreeFor(t, cl)
      invariant SameLens(ScanOps(b.src, b.Pos(), Codes(cl), total, lens), lens, all, total)
      decreases total - |lens|
    {
      LensStep(b.src, b.Pos(), Codes(cl), total, lens, all);
      SymbolBelow(cl, b.src, b.Pos());
      var s := DecodeSym(t, b, cl);
      if s < 0 { return false, lens; }
      lens := ReadOp(b, s, lens, total);
    }
    LensDone(b.src, b.Pos(), Codes(cl), total, lens, all);
    ok := true;
  }

  lemma LensDone(src: seq<byte>, p: nat, cl: map<seq<bit>, nat>, total: nat, lens: seq<nat>, all: Parsed<seq<LenOp>>)
    requires |lens| == total && SameLens(ScanOps(src, p, cl, total, lens), lens, all, total)
    ensures all.Ok? && all.next == p && OpsFill(all.value, total, []) && lens == OpsLens(all.value, total, [])
  {
  }

  lemma SymbolBelow(lens: seq<nat>, src: seq<byte>, p: nat)
    requires Codable(lens)
    ensures var d := DecodeSymbol(Codes(lens), src, p); d.Sym? ==> d.sym < |lens|
  {
    FindCodeSound(Codes(lens), src, p, 1);
    var d := DecodeSymbol(Codes(lens), src, p);
    if d.Sym? { CodesSound(lens, |lens|, Window(src, p, d.size)); }
  }

  /** The 3-bit code-length code lengths, stored in their permuted places. */
  method ReadClLens(b: Reader, hclen: nat, ghost p: nat) returns (cl: seq<nat>)
    requires b.Valid() && b.Pos() == p && hclen <= 19
    modifies b
    ensures b.Valid() && b.Pos() == p + 3 * hclen
    ensures cl == ClLens(ParseFields(b.src, p, 3, hclen))
  {
    hide Window, Value, Pow2, Field, ParseFields, ClLens, ClPlace, Reader.Valid;
    cl := Rep(0, 19);
    NoClLens(b.src, p);
    var i := 0;
    while i < hclen
      invariant 0 <= i <= hclen && b.Valid() && b.Pos() == p + 3 * i
      invariant cl == ClLens(ParseFields(b.src, p, 3, i))
    {
      ClLensStep(b.src, p, i);
      var v := b.Read(3);
      cl := cl[ClPlace(i) := v];
      i := i + 1;
    }
  }

  lemma NoClLens(src: seq<byte>, p: nat)
    ensures ClLens(ParseFields(src, p, 3, 0)) == Rep(0, 19)
  {
  }

  lemma ClLensStep(src: seq<byte>, p: nat, i: nat)
    requires i < 19
    ensures ClLens(ParseFields(src, p, 3, i + 1))
         == ClLens(ParseFields(src, p, 3, i))[ClPlace(i) := Value(Window(src, p + 3 * i, 3))]
  {
    hide ClPlace;
    var raw := ParseFields(src, p, 3, i);
    assert (raw + [Field(src, p + 3 * i, 3)])[..i] == raw;
  }

  /** The three alphabet sizes. */
  method ReadSizes(b: Reader) returns (hlit: nat, hdist: nat, hclen: nat)
    requires b.Valid()
    modifies b
    ensures b.Valid() && b.Pos() == old(b.Pos()) + 14
    ensures var p := old(b.Pos());
            hlit == Field(b.src, p, 5) + 257 && hdist == Field(b.src, p + 5, 5) + 1
              && hclen == Field(b.src, p + 10, 4) + 4
    ensures hlit <= 288 && hdist <= 32 && hclen <= 19
  {
    PowersForTrees();
    hlit := b.Read(5);
    hlit := hlit + 257;
    hdist := b.Read(5);
    hdist := hdist + 1;
    hclen := b.Read(4);
    hclen := hclen + 4;
  }

  ghost predicate TreesAre(h: Trees, lit: seq<nat>, dist: seq<nat>) {
    TreesCodable(h) && lit == LitLens(h) && dist == DistLens(h) && |lit| <= 288 && |dist| <= 32
  }

  /** The header of a dynamic block, up to and including both length lists. */
  method ReadTrees(b: Reader) returns (ok: bool, lit: seq<nat>, dist: seq<nat>)
    requires b.Valid() && !ScanTrees(b.src, b.Pos()).Undefined?
    modifies b
    ensures b.Valid()
    ensures match ScanTrees(b.src, old(b.Pos()))
            case Malformed => !ok
            case Undefined => true
            case Ok(h, q) => ok && b.Pos() == q && TreesAre(h, lit, dist)
  {
    hide Window, Value, Field, Codes, Kraft, ScanOps, ClLens, OpsFill, OpsLens, ValidLens, Tree.Valid, ParseFields;
    PowersForTrees();
    ghost var p := b.Pos();
    var hlit, hdist, hclen := ReadSizes(b);
    var cl := ReadClLens(b, hclen, p + 14);
    ghost var raw := ParseFields(b.src, p + 14, 3, hclen);
    ClLensValid(raw);
    var t := new Tree();
    t.Build(cl);
    var lens;
    ok, lens := ReadLens(b, t, hlit + hdist, cl);
    if !ok { return false, [], []; }
    LensSplit(ScanOps(b.src, p + 14 + 3 * hclen, Codes(cl), hlit + hdist, []).value, hlit + hdist);
    lit, dist := lens[..hlit], lens[hlit..];
  }

  lemma PowersForTrees()
    ensures Pow2(3) == 8 && Pow2(4) == 16 && Pow2(5) == 32
  {
  }

  lemma LensSplit(ops: seq<LenOp>, total: nat)
    requires OpsFill(ops, total, [])
    ensures |OpsLens(ops, total, [])| == total
  {
  }

  // ---- the decompressor -----------------------------------------------------------

  ghost predicate SameStream(now: Parsed<seq<Block>>, hist: seq<byte>, all: Parsed<seq<Block>>, omax: nat) {
    && (all.Malformed? <==> now.Malformed?) && (all.Undefined? <==> now.Undefined?)
    && (all.Ok? ==>
          && now.next == all.next && StreamFits(now.value, |hist|, omax) && StreamFits(all.value, 0, omax)
          && DeliverStream(hist, now.value, omax) == DeliverStream([], all.value, omax))
  }

  lemma StreamInit(src: seq<byte>, omax: nat)
    ensures var all := ScanStream(src, 0, 0, omax); SameStream(all, [], all, omax)
  {
    if ScanStream(src, 0, 0, omax).Ok? { ScannedStreamFits(src, 0, 0, omax); }
  }

  /** After a block that was read as b up to q: the stream is finished, or the rest leads
      to the same outcome. */
  ghost predicate GoesOn(src: seq<byte>, p: nat, hist: seq<byte>, b: Block, q: nat, all: Parsed<seq<Block>>,
                         omax: nat) {
    && BlockFits(b, |hist|, omax) && p < q && p < 8 * |src|
    && var h := DeliverBlock(hist, b, omax);
       if BitAt(src, p) == 1 then all.Ok? && all.next == q && StreamFits(all.value, 0, omax)
                                  && DeliverStream([], all.value, omax) == h
       else SameStream(ScanStream(src, q, |h|, omax), h, all, omax)
  }

  lemma StreamStep(src: seq<byte>, p: nat, hist: seq<byte>, all: Parsed<seq<Block>>, omax: nat)
    requires SameStream(ScanStream(src, p, |hist|, omax), hist, all, omax) && !all.Undefined?
    ensures match ScanBlock(src, Field(src, p + 1, 2), p + 3, |hist|, omax)
            case Malformed => all.Malformed?
            case Undefined => false
            case Ok(b, q) => GoesOn(src, p, hist, b, q, all, omax)
  {
    hide ScanBlock, Field, BitAt, BlockFits, SizeOfBlock, DeliverBlock;
    var t := Field(src, p + 1, 2);
    var r := ScanBlock(src, t, p + 3, |hist|, omax);
    if r.Ok? {
      ScanAdvances(src, p, |hist|, omax);
      ScannedBlockFits(src, t, p + 3, |hist|, omax);
      if BitAt(src, p) == 1 {
        var h := DeliverBlock(hist, r.value, omax);
        assert [r.value][1..] == [] && DeliverStream(h, [], omax) == h;
      } else {
        var rest := ScanStream(src, r.next, |hist| + SizeOfBlock(r.value), omax);
        if rest.Ok? { assert Prepend(r.value, rest).value[1..] == rest.value; }
      }
    }
  }

  /** How a block method reports the parse p of its block. */
  ghost predicate Reported(p: Parsed<Block>, r: int, pos: int, out: array<byte>, hist: seq<byte>, omax: nat)
    reads out
  {
    match p
    case Malformed => r == -1
    case Undefined => true
    case Ok(s, q) =>
      r >= 0 && BlockFits(s, |hist|, omax) && Clipped(out, r, DeliverBlock(hist, s, omax), omax) && pos == q
  }

  /** The code lengths of the fixed trees, symbol by symbol. */
  ghost predicate FixedLens(lit: seq<nat>, dist: seq<nat>) {
    && |lit| == 288 && (forall i :: 0 <= i < 288 ==> lit[i] == FixedLen(i))
    && |dist| == 32 && (forall i :: 0 <= i < 32 ==> dist[i] == 5)
  }

  lemma FixedScan(src: seq<byte>, p: nat, have: nat, omax: nat, lit: seq<nat>, dist: seq<nat>)
    requires FixedLens(lit, dist)
    ensures Codable(lit) && Codable(dist)
    ensures ScanFixed(src, p, have, omax) == AsFixed(ScanTokens(src, p, Codes(lit), Codes(dist), have, omax))
  {
    assert lit == FixedLit() && dist == FixedDist();
    hide Codes, ScanTokens, FixedLit, FixedDist, Kraft;
    FixedCodable();
  }

  lemma TheFixedLens()
    ensures FixedLens(FixedLit(), FixedDist())
  {
  }

  ghost predicate FixedTrees(lt: Tree, dt: Tree, lit: seq<nat>, dist: seq<nat>)
    reads lt, lt.ch, dt, dt.ch
  {
    FixedLens(lit, dist) && TreeFor(lt, lit) && TreeFor(dt, dist)
  }

  method FixedBlock(b: Reader, lt: Tree, dt: Tree, out: array<byte>, start: nat, omax: nat,
                    ghost hist: seq<byte>, ghost lit: seq<nat>, ghost dist: seq<nat>) returns (r: int)
    requires b.Valid() && Clipped(out, start, hist, omax)
    requires lt.ch as object != out && dt.ch as object != out
    requires FixedTrees(lt, dt, lit, dist)
    requires !ScanTokens(b.src, b.Pos(), Codes(lit), Codes(dist), |hist|, omax).Undefined?
    modifies b, out
    ensures b.Valid()
    ensures Reported(AsFixed(ScanTokens(b.src, old(b.Pos()), Codes(lit), Codes(dist), |hist|, omax)), r, b.Pos(), out,
                     hist, omax)
    ensures forall k :: 0 <= r <= k < out.Length ==> out[k] == old(out[k])
  {
    hide ScanTokens, Codes, Kraft, FixedLens, Tree.Valid, DeliverTokens, TokensFit, ValidLens;
    r := DecodeBlock(b, lt, dt, out, start, omax, lit, dist, hist);
  }

  /** One block after its header bits. */
  method BlockBody(b: Reader, t: nat, lt: Tree, dt: Tree, out: array<byte>, start: nat, omax: nat,
                   ghost hist: seq<byte>, ghost lit: seq<nat>, ghost dist: seq<nat>) returns (r: int)
    requires b.Valid() && Clipped(out, start, hist, omax)
    requires lt.ch as object != out && dt.ch as object != out
    requires !ScanBlock(b.src, t, b.Pos(), |hist|, omax).Undefined?
    requires FixedTrees(lt, dt, lit, dist)
    modifies b, out
    ensures b.Valid()
    ensures Reported(ScanBlock(b.src, t, old(b.Pos()), |hist|, omax), r, b.Pos(), out, hist, omax)
    ensures forall k :: 0 <= r <= k < out.Length ==> out[k] == old(out[k])
  {
    hide Reported, ParseStored, ScanStored, ScanFixed, ScanDynamic, ScanTokens, Tree.Valid, Codes, FixedLens;
    BadType(t, out, hist, omax, b.Pos());
    if t == 0 {
      r := StoredBlock(b, out, start, omax, hist);
    } else if t == 1 {
      FixedScan(b.src, b.Pos(), |hist|, omax, lit, dist);
      r := FixedBlock(b, lt, dt, out, start, omax, hist, lit, dist);
    } else if t == 2 {
      r := DynamicBlock(b, out, start, omax, hist);
    } else {
      r := -1;
    }
  }

  lemma BadType(t: nat, out: array<byte>, hist: seq<byte>, omax: nat, pos: int)
    ensures t > 2 ==> Reported(Malformed, -1, pos, out, hist, omax)
  {
  }

  method DynamicBlock(b: Reader, out: array<byte>, start: nat, omax: nat, ghost hist: seq<byte>) returns (r: int)
    requires b.Valid() && Clipped(out, start, hist, omax)
    requires !ScanDynamic(b.src, b.Pos(), |hist|, omax).Undefined?
    modifies b, out
    ensures b.Valid()
    ensures Reported(ScanDynamic(b.src, old(b.Pos()), |hist|, omax), r, b.Pos(), out, hist, omax)
    ensures forall k :: 0 <= r <= k < out.Length ==> out[k] == old(out[k])
  {
    hide ScanTrees, ScanTokens, Codes, Kraft, LitLens, DistLens, Tree.Valid, DeliverTokens, TokensFit, ValidLens;
    var ok, lit, dist := ReadTrees(b);
    if !ok { return -1; }
    var lt := new Tree();
    lt.Build(lit);
    var dt := new Tree();
    dt.Build(dist);
    r := DecodeBlock(b, lt, dt, out, start, omax, lit, dist, hist);
  }

  /** What the whole run delivers for the parse of the whole stream. */
  ghost predicate Delivered(all: Parsed<seq<Block>>, r: int, used: int, out: array<byte>, omax: nat)
    reads out
  {
    match all
    case Malformed => r == -1
    case Undefined => true
    case Ok(bs, q) =>
      StreamFits(bs, 0, omax) && r >= 0 && Clipped(out, r, DeliverStream([], bs, omax), omax) && used == q
  }

  class Decoder {
    const fixedLit: Tree
    const fixedDist: Tree
    var fixedBuilt: bool

    ghost predicate Valid()
      reads this, fixedLit, fixedLit.ch, fixedDist, fixedDist.ch
    {
      && fixedLit != fixedDist && fixedLit.ch != fixedDist.ch
      && fixedLit.ch.Length == 2 * HT_MAX && fixedDist.ch.Length == 2 * HT_MAX
      && (fixedBuilt ==> TreeFor(fixedLit, FixedLit()) && TreeFor(fixedDist, FixedDist()))
    }

    constructor ()
      ensures Valid()
    {
      fixedLit := new Tree();
      fixedDist := new Tree();
      fixedBuilt := false;
    }

    /** build_fixed_trees: build them once, on first use. */
    method BuildFixedTrees()
      requires Valid()
      modifies this, fixedLit, fixedLit.ch, fixedDist, fixedDist.ch
      ensures Valid() && fixedBuilt
    {
      hide Tree.Valid, FixedLit, FixedDist, Codes, Kraft, ValidLens;
      if fixedBuilt { return; }
      FixedCodable();
      fixedLit.Build(FixedLit());
      fixedDist.Build(FixedDist());
      fixedBuilt := true;
    }

    /** deflate_decompress: blocks until the final one.  Returns the number of bytes
        produced or -1; `used` is the number of stream bits consumed. */
    method Decompress(src: seq<byte>, out: array<byte>, omax: nat) returns (r: int, ghost used: int)
      requires Valid() && omax <= out.Length
      requires fixedLit.ch as object != out && fixedDist.ch as object != out
      requires !ScanStream(src, 0, 0, omax).Undefined?
      modifies this, fixedLit, fixedLit.ch, fixedDist, fixedDist.ch, out
      ensures Valid()
      ensures Delivered(ScanStream(src, 0, 0, omax), r, used, out, omax)
      ensures forall k :: 0 <= r <= k < out.Length ==> out[k] == old(out[k])
    {
      hide Tree.Valid, ScanStream, Delivered, FixedLit, FixedDist, Codes, Kraft, ValidLens;
      BuildFixedTrees();
      TheFixedLens();
      r, used := RunBlocks(src, out, omax, fixedLit, fixedDist, FixedLit(), FixedDist());
    }
  }

  /** The block loop. */
  method RunBlocks(src: seq<byte>, out: array<byte>, omax: nat, lt: Tree, dt: Tree, ghost lit: seq<nat>,
                   ghost dist: seq<nat>)
    returns (r: int, ghost used: int)
    requires omax <= out.Length && lt.ch as object != out && dt.ch as object != out
    requires !ScanStream(src, 0, 0, omax).Undefined?
    requires FixedTrees(lt, dt, lit, dist)
    modifies out
    ensures Delivered(ScanStream(src, 0, 0, omax), r, used, out, omax)
    ensures forall k :: 0 <= r <= k < out.Length ==> out[k] == old(out[k])
  {
    hide FixedTrees, ScanStream, SameStream, Field, Window, Value, BitAt, ScanBlock;
    ghost var all := ScanStream(src, 0, 0, omax);
    ghost var hist: seq<byte> := [];
    StreamInit(src, omax);
    var b := new Reader(src);
    var opos: nat := 0;
    used := 0;
    while true
      invariant fresh(b) && b.Valid() && b.src == src && Clipped(out, opos, hist, omax) && FixedTrees(lt, dt, lit, dist)
      invariant SameStream(ScanStream(src, b.Pos(), |hist|, omax), hist, all, omax)
      invariant forall k :: opos <= k < out.Length ==> out[k] == old(out[k])
      decreases Left(src, b.Pos())
    {
      ghost var p: nat := b.Pos();
      StreamStep(src, p, hist, all, omax);
      var final, t := ReadHeader(b);
      ghost var blk := ScanBlock(src, t, p + 3, |hist|, omax);
      var n := BlockBody(b, t, lt, dt, out, opos, omax, hist, lit, dist);
      if n < 0 { return -1, b.Pos(); }
      opos := n;
      if final {
        return opos, b.Pos();
      }
      hist := DeliverBlock(hist, blk.value, omax);
    }
  }

  method ReadHeader(b: Reader) returns (final: bool, t: nat)
    requires b.Valid()
    modifies b
    ensures b.Valid() && b.Pos() == old(b.Pos()) + 3
    ensures final <==> BitAt(b.src, old(b.Pos())) == 1
    ensures t == Field(b.src, old(b.Pos()) + 1, 2)
  {
    OneBit(b.src, b.Pos());
    var f := b.Read(1);
    final := f == 1;
    t := b.Read(2);
  }
}
