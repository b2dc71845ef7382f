/** What the decoder of src/image.c makes of a bit stream.  It follows the grammar, but on
    the stream continued by zeros, without looking at distances once the output is full,
    and without skipping what a stored block has left when the output is full. */
module InflateScan {
  import opened Bits
  import LittleEndian
  import opened Huffman
  import opened Deflate

  /** Bits of the stream from p on. */
  function Left(src: seq<byte>, p: nat): nat { if p < 8 * |src| then 8 * |src| - p else 0 }

  function Room(have: nat, omax: nat): nat { if have <= omax then omax - have else 0 }

  // ---- reading ----------------------------------------------------------------------

  // Undefined here stands for an over-subscribed code, for a copy that would read bytes in
  // front of the output, and for a block that goes on forever in the zeros behind the end.

  function ScanDistance(src: seq<byte>, q: nat, dist: map<seq<bit>, nat>, li: nat, lx: nat, have: nat, omax: nat)
    : (r: Parsed<Item>)
    requires li < 29 && lx < Pow2(LEN_EXTRA[li])
    ensures r.Ok? ==> && q < r.next && r.value.Tok? && r.value.t.Match? && r.value.t.WellFormed()
                      && (have < omax ==> r.value.t.Distance() <= have)
  {
    match DecodeSymbol(dist, src, q)
    case NoSym => Malformed
    case Sym(di, m) =>
      if di > 29 then Malformed
      else
        var t := Match(li, lx, di, Field(src, q + m, DIST_EXTRA[di]));
        if have < omax && t.Distance() > have then Undefined else Ok(Tok(t), q + m + DIST_EXTRA[di])
  }

  /** A token can be carried out: a copy starts inside the output, or nothing is copied. */
  predicate TokenFits(t: Token, have: nat, omax: nat) {
    t.WellFormed() && (t.Match? && have < omax ==> t.Distance() <= have)
  }

  function ScanItem(src: seq<byte>, p: nat, lit: map<seq<bit>, nat>, dist: map<seq<bit>, nat>, have: nat, omax: nat)
    : (r: Parsed<Item>)
    ensures r.Ok? ==> p < r.next
    ensures r.Ok? && r.value.Tok? ==> TokenFits(r.value.t, have, omax)
  {
    match DecodeSymbol(lit, src, p)
    case NoSym => Malformed
    case Sym(s, n) =>
      if s > 285 then Malformed
      else if s < 256 then Ok(Tok(Literal(s)), p + n)
      else if s == 256 then Ok(End, p + n)
      else
        var x := LEN_EXTRA[s - 257];
        ScanDistance(src, p + n + x, dist, s - 257, Field(src, p + n, x), have, omax)
  }

  /** Behind the end of the stream every item is the same, so a token there means that no
      end of the block will ever come. */
  function ScanTokens(src: seq<byte>, p: nat, lit: map<seq<bit>, nat>, dist: map<seq<bit>, nat>, have: nat, omax: nat)
    : (r: Parsed<seq<Token>>)
    ensures r.Ok? ==> p < r.next
    decreases Left(src, p)
  {
    match ScanItem(src, p, lit, dist, have, omax)
    case Malformed => Malformed
    case Undefined => Undefined
    case Ok(End, q) => Ok([], q)
    case Ok(Tok(t), q) =>
      if p >= 8 * |src| then Undefined
      else Prepend(t, ScanTokens(src, q, lit, dist, have + t.Size(), omax))
  }

  function ScanOps(src: seq<byte>, p: nat, cl: map<seq<bit>, nat>, total: nat, acc: seq<nat>): (r: Parsed<seq<LenOp>>)
    requires |acc| <= total
    ensures r.Ok? ==> p <= r.next
    decreases total - |acc|
  {
    if |acc| == total then Ok([], p)
    else
      match DecodeSymbol(cl, src, p)
      case NoSym => Malformed
      case Sym(s, n) =>
        var op := OpOf(s, Field(src, p + n, OpBits(s)));
        Prepend(op, ScanOps(src, p + n + OpBits(s), cl, total, op.Apply(acc, total)))
  }

  function ScanLens(src: seq<byte>, p: nat, hlit: nat, hdist: nat, cl: seq<nat>): (r: Parsed<Trees>)
    requires |cl| <= 19 && forall i :: 0 <= i < |cl| ==> cl[i] < 8
    ensures r.Ok? ==> p <= r.next && TreesCodable(r.value)
  {
    ClLensValid(cl);
    if Kraft(ClLens(cl)) > FULL then Undefined
    else
      match ScanOps(src, p, Codes(ClLens(cl)), hlit + hdist, [])
      case Malformed => Malformed
      case Undefined => Undefined
      case Ok(ops, q) =>
        CheckTrees(Trees(hlit, hdist, cl, ops), q)
  }

  function ScanTrees(src: seq<byte>, p: nat): (r: Parsed<Trees>)
    ensures r.Ok? ==> p <= r.next && TreesCodable(r.value)
  {
    var hclen := Field(src, p + 10, 4) + 4;
    assert Pow2(4) == 16;
    ScanLens(src, p + 14 + 3 * hclen, Field(src, p, 5) + 257, Field(src, p + 5, 5) + 1,
             ParseFields(src, p + 14, 3, hclen))
  }

  /** n bytes of the stream from k on, zeros behind its end. */
  function Bytes(src: seq<byte>, k: nat, n: nat): (r: seq<byte>)
    ensures |r| == n && forall i :: 0 <= i < n ==> r[i] == if k + i < |src| then src[k + i] else 0
  {
    seq(n, i requires 0 <= i < n => if k + i < |src| then src[k + i] else 0)
  }

  /** A stored block when the output has room for `room` more bytes: that many are copied
      and the rest of the block is left unread. */
  function ScanStored(src: seq<byte>, p: nat, room: nat): (r: Parsed<Block>)
    ensures r.Ok? ==> p < r.next <= 8 * |src|
    ensures !r.Undefined?
  {
    var k := Align(p) / 8;
    if k + 4 > |src| then Malformed
    else
      var n := Min(Field(src, 8 * k, 16), room);
      Ok(Stored(Window(src, p, 8 * k - p), Field(src, 8 * k + 16, 16), Bytes(src, k + 4, n)), 8 * Min(k + 4 + n, |src|))
  }

  function ScanFixed(src: seq<byte>, p: nat, have: nat, omax: nat): Parsed<Block> {
    FixedCodable();
    AsFixed(ScanTokens(src, p, Codes(FixedLit()), Codes(FixedDist()), have, omax))
  }

  function ScanDynamic(src: seq<byte>, p: nat, have: nat, omax: nat): Parsed<Block> {
    match ScanTrees(src, p)
    case Malformed => Malformed
    case Undefined => Undefined
    case Ok(h, q) => ScanCoded(src, q, h, have, omax)
  }

  /** The tokens of a dynamic block, its trees being known. */
  function ScanCoded(src: seq<byte>, q: nat, h: Trees, have: nat, omax: nat): Parsed<Block>
    requires TreesCodable(h)
  {
    AsDynamic(h, ScanTokens(src, q, Codes(LitLens(h)), Codes(DistLens(h)), have, omax))
  }

  /** The block after the three header bits. */
  function ScanBlock(src: seq<byte>, t: nat, p: nat, have: nat, omax: nat): Parsed<Block> {
    if t == 0 then ScanStored(src, p, Room(have, omax))
    else if t == 1 then ScanFixed(src, p, have, omax)
    else if t == 2 then ScanDynamic(src, p, have, omax)
    else Malformed
  }

  /** Behind the end of the stream there is no block: zeros announce a stored block whose
      length is missing. */
  lemma ScanAdvances(src: seq<byte>, p: nat, have: nat, omax: nat)
    requires ScanBlock(src, Field(src, p + 1, 2), p + 3, have, omax).Ok?
    ensures p < 8 * |src| && p < ScanBlock(src, Field(src, p + 1, 2), p + 3, have, omax).next
  {
    hide ScanTokens, ScanTrees, Codes, FixedLit, FixedDist, LitLens, DistLens, Kraft, Value, Window;
    FixedCodable();
    if p >= 8 * |src| { ZeroType(src, p); }
  }

  lemma ZeroType(src: seq<byte>, p: nat)
    requires p >= 8 * |src|
    ensures Field(src, p + 1, 2) == 0
  {
    var w := Window(src, p + 1, 2);
    assert w[0] == BitAt(src, p + 1) == 0 && w[1] == BitAt(src, p + 2) == 0;
    assert w == [0, 0];
    assert Value([0, 0][1..]) == 0;
  }

  function ScanStream(src: seq<byte>, p: nat, have: nat, omax: nat): Parsed<seq<Block>>
    decreases Left(src, p)
  {
    match ScanBlock(src, Field(src, p + 1, 2), p + 3, have, omax)
    case Malformed => Malformed
    case Undefined => Undefined
    case Ok(b, q) =>
      ScanAdvances(src, p, have, omax);
      if BitAt(src, p) == 1 then Ok([b], q)
      else Prepend(b, ScanStream(src, q, have + SizeOfBlock(b), omax))
  }

  // ---- what comes out ----------------------------------------------------------------

  predicate TokensFit(have: nat, toks: seq<Token>, omax: nat)
    decreases toks
  {
    toks == [] || (TokenFits(toks[0], have, omax) && TokensFit(have + toks[0].Size(), toks[1..], omax))
  }

  /** What a token adds: bytes nobody will see count as zeros. */
  function Deliver(hist: seq<byte>, t: Token, omax: nat): (r: seq<byte>)
    requires TokenFits(t, |hist|, omax)
    ensures hist <= r && |r| == |hist| + t.Size()
  {
    if t.Literal? then hist + [t.b]
    else if |hist| < omax then
      CopyExtends(hist, t.Distance(), t.Length());
      Copy(hist, t.Distance(), t.Length())
    else hist + LittleEndian.Zeros(t.Length())
  }

  function DeliverTokens(hist: seq<byte>, toks: seq<Token>, omax: nat): (r: seq<byte>)
    requires TokensFit(|hist|, toks, omax)
    ensures hist <= r && |r| == |hist| + SizeOfTokens(toks)
    decreases toks
  {
    if toks == [] then hist else DeliverTokens(Deliver(hist, toks[0], omax), toks[1..], omax)
  }

  predicate BlockFits(b: Block, have: nat, omax: nat) { !b.Stored? ==> TokensFit(have, b.toks, omax) }

  function DeliverBlock(hist: seq<byte>, b: Block, omax: nat): (r: seq<byte>)
    requires BlockFits(b, |hist|, omax)
    ensures hist <= r && |r| == |hist| + SizeOfBlock(b)
  {
    if b.Stored? then hist + b.data else DeliverTokens(hist, b.toks, omax)
  }

  predicate StreamFits(bs: seq<Block>, have: nat, omax: nat) {
    bs == [] || (BlockFits(bs[0], have, omax) && StreamFits(bs[1..], have + SizeOfBlock(bs[0]), omax))
  }

  function DeliverStream(hist: seq<byte>, bs: seq<Block>, omax: nat): (r: seq<byte>)
    requires StreamFits(bs, |hist|, omax)
    ensures hist <= r && |r| == |hist| + SizeOfStream(bs)
    decreases bs
  {
    if bs == [] then hist else DeliverStream(DeliverBlock(hist, bs[0], omax), bs[1..], omax)
  }

  lemma {:induction false} ScannedTokensFit(
      src: seq<byte>, p: nat, lit: map<seq<bit>, nat>, dist: map<seq<bit>, nat>, have: nat, omax: nat)
    requires ScanTokens(src, p, lit, dist, have, omax).Ok?
    ensures TokensFit(have, ScanTokens(src, p, lit, dist, have, omax).value, omax)
    decreases Left(src, p)
  {
    hide ScanItem, TokenFits;
    var Ok(it, q) := ScanItem(src, p, lit, dist, have, omax);
    if it.Tok? { ScannedTokensFit(src, q, lit, dist, have + it.t.Size(), omax); }
  }

  lemma ScannedBlockFits(src: seq<byte>, t: nat, p: nat, have: nat, omax: nat)
    requires ScanBlock(src, t, p, have, omax).Ok?
    ensures BlockFits(ScanBlock(src, t, p, have, omax).value, have, omax)
  {
    hide ScanTokens, ScanTrees, Codes, FixedLit, FixedDist, LitLens, DistLens, Kraft, Field, Window;
    FixedCodable();
    if t == 1 {
      ScannedTokensFit(src, p, Codes(FixedLit()), Codes(FixedDist()), have, omax);
    } else if t == 2 {
      var Ok(h, q) := ScanTrees(src, p);
      ScannedTokensFit(src, q, Codes(LitLens(h)), Codes(DistLens(h)), have, omax);
    }
  }

  lemma {:induction false} ScannedStreamFits(src: seq<byte>, p: nat, have: nat, omax: nat)
    requires ScanStream(src, p, have, omax).Ok?
    ensures StreamFits(ScanStream(src, p, have, omax).value, have, omax)
    decreases Left(src, p)
  {
    hide ScanBlock, Field, BitAt, BlockFits, SizeOfBlock;
    var t := Field(src, p + 1, 2);
    var Ok(b, q) := ScanBlock(src, t, p + 3, have, omax);
    ScanAdvances(src, p, have, omax);
    ScannedBlockFits(src, t, p + 3, have, omax);
    if BitAt(src, p) == 0 { ScannedStreamFits(src, q, have + SizeOfBlock(b), omax); }
  }

  lemma {:induction false} ScanOpsFill(src: seq<byte>, p: nat, cl: map<seq<bit>, nat>, total: nat, acc: seq<nat>)
    requires |acc| <= total && ScanOps(src, p, cl, total, acc).Ok?
    ensures OpsFill(ScanOps(src, p, cl, total, acc).value, total, acc)
    decreases total - |acc|
  {
    hide DecodeSymbol, Field, LenOp.Apply, OpOf, OpBits;
    if |acc| < total {
      var d := DecodeSymbol(cl, src, p);
      var op := OpOf(d.sym, Field(src, p + d.size, OpBits(d.sym)));
      ScanOpsFill(src, p + d.size + OpBits(d.sym), cl, total, op.Apply(acc, total));
    }
  }

  // ---- the format read by the decoder --------------------------------------------------

  /** Where the format gives a verdict, the decoder reads the same. */
  ghost predicate SameVerdict<T>(parsed: Parsed<T>, scanned: Parsed<T>) { !parsed.Undefined? ==> scanned == parsed }

  lemma SameItem(
      src: seq<byte>, p: nat, lit: map<seq<bit>, nat>, dist: map<seq<bit>, nat>, have: nat, omax: nat)
    ensures SameVerdict(ParseItem(src, p, lit, dist, have), ScanItem(src, p, lit, dist, have, omax))
  {
    hide DecodeSymbol, Field, Token.Distance, Token.WellFormed;
  }

  lemma {:induction false} SameTokens(
      src: seq<byte>, p: nat, lit: map<seq<bit>, nat>, dist: map<seq<bit>, nat>, have: nat, omax: nat)
    ensures SameVerdict(ParseTokens(src, p, lit, dist, have), ScanTokens(src, p, lit, dist, have, omax))
    decreases Left(src, p)
  {
    hide ParseItem, ScanItem;
    SameItem(src, p, lit, dist, have, omax);
    var it := ParseItem(src, p, lit, dist, have);
    if it.Ok? && it.value.Tok? { SameTokens(src, it.next, lit, dist, have + it.value.t.Size(), omax); }
  }

  lemma {:induction false} SameOps(src: seq<byte>, p: nat, cl: map<seq<bit>, nat>, total: nat, acc: seq<nat>)
    requires |acc| <= total
    ensures SameVerdict(ParseOps(src, p, cl, total, acc), ScanOps(src, p, cl, total, acc))
    decreases total - |acc|
  {
    hide DecodeSymbol, Field, LenOp.Apply, OpOf, OpBits;
    if |acc| < total {
      var d := DecodeSymbol(cl, src, p);
      if d.Sym? {
        var op := OpOf(d.sym, Field(src, p + d.size, OpBits(d.sym)));
        SameOps(src, p + d.size + OpBits(d.sym), cl, total, op.Apply(acc, total));
      }
    }
  }

  lemma SameCodeLens(src: seq<byte>, p: nat, hlit: nat, hdist: nat, cl: seq<nat>)
    requires |cl| <= 19 && forall i :: 0 <= i < |cl| ==> cl[i] < 8
    ensures SameVerdict(ParseLens(src, p, hlit, hdist, cl), ScanLens(src, p, hlit, hdist, cl))
  {
    hide Codes, Kraft, ClLens, ParseOps, ScanOps, CheckTrees, ValidLens;
    ClLensValid(cl);
    if Kraft(ClLens(cl)) <= FULL { SameOps(src, p, Codes(ClLens(cl)), hlit + hdist, []); }
  }

  lemma SameTrees(src: seq<byte>, p: nat)
    ensures SameVerdict(ParseTrees(src, p), ScanTrees(src, p))
  {
    hide Field, ParseFields, ParseLens, ScanLens;
    FieldBelow16(src, p + 10);
    var hclen := Field(src, p + 10, 4) + 4;
    SmallFields(src, p + 14, hclen);
    SameCodeLens(src, p + 14 + 3 * hclen, Field(src, p, 5) + 257, Field(src, p + 5, 5) + 1,
                 ParseFields(src, p + 14, 3, hclen));
  }

  lemma FieldBelow16(src: seq<byte>, p: nat)
    ensures Field(src, p, 4) < 16
  {
    assert Pow2(4) == 16;
  }

  lemma SmallFields(src: seq<byte>, p: nat, k: nat)
    ensures |ParseFields(src, p, 3, k)| == k && forall i :: 0 <= i < k ==> ParseFields(src, p, 3, k)[i] < 8
  {
    assert Pow2(3) == 8;
  }

  lemma SameBlock(src: seq<byte>, t: nat, p: nat, have: nat, omax: nat)
    requires t != 0
    ensures SameVerdict(ParseBlock(src, t, p, have), ScanBlock(src, t, p, have, omax))
  {
    hide ParseTokens, ScanTokens, ParseTrees, ScanTrees, Codes, FixedLit, FixedDist, LitLens, DistLens, Kraft;
    FixedCodable();
    if t == 1 {
      SameTokens(src, p, Codes(FixedLit()), Codes(FixedDist()), have, omax);
    } else if t == 2 {
      SameTrees(src, p);
      var trees := ParseTrees(src, p);
      if trees.Ok? {
        var h := trees.value;
        SameTokens(src, trees.next, Codes(LitLens(h)), Codes(DistLens(h)), have, omax);
      }
    }
  }

  /** The same bytes as far as an output of n bytes can tell. */
  ghost predicate SameClip(a: seq<byte>, b: seq<byte>, n: nat) {
    Min(|a|, n) == Min(|b|, n) && a[..Min(|a|, n)] == b[..Min(|b|, n)]
  }

  /** The decoder reads a stored block whole exactly when it fits or is empty; the
      bytes left out of a cut block are those the output has no room for. */
  lemma StoredCut(src: seq<byte>, p: nat, hist: seq<byte>, omax: nat)
    ensures var room := Room(|hist|, omax);
            var r := ScanStored(src, p, room);
            match ParseStored(src, p)
            case Malformed => r.Malformed?
            case Undefined => true
            case Ok(s, q) =>
              && s.Stored? && r.Ok? && r.value.Stored? && SameClip(hist + r.value.data, hist + s.data, omax)
              && (r.next == q <==> |s.data| <= room) && (|s.data| <= room ==> r == Ok(s, q))
              && (|s.data| > room ==> |r.value.data| == room && r.next == q - 8 * (|s.data| - room))
  {
    hide Window, Value;
    var room := Room(|hist|, omax);
    var r := ScanStored(src, p, room);
    if ParseStored(src, p).Ok? {
      var s := ParseStored(src, p).value;
      assert r.value.data == s.data[..Min(|s.data|, room)];
      assert |s.data| <= room ==> r.value.data == s.data;
    }
  }

  /** As long as the output can tell, the decoder's bytes are those of the format. */
  ghost predicate Agree(a: seq<byte>, b: seq<byte>, omax: nat) { |a| == |b| && SameClip(a, b, omax) }

  lemma FullAgrees(a: seq<byte>, b: seq<byte>, x: seq<byte>, y: seq<byte>, omax: nat)
    requires SameClip(a, b, omax) && |a| >= omax && a <= x && b <= y
    ensures SameClip(x, y, omax)
  {
    assert x[..omax] == a[..omax] && y[..omax] == b[..omax];
  }

  lemma {:induction false} TokensAgree(g: seq<byte>, h: seq<byte>, toks: seq<Token>, omax: nat)
    requires Agree(g, h, omax) && TokensReach(|h|, toks)
    ensures TokensFit(|g|, toks, omax) && Agree(DeliverTokens(g, toks, omax), ExpandTokens(h, toks), omax)
    decreases toks
  {
    hide Token.WellFormed, Token.Distance, Token.Length, Copy, SameClip;
    if toks != [] {
      var t := toks[0];
      if |h| < omax { ShortAgrees(g, h, omax); }
      var g1 := Deliver(g, t, omax);
      var h1 := if t.Literal? then h + [t.b] else Copy(h, t.Distance(), t.Length());
      if |h| >= omax {
        if t.Match? { CopyExtends(h, t.Distance(), t.Length()); }
        FullAgrees(g, h, g1, h1, omax);
      } else {
        Itself(g1, omax);
      }
      TokensAgree(g1, h1, toks[1..], omax);
    }
  }

  lemma ShortAgrees(g: seq<byte>, h: seq<byte>, omax: nat)
    requires Agree(g, h, omax) && |h| < omax
    ensures g == h
  {
    assert g[..|g|] == g && h[..|h|] == h;
  }

  lemma Itself(g: seq<byte>, omax: nat)
    ensures SameClip(g, g, omax)
  {
  }

  lemma BlockAgrees(g: seq<byte>, h: seq<byte>, b: Block, omax: nat)
    requires Agree(g, h, omax) && BlockReaches(b, |h|)
    ensures BlockFits(b, |g|, omax) && Agree(DeliverBlock(g, b, omax), ExpandBlock(h, b), omax)
  {
    hide SameClip;
    if b.Stored? {
      if |h| < omax {
        ShortAgrees(g, h, omax);
        Itself(h + b.data, omax);
      } else {
        FullAgrees(g, h, g + b.data, h + b.data, omax);
      }
    } else {
      TokensAgree(g, h, b.toks, omax);
    }
  }

  // ---- the three undefined cases ---------------------------------------------------------

  /** Once the output is full, no distance keeps a copy from being read. */
  lemma FullIgnoresDistances(
      src: seq<byte>, p: nat, lit: map<seq<bit>, nat>, dist: map<seq<bit>, nat>, have: nat, omax: nat)
    requires have >= omax
    ensures !ScanItem(src, p, lit, dist, have, omax).Undefined?
  {
  }

  lemma {:induction false} ZerosDecodeAlike(codes: map<seq<bit>, nat>, src: seq<byte>, p: nat, q: nat, n: nat)
    requires p >= 8 * |src| && q >= 8 * |src| && 1 <= n <= MAX_BITS + 1
    ensures FindCode(codes, src, p, n) == FindCode(codes, src, q, n)
    decreases MAX_BITS + 1 - n
  {
    assert Window(src, p, n) == Window(src, q, n) by { ZeroWindows(src, p, q, n); }
    hide Window;
    if n <= MAX_BITS { ZerosDecodeAlike(codes, src, p, q, n + 1); }
  }

  lemma ZeroWindows(src: seq<byte>, p: nat, q: nat, n: nat)
    requires p >= 8 * |src| && q >= 8 * |src|
    ensures Window(src, p, n) == Window(src, q, n)
  {
    var u, v := Window(src, p, n), Window(src, q, n);
    forall i | 0 <= i < n ensures u[i] == v[i] {
      assert u[i] == BitAt(src, p + i) == 0 && v[i] == BitAt(src, q + i) == 0;
    }
  }

  /** A token read behind the end of the stream is followed by tokens only: neither an end
      of the block nor a fault ever comes, wherever the reader is and whatever has been
      produced. */
  lemma EndlessBehindTheEnd(src: seq<byte>, p: nat, q: nat, lit: map<seq<bit>, nat>, dist: map<seq<bit>, nat>,
                            have: nat, have': nat, omax: nat)
    requires p >= 8 * |src| && q >= 8 * |src|
    requires var it := ScanItem(src, p, lit, dist, have, omax); it.Ok? && it.value.Tok?
    ensures var it := ScanItem(src, q, lit, dist, have', omax); it.Undefined? || (it.Ok? && it.value.Tok?)
  {
    hide ScanItem, FindCode;
    TokenSymbols(src, p, lit, dist, have, omax);
    ZerosDecodeAlike(lit, src, p, q, 1);
    var d := DecodeSymbol(lit, src, p);
    if d.sym >= 257 {
      var n := d.size + LEN_EXTRA[d.sym - 257];
      ZerosDecodeAlike(dist, src, p + n, q + n, 1);
    }
    TokenSymbols(src, q, lit, dist, have', omax);
  }

  /** Which symbols make a token. */
  ghost predicate IsToken(src: seq<byte>, p: nat, lit: map<seq<bit>, nat>, dist: map<seq<bit>, nat>) {
    var d := DecodeSymbol(lit, src, p);
    && d.Sym? && d.sym <= 285 && d.sym != 256
    && (d.sym >= 257 ==> var e := DecodeSymbol(dist, src, p + (d.size + LEN_EXTRA[d.sym - 257])); e.Sym? && e.sym <= 29)
  }

  lemma TokenSymbols(src: seq<byte>, p: nat, lit: map<seq<bit>, nat>, dist: map<seq<bit>, nat>, have: nat, omax: nat)
    ensures var it := ScanItem(src, p, lit, dist, have, omax);
            it.Undefined? || (it.Ok? && it.value.Tok?) <==> IsToken(src, p, lit, dist)
  {
    hide FindCode, Field, Token.Distance, Token.WellFormed;
  }
}
