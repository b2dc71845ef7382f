/** The decoder and the format put together. */
module InflateTheorem {
  import opened Bits
  import opened Huffman
  import opened Deflate
  import opened DeflateRoundTrip
  import opened InflateScan
  import opened Inflate

  // ---- stored blocks that overrun the output ------------------------------------------

  /** Where the decoder goes on after the first stored block that it cuts before the
      end of the stream, and how many bytes it has counted by then. */
  datatype Cut = Uncut | CutAt(pos: nat, have: nat)

  function FirstCut(src: seq<byte>, p: nat, have: nat, omax: nat): (c: Cut)
    ensures c.CutAt? ==> c.have >= omax
    decreases 8 * |src| - p
  {
    if p + 3 > 8 * |src| then Uncut
    else
      var t := Field(src, p + 1, 2);
      var r := ParseBlock(src, t, p + 3, have);
      if !r.Ok? || BitAt(src, p) == 1 then Uncut
      else if Overruns(r.value, have, omax) then
        StoredEnd(src, t, p + 3, have);
        CutAt(r.next - 8 * (|r.value.data| - Room(have, omax)), have + Room(have, omax))
      else
        BlockAdvances(src, t, p + 3, have);
        FirstCut(src, r.next, have + SizeOfBlock(r.value), omax)
  }

  lemma StoredEnd(src: seq<byte>, t: nat, p: nat, have: nat)
    requires ParseBlock(src, t, p, have).Ok? && ParseBlock(src, t, p, have).value.Stored?
    ensures ParseBlock(src, t, p, have).next >= 8 * |ParseBlock(src, t, p, have).value.data|
  {
    hide Field, Window, ParseFixed, ParseDynamic;
    NotStored(src, t, p, have);
  }

  /** A stored block that the output has no room for. */
  predicate Overruns(b: Block, have: nat, omax: nat) { b.Stored? && |b.data| > Room(have, omax) }

  /** How the decoder reads one block of the format: whole, unless it is a stored block
      that does not fit. */
  lemma ScanOrCut(src: seq<byte>, t: nat, p: nat, g: seq<byte>, h: seq<byte>, omax: nat)
    requires ParseBlock(src, t, p, |h|).Ok? && Agree(g, h, omax)
    ensures BlockReaches(ParseBlock(src, t, p, |h|).value, |h|) && ScanBlock(src, t, p, |h|, omax).Ok?
    ensures BlockFits(ScanBlock(src, t, p, |h|, omax).value, |g|, omax)
    ensures var Ok(b, q) := ParseBlock(src, t, p, |h|);
            var Ok(sb, sq) := ScanBlock(src, t, p, |h|, omax);
            var room := Room(|h|, omax);
            && p <= q <= 8 * |src|
            && SameClip(DeliverBlock(g, sb, omax), ExpandBlock(h, b), omax)
            && (Overruns(b, |h|, omax) ==> sq == q - 8 * (|b.data| - room) && SizeOfBlock(sb) == room)
            && (!Overruns(b, |h|, omax) ==> sb == b && sq == q)
  {
    hide ParseFixed, ParseDynamic, ScanFixed, ScanDynamic, ScanStored, ParseStored, ExpandBlock, DeliverBlock,
      TokensReach, TokensFit, SameClip;
    var b := ParseBlock(src, t, p, |h|).value;
    BlockAdvances(src, t, p, |h|);
    ParsedBlockReaches(src, t, p, |h|);
    NotStored(src, t, p, |h|);
    BlockAgrees(g, h, b, omax);
    if t == 0 { StoredAgrees(src, p, g, h, omax); } else { SameBlock(src, t, p, |h|, omax); }
  }

  lemma StoredAgrees(src: seq<byte>, p: nat, g: seq<byte>, h: seq<byte>, omax: nat)
    requires ParseStored(src, p).Ok? && ParseStored(src, p).value.Stored? && Agree(g, h, omax)
    ensures var Ok(b, q) := ParseStored(src, p);
            var s := ScanStored(src, p, Room(|h|, omax));
            && s.Ok? && s.value.Stored?
            && SameClip(DeliverBlock(g, s.value, omax), ExpandBlock(h, b), omax)
            && (|b.data| > Room(|h|, omax) ==>
                  s.next == q - 8 * (|b.data| - Room(|h|, omax)) && |s.value.data| == Room(|h|, omax))
            && (|b.data| <= Room(|h|, omax) ==> s == Ok(b, q))
  {
    hide ParseStored, ScanStored;
    StoredCut(src, p, h, omax);
    var b, s := ParseStored(src, p).value, ScanStored(src, p, Room(|h|, omax)).value;
    if |h| >= omax {
      FullAgrees(g, h, g + s.data, h + b.data, omax);
    } else {
      ShortAgrees(g, h, omax);
    }
  }

  lemma NotStored(src: seq<byte>, t: nat, p: nat, have: nat)
    ensures var r := ParseBlock(src, t, p, have); r.Ok? ==> (r.value.Stored? <==> t == 0)
  {
    hide ParseTokens, ParseTrees, Field, Window, Codes, FixedLit, FixedDist;
  }

  /** The last block of the list is a stored block that the output cuts. */
  predicate LastOverruns(bs: seq<Block>, have: nat, omax: nat) {
    && bs != []
    && var b, end := bs[|bs| - 1], have + SizeOfStream(bs);
       Overruns(b, if SizeOfBlock(b) <= end then end - SizeOfBlock(b) else 0, omax)
  }

  /** What the decoder makes of a stream that the format reads as s: it reads it as r.  If
      no stored block but the last is cut it reads the stream to its end, and if the last is
      not cut either it reads the very same blocks; if another one is cut, everything
      depends on how the bytes behind the cut read as a stream.  When it reads to an end at
      all, its bytes are those of the format as far as the output reaches. */
  ghost predicate CutReading(s: Parsed<seq<Block>>, r: Parsed<seq<Block>>, cut: Cut, rest: Parsed<seq<Block>>,
                             g: seq<byte>, h: seq<byte>, omax: nat) {
    && s.Ok? && s.value != [] && StreamReaches(s.value, |h|)
    && (cut.Uncut? ==> r.Ok? && (!LastOverruns(s.value, |h|, omax) ==> r == s))
    && (cut.CutAt? ==> (r.Ok? <==> rest.Ok?) && (r.Malformed? <==> rest.Malformed?))
    && (r.Ok? ==> StreamFits(r.value, |g|, omax)
                  && SameClip(DeliverStream(g, r.value, omax), ExpandStream(h, s.value), omax))
    && (|h| + SizeOfStream(s.value) <= omax ==> cut.Uncut? && !LastOverruns(s.value, |h|, omax))
  }

  function Rest(src: seq<byte>, cut: Cut, omax: nat): Parsed<seq<Block>> {
    if cut.CutAt? then ScanStream(src, cut.pos, cut.have, omax) else Malformed
  }

  lemma {:induction false} CutStream(src: seq<byte>, p: nat, g: seq<byte>, h: seq<byte>, omax: nat)
    requires ParseStream(src, p, |h|).Ok? && Agree(g, h, omax)
    ensures var cut := FirstCut(src, p, |h|, omax);
            CutReading(ParseStream(src, p, |h|), ScanStream(src, p, |h|, omax), cut, Rest(src, cut, omax), g, h, omax)
    decreases 8 * |src| - p
  {
    hide ParseBlock, ScanBlock, Field, BitAt, BlockReaches, BlockFits, SizeOfBlock, ExpandBlock, DeliverBlock, SameClip,
      Overruns, CutReading;
    var t := Field(src, p + 1, 2);
    var Ok(b, q) := ParseBlock(src, t, p + 3, |h|);
    ScanOrCut(src, t, p + 3, g, h, omax);
    ScanAdvances(src, p, |h|, omax);
    var Ok(sb, sq) := ScanBlock(src, t, p + 3, |h|, omax);
    OverrunSize(b, |h|, omax);
    if BitAt(src, p) == 1 {
      CutLast(b, sb, q, sq, g, h, omax);
    } else {
      var h1, g1 := ExpandBlock(h, b), DeliverBlock(g, sb, omax);
      var s, r := ParseStream(src, q, |h1|), ScanStream(src, sq, |g1|, omax);
      if Overruns(b, |h|, omax) {
        ParsedStreamReaches(src, q, |h1|);
        if r.Ok? { ScannedStreamFits(src, sq, |g1|, omax); }
        CutHere(b, sb, s, r, FirstCut(src, p, |h|, omax), g, h, omax);
      } else {
        CutStream(src, q, g1, h1, omax);
        var cut := FirstCut(src, q, |h1|, omax);
        CutLater(b, s, r, cut, Rest(src, cut, omax), g, h, omax);
      }
    }
  }

  lemma CutLast(b: Block, sb: Block, q: nat, sq: nat, g: seq<byte>, h: seq<byte>, omax: nat)
    requires BlockReaches(b, |h|) && BlockFits(sb, |g|, omax)
    requires SameClip(DeliverBlock(g, sb, omax), ExpandBlock(h, b), omax)
    requires !Overruns(b, |h|, omax) ==> sb == b && sq == q
    ensures CutReading(Ok([b], q), Ok([sb], sq), Uncut, Malformed, g, h, omax)
  {
    hide BlockReaches, BlockFits, SizeOfBlock, ExpandBlock, DeliverBlock, SameClip, Overruns, StreamReaches, StreamFits,
      ExpandStream, DeliverStream, SizeOfStream;
    OneBlock(h, b);
    OneDelivered(g, sb, omax);
    OverrunSize(b, |h|, omax);
    assert [b][|[b]| - 1] == b;
  }

  lemma CutHere(b: Block, sb: Block, s: Parsed<seq<Block>>, r: Parsed<seq<Block>>, cut: Cut, g: seq<byte>,
                h: seq<byte>, omax: nat)
    requires BlockReaches(b, |h|) && BlockFits(sb, |g|, omax) && Overruns(b, |h|, omax) && cut.CutAt?
    requires var g1, h1 := DeliverBlock(g, sb, omax), ExpandBlock(h, b);
             && SameClip(g1, h1, omax) && |g1| >= omax
             && s.Ok? && StreamReaches(s.value, |h1|) && (r.Ok? ==> StreamFits(r.value, |g1|, omax))
    ensures CutReading(Prepend(b, s), Prepend(sb, r), cut, r, g, h, omax)
  {
    hide BlockReaches, BlockFits, SizeOfBlock, ExpandBlock, DeliverBlock, SameClip, Overruns, StreamReaches, StreamFits,
      ExpandStream, DeliverStream, SizeOfStream, LastOverruns;
    var g1, h1 := DeliverBlock(g, sb, omax), ExpandBlock(h, b);
    Prepended(b, s);
    MoreBlocks(h, b, s.value);
    OverrunSize(b, |h|, omax);
    if r.Ok? {
      Prepended(sb, r);
      MoreDelivered(g, sb, r.value, omax);
      FullAgrees(g1, h1, DeliverStream(g1, r.value, omax), ExpandStream(h1, s.value), omax);
    }
  }

  lemma CutLater(b: Block, s: Parsed<seq<Block>>, r: Parsed<seq<Block>>, cut: Cut, rest: Parsed<seq<Block>>,
                 g: seq<byte>, h: seq<byte>, omax: nat)
    requires BlockReaches(b, |h|) && BlockFits(b, |g|, omax)
    requires CutReading(s, r, cut, rest, DeliverBlock(g, b, omax), ExpandBlock(h, b), omax)
    ensures CutReading(Prepend(b, s), Prepend(b, r), cut, rest, g, h, omax)
  {
    hide BlockReaches, BlockFits, SizeOfBlock, ExpandBlock, DeliverBlock, SameClip, StreamReaches, StreamFits,
      ExpandStream, DeliverStream, SizeOfStream, LastOverruns;
    Prepended(b, s);
    MoreBlocks(h, b, s.value);
    LastLater(b, s.value, |h|, omax);
    if r.Ok? {
      Prepended(b, r);
      MoreDelivered(g, b, r.value, omax);
    }
  }

  lemma Prepended(b: Block, r: Parsed<seq<Block>>)
    requires r.Ok?
    ensures Prepend(b, r) == Ok([b] + r.value, r.next)
  {
  }

  lemma OverrunSize(b: Block, have: nat, omax: nat)
    ensures Overruns(b, have, omax) ==> b.Stored? && SizeOfBlock(b) == |b.data| && have + SizeOfBlock(b) > omax
    ensures Overruns(b, have, omax) ==> have + Room(have, omax) >= omax
  {
  }

  lemma LastLater(b: Block, bs: seq<Block>, have: nat, omax: nat)
    requires bs != []
    ensures LastOverruns([b] + bs, have, omax) <==> LastOverruns(bs, have + SizeOfBlock(b), omax)
  {
    hide SizeOfBlock, Overruns;
    assert ([b] + bs)[1..] == bs;
    LastInside(bs);
  }

  lemma {:induction false} LastInside(bs: seq<Block>)
    requires bs != []
    ensures SizeOfBlock(bs[|bs| - 1]) <= SizeOfStream(bs)
  {
    hide SizeOfBlock;
    if |bs| > 1 { LastInside(bs[1..]); }
  }

  lemma OneBlock(hist: seq<byte>, b: Block)
    requires BlockReaches(b, |hist|)
    ensures StreamReaches([b], |hist|) && ExpandStream(hist, [b]) == ExpandBlock(hist, b)
    ensures SizeOfStream([b]) == SizeOfBlock(b)
  {
    hide BlockReaches, ExpandBlock, SizeOfBlock;
    assert [b][1..] == [] && ExpandStream(ExpandBlock(hist, b), []) == ExpandBlock(hist, b);
  }

  lemma MoreBlocks(hist: seq<byte>, b: Block, bs: seq<Block>)
    requires BlockReaches(b, |hist|) && StreamReaches(bs, |ExpandBlock(hist, b)|)
    ensures StreamReaches([b] + bs, |hist|) && ExpandStream(hist, [b] + bs) == ExpandStream(ExpandBlock(hist, b), bs)
    ensures SizeOfStream([b] + bs) == SizeOfBlock(b) + SizeOfStream(bs)
  {
    hide BlockReaches, ExpandBlock, SizeOfBlock;
    assert ([b] + bs)[1..] == bs;
  }

  lemma OneDelivered(hist: seq<byte>, b: Block, omax: nat)
    requires BlockFits(b, |hist|, omax)
    ensures StreamFits([b], |hist|, omax) && DeliverStream(hist, [b], omax) == DeliverBlock(hist, b, omax)
  {
    hide BlockFits, DeliverBlock, SizeOfBlock;
    assert [b][1..] == [] && DeliverStream(DeliverBlock(hist, b, omax), [], omax) == DeliverBlock(hist, b, omax);
  }

  lemma MoreDelivered(hist: seq<byte>, b: Block, bs: seq<Block>, omax: nat)
    requires BlockFits(b, |hist|, omax) && StreamFits(bs, |DeliverBlock(hist, b, omax)|, omax)
    ensures StreamFits([b] + bs, |hist|, omax)
    ensures DeliverStream(hist, [b] + bs, omax) == DeliverStream(DeliverBlock(hist, b, omax), bs, omax)
  {
    hide BlockFits, DeliverBlock, SizeOfBlock;
    assert ([b] + bs)[1..] == bs;
  }

  lemma ParsedBlockReaches(src: seq<byte>, t: nat, p: nat, have: nat)
    requires ParseBlock(src, t, p, have).Ok?
    ensures BlockReaches(ParseBlock(src, t, p, have).value, have)
  {
    hide ParseTokens, ParseTrees, Codes, FixedLit, FixedDist, LitLens, DistLens, Kraft, Field, Window;
    FixedCodable();
    if t == 1 {
      ParsedTokensReach(src, p, Codes(FixedLit()), Codes(FixedDist()), have);
    } else if t == 2 {
      var Ok(h, q) := ParseTrees(src, p);
      ParsedTokensReach(src, q, Codes(LitLens(h)), Codes(DistLens(h)), have);
    }
  }

  lemma {:induction false} ParsedStreamReaches(src: seq<byte>, p: nat, have: nat)
    requires ParseStream(src, p, have).Ok?
    ensures StreamReaches(ParseStream(src, p, have).value, have)
    decreases 8 * |src| - p
  {
    hide ParseBlock, Field, BitAt, BlockReaches, SizeOfBlock;
    var t := Field(src, p + 1, 2);
    var Ok(b, q) := ParseBlock(src, t, p + 3, have);
    BlockAdvances(src, t, p + 3, have);
    ParsedBlockReaches(src, t, p + 3, have);
    if BitAt(src, p) == 0 { ParsedStreamReaches(src, q, have + SizeOfBlock(b)); }
  }

  /** Decompressing any stream the format accepts, into an output of any size.  The
      result is the expansion cut at the output's size exactly when no stored block but
      the last is cut, or the bytes behind the first cut happen to read as a stream;
      otherwise it is -1.  The one hypothesis is about the bytes behind a cut: read as a
      stream they describe no over-subscribed code and no block that never ends. */
  method DecompressParsed(d: Decoder, src: seq<byte>, out: array<byte>, omax: nat) returns (r: int, ghost used: int)
    requires d.Valid() && omax <= out.Length
    requires d.fixedLit.ch as object != out && d.fixedDist.ch as object != out
    requires ParseStream(src, 0, 0).Ok?
    requires var cut := FirstCut(src, 0, 0, omax); cut.CutAt? ==> !ScanStream(src, cut.pos, cut.have, omax).Undefined?
    modifies d, d.fixedLit, d.fixedLit.ch, d.fixedDist, d.fixedDist.ch, out
    ensures d.Valid()
    ensures var s := ParseStream(src, 0, 0);
            var cut := FirstCut(src, 0, 0, omax);
            && StreamReaches(s.value, 0)
            && (cut.Uncut? || ScanStream(src, cut.pos, cut.have, omax).Ok?
                <==> r >= 0 && Clipped(out, r, ExpandStream([], s.value), omax))
            && (cut.CutAt? && !ScanStream(src, cut.pos, cut.have, omax).Ok? <==> r == -1)
            && (SizeOfStream(s.value) <= omax ==> r >= 0 && used == s.next)
    ensures forall k :: 0 <= r <= k < out.Length ==> out[k] == old(out[k])
  {
    hide ParseStream, ScanStream, FirstCut, Decoder.Valid;
    CutStream(src, 0, [], [], omax);
    r, used := d.Decompress(src, out, omax);
  }

  /** Decompressing the encoding of any valid block list, followed by anything, yields
      exactly its expansion and consumes exactly its bits. */
  method DecompressEncoded(d: Decoder, src: seq<byte>, out: array<byte>, ghost bs: seq<Block>, ghost q: nat)
    returns (r: int, ghost used: int)
    requires d.Valid() && d.fixedLit.ch as object != out && d.fixedDist.ch as object != out
    requires SpellsStream(src, 0, q, bs, 0) && SizeOfStream(bs) <= out.Length
    modifies d, d.fixedLit, d.fixedLit.ch, d.fixedDist, d.fixedDist.ch, out
    ensures d.Valid() && used == q && StreamReaches(bs, 0)
    ensures r == SizeOfStream(bs) && out[..r] == ExpandStream([], bs)
    ensures forall k :: r <= k < out.Length ==> out[k] == old(out[k])
  {
    hide ParseStream, ScanStream, FirstCut, Decoder.Valid, StreamValid, EncodeStream, Spells;
    StreamReads(src, bs, q);
    CutStream(src, 0, [], [], out.Length);
    r, used := DecompressParsed(d, src, out, out.Length);
  }

  /** A stored block with the byte 7, then an empty final stored block. */
  const TWO_STORED: seq<byte> := [0, 1, 0, 0xFE, 0xFF, 7, 1, 0, 0, 0xFF, 0xFF]

  lemma ShortField(src: seq<byte>, k: nat)
    requires k + 2 <= |src|
    ensures Field(src, 8 * k, 16) == 256 * (src[k + 1] as int) + src[k]
  {
    WindowSplit(src, 8 * k, 8, 8);
    ValueConcat(Window(src, 8 * k, 8), Window(src, 8 * k + 8, 8));
    ByteWindow(src, k);
    ByteWindow(src, k + 1);
    assert Pow2(8) == 256;
  }

  /** The three header bits at the front of a byte. */
  lemma HeaderBits(src: seq<byte>, k: nat)
    requires k < |src|
    ensures BitAt(src, 8 * k) == src[k] % 2 && Field(src, 8 * k + 1, 2) == src[k] / 2 % 4
  {
    hide BitAt;
    var w := Window(src, 8 * k + 1, 2);
    BitInByte(src, k, 0);
    BitInByte(src, k, 1);
    BitInByte(src, k, 2);
    assert Pow2(0) == 1 && Pow2(1) == 2 && Pow2(2) == 4;
    assert w == [BitAt(src, 8 * k + 1)] + [BitAt(src, 8 * k + 2)];
    ValueConcat([w[0]], [w[1]]);
    assert Value([w[0]]) == w[0] && Value([w[1]]) == w[1];
    TwoBits(src[k]);
  }

  lemma TwoBits(v: nat)
    ensures v / 2 % 2 + v / 4 % 2 * 2 == v / 2 % 4
  {
    DivDiv(v, 2, 2);
    LowTwo(v / 2);
  }

  lemma LowTwo(q: nat)
    ensures q % 2 + q / 2 % 2 * 2 == q % 4
  {
    var s, t := q / 4, q % 4;
    DivUnique(q, 2, 2 * s + t / 2, t % 2);
    DivUnique(2 * s + t / 2, 2, s, t / 2);
  }

  lemma BitInByte(src: seq<byte>, k: nat, i: nat)
    requires k < |src| && i < 8
    ensures BitAt(src, 8 * k + i) == src[k] / Pow2(i) % 2
  {
    assert (8 * k + i) / 8 == k && (8 * k + i) % 8 == i;
  }

  /** The format reads this stream to its end and its expansion [7] cut at zero bytes is
      empty; the decoder with no room left takes the 7 for the next header, whose block
      type 3 is none, and fails. */
  lemma CutExample()
    ensures var s := ParseStream(TWO_STORED, 0, 0);
            && s.Ok? && s.next == 88 && StreamReaches(s.value, 0) && ExpandStream([], s.value) == [7]
    ensures FirstCut(TWO_STORED, 0, 0, 0) == CutAt(40, 0)
    ensures ScanStream(TWO_STORED, 0, 0, 0) == Malformed
  {
    hide Window, Value, BitAt, Field, ParseBlock, ScanBlock, SizeOfBlock, BlockReaches, ExpandBlock;
    HeaderBits(TWO_STORED, 0);
    HeaderBits(TWO_STORED, 5);
    HeaderBits(TWO_STORED, 6);
    var s0 := StoredAt(TWO_STORED, 3, 1, 1, 0);
    var s1 := StoredAt(TWO_STORED, 51, 7, 0, 1);
    StoredExpands([], s0);
    StoredExpands([7], s1);
    NoRoomExample();
    assert ParseStream(TWO_STORED, 48, 1) == Ok([s1], 88);
    OneBlock([7], s1);
    MoreBlocks([], s0, [s1]);
    CutStream(TWO_STORED, 0, [], [], 0);
  }

  lemma StoredExpands(hist: seq<byte>, b: Block)
    requires b.Stored?
    ensures BlockReaches(b, |hist|) && ExpandBlock(hist, b) == hist + b.data && SizeOfBlock(b) == |b.data|
  {
  }

  /** A stored block whose fields start at byte k. */
  lemma StoredAt(src: seq<byte>, p: nat, k: nat, len: nat, have: nat) returns (b: Block)
    requires Align(p) == 8 * k && k + 4 + len <= |src| && 256 * (src[k + 1] as int) + src[k] == len
    ensures ParseBlock(src, 0, p, have) == Ok(b, 8 * (k + 4 + len))
    ensures b.Stored? && b.data == src[k + 4..k + 4 + len]
  {
    hide Field, Window, ParseFixed, ParseDynamic;
    ShortField(src, k);
    b := ParseBlock(src, 0, p, have).value;
  }

  lemma NoRoomExample()
    ensures ScanStream(TWO_STORED, 40, 0, 0) == Malformed
  {
    hide BitAt, Field, ScanFixed, ScanDynamic, ScanStored;
    HeaderBits(TWO_STORED, 5);
  }

  // ---- the length and distance tables ---------------------------------------------

  /** Consecutive symbols cover consecutive ranges: no length or distance is missing
      and none has two distance encodings. */
  lemma TablesContiguous()
    ensures forall i :: 0 <= i < 27 ==> LEN_BASE[i + 1] == LEN_BASE[i] + Pow2(LEN_EXTRA[i])
    ensures LEN_BASE[0] == 3 && LEN_BASE[27] + Pow2(LEN_EXTRA[27]) == 259 && LEN_BASE[28] == 258
    ensures forall i :: 0 <= i < 29 ==> DIST_BASE[i + 1] == DIST_BASE[i] + Pow2(DIST_EXTRA[i])
    ensures DIST_BASE[0] == 1 && DIST_BASE[29] + Pow2(DIST_EXTRA[29]) == 32769
  {
    assert Pow2(0) == 1 && Pow2(1) == 2 && Pow2(2) == 4 && Pow2(3) == 8 && Pow2(4) == 16 && Pow2(5) == 32;
    assert Pow2(6) == 64 && Pow2(7) == 128 && Pow2(8) == 256 && Pow2(9) == 512 && Pow2(10) == 1024;
    assert Pow2(11) == 2048 && Pow2(12) == 4096 && Pow2(13) == 8192;
  }

  /** Symbol di can express distance d with its extra bits. */
  ghost predicate Expresses(di: nat, d: nat) {
    di < 30 && DIST_BASE[di] <= d < DIST_BASE[di] + Pow2(DIST_EXTRA[di])
  }

  lemma {:induction false} FindDistance(d: nat, i: nat) returns (di: nat)
    requires i < 30 && 1 <= d < DIST_BASE[i] + Pow2(DIST_EXTRA[i])
    ensures Expresses(di, d)
  {
    TablesContiguous();
    if d >= DIST_BASE[i] { di := i; } else { di := FindDistance(d, i - 1); }
  }

  lemma {:induction false} BasesIncrease(i: nat, j: nat)
    requires i < j < 30
    ensures DIST_BASE[i] + Pow2(DIST_EXTRA[i]) <= DIST_BASE[j]
  {
    TablesContiguous();
    if i + 1 < j { BasesIncrease(i, j - 1); }
  }

  /** Every distance from 1 to 32768 has exactly one symbol. */
  lemma DistanceEncodings(d: nat)
    requires 1 <= d <= 32768
    ensures exists di :: Expresses(di, d)
    ensures forall a, b :: Expresses(a, d) && Expresses(b, d) ==> a == b
  {
    TablesContiguous();
    var di := FindDistance(d, 29);
    forall a, b | Expresses(a, d) && Expresses(b, d) ensures a == b {
      if a < b { BasesIncrease(a, b); } else if b < a { BasesIncrease(b, a); }
    }
  }
}
