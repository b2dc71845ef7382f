/** Two compressed streams given byte by byte, and the bytes they stand for. */
module DeflateExamples {
  import opened Bits
  import opened Huffman
  import opened Deflate
  import opened DeflateFormat
  import opened InflateTheorem

  // ---- reading literal bytes ------------------------------------------------------------

  /** A field inside two bytes. */
  lemma WordField(src: seq<byte>, k: nat, i: nat, n: nat)
    requires k + 1 < |src| && i + n <= 16
    ensures Field(src, 8 * k + i, n) == (src[k] + 256 * (src[k + 1] as int)) / Pow2(i) % Pow2(n)
  {
    hide BitAt, Window, Value, Pow2;
    var w, p := src[k] + 256 * (src[k + 1] as int), 8 * k + i;
    var a, b, c := Window(src, 8 * k, i), Window(src, p, n), Window(src, p + n, 16 - i - n);
    assert Window(src, 8 * k, 16) == a + (b + c) by {
      WindowSplit(src, 8 * k, i, 16 - i);
      WindowSplit(src, p, n, 16 - i - n);
    }
    assert Value(a + (b + c)) == w by { ShortField(src, k); }
    CutValue(a, b, c, w);
  }

  lemma CutValue(a: seq<bit>, b: seq<bit>, c: seq<bit>, w: nat)
    requires Value(a + (b + c)) == w
    ensures Value(b) == w / Pow2(|a|) % Pow2(|b|)
  {
    ValueSplit(a, b + c);
    ValueSplit(b, c);
  }

  lemma ByteBits(src: seq<byte>, k: nat)
    requires k < |src|
    ensures BitAt(src, 8 * k) == src[k] % 2 && BitAt(src, 8 * k + 1) == src[k] / 2 % 2
    ensures BitAt(src, 8 * k + 2) == src[k] / 4 % 2 && BitAt(src, 8 * k + 3) == src[k] / 8 % 2
    ensures BitAt(src, 8 * k + 4) == src[k] / 16 % 2 && BitAt(src, 8 * k + 5) == src[k] / 32 % 2
    ensures BitAt(src, 8 * k + 6) == src[k] / 64 % 2 && BitAt(src, 8 * k + 7) == src[k] / 128 % 2
  {
    hide BitAt;
    SmallPowers();
    BitInByte(src, k, 0);
    BitInByte(src, k, 1);
    BitInByte(src, k, 2);
    BitInByte(src, k, 3);
    BitInByte(src, k, 4);
    BitInByte(src, k, 5);
    BitInByte(src, k, 6);
    BitInByte(src, k, 7);
  }

  lemma SmallPowers()
    ensures Pow2(0) == 1 && Pow2(1) == 2 && Pow2(2) == 4 && Pow2(3) == 8 && Pow2(4) == 16 && Pow2(5) == 32
    ensures Pow2(6) == 64 && Pow2(7) == 128 && Pow2(8) == 256
  {
  }

  // ---- a block in the fixed codes ---------------------------------------------------------

  const ONE_LITERAL: seq<byte> := [0x4B, 0x04, 0x00]

  lemma FixedBits()
    ensures BitAt(ONE_LITERAL, 0) == 1 && Field(ONE_LITERAL, 1, 2) == 1
    ensures Window(ONE_LITERAL, 3, 8) == [1, 0, 0, 1, 0, 0, 0, 1]
    ensures Window(ONE_LITERAL, 11, 7) == [0, 0, 0, 0, 0, 0, 0]
  {
    hide BitAt, Field;
    HeaderBits(ONE_LITERAL, 0);
    ByteBits(ONE_LITERAL, 0);
    ByteBits(ONE_LITERAL, 1);
    ByteBits(ONE_LITERAL, 2);
  }

  lemma FixedExample()
    ensures ParseStream(ONE_LITERAL, 0, 0) == Ok([Fixed([Literal(0x61)])], 18)
    ensures StreamReaches([Fixed([Literal(0x61)])], 0) && ExpandStream([], [Fixed([Literal(0x61)])]) == [0x61]
  {
    hide Window, Value, BitAt, Field, Codes, Kraft, FixedLit, FixedDist, Codeword, DecodeSymbol;
    FixedBits();
    FixedCodewords(0x61);
    FixedCodewords(256);
    FixedLiterals();
    var lit, dist := Codes(FixedLit()), Codes(FixedDist());
    DecodeExactly(FixedLit(), ONE_LITERAL, 3, 0x61);
    DecodeExactly(FixedLit(), ONE_LITERAL, 11, 256);
    assert ParseItem(ONE_LITERAL, 11, lit, dist, 1) == Ok(End, 18);
    assert ParseItem(ONE_LITERAL, 3, lit, dist, 0) == Ok(Tok(Literal(0x61)), 11);
    assert ParseTokens(ONE_LITERAL, 11, lit, dist, 1) == Ok([], 18);
    assert ParseTokens(ONE_LITERAL, 3, lit, dist, 0) == Prepend(Literal(0x61), Ok([], 18));
    assert [Literal(0x61)] + [] == [Literal(0x61)];
  }

  lemma FixedLiterals()
    ensures MsbBits(145, 8) == [1, 0, 0, 1, 0, 0, 0, 1] && MsbBits(0, 7) == [0, 0, 0, 0, 0, 0, 0]
    ensures FixedLit()[0x61] == 8 && FixedLit()[256] == 7
  {
  }

  // ---- a block with its own codes ---------------------------------------------------------

  /** A dynamic block: 259 literal and length codes, one distance code and 18 code-length
      code lengths, of which those of 18, 0, 2 and 1 are 2. */
  const FIVE_TIMES: seq<byte> := [21, 192, 1, 9, 0, 0, 0, 128, 160, 173, 254, 63, 17, 105, 1]

  const RAW_CL: seq<nat> := [0, 0, 2, 2, 0, 0, 0, 0, 0, 0, 0, 0, 0, 0, 0, 2, 0, 2]

  lemma DynamicHeader()
    ensures BitAt(FIVE_TIMES, 0) == 1 && Field(FIVE_TIMES, 1, 2) == 2
    ensures Field(FIVE_TIMES, 3, 5) == 2 && Field(FIVE_TIMES, 8, 5) == 0 && Field(FIVE_TIMES, 13, 4) == 14
  {
    hide BitAt, Field;
    HeaderBits(FIVE_TIMES, 0);
    WordField(FIVE_TIMES, 0, 3, 5);
    WordField(FIVE_TIMES, 1, 0, 5);
    WordField(FIVE_TIMES, 1, 5, 4);
    SmallPowers();
  }

  /** The i-th three-bit field of the code-length code. */
  lemma RawField(i: nat)
    requires i < 18
    ensures Field(FIVE_TIMES, 17 + 3 * i, 3) == RAW_CL[i]
  {
    hide Field, Pow2;
    WordField(FIVE_TIMES, (17 + 3 * i) / 8, (17 + 3 * i) % 8, 3);
    SmallPowers();
  }

  lemma {:induction false} RawFields(k: nat)
    requires k <= 18
    ensures ParseFields(FIVE_TIMES, 17, 3, k) == RAW_CL[..k]
  {
    hide Field;
    if k > 0 {
      RawFields(k - 1);
      RawField(k - 1);
      assert RAW_CL[..k] == RAW_CL[..k - 1] + [RAW_CL[k - 1]];
    }
  }

  const CL: seq<nat> := [2, 2, 2] + Rep(0, 15) + [2]

  lemma CodeLengths()
    ensures ClLens(RAW_CL) == CL
  {
    hide ClLens;
    forall s | 0 <= s < 19 ensures ClLens(RAW_CL)[s] == CL[s] { CodeLengthOrder(RAW_CL, s); }
  }

  lemma CodeLengthCodable()
    ensures Codable(CL)
  {
    hide Weight, FULL;
    TwoBitCodes();
    KraftRun(CL, 0, 3, 2);
    KraftRun(CL, 3, 18, 0);
    KraftRun(CL, 18, 19, 2);
  }

  lemma CodeLengthCode()
    ensures ClLens(RAW_CL) == CL && Codable(CL)
    ensures Codeword(CL, 0) == [0, 0] && Codeword(CL, 1) == [0, 1]
    ensures Codeword(CL, 2) == [1, 0] && Codeword(CL, 18) == [1, 1]
  {
    hide Weight, Code, MsbBits, FULL, Kraft, ClLens;
    CodeLengths();
    CodeLengthCodable();
    TwoBitCodes();
    CountRun(CL, 2, 0, 1, 2);
    CountRun(CL, 2, 0, 2, 2);
    CountRun(CL, 2, 0, 3, 2);
    CountRun(CL, 2, 3, 18, 0);
    CountRun(CL, 1, 0, 3, 2);
    CountRun(CL, 1, 3, 18, 0);
    CountRun(CL, 1, 18, 19, 2);
    CountingIsCanonical(CL, 0);
    CountingIsCanonical(CL, 1);
    CountingIsCanonical(CL, 2);
    CountingIsCanonical(CL, 18);
  }

  lemma TwoBitCodes()
    ensures MsbBits(0, 2) == [0, 0] && MsbBits(1, 2) == [0, 1] && MsbBits(2, 2) == [1, 0] && MsbBits(3, 2) == [1, 1]
    ensures MsbBits(0, 1) == [0]
    ensures FULL == 32768 && Weight(0) == 0 && Weight(1) == 16384 && Weight(2) == 8192
  {
    FullValue();
  }

  /** From bit p on the operations `ops` complete the lengths `acc` to `lens`. */
  ghost predicate Completes(p: nat, acc: seq<nat>, ops: seq<LenOp>, lens: seq<nat>) {
    && Codable(CL) && |acc| <= 260 && ParseOps(FIVE_TIMES, p, Codes(CL), 260, acc) == Ok(ops, 108)
    && OpsFill(ops, 260, acc) && OpsLens(ops, 260, acc) == lens
  }

  lemma OpStep(p: nat, s: nat, x: nat, acc: seq<nat>, now: seq<nat>, ops: seq<LenOp>, lens: seq<nat>)
    requires |acc| < 260 && s < 19 && Codable(CL) && CL[s] == 2 && Window(FIVE_TIMES, p, 2) == Codeword(CL, s)
    requires p + 2 + OpBits(s) <= 120 && Field(FIVE_TIMES, p + 2, OpBits(s)) == x && OpOf(s, x).Apply(acc, 260) == now
    requires ops != [] && ops[0] == OpOf(s, x) && Completes(p + 2 + OpBits(s), now, ops[1..], lens)
    ensures Completes(p, acc, ops, lens)
  {
    hide Window, Field, Codeword, Codes, Codable;
    DecodeExactly(CL, FIVE_TIMES, p, s);
    assert [ops[0]] + ops[1..] == ops;
  }

  lemma OpBitsRead()
    ensures Window(FIVE_TIMES, 71, 2) == [1, 1] && Field(FIVE_TIMES, 73, 7) == 86 && Window(FIVE_TIMES, 80, 2) == [0, 1]
    ensures Window(FIVE_TIMES, 82, 2) == [1, 1] && Field(FIVE_TIMES, 84, 7) == 127
    ensures Window(FIVE_TIMES, 91, 2) == [1, 1] && Field(FIVE_TIMES, 93, 7) == 9
    ensures Window(FIVE_TIMES, 100, 2) == [1, 0] && Window(FIVE_TIMES, 102, 2) == [0, 0]
    ensures Window(FIVE_TIMES, 104, 2) == [1, 0] && Window(FIVE_TIMES, 106, 2) == [0, 1]
  {
    hide BitAt, Field;
    SmallPowers();
    WordField(FIVE_TIMES, 9, 1, 7);
    WordField(FIVE_TIMES, 10, 4, 7);
    WordField(FIVE_TIMES, 11, 5, 7);
    ByteBits(FIVE_TIMES, 8);
    ByteBits(FIVE_TIMES, 9);
    ByteBits(FIVE_TIMES, 10);
    ByteBits(FIVE_TIMES, 11);
    ByteBits(FIVE_TIMES, 12);
    ByteBits(FIVE_TIMES, 13);
  }

  const OPS: seq<LenOp> := [
    ManyZeros(86), Len(1), ManyZeros(127), ManyZeros(9), Len(2), Len(0), Len(2), Len(1)]
  const LIT: seq<nat> := Rep(0, 97) + [1] + Rep(0, 158) + [2, 0, 2]

  lemma OperationsRead()
    ensures Completes(71, [], OPS, LIT + [1])
  {
    hide Window, Field, Completes, Codeword;
    CodeLengthCode();
    OpBitsRead();
    var all := LIT + [1];
    NoField(82);
    NoField(102);
    NoField(104);
    NoField(106);
    NoField(108);
    LastOp(all);
    assert OPS[8..] == [];
    assert forall j :: 0 <= j < 8 ==> OPS[j..][1..] == OPS[j + 1..];
    OpStep(106, 1, 0, all[..259], all, OPS[7..], all);
    OpStep(104, 2, 0, all[..258], all[..259], OPS[6..], all);
    OpStep(102, 0, 0, all[..257], all[..258], OPS[5..], all);
    OpStep(100, 2, 0, all[..256], all[..257], OPS[4..], all);
    OpStep(91, 18, 9, all[..236], all[..256], OPS[3..], all);
    OpStep(82, 18, 127, all[..98], all[..236], OPS[2..], all);
    OpStep(80, 1, 0, all[..97], all[..98], OPS[1..], all);
    OpStep(71, 18, 86, [], all[..97], OPS, all);
  }

  lemma LastOp(all: seq<nat>)
    requires |all| == 260 && Codable(CL)
    ensures Completes(108, all, [], all)
  {
  }

  lemma NoField(p: nat)
    ensures Field(FIVE_TIMES, p, 0) == 0
  {
  }

  lemma LiteralCode()
    ensures Codable(LIT) && Codable([1]) && Codeword([1], 0) == [0]
    ensures Codeword(LIT, 0x61) == [0] && Codeword(LIT, 256) == [1, 0] && Codeword(LIT, 258) == [1, 1]
  {
    hide Weight, Code, MsbBits, FULL, FirstCode;
    TwoBitCodes();
    KraftRun(LIT, 0, 97, 0);
    KraftRun(LIT, 97, 98, 1);
    KraftRun(LIT, 98, 256, 0);
    KraftRun(LIT, 256, 257, 2);
    KraftRun(LIT, 257, 258, 0);
    KraftRun(LIT, 258, 259, 2);
    KraftRun([1], 0, 1, 1);
    LiteralCounts();
    CountingIsCanonical(LIT, 0x61);
    CountingIsCanonical(LIT, 256);
    CountingIsCanonical(LIT, 258);
    CountingIsCanonical([1], 0);
  }

  lemma LiteralCounts()
    ensures CountUpTo(LIT, 1, 0x61) == 0 && CountUpTo(LIT, 2, 256) == 0 && CountUpTo(LIT, 2, 258) == 1
    ensures FirstCode(LIT, 1) == 0 && FirstCode(LIT, 2) == 2 && FirstCode([1], 1) == 0 && CountUpTo([1], 1, 0) == 0
  {
    CountRun(LIT, 1, 0, 97, 0);
    CountRun(LIT, 1, 97, 98, 1);
    CountRun(LIT, 1, 98, 256, 0);
    CountRun(LIT, 1, 256, 257, 2);
    CountRun(LIT, 1, 257, 258, 0);
    CountRun(LIT, 1, 258, 259, 2);
    CountRun(LIT, 2, 0, 97, 0);
    CountRun(LIT, 2, 97, 98, 1);
    CountRun(LIT, 2, 98, 256, 0);
    CountRun(LIT, 2, 256, 257, 2);
    CountRun(LIT, 2, 257, 258, 0);
  }

  const TOKS: seq<Token> := [Literal(0x61), Match(1, 0, 0, 0)]

  lemma TokenBits()
    ensures Window(FIVE_TIMES, 108, 1) == [0] && Window(FIVE_TIMES, 109, 2) == [1, 1]
    ensures Window(FIVE_TIMES, 111, 1) == [0] && Window(FIVE_TIMES, 112, 2) == [1, 0]
  {
    hide BitAt;
    ByteBits(FIVE_TIMES, 13);
    ByteBits(FIVE_TIMES, 14);
  }

  lemma ItemsParse()
    ensures Codable(LIT) && Codable([1])
    ensures var lit, dist := Codes(LIT), Codes([1]);
            && ParseItem(FIVE_TIMES, 108, lit, dist, 0) == Ok(Tok(Literal(0x61)), 109)
            && ParseItem(FIVE_TIMES, 109, lit, dist, 1) == Ok(Tok(Match(1, 0, 0, 0)), 112)
            && ParseItem(FIVE_TIMES, 112, lit, dist, 5) == Ok(End, 114)
  {
    hide Window, BitAt, Codes, Kraft, Codeword, DecodeSymbol, Field;
    LiteralCode();
    TokenBits();
    NoField(111);
    NoField(112);
    DecodeExactly(LIT, FIVE_TIMES, 108, 0x61);
    DecodeExactly(LIT, FIVE_TIMES, 109, 258);
    DecodeExactly([1], FIVE_TIMES, 111, 0);
    DecodeExactly(LIT, FIVE_TIMES, 112, 256);
  }

  lemma TokensParse()
    ensures Codable(LIT) && Codable([1])
    ensures ParseTokens(FIVE_TIMES, 108, Codes(LIT), Codes([1]), 0) == Ok(TOKS, 114)
  {
    hide ParseItem, Codes, Codable;
    ItemsParse();
    var lit, dist, t := Codes(LIT), Codes([1]), Match(1, 0, 0, 0);
    assert t.Size() == 4 by { assert Pow2(0) == 1 && t.WellFormed(); }
    assert ParseTokens(FIVE_TIMES, 112, lit, dist, 5) == Ok([], 114);
    assert ParseTokens(FIVE_TIMES, 109, lit, dist, 1) == Prepend(t, Ok([], 114));
    assert [t] + [] == [t] && [Literal(0x61)] + [t] == TOKS;
  }

  const HEADER: Trees := Trees(259, 1, RAW_CL, OPS)

  lemma HeaderTrees()
    ensures TreesCodable(HEADER) && LitLens(HEADER) == LIT && DistLens(HEADER) == [1]
  {
    hide Codes, ParseOps, OpsFill, OpsLens, Kraft;
    OperationsRead();
    LiteralCode();
    assert (LIT + [1])[..259] == LIT && (LIT + [1])[259..] == [1];
  }

  lemma LensParse()
    ensures forall i :: 0 <= i < |RAW_CL| ==> RAW_CL[i] < 8
    ensures ParseLens(FIVE_TIMES, 71, 259, 1, RAW_CL) == Ok(HEADER, 108)
  {
    hide Codes, ParseOps, ParseLens, TreesCodable, OpsFill, OpsLens, Kraft, ClLens;
    CodeLengthCode();
    OperationsRead();
    HeaderTrees();
    LensFromOps(FIVE_TIMES, 71, HEADER, CL, 108);
  }

  lemma LensFromOps(src: seq<byte>, p: nat, h: Trees, cl: seq<nat>, q: nat)
    requires |h.cl| <= 19 && (forall i :: 0 <= i < |h.cl| ==> h.cl[i] < 8) && ClLens(h.cl) == cl && Codable(cl)
    requires ParseOps(src, p, Codes(cl), h.hlit + h.hdist, []) == Ok(h.ops, q) && TreesCodable(h)
    ensures ParseLens(src, p, h.hlit, h.hdist, h.cl) == Ok(h, q)
  {
    hide Codes, ParseOps, TreesCodable, Kraft, ClLens;
  }

  lemma TreesParse()
    ensures ParseTrees(FIVE_TIMES, 3) == Ok(HEADER, 108)
  {
    hide Field, ParseLens, TreesCodable, ParseFields;
    DynamicHeader();
    RawFields(18);
    assert RAW_CL[..18] == RAW_CL;
    LensParse();
  }

  /** A literal "a" and a copy of length 4 at distance 1, in codes that the
      header sends in the permuted order, stand for "aaaaa". */
  lemma DynamicExample()
    ensures var b := Dynamic(HEADER, TOKS);
            && ParseStream(FIVE_TIMES, 0, 0) == Ok([b], 114)
            && StreamReaches([b], 0) && ExpandStream([], [b]) == [0x61, 0x61, 0x61, 0x61, 0x61]
  {
    hide Window, Field, BitAt, ParseTrees, ParseTokens, OpsFill, LitLens, DistLens, TreesCodable, Codes, Kraft;
    DynamicHeader();
    TreesParse();
    HeaderTrees();
    TokensParse();
    var b := Dynamic(HEADER, TOKS);
    FiveBytes();
    OneBlock([], b);
  }

  lemma FiveBytes()
    ensures TokensReach(0, TOKS) && ExpandTokens([], TOKS) == [0x61, 0x61, 0x61, 0x61, 0x61]
  {
    var t := Match(1, 0, 0, 0);
    assert Pow2(0) == 1 && t.WellFormed() && t.Length() == 4 && t.Distance() == 1;
    FourCopies();
    assert TOKS[1..] == [t] && [t][1..] == [] && [] + [0x61 as byte] == [0x61];
    assert TokensReach(1, [t]);
    assert ExpandTokens([0x61], [t]) == ExpandTokens(Copy([0x61], 1, 4), []);
  }

  lemma FourCopies()
    ensures Copy([0x61], 1, 4) == [0x61, 0x61, 0x61, 0x61, 0x61]
  {
    assert Copy([0x61, 0x61, 0x61, 0x61, 0x61], 1, 0) == [0x61, 0x61, 0x61, 0x61, 0x61];
    assert Copy([0x61, 0x61, 0x61, 0x61], 1, 1) == Copy([0x61, 0x61, 0x61, 0x61, 0x61], 1, 0);
    assert Copy([0x61, 0x61, 0x61], 1, 2) == Copy([0x61, 0x61, 0x61, 0x61], 1, 1);
    assert Copy([0x61, 0x61], 1, 3) == Copy([0x61, 0x61, 0x61], 1, 2);
    assert Copy([0x61], 1, 4) == Copy([0x61, 0x61], 1, 3);
  }
}
