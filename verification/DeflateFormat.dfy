/** The tables of RFC 1951 stated outright: fixed codewords, the order and meaning of the
    code-length symbols, and the extra bits of lengths and distances. */
module DeflateFormat {
  import opened Bits
  import opened Huffman
  import opened Deflate

  // ---- code lengths given by runs ---------------------------------------------------

  lemma {:induction false} CountRun(lens: seq<nat>, l: nat, i: nat, j: nat, v: nat)
    requires i <= j <= |lens| && forall k :: i <= k < j ==> lens[k] == v
    ensures CountUpTo(lens, l, j) == CountUpTo(lens, l, i) + if v == l then j - i else 0
  {
    if i < j { CountRun(lens, l, i, j - 1, v); }
  }

  lemma {:induction false} KraftRun(lens: seq<nat>, i: nat, j: nat, v: nat)
    requires ValidLens(lens) && i <= j <= |lens| && v <= MAX_BITS && forall k :: i <= k < j ==> lens[k] == v
    ensures KraftUpTo(lens, j) == KraftUpTo(lens, i) + (j - i) * Weight(v)
  {
    hide Weight, Pow2;
    if i < j {
      KraftRun(lens, i, j - 1, v);
      var w := Weight(v);
      MulDistributeRight(j - 1 - i, 1, w);
      assert KraftUpTo(lens, j) == KraftUpTo(lens, j - 1) + w;
    }
  }

  // ---- the fixed codes ----------------------------------------------------------------

  /** How many of the first i fixed code lengths are l. */
  function FixedCount(l: nat, i: nat): int {
    if l == 7 then (if i <= 256 then 0 else if i <= 280 then i - 256 else 24)
    else if l == 8 then (if i <= 144 then i else if i <= 280 then 144 else i - 136)
    else if l == 9 then (if i <= 144 then 0 else if i <= 256 then i - 144 else 112)
    else 0
  }

  lemma {:induction false} FixedCounts(l: nat, i: nat)
    requires i <= 288 && 0 < l
    ensures CountUpTo(FixedLit(), l, i) == FixedCount(l, i)
  {
    if i > 0 { FixedCounts(l, i - 1); }
  }

  lemma {:induction false} NothingShorter(l: nat)
    requires l <= 7
    ensures FirstCode(FixedLit(), l) == 0
  {
    if l > 1 {
      NothingShorter(l - 1);
      FixedCounts(l - 1, 288);
    }
  }

  lemma FixedFirstCodes()
    ensures FirstCode(FixedLit(), 7) == 0 && FirstCode(FixedLit(), 8) == 48 && FirstCode(FixedLit(), 9) == 400
  {
    NothingShorter(7);
    FixedCounts(7, 288);
    FixedCounts(8, 288);
  }

  /** RFC 1951 section 3.2.6: literals 0 to 143 are 00110000 to 10111111, 144 to 255 are
      110010000 to 111111111, 256 to 279 are 0000000 to 0010111 and 280 to 287 are 11000000
      to 11000111; distances are plain five-bit numbers. */
  lemma FixedCodewords(s: nat)
    requires s < 288
    ensures HasCode(FixedLit(), s) && Codable(FixedLit()) && Codable(FixedDist())
    ensures s <= 143 ==> Codeword(FixedLit(), s) == MsbBits(48 + s, 8)
    ensures 144 <= s <= 255 ==> Codeword(FixedLit(), s) == MsbBits(400 + (s - 144), 9)
    ensures 256 <= s <= 279 ==> Codeword(FixedLit(), s) == MsbBits(s - 256, 7)
    ensures 280 <= s ==> Codeword(FixedLit(), s) == MsbBits(192 + (s - 280), 8)
    ensures s < 32 ==> HasCode(FixedDist(), s) && Codeword(FixedDist(), s) == MsbBits(s, 5)
  {
    hide Kraft, MsbBits, Code, CountUpTo, FirstCode, Weight;
    FixedCodable();
    CountingIsCanonical(FixedLit(), s);
    FixedFirstCodes();
    FixedCounts(FixedLit()[s], s);
    if s < 32 { FixedDistance(s); }
  }

  lemma FixedDistance(s: nat)
    requires s < 32
    ensures Codable(FixedDist()) && Codeword(FixedDist(), s) == MsbBits(s, 5)
  {
    hide Kraft, MsbBits, Code;
    var d := FixedDist();
    FixedCodable();
    CountingIsCanonical(d, s);
    CountRun(d, 5, 0, s, 5);
    forall l | 0 < l < 5 ensures CountUpTo(d, l, 32) == 0 { CountRun(d, l, 0, 32, 5); }
    assert FirstCode(d, 2) == 0 && FirstCode(d, 3) == 0 && FirstCode(d, 4) == 0;
  }

  // ---- the dynamic header -------------------------------------------------------------

  /** RFC 1951 section 3.2.7: at which place of the header the length for symbol s is sent. */
  const SENT_AT: seq<nat> := [3, 17, 15, 13, 11, 9, 7, 5, 4, 6, 8, 10, 12, 14, 16, 18, 0, 1, 2]

  lemma {:induction false} CodeLengthOrder(raw: seq<nat>, s: nat)
    requires |raw| <= 19 && s < 19
    ensures ClLens(raw)[s] == if SENT_AT[s] < |raw| then raw[SENT_AT[s]] else 0
  {
    hide ClPlace;
    if raw != [] {
      var i := |raw| - 1;
      CodeLengthOrder(raw[..i], s);
      SentOnce(i, s);
      var before := ClLens(raw[..i]);
      assert ClLens(raw) == before[ClPlace(i) := raw[i]];
    }
  }

  lemma SentOnce(i: nat, s: nat)
    requires i < 19 && s < 19
    ensures ClPlace(i) == s <==> SENT_AT[s] == i
  {
    assert ClPlace(SENT_AT[s]) == s;
    assert SENT_AT[ClPlace(i)] == i;
  }

  /** RFC 1951 section 3.2.7: after the lengths `acc`, symbols up to 15 are a length, 16
      repeats the last one 3 to 6 times, 17 is 3 to 10 zeros and 18 is 11 to 138 zeros, as
      their 2, 3 and 7 extra bits say; what exceeds the announced total is dropped. */
  lemma CodeLengthSymbols(src: seq<byte>, p: nat, s: nat, acc: seq<nat>, total: nat)
    requires |acc| < total && s < 19
    ensures var op, room := OpOf(s, Field(src, p, OpBits(s))), total - |acc|;
            && (s < 16 ==> OpBits(s) == 0 && op.Apply(acc, total) == acc + [s])
            && (s == 16 ==>
                  var last := if acc == [] then 0 else acc[|acc| - 1];
                  OpBits(s) == 2 && op.Apply(acc, total) == acc + Rep(last, Min(3 + Field(src, p, 2), room)))
            && (s == 17 ==> OpBits(s) == 3 && op.Apply(acc, total) == acc + Rep(0, Min(3 + Field(src, p, 3), room)))
            && (s == 18 ==> OpBits(s) == 7 && op.Apply(acc, total) == acc + Rep(0, Min(11 + Field(src, p, 7), room)))
  {
  }

  /** The three run operations on their own. */
  lemma RunLengths(v: nat, x: nat)
    ensures OpsFill([Len(v), RepeatLast(x)], 4 + x, []) && OpsLens([Len(v), RepeatLast(x)], 4 + x, []) == Rep(v, 4 + x)
    ensures OpsFill([Zeros(x)], 3 + x, []) && OpsLens([Zeros(x)], 3 + x, []) == Rep(0, 3 + x)
    ensures OpsFill([ManyZeros(x)], 11 + x, []) && OpsLens([ManyZeros(x)], 11 + x, []) == Rep(0, 11 + x)
  {
    OneOp(Zeros(x), 3 + x, [], Rep(0, 3 + x));
    OneOp(ManyZeros(x), 11 + x, [], Rep(0, 11 + x));
    OneOp(RepeatLast(x), 4 + x, [v], Rep(v, 4 + x));
    var ops := [Len(v), RepeatLast(x)];
    assert ops[1..] == [RepeatLast(x)] && Len(v).Apply([], 4 + x) == [v];
  }

  lemma OneOp(op: LenOp, total: nat, acc: seq<nat>, all: seq<nat>)
    requires |acc| < total && op.Apply(acc, total) == all && |all| == total
    ensures OpsFill([op], total, acc) && OpsLens([op], total, acc) == all
  {
    assert [op][1..] == [];
  }

  // ---- the length and distance symbols -------------------------------------------------

  /** RFC 1951 section 3.2.5: how many extra bits each symbol has. */
  lemma ExtraBitCounts(i: nat)
    ensures i < 28 ==> LEN_EXTRA[i] == if i < 8 then 0 else (i - 4) / 4
    ensures LEN_EXTRA[28] == 0
    ensures i < 30 ==> DIST_EXTRA[i] == if i < 4 then 0 else (i - 2) / 2
  {
  }
}
