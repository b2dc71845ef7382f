/** The DEFLATE format of RFC 1951 sections 3.2.3 to 3.2.7: what a block is, which bits
    encode it, which bytes it expands to, and a parser from bits to blocks. */
module Deflate {
  import opened Bits
  import opened Huffman

  const LEN_BASE: seq<nat> := [
    3, 4, 5, 6, 7, 8, 9, 10, 11, 13, 15, 17, 19, 23, 27, 31,
    35, 43, 51, 59, 67, 83, 99, 115, 131, 163, 195, 227, 258]
  const LEN_EXTRA: seq<nat> := [
    0, 0, 0, 0, 0, 0, 0, 0, 1, 1, 1, 1, 2, 2, 2, 2,
    3, 3, 3, 3, 4, 4, 4, 4, 5, 5, 5, 5, 0]
  const DIST_BASE: seq<nat> := [
    1, 2, 3, 4, 5, 7, 9, 13, 17, 25, 33, 49, 65, 97, 129, 193,
    257, 385, 513, 769, 1025, 1537, 2049, 3073, 4097, 6145, 8193, 12289, 16385, 24577]
  const DIST_EXTRA: seq<nat> := [
    0, 0, 0, 0, 1, 1, 2, 2, 3, 3, 4, 4, 5, 5, 6, 6,
    7, 7, 8, 8, 9, 9, 10, 10, 11, 11, 12, 12, 13, 13]
  const CL_ORDER: seq<nat> := [16, 17, 18, 0, 8, 7, 9, 6, 10, 5, 11, 4, 12, 3, 13, 2, 14, 1, 15]

  function Rep(v: nat, n: nat): (r: seq<nat>)
    ensures |r| == n && forall i :: 0 <= i < n ==> r[i] == v
  {
    seq(n, _ => v)
  }

  /** The code lengths of RFC 1951 section 3.2.6. */
  function FixedLen(i: nat): nat {
    if i <= 143 then 8 else if i <= 255 then 9 else if i <= 279 then 7 else 8
  }

  function FixedLit(): seq<nat> { seq(288, i requires i >= 0 => FixedLen(i)) }

  function FixedDist(): seq<nat> { Rep(5, 32) }

  // ---- abstract syntax ------------------------------------------------------------

  /** A literal byte, or a copy given by its length and distance symbols and their
      extra-bit fields. */
  datatype Token = Literal(b: byte) | Match(li: nat, lx: nat, di: nat, dx: nat)
  {
    predicate WellFormed() {
      Match? ==> && li < 29 && lx < Pow2(LEN_EXTRA[li])
                 && di < 30 && dx < Pow2(DIST_EXTRA[di])
    }
    function Length(): nat
      requires Match? && WellFormed()
    {
      LEN_BASE[li] + lx
    }
    function Distance(): (d: nat)
      requires Match? && WellFormed()
      ensures d > 0
    {
      DIST_BASE[di] + dx
    }
    /** Bytes the token adds to the output. */
    function Size(): nat {
      if Literal? then 1 else if WellFormed() then Length() else 0
    }
  }

  /** One code-length operation: symbols 0-15, 16, 17 and 18 of RFC 1951 section 3.2.7. */
  datatype LenOp = Len(l: nat) | RepeatLast(x: nat) | Zeros(x: nat) | ManyZeros(x: nat)
  {
    predicate WellFormed() {
      match this
      case Len(l) => l < 16
      case RepeatLast(x) => x < 4
      case Zeros(x) => x < 8
      case ManyZeros(x) => x < 128
    }
    function Sym(): nat {
      match this
      case Len(l) => l
      case RepeatLast(_) => 16
      case Zeros(_) => 17
      case ManyZeros(_) => 18
    }
    function ExtraBits(): nat {
      match this
      case Len(_) => 0
      case RepeatLast(_) => 2
      case Zeros(_) => 3
      case ManyZeros(_) => 7
    }
    function Extra(): nat {
      if Len? then 0 else x
    }
    /** The lengths after this operation, cut at the announced total. */
    function Apply(acc: seq<nat>, total: nat): (r: seq<nat>)
      requires |acc| < total
      ensures |acc| < |r| <= total && r[..|acc|] == acc
    {
      match this
      case Len(l) => acc + [l]
      case RepeatLast(x) => acc + Rep(if acc == [] then 0 else acc[|acc| - 1], Min(3 + x, total - |acc|))
      case Zeros(x) => acc + Rep(0, Min(3 + x, total - |acc|))
      case ManyZeros(x) => acc + Rep(0, Min(11 + x, total - |acc|))
    }
  }

  datatype Block =
    | Stored(pad: seq<bit>, nlen: nat, data: seq<byte>)
    | Fixed(toks: seq<Token>)
    | Dynamic(h: Trees, toks: seq<Token>)

  /** The header of a dynamic block: alphabet sizes, code-length code, operations. */
  datatype Trees = Trees(hlit: nat, hdist: nat, cl: seq<nat>, ops: seq<LenOp>)

  // ---- expansion ------------------------------------------------------------------

  /** Copy n bytes from distance d back, one at a time, so that a copy may overlap
      the bytes it produces. */
  function Copy(hist: seq<byte>, d: nat, n: nat): (r: seq<byte>)
    requires 0 < d <= |hist|
    ensures |r| == |hist| + n
    decreases n
  {
    if n == 0 then hist else Copy(hist + [hist[|hist| - d]], d, n - 1)
  }

  predicate TokensReach(have: nat, toks: seq<Token>)
    decreases toks
  {
    toks == [] || (
      && toks[0].WellFormed()
      && (toks[0].Match? ==> toks[0].Distance() <= have)
      && TokensReach(have + toks[0].Size(), toks[1..]))
  }

  function ExpandTokens(hist: seq<byte>, toks: seq<Token>): (r: seq<byte>)
    requires TokensReach(|hist|, toks)
    ensures hist <= r && |r| == |hist| + SizeOfTokens(toks)
    decreases toks
  {
    if toks == [] then hist
    else if toks[0].Literal? then ExpandTokens(hist + [toks[0].b], toks[1..])
    else
      CopyExtends(hist, toks[0].Distance(), toks[0].Length());
      ExpandTokens(Copy(hist, toks[0].Distance(), toks[0].Length()), toks[1..])
  }

  lemma {:induction false} CopyExtends(hist: seq<byte>, d: nat, n: nat)
    requires 0 < d <= |hist|
    ensures hist <= Copy(hist, d, n)
    decreases n
  {
    if n > 0 { CopyExtends(hist + [hist[|hist| - d]], d, n - 1); }
  }

  /** RFC 1951 section 3.2.3: a copy that overlaps its own output repeats the last d
      bytes; in general every copied byte equals the one d places before it. */
  lemma {:induction false} CopyMeaning(hist: seq<byte>, d: nat, n: nat, k: nat)
    requires 0 < d <= |hist| && k < n
    ensures Copy(hist, d, n)[|hist| + k] == hist[|hist| - d + k % d]
    ensures Copy(hist, d, n)[|hist| + k] == Copy(hist, d, n)[|hist| + k - d]
    decreases n
  {
    var next := hist + [hist[|hist| - d]];
    CopyExtends(next, d, n - 1);
    CopyExtends(hist, d, n);
    if k == 0 {
      SmallMod(0, d);
    } else {
      CopyMeaning(next, d, n - 1, k - 1);
      ShiftMod(k, d);
      assert next[|next| - d + (k - 1) % d] == hist[|hist| - d + k % d];
    }
  }

  lemma ShiftMod(k: nat, d: nat)
    requires k > 0 && d > 0
    ensures k % d == if (k - 1) % d == d - 1 then 0 else (k - 1) % d + 1
  {
    var q, r := (k - 1) / d, (k - 1) % d;
    assert k - 1 == d * q + r;
    if r == d - 1 {
      MulDistribute(d, q, 1);
      DivUnique(k, d, q + 1, 0);
    } else {
      DivUnique(k, d, q, r + 1);
    }
  }

  function SizeOfTokens(toks: seq<Token>): nat {
    if toks == [] then 0 else toks[0].Size() + SizeOfTokens(toks[1..])
  }

  function SizeOfBlock(b: Block): nat {
    if b.Stored? then |b.data| else SizeOfTokens(b.toks)
  }

  predicate BlockReaches(b: Block, have: nat) {
    !b.Stored? ==> TokensReach(have, b.toks)
  }

  function ExpandBlock(hist: seq<byte>, b: Block): (r: seq<byte>)
    requires BlockReaches(b, |hist|)
    ensures hist <= r && |r| == |hist| + SizeOfBlock(b)
  {
    if b.Stored? then hist + b.data else ExpandTokens(hist, b.toks)
  }

  function SizeOfStream(bs: seq<Block>): nat {
    if bs == [] then 0 else SizeOfBlock(bs[0]) + SizeOfStream(bs[1..])
  }

  /** Every copy of the stream stays inside the output produced before it. */
  predicate StreamReaches(bs: seq<Block>, have: nat) {
    bs == [] || (BlockReaches(bs[0], have) && StreamReaches(bs[1..], have + SizeOfBlock(bs[0])))
  }

  /** The bytes a list of blocks stands for, after those already produced. */
  function ExpandStream(hist: seq<byte>, bs: seq<Block>): (r: seq<byte>)
    requires StreamReaches(bs, |hist|)
    ensures hist <= r && |r| == |hist| + SizeOfStream(bs)
    decreases bs
  {
    if bs == [] then hist else ExpandStream(ExpandBlock(hist, bs[0]), bs[1..])
  }

  // ---- encoding -------------------------------------------------------------------

  /** The token has codewords for its symbols and fits its fields. */
  predicate TokenCodable(t: Token, lit: seq<nat>, dist: seq<nat>) {
    && t.WellFormed()
    && match t
       case Literal(b) => HasCode(lit, b)
       case Match(li, _, di, _) => HasCode(lit, 257 + li) && HasCode(dist, di)
  }

  function EncodeToken(t: Token, lit: seq<nat>, dist: seq<nat>): seq<bit>
    requires ValidLens(lit) && ValidLens(dist) && TokenCodable(t, lit, dist)
  {
    match t
    case Literal(b) => Codeword(lit, b)
    case Match(li, lx, di, dx) =>
      Codeword(lit, 257 + li) + LsbBits(lx, LEN_EXTRA[li]) + Codeword(dist, di) + LsbBits(dx, DIST_EXTRA[di])
  }

  predicate TokensCodable(toks: seq<Token>, lit: seq<nat>, dist: seq<nat>) {
    && HasCode(lit, 256)
    && forall i :: 0 <= i < |toks| ==> TokenCodable(toks[i], lit, dist)
  }

  function EncodeTokens(toks: seq<Token>, lit: seq<nat>, dist: seq<nat>): seq<bit>
    requires ValidLens(lit) && ValidLens(dist) && TokensCodable(toks, lit, dist)
  {
    if toks == [] then Codeword(lit, 256)
    else EncodeToken(toks[0], lit, dist) + EncodeTokens(toks[1..], lit, dist)
  }

  predicate OpsCodable(ops: seq<LenOp>, cl: seq<nat>) {
    forall i :: 0 <= i < |ops| ==> ops[i].WellFormed() && HasCode(cl, ops[i].Sym())
  }

  function EncodeOps(ops: seq<LenOp>, cl: seq<nat>): seq<bit>
    requires ValidLens(cl) && OpsCodable(ops, cl)
  {
    if ops == [] then []
    else Codeword(cl, ops[0].Sym()) + LsbBits(ops[0].Extra(), ops[0].ExtraBits()) + EncodeOps(ops[1..], cl)
  }

  /** The operations produce exactly `total` lengths, the last one reaching the total. */
  predicate OpsFill(ops: seq<LenOp>, total: nat, acc: seq<nat>)
    requires |acc| <= total
    decreases ops
  {
    if ops == [] then |acc| == total
    else |acc| < total && OpsFill(ops[1..], total, ops[0].Apply(acc, total))
  }

  function OpsLens(ops: seq<LenOp>, total: nat, acc: seq<nat>): (r: seq<nat>)
    requires |acc| <= total && OpsFill(ops, total, acc)
    ensures |r| == total
    decreases ops
  {
    if ops == [] then acc else OpsLens(ops[1..], total, ops[0].Apply(acc, total))
  }

  /** Where the i-th transmitted code-length code length belongs. */
  function ClPlace(i: nat): (j: nat)
    requires i < 19
    ensures j < 19
  {
    CL_ORDER[i]
  }

  /** Code-length code lengths from their transmitted order. */
  function ClLens(raw: seq<nat>): (r: seq<nat>)
    requires |raw| <= 19
    ensures |r| == 19
  {
    if raw == [] then Rep(0, 19)
    else ClLens(raw[..|raw| - 1])[ClPlace(|raw| - 1) := raw[|raw| - 1]]
  }

  function EncodeFields(vs: seq<nat>, n: nat): seq<bit> {
    if vs == [] then [] else EncodeFields(vs[..|vs| - 1], n) + LsbBits(vs[|vs| - 1], n)
  }

  function Align(p: nat): nat { (p + 7) / 8 * 8 }

  /** Everything about a dynamic header that makes its trees well defined. */
  predicate TreesValid(h: Trees) {
    && 257 <= h.hlit <= 288 && 1 <= h.hdist <= 32
    && 4 <= |h.cl| <= 19 && (forall i :: 0 <= i < |h.cl| ==> h.cl[i] < 8)
    && Codable(ClLens(h.cl)) && OpsCodable(h.ops, ClLens(h.cl))
    && TreesCodable(h)
  }

  function LitLens(h: Trees): (r: seq<nat>)
    requires OpsFill(h.ops, h.hlit + h.hdist, [])
    ensures |r| == h.hlit
  {
    OpsLens(h.ops, h.hlit + h.hdist, [])[..h.hlit]
  }

  function DistLens(h: Trees): (r: seq<nat>)
    requires OpsFill(h.ops, h.hlit + h.hdist, [])
    ensures |r| == h.hdist
  {
    OpsLens(h.ops, h.hlit + h.hdist, [])[h.hlit..]
  }

  predicate FixedValid(toks: seq<Token>, have: nat) {
    TokensCodable(toks, FixedLit(), FixedDist()) && TokensReach(have, toks)
  }

  predicate DynamicValid(h: Trees, toks: seq<Token>, have: nat) {
    TreesValid(h) && TokensCodable(toks, LitLens(h), DistLens(h)) && TokensReach(have, toks)
  }

  predicate BlockValid(b: Block, at: nat, have: nat) {
    match b
    case Stored(pad, nlen, data) => |pad| == Align(at) - at && nlen < 65536 && |data| < 65536
    case Fixed(toks) => FixedValid(toks, have)
    case Dynamic(h, toks) => DynamicValid(h, toks, have)
  }

  function BlockType(b: Block): nat {
    match b case Stored(_, _, _) => 0 case Fixed(_) => 1 case Dynamic(_, _) => 2
  }

  /** The bits of a block after its three header bits. */
  function EncodeBody(b: Block, at: nat, have: nat): seq<bit>
    requires BlockValid(b, at, have)
  {
    match b
    case Stored(pad, nlen, data) =>
      pad + LsbBits(|data|, 16) + LsbBits(nlen, 16) + EncodeFields(data, 8)
    case Fixed(toks) => EncodeFixed(toks, have)
    case Dynamic(h, toks) => EncodeDynamic(h, toks, have)
  }

  function EncodeFixed(toks: seq<Token>, have: nat): seq<bit>
    requires FixedValid(toks, have)
  {
    FixedCodable();
    EncodeTokens(toks, FixedLit(), FixedDist())
  }

  function EncodeDynamic(h: Trees, toks: seq<Token>, have: nat): seq<bit>
    requires DynamicValid(h, toks, have)
  {
    EncodeTrees(h) + EncodeTokens(toks, LitLens(h), DistLens(h))
  }

  function EncodeTrees(h: Trees): seq<bit>
    requires TreesValid(h)
  {
    LsbBits(h.hlit - 257, 5) + LsbBits(h.hdist - 1, 5) + LsbBits(|h.cl| - 4, 4)
    + EncodeFields(h.cl, 3) + EncodeOps(h.ops, ClLens(h.cl))
  }

  /** Position after a block whose first header bit is at `at`. */
  function BlockEnd(b: Block, at: nat, have: nat): nat
    requires BlockValid(b, at + 3, have)
  {
    at + 3 + |EncodeBody(b, at + 3, have)|
  }

  /** `at` is the stream position of the first header bit, `have` the bytes already
      produced. */
  predicate StreamValid(bs: seq<Block>, at: nat, have: nat)
    decreases bs
  {
    && bs != []
    && BlockValid(bs[0], at + 3, have)
    && (|bs| > 1 ==> StreamValid(bs[1..], BlockEnd(bs[0], at, have), have + SizeOfBlock(bs[0])))
  }

  function Header(final: bool, t: nat): (w: seq<bit>)
    ensures |w| == 3
  {
    [if final then 1 else 0] + LsbBits(t, 2)
  }

  /** The whole stream: each block with its final flag and type in front. */
  function EncodeStream(bs: seq<Block>, at: nat, have: nat): seq<bit>
    requires StreamValid(bs, at, have)
    decreases bs
  {
    Header(|bs| == 1, BlockType(bs[0])) + EncodeBody(bs[0], at + 3, have)
    + if |bs| == 1 then []
      else EncodeStream(bs[1..], BlockEnd(bs[0], at, have), have + SizeOfBlock(bs[0]))
  }

  // ---- the fixed code -------------------------------------------------------------

  lemma {:induction false} KraftOfRun(a: seq<nat>, l: nat, n: nat, i: nat)
    requires ValidLens(a) && l <= MAX_BITS && i <= n && |a| + n <= |a + Rep(l, n)|
    requires ValidLens(a + Rep(l, n))
    ensures KraftUpTo(a + Rep(l, n), |a| + i) == Kraft(a) + i * Weight(l)
  {
    var s := a + Rep(l, n);
    if i == 0 {
      KraftOfPrefix(a, Rep(l, n), |a|);
    } else {
      KraftOfRun(a, l, n, i - 1);
      MulDistributeRight(i - 1, 1, Weight(l));
    }
  }

  lemma {:induction false} KraftOfPrefix(a: seq<nat>, b: seq<nat>, i: nat)
    requires ValidLens(a) && ValidLens(a + b) && i <= |a|
    ensures KraftUpTo(a + b, i) == KraftUpTo(a, i)
  {
    if i > 0 { KraftOfPrefix(a, b, i - 1); }
  }

  lemma KraftAppend(a: seq<nat>, l: nat, n: nat)
    requires ValidLens(a) && l <= MAX_BITS
    ensures ValidLens(a + Rep(l, n)) && Kraft(a + Rep(l, n)) == Kraft(a) + n * Weight(l)
  {
    KraftOfRun(a, l, n, n);
  }

  /** The fixed code of RFC 1951 section 3.2.6 is complete: its Kraft sum is exactly 1. */
  lemma FixedCodable()
    ensures Codable(FixedLit()) && Codable(FixedDist())
    ensures Kraft(FixedLit()) == FULL && Kraft(FixedDist()) == FULL
    ensures |FixedLit()| == 288 && |FixedDist()| == 32
  {
    FullValue();
    FixedWeights();
    KraftAppend([], 8, 144);
    KraftAppend([] + Rep(8, 144), 9, 112);
    KraftAppend([] + Rep(8, 144) + Rep(9, 112), 7, 24);
    KraftAppend([] + Rep(8, 144) + Rep(9, 112) + Rep(7, 24), 8, 8);
    KraftAppend([], 5, 32);
    assert FixedLit() == [] + Rep(8, 144) + Rep(9, 112) + Rep(7, 24) + Rep(8, 8);
    assert FixedDist() == [] + Rep(5, 32);
  }

  lemma FixedWeights()
    ensures Weight(5) == 1024 && Weight(7) == 256 && Weight(8) == 128 && Weight(9) == 64
  {
    Pow2Add(5, 5);
    assert Pow2(5) == 32;
    assert Pow2(6) == 64 && Pow2(7) == 128 && Pow2(8) == 256;
  }

  // ---- parsing --------------------------------------------------------------------

  /** Ok with the position after the value; Malformed for what the format forbids and
      the decoder reports; Undefined for streams that are cut off, that describe an
      over-subscribed code, or that copy from before the start of the output. */
  datatype Parsed<+T> = Ok(value: T, next: nat) | Malformed | Undefined

  function Field(src: seq<byte>, p: nat, n: nat): nat { Value(Window(src, p, n)) }

  function Prepend<T>(t: T, r: Parsed<seq<T>>): (v: Parsed<seq<T>>)
    ensures r.Ok? ==> v.Ok? && v.next == r.next && |v.value| > 0 && v.value[0] == t && v.value[1..] == r.value
    ensures !r.Ok? ==> v == r
  {
    if r.Ok? then Ok([t] + r.value, r.next) else r
  }

  datatype Item = End | Tok(t: Token)

  /** The length of a copy is known; parse its distance. */
  function ParseDistance(src: seq<byte>, q: nat, dist: map<seq<bit>, nat>, li: nat, lx: nat,
                         have: nat): (r: Parsed<Item>)
    requires li < 29 && lx < Pow2(LEN_EXTRA[li])
    ensures r.Ok? ==> && q < r.next <= 8 * |src| && r.value.Tok? && r.value.t.Match?
                      && r.value.t.WellFormed() && r.value.t.Distance() <= have
  {
    match DecodeSymbol(dist, src, q)
    case NoSym => Malformed
    case Sym(di, m) =>
      if di > 29 then Malformed
      else
        var t := Match(li, lx, di, Field(src, q + m, DIST_EXTRA[di]));
        var q2 := q + m + DIST_EXTRA[di];
        if q2 > 8 * |src| || t.Distance() > have then Undefined else Ok(Tok(t), q2)
  }

  function ParseItem(src: seq<byte>, p: nat, lit: map<seq<bit>, nat>, dist: map<seq<bit>, nat>,
                     have: nat): (r: Parsed<Item>)
    ensures r.Ok? ==> p < r.next <= 8 * |src|
    ensures r.Ok? && r.value.Tok? ==> TokensReach(have, [r.value.t])
  {
    match DecodeSymbol(lit, src, p)
    case NoSym => Malformed
    case Sym(s, n) =>
      if s > 285 then Malformed
      else if p + n > 8 * |src| then Undefined
      else if s < 256 then Ok(Tok(Literal(s)), p + n)
      else if s == 256 then Ok(End, p + n)
      else
        var x := LEN_EXTRA[s - 257];
        ParseDistance(src, p + n + x, dist, s - 257, Field(src, p + n, x), have)
  }

  function ParseTokens(src: seq<byte>, p: nat, lit: map<seq<bit>, nat>, dist: map<seq<bit>, nat>,
                       have: nat): (r: Parsed<seq<Token>>)
    ensures r.Ok? ==> p < r.next <= 8 * |src|
    decreases 8 * |src| - p
  {
    match ParseItem(src, p, lit, dist, have)
    case Malformed => Malformed
    case Undefined => Undefined
    case Ok(End, q) => Ok([], q)
    case Ok(Tok(t), q) => Prepend(t, ParseTokens(src, q, lit, dist, have + t.Size()))
  }

  lemma {:induction false} ParsedTokensReach(src: seq<byte>, p: nat, lit: map<seq<bit>, nat>, dist: map<seq<bit>, nat>,
        have: nat)
    requires ParseTokens(src, p, lit, dist, have).Ok?
    ensures TokensReach(have, ParseTokens(src, p, lit, dist, have).value)
    decreases 8 * |src| - p
  {
    hide ParseItem;
    var Ok(it, q) := ParseItem(src, p, lit, dist, have);
    if it.Tok? { ParsedTokensReach(src, q, lit, dist, have + it.t.Size()); }
  }

  function OpOf(s: nat, x: nat): LenOp {
    if s < 16 then Len(s) else if s == 16 then RepeatLast(x) else if s == 17 then Zeros(x) else ManyZeros(x)
  }

  function OpBits(s: nat): nat {
    if s < 16 then 0 else if s == 16 then 2 else if s == 17 then 3 else 7
  }

  function ParseOps(src: seq<byte>, p: nat, cl: map<seq<bit>, nat>, total: nat, acc: seq<nat>): (r: Parsed<seq<LenOp>>)
    requires |acc| <= total
    ensures r.Ok? ==> p <= r.next
    decreases total - |acc|
  {
    if |acc| == total then Ok([], p)
    else
      match DecodeSymbol(cl, src, p)
      case NoSym => Malformed
      case Sym(s, n) =>
        var q := p + n + OpBits(s);
        if q > 8 * |src| then Undefined
        else
          var op := OpOf(s, Field(src, p + n, OpBits(s)));
          Prepend(op, ParseOps(src, q, cl, total, op.Apply(acc, total)))
  }

  function ParseFields(src: seq<byte>, p: nat, n: nat, k: nat): (r: seq<nat>)
    ensures |r| == k && forall i :: 0 <= i < k ==> r[i] < Pow2(n)
  {
    if k == 0 then [] else ParseFields(src, p, n, k - 1) + [Field(src, p + n * (k - 1), n)]
  }

  function ParseStored(src: seq<byte>, p: nat): Parsed<Block>
  {
    var k := Align(p) / 8;
    if k + 4 > |src| then Malformed
    else
      var len := Field(src, 8 * k, 16);
      if k + 4 + len > |src| then Undefined
      else Ok(Stored(Window(src, p, 8 * k - p), Field(src, 8 * k + 16, 16), src[k + 4..k + 4 + len]), 8 * (k + 4 + len))
  }

  /** The code lengths of both trees, once the code-length code is known. */
  function ParseLens(src: seq<byte>, p: nat, hlit: nat, hdist: nat, cl: seq<nat>): (r: Parsed<Trees>)
    requires |cl| <= 19 && forall i :: 0 <= i < |cl| ==> cl[i] < 8
    ensures r.Ok? ==> p <= r.next && TreesCodable(r.value)
  {
    ClLensValid(cl);
    if Kraft(ClLens(cl)) > FULL then Undefined
    else
      match ParseOps(src, p, Codes(ClLens(cl)), hlit + hdist, [])
      case Malformed => Malformed
      case Undefined => Undefined
      case Ok(ops, q) =>
        CheckTrees(Trees(hlit, hdist, cl, ops), q)
  }

  predicate TreesCodable(h: Trees) {
    OpsFill(h.ops, h.hlit + h.hdist, []) && Codable(LitLens(h)) && Codable(DistLens(h))
  }

  function CheckTrees(h: Trees, q: nat): (r: Parsed<Trees>)
    ensures r.Ok? ==> r == Ok(h, q) && TreesCodable(h)
  {
    if TreesCodable(h) then Ok(h, q) else Undefined
  }

  function ParseTrees(src: seq<byte>, p: nat): (r: Parsed<Trees>)
    ensures r.Ok? ==> p <= r.next && TreesCodable(r.value)
  {
    var hclen := Field(src, p + 10, 4) + 4;
    assert Pow2(4) == 16;
    var q := p + 14 + 3 * hclen;
    if q > 8 * |src| then Undefined
    else ParseLens(src, q, Field(src, p, 5) + 257, Field(src, p + 5, 5) + 1, ParseFields(src, p + 14, 3, hclen))
  }

  function AsFixed(r: Parsed<seq<Token>>): (v: Parsed<Block>)
    ensures v.Ok? ==> r.Ok? && v == Ok(Fixed(r.value), r.next)
    ensures r.Ok? ==> v.Ok?
  {
    match r
    case Malformed => Malformed
    case Undefined => Undefined
    case Ok(toks, next) => Ok(Fixed(toks), next)
  }

  function AsDynamic(h: Trees, r: Parsed<seq<Token>>): (v: Parsed<Block>)
    ensures v.Ok? ==> r.Ok? && v == Ok(Dynamic(h, r.value), r.next)
    ensures r.Ok? ==> v.Ok?
  {
    match r
    case Malformed => Malformed
    case Undefined => Undefined
    case Ok(toks, next) => Ok(Dynamic(h, toks), next)
  }

  function ParseFixed(src: seq<byte>, p: nat, have: nat): Parsed<Block>
  {
    FixedCodable();
    AsFixed(ParseTokens(src, p, Codes(FixedLit()), Codes(FixedDist()), have))
  }

  function ParseDynamic(src: seq<byte>, p: nat, have: nat): Parsed<Block>
  {
    match ParseTrees(src, p)
    case Malformed => Malformed
    case Undefined => Undefined
    case Ok(h, q) => AsDynamic(h, ParseTokens(src, q, Codes(LitLens(h)), Codes(DistLens(h)), have))
  }

  /** The block after the three header bits. */
  function ParseBlock(src: seq<byte>, t: nat, p: nat, have: nat): Parsed<Block>
  {
    if t == 0 then ParseStored(src, p)
    else if t == 1 then ParseFixed(src, p, have)
    else if t == 2 then ParseDynamic(src, p, have)
    else Malformed
  }

  lemma BlockAdvances(src: seq<byte>, t: nat, p: nat, have: nat)
    requires ParseBlock(src, t, p, have).Ok?
    ensures p <= ParseBlock(src, t, p, have).next <= 8 * |src|
  {
    hide ParseTokens, ParseTrees, Codes, Field, Window, FixedLit, FixedDist, OpsFill, Kraft;
    FixedCodable();
  }

  function ParseStream(src: seq<byte>, p: nat, have: nat): Parsed<seq<Block>>
    decreases 8 * |src| - p
  {
    if p + 3 > 8 * |src| then Undefined
    else
      match ParseBlock(src, Field(src, p + 1, 2), p + 3, have)
      case Malformed => Malformed
      case Undefined => Undefined
      case Ok(b, q) =>
        BlockAdvances(src, Field(src, p + 1, 2), p + 3, have);
        if BitAt(src, p) == 1 then Ok([b], q)
        else Prepend(b, ParseStream(src, q, have + SizeOfBlock(b)))
  }

  lemma {:induction false} ClLensValid(raw: seq<nat>)
    requires |raw| <= 19 && forall i :: 0 <= i < |raw| ==> raw[i] < 8
    ensures ValidLens(ClLens(raw))
  {
    if raw != [] { ClLensValid(raw[..|raw| - 1]); }
  }
}
