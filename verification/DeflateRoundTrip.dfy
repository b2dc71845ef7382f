/** The parser accepts exactly the encodings: a stream parses to a block list if and
    only if it starts with the bits of that list. */
module DeflateRoundTrip {
  import opened Bits
  import opened Huffman
  import opened Deflate

  /** The stream carries the bits w at position p, all inside the buffer. */
  ghost predicate Spells(src: seq<byte>, p: nat, w: seq<bit>) {
    p + |w| <= 8 * |src| && Window(src, p, |w|) == w
  }

  lemma SpellsConcat(src: seq<byte>, p: nat, a: seq<bit>, b: seq<bit>)
    ensures Spells(src, p, a + b) <==> Spells(src, p, a) && Spells(src, p + |a|, b)
  {
    WindowSplit(src, p, |a|, |b|);
    var u, v := Window(src, p, |a|), Window(src, p + |a|, |b|);
    if Window(src, p, |a + b|) == a + b {
      assert u == (u + v)[..|a|] == (a + b)[..|a|] == a;
      assert v == (u + v)[|a|..] == (a + b)[|a|..] == b;
    }
  }

  /** A field reads v exactly when the stream spells the low bits of v. */
  lemma FieldReads(src: seq<byte>, p: nat, n: nat, v: nat)
    requires v < Pow2(n) && p + n <= 8 * |src|
    ensures Field(src, p, n) == v <==> Spells(src, p, LsbBits(v, n))
  {
    ValueOfLsbBits(v, n);
    LsbBitsOfValue(Window(src, p, n));
  }

  /** A symbol decodes exactly when the stream spells its codeword. */
  lemma SymbolReads(src: seq<byte>, p: nat, lens: seq<nat>, s: nat, n: nat)
    requires Codable(lens) && p + n <= 8 * |src|
    ensures DecodeSymbol(Codes(lens), src, p) == Sym(s, n)
            <==> HasCode(lens, s) && n == lens[s] && Spells(src, p, Codeword(lens, s))
  {
    if HasCode(lens, s) {
      DecodeExactly(lens, src, p, s);
    }
    if DecodeSymbol(Codes(lens), src, p) == Sym(s, n) {
      FindCodeSound(Codes(lens), src, p, 1);
      CodesSound(lens, |lens|, Window(src, p, n));
    }
  }

  // ---- tokens ---------------------------------------------------------------------

  /** The distance half of a copy. */
  lemma DistanceReads(src: seq<byte>, q: nat, dist: seq<nat>, t: Token, have: nat, next: nat)
    requires Codable(dist) && t.Match? && t.WellFormed()
    ensures ParseDistance(src, q, Codes(dist), t.li, t.lx, have) == Ok(Tok(t), next)
      <==> && HasCode(dist, t.di) && t.Distance() <= have
           && next == q + dist[t.di] + DIST_EXTRA[t.di]
           && Spells(src, q, Codeword(dist, t.di)) && Spells(src, q + dist[t.di], LsbBits(t.dx, DIST_EXTRA[t.di]))
  {
    hide Spells, Codes, Codeword, Window, ValidLens, Kraft, Pow2, LsbBits, DecodeSymbol, Field;
    var d := DecodeSymbol(Codes(dist), src, q);
    if d.Sym? && d.sym == t.di && q + d.size + DIST_EXTRA[t.di] <= 8 * |src| {
      SymbolReads(src, q, dist, t.di, d.size);
      FieldReads(src, q + d.size, DIST_EXTRA[t.di], t.dx);
    }
    if HasCode(dist, t.di) && Spells(src, q, Codeword(dist, t.di))
      && Spells(src, q + dist[t.di], LsbBits(t.dx, DIST_EXTRA[t.di])) {
      SpellsInside(src, q, Codeword(dist, t.di));
      SpellsInside(src, q + dist[t.di], LsbBits(t.dx, DIST_EXTRA[t.di]));
      SymbolReads(src, q, dist, t.di, dist[t.di]);
      FieldReads(src, q + dist[t.di], DIST_EXTRA[t.di], t.dx);
    }
  }

  lemma SpellsEmpty(src: seq<byte>, p: nat)
    requires p <= 8 * |src|
    ensures Spells(src, p, [])
  {
  }

  lemma SpellsInside(src: seq<byte>, p: nat, w: seq<bit>)
    requires Spells(src, p, w)
    ensures p + |w| <= 8 * |src|
  {
  }

  /** The stream carries one item and continues at `next`. */
  ghost predicate SpellsItem(src: seq<byte>, p: nat, next: nat, it: Item, lit: seq<nat>, dist: seq<nat>, have: nat)
    requires ValidLens(lit) && ValidLens(dist)
  {
    match it
    case End => HasCode(lit, 256) && next == p + lit[256] && Spells(src, p, Codeword(lit, 256))
    case Tok(t) =>
      && TokenCodable(t, lit, dist) && (t.Match? ==> t.Distance() <= have)
      && Spells(src, p, EncodeToken(t, lit, dist)) && next == p + |EncodeToken(t, lit, dist)|
  }

  lemma LiteralReads(src: seq<byte>, p: nat, next: nat, it: Item, lit: seq<nat>, dist: seq<nat>, have: nat)
    requires Codable(lit) && Codable(dist) && (it.Tok? ==> it.t.Literal?)
    ensures ParseItem(src, p, Codes(lit), Codes(dist), have) == Ok(it, next)
      <==> SpellsItem(src, p, next, it, lit, dist, have)
  {
    hide Spells, Codes, Codeword, Window, ValidLens, Kraft, Pow2, LsbBits, DecodeSymbol, Field;
    var s := if it.End? then 256 else it.t.b;
    var d := DecodeSymbol(Codes(lit), src, p);
    if d.Sym? && p + d.size <= 8 * |src| { SymbolReads(src, p, lit, s, d.size); }
    if HasCode(lit, s) && Spells(src, p, Codeword(lit, s)) {
      SpellsInside(src, p, Codeword(lit, s));
      SymbolReads(src, p, lit, s, lit[s]);
    }
  }

  lemma MatchReads(src: seq<byte>, p: nat, next: nat, t: Token, lit: seq<nat>, dist: seq<nat>, have: nat)
    requires Codable(lit) && Codable(dist) && t.Match?
    ensures ParseItem(src, p, Codes(lit), Codes(dist), have) == Ok(Tok(t), next)
      <==> SpellsItem(src, p, next, Tok(t), lit, dist, have)
  {
    if ParseItem(src, p, Codes(lit), Codes(dist), have) == Ok(Tok(t), next) {
      MatchSound(src, p, next, t, lit, dist, have);
    }
    if SpellsItem(src, p, next, Tok(t), lit, dist, have) { MatchComplete(src, p, next, t, lit, dist, have); }
  }

  /** What a parsed match is made of. */
  lemma MatchParts(src: seq<byte>, p: nat, next: nat, t: Token, lit: map<seq<bit>, nat>, dist: map<seq<bit>, nat>,
                   have: nat)
    requires t.Match? && ParseItem(src, p, lit, dist, have) == Ok(Tok(t), next)
    ensures t.WellFormed()
    ensures var d, x := DecodeSymbol(lit, src, p), LEN_EXTRA[t.li];
            && d.Sym? && d.sym == 257 + t.li && p + d.size <= 8 * |src| && p + d.size + x <= 8 * |src|
            && t.lx == Field(src, p + d.size, x)
            && ParseDistance(src, p + d.size + x, dist, t.li, t.lx, have) == Ok(Tok(t), next)
  {
    hide Window, Pow2, DecodeSymbol, Value;
  }

  lemma MatchSound(src: seq<byte>, p: nat, next: nat, t: Token, lit: seq<nat>, dist: seq<nat>, have: nat)
    requires Codable(lit) && Codable(dist) && t.Match?
    requires ParseItem(src, p, Codes(lit), Codes(dist), have) == Ok(Tok(t), next)
    ensures SpellsItem(src, p, next, Tok(t), lit, dist, have)
  {
    hide Spells, Codes, Codeword, Window, ValidLens, Kraft, Pow2, LsbBits, DecodeSymbol, Field, ParseItem,
      ParseDistance;
    MatchParts(src, p, next, t, Codes(lit), Codes(dist), have);
    var n := DecodeSymbol(Codes(lit), src, p).size;
    var s, x := 257 + t.li, LEN_EXTRA[t.li];
    SymbolReads(src, p, lit, s, n);
    FieldReads(src, p + n, x, t.lx);
    DistanceReads(src, p + n + x, dist, t, have, next);
    SpellsFour(src, p, Codeword(lit, s), LsbBits(t.lx, x), Codeword(dist, t.di), LsbBits(t.dx, DIST_EXTRA[t.di]));
  }

  lemma MatchComplete(src: seq<byte>, p: nat, next: nat, t: Token, lit: seq<nat>, dist: seq<nat>, have: nat)
    requires Codable(lit) && Codable(dist) && t.Match?
    requires SpellsItem(src, p, next, Tok(t), lit, dist, have)
    ensures ParseItem(src, p, Codes(lit), Codes(dist), have) == Ok(Tok(t), next)
  {
    hide Spells, Codes, Codeword, Window, ValidLens, Kraft, Pow2, LsbBits, DecodeSymbol, Field;
    var s, x := 257 + t.li, LEN_EXTRA[t.li];
    SpellsInside(src, p, EncodeToken(t, lit, dist));
    SpellsFour(src, p, Codeword(lit, s), LsbBits(t.lx, x), Codeword(dist, t.di), LsbBits(t.dx, DIST_EXTRA[t.di]));
    SymbolReads(src, p, lit, s, lit[s]);
    FieldReads(src, p + lit[s], x, t.lx);
    DistanceReads(src, p + lit[s] + x, dist, t, have, next);
  }

  lemma SpellsFour(src: seq<byte>, p: nat, a: seq<bit>, b: seq<bit>, c: seq<bit>, d: seq<bit>)
    ensures Spells(src, p, a + b + c + d)
            <==> Spells(src, p, a) && Spells(src, p + |a|, b) && Spells(src, p + |a| + |b|, c)
                 && Spells(src, p + |a| + |b| + |c|, d)
  {
    SpellsConcat(src, p, a, b);
    SpellsConcat(src, p, a + b, c);
    SpellsConcat(src, p, a + b + c, d);
  }

  ghost predicate SpellsTokens(src: seq<byte>, p: nat, q: nat, toks: seq<Token>, lit: seq<nat>, dist: seq<nat>,
                               have: nat)
    requires ValidLens(lit) && ValidLens(dist)
  {
    && TokensCodable(toks, lit, dist) && TokensReach(have, toks)
    && Spells(src, p, EncodeTokens(toks, lit, dist))
    && q == p + |EncodeTokens(toks, lit, dist)|
  }

  /** An item of any kind parses exactly from its encoding. */
  lemma ItemReads(src: seq<byte>, p: nat, next: nat, it: Item, lit: seq<nat>, dist: seq<nat>, have: nat)
    requires Codable(lit) && Codable(dist)
    ensures ParseItem(src, p, Codes(lit), Codes(dist), have) == Ok(it, next)
            <==> SpellsItem(src, p, next, it, lit, dist, have)
  {
    hide ParseItem, SpellsItem, Codes;
    if it.End? || it.t.Literal? { LiteralReads(src, p, next, it, lit, dist, have); }
    else { MatchReads(src, p, next, it.t, lit, dist, have); }
  }

  /** A token list is its first token and the rest. */
  lemma SpellsFirst(src: seq<byte>, p: nat, q: nat, r: nat, t: Token, rest: seq<Token>, lit: seq<nat>, dist: seq<nat>,
                    have: nat)
    requires ValidLens(lit) && ValidLens(dist) && SpellsItem(src, p, q, Tok(t), lit, dist, have)
    ensures SpellsTokens(src, p, r, [t] + rest, lit, dist, have)
            <==> SpellsTokens(src, q, r, rest, lit, dist, have + t.Size())
  {
    hide Spells, Codeword, ValidLens, EncodeToken;
    var toks := [t] + rest;
    assert toks[0] == t && toks[1..] == rest;
    assert TokensCodable(rest, lit, dist) <==> TokensCodable(toks, lit, dist) by { RestCodable(t, rest, lit, dist); }
    if TokensCodable(rest, lit, dist) {
      SpellsConcat(src, p, EncodeToken(t, lit, dist), EncodeTokens(rest, lit, dist));
    }
  }

  lemma RestCodable(t: Token, rest: seq<Token>, lit: seq<nat>, dist: seq<nat>)
    requires TokenCodable(t, lit, dist)
    ensures TokensCodable(rest, lit, dist) <==> TokensCodable([t] + rest, lit, dist)
  {
    var toks := [t] + rest;
    hide TokenCodable;
    if TokensCodable(rest, lit, dist) {
      forall i | 0 <= i < |toks| ensures TokenCodable(toks[i], lit, dist) { assert i > 0 ==> toks[i] == rest[i - 1]; }
    }
    if TokensCodable(toks, lit, dist) {
      forall i | 0 <= i < |rest| ensures TokenCodable(rest[i], lit, dist) { assert rest[i] == toks[i + 1]; }
    }
  }

  /** The first token of a spelled list is spelled. */
  lemma SpellsHead(src: seq<byte>, p: nat, q: nat, toks: seq<Token>, lit: seq<nat>, dist: seq<nat>, have: nat)
    requires ValidLens(lit) && ValidLens(dist) && SpellsTokens(src, p, q, toks, lit, dist, have) && toks != []
    ensures TokenCodable(toks[0], lit, dist)
            && SpellsItem(src, p, p + |EncodeToken(toks[0], lit, dist)|, Tok(toks[0]), lit, dist, have)
  {
    hide Spells, Codeword, ValidLens, EncodeToken;
    SpellsConcat(src, p, EncodeToken(toks[0], lit, dist), EncodeTokens(toks[1..], lit, dist));
  }

  lemma SpellsLast(src: seq<byte>, p: nat, q: nat, lit: seq<nat>, dist: seq<nat>, have: nat)
    requires ValidLens(lit) && ValidLens(dist)
    ensures SpellsTokens(src, p, q, [], lit, dist, have) <==> SpellsItem(src, p, q, End, lit, dist, have)
  {
    hide Spells;
  }

  lemma {:induction false} TokensComplete(src: seq<byte>, p: nat, q: nat, toks: seq<Token>, lit: seq<nat>,
                                          dist: seq<nat>, have: nat)
    requires Codable(lit) && Codable(dist) && SpellsTokens(src, p, q, toks, lit, dist, have)
    ensures ParseTokens(src, p, Codes(lit), Codes(dist), have) == Ok(toks, q)
    decreases |toks|
  {
    hide SpellsTokens, SpellsItem, Codes, Kraft, ParseItem, EncodeToken, ValidLens;
    if toks == [] {
      SpellsLast(src, p, q, lit, dist, have);
      ItemReads(src, p, q, End, lit, dist, have);
    } else {
      var t, rest := toks[0], toks[1..];
      assert toks == [t] + rest;
      SpellsHead(src, p, q, toks, lit, dist, have);
      var n := p + |EncodeToken(t, lit, dist)|;
      SpellsFirst(src, p, n, q, t, rest, lit, dist, have);
      ItemReads(src, p, n, Tok(t), lit, dist, have);
      TokensComplete(src, n, q, rest, lit, dist, have + t.Size());
    }
  }

  lemma {:induction false} TokensSound(src: seq<byte>, p: nat, lit: seq<nat>, dist: seq<nat>, have: nat)
    requires Codable(lit) && Codable(dist)
    requires ParseTokens(src, p, Codes(lit), Codes(dist), have).Ok?
    ensures var r := ParseTokens(src, p, Codes(lit), Codes(dist), have);
            SpellsTokens(src, p, r.next, r.value, lit, dist, have)
    decreases 8 * |src| - p
  {
    hide SpellsTokens, SpellsItem, Codes, Kraft, ParseItem, ValidLens;
    var r := ParseTokens(src, p, Codes(lit), Codes(dist), have);
    var Ok(it, q) := ParseItem(src, p, Codes(lit), Codes(dist), have);
    ItemReads(src, p, q, it, lit, dist, have);
    if it.End? {
      SpellsLast(src, p, q, lit, dist, have);
    } else {
      TokensSound(src, q, lit, dist, have + it.t.Size());
      assert r.value == [it.t] + r.value[1..];
      SpellsFirst(src, p, q, r.next, it.t, r.value[1..], lit, dist, have);
    }
  }

  /** The token list of a block parses exactly from its encoding. */
  lemma TokensRead(src: seq<byte>, p: nat, q: nat, toks: seq<Token>, lit: seq<nat>, dist: seq<nat>, have: nat)
    requires Codable(lit) && Codable(dist)
    ensures ParseTokens(src, p, Codes(lit), Codes(dist), have) == Ok(toks, q)
      <==> SpellsTokens(src, p, q, toks, lit, dist, have)
  {
    hide ParseTokens, Spells, EncodeTokens, Codes, Kraft;
    if ParseTokens(src, p, Codes(lit), Codes(dist), have) == Ok(toks, q) { TokensSound(src, p, lit, dist, have); }
    if SpellsTokens(src, p, q, toks, lit, dist, have) { TokensComplete(src, p, q, toks, lit, dist, have); }
  }

  // ---- code lengths ---------------------------------------------------------------

  ghost predicate SpellsOps(src: seq<byte>, p: nat, q: nat, ops: seq<LenOp>, cl: seq<nat>, total: nat, acc: seq<nat>)
    requires ValidLens(cl) && |acc| <= total
  {
    && OpsCodable(ops, cl) && OpsFill(ops, total, acc)
    && Spells(src, p, EncodeOps(ops, cl)) && q == p + |EncodeOps(ops, cl)|
  }

  /** One operation: its codeword, then its extra bits. */
  lemma OpReads(src: seq<byte>, p: nat, cl: seq<nat>, op: LenOp, n: nat)
    requires Codable(cl) && |cl| == 19 && p + n + op.ExtraBits() <= 8 * |src|
    ensures && DecodeSymbol(Codes(cl), src, p) == Sym(op.Sym(), n)
            && OpOf(op.Sym(), Field(src, p + n, OpBits(op.Sym()))) == op
            && OpBits(op.Sym()) == op.ExtraBits()
      <==> && op.WellFormed() && HasCode(cl, op.Sym()) && n == cl[op.Sym()]
           && Spells(src, p, Codeword(cl, op.Sym())) && Spells(src, p + n, LsbBits(op.Extra(), op.ExtraBits()))
  {
    hide Spells, Codes, Codeword, Window, ValidLens, Kraft, DecodeSymbol, Field;
    assert Pow2(0) == 1 && Pow2(2) == 4 && Pow2(3) == 8 && Pow2(7) == 128;
    SymbolReads(src, p, cl, op.Sym(), n);
    FieldSmall(src, p + n, op.ExtraBits());
    if op.WellFormed() { FieldReads(src, p + n, op.ExtraBits(), op.Extra()); }
  }

  lemma FieldSmall(src: seq<byte>, p: nat, n: nat)
    ensures Field(src, p, n) < Pow2(n)
  {
  }

  ghost predicate SpellsOp(src: seq<byte>, p: nat, q: nat, op: LenOp, cl: seq<nat>)
    requires ValidLens(cl)
  {
    && op.WellFormed() && HasCode(cl, op.Sym()) && q == p + cl[op.Sym()] + op.ExtraBits()
    && Spells(src, p, Codeword(cl, op.Sym())) && Spells(src, p + cl[op.Sym()], LsbBits(op.Extra(), op.ExtraBits()))
  }

  /** What the parser sees at p is the operation the bits spell. */
  ghost predicate SeesOp(src: seq<byte>, p: nat, q: nat, op: LenOp, cl: map<seq<bit>, nat>) {
    && DecodeSymbol(cl, src, p).Sym?
    && var d := DecodeSymbol(cl, src, p);
       q == p + d.size + OpBits(d.sym) && q <= 8 * |src| && op == OpOf(d.sym, Field(src, p + d.size, OpBits(d.sym)))
  }

  lemma OpSeen(src: seq<byte>, p: nat, q: nat, op: LenOp, cl: seq<nat>)
    requires Codable(cl) && |cl| == 19
    ensures SeesOp(src, p, q, op, Codes(cl)) <==> SpellsOp(src, p, q, op, cl)
  {
    hide Spells, Codes, Codeword, Window, ValidLens, Kraft, DecodeSymbol, Field, LsbBits, Pow2;
    if SeesOp(src, p, q, op, Codes(cl)) {
      var d := DecodeSymbol(Codes(cl), src, p);
      SymbolReads(src, p, cl, d.sym, d.size);
      OpReads(src, p, cl, op, d.size);
    }
    if SpellsOp(src, p, q, op, cl) {
      SpellsInside(src, p + cl[op.Sym()], LsbBits(op.Extra(), op.ExtraBits()));
      OpReads(src, p, cl, op, cl[op.Sym()]);
    }
  }

  /** An operation list is its first operation and the rest. */
  lemma SpellsFirstOp(src: seq<byte>, p: nat, q: nat, r: nat, op: LenOp, rest: seq<LenOp>, cl: seq<nat>, total: nat,
                      acc: seq<nat>)
    requires ValidLens(cl) && |acc| < total && SpellsOp(src, p, q, op, cl)
    ensures SpellsOps(src, p, r, [op] + rest, cl, total, acc)
            <==> SpellsOps(src, q, r, rest, cl, total, op.Apply(acc, total))
  {
    hide Spells, Codeword, ValidLens, LsbBits, LenOp.Apply, LenOp.Sym, LenOp.Extra, LenOp.ExtraBits, LenOp.WellFormed;
    var ops := [op] + rest;
    assert ops[0] == op && ops[1..] == rest;
    RestOpsCodable(op, rest, cl);
    var a, b := Codeword(cl, op.Sym()), LsbBits(op.Extra(), op.ExtraBits());
    SpellsConcat(src, p, a, b);
    if OpsCodable(rest, cl) { SpellsConcat(src, p, a + b, EncodeOps(rest, cl)); }
  }

  lemma RestOpsCodable(op: LenOp, rest: seq<LenOp>, cl: seq<nat>)
    requires op.WellFormed() && HasCode(cl, op.Sym())
    ensures OpsCodable(rest, cl) <==> OpsCodable([op] + rest, cl)
  {
    hide HasCode, LenOp.WellFormed, LenOp.Sym;
    var ops := [op] + rest;
    if OpsCodable(rest, cl) {
      forall i | 0 <= i < |ops|
        ensures ops[i].WellFormed() && HasCode(cl, ops[i].Sym())
      {
        assert i > 0 ==> ops[i] == rest[i - 1];
      }
    }
    if OpsCodable(ops, cl) {
      forall i | 0 <= i < |rest|
        ensures rest[i].WellFormed() && HasCode(cl, rest[i].Sym())
      {
        assert rest[i] == ops[i + 1];
      }
    }
  }

  lemma SpellsHeadOp(src: seq<byte>, p: nat, q: nat, ops: seq<LenOp>, cl: seq<nat>, total: nat, acc: seq<nat>)
    returns (n: nat)
    requires ValidLens(cl) && |acc| <= total && SpellsOps(src, p, q, ops, cl, total, acc) && ops != []
    ensures |acc| < total && SpellsOp(src, p, n, ops[0], cl)
  {
    hide Spells, Codeword, ValidLens, LsbBits, LenOp.Apply, LenOp.Sym, LenOp.Extra, LenOp.ExtraBits;
    var op := ops[0];
    var a, b := Codeword(cl, op.Sym()), LsbBits(op.Extra(), op.ExtraBits());
    SpellsConcat(src, p, a + b, EncodeOps(ops[1..], cl));
    SpellsConcat(src, p, a, b);
    n := p + cl[op.Sym()] + op.ExtraBits();
  }

  lemma NoOps(src: seq<byte>, p: nat, cl: seq<nat>, total: nat, acc: seq<nat>)
    requires ValidLens(cl) && |acc| == total && p <= 8 * |src|
    ensures SpellsOps(src, p, p, [], cl, total, acc)
  {
    SpellsEmpty(src, p);
  }

  lemma NoOpsEnd(src: seq<byte>, p: nat, q: nat, cl: seq<nat>, total: nat, acc: seq<nat>)
    requires ValidLens(cl) && |acc| <= total && SpellsOps(src, p, q, [], cl, total, acc)
    ensures |acc| == total && q == p
  {
  }

  lemma {:induction false} OpsComplete(src: seq<byte>, p: nat, q: nat, ops: seq<LenOp>, cl: seq<nat>, total: nat,
                                       acc: seq<nat>)
    requires Codable(cl) && |cl| == 19 && |acc| <= total && SpellsOps(src, p, q, ops, cl, total, acc)
    ensures ParseOps(src, p, Codes(cl), total, acc) == Ok(ops, q)
    decreases ops
  {
    hide SpellsOps, SpellsOp, Codes, ValidLens, Kraft, DecodeSymbol, Field, OpOf, OpBits, LenOp.Apply;
    if ops == [] {
      NoOpsEnd(src, p, q, cl, total, acc);
    } else {
      var n := SpellsHeadOp(src, p, q, ops, cl, total, acc);
      assert ops == [ops[0]] + ops[1..];
      SpellsFirstOp(src, p, n, q, ops[0], ops[1..], cl, total, acc);
      OpSeen(src, p, n, ops[0], cl);
      OpsComplete(src, n, q, ops[1..], cl, total, ops[0].Apply(acc, total));
    }
  }

  lemma {:induction false} OpsSound(src: seq<byte>, p: nat, cl: seq<nat>, total: nat, acc: seq<nat>)
    requires Codable(cl) && |cl| == 19 && |acc| <= total && p <= 8 * |src|
    requires ParseOps(src, p, Codes(cl), total, acc).Ok?
    ensures var r := ParseOps(src, p, Codes(cl), total, acc); SpellsOps(src, p, r.next, r.value, cl, total, acc)
    decreases total - |acc|
  {
    hide SpellsOps, SpellsOp, Codes, ValidLens, Kraft, DecodeSymbol, Field, OpOf, OpBits, LenOp.Apply;
    var r := ParseOps(src, p, Codes(cl), total, acc);
    if |acc| == total {
      NoOps(src, p, cl, total, acc);
    } else {
      var d := DecodeSymbol(Codes(cl), src, p);
      var q, op := p + d.size + OpBits(d.sym), OpOf(d.sym, Field(src, p + d.size, OpBits(d.sym)));
      OpSeen(src, p, q, op, cl);
      OpsSound(src, q, cl, total, op.Apply(acc, total));
      assert r.value == [op] + r.value[1..];
      SpellsFirstOp(src, p, q, r.next, op, r.value[1..], cl, total, acc);
    }
  }

  lemma {:induction false} FieldsRead(src: seq<byte>, p: nat, n: nat, vs: seq<nat>)
    requires p + n * |vs| <= 8 * |src| && forall i :: 0 <= i < |vs| ==> vs[i] < Pow2(n)
    ensures |EncodeFields(vs, n)| == n * |vs|
    ensures ParseFields(src, p, n, |vs|) == vs <==> Spells(src, p, EncodeFields(vs, n))
    decreases vs
  {
    hide Spells, Window, Field, LsbBits, Pow2;
    if vs == [] {
      MulZero(n);
      SpellsEmpty(src, p);
    } else {
      var k := |vs| - 1;
      MulDistribute(n, k, 1);
      FieldsRead(src, p, n, vs[..k]);
      FieldReads(src, p + n * k, n, vs[k]);
      SpellsConcat(src, p, EncodeFields(vs[..k], n), LsbBits(vs[k], n));
      AppendEqual(ParseFields(src, p, n, k), Field(src, p + n * k, n), vs);
    }
  }

  lemma AppendEqual(a: seq<nat>, x: nat, vs: seq<nat>)
    requires |vs| == |a| + 1
    ensures a + [x] == vs <==> a == vs[..|a|] && x == vs[|a|]
  {
    assert vs == vs[..|a|] + [vs[|a|]];
    if a + [x] == vs { assert (a + [x])[..|a|] == a && (a + [x])[|a|] == x; }
  }

  lemma MulZero(n: nat)
    ensures n * 0 == 0
  {
  }

  // ---- the dynamic header ---------------------------------------------------------

  ghost predicate SpellsTrees(src: seq<byte>, p: nat, q: nat, h: Trees) {
    TreesValid(h) && Spells(src, p, EncodeTrees(h)) && q == p + |EncodeTrees(h)|
  }

  lemma TreesComplete(src: seq<byte>, p: nat, q: nat, h: Trees)
    requires SpellsTrees(src, p, q, h)
    ensures ParseTrees(src, p) == Ok(h, q)
  {
    hide Spells, Window, Field, LsbBits, Codes, Kraft, ParseOps, EncodeOps, EncodeFields, ParseFields, ClLens, OpsFill,
      ValidLens, TreesCodable;
    var a, b, c := LsbBits(h.hlit - 257, 5), LsbBits(h.hdist - 1, 5), LsbBits(|h.cl| - 4, 4);
    var d, e := EncodeFields(h.cl, 3), EncodeOps(h.ops, ClLens(h.cl));
    SpellsConcat(src, p, a + b + c + d, e);
    SpellsFour(src, p, a, b, c, d);
    SpellsInside(src, p, EncodeTrees(h));
    SmallPowers();
    FieldsLength(h.cl, 3);
    FieldReads(src, p, 5, h.hlit - 257);
    FieldReads(src, p + 5, 5, h.hdist - 1);
    FieldReads(src, p + 10, 4, |h.cl| - 4);
    FieldsRead(src, p + 14, 3, h.cl);
    TreesFill(h);
    OpsComplete(src, p + 14 + 3 * |h.cl|, q, h.ops, ClLens(h.cl), h.hlit + h.hdist, []);
  }

  lemma TreesFill(h: Trees)
    requires TreesCodable(h)
    ensures OpsFill(h.ops, h.hlit + h.hdist, [])
  {
  }

  lemma SmallPowers()
    ensures Pow2(3) == 8 && Pow2(4) == 16 && Pow2(5) == 32
  {
  }

  lemma {:induction false} FieldsLength(vs: seq<nat>, n: nat)
    ensures |EncodeFields(vs, n)| == n * |vs|
  {
    if vs == [] {
      MulZero(n);
    } else {
      FieldsLength(vs[..|vs| - 1], n);
      MulDistribute(n, |vs| - 1, 1);
    }
  }

  lemma TreesSound(src: seq<byte>, p: nat, h: Trees, q: nat)
    requires ParseTrees(src, p) == Ok(h, q)
    ensures SpellsTrees(src, p, q, h)
  {
    hide Spells, Window, LsbBits, Codes, Kraft, ParseOps, EncodeOps, EncodeFields, ParseFields, ClLens, OpsFill,
      ValidLens, TreesCodable;
    FieldSmall(src, p, 5);
    FieldSmall(src, p + 5, 5);
    FieldSmall(src, p + 10, 4);
    SmallPowers();
    var a, b, c := LsbBits(h.hlit - 257, 5), LsbBits(h.hdist - 1, 5), LsbBits(|h.cl| - 4, 4);
    ClLensValid(h.cl);
    FieldReads(src, p, 5, h.hlit - 257);
    FieldReads(src, p + 5, 5, h.hdist - 1);
    FieldReads(src, p + 10, 4, |h.cl| - 4);
    FieldsRead(src, p + 14, 3, h.cl);
    OpsSound(src, p + 14 + 3 * |h.cl|, ClLens(h.cl), h.hlit + h.hdist, []);
    var d, e := EncodeFields(h.cl, 3), EncodeOps(h.ops, ClLens(h.cl));
    SpellsFour(src, p, a, b, c, d);
    SpellsConcat(src, p, a + b + c + d, e);
  }

  // ---- blocks ---------------------------------------------------------------------

  /** Whole bytes at a byte boundary. */
  lemma {:induction false} BytesRead(src: seq<byte>, k: nat, data: seq<byte>)
    requires k + |data| <= |src|
    ensures |EncodeFields(data, 8)| == 8 * |data|
    ensures Spells(src, 8 * k, EncodeFields(data, 8)) <==> src[k..k + |data|] == data
    decreases data
  {
    hide Spells, Window, LsbBits, Pow2;
    if data == [] {
      SpellsEmpty(src, 8 * k);
    } else {
      var n := |data| - 1;
      BytesRead(src, k, data[..n]);
      assert Pow2(8) == 256 by { PowerOf8(); }
      FieldReads(src, 8 * (k + n), 8, data[n]);
      ByteWindow(src, k + n);
      SpellsConcat(src, 8 * k, EncodeFields(data[..n], 8), LsbBits(data[n], 8));
      assert src[k..k + |data|] == src[k..k + n] + [src[k + n]];
      AppendEqual(src[k..k + n], src[k + n], data);
    }
  }

  lemma PowerOf8()
    ensures Pow2(8) == 256 && Pow2(16) == 65536
  {
    Pow2Add(8, 8);
    assert Pow2(8) == 256;
  }

  ghost predicate SpellsBlock(src: seq<byte>, p: nat, q: nat, b: Block, have: nat) {
    BlockValid(b, p, have) && Spells(src, p, EncodeBody(b, p, have)) && q == p + |EncodeBody(b, p, have)|
  }

  /** A stored block: padding to the byte boundary, two lengths, the bytes. */
  lemma StoredReads(src: seq<byte>, p: nat, q: nat, b: Block, have: nat)
    requires b.Stored?
    ensures ParseStored(src, p) == Ok(b, q) <==> SpellsBlock(src, p, q, b, have)
  {
    hide Window, LsbBits, Field, EncodeFields;
    PowerOf8();
    FieldsLength(b.data, 8);
    var k := Align(p) / 8;
    var pad, l, nl, d := b.pad, LsbBits(|b.data|, 16), LsbBits(b.nlen, 16), EncodeFields(b.data, 8);
    if |pad| == 8 * k - p {
      SpellsFour(src, p, pad, l, nl, d);
      if k + 4 <= |src| && |b.data| < 65536 && b.nlen < 65536 {
        FieldReads(src, 8 * k, 16, |b.data|);
        FieldReads(src, 8 * k + 16, 16, b.nlen);
        if k + 4 + |b.data| <= |src| { BytesRead(src, k + 4, b.data); }
      }
    }
    FieldSmall(src, 8 * k, 16);
    FieldSmall(src, 8 * k + 16, 16);
  }

  lemma FixedReads(src: seq<byte>, p: nat, q: nat, b: Block, have: nat)
    requires b.Fixed?
    ensures ParseFixed(src, p, have) == Ok(b, q) <==> SpellsBlock(src, p, q, b, have)
  {
    hide ParseTokens, Spells, EncodeTokens, Codes, Kraft, FixedLit, FixedDist, TokensCodable, TokensReach;
    FixedCodable();
    TokensRead(src, p, q, b.toks, FixedLit(), FixedDist(), have);
  }

  lemma DynamicReads(src: seq<byte>, p: nat, q: nat, b: Block, have: nat)
    requires b.Dynamic?
    ensures ParseDynamic(src, p, have) == Ok(b, q) <==> SpellsBlock(src, p, q, b, have)
  {
    hide ParseTrees, ParseTokens, Spells, EncodeTokens, EncodeTrees, Codes, Kraft, TokensCodable, TokensReach,
      TreesValid, OpsFill, LitLens, DistLens;
    var h := b.h;
    if ParseDynamic(src, p, have) == Ok(b, q) {
      var m := ParseTrees(src, p).next;
      TreesSound(src, p, h, m);
      TokensRead(src, m, q, b.toks, LitLens(h), DistLens(h), have);
      SpellsConcat(src, p, EncodeTrees(h), EncodeTokens(b.toks, LitLens(h), DistLens(h)));
    }
    if SpellsBlock(src, p, q, b, have) {
      TreesLens(h);
      SpellsConcat(src, p, EncodeTrees(h), EncodeTokens(b.toks, LitLens(h), DistLens(h)));
      var m := p + |EncodeTrees(h)|;
      TreesComplete(src, p, m, h);
      TokensRead(src, m, q, b.toks, LitLens(h), DistLens(h), have);
    }
  }

  lemma TreesLens(h: Trees)
    requires TreesValid(h)
    ensures TreesCodable(h)
  {
  }

  /** A block of any kind parses exactly from its encoding. */
  lemma BlockReads(src: seq<byte>, p: nat, q: nat, b: Block, have: nat)
    ensures ParseBlock(src, BlockType(b), p, have) == Ok(b, q) <==> SpellsBlock(src, p, q, b, have)
    ensures forall t :: ParseBlock(src, t, p, have) == Ok(b, q) ==> t == BlockType(b)
  {
    hide SpellsBlock, ParseTrees, ParseTokens, Codes, FixedLit, FixedDist, LitLens, DistLens, Field, Window;
    match b
    case Stored(_, _, _) => StoredReads(src, p, q, b, have);
    case Fixed(_) => FixedReads(src, p, q, b, have);
    case Dynamic(_, _) => DynamicReads(src, p, q, b, have);
  }

  // ---- streams --------------------------------------------------------------------

  ghost predicate SpellsStream(src: seq<byte>, p: nat, q: nat, bs: seq<Block>, have: nat) {
    StreamValid(bs, p, have) && Spells(src, p, EncodeStream(bs, p, have)) && q == p + |EncodeStream(bs, p, have)|
  }

  lemma HeaderReads(src: seq<byte>, p: nat, final: bool, t: nat)
    requires t < 4 && p + 3 <= 8 * |src|
    ensures Spells(src, p, Header(final, t)) <==> (BitAt(src, p) == 1 <==> final) && Field(src, p + 1, 2) == t
  {
    var f: seq<bit> := [if final then 1 else 0];
    SpellsConcat(src, p, f, LsbBits(t, 2));
    assert Window(src, p, 1) == [BitAt(src, p)];
    assert Pow2(2) == 4;
    FieldReads(src, p + 1, 2, t);
  }

  lemma {:induction false} StreamComplete(src: seq<byte>, p: nat, q: nat, bs: seq<Block>, have: nat)
    requires SpellsStream(src, p, q, bs, have)
    ensures ParseStream(src, p, have) == Ok(bs, q)
    decreases bs
  {
    hide Spells, Window, Field, BitAt, ParseBlock, EncodeBody, BlockValid, Header, SizeOfBlock;
    var b, body := bs[0], EncodeBody(bs[0], p + 3, have);
    var hd := Header(|bs| == 1, BlockType(b));
    var m := p + 3 + |body|;
    var rest := if |bs| == 1 then [] else EncodeStream(bs[1..], m, have + SizeOfBlock(b));
    assert EncodeStream(bs, p, have) == hd + body + rest;
    SpellsConcat(src, p, hd + body, rest);
    SpellsConcat(src, p, hd, body);
    SpellsInside(src, p, hd + body);
    HeaderReads(src, p, |bs| == 1, BlockType(b));
    BlockReads(src, p + 3, m, b, have);
    BlockAdvances(src, BlockType(b), p + 3, have);
    if |bs| == 1 {
      assert bs == [b];
    } else {
      StreamComplete(src, m, q, bs[1..], have + SizeOfBlock(b));
      assert bs == [b] + bs[1..];
    }
  }

  lemma {:induction false} StreamSound(src: seq<byte>, p: nat, have: nat)
    requires ParseStream(src, p, have).Ok?
    ensures var r := ParseStream(src, p, have); SpellsStream(src, p, r.next, r.value, have)
    decreases 8 * |src| - p
  {
    hide Spells, Window, Field, BitAt, ParseBlock, EncodeBody, BlockValid, Header, SizeOfBlock;
    var r := ParseStream(src, p, have);
    var t := Field(src, p + 1, 2);
    var Ok(b, m) := ParseBlock(src, t, p + 3, have);
    BlockReads(src, p + 3, m, b, have);
    BlockAdvances(src, t, p + 3, have);
    var hd, body := Header(|r.value| == 1, t), EncodeBody(b, p + 3, have);
    HeaderReads(src, p, |r.value| == 1, t);
    SpellsConcat(src, p, hd, body);
    if BitAt(src, p) == 1 {
      assert hd + body + [] == hd + body;
    } else {
      StreamSound(src, m, have + SizeOfBlock(b));
      assert |r.value| > 1;
      SpellsConcat(src, p, hd + body, EncodeStream(r.value[1..], m, have + SizeOfBlock(b)));
    }
  }

  /** The format theorem: a buffer parses to blocks bs ending at bit q if and only if bs
      is a valid block list and the buffer carries exactly its encoding up to q. */
  lemma StreamReads(src: seq<byte>, bs: seq<Block>, q: nat)
    ensures ParseStream(src, 0, 0) == Ok(bs, q) <==> SpellsStream(src, 0, q, bs, 0)
  {
    hide ParseStream, SpellsStream;
    if ParseStream(src, 0, 0) == Ok(bs, q) { StreamSound(src, 0, 0); }
    if SpellsStream(src, 0, q, bs, 0) { StreamComplete(src, 0, q, bs, 0); }
  }
}
