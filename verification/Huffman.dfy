/** Canonical Huffman codes as RFC 1951 section 3.2.2 defines them, independently of
    how the decoder computes them.  All code values are compared on a 15-bit scale:
    a codeword of length l owns the interval [Base, Base + 2^(15-l)). */
module Huffman {
  import opened Bits

  const MAX_BITS: nat := 15
  const FULL: nat := Pow2(15)

  lemma FullValue()
    ensures FULL == 32768
  {
    Pow2Add(8, 7);
    assert Pow2(8) == 256 && Pow2(7) == 128;
  }

  predicate ValidLens(lens: seq<nat>) {
    forall i :: 0 <= i < |lens| ==> lens[i] <= MAX_BITS
  }

  /** Size of the interval owned by a codeword of length l; length 0 means "no code". */
  function Weight(l: nat): (w: nat)
    requires l <= MAX_BITS
    ensures l > 0 ==> w > 0
  {
    if l == 0 then 0 else Pow2(MAX_BITS - l)
  }

  function KraftUpTo(lens: seq<nat>, i: nat): nat
    requires ValidLens(lens) && i <= |lens|
  {
    if i == 0 then 0 else KraftUpTo(lens, i - 1) + Weight(lens[i - 1])
  }

  /** The Kraft sum, scaled by 2^15. */
  function Kraft(lens: seq<nat>): nat
    requires ValidLens(lens)
  {
    KraftUpTo(lens, |lens|)
  }

  /** Lengths from which a prefix code can be built. */
  predicate Codable(lens: seq<nat>) {
    ValidLens(lens) && Kraft(lens) <= FULL
  }

  predicate HasCode(lens: seq<nat>, s: nat) {
    s < |lens| && lens[s] > 0
  }

  /** Canonical order: by length, then by symbol. */
  predicate Precedes(lens: seq<nat>, t: nat, l: nat, s: nat)
    requires t < |lens|
  {
    0 < lens[t] && (lens[t] < l || (lens[t] == l && t < s))
  }

  function BaseUpTo(lens: seq<nat>, l: nat, s: nat, i: nat): nat
    requires ValidLens(lens) && i <= |lens|
  {
    if i == 0 then 0
    else BaseUpTo(lens, l, s, i - 1) + if Precedes(lens, i - 1, l, s) then Weight(lens[i - 1]) else 0
  }

  /** Start of the interval of symbol s: everything that precedes it canonically. */
  function Base(lens: seq<nat>, s: nat): nat
    requires ValidLens(lens) && HasCode(lens, s)
  {
    BaseUpTo(lens, lens[s], s, |lens|)
  }

  function Code(lens: seq<nat>, s: nat): nat
    requires ValidLens(lens) && HasCode(lens, s)
  {
    Quot(Base(lens, s), Weight(lens[s]))
  }

  /** The codeword of s: the bits of its code value, most significant first. */
  function Codeword(lens: seq<nat>, s: nat): (w: seq<bit>)
    requires ValidLens(lens) && HasCode(lens, s)
    ensures |w| == lens[s]
  {
    MsbBits(Code(lens, s), lens[s])
  }

  // ---- big-endian bit strings -----------------------------------------------------

  function MsbBits(v: nat, n: nat): (w: seq<bit>)
    ensures |w| == n
  {
    if n == 0 then [] else MsbBits(v / 2, n - 1) + [v % 2]
  }

  lemma {:induction false} MsbDigit(v: nat, n: nat, k: nat)
    requires k < n
    ensures MsbBits(v, n)[k] == v / Pow2(n - 1 - k) % 2
  {
    if k < n - 1 {
      MsbDigit(v / 2, n - 1, k);
      DivDiv(v, 2, Pow2(n - 2 - k));
    }
  }

  lemma {:induction false} MsbPrefix(v: nat, n: nat, a: nat)
    requires a <= n
    ensures MsbBits(v, n)[..a] == MsbBits(v / Pow2(n - a), a)
  {
    if a == n {
      assert Pow2(0) == 1;
    } else {
      MsbPrefix(v / 2, n - 1, a);
      assert MsbBits(v, n)[..a] == MsbBits(v / 2, n - 1)[..a];
      DivDiv(v, 2, Pow2(n - 1 - a));
    }
  }

  lemma {:induction false} MsbInjective(u: nat, v: nat, n: nat)
    requires u < Pow2(n) && v < Pow2(n)
    requires MsbBits(u, n) == MsbBits(v, n)
    ensures u == v
  {
    if n > 0 {
      var a, b := MsbBits(u, n), MsbBits(v, n);
      assert a[..n - 1] == MsbBits(u / 2, n - 1) && b[..n - 1] == MsbBits(v / 2, n - 1);
      assert a[n - 1] == u % 2 && b[n - 1] == v % 2;
      MsbInjective(u / 2, v / 2, n - 1);
    }
  }

  // ---- intervals ------------------------------------------------------------------

  /** Everything that precedes s also precedes t, and so does s itself. */
  lemma {:induction false} BaseStep(lens: seq<nat>, s: nat, t: nat, i: nat)
    requires ValidLens(lens) && HasCode(lens, s) && HasCode(lens, t) && i <= |lens|
    requires Precedes(lens, s, lens[t], t)
    ensures BaseUpTo(lens, lens[s], s, i) + (if s < i then Weight(lens[s]) else 0)
         <= BaseUpTo(lens, lens[t], t, i)
  {
    if i > 0 { BaseStep(lens, s, t, i - 1); }
  }

  lemma {:induction false} BaseBelowKraft(lens: seq<nat>, s: nat, i: nat)
    requires ValidLens(lens) && HasCode(lens, s) && i <= |lens|
    ensures BaseUpTo(lens, lens[s], s, i) + (if s < i then Weight(lens[s]) else 0) <= KraftUpTo(lens, i)
  {
    if i > 0 { BaseBelowKraft(lens, s, i - 1); }
  }

  lemma WeightMultiple(l: nat, m: nat)
    requires 0 < l <= m <= MAX_BITS
    ensures Weight(l) == Pow2(m - l) * Weight(m)
  {
    Pow2Add(m - l, MAX_BITS - m);
  }

  lemma {:induction false} BaseMultiple(lens: seq<nat>, l: nat, s: nat, i: nat) returns (q: nat)
    requires ValidLens(lens) && 0 < l <= MAX_BITS && i <= |lens|
    ensures BaseUpTo(lens, l, s, i) == q * Weight(l)
  {
    if i == 0 {
      q := 0;
    } else {
      q := BaseMultiple(lens, l, s, i - 1);
      if Precedes(lens, i - 1, l, s) {
        WeightMultiple(lens[i - 1], l);
        MulDistributeRight(q, Pow2(l - lens[i - 1]), Weight(l));
        q := q + Pow2(l - lens[i - 1]);
      }
    }
  }

  /** The code value times the interval size is the interval start, and the value
      fits in its length. */
  lemma CodeInterval(lens: seq<nat>, s: nat)
    requires Codable(lens) && HasCode(lens, s)
    ensures Base(lens, s) == Code(lens, s) * Weight(lens[s])
    ensures Base(lens, s) + Weight(lens[s]) <= FULL
    ensures Code(lens, s) < Pow2(lens[s])
  {
    var w := Weight(lens[s]);
    var q := BaseMultiple(lens, lens[s], s, |lens|);
    DivExact(Base(lens, s), w, q);
    BaseBelowKraft(lens, s, |lens|);
    Pow2Add(lens[s], MAX_BITS - lens[s]);
    if q >= Pow2(lens[s]) { MulMonotone(Pow2(lens[s]), q, w); }
  }

  /** Canonical order is order of intervals, without overlap. */
  lemma IntervalsOrdered(lens: seq<nat>, s: nat, t: nat)
    requires ValidLens(lens) && HasCode(lens, s) && HasCode(lens, t)
    requires Precedes(lens, s, lens[t], t)
    ensures Base(lens, s) + Weight(lens[s]) <= Base(lens, t)
  {
    BaseStep(lens, s, t, |lens|);
  }

  /** If the codeword of s is a prefix of that of t then the interval of t lies inside
      the interval of s. */
  lemma PrefixContains(lens: seq<nat>, s: nat, t: nat)
    requires Codable(lens) && HasCode(lens, s) && HasCode(lens, t)
    requires Codeword(lens, s) <= Codeword(lens, t)
    ensures Base(lens, s) <= Base(lens, t) < Base(lens, s) + Weight(lens[s])
  {
    CodeInterval(lens, s);
    CodeInterval(lens, t);
    PrefixQuotient(Code(lens, s), lens[s], Code(lens, t), lens[t]);
    WeightMultiple(lens[s], lens[t]);
    ScaleInterval(Code(lens, s), Pow2(lens[t] - lens[s]), Code(lens, t), Weight(lens[t]), Weight(lens[s]));
  }

  /** A prefix of a big-endian bit string is its leading quotient. */
  lemma PrefixQuotient(cs: nat, ls: nat, ct: nat, lt: nat)
    requires ls <= lt && cs < Pow2(ls) && ct < Pow2(lt)
    requires MsbBits(cs, ls) <= MsbBits(ct, lt)
    ensures ct / Pow2(lt - ls) == cs
  {
    var q := LeadingBits(ct, ls, lt);
    MsbInjective(cs, q, ls);
  }

  lemma LeadingBits(ct: nat, ls: nat, lt: nat) returns (q: nat)
    requires ls <= lt && ct < Pow2(lt)
    ensures q == ct / Pow2(lt - ls) && q < Pow2(ls)
    ensures MsbBits(ct, lt)[..ls] == MsbBits(q, ls)
  {
    MsbPrefix(ct, lt, ls);
    QuotientFits(ct, ls, lt);
    q := ct / Pow2(lt - ls);
  }

  lemma QuotientFits(ct: nat, ls: nat, lt: nat)
    requires ls <= lt && ct < Pow2(lt)
    ensures ct / Pow2(lt - ls) < Pow2(ls)
  {
    Pow2Add(ls, lt - ls);
    DivLess(ct, Pow2(lt - ls), Pow2(ls));
  }

  lemma ScaleInterval(cs: nat, d: nat, ct: nat, wt: nat, ws: nat)
    requires d > 0 && wt > 0 && ct / d == cs && ws == d * wt
    ensures cs * ws <= ct * wt < cs * ws + ws
  {
    var r := ct % d;
    assert ct == d * cs + r;
    MulDistributeRight(d * cs, r, wt);
    MulAssoc(cs, d, wt);
    MulMonotone(r, d - 1, wt);
    MulDistributeRight(d, -1, wt);
  }

  /** Canonical codes are prefix-free. */
  lemma PrefixFree(lens: seq<nat>, s: nat, t: nat)
    requires Codable(lens) && HasCode(lens, s) && HasCode(lens, t) && s != t
    ensures !(Codeword(lens, s) <= Codeword(lens, t))
  {
    if Codeword(lens, s) <= Codeword(lens, t) {
      PrefixContains(lens, s, t);
      if Precedes(lens, s, lens[t], t) {
        IntervalsOrdered(lens, s, t);
      } else {
        IntervalsOrdered(lens, t, s);
      }
    }
  }

  /** First rule of RFC 1951 section 3.2.2: codes of one length are consecutive in
      symbol order. */
  lemma SameLengthConsecutive(lens: seq<nat>, s: nat, t: nat)
    requires Codable(lens) && HasCode(lens, s) && HasCode(lens, t)
    requires lens[s] == lens[t] && s < t && forall u :: s < u < t ==> lens[u] != lens[s]
    ensures Code(lens, t) == Code(lens, s) + 1
  {
    CodeInterval(lens, s);
    CodeInterval(lens, t);
    BaseConsecutive(lens, s, t, |lens|);
    MulDistributeRight(Code(lens, s), 1, Weight(lens[s]));
    SameMultiple(Code(lens, t), Code(lens, s) + 1, Weight(lens[s]));
  }

  /** Second rule: shorter codes lexicographically precede longer ones. */
  lemma ShorterFirst(lens: seq<nat>, s: nat, t: nat)
    requires Codable(lens) && HasCode(lens, s) && HasCode(lens, t)
    requires lens[s] < lens[t]
    ensures Code(lens, s) < Code(lens, t) / Pow2(lens[t] - lens[s])
  {
    CodeInterval(lens, s);
    CodeInterval(lens, t);
    IntervalsOrdered(lens, s, t);
    WeightMultiple(lens[s], lens[t]);
    LeadingGap(Code(lens, s), Pow2(lens[t] - lens[s]), Code(lens, t), Weight(lens[t]), Weight(lens[s]));
  }

  lemma LeadingGap(cs: nat, d: nat, ct: nat, wt: nat, ws: nat)
    requires d > 0 && wt > 0 && ws == d * wt && cs * ws + ws <= ct * wt
    ensures cs < ct / d
  {
    var q := Quot(ct, d);
    ScaleInterval(q, d, ct, wt, ws);
    MulCancelLess(cs, q, ws);
  }

  lemma SameMultiple(a: nat, b: nat, w: nat)
    requires w > 0 && a * w == b * w
    ensures a == b
  {
  }

  lemma {:induction false} BaseConsecutive(lens: seq<nat>, s: nat, t: nat, i: nat)
    requires ValidLens(lens) && HasCode(lens, s) && HasCode(lens, t) && i <= |lens|
    requires lens[s] == lens[t] && s < t && forall u :: s < u < t ==> lens[u] != lens[s]
    ensures BaseUpTo(lens, lens[t], t, i) == BaseUpTo(lens, lens[s], s, i) + if s < i then Weight(lens[s]) else 0
  {
    if i > 0 { BaseConsecutive(lens, s, t, i - 1); }
  }

  // ---- the counting algorithm -----------------------------------------------------

  function CountUpTo(lens: seq<nat>, l: nat, i: nat): (c: nat)
    requires i <= |lens|
  {
    if i == 0 then 0 else CountUpTo(lens, l, i - 1) + if lens[i - 1] == l then 1 else 0
  }

  /** next_code after the second step of RFC 1951 section 3.2.2. */
  function FirstCode(lens: seq<nat>, l: nat): nat {
    if l <= 1 then 0 else 2 * (FirstCode(lens, l - 1) + CountUpTo(lens, l - 1, |lens|))
  }

  lemma {:induction false} BaseSplit(lens: seq<nat>, l: nat, s: nat, i: nat)
    requires ValidLens(lens) && 0 < l <= MAX_BITS && i <= |lens|
    ensures BaseUpTo(lens, l, s, i)
         == BaseUpTo(lens, l, 0, i) + CountUpTo(lens, l, if s < i then s else i) * Weight(l)
  {
    if i > 0 {
      BaseSplit(lens, l, s, i - 1);
      MulDistributeRight(CountUpTo(lens, l, i - 1), 1, Weight(l));
    }
  }

  lemma {:induction false} BaseNextLength(lens: seq<nat>, l: nat, i: nat)
    requires ValidLens(lens) && 0 < l < MAX_BITS && i <= |lens|
    ensures BaseUpTo(lens, l + 1, 0, i) == BaseUpTo(lens, l, 0, i) + CountUpTo(lens, l, i) * Weight(l)
  {
    if i > 0 {
      BaseNextLength(lens, l, i - 1);
      MulDistributeRight(CountUpTo(lens, l, i - 1), 1, Weight(l));
    }
  }

  lemma {:induction false} NoneShorter(lens: seq<nat>, i: nat)
    requires ValidLens(lens) && i <= |lens|
    ensures BaseUpTo(lens, 1, 0, i) == 0
  {
    if i > 0 { NoneShorter(lens, i - 1); }
  }

  /** The counting algorithm starts each length where the shorter codes end. */
  lemma {:induction false} FirstCodeBase(lens: seq<nat>, l: nat)
    requires ValidLens(lens) && 0 < l <= MAX_BITS
    ensures FirstCode(lens, l) * Weight(l) == BaseUpTo(lens, l, 0, |lens|)
  {
    if l == 1 {
      NoneShorter(lens, |lens|);
    } else {
      FirstCodeBase(lens, l - 1);
      BaseNextLength(lens, l - 1, |lens|);
      var f, c := FirstCode(lens, l - 1), CountUpTo(lens, l - 1, |lens|);
      assert Weight(l - 1) == 2 * Weight(l);
      MulDistributeRight(f, c, Weight(l - 1));
      MulAssoc(f + c, 2, Weight(l));
    }
  }

  /** Counting yields the canonical code value. */
  lemma CountingIsCanonical(lens: seq<nat>, s: nat)
    requires ValidLens(lens) && HasCode(lens, s)
    ensures FirstCode(lens, lens[s]) + CountUpTo(lens, lens[s], s) == Code(lens, s)
  {
    var l := lens[s];
    FirstCodeBase(lens, l);
    BaseSplit(lens, l, s, |lens|);
    var f, c := FirstCode(lens, l), CountUpTo(lens, l, s);
    MulDistributeRight(f, c, Weight(l));
    DivExact(Base(lens, s), Weight(l), f + c);
  }

  lemma {:induction false} BaseAndCountBelowKraft(lens: seq<nat>, l: nat, i: nat)
    requires ValidLens(lens) && 0 < l <= MAX_BITS && i <= |lens|
    ensures BaseUpTo(lens, l, 0, i) + CountUpTo(lens, l, i) * Weight(l) <= KraftUpTo(lens, i)
  {
    if i > 0 {
      BaseAndCountBelowKraft(lens, l, i - 1);
      MulDistributeRight(CountUpTo(lens, l, i - 1), 1, Weight(l));
    }
  }

  /** The counters stay far below 32 bits. */
  lemma CountersSmall(lens: seq<nat>, l: nat)
    requires Codable(lens) && 0 < l <= MAX_BITS
    ensures FirstCode(lens, l) + CountUpTo(lens, l, |lens|) <= FULL
  {
    FirstCodeBase(lens, l);
    BaseAndCountBelowKraft(lens, l, |lens|);
    SumBelow(FirstCode(lens, l), CountUpTo(lens, l, |lens|), Weight(l), FULL);
  }

  lemma SumBelow(f: nat, c: nat, w: nat, m: nat)
    requires w > 0 && f * w + c * w <= m
    ensures f + c <= m
  {
    MulDistributeRight(f, c, w);
    MulGe(f + c, w);
  }

  lemma {:induction false} CountMonotone(lens: seq<nat>, l: nat, i: nat, j: nat)
    requires i <= j <= |lens|
    ensures CountUpTo(lens, l, i) <= CountUpTo(lens, l, j)
  {
    if i < j { CountMonotone(lens, l, i, j - 1); }
  }

  // ---- the code table -------------------------------------------------------------

  /** Codewords of the symbols below i, as a map from codeword to symbol. */
  function CodesUpTo(lens: seq<nat>, i: nat): (m: map<seq<bit>, nat>)
    requires ValidLens(lens) && i <= |lens|
  {
    if i == 0 then map[]
    else if lens[i - 1] == 0 then CodesUpTo(lens, i - 1)
    else CodesUpTo(lens, i - 1)[Codeword(lens, i - 1) := i - 1]
  }

  function Codes(lens: seq<nat>): map<seq<bit>, nat>
    requires ValidLens(lens)
  {
    CodesUpTo(lens, |lens|)
  }

  lemma {:induction false} CodesSound(lens: seq<nat>, i: nat, c: seq<bit>)
    requires ValidLens(lens) && i <= |lens| && c in CodesUpTo(lens, i)
    ensures var s := CodesUpTo(lens, i)[c]; s < i && HasCode(lens, s) && Codeword(lens, s) == c
  {
    if lens[i - 1] == 0 || c != Codeword(lens, i - 1) { CodesSound(lens, i - 1, c); }
  }

  lemma {:induction false} CodesComplete(lens: seq<nat>, i: nat, s: nat)
    requires Codable(lens) && i <= |lens| && s < i && HasCode(lens, s)
    ensures Codeword(lens, s) in CodesUpTo(lens, i) && CodesUpTo(lens, i)[Codeword(lens, s)] == s
  {
    if s < i - 1 {
      CodesComplete(lens, i - 1, s);
      if lens[i - 1] != 0 { PrefixFree(lens, s, i - 1); }
    }
  }

  predicate PrefixFreeMap(codes: map<seq<bit>, nat>) {
    forall a, b :: a in codes && b in codes && a <= b ==> a == b
  }

  lemma CodesPrefixFree(lens: seq<nat>, i: nat)
    requires Codable(lens) && i <= |lens|
    ensures PrefixFreeMap(CodesUpTo(lens, i))
    ensures forall c :: c in CodesUpTo(lens, i) ==> 0 < |c| <= MAX_BITS
  {
    var m := CodesUpTo(lens, i);
    forall a, b | a in m && b in m && a <= b ensures a == b {
      CodesSound(lens, i, a);
      CodesSound(lens, i, b);
      if m[a] != m[b] { PrefixFree(lens, m[a], m[b]); }
    }
    forall c | c in m ensures 0 < |c| <= MAX_BITS { CodesSound(lens, i, c); }
  }

  // ---- decoding one symbol --------------------------------------------------------

  datatype Symbol = Sym(sym: nat, size: nat) | NoSym

  /** The shortest codeword of at least n bits that the stream continues with. */
  function FindCode(codes: map<seq<bit>, nat>, src: seq<byte>, p: nat, n: nat): (r: Symbol)
    requires n <= MAX_BITS + 1
    ensures r.Sym? ==> n <= r.size <= MAX_BITS
    decreases MAX_BITS + 1 - n
  {
    if n > MAX_BITS then NoSym
    else if Window(src, p, n) in codes then Sym(codes[Window(src, p, n)], n)
    else FindCode(codes, src, p, n + 1)
  }

  function DecodeSymbol(codes: map<seq<bit>, nat>, src: seq<byte>, p: nat): Symbol {
    FindCode(codes, src, p, 1)
  }

  lemma {:induction false} FindCodeUnique(codes: map<seq<bit>, nat>, src: seq<byte>, p: nat, n: nat, k: nat)
    requires PrefixFreeMap(codes) && n <= k <= MAX_BITS
    requires Window(src, p, k) in codes
    ensures FindCode(codes, src, p, n) == Sym(codes[Window(src, p, k)], k)
    decreases k - n
  {
    if n < k {
      WindowSplit(src, p, n, k - n);
      assert Window(src, p, n) <= Window(src, p, k);
      assert |Window(src, p, n)| != |Window(src, p, k)|;
      FindCodeUnique(codes, src, p, n + 1, k);
    }
  }

  lemma {:induction false} FindCodeSound(codes: map<seq<bit>, nat>, src: seq<byte>, p: nat, n: nat)
    requires n <= MAX_BITS + 1
    ensures var r := FindCode(codes, src, p, n);
      if r.Sym? then n <= r.size <= MAX_BITS && Window(src, p, r.size) in codes
                     && codes[Window(src, p, r.size)] == r.sym
      else forall k :: n <= k <= MAX_BITS ==> Window(src, p, k) !in codes
    decreases MAX_BITS + 1 - n
  {
    if n <= MAX_BITS && Window(src, p, n) !in codes { FindCodeSound(codes, src, p, n + 1); }
  }

  /** Decoding a stream that continues with the codeword of s yields s after exactly
      lens[s] bits, and only such a stream does. */
  lemma DecodeExactly(lens: seq<nat>, src: seq<byte>, p: nat, s: nat)
    requires Codable(lens) && HasCode(lens, s)
    ensures Window(src, p, lens[s]) == Codeword(lens, s) <==> DecodeSymbol(Codes(lens), src, p) == Sym(s, lens[s])
  {
    CodesPrefixFree(lens, |lens|);
    CodesComplete(lens, |lens|, s);
    if Window(src, p, lens[s]) == Codeword(lens, s) {
      FindCodeUnique(Codes(lens), src, p, 1, lens[s]);
    }
    FindCodeSound(Codes(lens), src, p, 1);
    if DecodeSymbol(Codes(lens), src, p) == Sym(s, lens[s]) {
      CodesSound(lens, |lens|, Window(src, p, lens[s]));
    }
  }
}
