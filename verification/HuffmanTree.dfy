/** The array-based Huffman tree of the decoder (htree_t in src/image.c).
    Slot 2*i+b of the array holds child b of node i: a node index, EMPTY, or a leaf. */
module HuffmanTree {
  import opened Bits
  import opened Huffman
  import opened BitReader

  const HT_MAX: nat := 8192
  const EMPTY: int := -1

  function Leaf(sym: nat): int { -2 - sym }

  /** A tree together with what its nodes stand for: `path[i]` is the bit string that
      leads to node i, `node` its inverse, and `codes` the codewords inserted so far. */
  datatype Trie = Trie(ch: seq<int>, n: nat, path: seq<seq<bit>>, node: map<seq<bit>, nat>, codes: map<seq<bit>, nat>)
  {
    ghost predicate Labelled() {
      && |ch| == 2 * HT_MAX && 1 <= n <= HT_MAX && |path| == n
      && path[0] == []
      && (forall i :: 0 <= i < n ==> path[i] in node && node[path[i]] == i)
      && (forall w :: w in node ==> node[w] < n && path[node[w]] == w)
    }

    ghost predicate SlotOk(i: nat, b: bit)
      requires Labelled() && i < n
    {
      var v := ch[2 * i + b];
      && (v >= 0 ==> v < n && path[v] == path[i] + [b])
      && (v < EMPTY ==> path[i] + [b] in codes && v == Leaf(codes[path[i] + [b]]))
    }

    /** Step k of codeword c goes to an inner node, and its last step to its leaf. */
    ghost predicate StepOk(c: seq<bit>, k: nat)
      requires Labelled() && c in codes && k < |c|
    {
      && c[..k] in node
      && var v := ch[2 * node[c[..k]] + c[k]];
         if k + 1 < |c| then v >= 0 else v == Leaf(codes[c])
    }

    /** Why a node exists: it lies on the path being inserted or inside a codeword. */
    ghost predicate Justified(p: seq<bit>, extra: seq<bit>) {
      p <= extra || exists c :: c in codes && p < c
    }

    ghost predicate Inv(extra: seq<bit>) {
      && Labelled()
      && (forall i, b: bit :: 0 <= i < n ==> SlotOk(i, b))
      && (forall c, k :: c in codes && 0 <= k < |c| ==> StepOk(c, k))
      && (forall i :: 0 <= i < n ==> Justified(path[i], extra))
    }

    /** The first k steps along w all go to inner nodes. */
    ghost predicate Along(w: seq<bit>, k: nat)
      requires Labelled() && k <= |w|
    {
      forall j :: 0 <= j < k ==> w[..j] in node && ch[2 * node[w[..j]] + w[j]] >= 0
    }

    /** Node i is where the first k steps along the fresh word w lead. */
    ghost predicate At(w: seq<bit>, k: nat, i: nat) {
      k <= |w| && Inv(w[..k]) && Fresh(w) && i < n && path[i] == w[..k] && Along(w, k)
    }

    /** No codeword is a prefix of w or the other way round. */
    ghost predicate Fresh(w: seq<bit>) {
      forall c :: c in codes ==> !(c <= w) && !(w <= c)
    }

    /** Append node n as child b of node i. */
    ghost function Grow(i: nat, b: bit): Trie
      requires Labelled() && i < n < HT_MAX
    {
      var w := path[i] + [b];
      Trie(ch[2 * n := EMPTY][2 * n + 1 := EMPTY][2 * i + b := n], n + 1, path + [w], node[w := n], codes)
    }

    ghost function SetLeaf(i: nat, b: bit, sym: nat): Trie
      requires Labelled() && i < n
    {
      this.(ch := ch[2 * i + b := Leaf(sym)], codes := codes[path[i] + [b] := sym])
    }
  }

  /** Descending along a fresh word from a node on it: the slot is an inner node one
      step further along, or it is empty and no node for the next prefix exists. */
  lemma SlotOnFreshPath(t: Trie, w: seq<bit>, k: nat, i: nat)
    requires k < |w| && t.At(w, k, i)
    ensures var v := t.ch[2 * i + w[k]];
      if v >= 0 then v < t.n && t.path[v] == w[..k + 1] && k + 1 < |w|
      else v == EMPTY && w[..k + 1] !in t.node
  {
    var v := t.ch[2 * i + w[k]];
    var next := w[..k + 1];
    assert next == w[..k] + [w[k]];
    assert t.SlotOk(i, w[k]);
    if next in t.node {
      assert t.Justified(t.path[t.node[next]], w[..k]);
      assert |next| > |w[..k]|;
      var c :| c in t.codes && next < c;
      assert c[..k] == w[..k] && c[k] == w[k];
      assert t.StepOk(c, k);
      assert v >= 0;
      assert w[..|w|] == w;
      assert k + 1 < |w|;
    }
    if v >= 0 {
      assert t.path[v] == next && next in t.node;
    }
  }

  lemma GrowKeeps(t: Trie, w: seq<bit>, k: nat, i: nat)
    requires k + 1 < |w| && t.At(w, k, i) && t.n < HT_MAX
    requires t.ch[2 * i + w[k]] == EMPTY && w[..k + 1] !in t.node
    ensures t.Grow(i, w[k]).At(w, k + 1, t.n)
  {
    var u := t.Grow(i, w[k]);
    GrowInv(t, w, k, i);
    assert w[..k + 1] == t.path[i] + [w[k]];
    forall j | 0 <= j < k + 1 ensures w[..j] in u.node && u.ch[2 * u.node[w[..j]] + w[j]] >= 0 {
      if j == k { assert w[..k] in t.node && t.node[w[..k]] == i; }
      assert w[..j] != w[..k + 1];
    }
  }

  lemma GrowInv(t: Trie, w: seq<bit>, k: nat, i: nat)
    requires k + 1 < |w| && t.Inv(w[..k]) && i < t.n < HT_MAX && t.path[i] == w[..k]
    requires t.ch[2 * i + w[k]] == EMPTY && w[..k + 1] !in t.node
    ensures t.Grow(i, w[k]).Inv(w[..k + 1])
  {
    var b := w[k];
    var next := w[..k + 1];
    var u := t.Grow(i, b);
    assert next == t.path[i] + [b];
    assert u.Labelled();
    forall j, d: bit | 0 <= j < u.n ensures u.SlotOk(j, d) {
      if j < t.n { assert t.SlotOk(j, d); }
    }
    forall c, m | c in u.codes && 0 <= m < |c| ensures u.StepOk(c, m) {
      assert t.StepOk(c, m);
    }
    forall j | 0 <= j < u.n ensures u.Justified(u.path[j], next) {
      if j < t.n {
        assert t.Justified(t.path[j], w[..k]);
        if t.path[j] <= w[..k] { assert t.path[j] <= next; }
      }
    }
  }

  lemma AdvanceKeeps(t: Trie, w: seq<bit>, k: nat, i: nat)
    requires k + 1 < |w| && t.At(w, k, i) && t.ch[2 * i + w[k]] >= 0
    ensures t.At(w, k + 1, t.ch[2 * i + w[k]])
  {
    SlotOnFreshPath(t, w, k, i);
    assert t.SlotOk(i, w[k]);
    forall j | 0 <= j < t.n ensures t.Justified(t.path[j], w[..k + 1]) {
      assert t.Justified(t.path[j], w[..k]);
      if t.path[j] <= w[..k] { assert t.path[j] <= w[..k + 1]; }
    }
  }

  lemma SetLeafKeeps(t: Trie, w: seq<bit>, i: nat, sym: nat)
    requires |w| > 0 && t.At(w, |w| - 1, i)
    ensures var u := t.SetLeaf(i, w[|w| - 1], sym); u.Inv([]) && u.codes == t.codes[w := sym]
  {
    SlotOnFreshPath(t, w, |w| - 1, i);
    SetLeafInv(t, w, i, sym);
  }

  lemma SetLeafInv(t: Trie, w: seq<bit>, i: nat, sym: nat)
    requires |w| > 0 && t.Inv(w[..|w| - 1]) && i < t.n && t.path[i] == w[..|w| - 1]
    requires t.ch[2 * i + w[|w| - 1]] == EMPTY && t.Along(w, |w| - 1)
    ensures var u := t.SetLeaf(i, w[|w| - 1], sym); u.Inv([]) && u.codes == t.codes[w := sym]
  {
    var m := |w| - 1;
    var u := t.SetLeaf(i, w[m], sym);
    assert w == w[..m] + [w[m]];
    assert u.Labelled();
    forall j, d: bit | 0 <= j < u.n ensures u.SlotOk(j, d) {
      assert t.SlotOk(j, d);
      assert u.path[j] + [d] == w ==> u.path[j] == w[..m] && d == w[m];
    }
    forall c, k | c in u.codes && 0 <= k < |c| ensures u.StepOk(c, k) {
      if c != w { assert t.StepOk(c, k); }
    }
    forall j | 0 <= j < u.n ensures u.Justified(u.path[j], []) {
      assert t.Justified(t.path[j], w[..m]);
      if t.path[j] <= w[..m] {
        assert t.path[j] < w && w in u.codes;
      } else {
        var c :| c in t.codes && t.path[j] < c;
        assert c in u.codes;
      }
    }
  }

  class Tree {
    const ch: array<int>
    var n: nat
    ghost var path: seq<seq<bit>>
    ghost var node: map<seq<bit>, nat>
    ghost var codes: map<seq<bit>, nat>

    ghost function View(): Trie
      reads this, ch
    {
      Trie(ch[..], n, path, node, codes)
    }

    ghost predicate Valid()
      reads this, ch
    {
      ch.Length == 2 * HT_MAX && View().Inv([])
    }

    constructor ()
      ensures fresh(ch) && ch.Length == 2 * HT_MAX
    {
      ch := new int[2 * HT_MAX];
      n := 0;
    }

    /** ht_init: an empty tree. */
    method Init()
      requires ch.Length == 2 * HT_MAX
      modifies this, ch
      ensures Valid() && codes == map[] && n == 1
    {
      n := 1;
      ch[0], ch[1] := EMPTY, EMPTY;
      path, node, codes := [[]], map[[] := 0], map[];
      assert View().Labelled();
      assert View().Justified([], []);
    }

    /** ht_insert: add one codeword, given as a code value and a length. */
    method Insert(code: nat, len: nat, sym: nat)
      requires Valid() && len > 0 && n + len - 1 <= HT_MAX
      requires View().Fresh(MsbBits(code, len))
      modifies this, ch
      ensures Valid() && codes == old(codes)[MsbBits(code, len) := sym]
      ensures n <= old(n) + len - 1
    {
      ghost var w := MsbBits(code, len);
      var cur: nat := 0;
      var i := len - 1;
      while i > 0
        invariant 0 <= i < len
        invariant ch.Length == 2 * HT_MAX && codes == old(codes) && n <= old(n) + (len - 1 - i)
        invariant View().At(w, len - 1 - i, cur)
      {
        MsbDigit(code, len, len - 1 - i);
        cur := Descend(cur, code / Pow2(i) % 2, w, len - 1 - i);
        i := i - 1;
      }
      MsbDigit(code, len, len - 1);
      PlaceLeaf(cur, code / Pow2(0) % 2, sym, w);
    }

    /** One turn of the insertion loop: go to child b, creating it when missing. */
    method Descend(cur: nat, b: bit, ghost w: seq<bit>, ghost k: nat) returns (next: nat)
      requires ch.Length == 2 * HT_MAX && k + 1 < |w| && b == w[k] && View().At(w, k, cur) && n < HT_MAX
      modifies this, ch
      ensures View().At(w, k + 1, next) && codes == old(codes) && n <= old(n) + 1
    {
      ghost var t := View();
      SlotOnFreshPath(t, w, k, cur);
      if ch[2 * cur + b] < 0 {
        var nn := n;
        GrowKeeps(t, w, k, cur);
        n := n + 1;
        ch[2 * nn], ch[2 * nn + 1] := EMPTY, EMPTY;
        ch[2 * cur + b] := nn;
        path, node := path + [path[cur] + [b]], node[path[cur] + [b] := nn];
        assert View() == t.Grow(cur, b);
      } else {
        AdvanceKeeps(t, w, k, cur);
      }
      next := ch[2 * cur + b];
    }

    /** The last bit: the leaf goes straight into the parent's slot. */
    method PlaceLeaf(cur: nat, b: bit, sym: nat, ghost w: seq<bit>)
      requires ch.Length == 2 * HT_MAX && |w| > 0 && b == w[|w| - 1] && View().At(w, |w| - 1, cur)
      modifies this, ch
      ensures Valid() && codes == old(codes)[w := sym] && n == old(n)
    {
      ghost var t := View();
      assert w == path[cur] + [b];
      SetLeafKeeps(t, w, cur, sym);
      hide *;
      ch[2 * cur + b] := Leaf(sym);
      codes := codes[w := sym];
      assert View() == t.SetLeaf(cur, b, sym);
    }

    /** ht_build: the canonical code of the given lengths.  The node budget holds for
        every alphabet DEFLATE uses (at most 320 symbols). */
    method Build(lens: seq<nat>)
      requires ch.Length == 2 * HT_MAX && Codable(lens) && |lens| <= 320
      modifies this, ch
      ensures Valid() && codes == Codes(lens)
      ensures n <= 1 + 14 * |lens| < HT_MAX
    {
      hide Kraft, ValidLens, Codes, CodesUpTo, Counters, Tree.Valid, Code, FirstCode, CountUpTo;
      Init();
      var next: seq<nat> := FirstCodes(lens);
      CountersStart(lens, next);
      var i := 0;
      while i < |lens|
        invariant 0 <= i <= |lens| && |next| == 16 && ch.Length == 2 * HT_MAX
        invariant Valid() && codes == CodesUpTo(lens, i) && n <= 1 + 14 * i && Counters(lens, next, i)
      {
        CountersStep(lens, next, i);
        if lens[i] > 0 {
          InsertSymbol(lens, i, next[lens[i]]);
          next := next[lens[i] := Bump(next[lens[i]], lens, i)];
        }
        i := i + 1;
      }
      AllCodes(lens);
    }

    method InsertSymbol(lens: seq<nat>, i: nat, code: nat)
      requires Valid() && Codable(lens) && HasCode(lens, i) && code == Code(lens, i)
      requires codes == CodesUpTo(lens, i) && n + 14 <= HT_MAX
      modifies this, ch
      ensures Valid() && codes == CodesUpTo(lens, i + 1) && n <= old(n) + 14
    {
      NextIsFresh(lens, i, View());
      Insert(code, lens[i], i);
    }

    /** ht_decode: walk the tree bit by bit. */
    method Decode(b: Reader) returns (r: int)
      requires Valid() && b.Valid()
      requires PrefixFreeMap(codes) && forall c :: c in codes ==> |c| <= MAX_BITS
      modifies b
      ensures b.Valid()
      ensures match DecodeSymbol(codes, b.src, old(b.Pos()))
              case Sym(s, size) => r == s && b.Pos() == old(b.Pos()) + size
              case NoSym => r == -1
    {
      WalkDecodes(View(), b.src, b.Pos());
      InnerSlotsInRange(View());
      r := WalkBits(b);
    }

    /** The loop of ht_decode. */
    method WalkBits(b: Reader) returns (r: int)
      requires InRange(ch[..], n) && b.Valid()
      modifies b
      ensures b.Valid()
      ensures match Walk(ch[..], n, b.src, old(b.Pos()), 0, 0)
              case Sym(s, size) => r == s && b.Pos() == old(b.Pos()) + size
              case NoSym => r == -1
    {
      hide Window, Value, BitAt, InRange;
      ghost var p := b.Pos();
      var cur: nat := 0;
      var depth := 0;
      RangeBounds(ch[..], n, cur);
      while depth < 16
        invariant 0 <= depth <= 16 && InRange(ch[..], n) && b.Valid() && b.Pos() == p + depth && cur < n
        invariant Walk(ch[..], n, b.src, p, depth, cur) == Walk(ch[..], n, b.src, p, 0, 0)
      {
        OneBit(b.src, p + depth);
        RangeBounds(ch[..], n, cur);
        var d := b.Read(1);
        var child := ch[2 * cur + d];
        assert ch[..][2 * cur + d] == child;
        if child == EMPTY { return -1; }
        if child < EMPTY { return -2 - child; }
        cur := child;
        depth := depth + 1;
      }
      return -1;
    }
  }

  /** The next code of every length: its first code plus the symbols already placed. */
  ghost predicate Counters(lens: seq<nat>, next: seq<nat>, i: nat)
    requires ValidLens(lens) && i <= |lens|
  {
    |next| == 16 && forall l :: 0 < l <= 15 ==> next[l] == FirstCode(lens, l) + CountUpTo(lens, l, i)
  }

  lemma CountersStart(lens: seq<nat>, next: seq<nat>)
    requires Codable(lens) && |next| == 16 && forall l :: 0 < l <= 15 ==> next[l] == FirstCode(lens, l)
    ensures Counters(lens, next, 0) && CodesUpTo(lens, 0) == map[]
  {
  }

  lemma CountersStep(lens: seq<nat>, next: seq<nat>, i: nat)
    requires Codable(lens) && i < |lens| && Counters(lens, next, i)
    ensures lens[i] == 0 ==> Counters(lens, next, i + 1) && CodesUpTo(lens, i + 1) == CodesUpTo(lens, i)
    ensures lens[i] > 0 ==>
              && HasCode(lens, i) && lens[i] <= 15 && next[lens[i]] == Code(lens, i)
              && next[lens[i]] == FirstCode(lens, lens[i]) + CountUpTo(lens, lens[i], i)
              && Counters(lens, next[lens[i] := next[lens[i]] + 1], i + 1)
  {
    if lens[i] > 0 { CountingIsCanonical(lens, i); }
  }

  lemma AllCodes(lens: seq<nat>)
    requires ValidLens(lens)
    ensures CodesUpTo(lens, |lens|) == Codes(lens)
  {
  }

  /** `next_code[len]++` on 32 bits; it never wraps. */
  function Bump(code: nat, lens: seq<nat>, i: nat): (r: nat)
    requires Codable(lens) && HasCode(lens, i)
    requires code == FirstCode(lens, lens[i]) + CountUpTo(lens, lens[i], i)
    ensures r == code + 1
  {
    CountersSmall(lens, lens[i]);
    CountMonotone(lens, lens[i], i + 1, |lens|);
    FullValue();
    (code + 1) % TWO32
  }

  /** First step of ht_build: how many codes there are of each length. */
  method CountLengths(lens: seq<nat>) returns (blCount: seq<nat>)
    requires ValidLens(lens)
    ensures |blCount| == 16 && blCount[0] == 0
    ensures forall l :: 0 < l <= 15 ==> blCount[l] == CountUpTo(lens, l, |lens|)
  {
    blCount := seq(16, _ => 0);
    var i := 0;
    while i < |lens|
      invariant 0 <= i <= |lens| && |blCount| == 16 && blCount[0] == 0
      invariant forall l :: 0 < l <= 15 ==> blCount[l] == CountUpTo(lens, l, i)
    {
      if lens[i] > 0 { blCount := blCount[lens[i] := blCount[lens[i]] + 1]; }
      i := i + 1;
    }
  }

  /** Second step of ht_build: the first code value of each length. */
  method FirstCodes(lens: seq<nat>) returns (next: seq<nat>)
    requires Codable(lens)
    ensures |next| == 16
    ensures forall l :: 0 < l <= 15 ==> next[l] == FirstCode(lens, l)
  {
    hide Kraft, ValidLens, CountUpTo, FirstCode;
    var blCount := CountLengths(lens);
    next := seq(16, _ => 0);
    var bits := 1;
    while bits <= 15
      invariant 1 <= bits <= 16 && |next| == 16 && next[0] == 0
      invariant forall l :: 0 < l < bits ==> next[l] == FirstCode(lens, l)
    {
      DoubledFits(lens, bits, next[bits - 1] + blCount[bits - 1]);
      next := next[bits := 2 * (next[bits - 1] + blCount[bits - 1]) % TWO32];
      bits := bits + 1;
    }
  }

  lemma DoubledFits(lens: seq<nat>, l: nat, x: nat)
    requires Codable(lens) && 0 < l <= 15
    requires x == if l == 1 then 0 else FirstCode(lens, l - 1) + CountUpTo(lens, l - 1, |lens|)
    ensures 2 * x % TWO32 == FirstCode(lens, l)
  {
    CountersSmall(lens, l);
    FullValue();
    hide Kraft, ValidLens, CountUpTo;
    assert 2 * x == FirstCode(lens, l);
  }

  lemma NextIsFresh(lens: seq<nat>, i: nat, t: Trie)
    requires Codable(lens) && HasCode(lens, i) && t.codes == CodesUpTo(lens, i)
    ensures t.Fresh(Codeword(lens, i))
  {
    forall c | c in t.codes ensures !(c <= Codeword(lens, i)) && !(Codeword(lens, i) <= c) {
      CodesSound(lens, i, c);
      PrefixFree(lens, t.codes[c], i);
      PrefixFree(lens, i, t.codes[c]);
    }
  }

  /** Every inner slot of the first n nodes names one of them. */
  ghost predicate InRange(ch: seq<int>, n: nat) {
    |ch| == 2 * HT_MAX && 0 < n <= HT_MAX && forall k :: 0 <= k < 2 * n ==> ch[k] < n
  }

  /** The walk of ht_decode from node i after d bits, as a function. */
  ghost function Walk(ch: seq<int>, n: nat, src: seq<byte>, p: nat, d: nat, i: nat): Symbol
    requires InRange(ch, n) && i < n && d <= 16
    decreases 16 - d
  {
    if d == 16 then NoSym
    else
      var v := ch[2 * i + BitAt(src, p + d)];
      if v == EMPTY then NoSym
      else if v < EMPTY then Sym(-2 - v, d + 1)
      else Walk(ch, n, src, p, d + 1, v)
  }

  lemma InnerSlotsInRange(t: Trie)
    requires t.Inv([])
    ensures InRange(t.ch, t.n)
  {
    forall k | 0 <= k < 2 * t.n ensures t.ch[k] < t.n {
      assert t.SlotOk(k / 2, k % 2);
      assert k == 2 * (k / 2) + k % 2;
    }
  }

  lemma RangeBounds(ch: seq<int>, n: nat, i: nat)
    requires InRange(ch, n)
    ensures n > 0 && 2 * n <= |ch| && (i < n ==> ch[2 * i] < n && ch[2 * i + 1] < n)
  {
  }

  lemma OneBit(src: seq<byte>, p: nat)
    ensures Value(Window(src, p, 1)) == BitAt(src, p)
  {
    var w := Window(src, p, 1);
    assert w[1..] == [];
    assert w[0] == BitAt(src, p);
  }

  /** What the slot under the next stream bit says about the codewords the stream can
      still match. */
  lemma SlotMeaning(t: Trie, src: seq<byte>, p: nat, d: nat, i: nat)
    requires t.Inv([]) && i < t.n && t.path[i] == Window(src, p, d)
    ensures var v := t.ch[2 * i + BitAt(src, p + d)];
      if v == EMPTY then forall k :: d < k ==> Window(src, p, k) !in t.codes
      else if v < EMPTY then Window(src, p, d + 1) in t.codes && v == Leaf(t.codes[Window(src, p, d + 1)])
      else v < t.n && t.path[v] == Window(src, p, d + 1) && Window(src, p, d + 1) !in t.codes
  {
    var b := BitAt(src, p + d);
    assert t.SlotOk(i, b);
    assert Window(src, p, d + 1) == t.path[i] + [b];
    forall k | d < k && Window(src, p, k) in t.codes
      ensures t.StepOk(Window(src, p, k), d)
              && t.ch[2 * i + b] == t.ch[2 * t.node[Window(src, p, k)[..d]] + Window(src, p, k)[d]]
    {
      WindowSplit(src, p, d, k - d);
      assert Window(src, p, k)[..d] == t.path[i];
    }
  }

  lemma {:induction false} WalkFrom(t: Trie, src: seq<byte>, p: nat, d: nat, i: nat)
    requires t.Inv([]) && InRange(t.ch, t.n) && d <= 16 && i < t.n && t.path[i] == Window(src, p, d)
    requires forall k :: 0 < k <= d ==> Window(src, p, k) !in t.codes
    ensures match Walk(t.ch, t.n, src, p, d, i)
            case Sym(s, size) => 0 < size && Window(src, p, size) in t.codes && t.codes[Window(src, p, size)] == s
            case NoSym => forall k :: 0 < k <= 16 ==> Window(src, p, k) !in t.codes
    decreases 16 - d
  {
    if d < 16 {
      SlotMeaning(t, src, p, d, i);
      var v := t.ch[2 * i + BitAt(src, p + d)];
      if v >= 0 { WalkFrom(t, src, p, d + 1, v); }
    }
  }

  /** The tree walk finds the codeword the stream starts with. */
  lemma WalkDecodes(t: Trie, src: seq<byte>, p: nat)
    requires t.Inv([]) && PrefixFreeMap(t.codes) && forall c :: c in t.codes ==> |c| <= MAX_BITS
    ensures InRange(t.ch, t.n) && Walk(t.ch, t.n, src, p, 0, 0) == DecodeSymbol(t.codes, src, p)
  {
    InnerSlotsInRange(t);
    WalkFrom(t, src, p, 0, 0);
    var r := Walk(t.ch, t.n, src, p, 0, 0);
    if r.Sym? {
      FindCodeUnique(t.codes, src, p, 1, r.size);
    } else {
      FindCodeSound(t.codes, src, p, 1);
    }
  }
}
