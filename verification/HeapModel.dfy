/** The block list of the kernel heap (src/heap.c) as a sequence, and what allocation
    and release do to it. */
module HeapModel {
  import opened Bits

  const HDR: nat := 20          // sizeof(block_header_t) on i386
  const MIN_SPLIT: nat := 16

  datatype Block = Block(addr: nat, size: nat, free: bool)
  {
    function End(): nat { addr + HDR + size }
    function Payload(): nat { addr + HDR }
  }

  ghost predicate Follows(bs: seq<Block>, i: nat)
    requires 0 < i < |bs|
  {
    bs[i].addr == bs[i - 1].End()
  }

  ghost predicate Merges(bs: seq<Block>, i: nat)
    requires 0 < i < |bs|
  {
    !(bs[i - 1].free && bs[i].free)
  }

  /** Blocks tile the arena [start, start + total). */
  ghost predicate Tiles(bs: seq<Block>, start: nat, total: nat) {
    && |bs| > 0 && bs[0].addr == start && bs[|bs| - 1].End() == start + total
    && forall i :: 0 < i < |bs| ==> Follows(bs, i)
  }

  /** Free neighbours are always merged. */
  ghost predicate Coalesced(bs: seq<Block>) {
    forall i :: 0 < i < |bs| ==> Merges(bs, i)
  }

  ghost predicate Sound(bs: seq<Block>, start: nat, total: nat) {
    Tiles(bs, start, total) && Coalesced(bs)
  }

  // ---- tiling ---------------------------------------------------------------------

  lemma {:induction false} AddrsIncrease(bs: seq<Block>, start: nat, total: nat, i: nat, j: nat)
    requires Tiles(bs, start, total) && i < j < |bs|
    ensures bs[i].End() <= bs[j].addr
    decreases j
  {
    assert Follows(bs, j);
    if i < j - 1 { AddrsIncrease(bs, start, total, i, j - 1); }
  }

  /** Every block lies inside the arena. */
  lemma InsideArena(bs: seq<Block>, start: nat, total: nat, i: nat)
    requires Tiles(bs, start, total) && i < |bs|
    ensures start <= bs[i].addr && bs[i].End() <= start + total
  {
    if i > 0 { AddrsIncrease(bs, start, total, 0, i); }
    if i < |bs| - 1 { AddrsIncrease(bs, start, total, i, |bs| - 1); }
  }

  /** Payloads of different blocks share no byte, and none contains a header. */
  lemma PayloadsDisjoint(bs: seq<Block>, start: nat, total: nat, i: nat, j: nat, a: nat)
    requires Tiles(bs, start, total) && i < |bs| && j < |bs| && i != j
    requires bs[i].Payload() <= a < bs[i].End()
    ensures !(bs[j].addr <= a < bs[j].End())
  {
    if i < j { AddrsIncrease(bs, start, total, i, j); } else { AddrsIncrease(bs, start, total, j, i); }
  }

  // ---- conservation ---------------------------------------------------------------

  function FreeSpace(bs: seq<Block>): nat {
    if bs == [] then 0 else FreeSpace(bs[..|bs| - 1]) + if bs[|bs| - 1].free then bs[|bs| - 1].size else 0
  }

  function UsedSpace(bs: seq<Block>): nat {
    if bs == [] then 0 else UsedSpace(bs[..|bs| - 1]) + if bs[|bs| - 1].free then 0 else bs[|bs| - 1].size
  }

  /** Free bytes, used bytes and headers together are the whole arena. */
  lemma {:induction false} SpaceIsConserved(bs: seq<Block>, start: nat, total: nat)
    requires Tiles(bs, start, total)
    ensures FreeSpace(bs) + UsedSpace(bs) + HDR * |bs| == total
  {
    var n := |bs| - 1;
    if n == 0 {
      assert bs[..0] == [];
    } else {
      var front := bs[..n];
      AddrsIncrease(bs, start, total, 0, n);
      assert Follows(bs, n);
      forall i | 0 < i < |front| ensures Follows(front, i) { assert Follows(bs, i); }
      SpaceIsConserved(front, start, bs[n].addr - start);
    }
  }

  // ---- allocation -----------------------------------------------------------------

  /** `(size + 7) & ~7` on 32 bits. */
  function Round8(size: nat): nat {
    (size + 7) % TWO32 / 8 * 8
  }

  /** First fit from index i on; |bs| when nothing fits. */
  function FirstFit(bs: seq<Block>, size: nat, i: nat): (r: nat)
    requires i <= |bs|
    ensures i <= r <= |bs|
    ensures r < |bs| ==> bs[r].free && bs[r].size >= size
    ensures forall j :: i <= j < r ==> !(bs[j].free && bs[j].size >= size)
    decreases |bs| - i
  {
    if i == |bs| || (bs[i].free && bs[i].size >= size) then i else FirstFit(bs, size, i + 1)
  }

  /** Take block i for `size` bytes, splitting off the rest when it can hold a header
      and 16 bytes more. */
  function Take(bs: seq<Block>, i: nat, size: nat): seq<Block>
    requires i < |bs| && bs[i].size >= size
  {
    var b := bs[i];
    if b.size < size + HDR + MIN_SPLIT then bs[i := b.(free := false)]
    else bs[..i] + [Block(b.addr, size, false), Block(b.addr + HDR + size, b.size - size - HDR, true)] + bs[i + 1..]
  }

  /** Block i becomes a used block of the wanted size and a free one behind it, 20 bytes of
      header between them, if and only if it is 36 bytes or more larger than wanted;
      otherwise it is used whole. */
  lemma TakeMeaning(bs: seq<Block>, i: nat, size: nat)
    requires i < |bs| && bs[i].size >= size
    ensures var r, b := Take(bs, i, size), bs[i];
            && r[..i] == bs[..i] && r[i].addr == b.addr && !r[i].free
            && if b.size >= size + 36 then
                 && |r| == |bs| + 1 && r[i].size == size && r[i + 2..] == bs[i + 1..]
                 && r[i + 1] == Block(b.addr + 20 + size, b.size - size - 20, true)
               else |r| == |bs| && r[i].size == b.size && r[i + 1..] == bs[i + 1..]
  {
  }

  lemma TakeKeeps(bs: seq<Block>, start: nat, total: nat, i: nat, size: nat)
    requires Sound(bs, start, total) && i < |bs| && bs[i].free && bs[i].size >= size
    ensures Sound(Take(bs, i, size), start, total)
  {
    var r := Take(bs, i, size);
    forall j | 0 < j < |r| ensures Follows(r, j) && Merges(r, j) {
      if |r| > |bs| && j > i + 1 {
        assert r[j] == bs[j - 1] && Follows(bs, j - 1) && Merges(bs, j - 1);
      } else if j < |bs| {
        assert Follows(bs, j) && Merges(bs, j);
      }
    }
    if |r| > |bs| && i + 1 < |bs| { assert r[|r| - 1] == bs[|bs| - 1]; }
  }

  // ---- release --------------------------------------------------------------------

  /** First and last block of the free run that releasing block i creates. */
  function Low(bs: seq<Block>, i: nat): nat
    requires i < |bs|
  {
    if i > 0 && bs[i - 1].free then i - 1 else i
  }

  function High(bs: seq<Block>, i: nat): nat
    requires i < |bs|
  {
    if i + 1 < |bs| && bs[i + 1].free then i + 1 else i
  }

  function Release(bs: seq<Block>, i: nat): seq<Block>
    requires i < |bs|
  {
    var lo, hi := Low(bs, i), High(bs, i);
    bs[..lo] + [Merged(bs, lo, hi)] + bs[hi + 1..]
  }

  /** Blocks lo..hi as one free block. */
  function Merged(bs: seq<Block>, lo: nat, hi: nat): Block
    requires lo <= hi < |bs|
  {
    var n := if bs[hi].End() >= bs[lo].addr + HDR then bs[hi].End() - bs[lo].addr - HDR else 0;
    Block(bs[lo].addr, n, true)
  }

  lemma ReleaseKeeps(bs: seq<Block>, start: nat, total: nat, i: nat)
    requires Sound(bs, start, total) && i < |bs| && !bs[i].free
    ensures Sound(Release(bs, i), start, total)
  {
    var lo, hi := Low(bs, i), High(bs, i);
    var r := Release(bs, i);
    if lo < hi { AddrsIncrease(bs, start, total, lo, hi); }
    assert hi + 1 < |bs| ==> Merges(bs, hi + 1);
    assert r[lo].End() == bs[hi].End();
    forall j | 0 < j < |r| ensures Follows(r, j) && Merges(r, j) {
      if j > lo {
        assert r[j] == bs[j + (hi - lo)] && Follows(bs, j + (hi - lo)) && Merges(bs, j + (hi - lo));
      } else {
        assert Follows(bs, j) && Merges(bs, j);
        if j == lo && lo > 0 && lo < i { assert Merges(bs, lo); }
      }
    }
    if hi + 1 < |bs| { assert r[|r| - 1] == bs[|bs| - 1]; }
  }

  /** Releasing what was just taken restores the exact block list. */
  lemma ReleaseUndoesTake(bs: seq<Block>, start: nat, total: nat, i: nat, size: nat)
    requires Sound(bs, start, total) && i < |bs| && bs[i].free && bs[i].size >= size
    ensures i < |Take(bs, i, size)| && Release(Take(bs, i, size), i) == bs
  {
    var t := Take(bs, i, size);
    assert i + 1 < |bs| ==> Merges(bs, i + 1);
    assert i > 0 ==> Merges(bs, i);
    if |t| == |bs| {
      assert Release(t, i) == bs;
    } else {
      assert t[i + 1].free && t[..i] == bs[..i] && t[i + 2..] == bs[i + 1..];
      assert Merged(t, i, i + 1) == bs[i];
      assert bs == bs[..i] + [bs[i]] + bs[i + 1..];
    }
  }

  // ---- when allocation fails ------------------------------------------------------

  /** Bytes a run of adjacent free blocks could hold if it were one block. */
  ghost function RegionCapacity(bs: seq<Block>, lo: nat, hi: nat): int
    requires lo <= hi < |bs|
  {
    bs[hi].End() - bs[lo].Payload()
  }

  ghost predicate FreeRegion(bs: seq<Block>, lo: nat, hi: nat) {
    lo <= hi < |bs| && forall j :: lo <= j <= hi ==> bs[j].free
  }

  /** First fit fails exactly when no contiguous free region, however it is cut into
      blocks, could hold the request. */
  lemma FailsOnlyWhenFull(bs: seq<Block>, start: nat, total: nat, size: nat)
    requires Sound(bs, start, total)
    ensures FirstFit(bs, size, 0) == |bs| <==> forall lo: nat, hi: nat :: FreeRegion(bs, lo, hi) ==>
              RegionCapacity(bs, lo, hi) < size
  {
    forall lo: nat, hi: nat | FreeRegion(bs, lo, hi) ensures lo == hi && RegionCapacity(bs, lo, hi) == bs[lo].size {
      assert lo < hi ==> bs[lo].free && bs[lo + 1].free && Merges(bs, lo + 1);
    }
    var f := FirstFit(bs, size, 0);
    if f < |bs| { assert FreeRegion(bs, f, f); }
    if f == |bs| {
      forall lo: nat, hi: nat | FreeRegion(bs, lo, hi) ensures RegionCapacity(bs, lo, hi) < size {
        assert bs[lo].free && !(bs[lo].free && bs[lo].size >= size);
      }
    }
  }

  // ---- rounding -------------------------------------------------------------------

  /** A block taken for a request can hold it exactly when rounding does not wrap. */
  lemma RoundingHoldsRequest(size: nat)
    requires 0 < size < TWO32
    ensures Round8(size) >= size <==> size <= TWO32 - 8
    ensures size <= TWO32 - 8 ==> Round8(size) < size + 8 && Round8(size) % 8 == 0
    ensures size > TWO32 - 8 ==> Round8(size) == 0
  {
  }

  // ---- runs -----------------------------------------------------------------------

  datatype HeapOp = Alloc(request: nat) | Dealloc(i: nat)

  /** kmalloc and kfree as steps on the block list; freeing needs a live block. */
  ghost predicate OpOk(bs: seq<Block>, op: HeapOp) {
    op.Dealloc? ==> op.i < |bs| && !bs[op.i].free
  }

  function HeapStep(bs: seq<Block>, op: HeapOp): seq<Block>
    requires OpOk(bs, op)
  {
    match op
    case Alloc(request) =>
      var f := FirstFit(bs, Round8(request), 0);
      if request == 0 || f == |bs| then bs else Take(bs, f, Round8(request))
    case Dealloc(i) => Release(bs, i)
  }

  ghost predicate HeapRun(hs: seq<seq<Block>>, ops: seq<HeapOp>, start: nat, size: nat) {
    && |hs| == |ops| + 1 && size >= HDR && hs[0] == [Block(start, size - HDR, true)]
    && forall j :: 0 <= j < |ops| ==> OpOk(hs[j], ops[j]) && hs[j + 1] == HeapStep(hs[j], ops[j])
  }

  /** A block is live from its allocation until its own release, at the same address
      and with the same size, whatever else happens. */
  lemma {:induction false} LiveBlockPersists(
      hs: seq<seq<Block>>, ops: seq<HeapOp>, start: nat, size: nat, i: nat, j: nat, b: Block)
    requires HeapRun(hs, ops, start, size) && i <= j < |hs| && b in hs[i] && !b.free
    requires forall k :: i <= k < j ==> !Frees(hs[k], ops[k], b)
    ensures b in hs[j]
    decreases j
  {
    hide HeapStep, Sound, OpOk;
    if i < j {
      LiveBlockPersists(hs, ops, start, size, i, j - 1, b);
      EveryReachableHeap(hs, ops, start, size, j - 1);
      assert hs[j - 1 + 1] == HeapStep(hs[j - 1], ops[j - 1]) && !Frees(hs[j - 1], ops[j - 1], b);
      LiveBlockStep(hs[j - 1], start, size, ops[j - 1], b);
    }
  }

  /** The operation releases block b. */
  predicate Frees(bs: seq<Block>, op: HeapOp, b: Block) { op.Dealloc? && op.i < |bs| && bs[op.i] == b }

  lemma LiveBlockStep(bs: seq<Block>, start: nat, total: nat, op: HeapOp, b: Block)
    requires Sound(bs, start, total) && OpOk(bs, op) && b in bs && !b.free
    requires !Frees(bs, op, b)
    ensures b in HeapStep(bs, op)
  {
    hide Sound, Take, Release, Round8, FirstFit;
    match op
    case Alloc(request) =>
      var f := FirstFit(bs, Round8(request), 0);
      if request != 0 && f < |bs| { TakeKeepsLive(bs, f, Round8(request), b); }
    case Dealloc(i) => ReleaseKeepsLive(bs, i, b);
  }

  lemma TakeKeepsLive(bs: seq<Block>, f: nat, size: nat, b: Block)
    requires f < |bs| && bs[f].free && bs[f].size >= size && b in bs && !b.free
    ensures b in Take(bs, f, size)
  {
    var j :| 0 <= j < |bs| && bs[j] == b;
    var r := Take(bs, f, size);
    if j < f { assert r[j] == b; } else if |r| > |bs| { assert r[j + 1] == b; } else { assert r[j] == b; }
  }

  lemma ReleaseKeepsLive(bs: seq<Block>, i: nat, b: Block)
    requires i < |bs| && b in bs && !b.free && bs[i] != b
    ensures b in Release(bs, i)
  {
    hide Merged;
    var j :| 0 <= j < |bs| && bs[j] == b;
    var lo, hi, r := Low(bs, i), High(bs, i), Release(bs, i);
    if j < lo { assert r[j] == b; } else { assert r[j - (hi - lo)] == b; }
  }

  /** Every heap reachable by kmalloc and kfree of live blocks is sound: blocks tile the
      arena, no two neighbours are free, and no byte is lost. */
  lemma {:induction false} EveryReachableHeap(hs: seq<seq<Block>>, ops: seq<HeapOp>, start: nat, size: nat, n: nat)
    requires HeapRun(hs, ops, start, size) && n < |hs|
    ensures Sound(hs[n], start, size)
    ensures FreeSpace(hs[n]) + UsedSpace(hs[n]) + HDR * |hs[n]| == size
  {
    if n > 0 {
      EveryReachableHeap(hs, ops, start, size, n - 1);
      var bs, op := hs[n - 1], ops[n - 1];
      assert hs[(n - 1) + 1] == HeapStep(bs, op);
      match op
      case Alloc(request) =>
        var f := FirstFit(bs, Round8(request), 0);
        if request != 0 && f < |bs| { TakeKeeps(bs, start, size, f, Round8(request)); }
      case Dealloc(i) => ReleaseKeeps(bs, start, size, i);
    }
    SpaceIsConserved(hs[n], start, size);
  }
}
