/** The kernel heap as the source writes it: block headers in memory, linked both ways,
    split, merged and flagged in place. */
module Heap {
  import opened Bits
  import opened HeapModel

  const MAGIC: nat := 0xDEADBEEF
  const NULL: nat := 0

  datatype Header = Header(magic: nat, size: nat, free: bool, next: nat, prev: nat)

  /** Address of block i, NULL past either end of the list. */
  function Link(bs: seq<Block>, i: int): nat {
    if 0 <= i < |bs| then bs[i].addr else NULL
  }

  function HeaderOf(bs: seq<Block>, i: nat): Header
    requires i < |bs|
  {
    Header(MAGIC, bs[i].size, bs[i].free, Link(bs, i + 1), Link(bs, i - 1))
  }

  ghost predicate HeaderAt(mem: map<nat, Header>, bs: seq<Block>, i: nat)
    requires i < |bs|
  {
    bs[i].addr in mem && mem[bs[i].addr] == HeaderOf(bs, i)
  }

  /** Memory holds the headers of the block list, with consistent links. */
  ghost predicate Represents(mem: map<nat, Header>, bs: seq<Block>) {
    forall i :: 0 <= i < |bs| ==> HeaderAt(mem, bs, i)
  }

  class KernelHeap {
    var mem: map<nat, Header>
    const start: nat
    const total: nat
    ghost var blocks: seq<Block>

    ghost predicate Valid()
      reads this
    {
      && MIN_SPLIT < start && start + total <= TWO32
      && Sound(blocks, start, total) && Represents(mem, blocks)
    }

    /** heap_init: one free block. */
    constructor (start: nat, size: nat)
      requires MIN_SPLIT < start && start + size <= TWO32 && HDR <= size
      ensures Valid() && this.start == start && total == size
      ensures blocks == [Block(start, size - HDR, true)]
    {
      this.start, total := start, size;
      mem := map[start := Header(MAGIC, size - HDR, true, NULL, NULL)];
      blocks := [Block(start, size - HDR, true)];
    }

    /** kmalloc: first fit.  The result is NULL or the payload of the block taken. */
    method Malloc(request: nat) returns (p: nat)
      requires Valid() && request < TWO32
      modifies this
      ensures Valid()
      ensures request == 0 ==> p == NULL && blocks == old(blocks)
      ensures request > 0 ==>
        var size := Round8(request);
        var f := FirstFit(old(blocks), size, 0);
        if f == |old(blocks)| then p == NULL && blocks == old(blocks)
        else blocks == Take(old(blocks), f, size) && f < |blocks| && p == blocks[f].Payload() && !blocks[f].free
      ensures p != NULL ==> p >= 20 && p - 20 in mem && mem[p - 20].magic == 0xDEAD_BEEF && !mem[p - 20].free
                            && mem[p - 20].size >= Round8(request)
    {
      if request == 0 { return NULL; }
      var size := Round8(request);
      var curr := start;
      ghost var i: nat := 0;
      while curr != NULL
        invariant 0 <= i <= |blocks| && curr == Link(blocks, i) && Valid() && blocks == old(blocks)
        invariant FirstFit(blocks, size, 0) == FirstFit(blocks, size, i)
        decreases |blocks| - i
      {
        NonNull(blocks, start, total, i);
        assert HeaderAt(mem, blocks, i);
        if mem[curr].free && mem[curr].size >= size {
          SplitAndTake(curr, size, i);
          assert HeaderAt(mem, blocks, i);
          return curr + HDR;
        }
        curr := mem[curr].next;
        i := i + 1;
      }
      AtEnd(blocks, start, total, i);
      return NULL;
    }

    /** split_block followed by `curr->free = false`. */
    method SplitAndTake(b: nat, size: nat, ghost i: nat)
      requires Valid() && i < |blocks| && b == blocks[i].addr && blocks[i].free && blocks[i].size >= size
      modifies this
      ensures Valid() && blocks == Take(old(blocks), i, size)
    {
      TakeKeeps(blocks, start, total, i, size);
      InsideArena(blocks, start, total, i);
      ghost var bs := blocks;
      assert HeaderAt(mem, bs, i);
      if i + 1 < |bs| {
        assert HeaderAt(mem, bs, i + 1) && Follows(bs, i + 1);
      }
      var h := mem[b];
      assert size + HDR + MIN_SPLIT < TWO32;
      if h.size < size + HDR + MIN_SPLIT {
        mem := mem[b := h.(free := false)];
        blocks := Take(bs, i, size);
        TakeWholeLinks(bs, start, total, i, size, old(mem), mem);
      } else {
        var n := b + HDR + size;
        mem := mem[n := Header(MAGIC, h.size - size - HDR, true, h.next, b)];
        if h.next != NULL { mem := mem[h.next := mem[h.next].(prev := n)]; }
        mem := mem[b := mem[b].(next := n, size := size)];
        mem := mem[b := mem[b].(free := false)];
        blocks := Take(bs, i, size);
        TakeSplitLinks(bs, start, total, i, size, old(mem), mem);
      }
    }

    /** kfree: flag the block free and merge it with free neighbours. */
    method Free(p: nat, ghost i: nat)
      requires Valid()
      requires p == NULL || (p >= HDR && p - HDR in mem
                             && (mem[p - HDR].magic == MAGIC ==>
                                   i < |blocks| && !blocks[i].free && p == blocks[i].Payload()))
      modifies this
      ensures Valid()
      ensures blocks == if p == NULL || old(mem)[p - HDR].magic != MAGIC then old(blocks) else Release(old(blocks), i)
    {
      if p == NULL { return; }
      var b := p - HDR;
      if mem[b].magic != MAGIC { return; }
      ReleaseKeeps(blocks, start, total, i);
      ghost var bs := blocks;
      assert HeaderAt(mem, bs, i);
      mem := mem[b := mem[b].(free := true)];
      blocks := bs[i := bs[i].(free := true)];
      MarkFree(bs, start, total, i, old(mem), mem);
      ghost var lo: nat := i;
      assert HeaderAt(mem, blocks, i);
      if i > 0 { InsideArena(bs, start, total, i - 1); }
      if mem[b].prev != NULL {
        PrevIs(blocks, i);
        assert HeaderAt(mem, blocks, i - 1);
        if mem[mem[b].prev].free {
          b := mem[b].prev;
          lo := i - 1;
        }
      }
      MergeFree(b, lo);
      FreedRun(bs, start, total, i);
    }

    /** merge_free: absorb following free blocks. */
    method MergeFree(b: nat, ghost lo: nat)
      requires MIN_SPLIT < start && start + total <= TWO32 && Tiles(blocks, start, total) && Represents(mem, blocks)
      requires lo < |blocks| && b == blocks[lo].addr
      modifies this
      ensures Tiles(blocks, start, total) && Represents(mem, blocks)
      ensures blocks == Absorb(old(blocks), lo)
    {
      while mem[b].next != NULL && mem[mem[b].next].free
        invariant Tiles(blocks, start, total) && Represents(mem, blocks)
        invariant lo < |blocks| && b == blocks[lo].addr && HeaderAt(mem, blocks, lo)
        invariant lo + 1 < |blocks| ==> HeaderAt(mem, blocks, lo + 1)
        invariant Absorb(blocks, lo) == Absorb(old(blocks), lo)
        decreases |blocks|
      {
        assert HeaderAt(mem, blocks, lo);
        assert HeaderAt(mem, blocks, lo + 1) && Follows(blocks, lo + 1);
        ghost var bs, m := blocks, mem;
        if lo + 2 < |bs| { assert HeaderAt(mem, bs, lo + 2) && Follows(bs, lo + 2); }
        var nx := mem[b].next;
        mem := mem[b := mem[b].(size := mem[b].size + (HDR + mem[nx].size))];
        mem := mem[b := mem[b].(next := mem[nx].next)];
        if mem[b].next != NULL { mem := mem[mem[b].next := mem[mem[b].next].(prev := b)]; }
        blocks := AbsorbOne(bs, lo);
        AbsorbTiles(bs, start, total, lo);
        AbsorbLinks(bs, start, total, lo, m, mem);
      }
      assert HeaderAt(mem, blocks, lo);
      if lo + 1 < |blocks| { InsideArena(blocks, start, total, lo + 1); assert HeaderAt(mem, blocks, lo + 1); }
    }

    /** heap_free_space and heap_used_space */
    method Spaces() returns (free: nat, used: nat)
      requires Valid()
      ensures free == FreeSpace(blocks) && used == UsedSpace(blocks)
      ensures free + used + HDR * |blocks| == total
    {
      free, used := 0, 0;
      var curr := start;
      ghost var i: nat := 0;
      while curr != NULL
        invariant 0 <= i <= |blocks| && curr == Link(blocks, i)
        invariant free == FreeSpace(blocks[..i]) && used == UsedSpace(blocks[..i])
        decreases |blocks| - i
      {
        NonNull(blocks, start, total, i);
        assert HeaderAt(mem, blocks, i);
        assert blocks[..i + 1][..i] == blocks[..i] && blocks[..i + 1][i] == blocks[i];
        if mem[curr].free { free := free + mem[curr].size; } else { used := used + mem[curr].size; }
        curr := mem[curr].next;
        i := i + 1;
      }
      AtEnd(blocks, start, total, i);
      assert blocks[..i] == blocks;
      SpaceIsConserved(blocks, start, total);
    }
  }

  /** Merge block lo with its successor. */
  function AbsorbOne(bs: seq<Block>, lo: nat): seq<Block>
    requires lo + 1 < |bs|
  {
    bs[..lo] + [bs[lo].(size := bs[lo].size + (HDR + bs[lo + 1].size))] + bs[lo + 2..]
  }

  /** Merge block lo with all free blocks that follow it. */
  function Absorb(bs: seq<Block>, lo: nat): seq<Block>
    requires lo < |bs|
    decreases |bs|
  {
    if lo + 1 < |bs| && bs[lo + 1].free then Absorb(AbsorbOne(bs, lo), lo) else bs
  }

  lemma PrevIs(bs: seq<Block>, i: nat)
    requires i < |bs| && Link(bs, i - 1) != NULL
    ensures i > 0 && Link(bs, i - 1) == bs[i - 1].addr
  {
  }

  lemma MarkFree(bs: seq<Block>, start: nat, total: nat, i: nat, m: map<nat, Header>, m2: map<nat, Header>)
    requires Tiles(bs, start, total) && Represents(m, bs) && i < |bs|
    requires m2 == m[bs[i].addr := HeaderOf(bs, i).(free := true)]
    ensures var t := bs[i := bs[i].(free := true)]; Tiles(t, start, total) && Represents(m2, t)
  {
    var t := bs[i := bs[i].(free := true)];
    forall j | 0 < j < |t| ensures Follows(t, j) { assert Follows(bs, j); }
    forall j | 0 <= j < |t| ensures HeaderAt(m2, t, j) {
      assert HeaderAt(m, bs, j);
      if j != i { AddrsDiffer(bs, start, total, i, j); }
    }
  }

  lemma AbsorbTiles(bs: seq<Block>, start: nat, total: nat, lo: nat)
    requires Tiles(bs, start, total) && lo + 1 < |bs|
    ensures Tiles(AbsorbOne(bs, lo), start, total)
  {
    var t := AbsorbOne(bs, lo);
    assert Follows(bs, lo + 1);
    forall j | 0 < j < |t| ensures Follows(t, j) {
      if j <= lo { assert Follows(bs, j); } else { assert t[j] == bs[j + 1] && Follows(bs, j + 1); }
    }
    if lo + 2 < |bs| { assert t[|t| - 1] == bs[|bs| - 1]; }
  }

  lemma AbsorbLinks(bs: seq<Block>, start: nat, total: nat, lo: nat, m: map<nat, Header>, m2: map<nat, Header>)
    requires Tiles(bs, start, total) && start > 0 && Represents(m, bs) && lo + 1 < |bs|
    requires var b := bs[lo].addr;
      && b in m2
      && m2[b] == Header(MAGIC, bs[lo].size + (HDR + bs[lo + 1].size), bs[lo].free,
                         Link(bs, lo + 2), Link(bs, lo - 1))
      && (lo + 2 < |bs| ==> bs[lo + 2].addr in m2 && m2[bs[lo + 2].addr] == HeaderOf(bs, lo + 2).(prev := b))
      && forall a :: a in m && a != b && a != Link(bs, lo + 2) ==> a in m2 && m2[a] == m[a]
    ensures Represents(m2, AbsorbOne(bs, lo))
  {
    var t := AbsorbOne(bs, lo);
    forall j | 0 <= j < |t| ensures HeaderAt(m2, t, j) {
      if j < lo {
        assert t[j] == bs[j] && HeaderAt(m, bs, j);
        AddrsDiffer(bs, start, total, j, lo);
        InsideArena(bs, start, total, j);
        if lo + 2 < |bs| { AddrsDiffer(bs, start, total, j, lo + 2); }
      } else if j == lo + 1 {
        assert t[j] == bs[lo + 2] && (lo + 3 < |bs| ==> t[j + 1] == bs[lo + 3]);
      } else if j > lo + 1 {
        assert t[j] == bs[j + 1] && t[j - 1] == bs[j] && (j + 2 < |bs| ==> t[j + 1] == bs[j + 2])
          && HeaderAt(m, bs, j + 1);
        AddrsDiffer(bs, start, total, j + 1, lo);
        AddrsDiffer(bs, start, total, j + 1, lo + 2);
      }
    }
  }

  /** On a coalesced list the merge loop absorbs exactly the free neighbours. */
  lemma FreedRun(bs: seq<Block>, start: nat, total: nat, i: nat)
    requires Sound(bs, start, total) && i < |bs| && !bs[i].free
    ensures Absorb(bs[i := bs[i].(free := true)], Low(bs, i)) == Release(bs, i)
  {
    var t := bs[i := bs[i].(free := true)];
    var lo, hi := Low(bs, i), High(bs, i);
    assert hi + 1 < |bs| ==> Merges(bs, hi + 1);
    if i + 1 < |bs| { assert Follows(bs, i + 1); }
    if i > 0 { assert Follows(bs, i); }
    var u := if lo < i then AbsorbOne(t, lo) else t;
    assert Absorb(t, lo) == Absorb(u, lo);
    assert lo + 1 < |u| ==> u[lo + 1] == bs[i + 1];
    if hi > i {
      var v := AbsorbOne(u, lo);
      assert Absorb(u, lo) == Absorb(v, lo);
      assert lo + 1 < |v| ==> v[lo + 1] == bs[i + 2];
      assert v == Release(bs, i);
    } else {
      assert u == Release(bs, i);
    }
  }

  lemma NonNull(bs: seq<Block>, start: nat, total: nat, i: nat)
    requires Tiles(bs, start, total) && start > 0 && i <= |bs| && Link(bs, i) != NULL
    ensures i < |bs| && bs[i].addr == Link(bs, i)
  {
  }

  lemma AtEnd(bs: seq<Block>, start: nat, total: nat, i: nat)
    requires Tiles(bs, start, total) && start > 0 && i <= |bs| && Link(bs, i) == NULL
    ensures i == |bs|
  {
    if i < |bs| { InsideArena(bs, start, total, i); }
  }

  /** Different blocks have different addresses. */
  lemma AddrsDiffer(bs: seq<Block>, start: nat, total: nat, i: nat, j: nat)
    requires Tiles(bs, start, total) && i < |bs| && j < |bs| && i != j
    ensures bs[i].addr != bs[j].addr
  {
    if i < j { AddrsIncrease(bs, start, total, i, j); } else { AddrsIncrease(bs, start, total, j, i); }
  }

  lemma TakeWholeLinks(bs: seq<Block>, start: nat, total: nat, i: nat, size: nat, m: map<nat, Header>,
                       m2: map<nat, Header>)
    requires Tiles(bs, start, total) && Represents(m, bs) && i < |bs| && bs[i].size >= size
    requires bs[i].size < size + HDR + MIN_SPLIT
    requires m2 == m[bs[i].addr := HeaderOf(bs, i).(free := false)]
    ensures Represents(m2, Take(bs, i, size))
  {
    var t := Take(bs, i, size);
    forall j | 0 <= j < |t| ensures HeaderAt(m2, t, j) {
      assert HeaderAt(m, bs, j);
      if j != i { AddrsDiffer(bs, start, total, i, j); }
    }
  }

  lemma TakeSplitLinks(bs: seq<Block>, start: nat, total: nat, i: nat, size: nat, m: map<nat, Header>,
                       m2: map<nat, Header>)
    requires Tiles(bs, start, total) && start > 0 && Represents(m, bs) && i < |bs|
             && bs[i].size >= size + HDR + MIN_SPLIT
    requires var b := bs[i].addr; var n := b + HDR + size;
      && n in m2 && m2[n] == Header(MAGIC, bs[i].size - size - HDR, true, Link(bs, i + 1), b)
      && b in m2 && m2[b] == Header(MAGIC, size, false, n, Link(bs, i - 1))
      && (i + 1 < |bs| ==> bs[i + 1].addr in m2 && m2[bs[i + 1].addr] == HeaderOf(bs, i + 1).(prev := n))
      && forall a :: a in m && a != n && a != b && a != Link(bs, i + 1) ==> a in m2 && m2[a] == m[a]
    ensures Represents(m2, Take(bs, i, size))
  {
    var t := Take(bs, i, size);
    if i + 1 < |bs| { assert Follows(bs, i + 1); }
    forall j | 0 <= j < |t| ensures HeaderAt(m2, t, j) {
      if j < i {
        assert t[j] == bs[j] && HeaderAt(m, bs, j);
        AddrsIncrease(bs, start, total, j, i);
        if i + 1 < |bs| { AddrsDiffer(bs, start, total, j, i + 1); }
        InsideArena(bs, start, total, j);
      } else if j == i + 2 {
        assert t[j] == bs[i + 1] && (i + 2 < |bs| ==> t[j + 1] == bs[i + 2]);
      } else if j > i + 2 {
        assert t[j] == bs[j - 1] && t[j - 1] == bs[j - 2] && (j < |bs| ==> t[j + 1] == bs[j]) && HeaderAt(m, bs, j - 1);
        AddrsIncrease(bs, start, total, i, j - 1);
        AddrsIncrease(bs, start, total, i + 1, j - 1);
      }
    }
  }
}
