/** The physical frame allocator (src/pmm.c): a bitmap of page frames packed into 32-bit
    words, and a count of the frames in use. */
module Pmm {
  import opened Bits

  const PAGE_SIZE: nat := 4096
  const MAX_PAGES: nat := 262144
  const WORDS: nat := 8192

  // ---- bits of a word -----------------------------------------------------------------------

  predicate TestBit(w: nat, i: nat) { if i == 0 then w % 2 == 1 else TestBit(w / 2, i - 1) }

  /** w | 1 << i */
  function SetBit(w: nat, i: nat): nat { if i == 0 then w / 2 * 2 + 1 else w % 2 + 2 * SetBit(w / 2, i - 1) }

  /** w & ~(1 << i) */
  function ClearBit(w: nat, i: nat): nat { if i == 0 then w / 2 * 2 else w % 2 + 2 * ClearBit(w / 2, i - 1) }

  lemma Halves(a: nat, b: nat)
    requires a < 2
    ensures (a + 2 * b) % 2 == a && (a + 2 * b) / 2 == b
  {
  }

  /** Bit i of a word is its digit of weight 2^i. */
  lemma {:induction false} TestBitMeaning(w: nat, i: nat)
    ensures TestBit(w, i) <==> w / Pow2(i) % 2 == 1
  {
    if i > 0 {
      TestBitMeaning(w / 2, i - 1);
      DivDiv(w, 2, Pow2(i - 1));
    }
  }

  lemma {:induction false} TestSet(w: nat, i: nat, j: nat)
    ensures TestBit(SetBit(w, i), j) <==> j == i || TestBit(w, j)
    decreases i
  {
    if i == 0 { Halves(1, w / 2); } else { Halves(w % 2, SetBit(w / 2, i - 1)); }
    if i > 0 && j > 0 { TestSet(w / 2, i - 1, j - 1); }
  }

  lemma {:induction false} TestClear(w: nat, i: nat, j: nat)
    ensures TestBit(ClearBit(w, i), j) <==> j != i && TestBit(w, j)
    decreases i
  {
    if i == 0 { Halves(0, w / 2); } else { Halves(w % 2, ClearBit(w / 2, i - 1)); }
    if i > 0 && j > 0 { TestClear(w / 2, i - 1, j - 1); }
  }

  lemma {:induction false} AllOnes(n: nat, i: nat)
    requires i < n
    ensures TestBit(Pow2(n) - 1, i)
  {
    assert (Pow2(n) - 1) / 2 == Pow2(n - 1) - 1;
    if i > 0 { AllOnes(n - 1, i - 1); }
  }

  // ---- frames in use ------------------------------------------------------------------------

  /** The flags of the first `total` frames. */
  function Flags(words: seq<nat>, total: nat): (r: seq<bool>)
    requires total <= 32 * |words|
    ensures |r| == total && forall p :: 0 <= p < total ==> r[p] == TestBit(words[p / 32], p % 32)
  {
    seq(total, p requires 0 <= p < total => TestBit(words[p / 32], p % 32))
  }

  lemma SetFlag(words: seq<nat>, total: nat, p: nat)
    requires p < total <= 32 * |words|
    ensures Flags(words[p / 32 := SetBit(words[p / 32], p % 32)], total) == Flags(words, total)[p := true]
  {
    hide TestBit, SetBit;
    var now := words[p / 32 := SetBit(words[p / 32], p % 32)];
    forall q | 0 <= q < total ensures Flags(now, total)[q] == Flags(words, total)[p := true][q] {
      if q / 32 == p / 32 { TestSet(words[p / 32], p % 32, q % 32); }
    }
  }

  lemma ClearFlag(words: seq<nat>, total: nat, p: nat)
    requires p < total <= 32 * |words|
    ensures Flags(words[p / 32 := ClearBit(words[p / 32], p % 32)], total) == Flags(words, total)[p := false]
  {
    hide TestBit, ClearBit;
    var now := words[p / 32 := ClearBit(words[p / 32], p % 32)];
    forall q | 0 <= q < total ensures Flags(now, total)[q] == Flags(words, total)[p := false][q] {
      if q / 32 == p / 32 { TestClear(words[p / 32], p % 32, q % 32); }
    }
  }

  function Count(used: seq<bool>): (n: nat)
    ensures n <= |used|
  {
    if used == [] then 0 else Count(used[..|used| - 1]) + if used[|used| - 1] then 1 else 0
  }

  lemma {:induction false} CountUpdate(used: seq<bool>, p: nat, b: bool)
    requires p < |used|
    ensures Count(used[p := b]) == Count(used) + (if b then 1 else 0) - (if used[p] then 1 else 0)
  {
    var n := |used| - 1;
    if p < n {
      assert used[p := b][..n] == used[..n][p := b];
      CountUpdate(used[..n], p, b);
    } else {
      assert used[p := b][..n] == used[..n];
    }
  }

  lemma {:induction false} CountAll(used: seq<bool>)
    requires forall p :: 0 <= p < |used| ==> used[p]
    ensures Count(used) == |used|
  {
    if used != [] { CountAll(used[..|used| - 1]); }
  }

  /** First frame from p on that is not in use; |used| when there is none. */
  function FirstFree(used: seq<bool>, p: nat): (r: nat)
    requires p <= |used|
    ensures p <= r <= |used| && (r < |used| ==> !used[r]) && forall q :: p <= q < r ==> used[q]
    decreases |used| - p
  {
    if p == |used| || !used[p] then p else FirstFree(used, p + 1)
  }

  /** The frames of [first, last) in use, whatever they were. */
  function Reserved(used: seq<bool>, first: nat, last: nat): (r: seq<bool>)
    ensures |r| == |used| && forall p :: 0 <= p < |used| ==> r[p] == (used[p] || first <= p < last)
  {
    seq(|used|, p requires 0 <= p < |used| => used[p] || first <= p < last)
  }

  class FrameAllocator {
    var bitmap: seq<nat>
    var total: nat
    var usedPages: nat

    ghost predicate Fits()
      reads this
    {
      |bitmap| == WORDS && total <= MAX_PAGES
    }

    ghost function Used(): (u: seq<bool>)
      requires Fits()
      reads this
      ensures |u| == total
    {
      Flags(bitmap, total)
    }

    /** The count is the number of set bits below `total`. */
    ghost predicate Valid()
      reads this
    {
      Fits() && usedPages == Count(Used())
    }

    method Test(p: nat) returns (b: bool)
      requires Fits() && p < total
      ensures b == Used()[p]
    {
      b := TestBit(bitmap[p / 32], p % 32);
    }

    /** bm_set, with the count. */
    method Take(p: nat)
      requires Valid() && p < total && !Used()[p]
      modifies this
      ensures Valid() && total == old(total) && Used() == old(Used())[p := true]
    {
      hide Flags, Count, TestBit, SetBit;
      SetFlag(bitmap, total, p);
      CountUpdate(Used(), p, true);
      bitmap := bitmap[p / 32 := SetBit(bitmap[p / 32], p % 32)];
      usedPages := usedPages + 1;
    }

    /** bm_clear, with the count. */
    method Release(p: nat)
      requires Valid() && p < total && Used()[p]
      modifies this
      ensures Valid() && total == old(total) && Used() == old(Used())[p := false]
    {
      hide Flags, Count, TestBit, ClearBit;
      ClearFlag(bitmap, total, p);
      CountUpdate(Used(), p, false);
      bitmap := bitmap[p / 32 := ClearBit(bitmap[p / 32], p % 32)];
      usedPages := usedPages - 1;
    }

    /** pmm_init: everything below the kernel's end is in use, the rest of memory free. */
    constructor (memKb: nat, kernelEnd: nat)
      ensures Valid() && total == Min(memKb / 4, 0x4_0000)
      ensures forall p :: 0 <= p < total ==> (Used()[p] <==> p < (kernelEnd + PAGE_SIZE - 1) / PAGE_SIZE)
    {
      hide Flags, Count, TestBit, Pow2;
      var ones := seq(WORDS, _ => Pow2(32) - 1);
      total := Pages(memKb);
      bitmap := ones;
      usedPages := Pages(memKb);
      new;
      AllSet(bitmap, total);
      CountAll(Used());
      var start := (kernelEnd + PAGE_SIZE - 1) / PAGE_SIZE;
      var i := start;
      while i < total
        invariant Valid() && total == Pages(memKb) && i >= start
        invariant forall p :: 0 <= p < total ==> (Used()[p] <==> !(start <= p < i))
      {
        Release(i);
        i := i + 1;
      }
    }

    /** pmm_alloc_page: the address of the first free frame, 0 when there is none. */
    method Alloc() returns (addr: nat)
      requires Valid()
      modifies this
      ensures Valid() && total == old(total)
      ensures var f := FirstFree(old(Used()), 0);
              if f < total then addr == f * PAGE_SIZE && Used() == old(Used())[f := true]
                                else addr == 0 && Used() == old(Used())
    {
      hide Flags, Count;
      var i := 0;
      while i < total
        invariant i <= total && Valid() && total == old(total) && Used() == old(Used())
        invariant FirstFree(old(Used()), 0) == FirstFree(old(Used()), i)
      {
        var taken := Test(i);
        if !taken {
          Take(i);
          return i * PAGE_SIZE;
        }
        i := i + 1;
      }
      return 0;
    }

    /** pmm_free_page: a frame that is not in use stays as it is. */
    method Free(addr: nat)
      requires Valid()
      modifies this
      ensures Valid() && total == old(total)
      ensures Used() == if addr / PAGE_SIZE < total then old(Used())[addr / PAGE_SIZE := false] else old(Used())
    {
      hide Flags, Count;
      var page := addr / PAGE_SIZE;
      if page < total {
        var taken := Test(page);
        if taken { Release(page); } else { assert Used()[page := false] == Used(); }
      }
    }

    /** pmm_reserve_range. */
    method Reserve(start: nat, size: nat)
      requires Valid() && start < TWO32 && size < TWO32
      modifies this
      ensures Valid() && total == old(total)
      ensures Used() == Reserved(old(Used()), start / PAGE_SIZE, RangeEnd(start, size))
    {
      hide Flags, Count;
      var first := start / PAGE_SIZE;
      ghost var end := RangeEnd(start, size);
      var last := RangeEnd(start, size);
      if last > total { last := total; }
      var i := first;
      while i < last
        invariant Valid() && total == old(total) && first <= i
        invariant Used() == Reserved(old(Used()), first, i) && (i > first ==> i <= last)
      {
        var taken := Test(i);
        ghost var was := Used();
        if !taken { Take(i); }
        assert Used() == was[i := true];
        i := i + 1;
      }
      assert Used() == Reserved(old(Used()), first, end);
    }

    method FreePages() returns (n: nat)
      requires Valid()
      ensures n == Count(Others(Used()))
    {
      CountComplement(Used());
      n := total - usedPages;
    }
  }

  /** The first page behind a range, computed in 32 bits. */
  function RangeEnd(start: nat, size: nat): nat { (start + size + PAGE_SIZE - 1) % TWO32 / PAGE_SIZE }

  /** Some byte of the range lies in page p. */
  predicate Touches(start: nat, size: nat, p: nat) { start < (p + 1) * PAGE_SIZE && p * PAGE_SIZE < start + size }

  /** Page p is the one the range starts in, behind its first `gap` bytes. */
  predicate StartsIn(start: nat, p: nat, gap: nat) { p == start / PAGE_SIZE && start % PAGE_SIZE > gap }

  /** What is reserved: as long as the rounded end does not pass 2^32, the pages the range
      touches, and for an empty range that starts inside a page that page too; once it does,
      nothing but the page the range starts in, and that only for the very largest sizes
      and not when the end passes 2^33. */
  lemma ReserveMeaning(start: nat, size: nat, p: nat)
    requires start < TWO32 && size < TWO32
    ensures start / PAGE_SIZE <= p < RangeEnd(start, size)
            <==> if start + size + PAGE_SIZE - 1 < TWO32
                 then Touches(start, size, p) || (size == 0 && StartsIn(start, p, 0))
                 else StartsIn(start, p, TWO32 - size) && start + size + PAGE_SIZE - 1 < 2 * TWO32
  {
    var end := start + size + PAGE_SIZE - 1;
    if end < TWO32 {
      SmallMod(end, TWO32);
      RoundedEnd(start, size, p);
    } else if end >= 2 * TWO32 {
      DivUnique(end, TWO32, 2, end - 2 * TWO32);
    } else {
      DivUnique(end, TWO32, 1, end - TWO32);
      WrappedEnd(start, TWO32 - size, p);
    }
  }

  lemma RoundedEnd(start: nat, size: nat, p: nat)
    ensures start / PAGE_SIZE <= p < (start + size + PAGE_SIZE - 1) / PAGE_SIZE
            <==> Touches(start, size, p) || (size == 0 && StartsIn(start, p, 0))
  {
  }

  lemma WrappedEnd(start: nat, gap: nat, p: nat)
    requires gap <= start + PAGE_SIZE - 1
    ensures start / PAGE_SIZE <= p < (start + PAGE_SIZE - 1 - gap) / PAGE_SIZE <==> StartsIn(start, p, gap)
  {
  }

  function Pages(memKb: nat): nat { if memKb / 4 > MAX_PAGES then MAX_PAGES else memKb / 4 }

  /** The frames not in use. */
  function Others(used: seq<bool>): (r: seq<bool>)
    ensures |r| == |used| && forall p :: 0 <= p < |used| ==> r[p] == !used[p]
  {
    seq(|used|, p requires 0 <= p < |used| => !used[p])
  }

  lemma AllSet(words: seq<nat>, total: nat)
    requires total <= 32 * |words| && forall k :: 0 <= k < |words| ==> words[k] == Pow2(32) - 1
    ensures forall p :: 0 <= p < total ==> Flags(words, total)[p]
  {
    forall p | 0 <= p < total ensures Flags(words, total)[p] { AllOnes(32, p % 32); }
  }

  lemma {:induction false} CountComplement(used: seq<bool>)
    ensures Count(used) + Count(Others(used)) == |used|
  {
    var n := |used| - 1;
    if used != [] {
      CountComplement(used[..n]);
      assert Others(used)[..n] == Others(used[..n]);
    }
  }
}
