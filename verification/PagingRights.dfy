/** Which pages user code may reach and write (src/paging.c): the user and write bits of
    both table levels, and what mapping a page does to them. */
module PagingRights {
  import opened Bits
  import opened Pmm
  import opened Paging
  import opened PagingSpace

  // ---- the bits of an entry -------------------------------------------------------------------

  predicate WriteBit(e: nat) { e / 2 % 2 == 1 }
  predicate UserBit(e: nat) { e / 4 % 2 == 1 }

  lemma {:induction false} OrDigit(x: nat, y: nat, n: nat)
    ensures BitOr(x, y) / Pow2(n) % 2 == 1 <==> x / Pow2(n) % 2 == 1 || y / Pow2(n) % 2 == 1
  {
    if x == 0 && y == 0 {
      ZeroDiv(Pow2(n));
    } else {
      var b, rest := if x % 2 == 1 || y % 2 == 1 then 1 else 0, BitOr(x / 2, y / 2);
      assert BitOr(x, y) == b + 2 * rest;
      if n == 0 {
        LastBit(b, rest);
      } else {
        OrDigit(x / 2, y / 2, n - 1);
        DivUnique(b + 2 * rest, 2, rest, b);
        DivDiv(b + 2 * rest, 2, Pow2(n - 1));
        DivDiv(x, 2, Pow2(n - 1));
        DivDiv(y, 2, Pow2(n - 1));
      }
    }
  }

  lemma ZeroDiv(d: nat)
    requires d > 0
    ensures 0 / d == 0
  {
    DivUnique(0, d, 0, 0);
  }

  /** Bit n below 12 of a sum is that of the low part, when the rest is a multiple of 4096. */
  lemma LowDigit(f: nat, low: nat, n: nat)
    requires n < 12
    ensures (4096 * f + low) / Pow2(n) % 2 == low / Pow2(n) % 2
  {
    var d, c := Pow2(n), Pow2(11 - n);
    Pages(f, n);
    ShiftedDigit(d, c * f, low);
  }

  lemma Pages(f: nat, n: nat)
    requires n < 12
    ensures 4096 * f == Pow2(n) * (2 * (Pow2(11 - n) * f))
  {
    var d, c := Pow2(n), Pow2(11 - n);
    Pow2Add(n, 12 - n);
    assert Pow2(12) == 4096 && Pow2(12 - n) == 2 * c;
    MulAssoc(d, 2 * c, f);
    MulAssoc(2, c, f);
  }

  lemma ShiftedDigit(d: nat, a: nat, low: nat)
    requires d > 0
    ensures (d * (2 * a) + low) / d % 2 == low / d % 2
  {
    var q, r := low / d, low % d;
    MulDistribute(d, 2 * a, q);
    DivUnique(d * (2 * a) + low, d, 2 * a + q, r);
    EvenAdd(a, q);
  }

  lemma EvenAdd(a: nat, q: nat)
    ensures (2 * a + q) % 2 == q % 2
  {
  }

  lemma CutDigit(x: nat, n: nat)
    requires n < 12
    ensures x % 4096 / Pow2(n) % 2 == x / Pow2(n) % 2
  {
    LowDigit(x / 4096, x % 4096, n);
  }

  /** Which of the low bits an entry written by paging_map_user has: those of the flags,
      PRESENT, USER, and write-through in the window for graphics buffers. */
  lemma UserEntryBits(f: nat, flags: nat, virt: nat, n: nat)
    requires f < 0x10_0000 && n < 12
    ensures var e := UserEntry(f, flags, virt);
            && e / 4096 == f
            && (e / Pow2(n) % 2 == 1
                <==> flags / Pow2(n) % 2 == 1 || n == 0 || n == 2 || (n == 3 && 0x3000_0000 <= virt < 0x4000_0000))
  {
    hide BitOr, Pow2, FrameOf;
    var w := if 0x3000_0000 <= virt < 0x4000_0000 then 8 else 0;
    EntryFrame(f, flags, virt);
    LowDigit(f, Flags12(flags, virt), n);
    CutDigit(BitOr(BitOr(flags, 5), w), n);
    OrDigit(BitOr(flags, 5), w, n);
    OrDigit(flags, 5, n);
    SmallDigits(n);
  }

  lemma EntryFrame(f: nat, flags: nat, virt: nat)
    requires f < 0x10_0000
    ensures UserEntry(f, flags, virt) / 4096 == f
  {
  }

  lemma SmallDigits(n: nat)
    requires n < 12
    ensures 5 / Pow2(n) % 2 == 1 <==> n == 0 || n == 2
    ensures 8 / Pow2(n) % 2 == 1 <==> n == 3
    ensures 0 / Pow2(n) % 2 == 0
  {
    ZeroDiv(Pow2(n));
    if n > 3 {
      Pow2Monotone(4, n);
      assert Pow2(4) == 16;
      DivUnique(5, Pow2(n), 0, 5);
      DivUnique(8, Pow2(n), 0, 8);
    } else {
      assert Pow2(0) == 1 && Pow2(1) == 2 && Pow2(2) == 4 && Pow2(3) == 8;
    }
  }

  lemma UserEntryRights(f: nat, flags: nat, virt: nat)
    requires f < 0x10_0000
    ensures UserBit(UserEntry(f, flags, virt)) && (WriteBit(UserEntry(f, flags, virt)) <==> WriteBit(flags))
  {
    hide UserEntry;
    UserEntryBits(f, flags, virt, 1);
    UserEntryBits(f, flags, virt, 2);
    assert Pow2(1) == 2 && Pow2(2) == 4;
  }

  /** Frame 100 at 0xC0000000 with PRESENT, WRITE and USER. */
  lemma UserEntryExample()
    ensures UserEntry(100, 7, 0xC000_0000) == 0x64007
  {
    assert BitOr(7, 5) == 7;
    OrZeroRight(7);
  }

  lemma {:induction false} OrZeroRight(x: nat)
    ensures BitOr(x, 0) == x
  {
    if x > 0 { OrZeroRight(x / 2); }
  }

  /** `e | PAGE_USER` is just that. */
  lemma WithUserIsOr(e: nat)
    ensures WithUser(e) == BitOr(e, 4) && UserBit(WithUser(e)) && (WriteBit(WithUser(e)) <==> WriteBit(e))
  {
    var a, b, q := e % 2, e / 2 % 2, e / 2 / 2;
    UserDigits(q, b, a);
    OrFour(e);
    LowestDigit(q);
  }

  lemma OrFour(e: nat)
    ensures var q := e / 2 / 2; BitOr(e, 4) == e % 2 + 2 * (e / 2 % 2 + 2 * (1 + 2 * (q / 2)))
  {
    var q := e / 2 / 2;
    assert BitOr(e, 4) == e % 2 + 2 * BitOr(e / 2, 2);
    assert BitOr(e / 2, 2) == e / 2 % 2 + 2 * BitOr(q, 1);
    assert BitOr(q, 1) == 1 + 2 * BitOr(q / 2, 0);
    OrZeroRight(q / 2);
  }

  lemma LowestDigit(q: nat)
    ensures q % 2 == 1 ==> q == 1 + 2 * (q / 2)
    ensures q % 2 == 0 ==> q + 1 == 1 + 2 * (q / 2) && (q + 1) % 2 == 1
  {
  }

  lemma UserDigits(q: nat, b: nat, a: nat)
    requires b < 2 && a < 2
    ensures (4 * q + 2 * b + a) / 4 == q && (4 * q + 2 * b + a) / 2 == 2 * q + b
    ensures (4 * q + 2 * b + a + 4) / 4 == q + 1 && (4 * q + 2 * b + a + 4) / 2 == 2 * (q + 1) + b
    ensures (2 * q + b) % 2 == b && (2 * (q + 1) + b) % 2 == b
  {
  }

  // ---- the rights of a page -------------------------------------------------------------------

  /** The page table entry the hardware finds for virtual page v; 0 when there is no table. */
  function Leaf(mem: seq<Frame>, pd: nat, v: nat): nat
    requires pd < |mem| && v < 0x10_0000
  {
    var i := v / 1024;
    if HasTable(mem, pd, i) && TableOf(mem, pd, i) < |mem| then Ent(mem[TableOf(mem, pd, i)], v % 1024) else 0
  }

  lemma WalkIsLeaf(mem: seq<Frame>, pd: nat, v: nat)
    requires pd < |mem| && v < 0x10_0000
    ensures Walk(mem, pd, v) == if Present(Leaf(mem, pd, v)) then Page(FrameOf(Leaf(mem, pd, v))) else Unmapped
  {
  }

  datatype Rights = Rights(user: bool, write: bool)

  /** What the hardware allows at page v: user code may go there, and the page may be
      written, when both levels say so. */
  function RightsAt(mem: seq<Frame>, pd: nat, v: nat): Rights
    requires pd < |mem| && v < 0x10_0000
  {
    var d, e := Ent(mem[pd], v / 1024), Leaf(mem, pd, v);
    Rights(Present(e) && UserBit(d) && UserBit(e), Present(e) && WriteBit(d) && WriteBit(e))
  }

  /** The directory after a mapping: the entry used is open to user code, or new, and
      complete with write permission; all others are as they were. */
  lemma MapUserDirectory(m: Machine, k: Kernel, pd: nat, used0: seq<bool>, data: set<nat>, w: nat, f: nat, flags: nat,
                         i: nat)
    requires SpaceOk(m, k, pd, used0, data) && w < 0x10_0000 && f < 0x10_0000 && i < ENTRIES
    ensures Wf(m) && pd < |m.mem| && k.kt + ENTRIES <= |m.mem|
    ensures var r := MapUser(m, k, pd, w, f, flags);
            r.Mapped? ==>
              && pd < |r.m.mem|
              && Ent(r.m.mem[pd], i) == if i != w / 1024 then Ent(m.mem[pd], i)
                                        else if HasTable(m.mem, pd, i) then WithUser(Ent(m.mem[pd], i))
                                        else FirstFree(m.used, 0) * 4096 + 7
  {
    hide SpaceOk, WithTable, UserEntry, Entered, MapUser, Ent;
    SpaceParts(m, k, pd, used0, data);
    MapUserIs(m, k, pd, used0, data, w, f, flags);
    if MapUser(m, k, pd, w, f, flags).Mapped? {
      var n := WithTable(m, pd, w / 1024).m;
      SpaceParts(n, k, pd, used0, data);
      TableParts(n, k, pd, used0, data, w / 1024);
      EnteredFrame(n.mem, k, TableOf(n.mem, pd, w / 1024), w % 1024, UserEntry(f, flags, w * 4096), pd);
      WithTableEntry(m, pd, w / 1024, i);
    }
  }

  lemma WithTableEntry(m: Machine, pd: nat, i: nat, j: nat)
    requires Wf(m) && pd < |m.mem| && i < ENTRIES && j < ENTRIES && m.used[pd] && WithTable(m, pd, i).Mapped?
    ensures Ent(WithTable(m, pd, i).m.mem[pd], j) == if j != i then Ent(m.mem[pd], j)
                                                     else if HasTable(m.mem, pd, i) then WithUser(Ent(m.mem[pd], i))
                                                     else FirstFree(m.used, 0) * 4096 + 7
  {
    hide Ent, PutEnt, Zero;
    var e, t := Ent(m.mem[pd], i), FirstFree(m.used, 0);
    if Present(e) {
      WithUserKeeps(e);
      EntPut(m.mem[pd], i, WithUser(e), j);
    } else {
      EntPut(m.mem[pd], i, t * 4096 + 7, j);
    }
  }

  /** The page table entries after a mapping: that of the page is the one written, all others
      are as they were. */
  lemma MapUserLeaves(m: Machine, k: Kernel, pd: nat, used0: seq<bool>, data: set<nat>, w: nat, f: nat, flags: nat,
                      v: nat)
    requires SpaceOk(m, k, pd, used0, data) && w < 0x10_0000 && f < 0x10_0000 && v < 0x10_0000
    requires v != WINDOW_PAGE && v != WINDOW_PAGE + 1
    ensures Wf(m) && pd < |m.mem| && k.kt + ENTRIES <= |m.mem|
    ensures var r := MapUser(m, k, pd, w, f, flags);
            r.Mapped? ==>
              && pd < |r.m.mem|
              && Leaf(r.m.mem, pd, v) == if v == w then UserEntry(f, flags, w * 4096) else Leaf(m.mem, pd, v)
  {
    hide SpaceOk, HasTable, TableOf, WithTable, UserEntry, Entered, MapUser, Leaf;
    MapUserIs(m, k, pd, used0, data, w, f, flags);
    if MapUser(m, k, pd, w, f, flags).Mapped? {
      var n := WithTable(m, pd, w / 1024).m;
      LeafWithTable(m, k, pd, used0, data, w / 1024, v);
      LeafEntered(n, k, pd, used0, data, w, UserEntry(f, flags, w * 4096), v);
    }
  }

  lemma LeafWithTable(m: Machine, k: Kernel, pd: nat, used0: seq<bool>, data: set<nat>, i: nat, v: nat)
    requires SpaceOk(m, k, pd, used0, data) && i < ENTRIES && WithTable(m, pd, i).Mapped? && v < 0x10_0000
    ensures var n := WithTable(m, pd, i).m; pd < |n.mem| && Leaf(n.mem, pd, v) == Leaf(m.mem, pd, v)
  {
    hide SpaceOk, HasTable, TableOf, WithTable, Ent, Zero;
    SpaceParts(m, k, pd, used0, data);
    WithTableEffect(m, pd, i);
    TableParts(m, k, pd, used0, data, v / 1024);
    ZeroEnt(v % 1024);
  }

  lemma LeafEntered(n: Machine, k: Kernel, pd: nat, used0: seq<bool>, data: set<nat>, w: nat, e: nat, v: nat)
    requires SpaceOk(n, k, pd, used0, data) && w < 0x10_0000 && v < 0x10_0000 && e < TWO32
    requires pd < |n.mem| && HasTable(n.mem, pd, w / 1024) && TableOf(n.mem, pd, w / 1024) < |n.mem|
             && k.kt + ENTRIES <= |n.mem|
    requires v != WINDOW_PAGE && v != WINDOW_PAGE + 1
    ensures var mem := Entered(n.mem, k, TableOf(n.mem, pd, w / 1024), w % 1024, e);
            Leaf(mem, pd, v) == if v == w then e else Leaf(n.mem, pd, v)
  {
    hide SpaceOk, Ent, Present, FrameOf, Entered;
    var i, pt := w / 1024, TableOf(n.mem, pd, w / 1024);
    SpaceParts(n, k, pd, used0, data);
    TableParts(n, k, pd, used0, data, i);
    EnteredFrame(n.mem, k, pt, w % 1024, e, pd);
    var x := v / 1024;
    TableParts(n, k, pd, used0, data, x);
    if HasTable(n.mem, pd, x) {
      var t := TableOf(n.mem, pd, x);
      if x != i { TablesApart(n, k, pd, used0, data, x, i); }
      if t == k.kt + WINDOW_TABLE { WindowTable(n, k, pd, used0, data, v); }
      EnteredEntry(n.mem, k, pt, w % 1024, e, t, v % 1024);
      SamePage(v, w);
    }
  }

  /** After mapping a page user code may go there, and it may be written exactly when the
      flags say so and the directory entry, if it was there before, allows it. */
  lemma MappedPageRights(m: Machine, k: Kernel, pd: nat, used0: seq<bool>, data: set<nat>, w: nat, f: nat, flags: nat)
    requires SpaceOk(m, k, pd, used0, data) && w < 0x10_0000 && f < 0x10_0000
    requires w != WINDOW_PAGE && w != WINDOW_PAGE + 1
    ensures Wf(m) && pd < |m.mem| && k.kt + ENTRIES <= |m.mem|
    ensures var r := MapUser(m, k, pd, w, f, flags);
            r.Mapped? ==>
              && pd < |r.m.mem| && RightsAt(r.m.mem, pd, w).user
              && (WriteBit(Leaf(r.m.mem, pd, w)) <==> WriteBit(flags))
              && (RightsAt(r.m.mem, pd, w).write
                  <==> WriteBit(flags) && (HasTable(m.mem, pd, w / 1024) ==> WriteBit(Ent(m.mem[pd], w / 1024))))
  {
    hide SpaceOk, UserEntry, MapUser, Leaf, Ent, FirstFree, UserBit, WriteBit, WithUser;
    MapUserDirectory(m, k, pd, used0, data, w, f, flags, w / 1024);
    MapUserLeaves(m, k, pd, used0, data, w, f, flags, w);
    UserEntryRights(f, flags, w * 4096);
    WithUserIsOr(Ent(m.mem[pd], w / 1024));
    NewTableRights(FirstFree(m.used, 0));
  }

  lemma NewTableRights(t: nat)
    ensures UserBit(t * 4096 + 7) && WriteBit(t * 4096 + 7)
  {
    LowDigit(t, 7, 1);
    LowDigit(t, 7, 2);
    assert Pow2(1) == 2 && Pow2(2) == 4;
  }

  /** What a mapping does to every other page: it may be written as before, and user code may
      go there as before, except that under the same directory entry the page's own entry now
      decides. */
  lemma OtherPageRights(m: Machine, k: Kernel, pd: nat, used0: seq<bool>, data: set<nat>, w: nat, f: nat, flags: nat,
                        v: nat)
    requires SpaceOk(m, k, pd, used0, data) && w < 0x10_0000 && f < 0x10_0000 && v < 0x10_0000 && v != w
    requires v != WINDOW_PAGE && v != WINDOW_PAGE + 1
    ensures Wf(m) && pd < |m.mem| && k.kt + ENTRIES <= |m.mem|
    ensures var r := MapUser(m, k, pd, w, f, flags);
            r.Mapped? ==>
              var e := Leaf(m.mem, pd, v);
              && pd < |r.m.mem| && RightsAt(r.m.mem, pd, v).write == RightsAt(m.mem, pd, v).write
              && (RightsAt(r.m.mem, pd, v).user
                  <==> RightsAt(m.mem, pd, v).user || (v / 1024 == w / 1024 && Present(e) && UserBit(e)))
  {
    hide SpaceOk, UserEntry, MapUser, Ent, FirstFree, UserBit, WriteBit, WithUser;
    MapUserDirectory(m, k, pd, used0, data, w, f, flags, v / 1024);
    MapUserLeaves(m, k, pd, used0, data, w, f, flags, v);
    WithUserIsOr(Ent(m.mem[pd], v / 1024));
    NotPresent();
    NewTableRights(FirstFree(m.used, 0));
  }

  // ---- the kernel's windows ---------------------------------------------------------------------

  /** The windows are the pages at 0x3FE00000 and 0x3FE01000; a mapping leaves both cleared in
      the kernel's own table. */
  lemma WindowsEndCleared(m: Machine, k: Kernel, pd: nat, v: nat, f: nat, flags: nat)
    requires Wf(m) && pd < |m.mem| && v < 0x10_0000 && f < 0x10_0000 && k.kt + ENTRIES <= |m.mem|
    ensures WINDOW_PAGE == 0x3FE0_0000 / 4096 && WINDOW_PAGE + 1 == 0x3FE0_1000 / 4096
    ensures var mem := MapUser(m, k, pd, v, f, flags).m.mem;
            k.kt + 255 < |mem| && Ent(mem[k.kt + 255], 512) == 0 && Ent(mem[k.kt + 255], 513) == 0
  {
    hide Ent, PutEnt, UserEntry, WithTable;
    var t := WithTable(m, pd, v / 1024);
    var mem := WithEntry(t.m.mem, TableOf(t.m.mem, pd, v / 1024), v % 1024, UserEntry(f, flags, v * 4096));
    var w := mem[k.kt + 255];
    EntPut(w, WINDOW_PT, 0, 513);
    EntPut(PutEnt(w, WINDOW_PT, 0), WINDOW_PD, 0, 513);
    EntPut(PutEnt(w, WINDOW_PT, 0), WINDOW_PD, 0, 512);
  }
}
