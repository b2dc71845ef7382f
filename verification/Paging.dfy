/** Two-level page tables in physical frames (src/paging.c): mapping a page into an
    address space, what a space owns, and what looking an address up gives. */
module Paging {
  import opened Bits
  import opened Pmm
  import opened LittleEndian

  const ENTRIES: nat := 1024
  const WINDOW_TABLE: nat := 255
  const WINDOW_PD: nat := 512
  const WINDOW_PT: nat := 513

  type Frame = s: seq<byte> | |s| == 4096 witness seq(4096, _ => 0)

  // ---- table entries ------------------------------------------------------------------------

  function Ent(fr: Frame, i: nat): (e: nat)
    requires i < ENTRIES
    ensures e < TWO32
  {
    U32(fr, 4 * i)
  }

  function PutEnt(fr: Frame, i: nat, e: nat): Frame
    requires i < ENTRIES && e < TWO32
  {
    PutU32(fr, 4 * i, e)
  }

  lemma EntPut(fr: Frame, i: nat, e: nat, j: nat)
    requires i < ENTRIES && j < ENTRIES && e < TWO32
    ensures Ent(PutEnt(fr, i, e), j) == if j == i then e else Ent(fr, j)
  {
    hide U32, PutU32;
    if j != i {
      var a := PutU32(fr, 4 * i, e);
      assert a[4 * j..4 * j + 4] == fr[4 * j..4 * j + 4];
      SameU32(a, 4 * j, fr, 4 * j);
    }
  }

  function Zero(): Frame { seq(4096, _ => 0) }

  lemma ZeroEnt(i: nat)
    requires i < ENTRIES
    ensures Ent(Zero(), i) == 0
  {
  }

  predicate Present(e: nat) { e % 2 == 1 }
  function FrameOf(e: nat): nat { e / 4096 }

  /** e | PAGE_USER */
  function WithUser(e: nat): nat { if e / 4 % 2 == 1 then e else e + 4 }

  lemma WithUserKeeps(e: nat)
    requires e < TWO32
    ensures WithUser(e) < TWO32 && FrameOf(WithUser(e)) == FrameOf(e) && (Present(WithUser(e)) <==> Present(e))
  {
    var q, r := e / 8, e % 8;
    BitTwo(q, r);
    DivDiv(e, 8, 512);
    if r < 4 { DivDiv(8 * q + (r + 4), 8, 512); }
  }

  /** Bit 2 of 8q + r, and what adding 4 does when it is clear. */
  lemma BitTwo(q: nat, r: nat)
    requires r < 8
    ensures (8 * q + r) / 4 % 2 == (if r < 4 then 0 else 1)
    ensures r < 4 ==> (8 * q + (r + 4)) / 8 == q && (8 * q + r + 4) % 2 == (8 * q + r) % 2
    ensures r < 4 && 8 * q + r < TWO32 ==> 8 * q + (r + 4) < TWO32
  {
    Quarter(q, r);
    if r < 4 {
      DivUnique(8 * q + (r + 4), 8, q, r + 4);
      AddFour(8 * q + r);
    }
  }

  lemma Quarter(q: nat, r: nat)
    requires r < 8
    ensures (8 * q + r) / 4 % 2 == if r < 4 then 0 else 1
  {
    var b := if r < 4 then 0 else 1;
    assert 8 * q + r == 4 * (b + 2 * q) + (r - 4 * b);
    DivUnique(8 * q + r, 4, b + 2 * q, r - 4 * b);
    LastBit(b, q);
  }

  lemma AddFour(x: nat)
    ensures (x + 4) % 2 == x % 2
  {
  }

  /** The entry for frame f with the given flags, PAGE_PRESENT and PAGE_USER; the page
      is write-through in the window used for graphics buffers. */
  function UserEntry(f: nat, flags: nat, virt: nat): (e: nat)
    requires f < 0x10_0000
    ensures e < TWO32 && FrameOf(e) == f && Present(e)
  {
    LowFlags(flags, virt);
    EntryParts(f, Flags12(flags, virt));
    f * 4096 + Flags12(flags, virt)
  }

  lemma EntryParts(f: nat, low: nat)
    requires f < 0x10_0000 && low < 4096 && low % 2 == 1
    ensures f * 4096 + low < TWO32 && FrameOf(f * 4096 + low) == f && Present(f * 4096 + low)
  {
  }

  lemma LowFlags(flags: nat, virt: nat)
    ensures Flags12(flags, virt) < 4096 && Flags12(flags, virt) % 2 == 1
  {
    hide BitOr;
    var w := if 0x3000_0000 <= virt < 0x4000_0000 then 8 else 0;
    OrParity(flags, 5);
    OrParity(BitOr(flags, 5), w);
    OddLow(BitOr(BitOr(flags, 5), w));
  }

  lemma OrParity(x: nat, y: nat)
    ensures BitOr(x, y) % 2 == 1 <==> x % 2 == 1 || y % 2 == 1
  {
    if x != 0 || y != 0 { LastBit(if x % 2 == 1 || y % 2 == 1 then 1 else 0, BitOr(x / 2, y / 2)); }
  }

  lemma LastBit(b: nat, r: nat)
    requires b < 2
    ensures (b + 2 * r) % 2 == b
  {
  }

  lemma OddLow(x: nat)
    requires x % 2 == 1
    ensures x % 4096 % 2 == 1
  {
  }

  /** flags | PAGE_PRESENT | PAGE_USER, write-through in the window, cut to 12 bits. */
  function Flags12(flags: nat, virt: nat): nat {
    BitOr(BitOr(flags, 5), if 0x3000_0000 <= virt < 0x4000_0000 then 8 else 0) % 4096
  }

  // ---- the machine ----------------------------------------------------------------------------

  /** Which frames are in use, and what they hold. */
  datatype Machine = Machine(used: seq<bool>, mem: seq<Frame>)

  /** The kernel's page directory frame and the first of its 1024 page table frames. */
  datatype Kernel = Kernel(kd: nat, kt: nat)

  ghost predicate Wf(m: Machine) { |m.used| == |m.mem| <= 0x10_0000 }

  ghost predicate KernelEntry(mem: seq<Frame>, k: Kernel, i: nat)
    requires i < ENTRIES && k.kd < |mem|
  {
    Present(Ent(mem[k.kd], i)) && FrameOf(Ent(mem[k.kd], i)) == k.kt + i
  }

  /** What paging_init establishes: frames 0, kd and [kt, kt + 1024) are reserved, and every
      entry of the kernel directory points to its static table. */
  ghost predicate KernelOk(m: Machine, k: Kernel, used0: seq<bool>) {
    && Wf(m) && |used0| == |m.used| && k.kd < |m.mem| && k.kt + ENTRIES <= |m.mem|
    && !(k.kt <= k.kd < k.kt + ENTRIES)
    && used0[0] && used0[k.kd] && (forall f :: k.kt <= f < k.kt + ENTRIES ==> used0[f])
    && forall i :: 0 <= i < ENTRIES ==> KernelEntry(m.mem, k, i)
  }

  // ---- an address space -------------------------------------------------------------------------

  predicate HasTable(mem: seq<Frame>, pd: nat, i: nat)
    requires pd < |mem| && i < ENTRIES
  {
    Present(Ent(mem[pd], i))
  }

  function TableOf(mem: seq<Frame>, pd: nat, i: nat): nat
    requires pd < |mem| && i < ENTRIES
  {
    FrameOf(Ent(mem[pd], i))
  }

  /** The space has a table of its own at index i, not the kernel's. */
  predicate Owns(mem: seq<Frame>, k: Kernel, pd: nat, i: nat)
    requires pd < |mem| && i < ENTRIES
  {
    HasTable(mem, pd, i) && TableOf(mem, pd, i) != k.kt + i
  }

  ghost predicate TableOk(m: Machine, k: Kernel, pd: nat, used0: seq<bool>, data: set<nat>, i: nat)
    requires Wf(m) && |used0| == |m.used| && pd < |m.mem| && i < ENTRIES
  {
    Owns(m.mem, k, pd, i) ==>
      var t := TableOf(m.mem, pd, i);
      t < |m.used| && !used0[t] && m.used[t] && t != pd && t !in data
  }

  ghost predicate Apart(mem: seq<Frame>, k: Kernel, pd: nat, i: nat, j: nat)
    requires pd < |mem| && i < ENTRIES && j < ENTRIES
  {
    i != j && Owns(mem, k, pd, i) && Owns(mem, k, pd, j) ==> TableOf(mem, pd, i) != TableOf(mem, pd, j)
  }

  ghost predicate OwnedFrame(mem: seq<Frame>, k: Kernel, pd: nat, f: nat)
    requires pd < |mem|
  {
    exists i :: 0 <= i < ENTRIES && Owns(mem, k, pd, i) && TableOf(mem, pd, i) == f
  }

  ghost predicate UseOk(m: Machine, k: Kernel, pd: nat, used0: seq<bool>, data: set<nat>, f: nat)
    requires pd < |m.mem| && f < |m.used| && f < |used0|
  {
    m.used[f] <==> used0[f] || f == pd || f in data || OwnedFrame(m.mem, k, pd, f)
  }

  /** A space created when used0 were the frames in use: since then exactly its directory,
      its own tables and the frames of `data` have been taken. */
  ghost predicate SpaceOk(m: Machine, k: Kernel, pd: nat, used0: seq<bool>, data: set<nat>) {
    && KernelOk(m, k, used0) && pd < |m.mem| && !used0[pd] && m.used[pd] && pd !in data
    && (forall f :: f in data ==> f < |m.used| && !used0[f] && m.used[f])
    && (forall i :: 0 <= i < ENTRIES ==> TableOk(m, k, pd, used0, data, i))
    && (forall i, j :: 0 <= i < ENTRIES && 0 <= j < ENTRIES ==> Apart(m.mem, k, pd, i, j))
    && (forall f :: 0 <= f < |m.used| ==> UseOk(m, k, pd, used0, data, f))
  }

  // ---- looking an address up ----------------------------------------------------------------------

  datatype Lookup = Unmapped | Page(frame: nat)

  /** What the hardware finds for virtual page v. */
  function Walk(mem: seq<Frame>, pd: nat, v: nat): Lookup
    requires pd < |mem| && v < 0x10_0000
  {
    var i := v / 1024;
    if !HasTable(mem, pd, i) || TableOf(mem, pd, i) >= |mem| then Unmapped
    else
      var e := Ent(mem[TableOf(mem, pd, i)], v % 1024);
      if Present(e) then Page(FrameOf(e)) else Unmapped
  }

  /** The byte at virtual address va. */
  function ByteAt(mem: seq<Frame>, pd: nat, va: nat): int
    requires pd < |mem| && va < TWO32
  {
    match Walk(mem, pd, va / 4096)
    case Unmapped => -1
    case Page(f) => if f < |mem| then mem[f][va % 4096] else -1
  }

  // ---- mapping a page -----------------------------------------------------------------------------

  /** Refused: the operation failed and its caller is told.  NoTable: no frame was left for
      a page table; nobody notices, and paging_map_user goes on with frame 0. */
  datatype Mapping = NoTable(m: Machine) | Refused(m: Machine) | Mapped(m: Machine)

  /** The temporary windows through which the kernel reaches the directory and the table
      are entries of its own table 255; they end up cleared. */
  function ClearWindows(mem: seq<Frame>, k: Kernel): seq<Frame>
    requires k.kt + WINDOW_TABLE < |mem|
  {
    var w := k.kt + WINDOW_TABLE;
    mem[w := PutEnt(PutEnt(mem[w], WINDOW_PT, 0), WINDOW_PD, 0)]
  }

  /** A new table in frame t, cleared and linked at index i. */
  function Linked(mem: seq<Frame>, pd: nat, i: nat, t: nat): (r: seq<Frame>)
    requires pd < |mem| && i < ENTRIES && t < |mem| <= 0x10_0000
    ensures |r| == |mem|
  {
    var cleared := mem[t := Zero()];
    cleared[pd := PutEnt(cleared[pd], i, t * 4096 + 7)]
  }

  /** The directory with a table at index i: an existing one made accessible to user code,
      or a new, cleared one. */
  function WithTable(m: Machine, pd: nat, i: nat): (r: Mapping)
    requires Wf(m) && pd < |m.mem| && i < ENTRIES
    ensures !r.Refused? && |r.m.mem| == |m.mem|
  {
    var e := Ent(m.mem[pd], i);
    if Present(e) then
      WithUserKeeps(e);
      Mapped(m.(mem := m.mem[pd := PutEnt(m.mem[pd], i, WithUser(e))]))
    else
      var t := FirstFree(m.used, 0);
      if t == |m.used| then NoTable(m.(mem := Linked(m.mem, pd, i, 0)))
      else Mapped(Machine(m.used[t := true], Linked(m.mem, pd, i, t)))
  }

  /** The page entry written; a table frame beyond the memory takes no writes. */
  function WithEntry(mem: seq<Frame>, pt: nat, j: nat, e: nat): (r: seq<Frame>)
    requires j < ENTRIES && e < TWO32
    ensures |r| == |mem|
  {
    if pt < |mem| then mem[pt := PutEnt(mem[pt], j, e)] else mem
  }

  /** paging_map_user. */
  function MapUser(m: Machine, k: Kernel, pd: nat, v: nat, f: nat, flags: nat): (r: Mapping)
    requires Wf(m) && pd < |m.mem| && v < 0x10_0000 && f < 0x10_0000 && k.kt + ENTRIES <= |m.mem|
    ensures !r.Refused?
  {
    var t := WithTable(m, pd, v / 1024);
    var mem := WithEntry(t.m.mem, TableOf(t.m.mem, pd, v / 1024), v % 1024, UserEntry(f, flags, v * 4096));
    t.(m := t.m.(mem := ClearWindows(mem, k)))
  }
}
