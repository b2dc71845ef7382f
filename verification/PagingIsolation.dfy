/** How far address spaces are isolated from each other (src/paging.c): what a mapping in
    one space does to every other one, older or younger. */
module PagingIsolation {
  import opened Pmm
  import opened Paging
  import opened PagingSpace

  ghost predicate KernelFrame(k: Kernel, f: nat) { k.kt <= f < k.kt + ENTRIES }

  // ---- isolated spaces ----------------------------------------------------------------------

  /** Tables of its own between 256 and 767 only, the kernel's everywhere else. */
  ghost predicate Isolated(mem: seq<Frame>, k: Kernel, pd: nat) {
    pd < |mem| && forall i :: 0 <= i < ENTRIES ==> IsolatedAt(mem, k, pd, i)
  }

  ghost predicate IsolatedAt(mem: seq<Frame>, k: Kernel, pd: nat, i: nat)
    requires pd < |mem| && i < ENTRIES
  {
    if 256 <= i < 768 then HasTable(mem, pd, i) ==>
                             Owns(mem, k, pd, i) else HasTable(mem, pd, i) && !Owns(mem, k, pd, i)
  }

  lemma CreatedIsolated(m: Machine, k: Kernel)
    requires KernelOk(m, k, m.used) && CreateIsolated(m, k).Mapped?
    ensures Isolated(CreateIsolated(m, k).m.mem, k, FirstFree(m.used, 0))
  {
    hide HasTable, Owns, CreateIsolated;
    IsolatedSpace(m, k);
    SpaceParts(CreateIsolated(m, k).m, k, FirstFree(m.used, 0), m.used, {});
  }

  lemma MapKeepsIsolated(m: Machine, k: Kernel, pd: nat, used0: seq<bool>, data: set<nat>, w: nat, f: nat, flags: nat)
    requires SpaceOk(m, k, pd, used0, data) && Isolated(m.mem, k, pd) && w < 0x10_0000 && f < 0x10_0000
    ensures Wf(m) && k.kt + ENTRIES <= |m.mem|
    ensures var r := MapUser(m, k, pd, w, f, flags); r.Mapped? ==> Isolated(r.m.mem, k, pd)
  {
    hide SpaceOk, HasTable, TableOf, WithTable, UserEntry, Entered, MapUser;
    SpaceParts(m, k, pd, used0, data);
    MapUserIs(m, k, pd, used0, data, w, f, flags);
    var r := MapUser(m, k, pd, w, f, flags);
    if r.Mapped? {
      var n := WithTable(m, pd, w / 1024).m;
      WithTableEffect(m, pd, w / 1024);
      SpaceParts(n, k, pd, used0, data);
      TableParts(n, k, pd, used0, data, w / 1024);
      EnteredFrame(n.mem, k, TableOf(n.mem, pd, w / 1024), w % 1024, UserEntry(f, flags, w * 4096), pd);
      forall i | 0 <= i < ENTRIES ensures IsolatedAt(r.m.mem, k, pd, i) {
        assert IsolatedAt(m.mem, k, pd, i);
        SameDirectory(r.m.mem, n.mem, pd, i);
      }
    }
  }

  lemma SameDirectory(a: seq<Frame>, b: seq<Frame>, pd: nat, i: nat)
    requires pd < |a| && pd < |b| && a[pd] == b[pd] && i < ENTRIES
    ensures (HasTable(a, pd, i) <==> HasTable(b, pd, i)) && TableOf(a, pd, i) == TableOf(b, pd, i)
  {
  }

  // ---- other spaces -------------------------------------------------------------------------

  /** A directory that was there before the frames not in used0 were taken: its tables are
      the kernel's or were in use already. */
  ghost predicate Elder(mem: seq<Frame>, k: Kernel, q: nat, used0: seq<bool>) {
    && q < |mem| && q < |used0| && used0[q] && !KernelFrame(k, q)
    && forall i :: 0 <= i < ENTRIES && Owns(mem, k, q, i) ==> ElderTable(mem, k, q, used0, i)
  }

  ghost predicate ElderTable(mem: seq<Frame>, k: Kernel, q: nat, used0: seq<bool>, i: nat)
    requires q < |mem| && i < ENTRIES
  {
    var t := TableOf(mem, q, i);
    t < |mem| && t < |used0| && used0[t] && !KernelFrame(k, t)
  }

  /** Every space is an elder from now on. */
  lemma SpaceIsElder(m: Machine, k: Kernel, q: nat, used0: seq<bool>, data: set<nat>)
    requires SpaceOk(m, k, q, used0, data)
    ensures Elder(m.mem, k, q, m.used)
  {
    hide HasTable, TableOf, Apart, UseOk, KernelEntry;
    SpaceParts(m, k, q, used0, data);
    forall i | 0 <= i < ENTRIES && Owns(m.mem, k, q, i) ensures ElderTable(m.mem, k, q, m.used, i) {
      assert TableOk(m, k, q, used0, data, i);
    }
  }

  /** Being an elder, and being isolated, depends on the directory only. */
  lemma SameDirectoryElder(a: seq<Frame>, b: seq<Frame>, k: Kernel, q: nat, used0: seq<bool>)
    requires q < |a| == |b| && a[q] == b[q]
    ensures Elder(a, k, q, used0) ==> Elder(b, k, q, used0)
    ensures Isolated(a, k, q) ==> Isolated(b, k, q)
  {
    hide HasTable, TableOf;
    forall i | 0 <= i < ENTRIES ensures Owns(a, k, q, i) == Owns(b, k, q, i) && HasTable(a, q, i) == HasTable(b, q, i)
      && TableOf(a, q, i) == TableOf(b, q, i) {
      SameDirectory(a, b, q, i);
    }
    if Elder(a, k, q, used0) {
      forall i | 0 <= i < ENTRIES && Owns(b, k, q, i)
        ensures ElderTable(b, k, q, used0, i)
      {
        assert ElderTable(a, k, q, used0, i);
      }
    }
    if Isolated(a, k, q) {
      forall i | 0 <= i < ENTRIES ensures IsolatedAt(b, k, q, i) { assert IsolatedAt(a, k, q, i); }
    }
  }

  /** Creating a space leaves every frame in use as it is, and every elder an elder. */
  lemma ElderAfterCreate(m: Machine, k: Kernel, q: nat)
    requires Wf(m) && k.kd < |m.mem| && Elder(m.mem, k, q, m.used) && CreateIsolated(m, k).Mapped?
    ensures var n := CreateIsolated(m, k).m;
            n.mem[q] == m.mem[q] && Elder(n.mem, k, q, m.used) && (Isolated(m.mem, k, q) ==> Isolated(n.mem, k, q))
  {
    hide Elder, Isolated, IsolatedDir;
    assert q < |m.mem| && m.used[q] by { ElderUsed(m.mem, k, q, m.used); }
    SameDirectoryElder(m.mem, CreateIsolated(m, k).m.mem, k, q, m.used);
  }

  lemma ElderUsed(mem: seq<Frame>, k: Kernel, q: nat, used0: seq<bool>)
    requires Elder(mem, k, q, used0)
    ensures q < |mem| && q < |used0| && used0[q] && !KernelFrame(k, q)
  {
  }

  /** A frame that was in use before the space was created keeps its contents when a page
      is mapped into the space, unless it is one of the kernel's tables. */
  lemma OldFrameKept(m: Machine, k: Kernel, pd: nat, used0: seq<bool>, data: set<nat>, w: nat, f: nat, flags: nat,
                     g: nat)
    requires SpaceOk(m, k, pd, used0, data) && w < 0x10_0000 && f < 0x10_0000 && g < |used0| && used0[g]
             && !KernelFrame(k, g)
    ensures Wf(m) && pd < |m.mem| && k.kt + ENTRIES <= |m.mem| && g < |m.mem|
    ensures var r := MapUser(m, k, pd, w, f, flags); r.Mapped? ==> |r.m.mem| == |m.mem| && r.m.mem[g] == m.mem[g]
  {
    hide SpaceOk, HasTable, TableOf, WithTable, UserEntry, Entered, MapUser;
    SpaceParts(m, k, pd, used0, data);
    OldIsUsed(m, k, pd, used0, data, g);
    MapUserIs(m, k, pd, used0, data, w, f, flags);
    if MapUser(m, k, pd, w, f, flags).Mapped? {
      var n := WithTable(m, pd, w / 1024).m;
      WithTableEffect(m, pd, w / 1024);
      TableParts(n, k, pd, used0, data, w / 1024);
      EnteredFrame(n.mem, k, TableOf(n.mem, pd, w / 1024), w % 1024, UserEntry(f, flags, w * 4096), g);
    }
  }

  lemma OldIsUsed(m: Machine, k: Kernel, pd: nat, used0: seq<bool>, data: set<nat>, g: nat)
    requires SpaceOk(m, k, pd, used0, data) && g < |used0| && used0[g]
    ensures g < |m.used| && m.used[g] && g != pd && g !in data
  {
    hide TableOk, Apart, KernelEntry;
    SpaceParts(m, k, pd, used0, data);
    assert UseOk(m, k, pd, used0, data, g);
  }

  /** Mapping a page into a younger space keeps an elder an elder, and isolated. */
  lemma ElderAfterMap(m: Machine, k: Kernel, pd: nat, used0: seq<bool>, data: set<nat>, w: nat, f: nat, flags: nat,
                      q: nat)
    requires SpaceOk(m, k, pd, used0, data) && w < 0x10_0000 && f < 0x10_0000 && Elder(m.mem, k, q, used0)
    ensures Wf(m) && pd < |m.mem| && k.kt + ENTRIES <= |m.mem|
    ensures var r := MapUser(m, k, pd, w, f, flags);
            r.Mapped? ==> Elder(r.m.mem, k, q, used0) && (Isolated(m.mem, k, q) ==> Isolated(r.m.mem, k, q))
  {
    hide SpaceOk, MapUser, Elder, Isolated;
    ElderUsed(m.mem, k, q, used0);
    OldFrameKept(m, k, pd, used0, data, w, f, flags, q);
    var r := MapUser(m, k, pd, w, f, flags);
    if r.Mapped? { SameDirectoryElder(m.mem, r.m.mem, k, q, used0); }
  }

  // ---- what another space sees of a mapping ---------------------------------------------------

  /** q is another space: its directory and its own tables are in use, and none of them is
      part of space pd or a table of the kernel. */
  ghost predicate Stranger(m: Machine, k: Kernel, pd: nat, q: nat) {
    && Wf(m) && pd < |m.mem| && Foreign(m, k, pd, q)
    && forall x :: 0 <= x < ENTRIES && Owns(m.mem, k, q, x) ==> Foreign(m, k, pd, TableOf(m.mem, q, x))
  }

  ghost predicate Foreign(m: Machine, k: Kernel, pd: nat, g: nat)
    requires Wf(m) && pd < |m.mem|
  {
    g < |m.used| && m.used[g] && g != pd && !KernelFrame(k, g) && !OwnedFrame(m.mem, k, pd, g)
  }

  lemma ElderIsStranger(m: Machine, k: Kernel, pd: nat, used0: seq<bool>, data: set<nat>, q: nat)
    requires SpaceOk(m, k, pd, used0, data) && Elder(m.mem, k, q, used0)
    ensures Stranger(m, k, pd, q)
  {
    hide SpaceOk, HasTable, TableOf;
    SpaceParts(m, k, pd, used0, data);
    OldForeign(m, k, pd, used0, data, q);
    forall x | 0 <= x < ENTRIES && Owns(m.mem, k, q, x) ensures Foreign(m, k, pd, TableOf(m.mem, q, x)) {
      assert ElderTable(m.mem, k, q, used0, x);
      OldForeign(m, k, pd, used0, data, TableOf(m.mem, q, x));
    }
  }

  lemma OldForeign(m: Machine, k: Kernel, pd: nat, used0: seq<bool>, data: set<nat>, g: nat)
    requires SpaceOk(m, k, pd, used0, data) && g < |used0| && used0[g] && !KernelFrame(k, g)
    ensures Wf(m) && pd < |m.mem| && Foreign(m, k, pd, g)
  {
    hide SpaceOk, OwnedFrame;
    SpaceParts(m, k, pd, used0, data);
    OldIsUsed(m, k, pd, used0, data, g);
    NotOwned(m, k, pd, used0, data, g);
  }

  /** A space is a stranger to every space it is younger than, too. */
  lemma YoungerIsStranger(m: Machine, k: Kernel, pd: nat, q: nat, used1: seq<bool>, data: set<nat>)
    requires SpaceOk(m, k, q, used1, data) && Elder(m.mem, k, pd, used1)
    ensures Stranger(m, k, pd, q)
  {
    hide SpaceOk, HasTable, TableOf, TableOk;
    SpaceParts(m, k, q, used1, data);
    NewForeign(m, k, pd, q, used1, data, q);
    forall x | 0 <= x < ENTRIES && Owns(m.mem, k, q, x) ensures Foreign(m, k, pd, TableOf(m.mem, q, x)) {
      TableParts(m, k, q, used1, data, x);
      NewForeign(m, k, pd, q, used1, data, TableOf(m.mem, q, x));
    }
  }

  lemma NewForeign(m: Machine, k: Kernel, pd: nat, q: nat, used1: seq<bool>, data: set<nat>, g: nat)
    requires SpaceOk(m, k, q, used1, data) && Elder(m.mem, k, pd, used1) && g < |m.used| && g < |used1| && !used1[g]
             && m.used[g]
    ensures Wf(m) && pd < |m.mem| && Foreign(m, k, pd, g)
  {
    hide SpaceOk, HasTable, TableOf;
    SpaceParts(m, k, q, used1, data);
    assert forall i :: 0 <= i < ENTRIES && Owns(m.mem, k, pd, i) ==> ElderTable(m.mem, k, pd, used1, i);
  }

  /** The table a mapping writes to is the kernel's, the space's own, or a new frame. */
  lemma TableOrigin(m: Machine, k: Kernel, pd: nat, used0: seq<bool>, data: set<nat>, i: nat)
    requires SpaceOk(m, k, pd, used0, data) && i < ENTRIES && WithTable(m, pd, i).Mapped?
    ensures var n := WithTable(m, pd, i).m;
            pd < |n.mem| && var pt := TableOf(n.mem, pd, i);
            pt == k.kt + i || OwnedFrame(m.mem, k, pd, pt) || (pt < |m.used| && !m.used[pt])
  {
    hide SpaceOk, WithTable, HasTable, TableOf;
    SpaceParts(m, k, pd, used0, data);
    WithTableEffect(m, pd, i);
    var n := WithTable(m, pd, i).m;
    if HasTable(m.mem, pd, i) && TableOf(n.mem, pd, i) != k.kt + i {
      assert Owns(m.mem, k, pd, i) && TableOf(m.mem, pd, i) == TableOf(n.mem, pd, i);
    }
  }

  /** A foreign frame is not touched by a mapping. */
  lemma ForeignKept(m: Machine, k: Kernel, pd: nat, used0: seq<bool>, data: set<nat>, w: nat, f: nat, flags: nat,
                    g: nat)
    requires SpaceOk(m, k, pd, used0, data) && w < 0x10_0000 && f < 0x10_0000 && Wf(m) && pd < |m.mem|
             && Foreign(m, k, pd, g)
    ensures k.kt + ENTRIES <= |m.mem| && g < |m.mem|
    ensures var r := MapUser(m, k, pd, w, f, flags); r.Mapped? ==> |r.m.mem| == |m.mem| && r.m.mem[g] == m.mem[g]
  {
    hide SpaceOk, HasTable, TableOf, WithTable, UserEntry, Entered, MapUser, OwnedFrame;
    SpaceParts(m, k, pd, used0, data);
    MapUserIs(m, k, pd, used0, data, w, f, flags);
    if MapUser(m, k, pd, w, f, flags).Mapped? {
      var n := WithTable(m, pd, w / 1024).m;
      WithTableEffect(m, pd, w / 1024);
      TableOrigin(m, k, pd, used0, data, w / 1024);
      EnteredFrame(n.mem, k, TableOf(n.mem, pd, w / 1024), w % 1024, UserEntry(f, flags, w * 4096), g);
    }
  }

  /** The entry x of kernel table i after a mapping. */
  lemma KernelTableEntry(m: Machine, k: Kernel, pd: nat, used0: seq<bool>, data: set<nat>, w: nat, f: nat, flags: nat,
                         v: nat)
    requires SpaceOk(m, k, pd, used0, data) && w < 0x10_0000 && f < 0x10_0000 && v < 0x10_0000 && v != WINDOW_PAGE
             && v != WINDOW_PAGE + 1
    ensures Wf(m) && pd < |m.mem| && k.kt + ENTRIES <= |m.mem|
    ensures var r := MapUser(m, k, pd, w, f, flags);
            r.Mapped? ==>
              |r.m.mem| == |m.mem|
              && var e := Ent(r.m.mem[k.kt + v / 1024], v % 1024);
                 if v == w && TableOf(r.m.mem, pd, w / 1024) == k.kt + w / 1024 then Present(e) && FrameOf(e) == f
                 else e == Ent(m.mem[k.kt + v / 1024], v % 1024)
  {
    hide SpaceOk, HasTable, TableOf, WithTable, UserEntry, Entered, MapUser, Ent;
    SpaceParts(m, k, pd, used0, data);
    MapUserIs(m, k, pd, used0, data, w, f, flags);
    if MapUser(m, k, pd, w, f, flags).Mapped? {
      var n, t := WithTable(m, pd, w / 1024).m, k.kt + v / 1024;
      var pt, e := TableOf(n.mem, pd, w / 1024), UserEntry(f, flags, w * 4096);
      WithTableEffect(m, pd, w / 1024);
      TableParts(n, k, pd, used0, data, w / 1024);
      EnteredFrame(n.mem, k, pt, w % 1024, e, pd);
      SameDirectory(n.mem, Entered(n.mem, k, pt, w % 1024, e), pd, w / 1024);
      assert n.mem[t] == m.mem[t];
      WindowOf(v);
      EnteredEntry(n.mem, k, pt, w % 1024, e, t, v % 1024);
      SamePage(v, w);
    }
  }

  lemma WindowOf(v: nat)
    requires v != WINDOW_PAGE && v != WINDOW_PAGE + 1
    ensures v / 1024 == WINDOW_TABLE ==> v % 1024 != WINDOW_PD && v % 1024 != WINDOW_PT
  {
  }

  /** Mapping a page is seen by another space exactly when both have the kernel's table
      there: then that space sees the new frame, otherwise nothing changes for it. */
  lemma StrangerSees(m: Machine, k: Kernel, pd: nat, used0: seq<bool>, data: set<nat>, w: nat, f: nat, flags: nat,
                     q: nat, v: nat)
    requires SpaceOk(m, k, pd, used0, data) && Stranger(m, k, pd, q)
    requires w < 0x10_0000 && f < 0x10_0000 && v < 0x10_0000 && v != WINDOW_PAGE && v != WINDOW_PAGE + 1
    ensures k.kt + ENTRIES <= |m.mem| && q < |m.mem|
    ensures var r := MapUser(m, k, pd, w, f, flags);
            r.Mapped? ==>
              q < |r.m.mem|
              && (var shared := TableOf(r.m.mem, pd, w / 1024) == k.kt + w / 1024 && HasTable(m.mem, q, w / 1024)
                  && TableOf(m.mem, q, w / 1024) == k.kt + w / 1024;
                  Walk(r.m.mem, q, v) == if v == w && shared then Page(f) else Walk(m.mem, q, v))
  {
    hide SpaceOk, MapUser, Present, FrameOf, Ent, OwnedFrame;
    SpaceParts(m, k, pd, used0, data);
    ForeignKept(m, k, pd, used0, data, w, f, flags, q);
    if HasTable(m.mem, q, v / 1024) {
      if TableOf(m.mem, q, v / 1024) == k.kt + v / 1024 { KernelTableEntry(m, k, pd, used0, data, w, f, flags, v); }
      else { ForeignKept(m, k, pd, used0, data, w, f, flags, TableOf(m.mem, q, v / 1024)); }
    }
  }

  /** A page mapped into one isolated space appears in every other one, older or younger,
      exactly when its directory index is outside 256 to 767; nothing else changes there. */
  lemma IsolationIsExact(m: Machine, k: Kernel, pd: nat, used0: seq<bool>, data: set<nat>, w: nat, f: nat, flags: nat,
                         q: nat, v: nat)
    requires SpaceOk(m, k, pd, used0, data) && Isolated(m.mem, k, pd) && Stranger(m, k, pd, q) && Isolated(m.mem, k, q)
    requires w < 0x10_0000 && f < 0x10_0000 && v < 0x10_0000 && v != WINDOW_PAGE && v != WINDOW_PAGE + 1
    ensures Wf(m) && k.kt + ENTRIES <= |m.mem|
    ensures var r := MapUser(m, k, pd, w, f, flags);
            r.Mapped? ==> q < |r.m.mem| && Walk(r.m.mem, q, v) == if v == w
                          && !(256 <= w / 1024 < 768) then Page(f) else Walk(m.mem, q, v)
  {
    hide SpaceOk, MapUser, Walk, HasTable, TableOf, Stranger;
    StrangerSees(m, k, pd, used0, data, w, f, flags, q, v);
    MapKeepsIsolated(m, k, pd, used0, data, w, f, flags);
    var r := MapUser(m, k, pd, w, f, flags);
    if r.Mapped? { assert IsolatedAt(r.m.mem, k, pd, w / 1024) && IsolatedAt(m.mem, k, q, w / 1024); }
  }

  /** At every moment any two isolated spaces look the same outside their own range: every
      page there leads to the same frame in both. */
  lemma IsolatedSpacesAgree(mem: seq<Frame>, k: Kernel, p: nat, q: nat, v: nat)
    requires Isolated(mem, k, p) && Isolated(mem, k, q) && v < 0x10_0000 && !(256 <= v / 1024 < 768)
    ensures Walk(mem, p, v) == Walk(mem, q, v)
  {
    hide HasTable, TableOf;
    assert IsolatedAt(mem, k, p, v / 1024) && IsolatedAt(mem, k, q, v / 1024);
  }

  /** Mapping outside the own range of an isolated space needs no new table. */
  lemma SharedPageMaps(m: Machine, k: Kernel, pd: nat, used0: seq<bool>, data: set<nat>, w: nat, f: nat, flags: nat)
    requires SpaceOk(m, k, pd, used0, data) && Isolated(m.mem, k, pd) && w < 0x10_0000 && f < 0x10_0000
             && !(256 <= w / 1024 < 768)
    ensures Wf(m) && pd < |m.mem| && k.kt + ENTRIES <= |m.mem|
    ensures MapUser(m, k, pd, w, f, flags).Mapped? && MapUser(m, k, pd, w, f, flags).m.used == m.used
  {
    SpaceParts(m, k, pd, used0, data);
    assert IsolatedAt(m.mem, k, pd, w / 1024);
    hide SpaceOk, UserEntry, PutEnt, Ent, Owns, IsolatedAt;
  }

  // ---- no frame left for a table ----------------------------------------------------------------

  /** When a table is missing and no frame is left, paging_map_user does not fail: it clears
      frame 0, links it as the table and writes the page entry there. */
  lemma FrameZeroBecomesTable(m: Machine, k: Kernel, pd: nat, w: nat, f: nat, flags: nat, j: nat)
    requires Wf(m) && 0 < pd < |m.mem| && w < 0x10_0000 && f < 0x10_0000 && 0 < k.kt && k.kt + ENTRIES <= |m.mem|
             && j < ENTRIES
    requires pd != k.kt + WINDOW_TABLE
    ensures var r := MapUser(m, k, pd, w, f, flags);
            && (r.NoTable? <==> !HasTable(m.mem, pd, w / 1024) && forall g :: 0 <= g < |m.used| ==> m.used[g])
            && (r.NoTable? ==>
                  && r.m.used == m.used && |r.m.mem| == |m.mem| && HasTable(r.m.mem, pd, w / 1024)
                  && TableOf(r.m.mem, pd, w / 1024) == 0
                  && Ent(r.m.mem[0], j) == if j == w % 1024 then UserEntry(f, flags, w * 4096) else 0)
  {
    hide Ent, PutEnt, UserEntry, Zero;
    var t := WithTable(m, pd, w / 1024);
    if t.NoTable? {
      EntPut(m.mem[pd], w / 1024, 7, w / 1024);
      TableEntry(0);
      ZeroEnt(j);
      EntPut(Zero(), w % 1024, UserEntry(f, flags, w * 4096), j);
    }
  }
}
