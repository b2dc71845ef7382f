/** What mapping pages keeps (src/paging.c): a space goes on owning exactly what was taken
    for it, other pages and frames stay as they are, and destroying the space gives back
    every frame taken for its tables. */
module PagingSpace {
  import opened Bits
  import opened LittleEndian
  import opened Pmm
  import opened Paging

  const WINDOW_PAGE: nat := 255 * 1024 + 512

  // ---- parts of the invariant --------------------------------------------------------------------

  lemma SpaceParts(m: Machine, k: Kernel, pd: nat, used0: seq<bool>, data: set<nat>)
    requires SpaceOk(m, k, pd, used0, data)
    ensures Wf(m) && |used0| == |m.used| && pd < |m.mem| && !used0[pd] && m.used[pd] && pd !in data
    ensures k.kd < |m.mem| && k.kt + ENTRIES <= |m.mem| && used0[0] && used0[k.kd] && !(k.kt <= k.kd < k.kt + ENTRIES)
    ensures forall f :: k.kt <= f < k.kt + ENTRIES ==> used0[f] && m.used[f]
  {
    hide TableOk, Apart, KernelEntry;
    forall f | k.kt <= f < k.kt + ENTRIES ensures m.used[f] { assert UseOk(m, k, pd, used0, data, f); }
  }

  lemma DataParts(m: Machine, k: Kernel, pd: nat, used0: seq<bool>, data: set<nat>, f: nat)
    requires SpaceOk(m, k, pd, used0, data) && f in data
    ensures f < |m.used| && f < |used0| && !used0[f] && m.used[f] && f != pd
  {
    hide TableOk, Apart, KernelEntry, UseOk;
  }

  /** A table in use by the space: the kernel's, or one of its own. */
  lemma TableParts(m: Machine, k: Kernel, pd: nat, used0: seq<bool>, data: set<nat>, i: nat)
    requires SpaceOk(m, k, pd, used0, data) && i < ENTRIES
    ensures Wf(m) && |used0| == |m.used| && pd < |m.mem|
    ensures HasTable(m.mem, pd, i) ==>
              var t := TableOf(m.mem, pd, i);
              t < |m.mem| && m.used[t] && t != pd && t != k.kd && t !in data && (t == k.kt + i || !used0[t])
  {
    SpaceParts(m, k, pd, used0, data);
    assert TableOk(m, k, pd, used0, data, i);
    hide TableOk, Apart, KernelEntry, UseOk;
  }

  /** Different indices never share a table. */
  lemma TablesApart(m: Machine, k: Kernel, pd: nat, used0: seq<bool>, data: set<nat>, i: nat, j: nat)
    requires SpaceOk(m, k, pd, used0, data) && i < ENTRIES && j < ENTRIES && i != j
    ensures pd < |m.mem|
    ensures HasTable(m.mem, pd, i) && HasTable(m.mem, pd, j) ==> TableOf(m.mem, pd, i) != TableOf(m.mem, pd, j)
  {
    assert Apart(m.mem, k, pd, i, j);
    SpaceParts(m, k, pd, used0, data);
    TableParts(m, k, pd, used0, data, i);
    TableParts(m, k, pd, used0, data, j);
    hide SpaceOk;
  }

  // ---- the same tables ------------------------------------------------------------------------------

  ghost predicate SameTables(a: seq<Frame>, b: seq<Frame>, pd: nat)
    requires pd < |a| && pd < |b|
  {
    forall i :: 0 <= i < ENTRIES ==> (HasTable(a, pd, i) <==> HasTable(b, pd, i))
                                     && TableOf(a, pd, i) == TableOf(b, pd, i)
  }

  /** The invariant speaks only of the kernel directory and of where tables are. */
  lemma SpaceFrame(m: Machine, n: Machine, k: Kernel, pd: nat, used0: seq<bool>, data: set<nat>)
    requires SpaceOk(m, k, pd, used0, data) && n.used == m.used && |n.mem| == |m.mem|
    requires k.kd < |n.mem| && n.mem[k.kd] == m.mem[k.kd] && pd < |n.mem| && SameTables(n.mem, m.mem, pd)
    ensures SpaceOk(n, k, pd, used0, data)
  {
    hide HasTable, TableOf;
    forall i | 0 <= i < ENTRIES ensures KernelEntry(n.mem, k, i) { assert KernelEntry(m.mem, k, i); }
    forall i | 0 <= i < ENTRIES ensures TableOk(n, k, pd, used0, data, i) { assert TableOk(m, k, pd, used0, data, i); }
    forall i, j | 0 <= i < ENTRIES && 0 <= j < ENTRIES
      ensures Apart(n.mem, k, pd, i, j)
    {
      assert Apart(m.mem, k, pd, i, j);
    }
    forall f | 0 <= f < |n.used| ensures UseOk(n, k, pd, used0, data, f) {
      assert UseOk(m, k, pd, used0, data, f);
      SameOwned(n.mem, m.mem, k, pd, f);
    }
  }

  lemma SameOwned(a: seq<Frame>, b: seq<Frame>, k: Kernel, pd: nat, f: nat)
    requires pd < |a| && pd < |b| && SameTables(a, b, pd)
    ensures OwnedFrame(a, k, pd, f) <==> OwnedFrame(b, k, pd, f)
  {
    hide HasTable, TableOf;
    if OwnedFrame(a, k, pd, f) {
      var i :| 0 <= i < ENTRIES && Owns(a, k, pd, i) && TableOf(a, pd, i) == f;
      assert Owns(b, k, pd, i) && TableOf(b, pd, i) == f;
    }
    if OwnedFrame(b, k, pd, f) {
      var i :| 0 <= i < ENTRIES && Owns(b, k, pd, i) && TableOf(b, pd, i) == f;
      assert Owns(a, k, pd, i) && TableOf(a, pd, i) == f;
    }
  }

  // ---- a new table ------------------------------------------------------------------------------------

  /** n has a new, empty table t at index i, and is otherwise m. */
  ghost predicate TableAdded(m: Machine, n: Machine, pd: nat, i: nat, t: nat) {
    && Wf(m) && pd < |m.mem| && i < ENTRIES && t < |m.used| && !m.used[t] && t != pd
    && n.used == m.used[t := true] && |n.mem| == |m.mem| && n.mem[t] == Zero()
    && (forall f :: 0 <= f < |m.mem| && f != pd && f != t ==> n.mem[f] == m.mem[f])
    && !HasTable(m.mem, pd, i) && HasTable(n.mem, pd, i) && TableOf(n.mem, pd, i) == t
    && (forall j :: 0 <= j < ENTRIES && j != i
          ==> (HasTable(n.mem, pd, j) <==> HasTable(m.mem, pd, j)) && TableOf(n.mem, pd, j) == TableOf(m.mem, pd, j))
  }

  lemma AddedSpace(m: Machine, n: Machine, k: Kernel, pd: nat, used0: seq<bool>, data: set<nat>, i: nat, t: nat)
    requires SpaceOk(m, k, pd, used0, data) && TableAdded(m, n, pd, i, t)
    ensures SpaceOk(n, k, pd, used0, data)
  {
    hide HasTable, TableOf;
    SpaceParts(m, k, pd, used0, data);
    assert UseOk(m, k, pd, used0, data, t);
    forall j | 0 <= j < ENTRIES
      ensures KernelEntry(n.mem, k, j)
    {
      assert KernelEntry(m.mem, k, j) && UseOk(m, k, pd, used0, data, k.kd);
    }
    forall j | 0 <= j < ENTRIES ensures TableOk(n, k, pd, used0, data, j) { assert TableOk(m, k, pd, used0, data, j); }
    forall a, b | 0 <= a < ENTRIES && 0 <= b < ENTRIES ensures Apart(n.mem, k, pd, a, b) {
      assert Apart(m.mem, k, pd, a, b) && TableOk(m, k, pd, used0, data, a) && TableOk(m, k, pd, used0, data, b);
    }
    forall f | 0 <= f < |n.used|
      ensures UseOk(n, k, pd, used0, data, f)
    {
      AddedUse(m, n, k, pd, used0, data, i, t, f);
    }
  }

  lemma AddedUse(m: Machine, n: Machine, k: Kernel, pd: nat, used0: seq<bool>, data: set<nat>, i: nat, t: nat, f: nat)
    requires SpaceOk(m, k, pd, used0, data) && TableAdded(m, n, pd, i, t) && f < |n.used|
    ensures |used0| == |n.used| && UseOk(n, k, pd, used0, data, f)
  {
    SpaceParts(m, k, pd, used0, data);
    assert UseOk(m, k, pd, used0, data, f) && UseOk(m, k, pd, used0, data, t);
    hide HasTable, TableOf, SpaceOk;
    if OwnedFrame(m.mem, k, pd, f) {
      var j :| 0 <= j < ENTRIES && Owns(m.mem, k, pd, j) && TableOf(m.mem, pd, j) == f;
      assert Owns(n.mem, k, pd, j) && TableOf(n.mem, pd, j) == f;
    }
    if f == t { assert Owns(n.mem, k, pd, i) && TableOf(n.mem, pd, i) == f; }
    else if OwnedFrame(n.mem, k, pd, f) {
      var j :| 0 <= j < ENTRIES && Owns(n.mem, k, pd, j) && TableOf(n.mem, pd, j) == f;
      assert j != i && Owns(m.mem, k, pd, j) && TableOf(m.mem, pd, j) == f;
    }
  }

  // ---- mapping a page ---------------------------------------------------------------------------------

  /** What WithTable does: nothing to the tables, or one new table. */
  lemma WithTableEffect(m: Machine, pd: nat, i: nat)
    requires Wf(m) && pd < |m.mem| && i < ENTRIES && m.used[pd] && WithTable(m, pd, i).Mapped?
    ensures var n := WithTable(m, pd, i).m;
            if HasTable(m.mem, pd, i) then
              n.used == m.used && |n.mem| == |m.mem| && SameTables(n.mem, m.mem, pd)
              && (forall f :: 0 <= f < |m.mem| && f != pd ==> n.mem[f] == m.mem[f])
            else TableAdded(m, n, pd, i, FirstFree(m.used, 0))
  {
    hide Ent, PutEnt, Zero, Present, FrameOf;
    var e := Ent(m.mem[pd], i);
    var n := WithTable(m, pd, i).m;
    if Present(e) {
      WithUserKeeps(e);
      forall j | 0 <= j < ENTRIES ensures (HasTable(n.mem, pd, j) <==> HasTable(m.mem, pd, j))
        && TableOf(n.mem, pd, j) == TableOf(m.mem, pd, j) {
        EntPut(m.mem[pd], i, WithUser(e), j);
      }
    } else {
      var t := FirstFree(m.used, 0);
      TableEntry(t);
      forall j | 0 <= j < ENTRIES ensures Ent(n.mem[pd], j) == if j == i then t * 4096 + 7 else Ent(m.mem[pd], j) {
        EntPut(m.mem[pd], i, t * 4096 + 7, j);
      }
    }
  }

  lemma TableEntry(t: nat)
    ensures Present(t * 4096 + 7) && FrameOf(t * 4096 + 7) == t
  {
  }

  lemma WithTableKeeps(m: Machine, k: Kernel, pd: nat, used0: seq<bool>, data: set<nat>, i: nat)
    requires SpaceOk(m, k, pd, used0, data) && i < ENTRIES && WithTable(m, pd, i).Mapped?
    ensures var n := WithTable(m, pd, i).m; SpaceOk(n, k, pd, used0, data) && HasTable(n.mem, pd, i)
  {
    hide SpaceOk, HasTable, TableOf, WithTable;
    SpaceParts(m, k, pd, used0, data);
    WithTableEffect(m, pd, i);
    var n := WithTable(m, pd, i).m;
    if HasTable(m.mem, pd, i) { SpaceFrame(m, n, k, pd, used0, data); }
    else { AddedSpace(m, n, k, pd, used0, data, i, FirstFree(m.used, 0)); }
  }

  /** The memory after the new page entry is written and the windows are cleared. */
  function Entered(mem: seq<Frame>, k: Kernel, pt: nat, j: nat, e: nat): (r: seq<Frame>)
    requires pt < |mem| && j < ENTRIES && e < TWO32 && k.kt + ENTRIES <= |mem|
    ensures |r| == |mem|
  {
    ClearWindows(mem[pt := PutEnt(mem[pt], j, e)], k)
  }

  lemma EnteredFrame(mem: seq<Frame>, k: Kernel, pt: nat, j: nat, e: nat, f: nat)
    requires pt < |mem| && j < ENTRIES && e < TWO32 && k.kt + ENTRIES <= |mem| && f < |mem|
    ensures f != pt && f != k.kt + WINDOW_TABLE ==> Entered(mem, k, pt, j, e)[f] == mem[f]
  {
  }

  /** Entries of the frames concerned. */
  lemma EnteredEntry(mem: seq<Frame>, k: Kernel, pt: nat, j: nat, e: nat, f: nat, x: nat)
    requires pt < |mem| && j < ENTRIES && e < TWO32 && k.kt + ENTRIES <= |mem| && f < |mem| && x < ENTRIES
    requires f == k.kt + WINDOW_TABLE ==> x != WINDOW_PD && x != WINDOW_PT
    ensures Ent(Entered(mem, k, pt, j, e)[f], x) == if f == pt && x == j then e else Ent(mem[f], x)
  {
    hide Ent, PutEnt;
    var a := mem[pt := PutEnt(mem[pt], j, e)];
    var w := k.kt + WINDOW_TABLE;
    EntPut(mem[pt], j, e, x);
    EntPut(a[w], WINDOW_PT, 0, x);
    EntPut(PutEnt(a[w], WINDOW_PT, 0), WINDOW_PD, 0, x);
  }

  lemma MapUserIs(m: Machine, k: Kernel, pd: nat, used0: seq<bool>, data: set<nat>, v: nat, f: nat, flags: nat)
    requires SpaceOk(m, k, pd, used0, data) && v < 0x10_0000 && f < 0x10_0000
    ensures Wf(m) && pd < |m.mem| && k.kt + ENTRIES <= |m.mem|
    ensures MapUser(m, k, pd, v, f, flags).NoTable? <==> WithTable(m, pd, v / 1024).NoTable?
    ensures WithTable(m, pd, v / 1024).Mapped? ==>
              var n := WithTable(m, pd, v / 1024).m;
              SpaceOk(n, k, pd, used0, data) && HasTable(n.mem, pd, v / 1024) && TableOf(n.mem, pd, v / 1024) < |n.mem|
                && |n.mem| == |m.mem|
              && MapUser(m, k, pd, v, f, flags)
                 == Mapped(n.(mem := Entered(n.mem, k, TableOf(n.mem, pd, v / 1024), v % 1024,
                                             UserEntry(f, flags, v * 4096))))
  {
    hide SpaceOk, HasTable, TableOf, WithTable, UserEntry, PutEnt, ClearWindows;
    SpaceParts(m, k, pd, used0, data);
    if WithTable(m, pd, v / 1024).Mapped? {
      var n := WithTable(m, pd, v / 1024).m;
      WithTableKeeps(m, k, pd, used0, data, v / 1024);
      TableParts(n, k, pd, used0, data, v / 1024);
      WithTableEffect(m, pd, v / 1024);
    }
  }

  /** Mapping keeps what the space owns. */
  lemma MapUserKeeps(m: Machine, k: Kernel, pd: nat, used0: seq<bool>, data: set<nat>, v: nat, f: nat, flags: nat)
    requires SpaceOk(m, k, pd, used0, data) && v < 0x10_0000 && f < 0x10_0000
    ensures Wf(m) && pd < |m.mem| && k.kt + ENTRIES <= |m.mem|
    ensures MapUser(m, k, pd, v, f, flags).Mapped? ==> SpaceOk(MapUser(m, k, pd, v, f, flags).m, k, pd, used0, data)
  {
    hide SpaceOk, HasTable, TableOf, WithTable, UserEntry, Entered, MapUser;
    MapUserIs(m, k, pd, used0, data, v, f, flags);
    if MapUser(m, k, pd, v, f, flags).Mapped? {
      var n := WithTable(m, pd, v / 1024).m;
      EnterKeeps(n, k, pd, used0, data, v / 1024, v % 1024, UserEntry(f, flags, v * 4096));
    }
  }

  lemma EnterKeeps(n: Machine, k: Kernel, pd: nat, used0: seq<bool>, data: set<nat>, i: nat, j: nat, e: nat)
    requires SpaceOk(n, k, pd, used0, data) && i < ENTRIES && j < ENTRIES && e < TWO32
    requires pd < |n.mem| && HasTable(n.mem, pd, i) && TableOf(n.mem, pd, i) < |n.mem| && k.kt + ENTRIES <= |n.mem|
    ensures SpaceOk(n.(mem := Entered(n.mem, k, TableOf(n.mem, pd, i), j, e)), k, pd, used0, data)
  {
    hide SpaceOk, Entered;
    SpaceParts(n, k, pd, used0, data);
    TableParts(n, k, pd, used0, data, i);
    var pt := TableOf(n.mem, pd, i);
    EnteredFrame(n.mem, k, pt, j, e, pd);
    EnteredFrame(n.mem, k, pt, j, e, k.kd);
    SpaceFrame(n, n.(mem := Entered(n.mem, k, pt, j, e)), k, pd, used0, data);
  }

  // ---- what other pages see -----------------------------------------------------------------------------

  /** A new table changes no lookup. */
  lemma WalkWithTable(m: Machine, k: Kernel, pd: nat, used0: seq<bool>, data: set<nat>, i: nat, v: nat)
    requires SpaceOk(m, k, pd, used0, data) && i < ENTRIES && WithTable(m, pd, i).Mapped? && v < 0x10_0000
    ensures var n := WithTable(m, pd, i).m; pd < |n.mem| && Walk(n.mem, pd, v) == Walk(m.mem, pd, v)
  {
    hide SpaceOk, HasTable, TableOf, WithTable, Ent, Present, FrameOf, Zero;
    SpaceParts(m, k, pd, used0, data);
    WithTableEffect(m, pd, i);
    TableParts(m, k, pd, used0, data, v / 1024);
    ZeroEnt(v % 1024);
    NotPresent();
  }

  lemma NotPresent()
    ensures !Present(0)
  {
  }

  /** Writing an entry changes the lookup of its own page only. */
  lemma WalkEntered(n: Machine, k: Kernel, pd: nat, used0: seq<bool>, data: set<nat>, w: nat, e: nat, v: nat)
    requires SpaceOk(n, k, pd, used0, data) && w < 0x10_0000 && v < 0x10_0000 && e < TWO32
    requires pd < |n.mem| && HasTable(n.mem, pd, w / 1024) && TableOf(n.mem, pd, w / 1024) < |n.mem|
             && k.kt + ENTRIES <= |n.mem|
    requires v != WINDOW_PAGE && v != WINDOW_PAGE + 1
    ensures var mem := Entered(n.mem, k, TableOf(n.mem, pd, w / 1024), w % 1024, e);
            Walk(mem, pd, v)
              == if v == w then (if Present(e) then Page(FrameOf(e)) else Unmapped) else Walk(n.mem, pd, v)
  {
    hide SpaceOk, Ent, Present, FrameOf, Entered;
    var i, pt := w / 1024, TableOf(n.mem, pd, w / 1024);
    SpaceParts(n, k, pd, used0, data);
    TableParts(n, k, pd, used0, data, i);
    EnteredFrame(n.mem, k, pt, w % 1024, e, pd);
    var x := v / 1024;
    TableParts(n, k, pd, used0, data, x);
    if HasTable(n.mem, pd, x) {
      var t := TableOf(n.mem, pd, x);
      if x != i { TablesApart(n, k, pd, used0, data, x, i); }
      if t == k.kt + WINDOW_TABLE { WindowTable(n, k, pd, used0, data, v); }
      EnteredEntry(n.mem, k, pt, w % 1024, e, t, v % 1024);
      SamePage(v, w);
    }
  }

  lemma SamePage(v: nat, w: nat)
    ensures v == w <==> v / 1024 == w / 1024 && v % 1024 == w % 1024
  {
  }

  lemma WindowTable(n: Machine, k: Kernel, pd: nat, used0: seq<bool>, data: set<nat>, v: nat)
    requires SpaceOk(n, k, pd, used0, data) && v < 0x10_0000 && v != WINDOW_PAGE && v != WINDOW_PAGE + 1
    requires pd < |n.mem| && HasTable(n.mem, pd, v / 1024) && TableOf(n.mem, pd, v / 1024) == k.kt + WINDOW_TABLE
    ensures v % 1024 != WINDOW_PD && v % 1024 != WINDOW_PT
  {
    hide SpaceOk, HasTable, TableOf;
    SpaceParts(n, k, pd, used0, data);
    TableParts(n, k, pd, used0, data, v / 1024);
    assert v / 1024 == 255;
  }

  /** After mapping frame f at page w, that page leads to f and every other page leads
      where it did. */
  lemma MapUserWalks(m: Machine, k: Kernel, pd: nat, used0: seq<bool>, data: set<nat>, w: nat, f: nat, flags: nat,
                     v: nat)
    requires SpaceOk(m, k, pd, used0, data) && w < 0x10_0000 && f < 0x10_0000 && v < 0x10_0000
    requires v != WINDOW_PAGE && v != WINDOW_PAGE + 1
    ensures Wf(m) && pd < |m.mem| && k.kt + ENTRIES <= |m.mem|
    ensures var r := MapUser(m, k, pd, w, f, flags);
            r.Mapped? ==> pd < |r.m.mem| && Walk(r.m.mem, pd, v) == if v == w then Page(f) else Walk(m.mem, pd, v)
  {
    hide SpaceOk, HasTable, TableOf, WithTable, UserEntry, Entered, MapUser, Walk, Present, FrameOf;
    MapUserIs(m, k, pd, used0, data, w, f, flags);
    if MapUser(m, k, pd, w, f, flags).Mapped? {
      var n := WithTable(m, pd, w / 1024).m;
      WalkWithTable(m, k, pd, used0, data, w / 1024, v);
      WalkEntered(n, k, pd, used0, data, w, UserEntry(f, flags, w * 4096), v);
    }
  }

  /** Frames that hold data keep their contents. */
  lemma MapUserKeepsData(m: Machine, k: Kernel, pd: nat, used0: seq<bool>, data: set<nat>, w: nat, f: nat, flags: nat,
                         g: nat)
    requires SpaceOk(m, k, pd, used0, data) && w < 0x10_0000 && f < 0x10_0000 && g in data
    ensures Wf(m) && pd < |m.mem| && k.kt + ENTRIES <= |m.mem| && g < |m.mem|
    ensures var r := MapUser(m, k, pd, w, f, flags); r.Mapped? ==> |r.m.mem| == |m.mem| && r.m.mem[g] == m.mem[g]
  {
    hide SpaceOk, HasTable, TableOf, WithTable, UserEntry, Entered, MapUser;
    SpaceParts(m, k, pd, used0, data);
    DataParts(m, k, pd, used0, data, g);
    MapUserIs(m, k, pd, used0, data, w, f, flags);
    if MapUser(m, k, pd, w, f, flags).Mapped? {
      var n := WithTable(m, pd, w / 1024).m;
      WithTableEffect(m, pd, w / 1024);
      TableParts(n, k, pd, used0, data, w / 1024);
      EnteredFrame(n.mem, k, TableOf(n.mem, pd, w / 1024), w % 1024, UserEntry(f, flags, w * 4096), g);
    }
  }

  // ---- taking a frame for data ------------------------------------------------------------------------

  /** The first free frame taken and filled. */
  function WithData(m: Machine, bytes: Frame): Mapping
    requires Wf(m)
  {
    var f := FirstFree(m.used, 0);
    if f == |m.used| then Refused(m) else Mapped(Machine(m.used[f := true], m.mem[f := bytes]))
  }

  lemma WithDataKeeps(m: Machine, k: Kernel, pd: nat, used0: seq<bool>, data: set<nat>, bytes: Frame)
    requires SpaceOk(m, k, pd, used0, data)
    ensures Wf(m)
    ensures var f := FirstFree(m.used, 0);
            f < |m.used| ==>
              && f !in data && f != pd && f != 0 && SpaceOk(WithData(m, bytes).m, k, pd, used0, data + {f})
              && pd < |m.mem| && forall v :: 0 <= v < 0x10_0000 ==>
                                               Walk(WithData(m, bytes).m.mem, pd, v) == Walk(m.mem, pd, v)
  {
    SpaceParts(m, k, pd, used0, data);
    var f := FirstFree(m.used, 0);
    if f < |m.used| {
      var n := WithData(m, bytes).m;
      FreshFrame(m, k, pd, used0, data, f);
      hide Walk;
      DataSpace(m, n, k, pd, used0, data, f);
      forall v | 0 <= v < 0x10_0000
        ensures Walk(n.mem, pd, v) == Walk(m.mem, pd, v)
      {
        WalkWithData(m, k, pd, used0, data, bytes, v);
      }
    }
  }

  lemma FreshFrame(m: Machine, k: Kernel, pd: nat, used0: seq<bool>, data: set<nat>, f: nat)
    requires SpaceOk(m, k, pd, used0, data) && f < |m.used| && !m.used[f]
    ensures f < |used0| && !used0[f] && f !in data && f != pd && f != 0 && f != k.kd
    ensures pd < |m.mem| && !OwnedFrame(m.mem, k, pd, f)
  {
    hide TableOk, Apart, KernelEntry;
    assert UseOk(m, k, pd, used0, data, f);
  }

  lemma DataSpace(m: Machine, n: Machine, k: Kernel, pd: nat, used0: seq<bool>, data: set<nat>, f: nat)
    requires SpaceOk(m, k, pd, used0, data) && f < |m.used| && !m.used[f] && f != pd && f != k.kd
    requires n.used == m.used[f := true] && |n.mem| == |m.mem| && pd < |m.mem| && n.mem[pd] == m.mem[pd]
    requires k.kd < |m.mem| && n.mem[k.kd] == m.mem[k.kd]
    ensures SpaceOk(n, k, pd, used0, data + {f})
  {
    FreshFrame(m, k, pd, used0, data, f);
    forall i | 0 <= i < ENTRIES ensures KernelEntry(n.mem, k, i) { assert KernelEntry(m.mem, k, i); }
    forall i | 0 <= i < ENTRIES
      ensures TableOk(n, k, pd, used0, data + {f}, i)
    {
      assert TableOk(m, k, pd, used0, data, i);
    }
    forall i, j | 0 <= i < ENTRIES && 0 <= j < ENTRIES
      ensures Apart(n.mem, k, pd, i, j)
    {
      assert Apart(m.mem, k, pd, i, j);
    }
    forall g | 0 <= g < |n.used| ensures UseOk(n, k, pd, used0, data + {f}, g) {
      assert UseOk(m, k, pd, used0, data, g);
      SameOwned(n.mem, m.mem, k, pd, g);
    }
  }

  lemma WalkWithData(m: Machine, k: Kernel, pd: nat, used0: seq<bool>, data: set<nat>, bytes: Frame, v: nat)
    requires SpaceOk(m, k, pd, used0, data) && v < 0x10_0000 && Wf(m) && WithData(m, bytes).Mapped? && pd < |m.mem|
    ensures Walk(WithData(m, bytes).m.mem, pd, v) == Walk(m.mem, pd, v)
  {
    hide SpaceOk, Ent;
    SpaceParts(m, k, pd, used0, data);
    TableParts(m, k, pd, used0, data, v / 1024);
  }

  // ---- destroying a space ---------------------------------------------------------------------------------

  /** The frames in use after the first n tables have been looked at. */
  function FreeTables(m: Machine, k: Kernel, pd: nat, n: nat): (r: seq<bool>)
    requires pd < |m.mem| && n <= ENTRIES
    ensures |r| == |m.used|
  {
    if n == 0 then m.used
    else
      var u := FreeTables(m, k, pd, n - 1);
      if Owns(m.mem, k, pd, n - 1) && TableOf(m.mem, pd, n - 1) < |u| then u[TableOf(m.mem, pd, n - 1) := false] else u
  }

  function Destroy(m: Machine, k: Kernel, pd: nat): (r: seq<bool>)
    requires pd < |m.mem| && pd < |m.used|
    ensures |r| == |m.used|
  {
    FreeTables(m, k, pd, ENTRIES)[pd := false]
  }

  lemma {:induction false} FreedTables(m: Machine, k: Kernel, pd: nat, n: nat, f: nat)
    requires pd < |m.mem| && n <= ENTRIES && f < |m.used|
    ensures FreeTables(m, k, pd, n)[f]
            <==> m.used[f] && forall i :: 0 <= i < n && Owns(m.mem, k, pd, i) ==> TableOf(m.mem, pd, i) != f
  {
    hide Owns, TableOf;
    if n > 0 { FreedTables(m, k, pd, n - 1, f); }
  }

  /** Destroying a space leaves in use what was in use before it was created and the data
      frames it was given; without data frames the bitmap is exactly as before. */
  lemma DestroyRestores(m: Machine, k: Kernel, pd: nat, used0: seq<bool>, data: set<nat>)
    requires SpaceOk(m, k, pd, used0, data)
    ensures Wf(m) && pd < |m.mem| && |used0| == |m.used|
    ensures forall f :: 0 <= f < |used0| ==> (Destroy(m, k, pd)[f] <==> used0[f] || f in data)
    ensures data == {} ==> Destroy(m, k, pd) == used0
  {
    SpaceParts(m, k, pd, used0, data);
    hide FreeTables, Owns, TableOf;
    forall f | 0 <= f < |used0| ensures Destroy(m, k, pd)[f] <==> used0[f] || f in data {
      FreedTables(m, k, pd, ENTRIES, f);
      assert UseOk(m, k, pd, used0, data, f);
      NotOwned(m, k, pd, used0, data, f);
    }
  }

  lemma NotOwned(m: Machine, k: Kernel, pd: nat, used0: seq<bool>, data: set<nat>, f: nat)
    requires SpaceOk(m, k, pd, used0, data) && f < |used0|
    ensures pd < |m.mem| && ((used0[f] || f in data || f == pd) ==> !OwnedFrame(m.mem, k, pd, f))
  {
    if OwnedFrame(m.mem, k, pd, f) {
      var i :| 0 <= i < ENTRIES && Owns(m.mem, k, pd, i) && TableOf(m.mem, pd, i) == f;
      assert TableOk(m, k, pd, used0, data, i);
    }
  }

  // ---- isolated spaces ------------------------------------------------------------------------------------

  /** The directory of a new isolated space: the kernel's entries, but for 256 to 767. */
  function IsolatedDir(kd: Frame): (r: Frame) { kd[..1024] + seq(2048, _ => 0) + kd[3072..] }

  lemma IsolatedEntry(kd: Frame, i: nat)
    requires i < ENTRIES
    ensures Ent(IsolatedDir(kd), i) == if 256 <= i < 768 then 0 else Ent(kd, i)
  {
    hide U32;
    var d := IsolatedDir(kd);
    if 256 <= i < 768 {
      ZeroEnt(i);
      assert d[4 * i..4 * i + 4] == Zero()[4 * i..4 * i + 4];
      SameU32(d, 4 * i, Zero(), 4 * i);
    } else {
      assert d[4 * i..4 * i + 4] == kd[4 * i..4 * i + 4];
      SameU32(d, 4 * i, kd, 4 * i);
    }
  }

  function CreateIsolated(m: Machine, k: Kernel): Mapping
    requires Wf(m) && k.kd < |m.mem|
  {
    WithData(m, IsolatedDir(m.mem[k.kd]))
  }

  /** A new isolated space owns its directory only. */
  lemma IsolatedSpace(m: Machine, k: Kernel)
    requires KernelOk(m, k, m.used) && CreateIsolated(m, k).Mapped?
    ensures SpaceOk(CreateIsolated(m, k).m, k, FirstFree(m.used, 0), m.used, {})
    ensures var n, pd := CreateIsolated(m, k).m, FirstFree(m.used, 0);
            forall i :: 0 <= i < ENTRIES ==> (HasTable(n.mem, pd, i) <==> !(256 <= i < 768)) && !Owns(n.mem, k, pd, i)
  {
    hide Ent, IsolatedDir;
    var n, pd := CreateIsolated(m, k).m, FirstFree(m.used, 0);
    NotPresent();
    forall i | 0 <= i < ENTRIES ensures KernelEntry(n.mem, k, i) { assert KernelEntry(m.mem, k, i); }
    forall i | 0 <= i < ENTRIES ensures (HasTable(n.mem, pd, i) <==> !(256 <= i < 768)) && !Owns(n.mem, k, pd, i) {
      IsolatedEntry(m.mem[k.kd], i);
      assert KernelEntry(m.mem, k, i);
    }
    forall f | 0 <= f < |n.used| ensures UseOk(n, k, pd, m.used, {}, f) { assert !OwnedFrame(n.mem, k, pd, f); }
  }

  // ---- the life of a space --------------------------------------------------------------------------------------

  datatype Request = Request(v: nat, f: nat, flags: nat)

  lemma MapUserWf(m: Machine, k: Kernel, pd: nat, v: nat, f: nat, flags: nat)
    requires Wf(m) && pd < |m.mem| && v < 0x10_0000 && f < 0x10_0000 && k.kt + ENTRIES <= |m.mem|
    ensures var r := MapUser(m, k, pd, v, f, flags); r.Mapped? ==> Wf(r.m) && |r.m.mem| == |m.mem|
  {
    hide UserEntry, PutEnt, Ent, Zero;
  }

  function MapRequest(m: Machine, k: Kernel, pd: nat, q: Request): (r: Mapping)
    requires Wf(m) && pd < |m.mem| && k.kt + ENTRIES <= |m.mem|
    ensures r.Mapped? ==> Wf(r.m) && |r.m.mem| == |m.mem|
  {
    if q.v < 0x10_0000 && q.f < 0x10_0000 then
      MapUserWf(m, k, pd, q.v, q.f, q.flags);
      MapUser(m, k, pd, q.v, q.f, q.flags)
    else NoTable(m)
  }

  /** Any number of calls of paging_map_user, all successful. */
  function MapAll(m: Machine, k: Kernel, pd: nat, rs: seq<Request>): (r: Mapping)
    requires Wf(m) && pd < |m.mem| && k.kt + ENTRIES <= |m.mem|
    ensures r.Mapped? ==> Wf(r.m) && |r.m.mem| == |m.mem|
  {
    if rs == [] then Mapped(m)
    else
      match MapAll(m, k, pd, rs[..|rs| - 1])
      case NoTable(x) => NoTable(x)
      case Refused(x) => Refused(x)
      case Mapped(x) => MapRequest(x, k, pd, rs[|rs| - 1])
  }

  lemma {:induction false} MapAllKeeps(m: Machine, k: Kernel, pd: nat, used0: seq<bool>, data: set<nat>,
                                       rs: seq<Request>)
    requires SpaceOk(m, k, pd, used0, data)
    ensures Wf(m) && pd < |m.mem| && k.kt + ENTRIES <= |m.mem|
    ensures MapAll(m, k, pd, rs).Mapped? ==> SpaceOk(MapAll(m, k, pd, rs).m, k, pd, used0, data)
  {
    hide SpaceOk, MapUser;
    SpaceParts(m, k, pd, used0, data);
    if rs != [] {
      MapAllKeeps(m, k, pd, used0, data, rs[..|rs| - 1]);
      var r, q := MapAll(m, k, pd, rs[..|rs| - 1]), rs[|rs| - 1];
      if r.Mapped? && q.v < 0x10_0000 && q.f < 0x10_0000 { MapUserKeeps(r.m, k, pd, used0, data, q.v, q.f, q.flags); }
    }
  }

  /** Creating a space, mapping any pages into it and destroying it restores the bitmap. */
  lemma SpaceLifecycle(m: Machine, k: Kernel, pd: nat, used0: seq<bool>, rs: seq<Request>)
    requires SpaceOk(m, k, pd, used0, {})
    ensures Wf(m) && pd < |m.mem| && k.kt + ENTRIES <= |m.mem|
    ensures var r := MapAll(m, k, pd, rs);
            r.Mapped? ==> pd < |r.m.mem| && pd < |r.m.used| && Destroy(r.m, k, pd) == used0
  {
    hide SpaceOk, MapAll, Destroy;
    MapAllKeeps(m, k, pd, used0, {}, rs);
    var r := MapAll(m, k, pd, rs);
    if r.Mapped? { DestroyRestores(r.m, k, pd, used0, {}); }
  }
}
