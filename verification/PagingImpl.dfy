/** The paging code and the ELF segment loader at work (src/paging.c, src/elf.c): frames are
    taken, filled and linked step by step, and each operation is tied to its meaning. */
module PagingImpl {
  import opened Bits
  import opened LittleEndian
  import opened Pmm
  import opened Paging
  import opened PagingSpace
  import opened PagingIsolation
  import opened PagingRights
  import opened Elf

  class Memory {
    const pmm: FrameAllocator
    const k: Kernel
    var mem: seq<Frame>

    constructor (pmm: FrameAllocator, k: Kernel, mem: seq<Frame>)
      ensures this.pmm == pmm && this.k == k && this.mem == mem
    {
      this.pmm := pmm;
      this.k := k;
      this.mem := mem;
    }

    ghost predicate Valid()
      reads this, pmm
    {
      pmm.Valid() && |mem| == pmm.total && k.kd < |mem| && k.kt + ENTRIES <= |mem| && |mem| > 0 && pmm.Used()[0]
    }

    ghost function V(): (m: Machine)
      requires Valid()
      reads this, pmm
      ensures Wf(m)
    {
      Machine(pmm.Used(), mem)
    }

    /** The frame number pmm_alloc_page returns, 0 when there is none. */
    method TakeFrame() returns (f: nat)
      requires Valid()
      modifies pmm
      ensures Valid() && mem == old(mem)
      ensures var t := FirstFree(old(V()).used, 0);
              if t < |mem| then f == t && f != 0 && V().used == old(V()).used[t := true]
                                else f == 0 && V().used == old(V()).used
    {
      var addr := pmm.Alloc();
      f := addr / 4096;
    }

    method GiveFrame(f: nat)
      requires Valid() && f != 0
      modifies pmm
      ensures Valid() && mem == old(mem)
      ensures V().used == if f < |mem| then old(V()).used[f := false] else old(V()).used
    {
      pmm.Free(f * 4096);
    }

    /** The temporary windows as paging_map_user leaves them. */
    method CloseWindows()
      requires Valid()
      modifies this
      ensures Valid() && V() == old(V()).(mem := ClearWindows(old(V()).mem, k))
    {
      var w := k.kt + WINDOW_TABLE;
      mem := mem[w := PutEnt(PutEnt(mem[w], WINDOW_PT, 0), WINDOW_PD, 0)];
    }

    /** A table at index i of the directory: the existing one, or a new, cleared one. */
    method EnsureTable(pd: nat, i: nat)
      requires Valid() && pd < |mem| && i < ENTRIES
      modifies this, pmm
      ensures Valid() && |mem| == old(|mem|) && V() == old(WithTable(V(), pd, i)).m
    {
      hide Ent, PutEnt, Zero, FirstFree, Flags, Count;
      var e := Ent(mem[pd], i);
      if !Present(e) {
        var t := TakeFrame();
        mem := mem[t := Zero()];
        mem := mem[pd := PutEnt(mem[pd], i, t * 4096 + 7)];
      } else {
        WithUserKeeps(e);
        mem := mem[pd := PutEnt(mem[pd], i, WithUser(e))];
      }
    }

    /** paging_map_user; when no frame is left for a missing table it goes on with frame 0,
        which is what TakeFrame returns then. */
    method MapUserPage(pd: nat, v: nat, f: nat, flags: nat)
      requires Valid() && pd < |mem| && v < 0x10_0000 && f < 0x10_0000
      modifies this, pmm
      ensures Valid() && |mem| == old(|mem|) && V() == old(MapUser(V(), k, pd, v, f, flags)).m
    {
      hide Ent, PutEnt, UserEntry, FirstFree, Zero, ClearWindows, WithTable, FrameOf;
      EnsureTable(pd, v / 1024);
      var pt := FrameOf(Ent(mem[pd], v / 1024));
      if pt < |mem| { mem := mem[pt := PutEnt(mem[pt], v % 1024, UserEntry(f, flags, v * 4096))]; }
      CloseWindows();
    }

    /** paging_create_isolated_space: the directory's frame, 0 when there is none. */
    method CreateIsolatedSpace() returns (pd: nat)
      requires Valid() && KernelOk(V(), k, V().used)
      modifies this, pmm
      ensures Valid()
      ensures old(CreateIsolated(V(), k)) == if pd == 0 then Refused(V()) else Mapped(V())
      ensures pd != 0 ==> pd == FirstFree(old(V()).used, 0) && SpaceOk(V(), k, pd, old(V()).used, {})
                          && Isolated(V().mem, k, pd)
    {
      hide SpaceOk, Isolated, Ent, IsolatedDir, KernelEntry;
      ghost var m := V();
      if CreateIsolated(m, k).Mapped? {
        IsolatedSpace(m, k);
        CreatedIsolated(m, k);
      }
      pd := TakeFrame();
      if pd == 0 { return; }
      var dir := CopyDirectory(mem[pd], mem[k.kd]);
      mem := mem[pd := dir];
    }

    /** paging_create_address_space: a directory whose tables copy the kernel's, with user
        access.  0 when frames run out; then every frame taken is given back. */
    method CreateClonedSpace() returns (pd: nat)
      requires Valid() && KernelOk(V(), k, V().used)
      modifies this, pmm
      ensures Valid() && |mem| == old(|mem|)
      ensures pd == 0 ==> V().used == old(V()).used
      ensures pd != 0 ==> SpaceOk(V(), k, pd, old(V()).used, {})
      ensures pd != 0 ==> forall v :: 0 <= v < 0x10_0000 ==>
                                        Walk(mem, pd, v) == Walk(mem, k.kd, v) && OpenCopy(mem, k, pd, v)
    {
      hide SpaceOk, CloneOk, OpenCopy, Ent, PutEnt, UserCopy, FirstFree, Walk, Flags, Count, KernelEntry;
      ghost var used0 := V().used;
      ghost var m := V();
      pd := TakeFrame();
      if pd == 0 { return; }
      CloneStart(m, V(), k, pd);
      for i := 0 to ENTRIES
        invariant Valid() && |mem| == |m.mem| && CloneOk(V(), k, pd, used0, i) && pd < |mem|
      {
        var made := AddTable(pd, i, used0);
        if !made {
          DropTables(pd, i, used0);
          return 0;
        }
      }
      CloneDone(V(), k, pd, used0);
    }

    /** One pass of the clone loop: a new table for index i. */
    method AddTable(pd: nat, i: nat, ghost used0: seq<bool>) returns (made: bool)
      requires Valid() && CloneOk(V(), k, pd, used0, i) && i < ENTRIES && pd < |mem|
      modifies this, pmm
      ensures Valid() && |mem| == old(|mem|)
      ensures CloneOk(V(), k, pd, used0, if made then i + 1 else i)
    {
      hide Ent, PutEnt, UserCopy, FirstFree, Present, FrameOf, CloneOk, Flags, Count;
      ghost var m := V();
      CloneFacts(m, k, pd, used0, i);
      PdIsUsed(m, k, pd, used0, i);
      var t := TakeFrame();
      if t == 0 {
        assert V() == m;
        return false;
      }
      var table := CopyTable(mem[t], mem[k.kt + i]);
      mem := mem[t := table];
      ghost var dir := mem[pd];
      EntryFits(t);
      mem := mem[pd := PutEnt(mem[pd], i, t * 4096 + 7)];
      forall j | 0 <= j < ENTRIES
        ensures Ent(mem[pd], j) == if j == i then t * 4096 + 7 else Ent(m.mem[pd], j)
      {
        EntPut(dir, i, t * 4096 + 7, j);
      }
      CloneStep(m, V(), k, pd, used0, i, t);
      return true;
    }

    /** Gives the table of index i back. */
    method GiveTable(pd: nat, i: nat, ghost m: Machine)
      requires Valid() && mem == m.mem && pd < |mem| && i < ENTRIES && |m.used| == |mem|
               && V().used == FreeTables(m, k, pd, i)
      requires Owns(mem, k, pd, i) && 0 < TableOf(mem, pd, i) < |mem|
      modifies pmm
      ensures Valid() && mem == old(mem) && V().used == FreeTables(m, k, pd, i + 1)
    {
      hide Ent, FreeTables, Flags, Count;
      TablesStep(m, k, pd, i);
      GiveFrame(FrameOf(Ent(mem[pd], i)));
    }

    /** The cleanup when the clone loop runs out of frames. */
    method DropTables(pd: nat, n: nat, ghost used0: seq<bool>)
      requires Valid() && CloneOk(V(), k, pd, used0, n) && pd < |mem|
      modifies pmm
      ensures Valid() && mem == old(mem) && V().used == used0
    {
      hide Ent, CloneOk, FreeTables, KernelOk, Flags, Count, FrameOf, Present;
      ghost var m := V();
      CloneUndone(m, k, pd, used0, n);
      CloneFacts(m, k, pd, used0, n);
      NoTablesFreed(m, k, pd);
      for j := 0 to n
        invariant Valid() && mem == old(mem) && V().used == FreeTables(m, k, pd, j)
      {
        assert HasTable(m.mem, pd, j) && Owns(m.mem, k, pd, j);
        if Present(Ent(mem[pd], j)) { GiveTable(pd, j, m); }
      }
      GiveFrame(pd);
    }

    /** paging_destroy_address_space on a space created when used0 were in use. */
    method DestroySpace(pd: nat, ghost used0: seq<bool>, ghost data: set<nat>)
      requires Valid() && SpaceOk(V(), k, pd, used0, data)
      modifies pmm
      ensures Valid() && mem == old(mem)
      ensures pd < |mem| && V().used == Destroy(old(V()), k, pd)
      ensures |V().used| == |used0| && forall f :: 0 <= f < |used0| ==> (V().used[f] <==> used0[f] || f in data)
      ensures data == {} ==> V().used == used0
    {
      hide SpaceOk, Ent, FreeTables, Flags, Count, FrameOf, Present;
      ghost var m := V();
      SpaceParts(m, k, pd, used0, data);
      DestroyRestores(m, k, pd, used0, data);
      NoTablesFreed(m, k, pd);
      for i := 0 to ENTRIES
        invariant Valid() && mem == old(mem) && V().used == FreeTables(m, k, pd, i)
      {
        KernelTable(m, k, pd, used0, data, i);
        TableParts(m, k, pd, used0, data, i);
        var e := Ent(mem[pd], i);
        if Present(e) && FrameOf(e) != FrameOf(Ent(mem[k.kd], i)) {
          GiveTable(pd, i, m);
        } else {
          TablesStep(m, k, pd, i);
        }
      }
      GiveFrame(pd);
    }

    /** map_segment: a frame for each page, filled from the file, mapped.  False when a
        frame is missing. */
    method MapSegment(pd: nat, file: seq<byte>, s: Segment, ghost used0: seq<bool>, ghost data: set<nat>)
      returns (ok: bool)
      requires Valid() && SpaceOk(V(), k, pd, used0, data) && Isolated(V().mem, k, pd) && SegmentOk(file, s)
               && s.memsz > 0
      requires FirstPage(s) + PageCount(s) <= 0x10_0000 && pd < |mem|
      modifies this, pmm
      ensures Valid() && |mem| == old(|mem|)
      ensures old(LoadSegment(V(), k, pd, file, s, PageCount(s))) == if ok then Mapped(V()) else Refused(V())
    {
      hide SpaceOk, Isolated, LoadPage, WithData, MapUser, PageBytes, Described, Flags, Count, FirstPage, LoadSegment;
      ghost var m := V();
      var first := FirstPage(s);
      var count := EndPage(s) - first;
      SegmentStart(m, k, pd, file, s);
      for n := 0 to count
        invariant Valid() && |mem| == |m.mem|
        invariant LoadSegment(m, k, pd, file, s, n) == Mapped(V())
      {
        SegmentDefined(m, k, pd, used0, data, file, s, n + 1);
        SegmentStep(m, k, pd, file, s, n + 1);
        var done := MapPage(pd, first + n, FillPage(file, s, first + n), PageFlags(s), s.window);
        if !done {
          SegmentStuck(m, k, pd, file, s, n + 1, count);
          return false;
        }
      }
      return true;
    }

    /** The loading part of elf_load: an isolated space, its segments, its stack.  0 when a
        header fails the checks or a frame is missing; then the space is destroyed. */
    method LoadProgram(file: seq<byte>, segs: seq<Segment>) returns (pd: nat)
      requires Valid() && KernelOk(V(), k, V().used) && NoWraps(segs)
      modifies this, pmm
      ensures Valid()
      ensures old(LoadElf(V(), k, file, segs)) == if pd != 0 then Loaded(V(), pd) else Failed(V())
    {
      hide SpaceOk, Isolated, KernelEntry, NoWrap, LoadSegment, LoadSegments, CreateIsolated, Flags, Count, FirstFree,
        Destroy, ImageOk, Free;
      ghost var m := V();
      WithStackOk(file, segs);
      var all := segs + [STACK];
      pd := CreateIsolatedSpace();
      if pd == 0 { return; }
      ghost var x := V();
      LoadStart(x, k, pd, m.used, file, all);
      ghost var d: set<nat> := {};
      for n := 0 to |all|
        invariant Valid() && |mem| == |x.mem| && pd < |mem|
        invariant LoadSegments(x, k, pd, file, all, n) == Mapped(V()) && SpaceOk(V(), k, pd, m.used, d)
                  && Isolated(V().mem, k, pd)
      {
        LoadStep(x, k, pd, file, all, n);
        ghost var before := d;
        d := LoadNext(x, k, pd, m.used, file, all, n + 1);
        if all[n].memsz == 0 { continue; }
        var ok := Accepted(file, all[n]);
        if ok { ok := MapSegment(pd, file, all[n], m.used, before); }
        if !ok {
          LoadStuck(x, k, pd, file, all, n + 1, |all|);
          DestroySpace(pd, m.used, d);
          return 0;
        }
      }
    }

    /** One pass of the page loops: take a frame, fill it, through the loader's window for
        the stack, and map it. */
    method MapPage(pd: nat, v: nat, bytes: Frame, flags: nat, window: bool) returns (ok: bool)
      requires Valid() && pd < |mem| && v < 0x10_0000
      modifies this, pmm
      ensures Valid() && |mem| == old(|mem|)
      ensures V() == old(LoadPage(V(), k, pd, v, bytes, flags, window)).m
              && ok == !old(LoadPage(V(), k, pd, v, bytes, flags, window)).Refused?
    {
      hide MapUser, Flags, Count;
      ghost var m := V();
      ghost var t := FirstFree(m.used, 0);
      var f := TakeFrame();
      if f == 0 { return false; }
      mem := mem[f := bytes];
      if window { mem := mem[k.kt + WINDOW_TABLE := PutEnt(mem[k.kt + WINDOW_TABLE], LOADER_WINDOW, 0)]; }
      MapUserPage(pd, v, f, flags);
      return true;
    }
  }

  lemma LoadStart(x: Machine, k: Kernel, pd: nat, used0: seq<bool>, file: seq<byte>, all: seq<Segment>)
    requires SpaceOk(x, k, pd, used0, {}) && Isolated(x.mem, k, pd) && NoWraps(all)
    ensures Wf(x) && pd < |x.mem| && pd < |x.used| && k.kt + ENTRIES <= |x.mem|
    ensures LoadSegments(x, k, pd, file, all, 0) == Mapped(x) && ImageOk(x, k, pd, used0, {}, map[])
  {
    hide SpaceOk, Isolated;
    SpaceParts(x, k, pd, used0, {});
  }

  /** What one turn of the header loop does. */
  lemma LoadStep(x: Machine, k: Kernel, pd: nat, file: seq<byte>, all: seq<Segment>, n: nat)
    requires Wf(x) && pd < |x.mem| && k.kt + ENTRIES <= |x.mem| && NoWraps(all) && n < |all|
    requires LoadSegments(x, k, pd, file, all, n).Mapped?
    ensures NoWrap(all[n]) && FirstPage(all[n]) + PageCount(all[n]) <= 0x10_0000
    ensures var r := LoadSegments(x, k, pd, file, all, n);
            LoadSegments(x, k, pd, file, all, n + 1)
            == if all[n].memsz == 0 then r
               else if !Accepted(file, all[n]) then Refused(r.m)
               else LoadSegment(r.m, k, pd, file, all[n], PageCount(all[n]))
  {
    PagesFit(all[n]);
    hide LoadPage;
  }

  lemma LoadNext(x: Machine, k: Kernel, pd: nat, used0: seq<bool>, file: seq<byte>, all: seq<Segment>, n: nat)
    returns (d: set<nat>)
    requires ImageOk(x, k, pd, used0, {}, map[]) && NoWraps(all) && n <= |all|
    ensures Wf(x) && pd < |x.mem| && k.kt + ENTRIES <= |x.mem|
    ensures var r := LoadSegments(x, k, pd, file, all, n);
            SpaceOk(r.m, k, pd, used0, d) && (r.Mapped? ==> Isolated(r.m.mem, k, pd))
  {
    hide ImageOk, LoadSegments, Free, Wanted, HeadersOk;
    d := LoadSegmentsKeeps(x, k, pd, used0, {}, file, all, n);
    var r := LoadSegments(x, k, pd, file, all, n);
    if r.Mapped? { ImageSpace(r.m, k, pd, used0, d, ImagePages(file, all, n)); }
  }

  lemma {:induction false} LoadStuck(x: Machine, k: Kernel, pd: nat, file: seq<byte>, all: seq<Segment>, n: nat,
                                     count: nat)
    requires Wf(x) && pd < |x.mem| && k.kt + ENTRIES <= |x.mem| && NoWraps(all) && n <= count <= |all|
    requires !LoadSegments(x, k, pd, file, all, n).Mapped?
    ensures LoadSegments(x, k, pd, file, all, count) == LoadSegments(x, k, pd, file, all, n)
  {
    hide LoadSegment, NoWrap;
    if n < count { LoadStuck(x, k, pd, file, all, n, count - 1); }
  }

  lemma EntryFits(t: nat)
    requires t < 0x10_0000
    ensures t * 4096 + 7 < TWO32
  {
  }

  lemma PdIsUsed(m: Machine, k: Kernel, pd: nat, used0: seq<bool>, n: nat)
    requires CloneOk(m, k, pd, used0, n)
    ensures pd < |m.used| && m.used[pd]
  {
    hide KernelEntry, ClonedAt;
  }

  lemma CloneFacts(m: Machine, k: Kernel, pd: nat, used0: seq<bool>, n: nat)
    requires CloneOk(m, k, pd, used0, n)
    ensures n <= ENTRIES && pd < |used0| == |m.used| && !used0[pd] && used0[0] && k.kt + ENTRIES <= |m.mem|
  {
    hide KernelEntry, ClonedAt;
  }

  lemma CloneStart(m: Machine, n: Machine, k: Kernel, pd: nat)
    requires KernelOk(m, k, m.used) && pd < |m.used| && !m.used[pd] && n.used == m.used[pd := true] && n.mem == m.mem
    ensures CloneOk(n, k, pd, m.used, 0)
  {
    hide Ent;
    forall i | 0 <= i < ENTRIES ensures KernelEntry(n.mem, k, i) { assert KernelEntry(m.mem, k, i); }
  }

  /** A directory under construction: its first n entries point to tables of its own, which
      copy the kernel's, and nothing else has been taken since used0. */
  ghost predicate CloneOk(m: Machine, k: Kernel, pd: nat, used0: seq<bool>, n: nat) {
    && KernelOk(m, k, used0) && pd < |m.mem| && !used0[pd] && n <= ENTRIES
    && (forall i :: 0 <= i < n ==> ClonedAt(m, k, pd, used0, i))
    && (forall i, j :: 0 <= i < j < n ==> TableOf(m.mem, pd, i) != TableOf(m.mem, pd, j))
    && (forall f :: 0 <= f < |used0| ==> (m.used[f] <==> used0[f] || f == pd || ClonedFrame(m.mem, pd, n, f)))
  }

  ghost predicate ClonedAt(m: Machine, k: Kernel, pd: nat, used0: seq<bool>, i: nat)
    requires Wf(m) && |used0| == |m.used| && pd < |m.mem| && i < ENTRIES && k.kt + ENTRIES <= |m.mem|
  {
    && HasTable(m.mem, pd, i)
    && var t := TableOf(m.mem, pd, i);
       && t < |m.mem| && !used0[t] && m.used[t] && t != pd && Ent(m.mem[pd], i) == t * 4096 + 7
       && UserCopy(m.mem[t], m.mem[k.kt + i])
  }

  ghost predicate ClonedFrame(mem: seq<Frame>, pd: nat, n: nat, f: nat)
    requires pd < |mem| && n <= ENTRIES
  {
    exists i :: 0 <= i < n && HasTable(mem, pd, i) && TableOf(mem, pd, i) == f
  }

  /** Every present entry with PAGE_USER added, every other one cleared. */
  ghost predicate UserCopy(t: Frame, src: Frame) {
    forall j :: 0 <= j < ENTRIES ==> Ent(t, j) == if Present(Ent(src, j)) then WithUser(Ent(src, j)) else 0
  }

  /** The copy loop for one page table. */
  method CopyTable(t0: Frame, src: Frame) returns (t: Frame)
    ensures UserCopy(t, src)
  {
    hide Ent, PutEnt, Present;
    t := t0;
    for j := 0 to ENTRIES
      invariant forall x :: 0 <= x < j ==> Ent(t, x) == if Present(Ent(src, x)) then WithUser(Ent(src, x)) else 0
    {
      WithUserKeeps(Ent(src, j));
      var e := if Present(Ent(src, j)) then WithUser(Ent(src, j)) else 0;
      ghost var was := t;
      t := PutEnt(t, j, e);
      forall x | 0 <= x <= j
        ensures Ent(t, x) == if Present(Ent(src, x)) then WithUser(Ent(src, x)) else 0
      {
        EntPut(was, j, e, x);
      }
    }
  }

  /** One more table. */
  lemma CloneStep(m: Machine, n: Machine, k: Kernel, pd: nat, used0: seq<bool>, i: nat, t: nat)
    requires CloneOk(m, k, pd, used0, i) && i < ENTRIES && t < |m.used| && !m.used[t]
    requires n.used == m.used[t := true] && |n.mem| == |m.mem|
    requires forall f :: 0 <= f < |m.mem| && f != pd && f != t ==> n.mem[f] == m.mem[f]
    requires UserCopy(n.mem[t], m.mem[k.kt + i])
    requires forall j :: 0 <= j < ENTRIES ==> Ent(n.mem[pd], j) == if j == i then t * 4096 + 7 else Ent(m.mem[pd], j)
    ensures CloneOk(n, k, pd, used0, i + 1)
  {
    hide Ent, UserCopy;
    TableEntry(t);
    forall j | 0 <= j < ENTRIES ensures KernelEntry(n.mem, k, j) { assert KernelEntry(m.mem, k, j); }
    forall j | 0 <= j <= i ensures ClonedAt(n, k, pd, used0, j) {
      if j < i {
        assert ClonedAt(m, k, pd, used0, j);
        assert n.mem[TableOf(m.mem, pd, j)] == m.mem[TableOf(m.mem, pd, j)];
      }
      assert n.mem[k.kt + j] == m.mem[k.kt + j];
    }
    forall a, b | 0 <= a < b < i + 1 ensures TableOf(n.mem, pd, a) != TableOf(n.mem, pd, b) {
      assert ClonedAt(m, k, pd, used0, a);
      if b < i { assert TableOf(m.mem, pd, a) != TableOf(m.mem, pd, b); }
    }
    forall f | 0 <= f < |used0| ensures n.used[f] <==> used0[f] || f == pd || ClonedFrame(n.mem, pd, i + 1, f) {
      ClonedStep(m, n, k, pd, i, t, f);
    }
  }

  lemma ClonedStep(m: Machine, n: Machine, k: Kernel, pd: nat, i: nat, t: nat, f: nat)
    requires pd < |m.mem| && pd < |n.mem| && i < ENTRIES
    requires forall j :: 0 <= j < ENTRIES ==> Ent(n.mem[pd], j) == if j == i then t * 4096 + 7 else Ent(m.mem[pd], j)
    ensures ClonedFrame(n.mem, pd, i + 1, f) <==> f == t || ClonedFrame(m.mem, pd, i, f)
  {
    hide Ent;
    TableEntry(t);
    if ClonedFrame(m.mem, pd, i, f) {
      var j :| 0 <= j < i && HasTable(m.mem, pd, j) && TableOf(m.mem, pd, j) == f;
      assert HasTable(n.mem, pd, j) && TableOf(n.mem, pd, j) == f;
    }
    if f == t { assert HasTable(n.mem, pd, i) && TableOf(n.mem, pd, i) == f; }
    if ClonedFrame(n.mem, pd, i + 1, f) && f != t {
      var j :| 0 <= j < i + 1 && HasTable(n.mem, pd, j) && TableOf(n.mem, pd, j) == f;
      assert HasTable(m.mem, pd, j) && TableOf(m.mem, pd, j) == f;
    }
  }

  /** A finished clone is a space, and looks every page up as the kernel does. */
  lemma CloneDone(m: Machine, k: Kernel, pd: nat, used0: seq<bool>)
    requires CloneOk(m, k, pd, used0, ENTRIES)
    ensures SpaceOk(m, k, pd, used0, {})
    ensures forall v :: 0 <= v < 0x10_0000 ==> Walk(m.mem, pd, v) == Walk(m.mem, k.kd, v)
    ensures forall v :: 0 <= v < 0x10_0000 ==> OpenCopy(m.mem, k, pd, v)
  {
    hide Ent, UserCopy, KernelEntry, OpenCopy;
    forall i | 0 <= i < ENTRIES
      ensures TableOk(m, k, pd, used0, {}, i) && Owns(m.mem, k, pd, i)
    {
      assert ClonedAt(m, k, pd, used0, i);
    }
    forall i, j | 0 <= i < ENTRIES && 0 <= j < ENTRIES ensures Apart(m.mem, k, pd, i, j) {
      assert i < j ==> TableOf(m.mem, pd, i) != TableOf(m.mem, pd, j);
      assert j < i ==> TableOf(m.mem, pd, j) != TableOf(m.mem, pd, i);
    }
    forall f | 0 <= f < |m.used| ensures UseOk(m, k, pd, used0, {}, f) { ClonedOwned(m, k, pd, used0, f); }
    forall v | 0 <= v < 0x10_0000
      ensures Walk(m.mem, pd, v) == Walk(m.mem, k.kd, v) && OpenCopy(m.mem, k, pd, v)
    {
      CloneWalks(m, k, pd, used0, v);
      CloneRights(m, k, pd, used0, v);
    }
  }

  /** User code may go to page v exactly when the kernel has it, and the page may be written
      exactly when the kernel's page table says so. */
  ghost predicate OpenCopy(mem: seq<Frame>, k: Kernel, pd: nat, v: nat)
    requires pd < |mem| && k.kd < |mem| && v < 0x10_0000
  {
    var e := Leaf(mem, k.kd, v);
    RightsAt(mem, pd, v) == Rights(Present(e), Present(e) && e / 2 % 2 == 1)
  }

  lemma CloneRights(m: Machine, k: Kernel, pd: nat, used0: seq<bool>, v: nat)
    requires CloneOk(m, k, pd, used0, ENTRIES) && v < 0x10_0000
    ensures OpenCopy(m.mem, k, pd, v)
  {
    hide Ent, FrameOf, UserBit, WithUser;
    var i, j := v / 1024, v % 1024;
    assert ClonedAt(m, k, pd, used0, i) && KernelEntry(m.mem, k, i);
    WithUserKeeps(Ent(m.mem[k.kt + i], j));
    WithUserIsOr(Ent(m.mem[k.kt + i], j));
    NewTableRights(TableOf(m.mem, pd, i));
    NotPresent();
  }

  lemma ClonedOwned(m: Machine, k: Kernel, pd: nat, used0: seq<bool>, f: nat)
    requires CloneOk(m, k, pd, used0, ENTRIES) && f < |m.used|
    ensures OwnedFrame(m.mem, k, pd, f) <==> ClonedFrame(m.mem, pd, ENTRIES, f)
  {
    hide Ent, UserCopy, KernelEntry;
    if ClonedFrame(m.mem, pd, ENTRIES, f) {
      var i :| 0 <= i < ENTRIES && HasTable(m.mem, pd, i) && TableOf(m.mem, pd, i) == f;
      assert ClonedAt(m, k, pd, used0, i);
      assert Owns(m.mem, k, pd, i);
    }
  }

  lemma CloneWalks(m: Machine, k: Kernel, pd: nat, used0: seq<bool>, v: nat)
    requires CloneOk(m, k, pd, used0, ENTRIES) && v < 0x10_0000
    ensures Walk(m.mem, pd, v) == Walk(m.mem, k.kd, v)
  {
    hide Ent, FrameOf;
    var i, j := v / 1024, v % 1024;
    assert ClonedAt(m, k, pd, used0, i) && KernelEntry(m.mem, k, i);
    WithUserKeeps(Ent(m.mem[k.kt + i], j));
  }

  /** Giving back the directory and the tables made so far restores the bitmap. */
  lemma CloneUndone(m: Machine, k: Kernel, pd: nat, used0: seq<bool>, n: nat)
    requires CloneOk(m, k, pd, used0, n)
    ensures FreeTables(m, k, pd, n)[pd := false] == used0
    ensures forall i :: 0 <= i < n ==> HasTable(m.mem, pd, i) && Owns(m.mem, k, pd, i)
                                       && TableOf(m.mem, pd, i) < |m.used| && !used0[TableOf(m.mem, pd, i)]
  {
    hide Ent, UserCopy, KernelEntry;
    forall i | 0 <= i < n
      ensures HasTable(m.mem, pd, i) && Owns(m.mem, k, pd, i) && TableOf(m.mem, pd, i) < |m.used|
              && !used0[TableOf(m.mem, pd, i)]
    { assert ClonedAt(m, k, pd, used0, i); }
    forall f | 0 <= f < |used0| ensures FreeTables(m, k, pd, n)[pd := false][f] == used0[f] {
      FreedTables(m, k, pd, n, f);
      if ClonedFrame(m.mem, pd, n, f) {
        var i :| 0 <= i < n && HasTable(m.mem, pd, i) && TableOf(m.mem, pd, i) == f;
        assert Owns(m.mem, k, pd, i);
      }
    }
  }

  lemma SegmentStart(m: Machine, k: Kernel, pd: nat, file: seq<byte>, s: Segment)
    requires Wf(m) && pd < |m.mem| && k.kt + ENTRIES <= |m.mem| && FirstPage(s) <= 0x10_0000
    ensures LoadSegment(m, k, pd, file, s, 0) == Mapped(m)
  {
  }

  lemma SegmentStep(m: Machine, k: Kernel, pd: nat, file: seq<byte>, s: Segment, n: nat)
    requires Wf(m) && pd < |m.mem| && k.kt + ENTRIES <= |m.mem| && n > 0 && FirstPage(s) + n <= 0x10_0000
    requires LoadSegment(m, k, pd, file, s, n - 1).Mapped?
    ensures LoadSegment(m, k, pd, file, s, n)
            == LoadPage(LoadSegment(m, k, pd, file, s, n - 1).m, k, pd, FirstPage(s) + n - 1,
                        PageBytes(file, s, FirstPage(s) + n - 1), PageFlags(s), s.window)
  {
    hide LoadPage, PageBytes;
  }

  /** Once a page cannot be loaded, no further page is. */
  lemma {:induction false} SegmentStuck(m: Machine, k: Kernel, pd: nat, file: seq<byte>, s: Segment, n: nat, count: nat)
    requires Wf(m) && pd < |m.mem| && k.kt + ENTRIES <= |m.mem| && n <= count && FirstPage(s) + count <= 0x10_0000
    requires !LoadSegment(m, k, pd, file, s, n).Mapped?
    ensures LoadSegment(m, k, pd, file, s, count) == LoadSegment(m, k, pd, file, s, n)
  {
    hide LoadPage, PageBytes;
    if n < count { SegmentStuck(m, k, pd, file, s, n, count - 1); }
  }

  /** Loading a segment into an isolated space never lacks a page table. */
  lemma SegmentDefined(m: Machine, k: Kernel, pd: nat, used0: seq<bool>, data: set<nat>, file: seq<byte>, s: Segment,
                       n: nat)
    requires SpaceOk(m, k, pd, used0, data) && Isolated(m.mem, k, pd) && SegmentOk(file, s)
             && FirstPage(s) + n <= 0x10_0000
    ensures Wf(m) && pd < |m.mem| && k.kt + ENTRIES <= |m.mem| && !LoadSegment(m, k, pd, file, s, n).NoTable?
  {
    hide SpaceOk, Isolated, LoadSegment, Free;
    assert ImageOk(m, k, pd, used0, data, map[]);
    var d := LoadSegmentKeeps(m, k, pd, used0, data, map[], file, s, n);
  }

  lemma NoTablesFreed(m: Machine, k: Kernel, pd: nat)
    requires pd < |m.mem|
    ensures FreeTables(m, k, pd, 0) == m.used
  {
  }

  lemma TablesStep(m: Machine, k: Kernel, pd: nat, i: nat)
    requires pd < |m.mem| && i < ENTRIES
    ensures FreeTables(m, k, pd, i + 1)
            == if Present(Ent(m.mem[pd], i)) && FrameOf(Ent(m.mem[pd], i)) != k.kt + i
              && FrameOf(Ent(m.mem[pd], i)) < |m.used|
               then FreeTables(m, k, pd, i)[FrameOf(Ent(m.mem[pd], i)) := false]
               else FreeTables(m, k, pd, i)
  {
    hide Ent;
  }

  lemma KernelTable(m: Machine, k: Kernel, pd: nat, used0: seq<bool>, data: set<nat>, i: nat)
    requires SpaceOk(m, k, pd, used0, data) && i < ENTRIES
    ensures k.kd < |m.mem| && FrameOf(Ent(m.mem[k.kd], i)) == k.kt + i && used0 != [] && used0[0]
  {
    hide Ent, TableOk, Apart, UseOk;
    assert KernelEntry(m.mem, k, i);
  }

  /** The frame for page p: cleared, then the part of the file that falls into it copied. */
  function FillPage(file: seq<byte>, s: Segment, p: nat): (r: Frame)
    requires SegmentOk(file, s)
    ensures r == PageBytes(file, s, p)
  {
    var from, to := p * 4096, p * 4096 + 4096;
    var end := s.vaddr + s.filesz;
    var r: seq<byte> :=
      if end > from && s.vaddr < to then
        var a := if s.vaddr > from then s.vaddr else from;
        var b := if end < to then end else to;
        var off := s.offset + (a - s.vaddr);
        Zeros(a - from) + file[off..off + (b - a)] + Zeros(to - b)
      else Zeros(4096);
    assert forall x :: 0 <= x < 4096 ==> r[x] == Described(file, s, from + x);
    assert r == PageBytes(file, s, p);
    r
  }

  /** The copy loop of paging_create_isolated_space. */
  method CopyDirectory(old0: Frame, kd: Frame) returns (dir: Frame)
    ensures dir == IsolatedDir(kd)
  {
    hide Ent, PutEnt, IsolatedDir;
    dir := old0;
    for i := 0 to ENTRIES
      invariant dir[..4 * i] == IsolatedDir(kd)[..4 * i]
    {
      var e := if 256 <= i < 768 then 0 else Ent(kd, i);
      IsolatedEntry(kd, i);
      CopyEntry(dir, kd, i, e);
      dir := PutEnt(dir, i, e);
    }
    assert dir == dir[..4096] && IsolatedDir(kd) == IsolatedDir(kd)[..4096];
  }

  /** Copying entry i of the new directory. */
  lemma CopyEntry(dir: Frame, kd: Frame, i: nat, e: nat)
    requires i < ENTRIES && dir[..4 * i] == IsolatedDir(kd)[..4 * i] && e == Ent(IsolatedDir(kd), i)
    ensures PutEnt(dir, i, e)[..4 * (i + 1)] == IsolatedDir(kd)[..4 * (i + 1)]
  {
    hide U32, PutU32, IsolatedDir;
    var a, b := PutEnt(dir, i, e), IsolatedDir(kd);
    forall x | 0 <= x < 4 * (i + 1) ensures a[x] == b[x] {
      if x < 4 * i { assert a[x] == dir[x] && dir[..4 * i][x] == b[..4 * i][x]; }
      else { WordBytes(a, b, 4 * i, x); }
    }
  }
}
