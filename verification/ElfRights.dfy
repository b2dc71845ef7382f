/** What a loaded program may do with its pages (src/elf.c): user code reaches all of them,
    and writes the stack and the pages of writable segments. */
module ElfRights {
  import opened Bits
  import opened Pmm
  import opened Paging
  import opened PagingSpace
  import opened PagingIsolation
  import opened PagingRights
  import opened Elf

  /** User code may go to page v, whose own entry is writable if and only if `write`; the
      directory's word on writing is what it was in `dir`. */
  ghost predicate PageAllows(mem: seq<Frame>, pd: nat, dir: Frame, v: nat, write: bool) {
    && pd < |mem| && v < 0x10_0000 && RightsAt(mem, pd, v).user && (WriteBit(Leaf(mem, pd, v)) <==> write)
    && (WriteBit(Ent(mem[pd], v / 1024)) <==> WriteBit(Ent(dir, v / 1024)))
  }

  /** Every page of `writes` is as it says. */
  ghost predicate Allows(mem: seq<Frame>, pd: nat, dir: Frame, writes: map<nat, bool>) {
    forall v :: v in writes ==> UserPage(v) && PageAllows(mem, pd, dir, v, writes[v])
  }

  /** The directory's words on writing above USER_BASE are as in `dir`. */
  ghost predicate SameWriting(mem: seq<Frame>, pd: nat, dir: Frame) {
    pd < |mem| && forall i :: 768 <= i < ENTRIES ==> (WriteBit(Ent(mem[pd], i)) <==> WriteBit(Ent(dir, i)))
  }

  // ---- one page -------------------------------------------------------------------------------

  lemma TakeKeepsRights(m: Machine, k: Kernel, pd: nat, used0: seq<bool>, data: set<nat>, bytes: Frame, v: nat)
    requires SpaceOk(m, k, pd, used0, data) && Wf(m) && WithData(m, bytes).Mapped? && v < 0x10_0000
    ensures var n := WithData(m, bytes).m;
            pd < |m.mem| && pd < |n.mem| && n.mem[pd] == m.mem[pd] && Leaf(n.mem, pd, v) == Leaf(m.mem, pd, v)
  {
    hide SpaceOk, Ent;
    SpaceParts(m, k, pd, used0, data);
    FreshFrame(m, k, pd, used0, data, FirstFree(m.used, 0));
    TableParts(m, k, pd, used0, data, v / 1024);
  }

  lemma WindowKeepsRights(m: Machine, k: Kernel, pd: nat, used0: seq<bool>, data: set<nat>, window: bool, v: nat)
    requires SpaceOk(m, k, pd, used0, data) && v < 0x10_0000 && v != LOADER_PAGE && k.kt + ENTRIES <= |m.mem|
             && pd < |m.mem|
    ensures var n := WindowUsed(m, k, window); n.mem[pd] == m.mem[pd] && Leaf(n.mem, pd, v) == Leaf(m.mem, pd, v)
  {
    hide SpaceOk, HasTable, TableOf, Ent, PutEnt, Present, FrameOf;
    SpaceParts(m, k, pd, used0, data);
    TableParts(m, k, pd, used0, data, v / 1024);
    var n, w := WindowUsed(m, k, window), k.kt + WINDOW_TABLE;
    SameDirectory(n.mem, m.mem, pd, v / 1024);
    EntPut(m.mem[w], LOADER_WINDOW, 0, v % 1024);
    assert v / 1024 == WINDOW_TABLE ==> v % 1024 != LOADER_WINDOW;
  }

  /** Mapping a user page in an isolated space, where its table is already there. */
  lemma MapAllows(m: Machine, k: Kernel, pd: nat, used0: seq<bool>, data: set<nat>, w: nat, f: nat, flags: nat,
                  dir: Frame, writes: map<nat, bool>)
    requires SpaceOk(m, k, pd, used0, data) && Isolated(m.mem, k, pd) && UserPage(w) && f < 0x10_0000
    requires Allows(m.mem, pd, dir, writes) && SameWriting(m.mem, pd, dir)
    ensures Wf(m) && pd < |m.mem| && k.kt + ENTRIES <= |m.mem|
    ensures var r := MapUser(m, k, pd, w, f, flags);
            r.Mapped? ==> Allows(r.m.mem, pd, dir, writes[w := WriteBit(flags)]) && SameWriting(r.m.mem, pd, dir)
  {
    hide SpaceOk, MapUser, Leaf, Ent, HasTable, UserBit, WriteBit, RightsAt, WithUser, Owns, FirstFree;
    SpaceParts(m, k, pd, used0, data);
    var r, now := MapUser(m, k, pd, w, f, flags), writes[w := WriteBit(flags)];
    UserPageIsShared(w);
    if r.Mapped? {
      MappedPageRights(m, k, pd, used0, data, w, f, flags);
      forall i | 768 <= i < ENTRIES
        ensures pd < |r.m.mem| && (WriteBit(Ent(r.m.mem[pd], i)) <==> WriteBit(Ent(dir, i)))
      {
        assert IsolatedAt(m.mem, k, pd, i);
        MapUserDirectory(m, k, pd, used0, data, w, f, flags, i);
        WithUserIsOr(Ent(m.mem[pd], i));
      }
      forall v | v in now ensures UserPage(v) && PageAllows(r.m.mem, pd, dir, v, now[v]) {
        UserPageIsShared(v);
        if v != w {
          OtherPageRights(m, k, pd, used0, data, w, f, flags, v);
          MapUserLeaves(m, k, pd, used0, data, w, f, flags, v);
        }
      }
    }
  }

  lemma SameAllows(a: seq<Frame>, b: seq<Frame>, pd: nat, dir: Frame, writes: map<nat, bool>)
    requires pd < |a| && pd < |b| && a[pd] == b[pd] && Allows(a, pd, dir, writes) && SameWriting(a, pd, dir)
    requires forall v :: UserPage(v) ==> Leaf(b, pd, v) == Leaf(a, pd, v)
    ensures Allows(b, pd, dir, writes) && SameWriting(b, pd, dir)
  {
    hide Leaf, Ent, UserBit, WriteBit;
  }

  lemma LoadPageAllows(m: Machine, k: Kernel, pd: nat, used0: seq<bool>, data: set<nat>, pages: map<nat, Frame>, w: nat,
                       bytes: Frame, flags: nat, window: bool, dir: Frame, writes: map<nat, bool>)
    requires ImageOk(m, k, pd, used0, data, pages) && NoWindows(pages) && UserPage(w)
    requires Allows(m.mem, pd, dir, writes) && SameWriting(m.mem, pd, dir)
    ensures Wf(m) && pd < |m.mem| && k.kt + ENTRIES <= |m.mem|
    ensures var r := LoadPage(m, k, pd, w, bytes, flags, window);
            r.Mapped? ==> Allows(r.m.mem, pd, dir, writes[w := WriteBit(flags)]) && SameWriting(r.m.mem, pd, dir)
  {
    hide ImageOk, SpaceOk, MapUser, WithData, WindowUsed, Leaf, Ent, WriteBit, Allows, SameWriting, NoWindows, Isolated;
    ImageSpace(m, k, pd, used0, data, pages);
    SpaceParts(m, k, pd, used0, data);
    LaterFrameKeepsImage(m, k, pd, used0, data, pages, bytes);
    TakenFrame(m, bytes);
    if WithData(m, bytes).Mapped? {
      var n, f := WithData(m, bytes).m, FirstFree(m.used, 0);
      WithDataKeeps(m, k, pd, used0, data, bytes);
      ImageSpace(n, k, pd, used0, data + {f}, pages);
      SpaceParts(n, k, pd, used0, data + {f});
      WindowKeepsImage(n, k, pd, used0, data + {f}, pages, window);
      var u := WindowUsed(n, k, window);
      ImageSpace(u, k, pd, used0, data + {f}, pages);
      forall v | UserPage(v) ensures Leaf(u.mem, pd, v) == Leaf(m.mem, pd, v) && u.mem[pd] == m.mem[pd] {
        UserPageIsShared(v);
        TakeKeepsRights(m, k, pd, used0, data, bytes, v);
        WindowKeepsRights(n, k, pd, used0, data + {f}, window, v);
      }
      assert u.mem[pd] == m.mem[pd];
      SameAllows(m.mem, u.mem, pd, dir, writes);
      MapAllows(u, k, pd, used0, data + {f}, w, f, flags, dir, writes);
    }
  }

  // ---- segments ---------------------------------------------------------------------------------

  /** PF_W */
  predicate WantsWrite(s: Segment) { s.flags / 2 % 2 == 1 }

  ghost function SegmentWrites(s: Segment, n: nat): (r: map<nat, bool>)
    ensures forall p :: p in r <==> FirstPage(s) <= p < FirstPage(s) + n
    ensures forall p :: p in r ==> r[p] == WantsWrite(s)
  {
    if n == 0 then map[] else SegmentWrites(s, n - 1)[FirstPage(s) + n - 1 := WantsWrite(s)]
  }

  lemma NextWrite(writes: map<nat, bool>, s: Segment, n: nat)
    requires n > 0
    ensures (writes + SegmentWrites(s, n - 1))[FirstPage(s) + n - 1 := WantsWrite(s)] == writes + SegmentWrites(s, n)
  {
  }

  lemma FlagsWrite(s: Segment)
    ensures WriteBit(PageFlags(s)) <==> WantsWrite(s)
  {
  }

  lemma {:induction false} LoadSegmentAllows(
      m: Machine, k: Kernel, pd: nat, used0: seq<bool>, data: set<nat>, pages: map<nat, Frame>, file: seq<byte>,
      s: Segment, n: nat, dir: Frame, writes: map<nat, bool>)
    requires ImageOk(m, k, pd, used0, data, pages) && NoWindows(pages) && s.vaddr >= USER_BASE
             && FirstPage(s) + n <= 0x10_0000
    requires Allows(m.mem, pd, dir, writes) && SameWriting(m.mem, pd, dir)
    ensures Wf(m) && pd < |m.mem| && k.kt + ENTRIES <= |m.mem|
    ensures var r := LoadSegment(m, k, pd, file, s, n);
            r.Mapped? ==> Allows(r.m.mem, pd, dir, writes + SegmentWrites(s, n)) && SameWriting(r.m.mem, pd, dir)
  {
    hide ImageOk, LoadPage, PageBytes, Described, SegmentPages, Free, NoWindows, Allows, SameWriting, WriteBit,
      SegmentWrites, WantsWrite, PageFlags;
    ImageSpace(m, k, pd, used0, data, pages);
    SpaceParts(m, k, pd, used0, data);
    if n == 0 {
      assert writes + SegmentWrites(s, 0) == writes;
    } else {
      LoadSegmentAllows(m, k, pd, used0, data, pages, file, s, n - 1, dir, writes);
      var d := LoadSegmentKeeps(m, k, pd, used0, data, pages, file, s, n - 1);
      var r := LoadSegment(m, k, pd, file, s, n - 1);
      if r.Mapped? {
        var p := FirstPage(s) + n - 1;
        SegmentUserPage(s, n - 1);
        FlagsWrite(s);
        NextWrite(writes, s, n);
        LoadPageAllows(r.m, k, pd, used0, d, pages + SegmentPages(file, s, n - 1), p, PageBytes(file, s, p),
                       PageFlags(s), s.window, dir, writes + SegmentWrites(s, n - 1));
      }
    }
  }

  ghost function ImageWrites(segs: seq<Segment>, n: nat): map<nat, bool>
    requires n <= |segs|
  {
    if n == 0 then map[] else ImageWrites(segs, n - 1) + SegmentWrites(segs[n - 1], PageCount(segs[n - 1]))
  }

  lemma {:induction false} LoadSegmentsAllows(
      m: Machine, k: Kernel, pd: nat, used0: seq<bool>, data: set<nat>, file: seq<byte>, segs: seq<Segment>, n: nat,
      dir: Frame)
    requires ImageOk(m, k, pd, used0, data, map[]) && NoWraps(segs) && n <= |segs| && SameWriting(m.mem, pd, dir)
    ensures Wf(m) && pd < |m.mem| && k.kt + ENTRIES <= |m.mem|
    ensures var r := LoadSegments(m, k, pd, file, segs, n);
            r.Mapped? ==> Allows(r.m.mem, pd, dir, ImageWrites(segs, n)) && SameWriting(r.m.mem, pd, dir)
  {
    hide ImageOk, LoadSegment, SegmentPages, PageCount, SpaceOk, FirstPage, Accepted, Free, PageAllows, SameWriting,
      SegmentWrites;
    ImageSpace(m, k, pd, used0, data, map[]);
    SpaceParts(m, k, pd, used0, data);
    if n > 0 {
      LoadSegmentsAllows(m, k, pd, used0, data, file, segs, n - 1, dir);
      var d := LoadSegmentsKeeps(m, k, pd, used0, data, file, segs, n - 1);
      var r, s := LoadSegments(m, k, pd, file, segs, n - 1), segs[n - 1];
      if r.Mapped? {
        if s.memsz == 0 {
          NoWrites(ImageWrites(segs, n - 1), s);
        } else if Accepted(file, s) {
          PagesFit(s);
          AcceptedUser(file, s);
          LoadSegmentAllows(r.m, k, pd, used0, d, ImagePages(file, segs, n - 1), file, s, PageCount(s), dir,
                            ImageWrites(segs, n - 1));
        }
      }
    }
  }

  lemma NoWrites(writes: map<nat, bool>, s: Segment)
    requires s.memsz == 0
    ensures writes + SegmentWrites(s, PageCount(s)) == writes
  {
  }

  /** The segment has bytes on page p. */
  ghost predicate Covers(s: Segment, p: nat) { s.memsz > 0 && FirstPage(s) <= p < EndPage(s) }

  /** The last segment that covers a page decides whether it is to be writable. */
  lemma {:induction false} LastWins(segs: seq<Segment>, n: nat, i: nat, p: nat)
    requires NoWraps(segs) && i < n <= |segs| && Covers(segs[i], p) && forall j :: i < j < n ==> !Covers(segs[j], p)
    ensures p in ImageWrites(segs, n) && ImageWrites(segs, n)[p] == WantsWrite(segs[i])
  {
    hide NoWrap, WantsWrite;
    PagesFit(segs[n - 1]);
    if i < n - 1 { LastWins(segs, n - 1, i, p); }
  }

  // ---- the theorem ------------------------------------------------------------------------------

  /** After a load user code may go to every page of the program and its stack.  The page's
      own entry is writable if and only if the last segment on it asks for PF_W; and the page
      can be written if and only if the kernel's directory entry allows it too, as those
      that paging_init makes do. */
  lemma LoadedRights(m: Machine, k: Kernel, file: seq<byte>, segs: seq<Segment>, i: nat, p: nat)
    requires KernelOk(m, k, m.used) && NoWraps(segs) && LoadElf(m, k, file, segs).Loaded?
    requires i < |WithStack(segs)| && Covers(WithStack(segs)[i], p)
    requires forall j :: i < j < |WithStack(segs)| ==> !Covers(WithStack(segs)[j], p)
    ensures p < 0x10_0000 && k.kd < |m.mem|
    ensures var r, write := LoadElf(m, k, file, segs), WithStack(segs)[i].flags / 2 % 2 == 1;
            && RightsAt(r.m.mem, r.pd, p).user && (Leaf(r.m.mem, r.pd, p) / 2 % 2 == 1 <==> write)
            && (RightsAt(r.m.mem, r.pd, p).write <==> write && Ent(m.mem[k.kd], p / 1024) / 2 % 2 == 1)
  {
    hide ImageOk, SpaceOk, KernelEntry, LoadSegments, ImagePages, HeadersOk, WithStack, Free, Wanted, Allows, Leaf, Ent,
      ImageWrites, Covers, SameWriting;
    LoadSucceeds(m, k, file, segs);
    var d := LoadRun(m, k, file, segs);
    var c, pd, all := CreateIsolated(m, k).m, FirstFree(m.used, 0), WithStack(segs);
    CreatedWriting(m, k);
    LoadSegmentsAllows(c, k, pd, m.used, {}, file, all, |all|, m.mem[k.kd]);
    LastWins(all, |all|, i, p);
    var r := LoadElf(m, k, file, segs);
    PageFrom(r.m.mem, pd, m.mem[k.kd], ImageWrites(all, |all|), p);
  }

  lemma PageFrom(mem: seq<Frame>, pd: nat, dir: Frame, writes: map<nat, bool>, p: nat)
    requires Allows(mem, pd, dir, writes) && p in writes
    ensures p < 0x10_0000 && pd < |mem| && RightsAt(mem, pd, p).user && (WriteBit(Leaf(mem, pd, p)) <==> writes[p])
    ensures RightsAt(mem, pd, p).write <==> writes[p] && WriteBit(Ent(dir, p / 1024))
  {
    hide Leaf, Ent, WriteBit, UserBit;
  }

  lemma CreatedWriting(m: Machine, k: Kernel)
    requires KernelOk(m, k, m.used) && CreateIsolated(m, k).Mapped?
    ensures SameWriting(CreateIsolated(m, k).m.mem, FirstFree(m.used, 0), m.mem[k.kd])
  {
    hide Ent, IsolatedDir, KernelEntry;
    forall i | 768 <= i < ENTRIES
      ensures Ent(CreateIsolated(m, k).m.mem[FirstFree(m.used, 0)], i) == Ent(m.mem[k.kd], i)
    {
      IsolatedEntry(m.mem[k.kd], i);
    }
  }

  /** The stack is the 16 KB below 0xE0000000, and its entries are writable. */
  lemma StackRights(m: Machine, k: Kernel, file: seq<byte>, segs: seq<Segment>, p: nat)
    requires KernelOk(m, k, m.used) && NoWraps(segs) && LoadElf(m, k, file, segs).Loaded?
    requires 0xDFFFC <= p <= 0xDFFFF
    ensures var r := LoadElf(m, k, file, segs);
            RightsAt(r.m.mem, r.pd, p).user && Leaf(r.m.mem, r.pd, p) / 2 % 2 == 1
  {
    hide KernelOk, LoadElf, Leaf, RightsAt;
    assert WithStack(segs)[|segs|] == STACK && Covers(STACK, p);
    LoadedRights(m, k, file, segs, |segs|, p);
  }
}
