/** Two programs loaded one after the other (src/elf.c, src/paging.c): what the first one
    finds at its own addresses afterwards. */
module ElfSharing {
  import opened Bits
  import opened Pmm
  import opened Paging
  import opened PagingSpace
  import opened PagingIsolation
  import opened Elf

  // ---- what a load leaves alone -------------------------------------------------------------

  /** From a to b, frames in use before the space was created keep their contents, but for
      the kernel's tables, and pages of the space other than the given ones lead where they
      did. */
  ghost predicate Beside(a: seq<Frame>, b: seq<Frame>, k: Kernel, pd: nat, used0: seq<bool>, pages: map<nat, Frame>) {
    && |a| == |b| == |used0| && pd < |a|
    && (forall g :: 0 <= g < |used0| && used0[g] && !KernelFrame(k, g) ==> b[g] == a[g])
    && (forall v :: 0 <= v < 0x10_0000 && Elsewhere(v, pages) ==> Walk(b, pd, v) == Walk(a, pd, v))
  }

  ghost predicate Elsewhere(v: nat, pages: map<nat, Frame>)
  {
    v !in pages && v != WINDOW_PAGE && v != WINDOW_PAGE + 1 && v != LOADER_PAGE
  }

  lemma BesideNothing(a: seq<Frame>, k: Kernel, pd: nat, used0: seq<bool>, pages: map<nat, Frame>)
    requires |a| == |used0| && pd < |a|
    ensures Beside(a, a, k, pd, used0, pages)
  {
  }

  lemma BesideBoth(a: seq<Frame>, b: seq<Frame>, c: seq<Frame>, k: Kernel, pd: nat, used0: seq<bool>,
                   p: map<nat, Frame>, q: map<nat, Frame>, all: map<nat, Frame>)
    requires Beside(a, b, k, pd, used0, p) && Beside(b, c, k, pd, used0, q)
    requires forall v :: v in p || v in q ==> v in all
    ensures Beside(a, c, k, pd, used0, all)
  {
    hide Walk;
    forall v | 0 <= v < 0x10_0000 && Elsewhere(v, all) ensures Walk(c, pd, v) == Walk(a, pd, v) {
      assert Elsewhere(v, p) && Elsewhere(v, q);
    }
  }

  lemma PageBeside(m: Machine, k: Kernel, pd: nat, used0: seq<bool>, data: set<nat>, pages: map<nat, Frame>, w: nat,
                   bytes: Frame, flags: nat, window: bool)
    requires ImageOk(m, k, pd, used0, data, pages) && NoWindows(pages) && UserPage(w)
    ensures Wf(m) && pd < |m.mem| && k.kt + ENTRIES <= |m.mem|
    ensures Beside(m.mem, LoadPage(m, k, pd, w, bytes, flags, window).m.mem, k, pd, used0, map[w := bytes])
  {
    hide ImageOk, MapUser, WithData, Free, SpaceOk, Walk, WindowUsed, Beside, NoWindows;
    ImageSpace(m, k, pd, used0, data, pages);
    SpaceParts(m, k, pd, used0, data);
    TakenFrame(m, bytes);
    if WithData(m, bytes).Mapped? {
      var n, f := WithData(m, bytes).m, FirstFree(m.used, 0);
      WithDataKeeps(m, k, pd, used0, data, bytes);
      LaterFrameKeepsImage(m, k, pd, used0, data, pages, bytes);
      ImageSpace(n, k, pd, used0, data + {f}, pages);
      FrameBeside(m, n, k, pd, used0, data, f);
      SpaceParts(n, k, pd, used0, data + {f});
      WindowBeside(n, k, pd, used0, data + {f}, window);
      WindowKeepsImage(n, k, pd, used0, data + {f}, pages, window);
      var u := WindowUsed(n, k, window);
      ImageSpace(u, k, pd, used0, data + {f}, pages);
      MapBeside(u, k, pd, used0, data + {f}, w, f, flags, bytes);
      BesideBoth(m.mem, n.mem, u.mem, k, pd, used0, map[], map[], map[]);
      BesideBoth(m.mem, u.mem, MapUser(u, k, pd, w, f, flags).m.mem, k, pd, used0, map[], map[w := bytes],
                 map[w := bytes]);
    } else {
      BesideNothing(m.mem, k, pd, used0, map[w := bytes]);
    }
  }

  lemma WindowBeside(n: Machine, k: Kernel, pd: nat, used0: seq<bool>, data: set<nat>, window: bool)
    requires SpaceOk(n, k, pd, used0, data) && k.kt + ENTRIES <= |n.mem|
    ensures Beside(n.mem, WindowUsed(n, k, window).mem, k, pd, used0, map[])
  {
    hide SpaceOk, Walk, WindowUsed;
    SpaceParts(n, k, pd, used0, data);
    WindowEffect(n, k, pd, used0, data, window);
  }

  lemma FrameBeside(m: Machine, n: Machine, k: Kernel, pd: nat, used0: seq<bool>, data: set<nat>, f: nat)
    requires SpaceOk(m, k, pd, used0, data) && f < |m.used| && !m.used[f] && |n.mem| == |m.mem| && Wf(m) && pd < |m.mem|
    requires forall g :: 0 <= g < |m.mem| && g != f ==> n.mem[g] == m.mem[g]
    requires forall v :: 0 <= v < 0x10_0000 ==> Walk(n.mem, pd, v) == Walk(m.mem, pd, v)
    ensures Beside(m.mem, n.mem, k, pd, used0, map[])
  {
    hide SpaceOk, Walk;
    SpaceParts(m, k, pd, used0, data);
    forall g | 0 <= g < |used0| && used0[g] ensures g != f { OldIsUsed(m, k, pd, used0, data, g); }
  }

  lemma MapBeside(n: Machine, k: Kernel, pd: nat, used0: seq<bool>, data: set<nat>, w: nat, f: nat, flags: nat,
                  bytes: Frame)
    requires SpaceOk(n, k, pd, used0, data) && Isolated(n.mem, k, pd) && UserPage(w) && f < 0x10_0000
    ensures Wf(n) && pd < |n.mem| && k.kt + ENTRIES <= |n.mem|
    ensures Beside(n.mem, MapUser(n, k, pd, w, f, flags).m.mem, k, pd, used0, map[w := bytes])
  {
    hide SpaceOk, Walk, MapUser, Isolated;
    UserPageIsShared(w);
    SpaceParts(n, k, pd, used0, data);
    SharedPageMaps(n, k, pd, used0, data, w, f, flags);
    var r := MapUser(n, k, pd, w, f, flags).m;
    MapUserKeeps(n, k, pd, used0, data, w, f, flags);
    SpaceParts(r, k, pd, used0, data);
    forall g | 0 <= g < |used0| && used0[g] && !KernelFrame(k, g) ensures r.mem[g] == n.mem[g] {
      OldFrameKept(n, k, pd, used0, data, w, f, flags, g);
    }
    forall v | 0 <= v < 0x10_0000 && Elsewhere(v, map[w := bytes]) ensures Walk(r.mem, pd, v) == Walk(n.mem, pd, v) {
      MapUserWalks(n, k, pd, used0, data, w, f, flags, v);
    }
  }

  lemma {:induction false} SegmentBeside(m: Machine, k: Kernel, pd: nat, used0: seq<bool>, data: set<nat>,
                                         pages: map<nat, Frame>, file: seq<byte>, s: Segment, n: nat)
    requires ImageOk(m, k, pd, used0, data, pages) && NoWindows(pages) && s.vaddr >= USER_BASE
             && FirstPage(s) + n <= 0x10_0000
    ensures Wf(m) && pd < |m.mem| && k.kt + ENTRIES <= |m.mem|
    ensures Beside(m.mem, LoadSegment(m, k, pd, file, s, n).m.mem, k, pd, used0, SegmentPages(file, s, n))
  {
    hide ImageOk, LoadPage, PageBytes, Described, Free, NoWindows, Beside, FirstPage;
    ImageSpace(m, k, pd, used0, data, pages);
    SpaceParts(m, k, pd, used0, data);
    if n == 0 {
      BesideNothing(m.mem, k, pd, used0, SegmentPages(file, s, n));
    } else {
      SegmentBeside(m, k, pd, used0, data, pages, file, s, n - 1);
      var d := LoadSegmentKeeps(m, k, pd, used0, data, pages, file, s, n - 1);
      var r := LoadSegment(m, k, pd, file, s, n - 1);
      var p := FirstPage(s) + n - 1;
      if r.Mapped? {
        SegmentUserPage(s, n - 1);
        PageBeside(r.m, k, pd, used0, d, pages + SegmentPages(file, s, n - 1), p,
                   PageBytes(file, s, p), PageFlags(s), s.window);
        BesideBoth(m.mem, r.m.mem, LoadSegment(m, k, pd, file, s, n).m.mem, k, pd, used0, SegmentPages(file, s, n - 1),
                   map[p := PageBytes(file, s, p)], SegmentPages(file, s, n));
      } else {
        BesideNothing(r.m.mem, k, pd, used0, map[]) by {
          BesideSize(m.mem, r.m.mem, k, pd, used0, SegmentPages(file, s, n - 1));
        }
        BesideBoth(m.mem, r.m.mem, r.m.mem, k, pd, used0, SegmentPages(file, s, n - 1), map[],
                   SegmentPages(file, s, n));
      }
    }
  }

  lemma BesideSize(a: seq<Frame>, b: seq<Frame>, k: Kernel, pd: nat, used0: seq<bool>, pages: map<nat, Frame>)
    requires Beside(a, b, k, pd, used0, pages)
    ensures |a| == |b| == |used0| && pd < |a|
  {
  }

  lemma {:induction false} SegmentsBeside(m: Machine, k: Kernel, pd: nat, used0: seq<bool>, data: set<nat>,
                                          file: seq<byte>, segs: seq<Segment>, n: nat)
    requires ImageOk(m, k, pd, used0, data, map[]) && NoWraps(segs) && n <= |segs|
    ensures Wf(m) && pd < |m.mem| && k.kt + ENTRIES <= |m.mem|
    ensures Beside(m.mem, LoadSegments(m, k, pd, file, segs, n).m.mem, k, pd, used0, ImagePages(file, segs, n))
  {
    hide ImageOk, LoadSegment, SegmentPages, PageCount, SpaceOk, FirstPage, Free, Accepted, Beside, HeadersOk;
    ImageSpace(m, k, pd, used0, data, map[]);
    SpaceParts(m, k, pd, used0, data);
    if n == 0 {
      BesideNothing(m.mem, k, pd, used0, map[]);
    } else {
      SegmentsBeside(m, k, pd, used0, data, file, segs, n - 1);
      var d := LoadSegmentsKeeps(m, k, pd, used0, data, file, segs, n - 1);
      var r, s, pages := LoadSegments(m, k, pd, file, segs, n - 1), segs[n - 1], ImagePages(file, segs, n - 1);
      BesideSize(m.mem, r.m.mem, k, pd, used0, pages);
      if r.Mapped? && s.memsz != 0 && Accepted(file, s) {
        PagesFit(s);
        AcceptedUser(file, s);
        SegmentBeside(r.m, k, pd, used0, d, pages, file, s, PageCount(s));
        BesideBoth(m.mem, r.m.mem, LoadSegments(m, k, pd, file, segs, n).m.mem, k, pd, used0, pages,
                   SegmentPages(file, s, PageCount(s)), ImagePages(file, segs, n));
      } else {
        BesideNothing(r.m.mem, k, pd, used0, map[]);
        BesideBoth(m.mem, r.m.mem, r.m.mem, k, pd, used0, pages, map[], ImagePages(file, segs, n));
      }
    }
  }

  // ---- two programs ---------------------------------------------------------------------------

  /** The kernel's directory is as it was, whatever has been taken since. */
  lemma KernelStays(m: Machine, k: Kernel, pd: nat, used0: seq<bool>, data: set<nat>)
    requires SpaceOk(m, k, pd, used0, data)
    ensures KernelOk(m, k, m.used)
  {
    hide TableOk, Apart, KernelEntry;
    assert UseOk(m, k, pd, used0, data, 0) && UseOk(m, k, pd, used0, data, k.kd);
    forall f | k.kt <= f < k.kt + ENTRIES ensures m.used[f] { assert UseOk(m, k, pd, used0, data, f); }
  }

  /** The machine after the first program: ready for the next load. */
  lemma LoadedKernel(m: Machine, k: Kernel, file: seq<byte>, segs: seq<Segment>)
    requires KernelOk(m, k, m.used) && NoWraps(segs) && LoadElf(m, k, file, segs).Loaded?
    ensures var r := LoadElf(m, k, file, segs).m; KernelOk(r, k, r.used)
  {
    hide LoadElf, ImageOk, KernelOk, SpaceOk;
    var d := LoadedImage(m, k, file, segs);
    var r := LoadElf(m, k, file, segs);
    ImageSpace(r.m, k, r.pd, m.used, d, ProgramPages(file, segs));
    KernelStays(r.m, k, r.pd, m.used, d);
  }

  /** The outcome of loading program 2 after program 1. */
  ghost function ThenLoad(m: Machine, k: Kernel, file1: seq<byte>, segs1: seq<Segment>, file2: seq<byte>,
                          segs2: seq<Segment>): (r: Loaded)
    requires KernelOk(m, k, m.used) && NoWraps(segs1) && NoWraps(segs2) && LoadElf(m, k, file1, segs1).Loaded?
    ensures r.Loaded? ==> r.pd < |r.m.mem|
  {
    LoadedKernel(m, k, file1, segs1);
    LoadElf(LoadElf(m, k, file1, segs1).m, k, file2, segs2)
  }

  /** A second load leaves every frame in use alone, but for the kernel's tables, and its
      space leads every page that is not the program's where the first space led it. */
  lemma SecondLoad(m: Machine, k: Kernel, pd: nat, used0: seq<bool>, data: set<nat>, pages: map<nat, Frame>,
                   file: seq<byte>, segs: seq<Segment>)
    requires ImageOk(m, k, pd, used0, data, pages) && KernelOk(m, k, m.used) && NoWraps(segs)
             && LoadElf(m, k, file, segs).Loaded?
    ensures var r := LoadElf(m, k, file, segs);
            && |r.m.mem| == |m.mem| == |m.used| && pd < |m.mem| && r.pd != pd && Isolated(r.m.mem, k, pd)
            && Elder(r.m.mem, k, pd, m.used)
            && (forall g :: 0 <= g < |m.used| && m.used[g] && !KernelFrame(k, g) ==> r.m.mem[g] == m.mem[g])
            && (forall v :: UserPage(v) && v !in ProgramPages(file, segs) ==>
                              Walk(r.m.mem, pd, v) == Walk(m.mem, pd, v))
  {
    hide KernelOk, LoadSegments, ImagePages, WithStack, NoWraps, SpaceOk, Isolated, Elder, Walk, KernelFrame, WithData,
      IsolatedDir;
    ImageSpace(m, k, pd, used0, data, pages);
    SpaceParts(m, k, pd, used0, data);
    SpaceIsElder(m, k, pd, used0, data);
    LoadSucceeds(m, k, file, segs);
    var d := LoadRun(m, k, file, segs);
    var c, q, all := CreateIsolated(m, k).m, FirstFree(m.used, 0), WithStack(segs);
    var x := LoadSegments(c, k, q, file, all, |all|).m;
    ElderAfterCreate(m, k, pd);
    WithDataKeeps(m, k, pd, used0, data, IsolatedDir(m.mem[k.kd]));
    TakenFrame(m, IsolatedDir(m.mem[k.kd]));
    SegmentsBeside(c, k, q, m.used, {}, file, all, |all|);
    ElderUsed(m.mem, k, pd, m.used);
    assert x.mem[pd] == c.mem[pd];
    SameDirectoryElder(c.mem, x.mem, k, pd, m.used);
    ImageSpace(x, k, q, m.used, d, ProgramPages(file, segs));
    ImageSpace(c, k, q, m.used, {}, map[]);
    forall v | UserPage(v) && v !in ProgramPages(file, segs) ensures Walk(x.mem, pd, v) == Walk(m.mem, pd, v) {
      UserPageIsShared(v);
      assert Elsewhere(v, ProgramPages(file, segs));
      IsolatedSpacesAgree(x.mem, k, pd, q, v);
      IsolatedSpacesAgree(c.mem, k, pd, q, v);
    }
  }

  /** Program 1 is loaded, then program 2.  At every address of a page of program 1, program
      1 afterwards finds program 2's byte if the page is one of program 2's pages too, and
      its own byte otherwise; and the two spaces have all their user pages in common. */
  lemma SecondProgramShowsThrough(m: Machine, k: Kernel, file1: seq<byte>, segs1: seq<Segment>, file2: seq<byte>,
                                  segs2: seq<Segment>, va: nat)
    requires KernelOk(m, k, m.used) && NoWraps(segs1) && NoWraps(segs2)
    requires LoadElf(m, k, file1, segs1).Loaded? && ThenLoad(m, k, file1, segs1, file2, segs2).Loaded?
    requires va < TWO32 && va / 4096 in ProgramPages(file1, segs1)
    ensures var r1 := LoadElf(m, k, file1, segs1);
            var r2 := ThenLoad(m, k, file1, segs1, file2, segs2);
            var p, pages1, pages2 := va / 4096, ProgramPages(file1, segs1), ProgramPages(file2, segs2);
            && r1.pd < |r2.m.mem| && Stranger(r2.m, k, r1.pd, r2.pd) && Stranger(r2.m, k, r2.pd, r1.pd)
            && UserPage(p) && Walk(r2.m.mem, r1.pd, p) == Walk(r2.m.mem, r2.pd, p)
            && ByteAt(r2.m.mem, r1.pd, va) == if p in pages2 then pages2[p][va % 4096] else pages1[p][va % 4096]
  {
    hide KernelOk, LoadElf, ProgramPages, NoWraps, SpaceOk, Isolated, Elder, Walk, KernelFrame, Stranger, ImageOk;
    LoadedKernel(m, k, file1, segs1);
    var r1 := LoadElf(m, k, file1, segs1);
    var r2 := LoadElf(r1.m, k, file2, segs2);
    var p, pages1, pages2 := va / 4096, ProgramPages(file1, segs1), ProgramPages(file2, segs2);
    var d1 := LoadedImage(m, k, file1, segs1);
    var d2 := LoadedImage(r1.m, k, file2, segs2);
    SecondLoad(r1.m, k, r1.pd, m.used, d1, pages1, file2, segs2);
    ImageSpace(r2.m, k, r2.pd, r1.m.used, d2, pages2);
    ElderIsStranger(r2.m, k, r2.pd, r1.m.used, d2, r1.pd);
    YoungerIsStranger(r2.m, k, r1.pd, r2.pd, r1.m.used, d2);
    ProgramPageIsUser(m, k, file1, segs1, p);
    UserPageIsShared(p);
    IsolatedSpacesAgree(r2.m.mem, k, r1.pd, r2.pd, p);
    if p in pages2 {
      ShowsPage(r2.m, k, r2.pd, r1.m.used, d2, pages2, p);
    } else {
      ShowsPage(r1.m, k, r1.pd, m.used, d1, pages1, p);
      ImageSpace(r1.m, k, r1.pd, m.used, d1, pages1);
      DataIsOrdinary(r1.m, k, r1.pd, m.used, d1, Walk(r1.m.mem, r1.pd, p).frame);
    }
  }

  lemma ShowsPage(m: Machine, k: Kernel, pd: nat, used0: seq<bool>, data: set<nat>, pages: map<nat, Frame>, p: nat)
    requires ImageOk(m, k, pd, used0, data, pages) && p in pages
    ensures PageOk(m.mem, pd, data, p, pages[p])
  {
  }

  lemma ProgramPageIsUser(m: Machine, k: Kernel, file: seq<byte>, segs: seq<Segment>, p: nat)
    requires KernelOk(m, k, m.used) && NoWraps(segs) && LoadElf(m, k, file, segs).Loaded?
             && p in ProgramPages(file, segs)
    ensures UserPage(p)
  {
    hide LoadElf, KernelOk, ImagePages, Wanted, Free;
    LoadSucceeds(m, k, file, segs);
    WithStackOk(file, segs);
    ImagePageIsUser(file, WithStack(segs), |WithStack(segs)|, p);
  }

  lemma {:induction false} ImagePageIsUser(file: seq<byte>, segs: seq<Segment>, n: nat, p: nat)
    requires n <= |segs| && NoWraps(segs) && HeadersOk(file, segs, n) && p in ImagePages(file, segs, n)
    ensures UserPage(p)
  {
    hide PageBytes;
    var s := segs[n - 1];
    if p in ImagePages(file, segs, n - 1) { ImagePageIsUser(file, segs, n - 1, p); }
    else { PagesFit(s); }
  }

  /** The stack pages are pages of every program, so after the second load both programs
      have the same four stack frames. */
  lemma StackIsShared(m: Machine, k: Kernel, file1: seq<byte>, segs1: seq<Segment>, file2: seq<byte>,
                      segs2: seq<Segment>, va: nat)
    requires KernelOk(m, k, m.used) && NoWraps(segs1) && NoWraps(segs2)
    requires LoadElf(m, k, file1, segs1).Loaded? && ThenLoad(m, k, file1, segs1, file2, segs2).Loaded?
    requires STACK.vaddr <= va < STACK_TOP
    ensures var r1 := LoadElf(m, k, file1, segs1);
            var r2 := ThenLoad(m, k, file1, segs1, file2, segs2);
            r1.pd < |r2.m.mem| && Walk(r2.m.mem, r1.pd, va / 4096).Page?
            && Walk(r2.m.mem, r1.pd, va / 4096) == Walk(r2.m.mem, r2.pd, va / 4096)
            && Walk(r1.m.mem, r1.pd, va / 4096) != Walk(r2.m.mem, r1.pd, va / 4096)
            && ByteAt(r2.m.mem, r1.pd, va) == 0
  {
    hide KernelOk, LoadElf, NoWraps, ImageOk, SpaceOk, Walk;
    StackPages(file1, segs1, va);
    StackPages(file2, segs2, va);
    SecondProgramShowsThrough(m, k, file1, segs1, file2, segs2, va);
    LoadedKernel(m, k, file1, segs1);
    var r1 := LoadElf(m, k, file1, segs1);
    var d1 := LoadedImage(m, k, file1, segs1);
    var d2 := LoadedImage(r1.m, k, file2, segs2);
    var r2 := LoadElf(r1.m, k, file2, segs2);
    ShowsPage(r1.m, k, r1.pd, m.used, d1, ProgramPages(file1, segs1), va / 4096);
    ShowsPage(r2.m, k, r2.pd, r1.m.used, d2, ProgramPages(file2, segs2), va / 4096);
    ImageSpace(r1.m, k, r1.pd, m.used, d1, ProgramPages(file1, segs1));
    ImageSpace(r2.m, k, r2.pd, r1.m.used, d2, ProgramPages(file2, segs2));
    DataParts(r1.m, k, r1.pd, m.used, d1, Walk(r1.m.mem, r1.pd, va / 4096).frame);
    DataParts(r2.m, k, r2.pd, r1.m.used, d2, Walk(r2.m.mem, r2.pd, va / 4096).frame);
  }

  lemma StackPages(file: seq<byte>, segs: seq<Segment>, va: nat)
    requires STACK.vaddr <= va < STACK_TOP
    ensures va / 4096 in ProgramPages(file, segs) && ProgramPages(file, segs)[va / 4096][va % 4096] == 0
  {
    var all := WithStack(segs);
    assert all[|all| - 1] == STACK && PageCount(STACK) == STACK_PAGES;
    assert va / 4096 in SegmentPages(file, STACK, STACK_PAGES);
    PageByte(file, STACK, va);
  }

  /** Every page of a loadable segment lies where isolated spaces share the kernel's
      tables: mapping it shows it in every other isolated space too. */
  lemma LoadedPagesAreShared(m: Machine, k: Kernel, pd: nat, used0: seq<bool>, data: set<nat>, w: nat, f: nat,
                             flags: nat, q: nat)
    requires SpaceOk(m, k, pd, used0, data) && Isolated(m.mem, k, pd) && Stranger(m, k, pd, q) && Isolated(m.mem, k, q)
    requires UserPage(w) && f < 0x10_0000
    ensures Wf(m) && k.kt + ENTRIES <= |m.mem|
    ensures var r := MapUser(m, k, pd, w, f, flags); r.Mapped? && q < |r.m.mem| && Walk(r.m.mem, q, w) == Page(f)
  {
    hide SpaceOk, Isolated, Stranger, MapUser, Walk;
    UserPageIsShared(w);
    SharedPageMaps(m, k, pd, used0, data, w, f, flags);
    IsolationIsExact(m, k, pd, used0, data, w, f, flags, q, w);
  }
}
