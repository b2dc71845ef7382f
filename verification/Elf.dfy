/** The memory image the ELF loader builds (src/elf.c): each page of a segment gets a frame
    holding its part of the file, zeros elsewhere, and is mapped into the new directory. */
module Elf {
  import opened Bits
  import opened Pmm
  import opened Paging
  import opened PagingSpace
  import opened PagingIsolation

  const USER_BASE: nat := 0xC000_0000
  const STACK_TOP: nat := 0xE000_0000
  const STACK_PAGES: nat := 4

  /** The entry of kernel table 255, and the page, of the loader's own window at 0x3FD00000. */
  const LOADER_WINDOW: nat := 256
  const LOADER_PAGE: nat := 255 * 1024 + 256

  /** A PT_LOAD program header, or the stack, whose frames are cleared through the loader's
      own window. */
  datatype Segment = Segment(vaddr: nat, memsz: nat, filesz: nat, offset: nat, flags: nat, window: bool)

  function FirstPage(s: Segment): nat { s.vaddr / 4096 }
  function EndPage(s: Segment): nat { (s.vaddr + s.memsz + 4095) / 4096 }

  /** The loader's 32-bit sums do not wrap around. */
  predicate NoWrap(s: Segment) {
    s.vaddr + s.memsz + 4095 < TWO32 && s.vaddr + s.filesz < TWO32 && s.offset + s.filesz < TWO32
  }

  /** What elf_load checks of a header that asks for memory. */
  predicate Accepted(file: seq<byte>, s: Segment) { USER_BASE <= s.vaddr && s.offset + s.filesz <= |file| }

  /** The header is accepted exactly when the segment starts at 3 GB or above and its bytes lie
      in the file; an empty one is not looked at. */
  lemma AcceptedMeaning(file: seq<byte>, segs: seq<Segment>, n: nat)
    requires n <= |segs|
    ensures HeadersOk(file, segs, n)
            <==> forall i :: 0 <= i < n && segs[i].memsz > 0
                   ==> segs[i].vaddr >= 0xC000_0000 && segs[i].offset + segs[i].filesz <= |file|
  {
  }

  ghost predicate SegmentOk(file: seq<byte>, s: Segment) { NoWrap(s) && Accepted(file, s) }

  /** The byte the program headers put at address va. */
  function Described(file: seq<byte>, s: Segment, va: nat): byte {
    if s.vaddr <= va < s.vaddr + s.filesz && s.offset + (va - s.vaddr) < |file| then file[s.offset + (va - s.vaddr)]
        else 0
  }

  function PageBytes(file: seq<byte>, s: Segment, p: nat): (r: Frame)
    ensures forall b :: 0 <= b < 4096 ==> r[b] == Described(file, s, p * 4096 + b)
  {
    var r := seq(4096, b requires 0 <= b < 4096 => Described(file, s, p * 4096 + b));
    assert forall b :: 0 <= b < 4096 ==> r[b] == Described(file, s, p * 4096 + b);
    r
  }

  // ---- loading pages ----------------------------------------------------------------------------

  /** The loader's window as its use leaves it: cleared. */
  function WindowUsed(m: Machine, k: Kernel, window: bool): (n: Machine)
    requires k.kt + ENTRIES <= |m.mem|
    ensures |n.mem| == |m.mem| && n.used == m.used
  {
    var w := k.kt + WINDOW_TABLE;
    if window then m.(mem := m.mem[w := PutEnt(m.mem[w], LOADER_WINDOW, 0)]) else m
  }

  /** Takes a frame, fills it, and maps it at page v. */
  function LoadPage(m: Machine, k: Kernel, pd: nat, v: nat, bytes: Frame, flags: nat, window: bool): Mapping
    requires Wf(m) && pd < |m.mem| && v < 0x10_0000 && k.kt + ENTRIES <= |m.mem|
  {
    match WithData(m, bytes)
    case NoTable(n) => NoTable(n)
    case Refused(n) => Refused(n)
    case Mapped(n) => MapUser(WindowUsed(n, k, window), k, pd, v, FirstFree(m.used, 0), flags)
  }

  /** Page v of the space leads to one of its data frames, which holds the given bytes. */
  ghost predicate PageOk(mem: seq<Frame>, pd: nat, data: set<nat>, v: nat, bytes: Frame) {
    && v < 0x10_0000 && pd < |mem| && Walk(mem, pd, v).Page?
    && var f := Walk(mem, pd, v).frame; f in data && f < |mem| && mem[f] == bytes
  }

  /** The space is sound and isolated and shows the given pages. */
  ghost predicate ImageOk(m: Machine, k: Kernel, pd: nat, used0: seq<bool>, data: set<nat>, pages: map<nat, Frame>) {
    SpaceOk(m, k, pd, used0, data) && Isolated(m.mem, k, pd)
      && forall v :: v in pages ==> PageOk(m.mem, pd, data, v, pages[v])
  }

  lemma TakeKeepsPage(m: Machine, k: Kernel, pd: nat, used0: seq<bool>, data: set<nat>, bytes: Frame, v: nat,
                      was: Frame)
    requires SpaceOk(m, k, pd, used0, data) && PageOk(m.mem, pd, data, v, was) && Wf(m) && WithData(m, bytes).Mapped?
    ensures PageOk(WithData(m, bytes).m.mem, pd, data + {FirstFree(m.used, 0)}, v, was)
  {
    hide SpaceOk, Walk;
    WithDataKeeps(m, k, pd, used0, data, bytes);
  }

  /** Taking a frame for whatever purpose disturbs no page of the image. */
  lemma LaterFrameKeepsImage(m: Machine, k: Kernel, pd: nat, used0: seq<bool>, data: set<nat>, pages: map<nat, Frame>,
                             bytes: Frame)
    requires ImageOk(m, k, pd, used0, data, pages)
    ensures Wf(m) && (WithData(m, bytes).Mapped? ==>
                        ImageOk(WithData(m, bytes).m, k, pd, used0, data + {FirstFree(m.used, 0)}, pages))
  {
    hide SpaceOk, PageOk, WithData, Isolated;
    SpaceParts(m, k, pd, used0, data);
    if WithData(m, bytes).Mapped? {
      TakenFrame(m, bytes);
      WithDataKeeps(m, k, pd, used0, data, bytes);
      SameDirectoryElder(m.mem, WithData(m, bytes).m.mem, k, pd, used0);
      forall v | v in pages ensures PageOk(WithData(m, bytes).m.mem, pd, data + {FirstFree(m.used, 0)}, v, pages[v]) {
        TakeKeepsPage(m, k, pd, used0, data, bytes, v, pages[v]);
      }
    }
  }

  lemma TakenFrame(m: Machine, bytes: Frame)
    requires Wf(m)
    ensures WithData(m, bytes).Mapped? <==> FirstFree(m.used, 0) < |m.used|
    ensures !WithData(m, bytes).Mapped? ==> WithData(m, bytes) == Refused(m)
    ensures !WithData(m, bytes).NoTable? && WithData(m, bytes).Mapped? ==>
              var n, f := WithData(m, bytes).m, FirstFree(m.used, 0);
              && Wf(n) && |n.mem| == |m.mem| && n.mem[f] == bytes && n.used == m.used[f := true]
              && forall g :: 0 <= g < |m.mem| && g != f ==> n.mem[g] == m.mem[g]
  {
  }

  lemma MapKeepsPage(m: Machine, k: Kernel, pd: nat, used0: seq<bool>, data: set<nat>, w: nat, f: nat, flags: nat,
                     v: nat, was: Frame)
    requires SpaceOk(m, k, pd, used0, data) && PageOk(m.mem, pd, data, v, was) && v != w
    requires w < 0x10_0000 && f < 0x10_0000 && v != WINDOW_PAGE && v != WINDOW_PAGE + 1
    ensures Wf(m) && k.kt + ENTRIES <= |m.mem|
    ensures var r := MapUser(m, k, pd, w, f, flags); r.Mapped? ==> PageOk(r.m.mem, pd, data, v, was)
  {
    hide SpaceOk, Walk, MapUser;
    MapUserWalks(m, k, pd, used0, data, w, f, flags, v);
    MapUserKeepsData(m, k, pd, used0, data, w, f, flags, Walk(m.mem, pd, v).frame);
  }

  lemma MapShowsPage(m: Machine, k: Kernel, pd: nat, used0: seq<bool>, data: set<nat>, w: nat, f: nat, flags: nat)
    requires SpaceOk(m, k, pd, used0, data) && w < 0x10_0000 && f in data && w != WINDOW_PAGE && w != WINDOW_PAGE + 1
    ensures Wf(m) && pd < |m.mem| && k.kt + ENTRIES <= |m.mem| && f < |m.mem|
    ensures var r := MapUser(m, k, pd, w, f, flags); r.Mapped? ==> PageOk(r.m.mem, pd, data, w, m.mem[f])
  {
    hide SpaceOk, Walk, MapUser;
    SpaceParts(m, k, pd, used0, data);
    DataParts(m, k, pd, used0, data, f);
    MapUserWalks(m, k, pd, used0, data, w, f, flags, w);
    MapUserKeepsData(m, k, pd, used0, data, w, f, flags, f);
  }

  /** No page of the image is one of the kernel's windows. */
  ghost predicate NoWindows(pages: map<nat, Frame>)
  {
    WINDOW_PAGE !in pages && WINDOW_PAGE + 1 !in pages && LOADER_PAGE !in pages
  }

  /** The window is an entry of a kernel table: clearing it concerns its own page only. */
  lemma WindowEffect(m: Machine, k: Kernel, pd: nat, used0: seq<bool>, data: set<nat>, window: bool)
    requires SpaceOk(m, k, pd, used0, data)
    ensures Wf(m) && pd < |m.mem| && k.kt + ENTRIES <= |m.mem|
    ensures var n := WindowUsed(m, k, window);
            && SpaceOk(n, k, pd, used0, data) && n.mem[pd] == m.mem[pd]
            && (forall f :: 0 <= f < |m.mem| && f != k.kt + WINDOW_TABLE ==> n.mem[f] == m.mem[f])
            && (forall v :: 0 <= v < 0x10_0000 && v != LOADER_PAGE ==> Walk(n.mem, pd, v) == Walk(m.mem, pd, v))
  {
    hide SpaceOk, HasTable, TableOf, Walk, PutEnt;
    SpaceParts(m, k, pd, used0, data);
    var n := WindowUsed(m, k, window);
    SpaceFrame(m, n, k, pd, used0, data) by {
      forall i | 0 <= i < ENTRIES ensures (HasTable(n.mem, pd, i) <==> HasTable(m.mem, pd, i))
        && TableOf(n.mem, pd, i) == TableOf(m.mem, pd, i) {
        SameDirectory(n.mem, m.mem, pd, i);
      }
    }
    forall v | 0 <= v < 0x10_0000 && v != LOADER_PAGE
      ensures Walk(n.mem, pd, v) == Walk(m.mem, pd, v)
    {
      WindowWalk(m, k, pd, used0, data, window, v);
    }
  }

  lemma WindowWalk(m: Machine, k: Kernel, pd: nat, used0: seq<bool>, data: set<nat>, window: bool, v: nat)
    requires SpaceOk(m, k, pd, used0, data) && v < 0x10_0000 && v != LOADER_PAGE && k.kt + ENTRIES <= |m.mem|
             && pd < |m.mem|
    ensures Walk(WindowUsed(m, k, window).mem, pd, v) == Walk(m.mem, pd, v)
  {
    hide SpaceOk, HasTable, TableOf, Ent, PutEnt, Present, FrameOf;
    SpaceParts(m, k, pd, used0, data);
    TableParts(m, k, pd, used0, data, v / 1024);
    var n, w := WindowUsed(m, k, window), k.kt + WINDOW_TABLE;
    SameDirectory(n.mem, m.mem, pd, v / 1024);
    EntPut(m.mem[w], LOADER_WINDOW, 0, v % 1024);
    assert v / 1024 == WINDOW_TABLE ==> v % 1024 != LOADER_WINDOW;
  }

  /** Using the window disturbs no page of the image. */
  lemma WindowKeepsImage(m: Machine, k: Kernel, pd: nat, used0: seq<bool>, data: set<nat>, pages: map<nat, Frame>,
                         window: bool)
    requires ImageOk(m, k, pd, used0, data, pages) && NoWindows(pages)
    ensures Wf(m) && k.kt + ENTRIES <= |m.mem| && ImageOk(WindowUsed(m, k, window), k, pd, used0, data, pages)
  {
    hide SpaceOk, PageOk, Isolated, WindowUsed;
    SpaceParts(m, k, pd, used0, data);
    WindowEffect(m, k, pd, used0, data, window);
    var n := WindowUsed(m, k, window);
    SameDirectoryElder(m.mem, n.mem, k, pd, used0);
    forall v | v in pages
      ensures PageOk(n.mem, pd, data, v, pages[v])
    {
      WindowKeepsPage(m, k, pd, used0, data, window, v, pages[v]);
    }
  }

  lemma WindowKeepsPage(m: Machine, k: Kernel, pd: nat, used0: seq<bool>, data: set<nat>, window: bool, v: nat,
                        was: Frame)
    requires SpaceOk(m, k, pd, used0, data) && PageOk(m.mem, pd, data, v, was) && v != LOADER_PAGE
             && k.kt + ENTRIES <= |m.mem|
    ensures PageOk(WindowUsed(m, k, window).mem, pd, data, v, was)
  {
    hide SpaceOk, Walk, WindowUsed;
    SpaceParts(m, k, pd, used0, data);
    WindowEffect(m, k, pd, used0, data, window);
    DataParts(m, k, pd, used0, data, Walk(m.mem, pd, v).frame);
  }

  /** Mapping a data frame keeps the image, now with page w showing that frame. */
  lemma MapKeepsImage(m: Machine, k: Kernel, pd: nat, used0: seq<bool>, data: set<nat>, pages: map<nat, Frame>, w: nat,
                      f: nat, flags: nat)
    requires ImageOk(m, k, pd, used0, data, pages) && NoWindows(pages) && w < 0x10_0000 && f in data
    requires w != WINDOW_PAGE && w != WINDOW_PAGE + 1 && w != LOADER_PAGE
    ensures Wf(m) && pd < |m.mem| && k.kt + ENTRIES <= |m.mem| && f < |m.mem| && f < 0x10_0000
    ensures var r := MapUser(m, k, pd, w, f, flags);
            r.Mapped? ==> ImageOk(r.m, k, pd, used0, data, pages[w := m.mem[f]]) && NoWindows(pages[w := m.mem[f]])
  {
    hide SpaceOk, PageOk, MapUser, Isolated;
    SpaceParts(m, k, pd, used0, data);
    DataParts(m, k, pd, used0, data, f);
    MapUserKeeps(m, k, pd, used0, data, w, f, flags);
    MapKeepsIsolated(m, k, pd, used0, data, w, f, flags);
    MapShowsPage(m, k, pd, used0, data, w, f, flags);
    var r := MapUser(m, k, pd, w, f, flags);
    var now := pages[w := m.mem[f]];
    if r.Mapped? {
      forall v | v in now ensures PageOk(r.m.mem, pd, data, v, now[v]) {
        if v != w { MapKeepsPage(m, k, pd, used0, data, w, f, flags, v, pages[v]); }
      }
    }
  }

  /** The number of free frames. */
  function Free(used: seq<bool>): nat { |used| - Count(used) }

  lemma FreeFrames(used: seq<bool>)
    ensures FirstFree(used, 0) < |used| <==> Free(used) > 0
    ensures FirstFree(used, 0) < |used| ==> Free(used[FirstFree(used, 0) := true]) == Free(used) - 1
  {
    var f := FirstFree(used, 0);
    if f < |used| { CountUpdate(used, f, true); } else { CountAll(used); }
  }

  /** A page above USER_BASE. */
  ghost predicate UserPage(w: nat) { USER_BASE / 4096 <= w < 0x10_0000 }

  lemma UserPageIsShared(w: nat)
    requires UserPage(w)
    ensures w / 1024 >= 768 && w != WINDOW_PAGE && w != WINDOW_PAGE + 1 && w != LOADER_PAGE
  {
  }

  /** Loading a user page succeeds exactly when a frame is free, takes that one frame and
      no other, and adds the page to the image. */
  lemma LoadPageKeeps(m: Machine, k: Kernel, pd: nat, used0: seq<bool>, data: set<nat>, pages: map<nat, Frame>, w: nat,
                      bytes: Frame, flags: nat, window: bool)
    requires ImageOk(m, k, pd, used0, data, pages) && NoWindows(pages) && UserPage(w)
    ensures Wf(m) && pd < |m.mem| && k.kt + ENTRIES <= |m.mem|
    ensures var r, f := LoadPage(m, k, pd, w, bytes, flags, window), FirstFree(m.used, 0);
            if Free(m.used) > 0 then
              && r.Mapped? && ImageOk(r.m, k, pd, used0, data + {f}, pages[w := bytes]) && NoWindows(pages[w := bytes])
              && f !in data && Free(r.m.used) == Free(m.used) - 1
            else r == Refused(m)
  {
    hide ImageOk, MapUser, WithData, Free, WindowUsed, NoWindows;
    ImageSpace(m, k, pd, used0, data, pages);
    SpaceParts(m, k, pd, used0, data);
    LaterFrameKeepsImage(m, k, pd, used0, data, pages, bytes);
    TakenFrame(m, bytes);
    FreeFrames(m.used);
    UserPageIsShared(w);
    if WithData(m, bytes).Mapped? {
      var n, f := WithData(m, bytes).m, FirstFree(m.used, 0);
      WithDataKeeps(m, k, pd, used0, data, bytes);
      ImageSpace(n, k, pd, used0, data + {f}, pages);
      SpaceParts(n, k, pd, used0, data + {f});
      WindowKeepsImage(n, k, pd, used0, data + {f}, pages, window);
      WindowEffect(n, k, pd, used0, data + {f}, window);
      DataIsOrdinary(n, k, pd, used0, data + {f}, f);
      var u := WindowUsed(n, k, window);
      ImageSpace(u, k, pd, used0, data + {f}, pages);
      MapKeepsImage(u, k, pd, used0, data + {f}, pages, w, f, flags);
      SharedPageMaps(u, k, pd, used0, data + {f}, w, f, flags);
    }
  }

  lemma ImageSpace(m: Machine, k: Kernel, pd: nat, used0: seq<bool>, data: set<nat>, pages: map<nat, Frame>)
    requires ImageOk(m, k, pd, used0, data, pages)
    ensures SpaceOk(m, k, pd, used0, data) && Isolated(m.mem, k, pd)
  {
  }

  lemma DataIsOrdinary(m: Machine, k: Kernel, pd: nat, used0: seq<bool>, data: set<nat>, f: nat)
    requires SpaceOk(m, k, pd, used0, data) && f in data
    ensures f < |m.used| && m.used[f] && !KernelFrame(k, f)
  {
    hide SpaceOk;
    SpaceParts(m, k, pd, used0, data);
    DataParts(m, k, pd, used0, data, f);
  }

  // ---- loading segments ---------------------------------------------------------------------------

  /** The first n pages of a segment (map_segment). */
  lemma LoadPageWf(m: Machine, k: Kernel, pd: nat, v: nat, bytes: Frame, flags: nat, window: bool)
    requires Wf(m) && pd < |m.mem| && v < 0x10_0000 && k.kt + ENTRIES <= |m.mem|
    ensures var r := LoadPage(m, k, pd, v, bytes, flags, window); Wf(r.m) && |r.m.mem| == |m.mem|
  {
    hide UserEntry, PutEnt, Ent;
  }

  function LoadSegment(m: Machine, k: Kernel, pd: nat, file: seq<byte>, s: Segment, n: nat): (r: Mapping)
    requires Wf(m) && pd < |m.mem| && k.kt + ENTRIES <= |m.mem| && FirstPage(s) + n <= 0x10_0000
    ensures Wf(r.m) && |r.m.mem| == |m.mem|
  {
    if n == 0 then Mapped(m)
    else
      match LoadSegment(m, k, pd, file, s, n - 1)
      case NoTable(x) => NoTable(x)
      case Refused(x) => Refused(x)
      case Mapped(x) =>
        var p := FirstPage(s) + n - 1;
        LoadPageWf(x, k, pd, p, PageBytes(file, s, p), PageFlags(s), s.window);
        hide LoadPage;
        LoadPage(x, k, pd, p, PageBytes(file, s, p), PageFlags(s), s.window)
  }

  /** PAGE_PRESENT and PAGE_USER, PAGE_WRITE when the segment is writable. */
  function PageFlags(s: Segment): nat { if s.flags / 2 % 2 == 1 then 7 else 5 }

  function SegmentPages(file: seq<byte>, s: Segment, n: nat): (r: map<nat, Frame>)
    ensures forall p :: p in r <==> FirstPage(s) <= p < FirstPage(s) + n
    ensures forall p :: p in r ==> r[p] == PageBytes(file, s, p)
  {
    map p | FirstPage(s) <= p < FirstPage(s) + n :: PageBytes(file, s, p)
  }

  lemma NoPages(pages: map<nat, Frame>, file: seq<byte>, s: Segment)
    ensures pages + SegmentPages(file, s, 0) == pages
  {
  }

  lemma NextPage(pages: map<nat, Frame>, file: seq<byte>, s: Segment, n: nat)
    requires n > 0
    ensures var p := FirstPage(s) + n - 1;
            (pages + SegmentPages(file, s, n - 1))[p := PageBytes(file, s, p)] == pages + SegmentPages(file, s, n)
  {
    hide PageBytes;
  }

  /** Loading the first n pages of a segment succeeds exactly when there are n free frames;
      otherwise all free frames have been taken. */
  lemma {:induction false} LoadSegmentKeeps(m: Machine, k: Kernel, pd: nat, used0: seq<bool>, data: set<nat>,
                                            pages: map<nat, Frame>, file: seq<byte>, s: Segment, n: nat)
    returns (d: set<nat>)
    requires ImageOk(m, k, pd, used0, data, pages) && NoWindows(pages) && s.vaddr >= USER_BASE
             && FirstPage(s) + n <= 0x10_0000
    ensures Wf(m) && pd < |m.mem| && k.kt + ENTRIES <= |m.mem|
    ensures var r := LoadSegment(m, k, pd, file, s, n);
            if n <= Free(m.used) then
              && r.Mapped? && ImageOk(r.m, k, pd, used0, d, pages + SegmentPages(file, s, n))
              && NoWindows(pages + SegmentPages(file, s, n))
              && |d| == |data| + n && Free(r.m.used) == Free(m.used) - n
            else r.Refused? && SpaceOk(r.m, k, pd, used0, d) && |d| == |data| + Free(m.used)
  {
    hide ImageOk, LoadPage, PageBytes, Described, SegmentPages, Free, NoWindows;
    ImageSpace(m, k, pd, used0, data, pages);
    SpaceParts(m, k, pd, used0, data);
    d := data;
    if n == 0 {
      NoPages(pages, file, s);
    } else {
      d := LoadSegmentKeeps(m, k, pd, used0, data, pages, file, s, n - 1);
      var r := LoadSegment(m, k, pd, file, s, n - 1);
      if r.Mapped? {
        var p := FirstPage(s) + n - 1;
        SegmentUserPage(s, n - 1);
        var before := pages + SegmentPages(file, s, n - 1);
        LoadPageKeeps(r.m, k, pd, used0, d, before, p, PageBytes(file, s, p), PageFlags(s), s.window);
        ImageSpace(r.m, k, pd, used0, d, before);
        NextPage(pages, file, s, n);
        if Free(r.m.used) > 0 { d := d + {FirstFree(r.m.used, 0)}; }
      }
    }
  }

  lemma SegmentUserPage(s: Segment, n: nat)
    requires s.vaddr >= USER_BASE && FirstPage(s) + n < 0x10_0000
    ensures UserPage(FirstPage(s) + n)
  {
  }

  ghost predicate NoWraps(segs: seq<Segment>) {
    forall i :: 0 <= i < |segs| ==> NoWrap(segs[i])
  }

  function PageCount(s: Segment): nat { if s.memsz == 0 then 0 else EndPage(s) - FirstPage(s) }

  /** A page is loaded for a segment exactly when it has a byte of the segment on it. */
  lemma CoveredPages(s: Segment, p: nat)
    ensures FirstPage(s) <= p < FirstPage(s) + PageCount(s)
            <==> s.memsz > 0 && 4096 * p < s.vaddr + s.memsz && s.vaddr < 4096 * (p + 1)
  {
  }

  lemma PagesFit(s: Segment)
    requires NoWrap(s)
    ensures FirstPage(s) + PageCount(s) <= 0x10_0000
    ensures s.memsz > 0 ==> FirstPage(s) + PageCount(s) == EndPage(s)
  {
  }

  /** The segment loop of elf_load over the first n headers; empty ones are skipped, and one
      that fails the checks ends the load. */
  ghost function LoadSegments(m: Machine, k: Kernel, pd: nat, file: seq<byte>, segs: seq<Segment>, n: nat): (r: Mapping)
    requires Wf(m) && pd < |m.mem| && k.kt + ENTRIES <= |m.mem| && NoWraps(segs) && n <= |segs|
    ensures Wf(r.m) && |r.m.mem| == |m.mem|
  {
    if n == 0 then Mapped(m)
    else
      var r := LoadSegments(m, k, pd, file, segs, n - 1);
      var s := segs[n - 1];
      if !r.Mapped? || s.memsz == 0 then r
      else if !Accepted(file, s) then Refused(r.m)
      else
        PagesFit(s);
        hide PageCount, FirstPage;
        LoadSegment(r.m, k, pd, file, s, PageCount(s))
  }

  ghost function ImagePages(file: seq<byte>, segs: seq<Segment>, n: nat): map<nat, Frame>
    requires n <= |segs|
  {
    if n == 0 then map[] else ImagePages(file, segs, n - 1) + SegmentPages(file, segs[n - 1], PageCount(segs[n - 1]))
  }

  /** The first n headers pass the checks. */
  predicate HeadersOk(file: seq<byte>, segs: seq<Segment>, n: nat)
    requires n <= |segs|
  {
    forall i :: 0 <= i < n ==> segs[i].memsz == 0 || Accepted(file, segs[i])
  }

  /** The pages asked for by the first n headers, up to the first that fails the checks. */
  function Wanted(file: seq<byte>, segs: seq<Segment>, n: nat): nat
    requires n <= |segs|
  {
    if n == 0 then 0 else Wanted(file, segs, n - 1) + if HeadersOk(file, segs, n) then PageCount(segs[n - 1]) else 0
  }

  /** Loading the first n headers succeeds exactly when they pass the checks and there are
      frames for all their pages; otherwise the pages asked for before the offending header,
      or as many as there were frames, have been loaded. */
  lemma {:induction false} LoadSegmentsKeeps(m: Machine, k: Kernel, pd: nat, used0: seq<bool>, data: set<nat>,
        file: seq<byte>, segs: seq<Segment>, n: nat)
    returns (d: set<nat>)
    requires ImageOk(m, k, pd, used0, data, map[]) && NoWraps(segs) && n <= |segs|
    ensures Wf(m) && pd < |m.mem| && k.kt + ENTRIES <= |m.mem|
    ensures var r, want, free := LoadSegments(m, k, pd, file, segs, n), Wanted(file, segs, n), Free(m.used);
            if HeadersOk(file, segs, n) && want <= free then
              && r.Mapped? && ImageOk(r.m, k, pd, used0, d, ImagePages(file, segs, n))
              && NoWindows(ImagePages(file, segs, n))
              && |d| == |data| + want && Free(r.m.used) == free - want
            else r.Refused? && SpaceOk(r.m, k, pd, used0, d) && |d| == |data| + if want <= free then want else free
  {
    hide ImageOk, LoadSegment, SegmentPages, PageCount, SpaceOk, FirstPage, Accepted, Free;
    ImageSpace(m, k, pd, used0, data, map[]);
    SpaceParts(m, k, pd, used0, data);
    d := data;
    if n > 0 {
      d := LoadSegmentsKeeps(m, k, pd, used0, data, file, segs, n - 1);
      var r, s := LoadSegments(m, k, pd, file, segs, n - 1), segs[n - 1];
      if r.Mapped? {
        ImageSpace(r.m, k, pd, used0, d, ImagePages(file, segs, n - 1));
        if s.memsz == 0 { EmptySegment(ImagePages(file, segs, n - 1), file, s); }
        else if Accepted(file, s) {
          PagesFit(s);
          AcceptedUser(file, s);
          d := LoadSegmentKeeps(r.m, k, pd, used0, d, ImagePages(file, segs, n - 1), file, s, PageCount(s));
        }
      }
    }
  }

  lemma EmptySegment(pages: map<nat, Frame>, file: seq<byte>, s: Segment)
    requires s.memsz == 0
    ensures PageCount(s) == 0 && pages + SegmentPages(file, s, PageCount(s)) == pages
  {
  }

  lemma AcceptedUser(file: seq<byte>, s: Segment)
    requires Accepted(file, s)
    ensures s.vaddr >= USER_BASE
  {
  }

  /** No two segments share a page. */
  ghost predicate PageDisjoint(segs: seq<Segment>) {
    forall i, j :: 0 <= i < j < |segs| ==> Separate(segs[i], segs[j])
  }

  ghost predicate Separate(a: Segment, b: Segment) {
    a.memsz == 0 || b.memsz == 0 || EndPage(a) <= FirstPage(b) || EndPage(b) <= FirstPage(a)
  }

  lemma {:induction false} PagesOfSegment(file: seq<byte>, segs: seq<Segment>, n: nat, i: nat, p: nat)
    requires NoWraps(segs) && PageDisjoint(segs) && i < n <= |segs| && segs[i].memsz > 0
             && FirstPage(segs[i]) <= p < EndPage(segs[i])
    ensures p in ImagePages(file, segs, n) && ImagePages(file, segs, n)[p] == PageBytes(file, segs[i], p)
  {
    hide PageBytes, NoWrap;
    PagesFit(segs[n - 1]);
    if i < n - 1 {
      PagesOfSegment(file, segs, n - 1, i, p);
      assert Separate(segs[i], segs[n - 1]);
    }
  }

  // ---- the theorems -------------------------------------------------------------------------------

  /** The user stack is loaded like a writable segment without file bytes. */
  const STACK: Segment := Segment(STACK_TOP - STACK_PAGES * 4096, STACK_PAGES * 4096, 0, 0, 2, true)

  function WithStack(segs: seq<Segment>): seq<Segment> { segs + [STACK] }

  lemma WithStackOk(file: seq<byte>, segs: seq<Segment>)
    requires NoWraps(segs)
    ensures NoWraps(WithStack(segs))
    ensures HeadersOk(file, WithStack(segs), |WithStack(segs)|) <==> HeadersOk(file, segs, |segs|)
  {
    assert Accepted(file, STACK);
    var all := WithStack(segs);
    assert forall i :: 0 <= i < |segs| ==> all[i] == segs[i];
    if HeadersOk(file, all, |all|) {
      forall i | 0 <= i < |segs| ensures segs[i].memsz == 0 || Accepted(file, segs[i]) { assert all[i] == segs[i]; }
    }
  }

  /** Directory and memory after a load; when it fails, what elf_load leaves after
      destroying the space. */
  datatype Loaded = Failed(m: Machine) | Loaded(m: Machine, pd: nat)

  ghost function LoadElf(m: Machine, k: Kernel, file: seq<byte>, segs: seq<Segment>): (r: Loaded)
    requires KernelOk(m, k, m.used) && NoWraps(segs)
    ensures r.Loaded? ==> r.pd < |r.m.mem|
  {
    var c := CreateIsolated(m, k);
    if !c.Mapped? then Failed(c.m)
    else
      var pd := FirstFree(m.used, 0);
      WithStackOk(file, segs);
      var r := LoadSegments(c.m, k, pd, file, WithStack(segs), |WithStack(segs)|);
      if r.Mapped? then Loaded(r.m, pd) else Failed(r.m.(used := Destroy(r.m, k, pd)))
  }

  /** All pages of a program, stack included. */
  ghost function ProgramPages(file: seq<byte>, segs: seq<Segment>): map<nat, Frame> {
    ImagePages(file, WithStack(segs), |WithStack(segs)|)
  }

  function PagesWanted(file: seq<byte>, segs: seq<Segment>): nat { Wanted(file, WithStack(segs), |WithStack(segs)|) }

  /** The run of the loader on a new space. */
  lemma LoadRun(m: Machine, k: Kernel, file: seq<byte>, segs: seq<Segment>) returns (d: set<nat>)
    requires KernelOk(m, k, m.used) && NoWraps(segs) && Free(m.used) > 0
    ensures var c, pd, all := CreateIsolated(m, k), FirstFree(m.used, 0), WithStack(segs);
            && c.Mapped? && NoWraps(all) && Wf(c.m) && pd < |c.m.mem| && k.kt + ENTRIES <= |c.m.mem|
            && ImageOk(c.m, k, pd, m.used, {}, map[])
            && var r, want, free := LoadSegments(c.m, k, pd, file, all, |all|), PagesWanted(file, segs),
               Free(m.used) - 1;
               if HeadersOk(file, segs, |segs|) && want <= free then
                 r.Mapped? && ImageOk(r.m, k, pd, m.used, d, ProgramPages(file, segs))
                   && NoWindows(ProgramPages(file, segs)) && |d| == want
               else r.Refused? && SpaceOk(r.m, k, pd, m.used, d) && |d| == if want <= free then want else free
  {
    hide SpaceOk, KernelEntry, LoadSegments, Isolated, ImagePages, NoWindows, NoWraps, HeadersOk, WithStack, Free,
      Wanted;
    WithStackOk(file, segs);
    FreeFrames(m.used);
    IsolatedSpace(m, k);
    CreatedIsolated(m, k);
    var c, pd, all := CreateIsolated(m, k), FirstFree(m.used, 0), WithStack(segs);
    d := LoadSegmentsKeeps(c.m, k, pd, m.used, {}, file, all, |all|);
  }

  /** A load succeeds if and only if every header that asks for memory passes the checks and
      there is a free frame for the directory and for every page. */
  lemma LoadSucceeds(m: Machine, k: Kernel, file: seq<byte>, segs: seq<Segment>)
    requires KernelOk(m, k, m.used) && NoWraps(segs)
    ensures LoadElf(m, k, file, segs).Loaded?
            <==> HeadersOk(file, segs, |segs|) && PagesWanted(file, segs) + 1 <= Free(m.used)
  {
    hide ImageOk, SpaceOk, KernelEntry, LoadSegments, ImagePages, HeadersOk, WithStack, Free, Wanted;
    FreeFrames(m.used);
    if Free(m.used) > 0 { var d := LoadRun(m, k, file, segs); }
  }

  /** A load that fails leaves in use what was in use before and one frame for every page
      loaded until then: the pages asked for before the offending header, or all frames but
      the directory's.  So the bitmap is as before exactly when that number is 0. */
  lemma FailedLoadKeepsFrames(m: Machine, k: Kernel, file: seq<byte>, segs: seq<Segment>) returns (d: set<nat>)
    requires KernelOk(m, k, m.used) && NoWraps(segs) && LoadElf(m, k, file, segs).Failed?
    ensures var used, want, free := LoadElf(m, k, file, segs).m.used, PagesWanted(file, segs), Free(m.used) - 1;
            && |d| == (if free <= 0 then 0 else if want <= free then want else free)
            && |used| == |m.used| && (forall f :: f in d ==> f < |m.used| && !m.used[f])
            && (forall f :: 0 <= f < |m.used| ==> (used[f] <==> m.used[f] || f in d))
            && (used == m.used <==> |d| == 0)
  {
    hide ImageOk, SpaceOk, KernelEntry, LoadSegments, ImagePages, HeadersOk, WithStack, Free, Wanted, Destroy;
    FreeFrames(m.used);
    d := {};
    if Free(m.used) > 0 {
      d := LoadRun(m, k, file, segs);
      var pd, all := FirstFree(m.used, 0), WithStack(segs);
      var x := LoadSegments(CreateIsolated(m, k).m, k, pd, file, all, |all|).m;
      DestroyRestores(x, k, pd, m.used, d);
      forall f | f in d ensures f < |m.used| && !m.used[f] { DataParts(x, k, pd, m.used, d, f); }
      if d != {} { var f :| f in d; }
    }
  }

  /** After a load of segments that share no page with each other or the stack, every
      address of a segment shows the byte its program header describes: the file's byte
      below filesz and zero from there to memsz; the stack shows zeros. */
  lemma ElfImage(m: Machine, k: Kernel, file: seq<byte>, segs: seq<Segment>, s: Segment, va: nat)
    requires KernelOk(m, k, m.used) && NoWraps(segs) && PageDisjoint(WithStack(segs))
    requires s in WithStack(segs) && s.vaddr <= va < s.vaddr + s.memsz
    requires LoadElf(m, k, file, segs).Loaded?
    ensures SegmentOk(file, s) && va < TWO32
    ensures var r := LoadElf(m, k, file, segs);
            ByteAt(r.m.mem, r.pd, va) == if va < s.vaddr + s.filesz then file[s.offset + (va - s.vaddr)] else 0
  {
    hide KernelOk, LoadElf, PageBytes, PageDisjoint, WithStack, ByteAt, FirstPage, EndPage, ImagePages, Wanted, Free,
      Described, ImageOk, NoWindows;
    WithStackOk(file, segs);
    var all := WithStack(segs);
    var i :| 0 <= i < |all| && all[i] == s;
    LoadSucceeds(m, k, file, segs);
    DescribedByte(file, all, i, va);
    var d := LoadedImage(m, k, file, segs);
    AddressPage(s, va);
    PagesOfSegment(file, all, |all|, i, va / 4096);
    var r := LoadElf(m, k, file, segs);
    LoadedPage(r.m, k, r.pd, m.used, d, ProgramPages(file, segs), file, s, va / 4096, va);
  }

  lemma DescribedByte(file: seq<byte>, segs: seq<Segment>, i: nat, va: nat)
    requires NoWraps(segs) && HeadersOk(file, segs, |segs|) && i < |segs|
             && segs[i].vaddr <= va < segs[i].vaddr + segs[i].memsz
    ensures SegmentOk(file, segs[i]) && va < TWO32
    ensures var s := segs[i];
            Described(file, s, va) == if va < s.vaddr + s.filesz then file[s.offset + (va - s.vaddr)] else 0
  {
  }

  lemma LoadedPage(m: Machine, k: Kernel, pd: nat, used0: seq<bool>, d: set<nat>, now: map<nat, Frame>,
                   file: seq<byte>, s: Segment, p: nat, va: nat)
    requires ImageOk(m, k, pd, used0, d, now) && p in now && now[p] == PageBytes(file, s, p) && p == va / 4096
             && va < TWO32
    ensures pd < |m.mem| && ByteAt(m.mem, pd, va) == Described(file, s, va)
  {
    hide SpaceOk, PageBytes, Walk, Described, Isolated;
    assert PageOk(m.mem, pd, d, p, now[p]);
    PageByte(file, s, va);
  }

  /** The space after a load shows every page of the program. */
  lemma LoadedImage(m: Machine, k: Kernel, file: seq<byte>, segs: seq<Segment>) returns (d: set<nat>)
    requires KernelOk(m, k, m.used) && NoWraps(segs) && LoadElf(m, k, file, segs).Loaded?
    ensures var r := LoadElf(m, k, file, segs);
            ImageOk(r.m, k, r.pd, m.used, d, ProgramPages(file, segs)) && NoWindows(ProgramPages(file, segs))
  {
    hide ImageOk, SpaceOk, KernelEntry, LoadSegments, ImagePages, HeadersOk, WithStack, Free, Wanted, NoWindows;
    LoadSucceeds(m, k, file, segs);
    d := LoadRun(m, k, file, segs);
  }

  /** Every load ends with the loader's window cleared: whatever the kernel had mapped at
      0x3FD00000 is gone from its table, which all isolated spaces share. */
  lemma LoaderPageUnmapped(m: Machine, k: Kernel, file: seq<byte>, segs: seq<Segment>)
    requires KernelOk(m, k, m.used) && NoWraps(segs) && LoadElf(m, k, file, segs).Loaded?
    ensures var mem := LoadElf(m, k, file, segs).m.mem;
            k.kt + ENTRIES <= |mem| && Ent(mem[k.kt + WINDOW_TABLE], LOADER_WINDOW) == 0
    ensures (WINDOW_TABLE * 1024 + LOADER_WINDOW) * 4096 == 0x3FD0_0000
  {
    hide ImageOk, SpaceOk, KernelEntry, LoadSegments, LoadSegment, ImagePages, HeadersOk, Free, Wanted, NoWindows, Ent,
      CreateIsolated, SegmentPages;
    LoadSucceeds(m, k, file, segs);
    var d := LoadRun(m, k, file, segs);
    var c, pd, all := CreateIsolated(m, k).m, FirstFree(m.used, 0), WithStack(segs);
    d := LoadSegmentsKeeps(c, k, pd, m.used, {}, file, all, |segs|);
    LastIsStack(c, k, pd, file, segs);
    var x := LoadSegments(c, k, pd, file, all, |segs|);
    var pages := ImagePages(file, all, |segs|);
    d := LoadSegmentKeeps(x.m, k, pd, m.used, d, pages, file, STACK, STACK_PAGES - 1);
    var y := LoadSegment(x.m, k, pd, file, STACK, STACK_PAGES - 1);
    StackPageClears(y.m, k, pd, m.used, d, pages + SegmentPages(file, STACK, STACK_PAGES - 1),
                    PageBytes(file, STACK, FirstPage(STACK) + STACK_PAGES - 1));
  }

  /** The load ends with the last stack page. */
  lemma LastIsStack(c: Machine, k: Kernel, pd: nat, file: seq<byte>, segs: seq<Segment>)
    requires Wf(c) && pd < |c.mem| && k.kt + ENTRIES <= |c.mem| && NoWraps(WithStack(segs))
    requires LoadSegments(c, k, pd, file, WithStack(segs), |segs| + 1).Mapped?
    ensures var x := LoadSegments(c, k, pd, file, WithStack(segs), |segs|);
            && x.Mapped? && FirstPage(STACK) + STACK_PAGES <= 0x10_0000
            && var y := LoadSegment(x.m, k, pd, file, STACK, STACK_PAGES - 1);
               y.Mapped? && LoadSegments(c, k, pd, file, WithStack(segs), |segs| + 1)
                            == LoadPage(y.m, k, pd, FirstPage(STACK) + STACK_PAGES - 1,
                                        PageBytes(file, STACK, FirstPage(STACK) + STACK_PAGES - 1),
                                        PageFlags(STACK), true)
  {
    hide LoadPage, PageBytes;
    assert WithStack(segs)[|segs|] == STACK && PageCount(STACK) == STACK_PAGES;
  }

  lemma StackPageClears(m: Machine, k: Kernel, pd: nat, used0: seq<bool>, data: set<nat>, pages: map<nat, Frame>,
                        bytes: Frame)
    requires ImageOk(m, k, pd, used0, data, pages) && NoWindows(pages)
    ensures Wf(m) && pd < |m.mem| && k.kt + ENTRIES <= |m.mem|
    ensures var r := LoadPage(m, k, pd, FirstPage(STACK) + STACK_PAGES - 1, bytes, PageFlags(STACK), true);
            r.Mapped? ==> |r.m.mem| == |m.mem| && Ent(r.m.mem[k.kt + WINDOW_TABLE], LOADER_WINDOW) == 0
  {
    hide ImageOk, MapUser, WithData, SpaceOk, Ent, PutEnt;
    ImageSpace(m, k, pd, used0, data, pages);
    SpaceParts(m, k, pd, used0, data);
    TakenFrame(m, bytes);
    if WithData(m, bytes).Mapped? {
      var n, f := WithData(m, bytes).m, FirstFree(m.used, 0);
      WithDataKeeps(m, k, pd, used0, data, bytes);
      SpaceParts(n, k, pd, used0, data + {f});
      WindowEffect(n, k, pd, used0, data + {f}, true);
      EntPut(n.mem[k.kt + WINDOW_TABLE], LOADER_WINDOW, 0, LOADER_WINDOW);
      KernelTableEntry(WindowUsed(n, k, true), k, pd, used0, data + {f},
                       FirstPage(STACK) + STACK_PAGES - 1, f, PageFlags(STACK), LOADER_PAGE);
    }
  }

  lemma AddressPage(s: Segment, va: nat)
    requires s.vaddr <= va < s.vaddr + s.memsz
    ensures FirstPage(s) <= va / 4096 < EndPage(s)
  {
  }

  lemma PageByte(file: seq<byte>, s: Segment, va: nat)
    ensures PageBytes(file, s, va / 4096)[va % 4096] == Described(file, s, va)
  {
    assert va / 4096 * 4096 + va % 4096 == va;
  }
}
