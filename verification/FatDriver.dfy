/** The FAT16 driver (src/fat16.c): a mounted volume whose sectors its operations read and
    write.  Each operation is tied to its meaning on the table, directory and data area. */
module FatDriver {
  import opened Bits
  import opened LittleEndian
  import opened Strings
  import opened Search
  import opened FatChains
  import opened FatData
  import opened FatNames
  import opened FatDirectory
  import opened FatVolume
  import opened FatDisk

  // ---- facts the loops need ----------------------------------------------------------------

  lemma EntryAddress(g: Geo, d: Disk, c: nat)
    requires Fits(g, d) && c < g.total + 2
    ensures 2 * c / 512 == c / 256 < g.fatSize && 2 * c % 512 == 2 * (c % 256)
    ensures g.fatStart + c / 256 < |d| && d[g.fatStart + c / 256] == Table(g, d)[c / 256]
    ensures FatOf(g, d)[c] == Word(d[g.fatStart + c / 256], c % 256)
  {
    hide Geo.DataSectors, Word;
  }

  lemma ClearStep(fat: seq<nat>, c: nat)
    requires InRange(fat) && 2 <= c < |fat|
    ensures InRange(fat[c := 0]) && StartOk(fat, fat[c])
    ensures FreeWalk(fat, c) == FreeWalk(fat[c := 0], fat[c])
    ensures NonZero(fat[c := 0]) < NonZero(fat) || (NonZero(fat[c := 0]) == NonZero(fat) && fat[c] < c)
  {
    ClearCounts(fat, c);
  }

  /** A mounted volume. */
  class Volume {
    const g: Geo
    var disk: Disk

    constructor (g: Geo, disk: Disk)
      requires Fits(g, disk)
      ensures this.g == g && this.disk == disk
    {
      this.g := g;
      this.disk := disk;
    }

    predicate Ok()
      reads this
    {
      Fits(g, disk)
    }

    ghost function V(): Vol
      requires Ok()
      reads this
    {
      View(g, disk)
    }

    /** The volume became v, and the tables are still copies if they were. */
    twostate predicate Became(v: Vol)
      reads this
    {
      old(Ok()) && Ok() && V() == v && (old(Mirrored(g, disk)) ==> Mirrored(g, disk))
    }

    // ---- the table ---------------------------------------------------------------------------

    method ReadEntry(c: nat) returns (v: nat)
      requires Ok() && c < g.total + 2
      ensures v == V().fat[c]
    {
      var offset := 2 * c;
      EntryAddress(g, disk, c);
      var s := disk[g.fatStart + offset / 512];
      v := U16(s, offset % 512);
    }

    method WriteEntry(c: nat, v: nat)
      requires Ok() && c < g.total + 2 && v < 0x1_0000
      modifies this
      ensures Became(old(V()).(fat := old(V()).fat[c := v]))
    {
      hide Fits, FatOf, RootOf, DataOf, Mirrored, Geo.DataSectors, U16, PutU16;
      var offset := 2 * c;
      EntryAddress(g, disk, c);
      SetEntry(g, disk, c, v);
      var sector := g.fatStart + offset / 512;
      var s: Sector := disk[sector];
      s := PutU16(s, offset % 512, v);
      assert s == PutWord(Table(g, disk)[c / 256], c % 256, v);
      TableAreas(g, disk, c / 256, s);
      if g.twoFats { CopyAreas(g, disk[sector := s], c / 256, s); }
      disk := disk[sector := s];
      if g.twoFats { disk := disk[sector + g.fatSize := s]; }
    }

    /** Takes the first free cluster; 0 when there is none. */
    method AllocCluster() returns (c: nat)
      requires Ok()
      modifies this
      ensures var fat := old(V()).fat; var f := FirstFree(fat, 2);
              c == (if f == |fat| then 0 else f) && Became(if f == |fat| then old(V())
                  else old(V()).(fat := fat[f := EOC]))
    {
      ghost var fat := V().fat;
      c := 2;
      while c < g.total + 2
        invariant 2 <= c <= g.total + 2 && disk == old(disk)
        invariant FirstFree(fat, 2) == FirstFree(fat, c)
      {
        var v := ReadEntry(c);
        if v == 0 {
          WriteEntry(c, EOC);
          return;
        }
        c := c + 1;
      }
      c := 0;
    }

    /** Terminates on every in-range table, even a cyclic one. */
    method FreeChain(start: nat)
      requires Ok() && InRange(V().fat) && StartOk(V().fat, start)
      modifies this
      ensures Became(old(V()).(fat := FreeWalk(old(V()).fat, start)))
    {
      hide Fits, FatOf, RootOf, DataOf, Mirrored, InRange, FreeWalk;
      var c: nat := start;
      while 2 <= c < EOC_MIN
        invariant Ok() && InRange(V().fat) && StartOk(V().fat, c)
        invariant Became(old(V()).(fat := V().fat))
        invariant FreeWalk(V().fat, c) == FreeWalk(old(V()).fat, start)
        decreases NonZero(V().fat), c
      {
        ClearStep(V().fat, c);
        var next := ReadEntry(c);
        WriteEntry(c, 0);
        c := next;
      }
      FreeNothing(V().fat, c);
    }

    /** The allocation loop of fat16_write_file, which gives the clusters back when it
        runs out of them. */
    method AllocChain(n: nat) returns (first: nat)
      requires Ok() && InRange(V().fat) && n > 0
      modifies this
      ensures InRange(old(V()).fat) && |old(V()).fat| >= 2
      ensures var a := Allocate(old(V()).fat, n); first == (if a.ok then a.cs[0] else 0)
      ensures var a := Allocate(old(V()).fat, n);
              (a.cs != [] ==> InRange(a.fat) && StartOk(a.fat, a.cs[0]))
                && Became(old(V()).(fat := if a.ok then a.fat else GiveBack(a)))
    {
      hide Fits, FatOf, RootOf, DataOf, Mirrored, InRange, FreeWalk, Allocate, Allocated, FirstFree;
      ghost var fat := V().fat;
      first := 0;
      var prev: nat := 0;
      AllocateMeaning(fat, n);
      AllocateMeaning(fat, 0);
      NothingAllocated(fat);
      for i := 0 to n
        invariant Ok() && Allocate(fat, i).ok && InRange(V().fat)
        invariant Became(old(V()).(fat := Allocate(fat, i).fat))
        invariant i > 0 ==> first == Allocate(fat, i).cs[0] && prev == Allocate(fat, i).cs[i - 1]
      {
        AllocateStep(fat, i);
        AllocateMeaning(fat, i + 1);
        var c := AllocCluster();
        if c == 0 {
          AllocateStuck(fat, i + 1, n);
          if i > 0 { FreeChain(first); }
          return 0;
        }
        if i == 0 { first := c; } else { WriteEntry(prev, c); }
        prev := c;
      }
    }

    // ---- file data -----------------------------------------------------------------------------

    /** Writes the next bytes to sector s of the i-th cluster of cs, filled up with zeros. */
    method StoreOne(cluster: nat, s: nat, bytes: seq<byte>, done: nat, ghost data: seq<Sector>, ghost cs: seq<nat>,
                    ghost i: nat, ghost k: nat)
      returns (written: nat)
      requires Ok() && InArea(g.total, cs) && |data| == g.total * g.spc
      requires i < |cs| && cluster == cs[i] && s < g.spc && k == i * g.spc + s && done == 512 * k < |bytes|
               && k <= |cs| * g.spc
      requires V().data == Store(g.spc, g.total, data, cs, bytes, k)
      modifies this
      ensures k < SectorCount(|bytes|) && k < |cs| * g.spc && written == Min(|bytes|, 512 * (k + 1))
      ensures Became(old(V()).(data := Store(g.spc, g.total, data, cs, bytes, k + 1)))
    {
      hide FatOf, RootOf, DataOf, Mirrored, Store, InArea, SectorCount, At, Geo.DataStart, Fits;
      var chunk := Min(|bytes| - done, 512);
      var buf: Sector := bytes[done..done + chunk] + seq(512 - chunk, _ => 0);
      StoreSector(g, disk, data, cs, bytes, i, s, k, chunk);
      disk := disk[g.DataStart() + At(g.spc, cluster, s) := buf];
      written := done + chunk;
    }

    /** Writes the sectors of the i-th cluster of cs, as long as there are bytes left. */
    method StoreCluster(cluster: nat, bytes: seq<byte>, done: nat, ghost data: seq<Sector>, ghost cs: seq<nat>,
                        ghost i: nat)
      returns (written: nat, ghost k: nat)
      requires Ok() && InArea(g.total, cs) && SectorCount(|bytes|) <= |cs| * g.spc && |data| == g.total * g.spc
      requires i < |cs| && cluster == cs[i] && done == 512 * (i * g.spc) < |bytes| && i * g.spc <= |cs| * g.spc
      requires V().data == Store(g.spc, g.total, data, cs, bytes, i * g.spc)
      modifies this
      ensures i * g.spc <= k <= SectorCount(|bytes|) && written == Min(|bytes|, 512 * k)
      ensures written < |bytes| ==> k == (i + 1) * g.spc
      ensures Became(old(V()).(data := Store(g.spc, g.total, data, cs, bytes, k)))
    {
      hide FatOf, RootOf, DataOf, Mirrored, Store, InArea, SectorOf, SectorCount, At, Geo.DataStart, Fits;
      ghost var base := i * g.spc;
      written, k := done, base;
      SectorsLeft(|bytes|, k);
      FitsSpc(g, disk);
      var s: nat := 0;
      while s < g.spc && written < |bytes|
        invariant Ok() && s <= g.spc && base <= k <= SectorCount(|bytes|)
        invariant written == Min(|bytes|, 512 * k) && (written < |bytes| ==> k == base + s)
        invariant Became(old(V()).(data := Store(g.spc, g.total, data, cs, bytes, k)))
      {
        written := StoreOne(cluster, s, bytes, written, data, cs, i, k);
        k, s := k + 1, s + 1;
      }
      assert (i + 1) * g.spc == base + g.spc;
    }

    /** The write loop, along the chain cs. */
    method StoreFile(first: nat, bytes: seq<byte>, ghost cs: seq<nat>) returns (written: nat)
      requires Ok() && IsChain(V().fat, cs) && cs != [] && cs[0] == first
      requires InArea(g.total, cs) && SectorCount(|bytes|) <= |cs| * g.spc
      modifies this
      ensures written == |bytes|
      ensures old(Ok())
              && Became(old(V()).(data := Store(g.spc, g.total, old(V()).data, cs, bytes, SectorCount(|bytes|))))
    {
      hide FatOf, RootOf, DataOf, Mirrored, Store, InArea, IsChain, SectorCount;
      ghost var data := V().data;
      written := 0;
      var cluster: nat := first;
      ghost var i: nat, k: nat := 0, 0;
      StoreNothing(g.spc, g.total, data, cs, bytes);
      ChainNext(V().fat, cs, 0);
      while 2 <= cluster < EOC_MIN && written < |bytes|
        invariant Ok() && i <= |cs| && k <= SectorCount(|bytes|)
        invariant if i < |cs| then cluster == cs[i] && 2 <= cluster < EOC_MIN else cluster >= EOC_MIN
        invariant written == Min(|bytes|, 512 * k) && (written < |bytes| ==> k == i * g.spc)
        invariant Became(old(V()).(data := Store(g.spc, g.total, data, cs, bytes, k)))
        decreases |cs| - i
      {
        written, k := StoreCluster(cluster, bytes, written, data, cs, i);
        ChainNext(V().fat, cs, i);
        if i + 1 < |cs| { ChainNext(V().fat, cs, i + 1); }
        cluster := ReadEntry(cluster);
        i := i + 1;
      }
      SectorsLeft(|bytes|, k);
    }

    /** Reads the sectors of the i-th cluster of cs, as long as bytes are wanted. */
    method LoadCluster(cluster: nat, want: nat, done: seq<byte>, ghost cs: seq<nat>, ghost i: nat)
      returns (bytes: seq<byte>, ghost k: nat)
      requires Ok() && InArea(g.total, cs) && i < |cs| && cluster == cs[i] && |done| == 512 * (i * g.spc) < want
      requires SectorCount(|done|) <= |cs| * g.spc && done == Content(g.spc, g.total, V().data, cs, |done|)
      ensures i * g.spc <= k <= (i + 1) * g.spc && |bytes| == Min(want, 512 * k)
      ensures |bytes| < want ==> k == (i + 1) * g.spc
      ensures SectorCount(|bytes|) <= |cs| * g.spc && bytes == Content(g.spc, g.total, V().data, cs, |bytes|)
    {
      hide FatOf, RootOf, DataOf, Content, InArea, SectorOf, At;
      bytes, k := done, i * g.spc;
      var s: nat := 0;
      assert (i + 1) * g.spc == i * g.spc + g.spc;
      while s < g.spc && |bytes| < want
        invariant s <= g.spc && i * g.spc <= k <= i * g.spc + s && |bytes| == Min(want, 512 * k)
        invariant |bytes| < want ==> k == i * g.spc + s
        invariant SectorCount(|bytes|) <= |cs| * g.spc && bytes == Content(g.spc, g.total, V().data, cs, |bytes|)
      {
        SectorAt(g.spc, g.total, cs, i, s);
        SectorInDisk(g, disk, cs, i, s);
        DataSector(g, disk, cs, k);
        var buf := disk[g.DataStart() + At(g.spc, cluster, s)];
        var chunk := if want - |bytes| > 512 then 512 else want - |bytes|;
        SectorsFit(512 * k + chunk, k + 1);
        ContentGrows(g.spc, g.total, V().data, cs, k, chunk);
        bytes, k, s := bytes + buf[..chunk], k + 1, s + 1;
      }
    }

    /** The read loop: at most `want` bytes from the chain starting at c. */
    method LoadFile(c: nat, want: nat) returns (bytes: seq<byte>)
      requires Ok() && Sane(g.spc, V()) && StartOk(V().fat, c)
      ensures bytes == ReadAt(g.spc, V(), c, want)
    {
      hide FatOf, RootOf, DataOf, Content, InArea, SectorCount, StartsOk, InRange, Visit, Clusters;
      var cluster: nat := c;
      bytes := [];
      ghost var fat := V().fat;
      ghost var n := Clusters(g.spc, want);
      ghost var cs := Visit(fat, c, n);
      ghost var i: nat, k: nat := 0, 0;
      ReadStart(g.spc, V(), cs);
      while 2 <= cluster < EOC_MIN && |bytes| < want
        invariant i <= |cs| && i <= n && StartOk(fat, cluster) && cs[i..] == Visit(fat, cluster, n - i)
        invariant k <= i * g.spc && |bytes| == Min(want, 512 * k) && (|bytes| < want ==> k == i * g.spc)
        invariant SectorCount(|bytes|) <= |cs| * g.spc && bytes == Content(g.spc, g.total, V().data, cs, |bytes|)
        decreases n - i
      {
        MoreClusters(g.spc, want, i);
        VisitStep(fat, cluster, n - i);
        assert cs[i] == cluster;
        bytes, k := LoadCluster(cluster, want, bytes, cs, i);
        cluster := ReadEntry(cluster);
        assert cs[i + 1..] == cs[i..][1..];
        i := i + 1;
      }
      VisitEnd(fat, cluster, n - i);
      MulMonotone(i, |cs|, g.spc);
    }

    // ---- the root directory -------------------------------------------------------------------

    /** Scans one sector of the root directory; `over` when the search has ended. */
    method ScanSector(name: seq<byte>, s: nat, collecting0: bool, buf0: seq<byte>)
      returns (over: bool, r: Found, collecting: bool, buf: seq<byte>)
      requires Ok() && s < g.rootSectors && |buf0| == MAX_NAME
      requires Collected(V().root, 16 * s) == if collecting0 then Long(buf0) else Idle
      ensures over ==> r == FindFrom(V().root, name, 16 * s)
      ensures !over ==> FindFrom(V().root, name, 16 * s) == FindFrom(V().root, name, 16 * s + 16)
      ensures !over ==> |buf| == MAX_NAME && Collected(V().root, 16 * s + 16) == if collecting then Long(buf) else Idle
    {
      hide FatOf, DataOf, RootOf, Answers, SameName, Text, Text83, Collected, SlotIn, PutChars, Cleared, FindFrom,
        Absorb, Live;
      ghost var root := V().root;
      over, r, collecting, buf := false, None, collecting0, buf0;
      RootSlot(g, disk, s, 0);
      var sector := disk[g.RootLba() + s];
      for i := 0 to 16
        invariant |buf| == MAX_NAME && Collected(root, 16 * s + i) == (if collecting then Long(buf) else Idle)
        invariant FindFrom(root, name, 16 * s) == FindFrom(root, name, 16 * s + i)
      {
        var e := SlotIn(sector, i);
        RootSlot(g, disk, s, i);
        FindStep(root, name, 16 * s + i);
        if e[0] == 0 { return true, None, collecting, buf; }
        if e[0] == DELETED { collecting := false; continue; }
        if e[11] == ATTR_LFN {
          collecting, buf := Collect(collecting, buf, e);
          continue;
        }
        if e[11] / 8 % 2 == 1 { collecting := false; continue; }
        var matched := false;
        if collecting && buf[0] != 0 { matched := SameName(Text(buf), name); }
        if !matched { matched := SameName(Text83(e), name); }
        collecting, buf := false, Cleared();
        if matched { return true, Some(16 * s + i), collecting, buf; }
      }
    }

    /** find_entry_in_dir on the root directory. */
    method FindEntry(name: seq<byte>) returns (r: Found)
      requires Ok()
      ensures r == Find(V().root, name)
    {
      hide FatOf, DataOf, Collected, FindFrom;
      var collecting := false;
      var buf := Cleared();
      CollectedStart(V().root);
      for s := 0 to g.rootSectors
        invariant |buf| == MAX_NAME && Collected(V().root, 16 * s) == (if collecting then Long(buf) else Idle)
        invariant Find(V().root, name) == FindFrom(V().root, name, 16 * s)
      {
        var over: bool;
        over, r, collecting, buf := ScanSector(name, s, collecting, buf);
        if over { return; }
      }
      FindEnd(V().root, name);
      r := None;
    }

    /** find_free_dir_slots on the root directory: first fit. */
    method FindFreeSlots(count: nat) returns (r: Found)
      requires Ok() && count > 0
      ensures r == FirstRun(V().root, count)
    {
      hide FatOf, DataOf, SlotIn, Searching, FirstRun, IsRun, FirstFit, Geo.DataSectors;
      ghost var root := V().root;
      var consecutive: nat, first: nat := 0, 0;
      SearchStart(root, count);
      for s := 0 to g.rootSectors
        invariant Searching(root, count, 16 * s, consecutive) && (consecutive > 0 ==> first == 16 * s - consecutive)
      {
        RootSlot(g, disk, s, 0);
        var sector := disk[g.RootLba() + s];
        for i := 0 to 16
          invariant Searching(root, count, 16 * s + i, consecutive)
                    && (consecutive > 0 ==> first == 16 * s + i - consecutive)
        {
          RootSlot(g, disk, s, i);
          SearchStep(root, count, 16 * s + i, consecutive);
          if IsFree(SlotIn(sector, i)) {
            if consecutive == 0 { first := 16 * s + i; }
            consecutive := consecutive + 1;
            if consecutive >= count { return Some(first); }
          } else {
            consecutive := 0;
          }
        }
      }
      SearchEnd(root, count, consecutive);
      r := None;
    }

    /** Puts slot i of the run into the buffered sector, which is written back when full. */
    method PutBuffered(lba0: nat, off0: nat, buf0: Sector, f: nat, es: seq<Slot>, i: nat, ghost v: Vol, ghost m: bool)
      returns (lba: nat, off: nat, buf: Sector)
      requires Ok() && i + 1 < |es| && f + |es| <= 16 * g.rootSectors && |v.root| == 16 * g.rootSectors
      requires Buffered(g, disk, lba0, off0, buf0, v, f, es, i, m)
      modifies this
      ensures Ok() && Buffered(g, disk, lba, off, buf, v, f, es, i + 1, m)
    {
      hide Fits, FatOf, DataOf, RootOf, Mirrored, PutEntry, Place, Geo.DataSectors, Geo.RootLba, RootArea, SlotIn;
      BufferSlot(g, disk, v, f, es, i, buf0);
      SlotAddress(g, disk, f + i + 1);
      NextSlot(f + i);
      lba, off, buf := lba0, off0 + 32, PutEntry(buf0, off0 / 32, es[i]);
      if off >= 512 {
        disk := disk[lba := buf];
        lba, off := lba + 1, 0;
        buf := disk[lba];
        assert disk[lba := buf] == disk;
      }
    }

    /** write_dir_entries from slot f on: the sector buffer is written back when it is
        full and after the last slot. */
    method WriteDirEntries(f: nat, es: seq<Slot>)
      requires Ok() && es != [] && f + |es| <= |V().root|
      modifies this
      ensures Became(old(V()).(root := Place(old(V()).root, f, es)))
    {
      hide FatOf, DataOf, RootOf, Mirrored, PutEntry, Place, Geo.DataSectors, Geo.RootLba, RootArea, SlotIn;
      ghost var v, m := V(), Mirrored(g, disk);
      var lba: nat := g.RootLba() + f / 16;
      var off: nat := 32 * (f % 16);
      SlotAddress(g, disk, f);
      var buf := disk[lba];
      assert disk[lba := buf] == disk;
      PlaceNothing(v.root, f, es);
      for i := 0 to |es| - 1
        invariant Ok() && Buffered(g, disk, lba, off, buf, v, f, es, i, m)
      {
        lba, off, buf := PutBuffered(lba, off, buf, f, es, i, v, m);
      }
      BufferSlot(g, disk, v, f, es, |es| - 1, buf);
      buf := PutEntry(buf, off / 32, es[|es| - 1]);
      disk := disk[lba := buf];
    }

    /** Marks a slot deleted. */
    method EraseSlot(i: nat)
      requires Ok() && i < |V().root|
      modifies this
      ensures Became(old(V()).(root := Erase(old(V()).root, i)))
    {
      hide FatOf, DataOf, Mirrored, PutEntry, Geo.DataSectors;
      SlotAddress(g, disk, i);
      var lba := g.RootLba() + i / 16;
      var buf := disk[lba];
      MarkDeleted(buf, i % 16);
      SetSlot(g, disk, i, V().root[i][0 := DELETED]);
      disk := disk[lba := buf[32 * (i % 16) := DELETED]];
    }

    // ---- the public operations -----------------------------------------------------------------

    /** The collision loop: the first generated short name nobody answers to, or the last. */
    method PickShort(name: seq<byte>) returns (short: seq<byte>)
      requires Ok()
      ensures short == ShortName(name, PickNumber(V().root, name, 1))
    {
      hide FatOf, RootOf, DataOf, ShortName, CheckName, Find;
      short := ShortName(name, 1);
      var k := 1;
      while k <= 99
        invariant 1 <= k <= 100 && (k <= 99 ==> PickNumber(V().root, name, 1) == PickNumber(V().root, name, k))
        invariant k == 100 ==> PickNumber(V().root, name, 1) == 99 && short == ShortName(name, 99)
      {
        short := ShortName(name, k);
        var other := FindEntry(CheckName(short));
        if other.None? { return; }
        k := k + 1;
      }
    }

    /** The directory slots of a new file. */
    method BuildEntries(name: seq<byte>, cluster: nat, size: nat) returns (es: seq<Slot>)
      requires Ok()
      ensures es == Entries(V().root, name, cluster, size)
    {
      hide FatOf, RootOf, DataOf, ShortName, PickNumber, LongRun, FileEntry, Checksum, Encode83, NeedsLong;
      if NeedsLong(name) {
        var short := PickShort(name);
        es := BuildLong(name, Checksum(short));
        es := es + [FileEntry(short, cluster, size)];
      } else {
        es := [FileEntry(Encode83(name), cluster, size)];
      }
    }

    /** fat16_write_file once room has been made. */
    method CreateFile(name: seq<byte>, bytes: seq<byte>) returns (ret: int)
      requires Ok() && Sane(g.spc, V()) && FileName(name) && |bytes| < 0x8000_0000
      modifies this
      ensures old(Sane(g.spc, V())) && Became(Create(g.spc, old(V()), name, bytes).vol)
      ensures ret == Create(g.spc, old(V()), name, bytes).ret
    {
      hide FatOf, RootOf, DataOf, Mirrored, Allocate, Allocated, Store, Entries, Place, FirstRun, FirstFit, EntrySlots,
        FileName, StartsOk, IsRun, FreeWalk, IsChain, InArea, InRange;
      ghost var v := V();
      var needed := (|bytes| + g.spc * 512 - 1) / (g.spc * 512);
      if needed == 0 { needed := 1; }
      ghost var a := Allocate(v.fat, needed);
      AllocateMeaning(v.fat, needed);
      AllocationFits(g.spc, v.fat, |bytes|);
      AllocationChain(v.fat, needed);
      var first := AllocChain(needed);
      if first == 0 { return -1; }
      var written := StoreFile(first, bytes, a.cs);
      var es := BuildEntries(name, first, |bytes|);
      EntriesNonEmpty(v.root, name, first, |bytes|);
      var slot := FindFreeSlots(|es|);
      if slot.None? {
        FreeChain(first);
        return -1;
      }
      RunInside(v.root, |es|);
      WriteDirEntries(slot.at, es);
      return written;
    }

    /** fat16_write_file for a name in the root directory. */
    method Write(name: seq<byte>, bytes: seq<byte>) returns (ret: int)
      requires Ok() && Sane(g.spc, V()) && (name == [] || FileName(name)) && |bytes| < 0x8000_0000
      modifies this
      ensures old(Sane(g.spc, V())) && Became(WriteFile(g.spc, old(V()), name, bytes).vol)
      ensures ret == WriteFile(g.spc, old(V()), name, bytes).ret
    {
      hide FatOf, RootOf, DataOf, Mirrored, Create, FileName, StartsOk, FreeWalk, InRange, Erase, ClusterOf, IsDir,
        Live;
      if name == [] { return -1; }
      ghost var v := V();
      MakeRoomSane(g.spc, v, name);
      var existing := FindEntry(name);
      if existing.Some? {
        var e := GetSlot(existing.at);
        if !IsDir(e) {
          SlotStart(v, existing.at);
          FreeChain(ClusterOf(e));
          EraseSlot(existing.at);
        }
      }
      ret := CreateFile(name, bytes);
    }

    method GetSlot(i: nat) returns (e: Slot)
      requires Ok() && i < |V().root|
      ensures e == V().root[i]
    {
      hide FatOf, DataOf, SlotIn, Geo.DataSectors;
      SlotAddress(g, disk, i);
      e := SlotIn(disk[g.RootLba() + i / 16], i % 16);
    }

    /** fat16_delete_file for a name in the root directory. */
    method Delete(name: seq<byte>) returns (ret: int)
      requires Ok() && Sane(g.spc, V())
      modifies this
      ensures old(Sane(g.spc, V())) && Became(DeleteFile(g.spc, old(V()), name).vol)
      ensures ret == DeleteFile(g.spc, old(V()), name).ret
    {
      hide FatOf, RootOf, DataOf, Mirrored, StartsOk, InRange, Erase, ClusterOf, Live;
      ghost var v := V();
      var entry := FindEntry(name);
      if entry.None? { return -1; }
      var e := GetSlot(entry.at);
      SlotStart(v, entry.at);
      if ClusterOf(e) >= 2 { FreeChain(ClusterOf(e)); }
      EraseSlot(entry.at);
      return 0;
    }

    /** fat16_read_file for a name in the root directory. */
    method Read(name: seq<byte>, max: nat) returns (r: Reply)
      requires Ok() && Sane(g.spc, V())
      ensures r == ReadFile(g.spc, V(), name, max)
    {
      hide FatOf, RootOf, DataOf, Mirrored, StartsOk, InRange, ClusterOf, SizeOf, Live, IsDir, ReadAt;
      if name == [] { return Failed; }
      var entry := FindEntry(name);
      if entry.None? { return Failed; }
      var e := GetSlot(entry.at);
      if IsDir(e) { return Failed; }
      SlotStart(V(), entry.at);
      var bytes := LoadFile(ClusterOf(e), Min(SizeOf(e), max));
      return Bytes(bytes);
    }
  }

  lemma SlotStart(v: Vol, i: nat)
    requires StartsOk(v.fat, v.root) && i < |v.root| && Live(v.root[i])
    ensures StartOk(v.fat, ClusterOf(v.root[i]))
  {
  }

  lemma EntriesNonEmpty(root: seq<Slot>, name: seq<byte>, cluster: nat, size: nat)
    ensures Entries(root, name, cluster, size) != []
  {
  }

  lemma RunInside(root: seq<Slot>, count: nat)
    ensures FirstRun(root, count).Some? ==> FirstRun(root, count).at + count <= |root|
  {
  }

  lemma AllocationChain(fat: seq<nat>, n: nat)
    requires InRange(fat) && |fat| >= 2 && n > 0
    ensures var a := Allocate(fat, n);
            a.ok ==> a.cs != [] && IsChain(a.fat, a.cs) && 2 <= a.cs[0] && StartOk(a.fat, a.cs[0]) && InRange(a.fat)
  {
    AllocateMeaning(fat, n);
    var a := Allocate(fat, n);
    if a.ok { assert a.cs[0] in a.cs; }
  }

  lemma SlotAddress(g: Geo, d: Disk, i: nat)
    requires Fits(g, d) && i < 16 * g.rootSectors
    ensures i / 16 < g.rootSectors && g.RootLba() + i / 16 < |d|
    ensures d[g.RootLba() + i / 16] == RootArea(g, d)[i / 16]
            && RootOf(g, d)[i] == SlotIn(d[g.RootLba() + i / 16], i % 16)
  {
    hide SlotIn, Geo.DataSectors;
  }

  lemma NextSlot(k: nat)
    ensures var off := 32 * (k % 16);
            && off / 32 == k % 16
            && if off + 32 >= 512 then (k + 1) / 16 == k / 16 + 1 && (k + 1) % 16 == 0
               else (k + 1) / 16 == k / 16 && 32 * ((k + 1) % 16) == off + 32
  {
  }

  /** Slots [0, i) of the run are stored, once the buffer is written back to its sector. */
  ghost predicate Buffered(g: Geo, d: Disk, lba: nat, off: nat, buf: Sector, v: Vol, f: nat, es: seq<Slot>, i: nat,
                           m: bool) {
    && i < |es| && f + |es| <= |v.root|
    && lba == g.RootLba() + (f + i) / 16 < |d| && off == 32 * ((f + i) % 16)
    && Fits(g, d[lba := buf]) && View(g, d[lba := buf]) == v.(root := Place(v.root, f, es[..i]))
    && (m ==> Mirrored(g, d[lba := buf]))
  }

  lemma MarkDeleted(s: Sector, i: nat)
    requires i < 16
    ensures PutEntry(s, i, SlotIn(s, i)[0 := DELETED]) == s[32 * i := DELETED]
  {
  }

  lemma PlaceNothing(root: seq<Slot>, f: nat, es: seq<Slot>)
    requires f <= |root|
    ensures Place(root, f, es[..0]) == root
  {
  }

  lemma PlaceStep(root: seq<Slot>, f: nat, es: seq<Slot>, i: nat)
    requires i < |es| && f + |es| <= |root|
    ensures Place(root, f, es[..i + 1]) == Place(root, f, es[..i])[f + i := es[i]]
  {
  }

  /** Storing slot i of the run in the buffered sector. */
  lemma BufferSlot(g: Geo, d: Disk, v: Vol, f: nat, es: seq<Slot>, i: nat, buf: Sector)
    requires Fits(g, d) && i < |es| && f + |es| <= 16 * g.rootSectors && |v.root| == 16 * g.rootSectors
    requires g.RootLba() + (f + i) / 16 < |d|
    requires var e := d[g.RootLba() + (f + i) / 16 := buf];
             Fits(g, e) && View(g, e) == v.(root := Place(v.root, f, es[..i]))
    ensures var x := g.RootLba() + (f + i) / 16;
            var b := PutEntry(buf, (f + i) % 16, es[i]);
            var e := d[x := b];
            && Fits(g, e) && View(g, e) == v.(root := Place(v.root, f, es[..i + 1]))
            && (Mirrored(g, d[x := buf]) ==> Mirrored(g, e))
            && es[..|es|] == es
  {
    hide FatOf, DataOf, RootOf, Mirrored, PutEntry, Place, Geo.DataSectors, RootArea;
    var k := f + i;
    var x := g.RootLba() + k / 16;
    var p := d[x := buf];
    SetSlot(g, p, k, es[i]);
    SlotAddress(g, p, k);
    assert p[x] == buf;
    assert p[x := PutEntry(buf, k % 16, es[i])] == d[x := PutEntry(buf, k % 16, es[i])];
    PlaceStep(v.root, f, es, i);
  }

  /** No run of `count` free slots ends at or before k, and the `consecutive` slots in
      front of k are free, preceded by one that is not. */
  ghost predicate Searching(root: seq<Slot>, count: nat, k: nat, consecutive: nat) {
    && consecutive < count && consecutive <= k <= |root|
    && (forall j :: k - consecutive <= j < k ==> IsFree(root[j]))
    && (consecutive < k ==> !IsFree(root[k - consecutive - 1]))
    && (forall f: nat :: f + count <= k ==> !IsRun(root, f, count))
  }

  lemma SearchStart(root: seq<Slot>, count: nat)
    requires count > 0
    ensures Searching(root, count, 0, 0)
  {
  }

  lemma SearchStep(root: seq<Slot>, count: nat, k: nat, consecutive: nat)
    requires Searching(root, count, k, consecutive) && k < |root|
    ensures consecutive <= k
    ensures !IsFree(root[k]) ==> Searching(root, count, k + 1, 0)
    ensures IsFree(root[k]) && consecutive + 1 < count ==> Searching(root, count, k + 1, consecutive + 1)
    ensures IsFree(root[k]) && consecutive + 1 >= count ==> FirstRun(root, count) == Some(k - consecutive)
  {
    hide IsFree, FirstRun;
    if !IsFree(root[k]) {
      forall f: nat | f + count <= k + 1 ensures !IsRun(root, f, count) { assert f <= k < f + count || f + count <= k; }
    } else if consecutive + 1 < count {
      forall f: nat | f + count <= k + 1 ensures !IsRun(root, f, count) { NoRunYet(root, count, k, consecutive, f); }
    } else {
      var r := FirstRun(root, count);
      assert IsRun(root, k - consecutive, count);
      forall f: nat | f < k - consecutive ensures !IsRun(root, f, count) { NoRunYet(root, count, k, consecutive, f); }
    }
  }

  lemma NoRunYet(root: seq<Slot>, count: nat, k: nat, consecutive: nat, f: nat)
    requires Searching(root, count, k, consecutive) && f + count <= k + 1 && f < k - consecutive
    ensures !IsRun(root, f, count)
  {
    assert f + count <= k || f <= k - consecutive - 1 < f + count;
  }

  lemma SearchEnd(root: seq<Slot>, count: nat, consecutive: nat)
    requires Searching(root, count, |root|, consecutive)
    ensures FirstRun(root, count) == None
  {
  }

  /** What a long-name slot does to the collection buffer. */
  method Collect(collecting: bool, buf: seq<byte>, e: Slot) returns (c: bool, b: seq<byte>)
    requires |buf| == MAX_NAME
    ensures |b| == MAX_NAME
    ensures (if c then Long(b) else Idle) == Absorb(if collecting then Long(buf) else Idle, e)
  {
    c, b := collecting, buf;
    var no := SeqNo(e[0]);
    if StartsRun(e[0]) { c, b := true, Cleared(); }
    if c && 1 <= no <= 20 { b := FatNames.PutSlot(b, (no - 1) * 13, e); }
  }

  lemma CollectedStart(root: seq<Slot>)
    ensures Collected(root, 0) == Idle
  {
  }

  lemma RootSlot(g: Geo, d: Disk, s: nat, i: nat)
    requires Fits(g, d) && s < g.rootSectors && i < 16
    ensures g.RootLba() + s < |d| && RootOf(g, d)[16 * s + i] == SlotIn(d[g.RootLba() + s], i)
  {
    hide SlotIn, Geo.DataSectors;
    assert (16 * s + i) / 16 == s && (16 * s + i) % 16 == i;
  }

  /** One step of the lookup. */
  lemma FindStep(root: seq<Slot>, name: seq<byte>, k: nat)
    requires k < |root|
    ensures FindFrom(root, name, k)
            == if root[k][0] == 0 then None else if Answers(root, k, name) then Some(k) else FindFrom(root, name, k + 1)
    ensures Collected(root, k + 1) == Next(Collected(root, k), root[k])
    ensures Answers(root, k, name) <==> Live(root[k])
                                        && (LongMatch(Collected(root, k), name) || SameName(Text83(root[k]), name))
    ensures Live(root[k]) <==> root[k][0] != 0 && root[k][0] != DELETED && root[k][11] != ATTR_LFN
                               && root[k][11] / 8 % 2 == 0
  {
  }

  lemma FindEnd(root: seq<Slot>, name: seq<byte>)
    ensures FindFrom(root, name, |root|) == None
  {
  }

  lemma ReadStart(spc: nat, v: Vol, cs: seq<nat>)
    requires Sane(spc, v) && InArea(|v.fat| - 2, cs)
    ensures SectorCount(0) <= |cs| * spc && Content(spc, |v.fat| - 2, v.data, cs, 0) == []
  {
  }

  lemma MoreClusters(spc: nat, want: nat, i: nat)
    requires spc > 0 && 512 * (i * spc) < want
    ensures i < Clusters(spc, want)
  {
    ClustersHold(spc, want);
    var n := Clusters(spc, want);
    if n <= i { MulMonotone(n, i, spc); }
  }

  lemma VisitStep(fat: seq<nat>, c: nat, n: nat)
    requires InRange(fat) && |fat| >= 2 && 2 <= c < |fat| && n > 0
    ensures StartOk(fat, fat[c]) && Visit(fat, c, n) == [c] + Visit(fat, fat[c], n - 1)
  {
  }

  lemma VisitEnd(fat: seq<nat>, c: nat, n: nat)
    requires InRange(fat) && |fat| >= 2 && StartOk(fat, c)
    ensures !(2 <= c < EOC_MIN) ==> Visit(fat, c, n) == []
  {
  }

  lemma DataSector(g: Geo, d: Disk, cs: seq<nat>, k: nat)
    requires Fits(g, d) && InArea(g.total, cs) && k < |cs| * g.spc
    ensures var x := SectorOf(g.spc, g.total, cs, k);
            g.DataStart() + x < |d| && DataOf(g, d)[x] == d[g.DataStart() + x]
  {
  }

  lemma StoreNothing(spc: nat, clusters: nat, data: seq<Sector>, cs: seq<nat>, bytes: seq<byte>)
    requires spc > 0 && InArea(clusters, cs) && |data| == clusters * spc
    ensures Store(spc, clusters, data, cs, bytes, 0) == data
  {
  }

  lemma StoreStep(g: Geo, d: Disk, data: seq<Sector>, cs: seq<nat>, bytes: seq<byte>, k: nat)
    requires Fits(g, d) && |data| == g.total * g.spc && InArea(g.total, cs) && k < |cs| * g.spc
    requires DataOf(g, d) == Store(g.spc, g.total, data, cs, bytes, k)
    ensures var x := SectorOf(g.spc, g.total, cs, k);
            && x < g.DataSectors() && g.DataStart() + x < |d|
            && var e := d[g.DataStart() + x := Chunk(bytes, k)];
            Fits(g, e) && View(g, e) == View(g, d).(data := Store(g.spc, g.total, data, cs, bytes, k + 1))
              && (Mirrored(g, d) ==> Mirrored(g, e))
  {
    hide FatOf, RootOf, Mirrored, InArea, SectorOf, Chunk;
    SetData(g, d, SectorOf(g.spc, g.total, cs, k), Chunk(bytes, k));
  }

  /** What one pass of the write loop does. */
  lemma StoreSector(g: Geo, d: Disk, data: seq<Sector>, cs: seq<nat>, bytes: seq<byte>, i: nat, s: nat, k: nat, n: nat)
    requires Fits(g, d) && |data| == g.total * g.spc && InArea(g.total, cs) && i < |cs| && s < g.spc
             && k == i * g.spc + s
    requires k <= |cs| * g.spc && DataOf(g, d) == Store(g.spc, g.total, data, cs, bytes, k)
    requires 0 < n <= 512 && 512 * k + n <= |bytes| && (n < 512 ==> 512 * k + n == |bytes|)
    ensures k + 1 <= SectorCount(|bytes|) && k + 1 <= |cs| * g.spc && cs[i] >= 2
            && g.DataStart() + At(g.spc, cs[i], s) < |d|
    ensures var buf: Sector := bytes[512 * k..512 * k + n] + seq(512 - n, _ => 0);
            var e := d[g.DataStart() + At(g.spc, cs[i], s) := buf];
            Fits(g, e) && View(g, e) == View(g, d).(data := Store(g.spc, g.total, data, cs, bytes, k + 1))
              && (Mirrored(g, d) ==> Mirrored(g, e))
  {
    hide View, DataOf, Mirrored, Store, InArea, SectorOf, SectorCount, At;
    SectorInDisk(g, d, cs, i, s);
    SectorAt(g.spc, g.total, cs, i, s);
    StoreSectorAt(g, d, data, cs, bytes, At(g.spc, cs[i], s), k, n);
  }

  lemma StoreSectorAt(g: Geo, d: Disk, data: seq<Sector>, cs: seq<nat>, bytes: seq<byte>, x: nat, k: nat, n: nat)
    requires Fits(g, d) && |data| == g.total * g.spc && InArea(g.total, cs)
    requires k < |cs| * g.spc && x == SectorOf(g.spc, g.total, cs, k)
             && DataOf(g, d) == Store(g.spc, g.total, data, cs, bytes, k)
    requires 0 < n <= 512 && 512 * k + n <= |bytes| && (n < 512 ==> 512 * k + n == |bytes|)
    ensures k + 1 <= SectorCount(|bytes|) && g.DataStart() + x < |d|
    ensures var buf: Sector := bytes[512 * k..512 * k + n] + seq(512 - n, _ => 0);
            var e := d[g.DataStart() + x := buf];
            Fits(g, e) && View(g, e) == View(g, d).(data := Store(g.spc, g.total, data, cs, bytes, k + 1))
              && (Mirrored(g, d) ==> Mirrored(g, e))
  {
    hide FatOf, RootOf, DataOf, Mirrored, Store, InArea, SectorOf, Chunk, SectorCount;
    BufferIsChunk(bytes, k, n);
    SectorsLeft(|bytes|, k);
    StoreStep(g, d, data, cs, bytes, k);
  }

  lemma FitsSpc(g: Geo, d: Disk)
    requires Fits(g, d)
    ensures 0 < g.spc < 256
  {
  }

  lemma SectorInDisk(g: Geo, d: Disk, cs: seq<nat>, i: nat, s: nat)
    requires Fits(g, d) && InArea(g.total, cs) && i < |cs| && s < g.spc
    ensures cs[i] >= 2 && g.DataStart() + At(g.spc, cs[i], s) < |d|
  {
    AtInArea(g.spc, g.total, cs[i], s);
  }

  lemma ChainNext(fat: seq<nat>, cs: seq<nat>, i: nat)
    requires IsChain(fat, cs) && i < |cs|
    ensures 2 <= cs[i] < |fat| && if i + 1 < |cs| then fat[cs[i]] == cs[i + 1] else fat[cs[i]] >= EOC_MIN
  {
    assert LinkOk(fat, cs, i);
  }

  lemma NothingAllocated(fat: seq<nat>)
    requires |fat| >= 2
    ensures Allocate(fat, 0) == Allocation(true, fat, [])
  {
  }

  lemma {:induction false} AllocateStuck(fat: seq<nat>, i: nat, n: nat)
    requires |fat| >= 2 && i <= n && !Allocate(fat, i).ok
    ensures Allocate(fat, n) == Allocate(fat, i)
  {
    if i < n { AllocateStuck(fat, i, n - 1); }
  }

  lemma FreeNothing(fat: seq<nat>, c: nat)
    requires InRange(fat) && StartOk(fat, c) && !(2 <= c < EOC_MIN)
    ensures FreeWalk(fat, c) == fat
  {
  }

  /** One more round of the allocation loop. */
  lemma AllocateStep(fat: seq<nat>, n: nat)
    requires InRange(fat) && |fat| >= 2 && Allocate(fat, n).ok
    ensures InRange(Allocate(fat, n).fat)
    ensures var a := Allocate(fat, n); var c := FirstFree(a.fat, 2); var b := Allocate(fat, n + 1);
            if c == |fat| then b == a.(ok := false)
            else b.ok && b.cs == a.cs + [c] && b.fat == if n == 0 then a.fat[c := EOC]
                else a.fat[c := EOC][a.cs[n - 1] := c]
  {
    AllocateMeaning(fat, n);
  }

  lemma IndexOf(spc: nat, i: nat, s: nat)
    requires s < spc
    ensures Index(spc, i * spc + s) == i && Rest(spc, i * spc + s) == s
  {
    var k := i * spc + s;
    assert k == (k / spc) * spc + k % spc;
    if k / spc < i { MulMonotone(k / spc + 1, i, spc); }
    if k / spc > i { MulMonotone(i + 1, k / spc, spc); }
  }

  lemma BelowClusters(spc: nat, i: nat, s: nat, n: nat)
    requires i < n && s < spc
    ensures i * spc + s < n * spc
  {
    MulMonotone(i + 1, n, spc);
  }

  /** Sector s of the i-th cluster is file sector i * spc + s. */
  lemma SectorAt(spc: nat, clusters: nat, cs: seq<nat>, i: nat, s: nat)
    requires InArea(clusters, cs) && i < |cs| && s < spc
    ensures i * spc + s < |cs| * spc
    ensures SectorOf(spc, clusters, cs, i * spc + s) == At(spc, cs[i], s)
  {
    hide Index, Rest, At, InArea;
    BelowClusters(spc, i, s, |cs|);
    IndexOf(spc, i, s);
  }

  /** The sector buffer of the write loop: cleared, then filled with the next bytes. */
  lemma BufferIsChunk(bytes: seq<byte>, k: nat, n: nat)
    requires 512 * k + n <= |bytes| && n <= 512 && (n < 512 ==> 512 * k + n == |bytes|)
    ensures bytes[512 * k..512 * k + n] + seq(512 - n, _ => 0) == Chunk(bytes, k)
  {
  }

  lemma SectorsLeft(n: nat, k: nat)
    ensures 512 * k < n ==> k + 1 <= SectorCount(n)
    ensures n <= 512 * k ==> SectorCount(n) <= k
  {
  }

  /** Reading one more sector. */
  lemma ContentGrows(spc: nat, clusters: nat, data: seq<Sector>, cs: seq<nat>, k: nat, n: nat)
    requires spc > 0 && InArea(clusters, cs) && |data| == clusters * spc && k < |cs| * spc && 1 <= n <= 512
    requires SectorCount(512 * k) <= |cs| * spc && SectorCount(512 * k + n) <= |cs| * spc
    ensures Content(spc, clusters, data, cs, 512 * k + n)
            == Content(spc, clusters, data, cs, 512 * k) + data[SectorOf(spc, clusters, cs, k)][..n]
  {
    hide SectorOf, InArea, SectorCount;
    var a, b := Content(spc, clusters, data, cs, 512 * k + n), Content(spc, clusters, data, cs, 512 * k);
    forall i | 0 <= i < 512 * k + n ensures a[i] == (b + data[SectorOf(spc, clusters, cs, k)][..n])[i] {
      ByteSector(512 * k + n, i);
      if i < 512 * k { ByteSector(512 * k, i); } else { assert i / 512 == k && i % 512 == i - 512 * k; }
    }
  }

}
