/** What deleting a file leaves behind (src/fat16.c): its clusters are free again, but the
    long-name slots in front of its entry stay, and the next 8.3 file stored in the freed
    slot answers to the deleted name. */
module FatStaleNames {
  import opened Bits
  import opened Search
  import opened FatChains
  import opened FatData
  import opened FatNames
  import opened FatDirectory
  import opened FatVolume
  import opened FatTheorems
  import opened FatReadWrite
  import opened FatShortNames

  /** A long name that can be stored and found again. */
  ghost predicate Findable(name: seq<byte>) {
    FileName(name) && Plain(name) && NeedsLong(name) && name != [] && FirstByte(name) != DELETED
  }

  // ---- write, then delete -----------------------------------------------------------------

  /** The directory after a long-named file was stored at slot f and deleted again. */
  ghost predicate LeftBehind(root: seq<Slot>, r: seq<Slot>, f: nat, name: seq<byte>, sum: byte, e: Slot) {
    var run := LongRun(name, sum);
    && EntrySlots(run + [e]) && FirstFit(root, |run| + 1, Some(f)) && f + |run| < |root|
    && r == Erase(Place(root, f, run + [e]), f + |run|)
  }

  /** Deleting a file just written restores the allocation table exactly, and the name is
      no longer found; of the directory slots only the last one is free again. */
  lemma WriteThenDelete(spc: nat, v: Vol, name: seq<byte>, bytes: seq<byte>) returns (w: Written)
    requires Sane(spc, v) && EndClosed(v.root) && Findable(name) && |bytes| < 0x8000_0000
    requires Find(v.root, name).None? && WriteFile(spc, v, name, bytes).ret >= 0
    ensures var v1 := WriteFile(spc, v, name, bytes).vol;
            Sane(spc, v1) &&
            var out := DeleteFile(spc, v1, name);
            && out.ret == 0 && out.vol.fat == v.fat && Sane(spc, out.vol) && EndClosed(out.vol.root)
            && w.es != []
            && LeftBehind(v.root, out.vol.root, w.f, name, Checksum(StoredShort(v.root, name)), w.es[|w.es| - 1])
            && forall m :: Find(v.root, m).None? ==> Find(out.vol.root, m).None?
  {
    hide Create, FileName, Plain, NeedsLong, FirstByte, Sane, EndClosed, EntryPlace, Allocate, Needed, Holds, Stored,
      Place, Find, ClusterOf, Erase, FreeWalk, StartOk, LeftBehind, Checksum, StoredShort, InRange, Live;
    SanePositive(spc, v);
    w := CreateParts(spc, v, name, bytes);
    var v1 := WriteFile(spc, v, name, bytes).vol;
    CreateSane(spc, v, name, bytes);
    WrittenIsFound(v, name, bytes, w);
    FoundIsLive(v1.root, name);
    TableRestored(spc, v, name, bytes, w);
    DeleteSane(spc, v1, name);
    DirectoryLeft(v, name, bytes, w);
  }

  lemma DirectoryLeft(v: Vol, name: seq<byte>, bytes: seq<byte>, w: Written)
    requires EntryPlace(v, name, bytes, w) && EndClosed(v.root) && NeedsLong(name)
    requires w.es != [] && w.f + |w.es| <= |v.root| && Live(Place(v.root, w.f, w.es)[w.f + |w.es| - 1])
    ensures var r := Erase(Place(v.root, w.f, w.es), w.f + |w.es| - 1);
            && EndClosed(r) && LeftBehind(v.root, r, w.f, name, Checksum(StoredShort(v.root, name)), w.es[|w.es| - 1])
            && forall m :: Find(v.root, m).None? ==> Find(r, m).None?
  {
    hide NeedsLong, EndClosed, EntryPlace, Place, Find, FirstFit, EntrySlots, IsRun, Erase, Live, LongRun, Checksum,
      StoredShort;
    var r, k := Place(v.root, w.f, w.es), w.f + |w.es| - 1;
    PlaceEnd(v, name, bytes, w);
    StoredAsRun(v, name, bytes, w);
    PlaceKeepsClosed(v.root, w.f, w.es);
    EraseKeepsClosed(r, k) by { LiveNotEnd(r[k]); }
    forall m | Find(v.root, m).None? ensures Find(Erase(r, k), m).None? { GoneAgain(v.root, w.f, w.es, m); }
  }

  lemma TableRestored(spc: nat, v: Vol, name: seq<byte>, bytes: seq<byte>, w: Written)
    requires Sane(spc, v) && spc > 0 && FileName(name) && name != [] && FirstByte(name) != DELETED
             && |bytes| < 0x1_0000_0000
    requires w.a == Allocate(v.fat, Needed(spc, |bytes|)) && w.a.ok && Holds(spc, v, w.a, bytes)
             && EntryPlace(v, name, bytes, w)
    ensures w.es != [] && InRange(w.a.fat)
    ensures var c := ClusterOf(w.es[|w.es| - 1]); StartOk(w.a.fat, c) && FreeWalk(w.a.fat, c) == v.fat
  {
    hide FileName, FirstByte, Sane, EntryPlace, Allocate, Needed, Holds, ClusterOf, SizeOf, IsDir, FirstFit, FreeWalk,
      InRange;
    PlaceEnd(v, name, bytes, w);
    HoldsStart(spc, v, w.a, bytes);
    NewEntry(v, name, bytes, w);
    SaneFat(spc, v);
    ReleaseUndoesAllocate(v.fat, Needed(spc, |bytes|));
  }

  lemma SanePositive(spc: nat, v: Vol)
    requires Sane(spc, v)
    ensures spc > 0
  {
  }

  lemma DeleteSane(spc: nat, v: Vol, name: seq<byte>)
    requires Sane(spc, v)
    ensures Sane(spc, DeleteFile(spc, v, name).vol)
  {
    ApplySane(spc, v, Delete(name));
  }

  lemma StoredAsRun(v: Vol, name: seq<byte>, bytes: seq<byte>, w: Written)
    requires EntryPlace(v, name, bytes, w) && NeedsLong(name)
    ensures w.es != [] && w.es == LongRun(name, Checksum(StoredShort(v.root, name))) + [w.es[|w.es| - 1]]
  {
    hide NeedsLong, LongRun, Checksum, StoredShort, FileEntry, FirstFit, EntrySlots;
  }

  /** A name nobody answered to is not found after storing an entry and erasing it. */
  lemma GoneAgain(root: seq<Slot>, f: nat, es: seq<Slot>, m: seq<byte>)
    requires EndClosed(root) && es != [] && EntrySlots(es) && FirstFit(root, |es|, Some(f)) && f + |es| <= |root|
    requires Live(Place(root, f, es)[f + |es| - 1]) && Find(root, m).None?
    ensures Find(Erase(Place(root, f, es), f + |es| - 1), m).None?
  {
    hide EndClosed, EntrySlots, FirstFit, Find, Answers, Live, Place, Erase;
    var r, k := Place(root, f, es), f + |es| - 1;
    NoAnswerNotFound(root, m);
    forall j | 0 <= j < |r| ensures !Answers(Erase(r, k), j, m) {
      EraseKeepsOthers(r, k, j, m);
      if j != k { PlaceKeepsOthers(root, f, es, j, m); }
    }
    PlaceKeepsClosed(root, f, es);
    EraseKeepsClosed(r, k) by { LiveNotEnd(r[k]); }
    NoAnswerNotFound(Erase(r, k), m);
  }

  lemma LiveNotEnd(e: Slot)
    requires Live(e)
    ensures e[0] != 0
  {
  }

  // ---- the next 8.3 file ------------------------------------------------------------------

  /** A directory in which nothing has been deleted. */
  ghost predicate Compact(root: seq<Slot>) {
    forall i :: 0 <= i < |root| ==> root[i][0] != DELETED
  }

  /** In such a directory everything in front of the first long enough run is in use. */
  lemma NoEarlierSlot(root: seq<Slot>, f: nat, count: nat, g: nat)
    requires EndClosed(root) && Compact(root) && FirstFit(root, count, Some(f)) && g < f
    ensures !IsFree(root[g])
  {
    if IsFree(root[g]) {
      assert forall j :: g <= j < g + count ==> IsFree(root[j]);
      assert IsRun(root, g, count);
    }
  }

  /** First fit for one slot then chooses the slot the deletion has freed. */
  lemma FreedSlotIsNext(root: seq<Slot>, r: seq<Slot>, f: nat, name: seq<byte>, sum: byte, e: Slot)
    requires EndClosed(root) && Compact(root) && LeftBehind(root, r, f, name, sum, e)
    ensures f + |LongRun(name, sum)| < |r| && FirstFit(r, 1, Some(f + |LongRun(name, sum)|))
  {
    hide LongRun, EndClosed, Compact, FirstFit;
    var run := LongRun(name, sum);
    var k := f + |run|;
    forall g: nat | g < k ensures !IsRun(r, g, 1) {
      assert r[g] == Place(root, f, run + [e])[g];
      if g < f { NoEarlierSlot(root, f, |run| + 1, g); } else { assert r[g] == (run + [e])[g - f]; }
      OneSlot(r, g);
    }
    OneSlot(r, k);
    AtFirst(r, k);
  }

  lemma OneSlot(r: seq<Slot>, g: nat)
    requires g < |r|
    ensures IsRun(r, g, 1) <==> IsFree(r[g])
  {
  }

  lemma AtFirst(r: seq<Slot>, k: nat)
    requires k < |r| && IsRun(r, k, 1) && forall g: nat :: g < k ==> !IsRun(r, g, 1)
    ensures FirstFit(r, 1, Some(k))
  {
  }

  lemma SameFit(r: seq<Slot>, count: nat, a: nat, b: nat)
    requires FirstFit(r, count, Some(a)) && FirstFit(r, count, Some(b))
    ensures a == b
  {
    assert IsRun(r, a, count) && IsRun(r, b, count);
  }

  /** In front of that slot the deleted name is still collected. */
  lemma StaleRunCollected(root: seq<Slot>, r: seq<Slot>, f: nat, name: seq<byte>, sum: byte, e: Slot)
    requires FileName(name) && Plain(name) && LeftBehind(root, r, f, name, sum, e)
    ensures f + |LongRun(name, sum)| <= |r| && LongMatch(Collected(r, f + |LongRun(name, sum)|), name)
  {
    hide LongRun, EntrySlots, FirstFit, Collected, LongMatch, Plain, FileName;
    var run := LongRun(name, sum);
    assert r[f..f + |run|] == run;
    RunIsCollected(r, f, name, sum);
  }

  /** On every volume in which nothing has been deleted yet: write a file under a long
      name, delete it, write another file under an 8.3 name.  Reading the deleted name
      then returns the other file's bytes. */
  lemma StaleRunRenames(spc: nat, v: Vol, long: seq<byte>, b1: seq<byte>, name: seq<byte>, b2: seq<byte>, max: nat)
    requires Sane(spc, v) && EndClosed(v.root) && Compact(v.root)
    requires Findable(long) && |b1| < 0x8000_0000 && Find(v.root, long).None?
    requires FileName(name) && !NeedsLong(name) && |b2| < 0x8000_0000 && Find(v.root, name).None?
    requires WriteFile(spc, v, long, b1).ret >= 0
    ensures name != [] && Sane(spc, WriteFile(spc, v, long, b1).vol)
    ensures var del := DeleteFile(spc, WriteFile(spc, v, long, b1).vol, long);
            del.ret == 0 && Sane(spc, del.vol) && ReadFile(spc, del.vol, long, max) == Failed
            && var out := WriteFile(spc, del.vol, name, b2);
               Sane(spc, out.vol)
               && (out.ret >= 0 && FirstByte(name) != DELETED ==>
                     ReadFile(spc, out.vol, long, max) == Bytes(b2[..Min(|b2|, max)]))
  {
    hide Create, FileName, Plain, NeedsLong, FirstByte, Sane, EndClosed, LeftBehind, Compact, ReadFile, Find, LongRun,
      Collected, LongMatch, NewAnswers, DeleteFile, Checksum, StoredShort;
    var w := WriteThenDelete(spc, v, long, b1);
    var v2 := DeleteFile(spc, WriteFile(spc, v, long, b1).vol, long).vol;
    var sum, e := Checksum(StoredShort(v.root, long)), w.es[|w.es| - 1];
    NotFoundFails(spc, v2, long, max);
    FirstByteNonZero(name);
    CreateSane(spc, v2, name, b2);
    if Create(spc, v2, name, b2).ret >= 0 {
      var f := CreateThenReadShort(spc, v2, name, b2, long, max);
      FreedSlotIsNext(v.root, v2.root, w.f, long, sum, e);
      SameFit(v2.root, 1, f, w.f + |LongRun(long, sum)|);
      StaleRunCollected(v.root, v2.root, w.f, long, sum, e);
      AnswersStale(v2.root, f, name, long);
    }
  }

  lemma AnswersStale(root: seq<Slot>, f: nat, name: seq<byte>, m: seq<byte>)
    requires name != [] && f <= |root| && LongMatch(Collected(root, f), m)
    ensures NewAnswers(root, f, name, m) <==> FirstByte(name) != DELETED
  {
  }

  // ---- such a volume ------------------------------------------------------------------------

  /** When there is a free cluster for a short file and a run of slots, the write succeeds. */
  lemma CreateWorks(spc: nat, v: Vol, name: seq<byte>, b: byte, g: nat)
    requires Sane(spc, v) && |v.fat| > 2 && v.fat[2] == 0
    requires IsRun(v.root, g, |StoredRun(v.root, name)| + 1)
    ensures Create(spc, v, name, [b]).ret == 1
  {
    hide StoredRun, FileEntry, Store, InRange, StartsOk, IsRun;
    var n := Needed(spc, 1);
    assert n == 1;
    AllocateMeaning(v.fat, 1);
    AllocationFits(spc, v.fat, 1);
    OneCluster(v.fat);
  }

  lemma OneCluster(fat: seq<nat>)
    requires |fat| > 2 && fat[2] == 0
    ensures Allocate(fat, 1).ok
  {
    assert FirstFree(fat, 2) == 2;
    assert Allocate(fat, 0).ok;
  }

  /** An empty volume: two clusters of one sector, three directory slots. */
  function EmptyVol(): Vol {
    Vol([0xFFF8, 0xFFFF, 0, 0], [Blank(), Blank(), Blank()], [Zeroed(), Zeroed()])
  }

  function Blank(): (e: Slot) ensures e[0] == 0 { seq(32, _ => 0) }
  function Zeroed(): Sector { seq(512, _ => 0) }

  lemma EmptyVolOk()
    ensures Inv(1, EmptyVol(), map[]) && Compact(EmptyVol().root)
    ensures forall m :: Find(EmptyVol().root, m).None?
  {
    var v := EmptyVol();
    hide Owns, ClusterOf;
    assert Owns(v.fat, map[]) by { NoOwners(v.fat); }
    assert forall i: nat :: i < |v.root| ==> OwnerOk(v.root, map[], i);
  }

  lemma NoOwners(fat: seq<nat>)
    requires InRange(fat) && |fat| >= 2 && forall c :: 2 <= c < |fat| ==> fat[c] == 0
    ensures Owns(fat, map[])
  {
  }

  /** Write "a", delete it, write "B": "a" now reads the contents of "B". */
  lemma StaleRunExample(x: byte, y: byte)
    ensures var v := EmptyVol();
            Inv(1, v, map[]) && Sane(1, v)
            && var w1 := WriteFile(1, v, [0x61], [x]);
               w1.ret == 1 && Sane(1, w1.vol)
               && var d := DeleteFile(1, w1.vol, [0x61]);
                  d.ret == 0 && Sane(1, d.vol)
                  && var w2 := WriteFile(1, d.vol, [0x42], [y]);
                     w2.ret == 1 && Sane(1, w2.vol) && ReadFile(1, w2.vol, [0x61], 1) == Bytes([y])
  {
    hide Inv, Sane, Create, LongRun, Find, NeedsLong, FirstByte, ReadFile, LeftBehind, Compact, StoredRun, EmptyVol,
      DeleteFile;
    var v := EmptyVol();
    EmptyVolOk();
    InvParts(1, v, map[]);
    SmallNames();
    var a: seq<byte>, b: seq<byte> := [0x61], [0x42];
    StoresOne(v.root);
    BlankRun();
    CreateWorks(1, v, a, x, 0);
    var w := WriteThenDelete(1, v, a, [x]);
    var v2 := DeleteFile(1, WriteFile(1, v, a, [x]).vol, a).vol;
    StoresOne(v2.root);
    FreedSlotIsNext(v.root, v2.root, w.f, a, Checksum(StoredShort(v.root, a)), w.es[|w.es| - 1]);
    CreateWorks(1, v2, b, y, w.f + |LongRun(a, Checksum(StoredShort(v.root, a)))|);
    StaleRunRenames(1, v, a, [x], b, [y], 1);
    assert [y][..Min(1, 1)] == [y];
  }

  lemma SmallNames()
    ensures var a: seq<byte> := [0x61]; Findable(a) && LongCount(a) == 1
    ensures var b: seq<byte> := [0x42]; FileName(b) && !NeedsLong(b) && FirstByte(b) != DELETED
  {
    var a: seq<byte>, b: seq<byte> := [0x61], [0x42];
    assert Special(a[0]) && Base(a) == a && Usable(a) == [0x41];
    assert Base(b) == b && Ext(b) == [] && !Special(b[0]);
  }

  lemma StoresOne(root: seq<Slot>)
    ensures |StoredRun(root, [0x61])| == 1 && StoredRun(root, [0x42]) == []
  {
    SmallNames();
  }

  lemma BlankRun()
    ensures IsRun(EmptyVol().root, 0, 2) && EmptyVol().fat[2] == 0 && |EmptyVol().fat| > 2
  {
  }
}
