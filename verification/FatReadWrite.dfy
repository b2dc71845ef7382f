/** A written file reads back, the others stay as they were, and the one kind of name for
    which neither the file nor its clusters can be found again (src/fat16.c). */
module FatReadWrite {
  import opened Bits
  import opened Strings
  import opened Search
  import opened FatChains
  import opened FatData
  import opened FatNames
  import opened FatDirectory
  import opened FatVolume
  import opened FatTheorems

  // ---- the other files ------------------------------------------------------------------

  /** The data area is as before, or differs by the sectors of one chain apart from cs. */
  ghost predicate DataKept(spc: nat, v: Vol, data: seq<Sector>, cs: seq<nat>, a: seq<nat>, bytes: seq<byte>, k: nat) {
    || data == v.data
    || (|v.fat| >= 2 && spc > 0 && InArea(|v.fat| - 2, a) && |v.data| == (|v.fat| - 2) * spc && k <= |a| * spc
        && data == Store(spc, |v.fat| - 2, v.data, a, bytes, k) && Apart(cs, a))
  }

  lemma VisitedPrefix(fat: seq<nat>, cs: seq<nat>, n: nat)
    requires InRange(fat) && |fat| >= 2 && IsChain(fat, cs)
    ensures cs[0] < |fat| && Visit(fat, cs[0], n) == cs[..Min(n, |cs|)] && InArea(|fat| - 2, cs)
  {
    VisitChain(fat, cs, 0, n);
    ChainInArea(fat, cs);
  }

  lemma ApartPrefix(cs: seq<nat>, m: nat, a: seq<nat>)
    requires Apart(cs, a) && m <= |cs|
    ensures Apart(cs[..m], a)
  {
  }

  /** A chain that is in both tables reads the same. */
  lemma ReadSame(spc: nat, v: Vol, w: Vol, cs: seq<nat>, want: nat, a: seq<nat>, bytes: seq<byte>, k: nat)
    requires Sane(spc, v) && Sane(spc, w) && |w.fat| == |v.fat|
    requires IsChain(v.fat, cs) && IsChain(w.fat, cs) && DataKept(spc, v, w.data, cs, a, bytes, k)
    ensures cs[0] < |v.fat|
    ensures ReadAt(spc, w, cs[0], want) == ReadAt(spc, v, cs[0], want)
  {
    hide IsChain, InRange, InArea, StartsOk, Store, Content, Apart, Visit, Clusters;
    var n := Clusters(spc, want);
    VisitedPrefix(v.fat, cs, n);
    VisitedPrefix(w.fat, cs, n);
    var m := Min(n, |cs|);
    var bytesRead := Min(want, m * spc * 512);
    SectorsFit(bytesRead, m * spc);
    if w.data != v.data {
      ApartPrefix(cs, m, a);
      StoreKeepsOthers(spc, |v.fat| - 2, v.data, a, bytes, k, cs[..m], bytesRead);
    }
  }

  lemma ReadNothing(spc: nat, v: Vol, c: nat, want: nat)
    requires Sane(spc, v) && StartOk(v.fat, c) && !(2 <= c < EOC_MIN)
    ensures ReadAt(spc, v, c, want) == []
  {
    assert Visit(v.fat, c, Clusters(spc, want)) == [];
  }

  /** What the slot j of a live file reads. */
  lemma SlotReadSame(spc: nat, v: Vol, w: Vol, chains: map<nat, seq<nat>>, j: nat, want: nat, a: seq<nat>,
                     bytes: seq<byte>, k: nat)
    requires Inv(spc, v, chains) && Sane(spc, w) && |w.fat| == |v.fat| && j < |v.root| && Live(v.root[j])
    requires j in chains ==> IsChain(w.fat, chains[j]) && DataKept(spc, v, w.data, chains[j], a, bytes, k)
    ensures StartOk(v.fat, ClusterOf(v.root[j]))
    ensures ReadAt(spc, w, ClusterOf(v.root[j]), want) == ReadAt(spc, v, ClusterOf(v.root[j]), want)
  {
    hide ClusterOf, Live, InRange, EndClosed, ReadAt, IsChain, DataKept, PairwiseApart, CoversUsed;
    StartOf(v, j);
    assert OwnerOk(v.root, chains, j);
    if j in chains {
      assert IsChain(v.fat, chains[j]);
      ReadSame(spc, v, w, chains[j], want, a, bytes, k);
    } else {
      ReadNothing(spc, v, ClusterOf(v.root[j]), want);
      ReadNothing(spc, w, ClusterOf(v.root[j]), want);
    }
  }

  lemma InvParts(spc: nat, v: Vol, chains: map<nat, seq<nat>>)
    requires Inv(spc, v, chains)
    ensures Sane(spc, v) && EndClosed(v.root) && Owns(v.fat, chains) && OwnersOk(v.root, chains)
  {
  }

  lemma OwnedChain(fat: seq<nat>, chains: map<nat, seq<nat>>, j: nat)
    requires Owns(fat, chains) && j in chains
    ensures IsChain(fat, chains[j])
  {
  }

  lemma DeleteKeepsOther(spc: nat, v: Vol, chains: map<nat, seq<nat>>, i: nat, j: nat, want: nat)
    requires Inv(spc, v, chains) && i < |v.root| && Live(v.root[i]) && j < |v.root| && Live(v.root[j]) && j != i
    ensures Sane(spc, v) && StartOk(v.fat, ClusterOf(v.root[j]))
    ensures var w := DeleteAt(spc, v, i);
            Sane(spc, w) && |w.fat| == |v.fat| && w.root == Erase(v.root, i) && w.root[j] == v.root[j]
            && ReadAt(spc, w, ClusterOf(v.root[j]), want) == ReadAt(spc, v, ClusterOf(v.root[j]), want)
  {
    hide Inv, ClusterOf, Live, ReadAt, IsChain, Owns, OwnersOk, EndClosed, FreeWalk, Erase;
    InvParts(spc, v, chains);
    DeleteKeeps(spc, v, chains, i);
    InvParts(spc, DeleteAt(spc, v, i), chains - {i});
    StartOf(v, i);
    if j in chains { OwnedChain(DeleteAt(spc, v, i).fat, chains - {i}, j); }
    SlotReadSame(spc, v, DeleteAt(spc, v, i), chains, j, want, [], [], 0);
  }

  lemma CreateKeepsOther(spc: nat, v: Vol, name: seq<byte>, bytes: seq<byte>, chains: map<nat, seq<nat>>, j: nat,
                         want: nat)
    requires Inv(spc, v, chains) && FileName(name) && |bytes| < 0x1_0000_0000 && j < |v.root| && Live(v.root[j])
    ensures Sane(spc, v) && StartOk(v.fat, ClusterOf(v.root[j]))
    ensures var w := Create(spc, v, name, bytes).vol;
            Sane(spc, w) && |w.fat| == |v.fat|
            && ReadAt(spc, w, ClusterOf(v.root[j]), want) == ReadAt(spc, v, ClusterOf(v.root[j]), want)
  {
    hide Inv, ClusterOf, Live, ReadAt, IsChain, Owns, OwnersOk, EndClosed, FileName, Create, StartsOk, InRange,
      Allocate, Needed;
    InvParts(spc, v, chains);
    StartOf(v, j);
    CreateSane(spc, v, name, bytes);
    AllocateMeaning(v.fat, Needed(spc, |bytes|));
    AllocationFits(spc, v.fat, |bytes|);
    var a := Allocate(v.fat, Needed(spc, |bytes|));
    var w := Create(spc, v, name, bytes).vol;
    if j in chains {
      AllocateApart(v.fat, chains, a, j);
      OwnedChain(v.fat, chains, j);
    }
    CreateFat(spc, v, name, bytes);
    CreateData(spc, v, name, bytes, if j in chains then chains[j] else []);
    SlotReadSame(spc, v, w, chains, j, want, a.cs, bytes, SectorCount(|bytes|));
  }

  lemma CreateFat(spc: nat, v: Vol, name: seq<byte>, bytes: seq<byte>)
    requires Sane(spc, v) && FileName(name)
    ensures var w := Create(spc, v, name, bytes).vol;
            w.fat == v.fat || w.fat == Allocate(v.fat, Needed(spc, |bytes|)).fat
  {
    hide Create, Allocate, FileName, InRange, Needed, StartsOk;
    if Create(spc, v, name, bytes).ret < 0 { FailureFreesAll(spc, v, name, bytes); }
    else { var w := CreateParts(spc, v, name, bytes); }
  }

  lemma CreateData(spc: nat, v: Vol, name: seq<byte>, bytes: seq<byte>, cs: seq<nat>)
    requires Sane(spc, v) && Apart(cs, Allocate(v.fat, Needed(spc, |bytes|)).cs)
    ensures DataKept(spc, v, Create(spc, v, name, bytes).vol.data, cs, Allocate(v.fat, Needed(spc, |bytes|)).cs, bytes,
                     SectorCount(|bytes|))
  {
    AllocateMeaning(v.fat, Needed(spc, |bytes|));
    AllocationFits(spc, v.fat, |bytes|);
    hide Allocate, Allocated, Store, Entries, Place, GiveBack, FirstFit, FirstRun, InRange, StartsOk, Apart, InArea,
      Needed;
  }

  lemma CreateKeepsSlot(spc: nat, v: Vol, name: seq<byte>, bytes: seq<byte>, j: nat, m: seq<byte>)
    requires Sane(spc, v) && EndClosed(v.root) && FileName(name) && j < |v.root| && Live(v.root[j])
    ensures var r := Create(spc, v, name, bytes).vol.root;
            |r| == |v.root| && r[j] == v.root[j] && (Answers(r, j, m) <==> Answers(v.root, j, m))
  {
    hide Create, Allocate, FileName, Needed, Sane, EntryPlace, Answers, EntrySlots, EndClosed, Place, FirstFit, IsRun,
      Live;
    if Create(spc, v, name, bytes).ret < 0 { FailureFreesAll(spc, v, name, bytes); }
    else {
      var w := CreateParts(spc, v, name, bytes);
      PlaceEnd(v, name, bytes, w);
      LiveOutside(v.root, w.f, |w.es|, j);
      PlaceKeepsOthers(v.root, w.f, w.es, j, m);
    }
  }

  lemma LiveOutside(root: seq<Slot>, f: nat, count: nat, j: nat)
    requires IsRun(root, f, count) && j < |root| && Live(root[j])
    ensures !(f <= j < f + count)
  {
  }

  /** Writing a file, whether it succeeds or not, leaves every other live file where it
      is: same slot, same bytes, answering to the same names. */
  lemma OthersUntouched(spc: nat, v: Vol, name: seq<byte>, bytes: seq<byte>, chains: map<nat, seq<nat>>, j: nat,
                        want: nat, m: seq<byte>)
    requires Inv(spc, v, chains) && FileName(name) && |bytes| < 0x8000_0000
    requires j < |v.root| && Live(v.root[j]) && (Find(v.root, name) == Some(j) ==> IsDir(v.root[j]))
    ensures Sane(spc, v) && StartOk(v.fat, ClusterOf(v.root[j]))
    ensures var w := WriteFile(spc, v, name, bytes).vol;
            Sane(spc, w) && |w.fat| == |v.fat| && |w.root| == |v.root|
            && w.root[j] == v.root[j] && (Answers(w.root, j, m) <==> Answers(v.root, j, m))
            && ReadAt(spc, w, ClusterOf(v.root[j]), want) == ReadAt(spc, v, ClusterOf(v.root[j]), want)
  {
    hide Inv, ClusterOf, Live, IsDir, ReadAt, FileName, Create, Answers, DeleteAt, EndClosed, Owns, OwnersOk, Sane,
      StartOk;
    assert name != [] by { FirstByteNonZero(name); }
    InvParts(spc, v, chains);
    var room := MakeRoom(spc, v, name);
    var rest := RoomChains(spc, v, name, chains);
    MakeRoomKeeps(spc, v, name, chains);
    InvParts(spc, room, rest);
    if Find(v.root, name).Some? && !IsDir(v.root[Find(v.root, name).at]) {
      var i := Find(v.root, name).at;
      FoundIsLive(v.root, name);
      DeleteKeepsOther(spc, v, chains, i, j, want);
      EraseKeepsOthers(v.root, i, j, m);
    } else {
      StartOf(v, j) by { SaneStarts(spc, v); }
    }
    CreateKeepsOther(spc, room, name, bytes, rest, j, want);
    CreateKeepsSlot(spc, room, name, bytes, j, m);
  }

  lemma SaneStarts(spc: nat, v: Vol)
    requires Sane(spc, v)
    ensures StartsOk(v.fat, v.root)
  {
  }

  // ---- write, then read -------------------------------------------------------------------

  /** The only entry that may answer to the name is the regular file about to be replaced. */
  ghost predicate NobodyElse(root: seq<Slot>, name: seq<byte>) {
    forall j :: 0 <= j < |root| && Answers(root, j, name) ==> Find(root, name) == Some(j) && !IsDir(root[j])
  }

  lemma RoomMade(spc: nat, v: Vol, name: seq<byte>)
    requires Sane(spc, v) && EndClosed(v.root) && NobodyElse(v.root, name)
    ensures Find(MakeRoom(spc, v, name).root, name) == None
  {
    hide Answers, ClusterOf, FreeWalk, Live, IsDir, Sane, EndClosed;
    SaneStarts(spc, v);
    NoAnswerNotFound(v.root, name);
    if Find(v.root, name).Some? {
      var i := Find(v.root, name).at;
      FoundIsLive(v.root, name);
      StartOf(v, i);
      var r := Erase(v.root, i);
      forall j | 0 <= j < |r| ensures !Answers(r, j, name) { EraseKeepsOthers(v.root, i, j, name); }
      NoAnswerNotFound(r, name) by { EraseKeepsClosed(v.root, i); }
    }
  }

  lemma FoundIsLive(root: seq<Slot>, name: seq<byte>)
    requires Find(root, name).Some?
    ensures Live(root[Find(root, name).at]) && root[Find(root, name).at][0] != 0
  {
  }

  lemma ClustersMonotone(spc: nat, a: nat, b: nat)
    requires spc > 0 && a <= b
    ensures Clusters(spc, a) <= Clusters(spc, b)
  {
    var size := spc * 512;
    DivMonotone(a + size - 1, b + size - 1, size);
  }

  lemma DivMonotone(a: nat, b: nat, d: nat)
    requires d > 0 && a <= b
    ensures a / d <= b / d
  {
    if a / d > b / d { MulMonotone(b / d + 1, a / d, d); }
  }

  /** Reading the chain just written gives the bytes back. */
  lemma ReadWritten(spc: nat, v: Vol, a: Allocation, bytes: seq<byte>, w: Vol, want: nat)
    requires Holds(spc, v, a, bytes) && Sane(spc, w) && |w.fat| == |v.fat| && IsChain(w.fat, a.cs)
    requires |a.cs| == Needed(spc, |bytes|) && w.data == Stored(spc, v, a, bytes) && want <= |bytes|
    ensures StartOk(w.fat, a.cs[0]) && ReadAt(spc, w, a.cs[0], want) == bytes[..want]
  {
    assert Distinct(a.cs);
    hide IsChain, InRange, InArea, StartsOk, Store, Content, Visit, Clusters, Distinct, SectorCount;
    var n := Clusters(spc, want);
    VisitedPrefix(w.fat, a.cs, n);
    ClustersMonotone(spc, want, |bytes|);
    ClustersHold(spc, want);
    StoreThenRead(spc, |v.fat| - 2, v.data, a.cs, bytes);
    ContentPrefix(spc, |v.fat| - 2, w.data, a.cs, |bytes|, n, want);
  }

  /** After creating a file under a long name that nobody answers to, reading the name
      gives its bytes exactly when its entry does not look deleted; otherwise the name is
      not found. */
  lemma CreateThenRead(spc: nat, v: Vol, name: seq<byte>, bytes: seq<byte>, max: nat)
    requires Sane(spc, v) && EndClosed(v.root) && FileName(name) && Plain(name) && NeedsLong(name)
             && |bytes| < 0x1_0000_0000
    requires Find(v.root, name).None? && Create(spc, v, name, bytes).ret >= 0
    ensures var out := Create(spc, v, name, bytes);
            out.ret == |bytes| && Sane(spc, out.vol) && name != []
            && ReadFile(spc, out.vol, name, max)
               == if FirstByte(name) != DELETED then Bytes(bytes[..Min(|bytes|, max)]) else Failed
  {
    hide Create, FileName, Plain, NeedsLong, FirstByte, Sane, EndClosed, EntryPlace, Allocate, Needed, Holds, Stored,
      Place, Find, ClusterOf, SizeOf, IsDir, ReadAt, HasChain, IsChain, FirstFit, EntrySlots, IsRun;
    var w := CreateParts(spc, v, name, bytes);
    var out := Create(spc, v, name, bytes).vol;
    CreateSane(spc, v, name, bytes);
    PlaceEnd(v, name, bytes, w);
    WrittenIsFound(v, name, bytes, w);
    if FirstByte(name) != DELETED { ReadsNew(spc, v, name, bytes, w, name, max); }
  }

  /** When a lookup of m ends at the new entry, reading m returns the new data. */
  lemma ReadsNew(spc: nat, v: Vol, name: seq<byte>, bytes: seq<byte>, w: Written, m: seq<byte>, max: nat)
    requires Sane(spc, v) && FileName(name) && name != [] && m != [] && FirstByte(name) != DELETED
             && |bytes| < 0x1_0000_0000
    requires Create(spc, v, name, bytes).ret >= 0 && w.a == Allocate(v.fat, Needed(spc, |bytes|)) && w.a.ok
    requires Holds(spc, v, w.a, bytes) && EntryPlace(v, name, bytes, w) && w.f + |w.es| <= |v.root|
    requires Create(spc, v, name, bytes)
             == Outcome(Vol(w.a.fat, Place(v.root, w.f, w.es), Stored(spc, v, w.a, bytes)), |bytes|)
    requires w.es != [] && Find(Place(v.root, w.f, w.es), m) == Some(w.f + |w.es| - 1)
    ensures Sane(spc, Create(spc, v, name, bytes).vol)
    ensures ReadFile(spc, Create(spc, v, name, bytes).vol, m, max) == Bytes(bytes[..Min(|bytes|, max)])
  {
    hide Create, FileName, FirstByte, Sane, EntryPlace, Allocate, Needed, Holds, Stored, Find, ClusterOf, SizeOf,
      IsDir, ReadAt, HasChain, IsChain;
    var out := Create(spc, v, name, bytes).vol;
    CreateSane(spc, v, name, bytes);
    HoldsStart(spc, v, w.a, bytes);
    NewEntry(v, name, bytes, w);
    AllocatedChain(spc, v, bytes);
    assert out.root[w.f + |w.es| - 1] == w.es[|w.es| - 1];
    ReadWritten(spc, v, w.a, bytes, out, Min(|bytes|, max));
  }

  lemma HoldsStart(spc: nat, v: Vol, a: Allocation, bytes: seq<byte>)
    requires Holds(spc, v, a, bytes)
    ensures a.cs != [] && 2 <= a.cs[0] < EOC_MIN
  {
  }

  lemma AllocatedChain(spc: nat, v: Vol, bytes: seq<byte>)
    requires Sane(spc, v) && Allocate(v.fat, Needed(spc, |bytes|)).ok
    ensures var a := Allocate(v.fat, Needed(spc, |bytes|));
            |a.fat| == |v.fat| && |a.cs| == Needed(spc, |bytes|) && IsChain(a.fat, a.cs)
  {
    hide Allocate, IsChain, Needed, StartsOk, InRange;
    AllocateMeaning(v.fat, Needed(spc, |bytes|));
  }

  /** Where a lookup of the new name ends. */
  lemma WrittenIsFound(v: Vol, name: seq<byte>, bytes: seq<byte>, w: Written)
    requires EntryPlace(v, name, bytes, w) && EndClosed(v.root) && FileName(name) && Plain(name) && NeedsLong(name)
    requires Find(v.root, name).None?
    ensures name != [] && w.f + |w.es| <= |v.root| && w.es != []
    ensures var r := Place(v.root, w.f, w.es);
            Find(r, name) == (if FirstByte(name) != DELETED then Some(w.f + |w.es| - 1) else None)
              && r[w.f + |w.es| - 1] == w.es[|w.es| - 1]
  {
    hide FileName, Plain, NeedsLong, FirstByte, EndClosed, Find, LongRun, FileEntry, EntrySlots, StoredShort, FirstFit,
      Checksum;
    EntriesShape(v.root, name, w.a.cs[0], |bytes|);
    var e := w.es[|w.es| - 1];
    ShortFirstByte(v.root, name);
    PlacedIsFound(v.root, w.f, name, Checksum(StoredShort(v.root, name)), e);
  }

  /** The write-then-read theorem: when no other live entry answers to a long name, a
      successful write makes a read return exactly the data, if and only if the first
      byte of the generated short name is not the deletion mark. */
  lemma WriteThenRead(spc: nat, v: Vol, name: seq<byte>, bytes: seq<byte>, chains: map<nat, seq<nat>>, max: nat)
    requires Inv(spc, v, chains) && FileName(name) && Plain(name) && NeedsLong(name) && |bytes| < 0x8000_0000
    requires NobodyElse(v.root, name)
    ensures Sane(spc, v) && name != []
    ensures var out := WriteFile(spc, v, name, bytes);
            Sane(spc, out.vol)
            && (out.ret >= 0 ==>
                  && out.ret == |bytes|
                  && (FirstByte(name) != DELETED
                      <==> ReadFile(spc, out.vol, name, max) == Bytes(bytes[..Min(|bytes|, max)])))
  {
    hide Inv, FileName, Plain, NeedsLong, FirstByte, Sane, EndClosed, Create, ReadFile, NobodyElse, MakeRoom, Owns,
      OwnersOk;
    FirstByteNonZero(name);
    InvParts(spc, v, chains);
    RoomMade(spc, v, name);
    MakeRoomKeeps(spc, v, name, chains);
    var room := MakeRoom(spc, v, name);
    InvParts(spc, room, RoomChains(spc, v, name, chains));
    CreateSane(spc, room, name, bytes);
    if Create(spc, room, name, bytes).ret >= 0 { CreateThenRead(spc, room, name, bytes, max); }
  }

  // ---- names that look deleted ---------------------------------------------------------

  /** Such a name: the byte 0xE5 followed by "a". */
  lemma LooksDeletedExample()
    ensures var name: seq<byte> := [0xE5, 0x61];
            FileName(name) && Plain(name) && NeedsLong(name) && FirstByte(name) == DELETED
  {
    var name: seq<byte> := [0xE5, 0x61];
    assert name[0] != DOT && name[1] != DOT && Special(name[1]);
    assert Base(name) == name;
    assert Usable(name)[0] == 0xE5;
  }

  /** The clusters of a file whose entry looks deleted have no owner: no assignment of
      chains to entries that leaves the other owners alone satisfies the invariant. */
  lemma LooksDeletedLeaks(spc: nat, v: Vol, name: seq<byte>, bytes: seq<byte>, chains: map<nat, seq<nat>>,
                          c2: map<nat, seq<nat>>)
    requires Inv(spc, v, chains) && FileName(name) && |bytes| < 0x1_0000_0000
    requires Sane(spc, v) && Create(spc, v, name, bytes).ret >= 0
    requires name != [] && FirstByte(name) == DELETED && SameForeign(|v.root|, chains, c2)
    ensures !Inv(spc, Create(spc, v, name, bytes).vol, c2)
  {
    hide Inv, FileName, FirstByte, Sane, EndClosed, Create, Owns, OwnersOk, Allocate, Needed, Holds, EntryPlace, Place,
      Stored, SameForeign;
    InvParts(spc, v, chains);
    var w := CreateParts(spc, v, name, bytes);
    var out := Create(spc, v, name, bytes).vol;
    if Inv(spc, out, c2) {
      InvParts(spc, out, c2);
      HoldsStart(spc, v, w.a, bytes);
      SaneFat(spc, v);
      AllocateMeaning(v.fat, Needed(spc, |bytes|));
      var x := w.a.cs[0];
      FreshCluster(v.fat, w.a);
      var s := OwnerOf(out.fat, c2, x);
      PlaceEnd(v, name, bytes, w);
      NoNewOwner(v, name, bytes, w, chains, c2, s);
      OwnedIsUsed(v.fat, chains, s, x);
    }
  }

  lemma SaneFat(spc: nat, v: Vol)
    requires Sane(spc, v)
    ensures InRange(v.fat) && |v.fat| >= 2
  {
  }

  lemma FreshCluster(fat: seq<nat>, a: Allocation)
    requires Allocated(fat, a) && a.cs != []
    ensures IsCluster(fat, a.cs[0]) && fat[a.cs[0]] == 0 && |a.fat| == |fat| && a.fat[a.cs[0]] != 0
  {
    assert a.cs[0] in a.cs;
    assert LinkOk(a.fat, a.cs, 0);
    if |a.cs| > 1 { assert LinkOk(a.fat, a.cs, 1); }
  }

  lemma OwnerOf(fat: seq<nat>, chains: map<nat, seq<nat>>, c: nat) returns (s: nat)
    requires Owns(fat, chains) && IsCluster(fat, c) && fat[c] != 0
    ensures s in chains && c in chains[s]
  {
    assert OwnedCluster(chains, c);
    s :| s in chains && c in chains[s];
  }

  /** Every owner after such a write owned the same chain before it. */
  lemma NoNewOwner(v: Vol, name: seq<byte>, bytes: seq<byte>, w: Written, chains: map<nat, seq<nat>>,
                   c2: map<nat, seq<nat>>, s: nat)
    requires FileName(name) && name != [] && FirstByte(name) == DELETED && EntryPlace(v, name, bytes, w)
    requires w.f + |w.es| <= |v.root|
    requires Owns(v.fat, chains) && OwnersOk(v.root, chains) && Allocated(v.fat, w.a)
    requires Owns(w.a.fat, c2) && OwnersOk(Place(v.root, w.f, w.es), c2) && SameForeign(|v.root|, chains, c2)
    requires s in c2
    ensures s in chains && chains[s] == c2[s]
  {
    hide FileName, FirstByte, Owns, Allocated, ClusterOf, Place, IsChain, EntryPlace, Live, SameName, Text83;
    if s < |v.root| {
      var r := Place(v.root, w.f, w.es);
      assert OwnerOk(r, c2, s) && OwnerOk(v.root, chains, s);
      NothingLive(v, name, bytes, w, s);
      AllocateApart(v.fat, chains, w.a, s);
      OwnedChain(w.a.fat, c2, s);
      OwnsFat(w.a.fat, c2);
      SameStartSameChain(w.a.fat, chains[s], c2[s]);
    }
  }

  /** None of the stored slots is live. */
  lemma NothingLive(v: Vol, name: seq<byte>, bytes: seq<byte>, w: Written, s: nat)
    requires FileName(name) && name != [] && FirstByte(name) == DELETED && EntryPlace(v, name, bytes, w)
    requires w.f + |w.es| <= |v.root| && s < |v.root| && Live(Place(v.root, w.f, w.es)[s])
    ensures Place(v.root, w.f, w.es)[s] == v.root[s]
  {
    hide FileName, FirstByte, EntryPlace, Live, Place, EntrySlots;
    StoredSlots(v, name, bytes, w);
    if w.f <= s < w.f + |w.es| { SlotNotLive(w.es, s - w.f); }
  }

  lemma StoredSlots(v: Vol, name: seq<byte>, bytes: seq<byte>, w: Written)
    requires FileName(name) && name != [] && FirstByte(name) == DELETED && EntryPlace(v, name, bytes, w)
    ensures EntrySlots(w.es) && w.es != [] && w.es[|w.es| - 1][0] == DELETED
  {
    hide FileName, FirstByte, Entries, FirstFit;
    EntriesShape(v.root, name, w.a.cs[0], |bytes|);
  }

  lemma SlotNotLive(es: seq<Slot>, j: nat)
    requires EntrySlots(es) && es[|es| - 1][0] == DELETED && j < |es|
    ensures !Live(es[j])
  {
  }

  lemma OwnsFat(fat: seq<nat>, chains: map<nat, seq<nat>>)
    requires Owns(fat, chains)
    ensures InRange(fat) && |fat| >= 2
  {
  }

  // ---- what can fail --------------------------------------------------------------------

  /** Reading fails exactly when nobody answers to the name or a directory does. */
  lemma ReadFails(spc: nat, v: Vol, name: seq<byte>, max: nat)
    requires Sane(spc, v)
    ensures var f := Find(v.root, name);
            ReadFile(spc, v, name, max) == Failed
            <==> name == [] || f == None || v.root[f.at][11] / 16 % 2 == 1
  {
    hide ReadAt, Sane, Find;
  }

  /** Deleting succeeds exactly when somebody answers.  Then the entry's first byte is 0xE5,
      all other entries are as they were, its clusters are free, and a name that only it
      answered to can no longer be read. */
  lemma DeleteMeaning(spc: nat, v: Vol, name: seq<byte>, chains: map<nat, seq<nat>>, max: nat)
    requires Inv(spc, v, chains)
    ensures Sane(spc, v) && Sane(spc, DeleteFile(spc, v, name).vol)
    ensures var f, out := Find(v.root, name), DeleteFile(spc, v, name);
            && (out.ret == 0 <==> f.Some?) && (out.ret != 0 ==> out == Outcome(v, -1))
            && (f.Some? ==>
                  && |out.vol.root| == |v.root| && out.vol.root[f.at][0] == 0xE5 && out.vol.data == v.data
                  && (forall j :: 0 <= j < |v.root| && j != f.at ==> out.vol.root[j] == v.root[j])
                  && (f.at in chains ==> forall c :: c in chains[f.at] && c < |v.fat| ==> out.vol.fat[c] == 0)
                  && ((forall j :: 0 <= j < |v.root| && j != f.at ==> !Answers(v.root, j, name)) ==>
                        ReadFile(spc, out.vol, name, max) == Failed))
  {
    hide Inv, Sane, FindFrom, Answers, FreeWalk, ReadAt, Live, Owns, OwnersOk, EndClosed;
    InvParts(spc, v, chains);
    SaneStarts(spc, v);
    var f, out := Find(v.root, name), DeleteFile(spc, v, name);
    if f.Some? {
      FoundIsLive(v.root, name);
      StartOf(v, f.at);
      DeleteKeeps(spc, v, chains, f.at);
      InvParts(spc, out.vol, chains - {f.at});
      ClearedChain(v, chains, f.at);
      if forall j :: 0 <= j < |v.root| && j != f.at ==> !Answers(v.root, j, name) {
        forall j | 0 <= j < |v.root| ensures !Answers(out.vol.root, j, name) {
          EraseKeepsOthers(v.root, f.at, j, name);
        }
        NoAnswerNotFound(out.vol.root, name);
      }
    }
  }

  lemma ClearedChain(v: Vol, chains: map<nat, seq<nat>>, i: nat)
    requires Owns(v.fat, chains) && OwnersOk(v.root, chains) && i < |v.root| && StartOk(v.fat, ClusterOf(v.root[i]))
    ensures i in chains ==> forall c :: c in chains[i] && c < |v.fat| ==> FreeWalk(v.fat, ClusterOf(v.root[i]))[c] == 0
  {
    hide ClusterOf, Owns;
    if i in chains {
      assert OwnerOk(v.root, chains, i);
      ReleaseKeepsOwnership(v.fat, chains, i);
    }
  }

  /** A write over an existing file deletes it first: when the new one then cannot be stored,
      the old one is gone. */
  lemma FailedOverwriteLoses(spc: nat, v: Vol, name: seq<byte>, bytes: seq<byte>, chains: map<nat, seq<nat>>, max: nat)
    requires Inv(spc, v, chains) && FileName(name) && NobodyElse(v.root, name) && |bytes| < 0x1_0000_0000
    ensures Sane(spc, v) && name != [] && Sane(spc, WriteFile(spc, v, name, bytes).vol)
    ensures var out := WriteFile(spc, v, name, bytes); out.ret < 0 ==> ReadFile(spc, out.vol, name, max) == Failed
  {
    hide Inv, FileName, Sane, Find, EndClosed, Create, ReadAt, NobodyElse, MakeRoom, Owns, OwnersOk;
    FirstByteNonZero(name);
    InvParts(spc, v, chains);
    RoomMade(spc, v, name);
    MakeRoomKeeps(spc, v, name, chains);
    var room := MakeRoom(spc, v, name);
    InvParts(spc, room, RoomChains(spc, v, name, chains));
    CreateSane(spc, room, name, bytes);
    if Create(spc, room, name, bytes).ret < 0 { FailureFreesAll(spc, room, name, bytes); }
  }
}
