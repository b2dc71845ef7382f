/** What every run of writes, overwrites and deletes of root-directory files keeps, and
    the write-then-read theorem (src/fat16.c). */
module FatTheorems {
  import opened Bits
  import opened Search
  import opened FatChains
  import opened FatData
  import opened FatNames
  import opened FatDirectory
  import opened FatVolume

  // ---- the invariant ------------------------------------------------------------------

  predicate HasChain(e: Slot) { Live(e) && 2 <= ClusterOf(e) < EOC_MIN }

  ghost predicate OwnerOk(root: seq<Slot>, chains: map<nat, seq<nat>>, i: nat)
    requires i < |root|
  {
    && (i in chains <==> HasChain(root[i]))
    && (i in chains ==> chains[i] != [] && chains[i][0] == ClusterOf(root[i]))
  }

  /** The root slots with a chain are exactly the owners below |root|; the other owners
      stand for chains reached through subdirectories. */
  ghost predicate OwnersOk(root: seq<Slot>, chains: map<nat, seq<nat>>) {
    forall i: nat :: i < |root| ==> OwnerOk(root, chains, i)
  }

  ghost predicate Inv(spc: nat, v: Vol, chains: map<nat, seq<nat>>) {
    Sane(spc, v) && EndClosed(v.root) && Owns(v.fat, chains) && OwnersOk(v.root, chains)
  }

  // ---- deleting -----------------------------------------------------------------------

  lemma ReleasedFat(fat: seq<nat>, chains: map<nat, seq<nat>>, root: seq<Slot>, i: nat)
    requires Owns(fat, chains) && OwnersOk(root, chains) && i < |root| && Live(root[i])
             && StartOk(fat, ClusterOf(root[i]))
    ensures Owns(FreeWalk(fat, ClusterOf(root[i])), chains - {i})
  {
    hide Live, ClusterOf;
    assert OwnerOk(root, chains, i);
    if HasChain(root[i]) { ReleaseKeepsOwnership(fat, chains, i); }
    else { assert chains - {i} == chains; }
  }

  lemma ErasedOwners(root: seq<Slot>, chains: map<nat, seq<nat>>, i: nat)
    requires OwnersOk(root, chains) && i < |root|
    ensures OwnersOk(Erase(root, i), chains - {i})
  {
    hide ClusterOf;
    forall j: nat | j < |root| ensures OwnerOk(Erase(root, i), chains - {i}, j) { assert OwnerOk(root, chains, j); }
  }

  lemma ErasedStarts(fat: seq<nat>, root: seq<Slot>, i: nat, g: seq<nat>)
    requires StartsOk(fat, root) && i < |root| && |g| == |fat|
    ensures StartsOk(g, Erase(root, i))
  {
    hide ClusterOf;
    forall j | 0 <= j < |root| && Live(Erase(root, i)[j]) ensures StartOk(g, ClusterOf(Erase(root, i)[j])) {
      assert Erase(root, i)[j] == root[j];
    }
  }

  lemma DeleteKeeps(spc: nat, v: Vol, chains: map<nat, seq<nat>>, i: nat)
    requires Inv(spc, v, chains) && i < |v.root| && Live(v.root[i])
    ensures Inv(spc, DeleteAt(spc, v, i), chains - {i})
  {
    hide Owns, OwnersOk, EndClosed, ClusterOf, Erase, FreeWalk;
    assert StartOk(v.fat, ClusterOf(v.root[i]));
    ReleasedFat(v.fat, chains, v.root, i);
    ErasedOwners(v.root, chains, i);
    EraseKeepsClosed(v.root, i);
    ErasedStarts(v.fat, v.root, i, FreeWalk(v.fat, ClusterOf(v.root[i])));
  }

  // ---- writing ------------------------------------------------------------------------

  ghost function RoomChains(spc: nat, v: Vol, name: seq<byte>, chains: map<nat, seq<nat>>): map<nat, seq<nat>> {
    match Find(v.root, name)
    case None => chains
    case Some(i) => if IsDir(v.root[i]) then chains else chains - {i}
  }

  lemma MakeRoomKeeps(spc: nat, v: Vol, name: seq<byte>, chains: map<nat, seq<nat>>)
    requires Inv(spc, v, chains)
    ensures Inv(spc, MakeRoom(spc, v, name), RoomChains(spc, v, name, chains))
  {
    hide Inv, DeleteAt, IsDir, ClusterOf;
    assert Sane(spc, v) by { InvSane(spc, v, chains); }
    match Find(v.root, name)
    case None =>
    case Some(i) => DeleteKeeps(spc, v, chains, i);
  }

  lemma InvSane(spc: nat, v: Vol, chains: map<nat, seq<nat>>)
    requires Inv(spc, v, chains)
    ensures Sane(spc, v)
  {
  }

  /** A write that fails, for lack of clusters or of directory slots, has freed all it
      allocated: table and directory are as they were once room had been made. */
  lemma FailureFreesAll(spc: nat, v: Vol, name: seq<byte>, bytes: seq<byte>)
    requires Sane(spc, v) && Create(spc, v, name, bytes).ret < 0
    ensures Create(spc, v, name, bytes).vol.fat == v.fat && Create(spc, v, name, bytes).vol.root == v.root
  {
    var n := Needed(spc, |bytes|);
    AllocateMeaning(v.fat, n);
    var a := Allocate(v.fat, n);
    if a.cs == [] { assert a.fat == v.fat; }
    else { ReleaseUndoesAllocate(v.fat, n); }
  }

  lemma ShortFirstByte(root: seq<Slot>, name: seq<byte>)
    requires FileName(name)
    ensures name != [] && StoredShort(root, name)[0] == FirstByte(name) != 0
  {
    FirstByteNonZero(name);
  }

  lemma RunShape(root: seq<Slot>, name: seq<byte>)
    requires FileName(name)
    ensures forall j :: 0 <= j < |StoredRun(root, name)| ==>
                          !IsFree(StoredRun(root, name)[j]) && StoredRun(root, name)[j][11] == ATTR_LFN
  {
    hide FileName, NeedsLong, LongRun, Checksum;
    LongRunSlots(name, Checksum(StoredShort(root, name)));
  }

  lemma EntriesShape(root: seq<Slot>, name: seq<byte>, cluster: nat, size: nat)
    requires FileName(name)
    ensures name != [] && EntrySlots(Entries(root, name, cluster, size))
    ensures var es := Entries(root, name, cluster, size);
            es[|es| - 1] == FileEntry(StoredShort(root, name), cluster, size) && es[|es| - 1][0] == FirstByte(name)
  {
    hide FileName, StoredRun, StoredShort, FileEntry, FirstByte;
    ShortFirstByte(root, name);
    RunShape(root, name);
  }

  /** The pieces of a successful write: the clusters taken, the slots stored and where. */
  datatype Written = Written(a: Allocation, es: seq<Slot>, f: nat)

  ghost predicate Holds(spc: nat, v: Vol, a: Allocation, bytes: seq<byte>) {
    && spc > 0 && |v.fat| >= 2 && a.cs != [] && 2 <= a.cs[0] < EOC_MIN
    && InArea(|v.fat| - 2, a.cs) && |v.data| == (|v.fat| - 2) * spc
    && SectorCount(|bytes|) <= |a.cs| * spc
  }

  ghost function Stored(spc: nat, v: Vol, a: Allocation, bytes: seq<byte>): seq<Sector>
    requires Holds(spc, v, a, bytes)
  {
    Store(spc, |v.fat| - 2, v.data, a.cs, bytes, SectorCount(|bytes|))
  }

  ghost predicate EntryPlace(v: Vol, name: seq<byte>, bytes: seq<byte>, w: Written) {
    && w.a.cs != [] && w.es == Entries(v.root, name, w.a.cs[0], |bytes|) && EntrySlots(w.es)
    && w.f + |w.es| <= |v.root| && FirstFit(v.root, |w.es|, Some(w.f))
  }

  lemma CreateParts(spc: nat, v: Vol, name: seq<byte>, bytes: seq<byte>) returns (w: Written)
    requires Sane(spc, v) && FileName(name) && Create(spc, v, name, bytes).ret >= 0
    ensures w.a == Allocate(v.fat, Needed(spc, |bytes|)) && w.a.ok
    ensures Holds(spc, v, w.a, bytes) && EntryPlace(v, name, bytes, w)
    ensures Create(spc, v, name, bytes)
            == Outcome(Vol(w.a.fat, Place(v.root, w.f, w.es), Stored(spc, v, w.a, bytes)), |bytes|)
  {
    hide Allocate, Allocated, Store, Entries, Place, FirstRun, EntrySlots, InRange, FileName, StartsOk, IsRun;
    AllocateMeaning(v.fat, Needed(spc, |bytes|));
    AllocationFits(spc, v.fat, |bytes|);
    var a := Allocate(v.fat, Needed(spc, |bytes|));
    var es := Entries(v.root, name, a.cs[0], |bytes|);
    EntriesShape(v.root, name, a.cs[0], |bytes|);
    var f := FirstRun(v.root, |es|).at;
    RunFits(v.root, |es|, f);
    assert InRange(v.fat);
    AllocationStart(v.fat, Needed(spc, |bytes|));
    w := Written(a, es, f);
  }

  lemma RunFits(root: seq<Slot>, count: nat, f: nat)
    requires IsRun(root, f, count)
    ensures f + count <= |root|
  {
  }

  lemma AllocationStart(fat: seq<nat>, n: nat)
    requires InRange(fat) && |fat| >= 2 && Allocate(fat, n).ok && n > 0
    ensures 2 <= Allocate(fat, n).cs[0] < EOC_MIN
  {
    AllocateMeaning(fat, n);
    assert Allocate(fat, n).cs[0] in Allocate(fat, n).cs;
  }

  lemma PlacedOwners(root: seq<Slot>, chains: map<nat, seq<nat>>, f: nat, es: seq<Slot>, cs: seq<nat>)
    requires OwnersOk(root, chains) && EntrySlots(es) && IsRun(root, f, |es|) && cs != []
    requires HasChain(es[|es| - 1]) && ClusterOf(es[|es| - 1]) == cs[0]
    ensures f + |es| - 1 !in chains
    ensures OwnersOk(Place(root, f, es), chains[f + |es| - 1 := cs])
  {
    hide ClusterOf, Place;
    var k := f + |es| - 1;
    var r, all := Place(root, f, es), chains[k := cs];
    assert OwnerOk(root, chains, k) && IsFree(root[k]);
    forall j: nat | j < |root| ensures OwnerOk(r, all, j) {
      assert OwnerOk(root, chains, j);
      assert f <= j < f + |es| ==> IsFree(root[j]);
    }
  }

  lemma PlacedStarts(fat: seq<nat>, root: seq<Slot>, f: nat, es: seq<Slot>, g: seq<nat>)
    requires StartsOk(fat, root) && |g| == |fat| && f + |es| <= |root| && EntrySlots(es)
    requires StartOk(g, ClusterOf(es[|es| - 1]))
    ensures StartsOk(g, Place(root, f, es))
  {
    hide ClusterOf, Place, IsFree;
    var r := Place(root, f, es);
    forall j | 0 <= j < |r| && Live(r[j]) ensures StartOk(g, ClusterOf(r[j])) {
      assert r[j] == if f <= j < f + |es| then es[j - f] else root[j];
    }
  }

  /** The new entry is live and starts its chain. */
  lemma NewEntry(v: Vol, name: seq<byte>, bytes: seq<byte>, w: Written)
    requires FileName(name) && FirstByte(name) != DELETED && |bytes| < 0x1_0000_0000
    requires EntryPlace(v, name, bytes, w) && 2 <= w.a.cs[0] < EOC_MIN
    ensures var e := w.es[|w.es| - 1]; HasChain(e) && ClusterOf(e) == w.a.cs[0] && SizeOf(e) == |bytes| && !IsDir(e)
  {
    hide FileName, FirstByte, Entries, EntrySlots, FirstFit, StoredShort, FileEntry, ClusterOf, SizeOf, Live, IsDir;
    EntriesShape(v.root, name, w.a.cs[0], |bytes|);
    FileEntryFields(StoredShort(v.root, name), w.a.cs[0], |bytes|);
    ShortFirstByte(v.root, name);
  }

  /** Owners that are not root slots keep their chains. */
  ghost predicate SameForeign(n: nat, a: map<nat, seq<nat>>, b: map<nat, seq<nat>>) {
    forall s :: s >= n ==> (s in a <==> s in b) && (s in a ==> a[s] == b[s])
  }

  lemma CreateSucceeds(spc: nat, v: Vol, name: seq<byte>, bytes: seq<byte>, chains: map<nat, seq<nat>>, w: Written)
    requires Inv(spc, v, chains) && FileName(name) && FirstByte(name) != DELETED && |bytes| < 0x1_0000_0000
    requires w.a == Allocate(v.fat, Needed(spc, |bytes|)) && w.a.ok
    requires Holds(spc, v, w.a, bytes) && EntryPlace(v, name, bytes, w)
    ensures w.f + |w.es| - 1 !in chains
    ensures Inv(spc, Vol(w.a.fat, Place(v.root, w.f, w.es), Stored(spc, v, w.a, bytes)),
                chains[w.f + |w.es| - 1 := w.a.cs])
    ensures forall t :: t in chains ==> Apart(chains[t], w.a.cs)
  {
    hide FileName, FirstByte, Allocate, Entries, Place, Owns, OwnersOk, EntrySlots, HasChain, ClusterOf, SizeOf,
      StartsOk, InArea, IsRun, Apart;
    var n := Needed(spc, |bytes|);
    var k := w.f + |w.es| - 1;
    PlaceEnd(v, name, bytes, w);
    NewEntry(v, name, bytes, w);
    PlacedOwners(v.root, chains, w.f, w.es, w.a.cs);
    AllocateKeepsOwnership(v.fat, chains, n, k);
    PlaceKeepsClosed(v.root, w.f, w.es);
    AllocateMeaning(v.fat, n);
    AllocatedStart(v.fat, w.a);
    PlacedStarts(v.fat, v.root, w.f, w.es, w.a.fat);
  }

  lemma AllocatedStart(fat: seq<nat>, a: Allocation)
    requires Allocated(fat, a) && a.cs != []
    ensures |a.fat| == |fat| && a.cs[0] < |fat|
  {
    assert a.cs[0] in a.cs;
  }

  lemma CreateKeeps(spc: nat, v: Vol, name: seq<byte>, bytes: seq<byte>, chains: map<nat, seq<nat>>)
    returns (c2: map<nat, seq<nat>>)
    requires Inv(spc, v, chains) && FileName(name) && FirstByte(name) != DELETED && |bytes| < 0x1_0000_0000
    ensures |Create(spc, v, name, bytes).vol.root| == |v.root|
    ensures Inv(spc, Create(spc, v, name, bytes).vol, c2) && SameForeign(|v.root|, chains, c2)
  {
    hide Inv, FileName, FirstByte, Create, Allocate, Needed, Holds, EntryPlace, Place, Stored;
    InvSane(spc, v, chains);
    if Create(spc, v, name, bytes).ret < 0 {
      CreateFails(spc, v, name, bytes, chains);
      c2 := chains;
    } else {
      var w := CreateParts(spc, v, name, bytes);
      CreateSucceeds(spc, v, name, bytes, chains, w);
      PlaceEnd(v, name, bytes, w);
      c2 := chains[w.f + |w.es| - 1 := w.a.cs];
    }
  }

  lemma CreateFails(spc: nat, v: Vol, name: seq<byte>, bytes: seq<byte>, chains: map<nat, seq<nat>>)
    requires Inv(spc, v, chains) && Create(spc, v, name, bytes).ret < 0
    ensures Inv(spc, Create(spc, v, name, bytes).vol, chains) && Create(spc, v, name, bytes).vol.root == v.root
  {
    hide Create, Owns, OwnersOk, EndClosed, StartsOk;
    FailureFreesAll(spc, v, name, bytes);
    FailureData(spc, v, name, bytes);
  }

  lemma FailureData(spc: nat, v: Vol, name: seq<byte>, bytes: seq<byte>)
    requires Sane(spc, v)
    ensures |Create(spc, v, name, bytes).vol.data| == |v.data|
  {
    AllocateMeaning(v.fat, Needed(spc, |bytes|));
    AllocationFits(spc, v.fat, |bytes|);
    hide Allocate, Allocated, Store, Entries, Place, GiveBack, FirstFit, FirstRun, InRange, StartsOk;
  }

  lemma PlaceEnd(v: Vol, name: seq<byte>, bytes: seq<byte>, w: Written)
    requires EntryPlace(v, name, bytes, w)
    ensures w.es != [] && w.f + |w.es| <= |v.root|
    ensures EntrySlots(w.es) && IsRun(v.root, w.f, |w.es|) && FirstFit(v.root, |w.es|, Some(w.f))
  {
    hide Entries, IsFree;
  }

  // ---- every history ------------------------------------------------------------------

  lemma CreateSane(spc: nat, v: Vol, name: seq<byte>, bytes: seq<byte>)
    requires Sane(spc, v) && FileName(name) && |bytes| < 0x1_0000_0000
    ensures Sane(spc, Create(spc, v, name, bytes).vol)
  {
    hide FileName, Create, InRange, StartsOk, Allocate, Place, Store, Entries, EntrySlots, ClusterOf, Needed, FirstFit;
    if Create(spc, v, name, bytes).ret < 0 {
      FailureFreesAll(spc, v, name, bytes);
      FailureData(spc, v, name, bytes);
    } else {
      var w := CreateParts(spc, v, name, bytes);
      AllocateMeaning(v.fat, Needed(spc, |bytes|));
      AllocatedStart(v.fat, w.a);
      EntriesShape(v.root, name, w.a.cs[0], |bytes|);
      FileEntryFields(StoredShort(v.root, name), w.a.cs[0], |bytes|);
      PlacedStarts(v.fat, v.root, w.f, w.es, w.a.fat);
    }
  }

  datatype Op = Write(name: seq<byte>, bytes: seq<byte>) | Delete(name: seq<byte>)

  /** Calls the driver's buffers and 32-bit sizes can take. */
  ghost predicate Callable(op: Op) {
    op.Write? ==> (op.name == [] || FileName(op.name)) && |op.bytes| < 0x8000_0000
  }

  ghost function Apply(spc: nat, v: Vol, op: Op): (r: Vol)
    requires Sane(spc, v) && Callable(op)
    ensures Sane(spc, r)
  {
    ApplySane(spc, v, op);
    match op
    case Write(name, bytes) => WriteFile(spc, v, name, bytes).vol
    case Delete(name) => DeleteFile(spc, v, name).vol
  }

  lemma ApplySane(spc: nat, v: Vol, op: Op)
    requires Sane(spc, v) && Callable(op)
    ensures op.Write? ==> Sane(spc, WriteFile(spc, v, op.name, op.bytes).vol)
    ensures Sane(spc, DeleteFile(spc, v, op.name).vol)
  {
    hide Create, MakeRoom, FileName, ClusterOf, FreeWalk, Erase, StartsOk;
    MakeRoomSane(spc, v, op.name);
    if op.Write? && op.name != [] { CreateSane(spc, MakeRoom(spc, v, op.name), op.name, op.bytes); }
    match Find(v.root, op.name)
    case None =>
    case Some(i) =>
      StartOf(v, i);
      ErasedStarts(v.fat, v.root, i, FreeWalk(v.fat, ClusterOf(v.root[i])));
  }

  lemma StartOf(v: Vol, i: nat)
    requires StartsOk(v.fat, v.root) && i < |v.root| && Live(v.root[i])
    ensures StartOk(v.fat, ClusterOf(v.root[i]))
  {
  }

  /** One write or delete keeps the chains of the live entries acyclic, disjoint and
      covering exactly the used clusters. */
  lemma ApplyKeeps(spc: nat, v: Vol, op: Op, chains: map<nat, seq<nat>>) returns (c2: map<nat, seq<nat>>)
    requires Inv(spc, v, chains) && Callable(op)
    requires op.Write? && op.name != [] ==> FirstByte(op.name) != DELETED
    ensures |Apply(spc, v, op).root| == |v.root|
    ensures Inv(spc, Apply(spc, v, op), c2) && SameForeign(|v.root|, chains, c2)
  {
    hide Inv, Create, MakeRoom, FileName, FirstByte, RoomChains, DeleteAt;
    InvSane(spc, v, chains);
    c2 := chains;
    match op
    case Write(name, bytes) =>
      if name != [] {
        MakeRoomKeeps(spc, v, name, chains);
        RoomForeign(spc, v, name, chains);
        InvSane(spc, MakeRoom(spc, v, name), RoomChains(spc, v, name, chains));
        c2 := CreateKeeps(spc, MakeRoom(spc, v, name), name, bytes, RoomChains(spc, v, name, chains));
      }
    case Delete(name) =>
      if Find(v.root, name).Some? {
        DeleteKeeps(spc, v, chains, Find(v.root, name).at);
        c2 := chains - {Find(v.root, name).at};
        assert |DeleteAt(spc, v, Find(v.root, name).at).root| == |v.root| by {
          DeletedRoot(spc, v, Find(v.root, name).at);
        }
      }
  }

  lemma DeletedRoot(spc: nat, v: Vol, i: nat)
    requires Sane(spc, v) && i < |v.root| && Live(v.root[i])
    ensures |DeleteAt(spc, v, i).root| == |v.root|
  {
  }

  lemma RoomForeign(spc: nat, v: Vol, name: seq<byte>, chains: map<nat, seq<nat>>)
    requires Sane(spc, v)
    ensures |MakeRoom(spc, v, name).root| == |v.root| && SameForeign(|v.root|, chains, RoomChains(spc, v, name, chains))
  {
  }

  ghost function History(spc: nat, v: Vol, ops: seq<Op>): (r: Vol)
    requires Sane(spc, v) && forall i :: 0 <= i < |ops| ==> Callable(ops[i])
    ensures Sane(spc, r)
  {
    if ops == [] then v else Apply(spc, History(spc, v, ops[..|ops| - 1]), ops[|ops| - 1])
  }

  /** Over every sequence of writes, overwrites and deletes, the chains of the live
      entries stay acyclic and pairwise disjoint and cover exactly the used clusters. */
  lemma {:induction false} EveryHistoryKeepsOwnership(spc: nat, v: Vol, ops: seq<Op>, chains: map<nat, seq<nat>>)
    returns (c2: map<nat, seq<nat>>)
    requires Inv(spc, v, chains)
    requires forall i :: 0 <= i < |ops| ==> Callable(ops[i])
    requires forall i :: 0 <= i < |ops| && ops[i].Write? && ops[i].name != [] ==> FirstByte(ops[i].name) != DELETED
    ensures Sane(spc, v) && |History(spc, v, ops).root| == |v.root|
    ensures Inv(spc, History(spc, v, ops), c2) && SameForeign(|v.root|, chains, c2)
  {
    hide Inv, Apply, FirstByte, Callable, Sane;
    InvSane(spc, v, chains);
    c2 := chains;
    if ops != [] {
      var c1 := EveryHistoryKeepsOwnership(spc, v, ops[..|ops| - 1], chains);
      c2 := ApplyKeeps(spc, History(spc, v, ops[..|ops| - 1]), ops[|ops| - 1], c1);
    }
  }
}
