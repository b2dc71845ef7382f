/** Regular files in the root directory of a FAT16 volume (src/fat16.c): reading, writing,
    overwriting and deleting them, and what every sequence of those operations keeps. */
module FatVolume {
  import opened Bits
  import opened Strings
  import opened FatChains
  import opened FatData
  import opened FatNames
  import opened FatDirectory

  /** The allocation table, the root directory and the data area. */
  datatype Vol = Vol(fat: seq<nat>, root: seq<Slot>, data: seq<Sector>)

  predicate StartOk(fat: seq<nat>, c: nat) { c < |fat| || c >= EOC_MIN }

  ghost predicate StartsOk(fat: seq<nat>, root: seq<Slot>) {
    forall i :: 0 <= i < |root| && Live(root[i]) ==> StartOk(fat, ClusterOf(root[i]))
  }

  /** Links and first clusters stay inside the volume, spc sectors to the cluster. */
  ghost predicate Sane(spc: nat, v: Vol) {
    && 0 < spc < 256 && InRange(v.fat) && |v.fat| >= 2
    && |v.data| == (|v.fat| - 2) * spc
    && StartsOk(v.fat, v.root)
  }

  // ---- reading ----------------------------------------------------------------------

  /** Clusters that hold n bytes. */
  function Clusters(spc: nat, n: nat): nat
    requires spc > 0
  {
    (n + spc * 512 - 1) / (spc * 512)
  }

  lemma SectorsFit(n: nat, m: nat)
    requires n <= m * 512
    ensures SectorCount(n) <= m
  {
  }

  lemma ClustersHold(spc: nat, n: nat)
    requires spc > 0
    ensures n <= Clusters(spc, n) * spc * 512 && SectorCount(n) <= Clusters(spc, n) * spc
    ensures n > 0 ==> Clusters(spc, n) > 0
  {
    var size := spc * 512;
    var c := Clusters(spc, n);
    assert n + size - 1 < c * size + size;
    assert c * size == c * spc * 512;
    SectorsFit(n, c * spc);
  }

  /** What the read loop returns for a file starting at cluster c: the wanted bytes, or
      as many as its clusters hold. */
  function ReadAt(spc: nat, v: Vol, c: nat, want: nat): (r: seq<byte>)
    requires Sane(spc, v) && StartOk(v.fat, c)
  {
    var cs := Visit(v.fat, c, Clusters(spc, want));
    var n := Min(want, |cs| * spc * 512);
    SectorsFit(n, |cs| * spc);
    Content(spc, |v.fat| - 2, v.data, cs, n)
  }

  datatype Reply = Failed | Bytes(bytes: seq<byte>)

  function ReadFile(spc: nat, v: Vol, name: seq<byte>, max: nat): Reply
    requires Sane(spc, v)
  {
    if name == [] then Failed
    else match Find(v.root, name)
      case None => Failed
      case Some(i) =>
        if IsDir(v.root[i]) then Failed
        else Bytes(ReadAt(spc, v, ClusterOf(v.root[i]), Min(SizeOf(v.root[i]), max)))
  }

  // ---- deleting ---------------------------------------------------------------------

  function DeleteAt(spc: nat, v: Vol, i: nat): Vol
    requires Sane(spc, v) && i < |v.root| && Live(v.root[i])
  {
    Vol(FreeWalk(v.fat, ClusterOf(v.root[i])), Erase(v.root, i), v.data)
  }

  datatype Outcome = Outcome(vol: Vol, ret: int)

  function DeleteFile(spc: nat, v: Vol, name: seq<byte>): Outcome
    requires Sane(spc, v)
  {
    match Find(v.root, name)
    case None => Outcome(v, -1)
    case Some(i) => Outcome(DeleteAt(spc, v, i), 0)
  }

  // ---- writing ----------------------------------------------------------------------

  /** The name the collision loop looks up for a candidate short name: 32 is added to
      every byte, letter or not. */
  function CheckName(short: seq<byte>): seq<byte>
    requires |short| == 11
  {
    var base := Shifted(Until(short[..8], {SPACE}));
    var ext := if short[8] != SPACE then [DOT] + Shifted(Until(short[8..], {SPACE})) else [];
    Until(base + ext, {0})
  }

  function Shifted(s: seq<byte>): seq<byte> { seq(|s|, i requires 0 <= i < |s| => (s[i] as int + 32) % 256) }

  function PickNumber(root: seq<Slot>, name: seq<byte>, k: nat): (r: nat)
    requires 1 <= k <= 99
    ensures k <= r <= 99
    decreases 99 - k
  {
    if k == 99 || Find(root, CheckName(ShortName(name, k))).None? then k else PickNumber(root, name, k + 1)
  }

  function StoredShort(root: seq<Slot>, name: seq<byte>): (r: seq<byte>)
    ensures |r| == 11
  {
    if NeedsLong(name) then ShortName(name, PickNumber(root, name, 1)) else Encode83(name)
  }

  function StoredRun(root: seq<Slot>, name: seq<byte>): seq<Slot> {
    if NeedsLong(name) then LongRun(name, Checksum(StoredShort(root, name))) else []
  }

  /** The directory slots stored for a new file. */
  function Entries(root: seq<Slot>, name: seq<byte>, cluster: nat, size: nat): (es: seq<Slot>) {
    StoredRun(root, name) + [FileEntry(StoredShort(root, name), cluster, size)]
  }

  /** An existing regular file of that name is deleted first. */
  function MakeRoom(spc: nat, v: Vol, name: seq<byte>): Vol
    requires Sane(spc, v)
  {
    match Find(v.root, name)
    case None => v
    case Some(i) => if IsDir(v.root[i]) then v else DeleteAt(spc, v, i)
  }

  function Needed(spc: nat, size: nat): (n: nat)
    requires spc > 0
    ensures n > 0
  {
    if Clusters(spc, size) == 0 then 1 else Clusters(spc, size)
  }

  /** Gives the clusters taken so far back. */
  function GiveBack(a: Allocation): seq<nat>
    requires a.cs != [] ==> InRange(a.fat) && StartOk(a.fat, a.cs[0])
  {
    if a.cs == [] then a.fat else FreeWalk(a.fat, a.cs[0])
  }

  /** The rest of fat16_write_file. */
  function Create(spc: nat, v: Vol, name: seq<byte>, bytes: seq<byte>): Outcome
    requires Sane(spc, v)
  {
    AllocateMeaning(v.fat, Needed(spc, |bytes|));
    AllocationFits(spc, v.fat, |bytes|);
    var a := Allocate(v.fat, Needed(spc, |bytes|));
    if !a.ok then Outcome(v.(fat := GiveBack(a)), -1)
    else
      var data := Store(spc, |v.fat| - 2, v.data, a.cs, bytes, SectorCount(|bytes|));
      var es := Entries(v.root, name, a.cs[0], |bytes|);
      match FirstRun(v.root, |es|)
      case None => Outcome(Vol(GiveBack(a), v.root, data), -1)
      case Some(f) => Outcome(Vol(a.fat, Place(v.root, f, es), data), |bytes|)
  }

  /** Allocated clusters lie in the data area and hold the file. */
  lemma AllocationFits(spc: nat, fat: seq<nat>, size: nat)
    requires spc > 0 && InRange(fat) && |fat| >= 2
    ensures var a := Allocate(fat, Needed(spc, size));
            InArea(|fat| - 2, a.cs) && (a.ok ==> SectorCount(size) <= |a.cs| * spc)
  {
    AllocateMeaning(fat, Needed(spc, size));
    var a := Allocate(fat, Needed(spc, size));
    if a.cs != [] { ChainInArea(a.fat, a.cs); }
    ClustersHold(spc, size);
  }

  /** Where the sanity needed by the second half comes from. */
  lemma MakeRoomSane(spc: nat, v: Vol, name: seq<byte>)
    requires Sane(spc, v)
    ensures Sane(spc, MakeRoom(spc, v, name))
  {
    var v1 := MakeRoom(spc, v, name);
    forall i | 0 <= i < |v1.root| && Live(v1.root[i]) ensures StartOk(v1.fat, ClusterOf(v1.root[i])) {
      assert v1.root[i] == v.root[i];
    }
  }

  function WriteFile(spc: nat, v: Vol, name: seq<byte>, bytes: seq<byte>): Outcome
    requires Sane(spc, v)
  {
    if name == [] then Outcome(v, -1)
    else
      MakeRoomSane(spc, v, name);
      Create(spc, MakeRoom(spc, v, name), name, bytes)
  }
}
