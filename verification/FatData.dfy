/** File contents on a FAT16 volume (src/fat16.c): which sectors of the data area hold
    the bytes of a file with a given chain. */
module FatData {
  import opened Bits
  import opened FatChains

  const SECTOR: nat := 512

  type Sector = s: seq<byte> | |s| == 512 witness seq(512, _ => 0)

  // ---- sector numbers ---------------------------------------------------------------

  /** Sector s of cluster c, counted from the start of the data area (cluster_to_lba). */
  function At(spc: nat, c: nat, s: nat): (r: nat)
    requires c >= 2
  {
    (c - 2) * spc + s
  }

  lemma AtInjective(spc: nat, c: nat, s: nat, d: nat, t: nat)
    requires c >= 2 && d >= 2 && s < spc && t < spc
    ensures At(spc, c, s) == At(spc, d, t) ==> c == d && s == t
  {
    if c < d { AtBelow(spc, c, s, d, t); }
    if d < c { AtBelow(spc, d, t, c, s); }
  }

  lemma AtBelow(spc: nat, c: nat, s: nat, d: nat, t: nat)
    requires 2 <= c < d && s < spc
    ensures At(spc, c, s) < At(spc, d, t)
  {
    MulMonotone(c - 1, d - 2, spc);
    assert (c - 1) * spc == (c - 2) * spc + spc;
  }

  /** Clusters all lie in the data area. */
  ghost predicate InArea(clusters: nat, cs: seq<nat>) {
    forall i :: 0 <= i < |cs| ==> 2 <= cs[i] < clusters + 2
  }

  /** File sector k is sector Rest(spc, k) of the file's cluster number Index(spc, k). */
  function Index(spc: nat, k: nat): nat requires spc > 0 { k / spc }
  function Rest(spc: nat, k: nat): nat requires spc > 0 { k % spc }

  lemma FileSector(spc: nat, count: nat, k: nat)
    requires spc > 0 && k < count * spc
    ensures Index(spc, k) < count && Rest(spc, k) < spc
  {
    if k / spc >= count { MulMonotone(count, k / spc, spc); }
  }

  lemma IndexRest(spc: nat, i: nat, j: nat)
    requires spc > 0 && Index(spc, i) == Index(spc, j) && Rest(spc, i) == Rest(spc, j)
    ensures i == j
  {
  }

  lemma AtInArea(spc: nat, clusters: nat, c: nat, s: nat)
    requires 2 <= c < clusters + 2 && s < spc
    ensures At(spc, c, s) < clusters * spc
  {
    AtBelow(spc, c, s, clusters + 2, 0);
  }

  /** The data sector holding file sector k of a file with clusters cs. */
  function SectorOf(spc: nat, clusters: nat, cs: seq<nat>, k: nat): (r: nat)
    requires spc > 0 && InArea(clusters, cs) && k < |cs| * spc
    ensures r < clusters * spc
  {
    FileSector(spc, |cs|, k);
    AtInArea(spc, clusters, cs[Index(spc, k)], Rest(spc, k));
    At(spc, cs[Index(spc, k)], Rest(spc, k))
  }

  lemma SectorsApart(spc: nat, clusters: nat, a: seq<nat>, i: nat, b: seq<nat>, j: nat)
    requires spc > 0 && InArea(clusters, a) && InArea(clusters, b) && i < |a| * spc && j < |b| * spc
    requires Apart(a, b) || (a == b && Distinct(a) && i != j)
    ensures SectorOf(spc, clusters, a, i) != SectorOf(spc, clusters, b, j)
  {
    hide At, Index, Rest;
    FileSector(spc, |a|, i);
    FileSector(spc, |b|, j);
    var c, d := a[Index(spc, i)], b[Index(spc, j)];
    assert c in a && d in b;
    AtInjective(spc, c, Rest(spc, i), d, Rest(spc, j));
    if Index(spc, i) == Index(spc, j) && Rest(spc, i) == Rest(spc, j) { IndexRest(spc, i, j); }
  }

  // ---- contents ---------------------------------------------------------------------

  function SectorCount(n: nat): (r: nat) { (n + 511) / 512 }

  lemma ByteSector(n: nat, i: nat)
    requires i < n
    ensures i / 512 < SectorCount(n) && i % 512 < 512
  {
  }

  /** The first n bytes of a file with clusters cs. */
  function Content(spc: nat, clusters: nat, data: seq<Sector>, cs: seq<nat>, n: nat): (r: seq<byte>)
    requires spc > 0 && InArea(clusters, cs) && |data| == clusters * spc && SectorCount(n) <= |cs| * spc
    ensures |r| == n
  {
    seq(n, i requires 0 <= i < n => ByteAt(spc, clusters, data, cs, n, i))
  }

  function ByteAt(spc: nat, clusters: nat, data: seq<Sector>, cs: seq<nat>, n: nat, i: nat): byte
    requires spc > 0 && InArea(clusters, cs) && |data| == clusters * spc && SectorCount(n) <= |cs| * spc && i < n
  {
    ByteSector(n, i);
    data[SectorOf(spc, clusters, cs, i / 512)][i % 512]
  }

  /** Sector k of the written file: 512 bytes, the last one filled up with zeros. */
  function Chunk(bytes: seq<byte>, k: nat): (r: Sector)
    ensures forall j :: 0 <= j < 512 ==> r[j] == if 512 * k + j < |bytes| then bytes[512 * k + j] else 0
  {
    seq(512, j => if 0 <= 512 * k + j < |bytes| then bytes[512 * k + j] else 0)
  }

  /** The data area after the first k sectors of the file have been written. */
  function Store(spc: nat, clusters: nat, data: seq<Sector>, cs: seq<nat>, bytes: seq<byte>, k: nat): (r: seq<Sector>)
    requires spc > 0 && InArea(clusters, cs) && |data| == clusters * spc && k <= |cs| * spc
    ensures |r| == |data|
  {
    if k == 0 then data
    else Store(spc, clusters, data, cs, bytes, k - 1)[SectorOf(spc, clusters, cs, k - 1) := Chunk(bytes, k - 1)]
  }

  lemma {:induction false} StoredSector(spc: nat, clusters: nat, data: seq<Sector>, cs: seq<nat>, bytes: seq<byte>,
                                        k: nat, j: nat)
    requires spc > 0 && InArea(clusters, cs) && |data| == clusters * spc && j < k <= |cs| * spc && Distinct(cs)
    ensures Store(spc, clusters, data, cs, bytes, k)[SectorOf(spc, clusters, cs, j)] == Chunk(bytes, j)
  {
    hide SectorOf, Chunk, Distinct;
    if j < k - 1 {
      StoredSector(spc, clusters, data, cs, bytes, k - 1, j);
      SectorsApart(spc, clusters, cs, j, cs, k - 1);
    }
  }

  lemma {:induction false} UntouchedSector(spc: nat, clusters: nat, data: seq<Sector>, cs: seq<nat>, bytes: seq<byte>,
                                           k: nat, other: seq<nat>, j: nat)
    requires spc > 0 && InArea(clusters, cs) && |data| == clusters * spc && k <= |cs| * spc
    requires InArea(clusters, other) && Apart(other, cs) && j < |other| * spc
    ensures Store(spc, clusters, data, cs, bytes, k)[SectorOf(spc, clusters, other, j)]
            == data[SectorOf(spc, clusters, other, j)]
  {
    hide SectorOf, Chunk, Apart;
    if k > 0 {
      UntouchedSector(spc, clusters, data, cs, bytes, k - 1, other, j);
      SectorsApart(spc, clusters, other, j, cs, k - 1);
    }
  }

  /** What was written is what is read. */
  lemma StoreThenRead(spc: nat, clusters: nat, data: seq<Sector>, cs: seq<nat>, bytes: seq<byte>)
    requires spc > 0 && InArea(clusters, cs) && |data| == clusters * spc && Distinct(cs)
             && SectorCount(|bytes|) <= |cs| * spc
    ensures Content(spc, clusters, Store(spc, clusters, data, cs, bytes, SectorCount(|bytes|)), cs, |bytes|) == bytes
  {
    var k := SectorCount(|bytes|);
    var d := Store(spc, clusters, data, cs, bytes, k);
    hide SectorOf, Store, InArea, Distinct;
    forall i | 0 <= i < |bytes| ensures Content(spc, clusters, d, cs, |bytes|)[i] == bytes[i] {
      ByteSector(|bytes|, i);
      StoredSector(spc, clusters, data, cs, bytes, k, i / 512);
      assert i == 512 * (i / 512) + i % 512;
    }
  }

  /** Writing one file leaves the contents of every disjoint chain alone. */
  lemma StoreKeepsOthers(spc: nat, clusters: nat, data: seq<Sector>, cs: seq<nat>, bytes: seq<byte>, k: nat,
                         other: seq<nat>, n: nat)
    requires spc > 0 && InArea(clusters, cs) && |data| == clusters * spc && k <= |cs| * spc
    requires InArea(clusters, other) && Apart(other, cs) && SectorCount(n) <= |other| * spc
    ensures Content(spc, clusters, Store(spc, clusters, data, cs, bytes, k), other, n)
            == Content(spc, clusters, data, other, n)
  {
    var d := Store(spc, clusters, data, cs, bytes, k);
    hide SectorOf, Store, InArea, Apart;
    forall i | 0 <= i < n ensures Content(spc, clusters, d, other, n)[i] == Content(spc, clusters, data, other, n)[i] {
      ByteSector(n, i);
      UntouchedSector(spc, clusters, data, cs, bytes, k, other, i / 512);
    }
  }

  lemma ContentPrefix(spc: nat, clusters: nat, data: seq<Sector>, cs: seq<nat>, n: nat, m: nat, want: nat)
    requires spc > 0 && InArea(clusters, cs) && |data| == clusters * spc && SectorCount(n) <= |cs| * spc
    requires m <= |cs| && want <= n && SectorCount(want) <= m * spc
    ensures InArea(clusters, cs[..m])
    ensures Content(spc, clusters, data, cs[..m], want) == Content(spc, clusters, data, cs, n)[..want]
  {
    assert InArea(clusters, cs[..m]);
    hide InArea, At, Index, Rest, SectorCount;
    forall i | 0 <= i < want
      ensures Content(spc, clusters, data, cs[..m], want)[i] == Content(spc, clusters, data, cs, n)[i]
    {
      ByteSector(want, i);
      ByteSector(n, i);
      FileSector(spc, m, i / 512);
    }
  }

  // ---- following the table ------------------------------------------------------------

  /** The clusters a read visits: at most n of them, from c on, until the chain ends.
      Any in-range table will do, even a cyclic one. */
  function Visit(fat: seq<nat>, c: nat, n: nat): (r: seq<nat>)
    requires InRange(fat) && |fat| >= 2 && (c < |fat| || c >= EOC_MIN)
    ensures |r| <= n && InArea(|fat| - 2, r)
    decreases n
  {
    if n == 0 || c < 2 || c >= EOC_MIN then [] else [c] + Visit(fat, fat[c], n - 1)
  }

  lemma {:induction false} VisitChain(fat: seq<nat>, cs: seq<nat>, i: nat, n: nat)
    requires InRange(fat) && |fat| >= 2 && IsChain(fat, cs) && i < |cs|
    ensures cs[i] < |fat|
    ensures Visit(fat, cs[i], n) == cs[i..if i + n < |cs| then i + n else |cs|]
    decreases |cs| - i
  {
    assert LinkOk(fat, cs, i);
    if n > 0 {
      if i + 1 < |cs| { VisitChain(fat, cs, i + 1, n - 1); }
      else { assert Visit(fat, fat[cs[i]], n - 1) == []; }
    }
  }

  /** A chain is determined by the table and its first cluster. */
  lemma SameStartSameChain(fat: seq<nat>, a: seq<nat>, b: seq<nat>)
    requires InRange(fat) && |fat| >= 2 && IsChain(fat, a) && IsChain(fat, b) && a[0] == b[0]
    ensures a == b
  {
    var n := |a| + |b|;
    VisitChain(fat, a, 0, n);
    VisitChain(fat, b, 0, n);
  }

  lemma ChainInArea(fat: seq<nat>, cs: seq<nat>)
    requires |fat| >= 2 && IsChain(fat, cs)
    ensures InArea(|fat| - 2, cs)
  {
    forall i | 0 <= i < |cs| ensures 2 <= cs[i] < |fat| { assert LinkOk(fat, cs, i); }
  }
}
