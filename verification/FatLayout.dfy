/** The bytes of a FAT16 volume (src/fat16.c): where on the disk each table entry, directory
    slot and file byte lies, and which bytes of a slot mean what. */
module FatLayout {
  import opened Bits
  import opened LittleEndian
  import opened FatChains
  import opened FatData
  import opened FatNames
  import opened FatDirectory
  import opened FatVolume
  import opened FatDisk

  // ---- places on the disk ---------------------------------------------------------------------

  /** The byte at address a, sectors of 512 bytes one after the other. */
  function DiskByte(d: Disk, a: nat): byte
    requires a < 512 * |d|
  {
    d[a / 512][a % 512]
  }

  lemma Address(s: nat, j: nat)
    requires j < 512
    ensures (512 * s + j) / 512 == s && (512 * s + j) % 512 == j
  {
  }

  /** Entry c of the table is the two bytes at 2c behind the start of the first table, low
      byte first; a second table lies right behind the first. */
  lemma TableOnDisk(g: Geo, d: Disk, c: nat)
    requires Fits(g, d) && c < g.total + 2
    ensures 512 * g.fatStart + 2 * c + 1 < 512 * |d|
    ensures var a := 512 * g.fatStart + 2 * c; FatOf(g, d)[c] == DiskByte(d, a) + 256 * DiskByte(d, a + 1) as int
    ensures g.twoFats && Mirrored(g, d) ==>
              var a := 512 * (g.fatStart + g.fatSize) + 2 * c;
              a + 1 < 512 * |d| && FatOf(g, d)[c] == DiskByte(d, a) + 256 * DiskByte(d, a + 1) as int
  {
    hide Geo.DataSectors;
    var s, j := c / 256, 2 * (c % 256);
    assert c < 256 * g.fatSize && s < g.fatSize && 2 * c == 512 * s + j;
    Address(g.fatStart + s, j);
    Address(g.fatStart + s, j + 1);
    assert Table(g, d)[s] == d[g.fatStart + s];
    if g.twoFats && Mirrored(g, d) {
      Address(g.fatStart + g.fatSize + s, j);
      Address(g.fatStart + g.fatSize + s, j + 1);
      assert Copy(g, d)[s] == d[g.fatStart + g.fatSize + s];
    }
  }

  /** Directory slot i is the 32 bytes at 32i behind the tables. */
  lemma RootOnDisk(g: Geo, d: Disk, i: nat, b: nat)
    requires Fits(g, d) && i < 16 * g.rootSectors && b < 32
    ensures var a := 512 * (g.fatStart + (if g.twoFats then 2 else 1) * g.fatSize) + 32 * i + b;
            a < 512 * |d| && RootOf(g, d)[i][b] == DiskByte(d, a)
  {
    hide Geo.DataSectors;
    var s, j := i / 16, 32 * (i % 16) + b;
    assert 32 * i + b == 512 * s + j;
    Address(g.RootLba() + s, j);
    assert RootArea(g, d)[s] == d[g.RootLba() + s];
  }

  /** Byte j of sector s of cluster c; cluster 2 is the first behind the root directory. */
  function FileAddress(g: Geo, c: nat, s: nat, j: nat): nat
    requires c >= 2
  {
    512 * (g.DataStart() + (c - 2) * g.spc + s) + j
  }

  /** Byte n of a file lies in cluster number n / (512 spc) of its chain. */
  lemma FileOnDisk(g: Geo, d: Disk, cs: seq<nat>, size: nat, n: nat, i: nat, s: nat)
    requires Fits(g, d) && InArea(g.total, cs) && SectorCount(size) <= |cs| * g.spc && n < size
    requires i == n / 512 / g.spc && s == n / 512 % g.spc
    ensures i < |cs| && cs[i] >= 2 && |DataOf(g, d)| == g.total * g.spc
    ensures var a := FileAddress(g, cs[i], s, n % 512);
            a < 512 * |d| && Content(g.spc, g.total, DataOf(g, d), cs, size)[n] == DiskByte(d, a)
  {
    ByteSector(size, n);
    FileSector(g.spc, |cs|, n / 512);
    var x := (cs[i] - 2) * g.spc + s;
    AtInArea(g.spc, g.total, cs[i], s);
    assert SectorOf(g.spc, g.total, cs, n / 512) == x;
    Address(g.DataStart() + x, n % 512);
    assert DataOf(g, d)[x] == d[g.DataStart() + x];
  }

  // ---- the bytes of a slot ----------------------------------------------------------------------

  /** What the bytes of a slot mean: 0 or 0xE5 first is a free slot, attribute 0x0F a part of a
      long name, attribute bit 3 the volume label and bit 4 a directory; the first cluster
      is at 26 and the size at 28. */
  lemma SlotFields(e: Slot)
    ensures IsFree(e) <==> e[0] == 0x00 || e[0] == 0xE5
    ensures Live(e) <==> e[0] != 0x00 && e[0] != 0xE5 && e[11] != 0x0F && e[11] / 8 % 2 == 0
    ensures IsDir(e) <==> e[11] / 16 % 2 == 1
    ensures ClusterOf(e) == e[26] + 256 * e[27] as int
    ensures SizeOf(e) == e[28] + 256 * (e[29] as int + 256 * (e[30] as int + 256 * e[31] as int))
  {
  }

  /** The entry of a new file: name, attribute 0x20, first cluster, size, zeros elsewhere. */
  lemma FileEntryBytes(name: seq<byte>, cluster: nat, size: nat)
    requires |name| == 11 && cluster < 0x1_0000 && size < TWO32
    ensures var e := FileEntry(name, cluster, size);
            && e[..11] == name && e[11] == 0x20 && e[26] == cluster % 256 && e[27] == cluster / 256
            && e[28] + 256 * (e[29] as int + 256 * (e[30] as int + 256 * e[31] as int)) == size
            && forall b :: 12 <= b < 26 ==> e[b] == 0
  {
    SmallMod(cluster, 0x1_0000);
    SmallMod(size, TWO32);
    SlotFields(FileEntry(name, cluster, size));
    assert U16(FileEntry(name, cluster, size), 26) == cluster;
  }

  /** Where the 13 characters of a long-name slot are. */
  const CHAR_AT: seq<nat> := [1, 3, 5, 7, 9, 14, 16, 18, 20, 22, 24, 28, 30]

  /** A long-name slot: its number, with 0x40 on the one that comes first, attribute 0x0F, the
      checksum at 13, and 16-bit characters: the name, a zero, then 0xFFFF. */
  lemma LongSlotBytes(name: seq<byte>, sum: byte, no: nat, last: bool, i: nat)
    requires 1 <= no <= 20 && i < 13
    ensures var e, c := LongSlot(name, sum, no, last), 13 * (no - 1) + i;
            && e[0] == (if last then no + 0x40 else no) && e[11] == 0x0F && e[12] == 0 && e[13] == sum
            && e[26] == 0 && e[27] == 0
            && (c < |name| ==> e[CHAR_AT[i]] == name[c] && e[CHAR_AT[i] + 1] == 0)
            && (c == |name| ==> e[CHAR_AT[i]] == 0 && e[CHAR_AT[i] + 1] == 0)
            && (c > |name| ==> e[CHAR_AT[i]] == 0xFF && e[CHAR_AT[i] + 1] == 0xFF)
  {
    assert CHAR_AT[i] == CharPos(i);
  }

  /** The slots of a long name: the last part first, numbered down to 1. */
  lemma LongRunOrder(name: seq<byte>, sum: byte, n: nat)
    requires |name| <= 260 && n < (|name| + 12) / 13
    ensures var count := (|name| + 12) / 13;
            && |LongRun(name, sum)| == count && LongRun(name, sum)[n] == LongSlot(name, sum, count - n, n == 0)
  {
  }

  // ---- names ----------------------------------------------------------------------------------------

  const README_TXT: seq<byte> := [0x52, 0x45, 0x41, 0x44, 0x4D, 0x45, 0x2E, 0x54, 0x58, 0x54]
  const README_83: seq<byte> := [0x52, 0x45, 0x41, 0x44, 0x4D, 0x45, 0x20, 0x20, 0x54, 0x58, 0x54]

  /** README.TXT is stored as "README  TXT", whose long-name checksum is 0x73. */
  lemma ShortNameExample()
    ensures !NeedsLong(README_TXT) && Encode83(README_TXT) == README_83 && Checksum(README_83) == 0x73
  {
    DotAtSix();
    assert Base(README_TXT) == README_TXT[..6] && Ext(README_TXT) == README_TXT[7..];
    SumsSoFar(11);
    assert README_83[..11] == README_83;
  }

  lemma DotAtSix()
    ensures LastDot(README_TXT) == 6
  {
    assert README_TXT[6] == DOT && README_TXT[9] != DOT && README_TXT[8] != DOT && README_TXT[7] != DOT;
  }

  const README_SUMS: seq<byte> := [0x0, 0x52, 0x6e, 0x78, 0x80, 0x8d, 0xb, 0xa5, 0xf2, 0xcd, 0x3e, 0x73]

  lemma {:induction false} SumsSoFar(k: nat)
    requires k <= 11
    ensures Checksum(README_83[..k]) == README_SUMS[k]
  {
    if k > 0 {
      SumsSoFar(k - 1);
      assert README_83[..k][..k - 1] == README_83[..k - 1];
      assert README_SUMS[k] == Rotate(README_SUMS[k - 1], README_83[k - 1]);
    }
  }

  /** Each step of the checksum rotates right by one bit and adds the next byte. */
  lemma ChecksumStep(s: seq<byte>, c: byte)
    ensures Checksum([]) == 0
    ensures var sum := Checksum(s); Checksum(s + [c]) == (sum / 2 + 128 * (sum % 2) + c) % 256
  {
    assert (s + [c])[..|s|] == s;
  }

  /** Which names need long-name slots: those with a small letter or one of space + , ; = [ ],
      with a dot before the last one, with more than 8 bytes before or 3 bytes behind it, or
      with nothing before it. */
  lemma NeedsLongMeaning(name: seq<byte>)
    ensures var d := LastDot(name);
            NeedsLong(name)
            <==> (exists i :: 0 <= i < |name| && (0x61 <= name[i] <= 0x7A || OddByte(name[i])))
                 || (exists i :: 0 <= i < d && name[i] == 0x2E)
                 || d > 8 || |name| > d + 4 || d == 0
  {
    var d := LastDot(name);
    if DOT in Base(name) {
      var i :| 0 <= i < |Base(name)| && Base(name)[i] == DOT;
      assert 0 <= i < d && name[i] == 0x2E;
    }
    if i :| 0 <= i < d && name[i] == 0x2E { assert Base(name)[i] == DOT; }
    if i :| 0 <= i < |name| && Special(name[i]) { assert 0x61 <= name[i] <= 0x7A || OddByte(name[i]); }
    if i :| 0 <= i < |name| && (0x61 <= name[i] <= 0x7A || OddByte(name[i])) { assert Special(name[i]); }
  }

  predicate OddByte(c: byte) {
    c == 0x20 || c == 0x2B || c == 0x2C || c == 0x3B || c == 0x3D || c == 0x5B || c == 0x5D
  }

  /** A generated name: up to six letters, a tilde, the number in decimal as far as it fits into
      eight bytes, spaces; then three bytes of extension. */
  lemma GeneratedName(name: seq<byte>, k: nat, i: nat)
    requires 1 <= k <= 99 && i < 8
    ensures var e, n := ShortName(name, k), |Stem(name)|;
            && n <= 6 && e[n] == 0x7E && (i < n ==> e[i] == Stem(name)[i])
            && (k < 10 ==> e[n + 1] == 0x30 + k && (i > n + 1 ==> e[i] == 0x20))
            && (k >= 10 ==> e[n + 1] == 0x30 + k / 10 && (i == n + 2 ==> e[i] == 0x30 + k % 10)
                            && (i > n + 2 ==> e[i] == 0x20))
            && e[8..] == Padded(AllUpper(Ext(name)), 3)
  {
    hide Stem;
  }

  /** A byte as 8.3 names store it: capital letters. */
  function Capital(c: byte): byte {
    if c == 0x61 then 0x41 else if c == 0x7A then 0x5A else if 0x61 < c < 0x7A then c - 0x20 else c
  }

  /** An 8.3 name: the bytes before the last dot and those behind it, in capitals, cut or filled
      up with spaces to eight and three. */
  lemma ShortNameBytes(name: seq<byte>, i: nat)
    requires i < 11
    ensures var e, d := Encode83(name), LastDot(name);
            && (i < 8 ==> e[i] == if i < d then Capital(name[i]) else 0x20)
            && (i >= 8 ==> e[i] == if d + 1 + (i - 8) < |name| then Capital(name[d + 1 + (i - 8)]) else 0x20)
  {
  }

  /** The names the driver can hold: 1 to 127 bytes without 0. */
  lemma FileNameMeaning(name: seq<byte>)
    ensures FileName(name) <==> 1 <= |name| <= 127 && forall i :: 0 <= i < |name| ==> name[i] != 0
  {
  }

  /** A file takes as few clusters as hold it, and at least one. */
  lemma FewestClusters(spc: nat, n: nat)
    requires spc > 0
    ensures var c := Needed(spc, n); c >= 1 && n <= c * (512 * spc) && (c > 1 ==> (c - 1) * (512 * spc) < n)
  {
    var size := spc * 512;
    var q, r := (n + size - 1) / size, (n + size - 1) % size;
    assert n + size - 1 == size * q + r;
    assert Clusters(spc, n) == q;
    MulComm(size, q);
    if q > 1 { MulDistributeRight(q, -1, size); }
  }

  /** Following a chain ends at the values 0 and 1 and from 0xFFF8 on, and nowhere else. */
  lemma EndMarks(fat: seq<nat>, c: nat, n: nat)
    requires InRange(fat) && |fat| >= 2 && (c < |fat| || c >= 0xFFF8) && n > 0
    ensures Visit(fat, c, n) == [] <==> c < 2 || c >= 0xFFF8
  {
  }
}
