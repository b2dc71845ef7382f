/** The sectors of a FAT16 volume (src/fat16.c): where the two tables, the root directory
    and the data area lie, and what writing one sector changes. */
module FatDisk {
  import opened LittleEndian
  import opened FatChains
  import opened FatData
  import opened FatNames
  import opened FatVolume

  type Disk = seq<Sector>

  /** The mounted file system's layout; one or two tables, as fat16_mount demands. */
  datatype Geo = Geo(fatStart: nat, fatSize: nat, twoFats: bool, rootSectors: nat, spc: nat, total: nat) {
    function RootLba(): nat { fatStart + fatSize + if twoFats then fatSize else 0 }
    function DataStart(): nat { RootLba() + rootSectors }
    function DataSectors(): nat { total * spc }
    function DataEnd(): nat { DataStart() + DataSectors() }
  }

  predicate Fits(g: Geo, d: Disk) {
    && 0 < g.spc < 256 && g.total + 2 <= EOC_MIN && g.total + 2 <= 256 * g.fatSize
    && g.DataEnd() <= |d|
  }

  // ---- the areas -----------------------------------------------------------------------

  function Table(g: Geo, d: Disk): (r: seq<Sector>)
    requires Fits(g, d)
    ensures |r| == g.fatSize
  {
    d[g.fatStart..g.fatStart + g.fatSize]
  }

  function Copy(g: Geo, d: Disk): (r: seq<Sector>)
    requires Fits(g, d) && g.twoFats
    ensures |r| == g.fatSize
  {
    d[g.fatStart + g.fatSize..g.fatStart + 2 * g.fatSize]
  }

  function RootArea(g: Geo, d: Disk): (r: seq<Sector>)
    requires Fits(g, d)
    ensures |r| == g.rootSectors
  {
    d[g.RootLba()..g.DataStart()]
  }

  function DataOf(g: Geo, d: Disk): (r: seq<Sector>)
    requires Fits(g, d)
    ensures |r| == g.DataSectors()
  {
    d[g.DataStart()..g.DataEnd()]
  }

  /** The second table is a copy of the first. */
  predicate Mirrored(g: Geo, d: Disk)
    requires Fits(g, d)
  {
    g.twoFats ==> Table(g, d) == Copy(g, d)
  }

  lemma SliceOutside(d: Disk, x: nat, s: Sector, a: nat, b: nat)
    requires a <= b <= |d| && x < |d| && !(a <= x < b)
    ensures d[x := s][a..b] == d[a..b]
  {
  }

  lemma SliceInside(d: Disk, x: nat, s: Sector, a: nat, b: nat)
    requires a <= x < b <= |d|
    ensures d[x := s][a..b] == d[a..b][x - a := s]
  {
  }

  // ---- what the sectors hold -----------------------------------------------------------

  function Word(s: Sector, i: nat): nat
    requires i < 256
  {
    U16(s, 2 * i)
  }

  /** The first n entries of a table. */
  function Words(t: seq<Sector>, n: nat): (r: seq<nat>)
    requires n <= 256 * |t|
    ensures |r| == n
    ensures forall c :: 0 <= c < n ==> r[c] == Word(t[c / 256], c % 256)
  {
    seq(n, c requires 0 <= c < n => Word(t[c / 256], c % 256))
  }

  function SlotIn(s: Sector, i: nat): Slot
    requires i < 16
  {
    s[32 * i..32 * i + 32]
  }

  function Slots(t: seq<Sector>): (r: seq<Slot>)
    ensures |r| == 16 * |t|
    ensures forall i :: 0 <= i < |r| ==> r[i] == SlotIn(t[i / 16], i % 16)
  {
    seq(16 * |t|, i requires 0 <= i < 16 * |t| => SlotIn(t[i / 16], i % 16))
  }

  function FatOf(g: Geo, d: Disk): (r: seq<nat>)
    requires Fits(g, d)
    ensures |r| == g.total + 2
  {
    Words(Table(g, d), g.total + 2)
  }

  function RootOf(g: Geo, d: Disk): (r: seq<Slot>)
    requires Fits(g, d)
    ensures |r| == 16 * g.rootSectors
  {
    Slots(RootArea(g, d))
  }

  function View(g: Geo, d: Disk): (v: Vol)
    requires Fits(g, d)
  {
    Vol(FatOf(g, d), RootOf(g, d), DataOf(g, d))
  }

  // ---- writing a table entry -----------------------------------------------------------

  function PutWord(s: Sector, i: nat, v: nat): (r: Sector)
    requires i < 256 && v < 0x1_0000
  {
    PutU16(s, 2 * i, v)
  }

  lemma WordPut(s: Sector, i: nat, v: nat, j: nat)
    requires i < 256 && j < 256 && v < 0x1_0000
    ensures Word(PutWord(s, i, v), j) == if j == i then v else Word(s, j)
  {
    if j != i { OtherWord(s, 2 * i, v, 2 * j); }
  }

  lemma WordsPut(t: seq<Sector>, n: nat, c: nat, v: nat)
    requires c < n <= 256 * |t| && v < 0x1_0000
    ensures Words(t[c / 256 := PutWord(t[c / 256], c % 256, v)], n) == Words(t, n)[c := v]
  {
    var u := t[c / 256 := PutWord(t[c / 256], c % 256, v)];
    hide PutWord, Word;
    forall x | 0 <= x < n ensures Words(u, n)[x] == Words(t, n)[c := v][x] {
      if x / 256 == c / 256 { WordPut(t[c / 256], c % 256, v, x % 256); }
    }
  }

  lemma TableAreas(g: Geo, d: Disk, k: nat, s: Sector)
    requires Fits(g, d) && k < g.fatSize
    ensures g.fatStart + k < |d|
    ensures var e := d[g.fatStart + k := s];
            && Fits(g, e) && Table(g, e) == Table(g, d)[k := s] && RootArea(g, e) == RootArea(g, d)
               && DataOf(g, e) == DataOf(g, d)
            && (g.twoFats ==> Copy(g, e) == Copy(g, d))
  {
    hide Geo.DataSectors;
    var x := g.fatStart + k;
    SliceInside(d, x, s, g.fatStart, g.fatStart + g.fatSize);
    SliceOutside(d, x, s, g.RootLba(), g.DataStart());
    SliceOutside(d, x, s, g.DataStart(), g.DataEnd());
    if g.twoFats { SliceOutside(d, x, s, g.fatStart + g.fatSize, g.fatStart + 2 * g.fatSize); }
  }

  lemma CopyAreas(g: Geo, d: Disk, k: nat, s: Sector)
    requires Fits(g, d) && k < g.fatSize && g.twoFats
    ensures g.fatStart + k + g.fatSize < |d|
    ensures var e := d[g.fatStart + k + g.fatSize := s];
            && Fits(g, e) && Table(g, e) == Table(g, d) && RootArea(g, e) == RootArea(g, d)
            && DataOf(g, e) == DataOf(g, d)
            && Copy(g, e) == Copy(g, d)[k := s]
  {
    hide Geo.DataSectors;
    var x := g.fatStart + k + g.fatSize;
    SliceOutside(d, x, s, g.fatStart, g.fatStart + g.fatSize);
    SliceOutside(d, x, s, g.RootLba(), g.DataStart());
    SliceOutside(d, x, s, g.DataStart(), g.DataEnd());
    SliceInside(d, x, s, g.fatStart + g.fatSize, g.fatStart + 2 * g.fatSize);
  }

  /** One sector of the first table replaced, and its copy with it. */
  function PutFat(g: Geo, d: Disk, k: nat, s: Sector): (r: Disk)
    requires Fits(g, d) && k < g.fatSize
    ensures |r| == |d| && Fits(g, r)
  {
    TableAreas(g, d, k, s);
    var e := d[g.fatStart + k := s];
    if g.twoFats then
      CopyAreas(g, e, k, s);
      e[g.fatStart + k + g.fatSize := s]
    else e
  }

  lemma PutFatAreas(g: Geo, d: Disk, k: nat, s: Sector)
    requires Fits(g, d) && k < g.fatSize
    ensures var e := PutFat(g, d, k, s);
            && Table(g, e) == Table(g, d)[k := s] && RootArea(g, e) == RootArea(g, d) && DataOf(g, e) == DataOf(g, d)
            && (g.twoFats ==> Copy(g, e) == Copy(g, d)[k := s])
  {
    hide Fits, Table, Copy, RootArea, DataOf;
    TableAreas(g, d, k, s);
    if g.twoFats { CopyAreas(g, d[g.fatStart + k := s], k, s); }
  }

  /** Setting an entry changes that entry of both tables and nothing else. */
  lemma SetEntry(g: Geo, d: Disk, c: nat, v: nat)
    requires Fits(g, d) && c < g.total + 2 && v < 0x1_0000
    ensures c / 256 < g.fatSize
    ensures var e := PutFat(g, d, c / 256, PutWord(Table(g, d)[c / 256], c % 256, v));
            View(g, e) == View(g, d).(fat := FatOf(g, d)[c := v]) && (Mirrored(g, d) ==> Mirrored(g, e))
  {
    hide Table, Copy, RootArea, DataOf, PutFat, PutWord;
    PutFatAreas(g, d, c / 256, PutWord(Table(g, d)[c / 256], c % 256, v));
    WordsPut(Table(g, d), g.total + 2, c, v);
  }

  // ---- writing a directory slot ----------------------------------------------------------

  function PutEntry(s: Sector, i: nat, e: Slot): (r: Sector)
    requires i < 16
  {
    s[..32 * i] + e + s[32 * i + 32..]
  }

  lemma SlotPut(s: Sector, i: nat, e: Slot, j: nat)
    requires i < 16 && j < 16
    ensures SlotIn(PutEntry(s, i, e), j) == if j == i then e else SlotIn(s, j)
  {
    var r := PutEntry(s, i, e);
    if j == i {
      assert r[32 * i..32 * i + 32] == e;
    } else {
      assert r[32 * j..32 * j + 32] == s[32 * j..32 * j + 32];
    }
  }

  lemma SlotsPut(t: seq<Sector>, i: nat, e: Slot)
    requires i < 16 * |t|
    ensures Slots(t[i / 16 := PutEntry(t[i / 16], i % 16, e)]) == Slots(t)[i := e]
  {
    var u := t[i / 16 := PutEntry(t[i / 16], i % 16, e)];
    hide SlotIn, PutEntry;
    forall x | 0 <= x < 16 * |t| ensures Slots(u)[x] == Slots(t)[i := e][x] {
      if x / 16 == i / 16 { SlotPut(t[i / 16], i % 16, e, x % 16); }
    }
  }

  lemma RootAreas(g: Geo, d: Disk, k: nat, s: Sector)
    requires Fits(g, d) && k < g.rootSectors
    ensures g.RootLba() + k < |d|
    ensures var e := d[g.RootLba() + k := s];
            && Fits(g, e) && Table(g, e) == Table(g, d) && RootArea(g, e) == RootArea(g, d)[k := s]
               && DataOf(g, e) == DataOf(g, d)
            && (g.twoFats ==> Copy(g, e) == Copy(g, d))
  {
    hide Geo.DataSectors;
    var x := g.RootLba() + k;
    SliceOutside(d, x, s, g.fatStart, g.fatStart + g.fatSize);
    SliceInside(d, x, s, g.RootLba(), g.DataStart());
    SliceOutside(d, x, s, g.DataStart(), g.DataEnd());
    if g.twoFats { SliceOutside(d, x, s, g.fatStart + g.fatSize, g.fatStart + 2 * g.fatSize); }
  }

  lemma SetSlot(g: Geo, d: Disk, i: nat, e: Slot)
    requires Fits(g, d) && i < 16 * g.rootSectors
    ensures i / 16 < g.rootSectors && g.RootLba() + i / 16 < |d|
    ensures var f := d[g.RootLba() + i / 16 := PutEntry(RootArea(g, d)[i / 16], i % 16, e)];
            Fits(g, f) && View(g, f) == View(g, d).(root := RootOf(g, d)[i := e]) && (Mirrored(g, d) ==> Mirrored(g, f))
  {
    hide Fits, Table, Copy, RootArea, DataOf, PutEntry;
    RootAreas(g, d, i / 16, PutEntry(RootArea(g, d)[i / 16], i % 16, e));
    SlotsPut(RootArea(g, d), i, e);
  }

  // ---- writing a data sector -------------------------------------------------------------

  lemma SetData(g: Geo, d: Disk, k: nat, s: Sector)
    requires Fits(g, d) && k < g.DataSectors()
    ensures g.DataStart() + k < |d|
    ensures var f := d[g.DataStart() + k := s];
            Fits(g, f) && View(g, f) == View(g, d).(data := DataOf(g, d)[k := s]) && (Mirrored(g, d) ==> Mirrored(g, f))
  {
    hide Geo.DataSectors;
    var x := g.DataStart() + k;
    SliceOutside(d, x, s, g.fatStart, g.fatStart + g.fatSize);
    SliceOutside(d, x, s, g.RootLba(), g.DataStart());
    SliceInside(d, x, s, g.DataStart(), g.DataEnd());
    if g.twoFats { SliceOutside(d, x, s, g.fatStart + g.fatSize, g.fatStart + 2 * g.fatSize); }
  }
}
