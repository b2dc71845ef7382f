/** Which bytes of an NTFS record mean what (src/ntfs.c), and a list of data runs given byte by
    byte. */
module NtfsLayout {
  import opened Bits
  import opened LittleEndian
  import opened NtfsFixup
  import opened NtfsRuns
  import opened NtfsIndex

  function Two(rec: seq<byte>, p: nat): nat
    requires p + 2 <= |rec|
  {
    rec[p] + 256 * rec[p + 1] as int
  }

  function Four(rec: seq<byte>, p: nat): nat
    requires p + 4 <= |rec|
  {
    rec[p] + 256 * (rec[p + 1] as int + 256 * (rec[p + 2] as int + 256 * rec[p + 3] as int))
  }

  /** The header of a record: update-sequence array at 4 and 6, first attribute at 20, used and
      allocated size at 24 and 28, all with the low byte first. */
  lemma RecordHeader(rec: seq<byte>)
    requires |rec| >= 48
    ensures ArrayAt(rec) == Two(rec, 4) && ArrayCount(rec) == Two(rec, 6) && FirstAttr(rec) == Two(rec, 20)
    ensures UsedSize(rec) == Four(rec, 24) && AllocSize(rec) == Four(rec, 28)
  {
  }

  /** The index root: the value's place at 20 of the attribute, whose length is at 4; in the
      value the entries' place at 16, counted from there, and their size at 20. */
  lemma RootFields(rec: seq<byte>, ra: nat)
    requires RootInside(rec, ra)
    ensures var r := RootAt(rec, ra);
            && r.ra == ra && r.len == Four(rec, ra + 4) && r.ir == ra + Two(rec, ra + 20)
            && r.eb == r.ir + 16 + Four(rec, r.ir + 16) && r.total == Four(rec, r.ir + 20)
  {
  }

  /** The attribute looked up is of type 0x90, and a lookup ends at type 0xFFFFFFFF. */
  lemma AttributeTypes(rec: seq<byte>, r: Root, last: nat, kind: nat, off: nat)
    requires off + 16 <= |rec|
    ensures IndexOk(rec, r, last) ==> Four(rec, r.ra) == 0x90
    ensures Four(rec, off) == 0xFFFF_FFFF ==> FindFrom(rec, kind, off).None?
    ensures 0 < Four(rec, off) < 0xFFFF_FFFF && 0 < Four(rec, off + 4) <= |rec| - off ==>
              FindFrom(rec, Four(rec, off), off).Some?
  {
    hide EntriesOk, AttrsOk;
  }

  /** An index entry: its length at 8, the length of its content at 10, and bit 1 of the flags
      at 12 on the last one. */
  lemma EntryFields(rec: seq<byte>, p: nat)
    requires p + 16 <= |rec|
    ensures EntryLen(rec, p) == Two(rec, p + 8) && ContentLen(rec, p) == Two(rec, p + 10)
    ensures IsLast(rec, p) <==> rec[p + 12] / 2 % 2 == 1
  {
    var a, b := rec[p + 12] as int, rec[p + 13] as int + 256 * (rec[p + 14] as int + 256 * rec[p + 15] as int);
    assert U32(rec, p + 12) == a + 256 * b;
    SecondBit(a, b);
  }

  lemma SecondBit(a: nat, b: nat)
    ensures (a + 256 * b) / 2 % 2 == a / 2 % 2
  {
    assert a + 256 * b == 2 * (a / 2 + 128 * b) + a % 2;
    DivUnique(a + 256 * b, 2, a / 2 + 128 * b, a % 2);
    EvenPart(a / 2, b);
  }

  lemma EvenPart(q: nat, b: nat)
    ensures (q + 128 * b) % 2 == q % 2
  {
  }

  /** The sequence number of the next write: one more, and 1 after 0xFFFF. */
  lemma NextSequence(n: nat)
    requires n < 0x1_0000
    ensures n < 0xFFFF ==> NextNumber(n) == n + 1
    ensures NextNumber(0xFFFF) == 1
  {
  }

  // ---- data runs ------------------------------------------------------------------------------

  /** 24 clusters from 0x5634, then 16 clusters from 16 clusters before that. */
  const TWO_RUNS: seq<byte> := [0x21, 0x18, 0x34, 0x56, 0x11, 0x10, 0xF0, 0x00]

  lemma RunExample()
    ensures Parse(TWO_RUNS) == Parsed([Run(0, 0x5634, 24), Run(24, 0x5624, 16)], 40)
  {
    OneByte(0x18);
    OneByte(0x10);
    OneByte(0xF0);
    TwoBytes(0x34, 0x56);
    assert Pow256(0) == 1 && Pow256(1) == 256 && Pow256(2) == 65536;
    var b := TWO_RUNS;
    assert b[1..2] == [0x18] && b[2..4] == [0x34, 0x56] && b[5..6] == [0x10] && b[6..7] == [0xF0];
    var one := [Run(0, 0x5634, 24)];
    var two := one + [Run(24, 0x5624, 16)];
    assert ParseFrom(b, 7, 0x5624, two, 40) == Parsed(two, 40);
    assert ParseFrom(b, 4, 0x5634, one, 24) == ParseFrom(b, 7, 0x5624, two, 40);
    assert [] + [Run(0, 0x5634, 24)] == one;
    assert ParseFrom(b, 0, 0, [], 0) == ParseFrom(b, 4, 0x5634, one, 24);
  }

  lemma OneByte(x: byte)
    ensures FromLe([x]) == x
  {
    assert [x][1..] == [];
  }

  lemma TwoBytes(x: byte, y: byte)
    ensures FromLe([x, y]) == x as int + 256 * y as int
  {
    assert [x, y][1..] == [y];
    OneByte(y);
  }

  /** No more than 256 runs are taken. */
  lemma RunLimit(b: seq<byte>, pos: nat, prev: int, runs: seq<Run>, total: nat)
    requires pos <= |b| && |runs| == 256
    ensures ParseFrom(b, pos, prev, runs, total) == Parsed(runs, total)
    ensures var more := ParseFrom(b, pos, 0, runs[..255], 0);
            pos + 3 <= |b| && b[pos] == 0x11 ==> more.Parsed? && |more.runs| == 256
  {
    if pos + 3 <= |b| && b[pos] == 0x11 {
      assert b[pos + 1..pos + 2] == [b[pos + 1]] && b[pos + 2..pos + 3] == [b[pos + 2]];
      OneByte(b[pos + 1]);
      OneByte(b[pos + 2]);
      assert Pow256(0) == 1 && Pow256(1) == 256;
    }
  }
}
