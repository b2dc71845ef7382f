/** Directory updates on disk (src/ntfs.c): a record is read and its fixups applied, edited,
    and written back with new fixups; what the next read of it finds. */
module NtfsRecord {
  import opened Bits
  import opened LittleEndian
  import opened NtfsFixup
  import opened NtfsIndex
  import opened NtfsIndexEdit
  import opened NtfsRemove
  import opened NtfsDriver

  const FILE_MAGIC: seq<byte> := [0x46, 0x49, 0x4C, 0x45]

  /** read_mft_record, once the sectors are in memory. */
  function Load(disk: seq<byte>): (f: Fixed)
    requires Readable(disk)
    ensures |f.rec| == |disk|
  {
    if disk[..4] != FILE_MAGIC then Fixed(false, disk) else Apply(disk)
  }

  /** A directory record as the driver builds it: the update-sequence array lies between
      the header and the first attribute. */
  ghost predicate Directory(rec: seq<byte>, r: Root, last: nat) {
    && IndexOk(rec, r, last) && WellPlaced(rec) && rec[..4] == FILE_MAGIC
    && 48 <= ArrayAt(rec) && ArrayAt(rec) + 2 * ArrayCount(rec) <= FirstAttr(rec)
  }

  // ---- what the update-sequence array does not touch ----------------------------------------

  ghost predicate SameFrom(a: seq<byte>, b: seq<byte>, from: nat) {
    |a| == |b| && forall p :: from <= p < |a| ==> a[p] == b[p]
  }

  lemma SameWords(a: seq<byte>, b: seq<byte>, from: nat, p: nat)
    requires SameFrom(a, b, from) && from <= p
    ensures p + 2 <= |a| ==> U16(a, p) == U16(b, p)
    ensures p + 4 <= |a| ==> U32(a, p) == U32(b, p)
  {
  }

  lemma {:induction false} SameFind(a: seq<byte>, b: seq<byte>, from: nat, kind: nat, off: nat)
    requires SameFrom(a, b, from) && from <= off
    ensures FindFrom(a, kind, off) == FindFrom(b, kind, off)
    decreases |a| - off
  {
    hide U16, U32;
    SameWords(a, b, from, off);
    SameWords(a, b, from, off + 4);
    if off + 16 <= |a| && U32(a, off + 4) > 0 { SameFind(a, b, from, kind, off + U32(a, off + 4)); }
  }

  lemma {:induction false} SameAttrs(a: seq<byte>, b: seq<byte>, from: nat, off: nat, used: nat)
    requires SameFrom(a, b, from) && from <= off && used <= |a| && AttrsOk(b, off, used)
    ensures AttrsOk(a, off, used)
    decreases used - off
  {
    hide U16, U32;
    SameWords(a, b, from, off);
    SameWords(a, b, from, off + 4);
    if U32(b, off) != END && U32(b, off) != 0 { SameAttrs(a, b, from, off + U32(b, off + 4), used); }
  }

  lemma SameHeader(a: seq<byte>, b: seq<byte>, from: nat, p: nat)
    requires SameFrom(a, b, from) && from <= p && p + 16 <= |a|
    ensures EntryLen(a, p) == EntryLen(b, p) && ContentLen(a, p) == ContentLen(b, p) && (IsLast(a, p) <==> IsLast(b, p))
  {
    hide U16, U32;
    SameWords(a, b, from, p + 8);
    SameWords(a, b, from, p + 10);
    SameWords(a, b, from, p + 12);
  }

  lemma {:induction false} SameEntries(a: seq<byte>, b: seq<byte>, from: nat, eb: nat, total: nat, off: nat, last: nat)
    requires SameFrom(a, b, from) && from <= eb && eb + total <= |a| && EntriesOk(b, eb, total, off, last)
    ensures EntriesOk(a, eb, total, off, last)
    decreases total - off
  {
    hide EntryLen, ContentLen, IsLast;
    SameHeader(a, b, from, eb + off);
    if off < last { SameEntries(a, b, from, eb, total, off + EntryLen(b, eb + off), last); }
  }

  lemma {:induction false} SameWalk(a: seq<byte>, b: seq<byte>, from: nat, eb: nat, total: nat, off: nat)
    requires SameFrom(a, b, from) && from <= eb && eb + total <= |a|
    ensures WalkFrom(a, eb, total, off) == WalkFrom(b, eb, total, off)
    decreases total - off
  {
    hide EntryLen, ContentLen, IsLast;
    if off + 16 <= total {
      SameHeader(a, b, from, eb + off);
      var len := EntryLen(b, eb + off);
      if len > 0 && off + len <= total {
        assert a[eb + off..eb + off + len] == b[eb + off..eb + off + len];
        SameWalk(a, b, from, eb, total, off + len);
      }
    }
  }

  /** The header and everything from the first attribute on. */
  ghost predicate SameRecordBut(a: seq<byte>, b: seq<byte>) {
    && |a| == |b| >= 48 && (forall p :: 0 <= p < 48 ==> a[p] == b[p]) && SameFrom(a, b, FirstAttr(b))
  }

  lemma SameHeaderFields(a: seq<byte>, b: seq<byte>)
    requires SameRecordBut(a, b)
    ensures FirstAttr(a) == FirstAttr(b) && UsedSize(a) == UsedSize(b) && AllocSize(a) == AllocSize(b)
    ensures ArrayAt(a) == ArrayAt(b) && ArrayCount(a) == ArrayCount(b) && a[..4] == b[..4]
  {
    assert a[..4] == b[..4];
  }

  /** What is found of an attribute is found again. */
  lemma SameAttr(rec: seq<byte>, b: seq<byte>, a: seq<byte>, kind: nat)
    requires SameRecordBut(a, b) && |rec| == |b| && AttrKept(rec, b, kind)
    ensures AttrKept(rec, a, kind)
  {
    hide U16, U32;
    SameHeaderFields(a, b);
    SameFind(a, b, FirstAttr(b), kind, FirstAttr(b));
    var o, p := FindAttribute(rec, kind), FindAttribute(b, kind);
    if o.Some? {
      var size := U32(rec, o.at + 4);
      assert a[p.at..p.at + size] == b[p.at..p.at + size];
    }
  }

  lemma SameIndex(a: seq<byte>, b: seq<byte>, r: Root, last: nat)
    requires SameRecordBut(a, b) && IndexOk(b, r, last)
    ensures IndexOk(a, r, last)
  {
    var f := FirstAttr(b);
    SameHeaderFields(a, b);
    hide U16, U32, AttrsOk, EntriesOk, FindFrom, SameRecordBut, RootInside, RootAt;
    assert SameFrom(a, b, f) by { SameTail(a, b); }
    hide SameFrom;
    SameFind(a, b, f, INDEX_ROOT, f);
    SameAttrs(a, b, f, f, UsedSize(b));
    SameRoot(a, b, f, r.ra);
    SameEntries(a, b, f, r.eb, r.total, 0, last);
  }

  lemma SameRoot(a: seq<byte>, b: seq<byte>, from: nat, ra: nat)
    requires SameFrom(a, b, from) && from <= ra && RootInside(b, ra)
    ensures RootInside(a, ra) && RootAt(a, ra) == RootAt(b, ra)
  {
    hide U16, U32, SameFrom;
    assert |a| == |b| by { SameLength(a, b, from); }
    SameWords(a, b, from, ra + 20);
    SameWords(a, b, from, ra + 4);
    var ir := ra + U16(b, ra + 20);
    SameWords(a, b, from, ir + 16);
    SameWords(a, b, from, ir + 20);
  }

  lemma SameLength(a: seq<byte>, b: seq<byte>, from: nat)
    requires SameFrom(a, b, from)
    ensures |a| == |b|
  {
  }

  lemma SameTail(a: seq<byte>, b: seq<byte>)
    requires SameRecordBut(a, b)
    ensures |a| == |b| >= 48 && SameFrom(a, b, FirstAttr(b))
  {
  }

  lemma SameDirectory(a: seq<byte>, b: seq<byte>, r: Root, last: nat)
    requires SameRecordBut(a, b) && Directory(b, r, last)
    ensures Directory(a, r, last) && UsedSize(a) == UsedSize(b) && AllocSize(a) == AllocSize(b)
    ensures WalkFrom(a, r.eb, r.total, 0) == WalkFrom(b, r.eb, r.total, 0)
  {
    hide U16, U32, IndexOk, WalkFrom, SameRecordBut;
    SameHeaderFields(a, b);
    SameIndex(a, b, r, last);
    SameTail(a, b);
    Layout(b, r, last);
    EntriesBehind(b, r, last);
    SameWalk(a, b, FirstAttr(b), r.eb, r.total, 0);
  }

  lemma EntriesBehind(rec: seq<byte>, r: Root, last: nat)
    requires IndexOk(rec, r, last)
    ensures |rec| >= 48 && FirstAttr(rec) <= r.eb
  {
    hide U16, U32, AttrsOk, EntriesOk;
  }

  // ---- writing and reading again --------------------------------------------------------------

  /** Preparing touches the magic no more than applying does. */
  lemma PrepareKeepsMagic(rec: seq<byte>)
    requires WellPlaced(rec)
    ensures Prepare(rec).rec[..4] == rec[..4]
  {
    hide PrepareFrom, NextNumber;
    var at, count := ArrayAt(rec), ArrayCount(rec);
    var sv := NextNumber(U16(rec, at));
    var r := PutU16(rec, at, sv);
    PrepareKeeps(r, at, count, sv, 1, 0);
    PrepareKeeps(r, at, count, sv, 1, 2);
    var p := Prepare(rec).rec;
    TwoBytesSame(p, r, 0);
    TwoBytesSame(p, r, 2);
  }

  lemma TwoBytesSame(a: seq<byte>, b: seq<byte>, p: nat)
    requires p + 2 <= |a| == |b| && U16(a, p) == U16(b, p)
    ensures a[p] == b[p] && a[p + 1] == b[p + 1]
  {
  }

  /** A well-placed record that is written is accepted when it is read again, with the same
      bytes outside the update-sequence array. */
  lemma Reload(rec: seq<byte>)
    requires WellPlaced(rec) && rec[..4] == FILE_MAGIC
    ensures var p := Prepare(rec);
            p.ok && Readable(p.rec) && Load(p.rec).ok
              && SameOutside(Load(p.rec).rec, rec, ArrayAt(rec), ArrayCount(rec))
  {
    hide Apply, Prepare;
    FixupRoundTrip(rec);
    PrepareKeepsMagic(rec);
  }

  /** The record as the next read finds it after x was written. */
  ghost predicate ReadsBack(x: seq<byte>, b: seq<byte>) {
    WellPlaced(x) && Prepare(x).ok && Readable(Prepare(x).rec) && Load(Prepare(x).rec) == Fixed(true, b)
  }

  lemma ReloadDirectory(rec: seq<byte>, r: Root, last: nat) returns (b: seq<byte>)
    requires Directory(rec, r, last)
    ensures ReadsBack(rec, b) && SameRecordBut(b, rec)
  {
    hide IndexOk, Prepare, Load;
    Reload(rec);
    b := Load(Prepare(rec).rec).rec;
    OutsideSame(b, rec, ArrayAt(rec), ArrayCount(rec));
  }

  lemma OutsideSame(a: seq<byte>, b: seq<byte>, at: nat, count: nat)
    requires SameOutside(a, b, at, count) && |b| >= 48 && 48 <= at && at + 2 * count <= FirstAttr(b)
    ensures SameRecordBut(a, b)
  {
  }

  // ---- insertion on disk ------------------------------------------------------------------------

  lemma OutIsDirectory(rec: seq<byte>, r: Root, last: nat, e: seq<byte>)
    requires Directory(rec, r, last) && NewEntry(e) && UsedSize(rec) + |e| <= AllocSize(rec) - 8
    ensures Directory(Out(rec, r, last, e), Grown(r, |e|), last + |e|)
  {
    hide Grow, Opened, NewEntry, EntriesOk, AttrsOk, FindFrom;
    Layout(rec, r, last);
    var g := Out(rec, r, last, e);
    OutIndexOk(rec, r, last, e);
    OutKeeps(rec, r, last, e);
    InsertKeepsFront(rec, r, r.eb + last, UsedSize(rec), e, 0, 20);
    hide Out, IndexOk;
    assert forall p :: 0 <= p < 20 ==> g[p] == g[0..20][p] && rec[p] == rec[0..20][p];
    assert g[..4] == rec[..4];
  }

  /** The directory after an insertion, as the next read finds it. */
  ghost predicate InsertedOnDisk(rec: seq<byte>, r: Root, last: nat, e: seq<byte>, b: seq<byte>)
    requires Directory(rec, r, last)
  {
    && |b| == |rec| && Directory(b, Grown(r, |e|), last + |e|) && UsedSize(b) == UsedSize(rec) + |e|
    && WalkFrom(b, r.eb, r.total + |e|, 0) == WalkFrom(rec, r.eb, r.total, 0) + [e]
    && forall kind :: kind != INDEX_ROOT ==> AttrKept(rec, b, kind)
  }

  lemma InsertReload(rec: seq<byte>, r: Root, last: nat, e: seq<byte>, x: seq<byte>) returns (b: seq<byte>)
    requires Directory(rec, r, last) && NewEntry(e) && Inserts(rec, r, last, e, x)
    ensures ReadsBack(x, b) && InsertedOnDisk(rec, r, last, e, b)
  {
    hide IndexOk, Out, ReadsBack, SameRecordBut, WalkFrom, AttrKept, NewEntry, U32, U16, WellPlaced;
    Fits(rec, r, last);
    OutIsDirectory(rec, r, last, e);
    OutInsertedWell(rec, r, last, e);
    b := ReloadDirectory(x, Grown(r, |e|), last + |e|);
    SameTail(b, x);
    SameDirectory(b, x, Grown(r, |e|), last + |e|);
    forall kind | kind != INDEX_ROOT ensures AttrKept(rec, b, kind) { SameAttr(rec, x, b, kind); }
  }

  lemma Fits(rec: seq<byte>, r: Root, last: nat)
    requires IndexOk(rec, r, last)
    ensures |rec| >= 48
  {
  }

  /** x is the record with the entry inserted, for which there is room. */
  ghost predicate Inserts(rec: seq<byte>, r: Root, last: nat, e: seq<byte>, x: seq<byte>)
    requires IndexOk(rec, r, last)
  {
    UsedSize(rec) + |e| <= AllocSize(rec) - 8 && x == Out(rec, r, last, e)
  }

  method CopyOf(a: array<byte>) returns (b: array<byte>)
    ensures fresh(b) && b[..] == a[..]
  {
    b := new byte[a.Length](i requires 0 <= i < a.Length reads a => a[i]);
  }

  method CopyBack(from: array<byte>, to: array<byte>)
    requires from.Length == to.Length && from != to
    modifies to
    ensures to[..] == from[..]
  {
    for i := 0 to to.Length
      invariant to[..i] == from[..i]
    {
      to[i] := from[i];
    }
  }

  /** There is room for n more bytes in the record. */
  ghost predicate HasRoom(rec: seq<byte>, n: nat) { |rec| >= 48 && UsedSize(rec) + n <= AllocSize(rec) - 8 }

  /** insert_index_entry on the sectors of a directory record: the disk is changed only on
      success, and then the next read accepts the record and finds the old entries followed
      by the new one and every other attribute as it was. */
  method InsertOnDisk(disk: array<byte>, e: seq<byte>, ghost r: Root, ghost last: nat) returns (ok: bool)
    requires Readable(disk[..]) && NewEntry(e)
    requires Load(disk[..]).ok ==> Directory(Load(disk[..]).rec, r, last)
    modifies disk
    ensures ok <==> old(Load(disk[..]).ok && HasRoom(Load(disk[..]).rec, |e|))
    ensures !ok ==> disk[..] == old(disk[..])
    ensures ok ==> Readable(disk[..]) && Load(disk[..]).ok
                   && InsertedOnDisk(old(Load(disk[..]).rec), r, last, e, Load(disk[..]).rec)
  {
    hide IndexOk, Apply, Prepare, Insert, Out, WalkFrom, NewEntry, InsertedOnDisk, InsertedWell, HasRoom, U16, U32;
    var rec := CopyOf(disk);
    if rec[..4] != FILE_MAGIC { return false; }
    ok := ApplyFixup(rec);
    if !ok { return; }
    ghost var was := rec[..];
    assert was == Load(disk[..]).rec;
    InsertIs(was, r, last, e);
    ok := InsertIndexEntry(rec, e, r, last);
    if !ok { return; }
    ghost var b := InsertReload(was, r, last, e, rec[..]);
    var written := PrepareFixup(rec);
    CopyBack(rec, disk);
  }

  lemma InsertIs(rec: seq<byte>, r: Root, last: nat, e: seq<byte>)
    requires Directory(rec, r, last) && NewEntry(e)
    ensures Framed(rec, r) && AllocSize(rec) <= |rec| && r.eb + LastFrom(rec, r.eb, r.total, 0) <= UsedSize(rec)
    ensures Insert(rec, r, e).ok <==> HasRoom(rec, |e|)
    ensures HasRoom(rec, |e|) ==> Inserts(rec, r, last, e, Insert(rec, r, e).rec)
  {
    hide IndexOk, Grow, Opened, LastFrom, U32, U16, NewEntry;
    IndexFramed(rec, r, last);
  }

  // ---- removal on disk ----------------------------------------------------------------------------

  /** The magic, the place of the array and the first attribute are as in the other record. */
  ghost predicate SamePlace(x: seq<byte>, rec: seq<byte>) {
    && |x| == |rec| >= 48 && WellPlaced(x) && x[..4] == rec[..4] && ArrayAt(x) == ArrayAt(rec)
    && ArrayCount(x) == ArrayCount(rec) && FirstAttr(x) == FirstAttr(rec)
  }

  lemma FrontSame(x: seq<byte>, rec: seq<byte>)
    requires |x| == |rec| >= 48 && x[0..24] == rec[0..24] && WellPlaced(rec)
    ensures SamePlace(x, rec)
  {
    assert forall p :: 0 <= p < 24 ==> x[p] == x[0..24][p] && rec[p] == rec[0..24][p];
    assert x[..4] == rec[..4];
  }

  /** x is what removing the name makes of the record. */
  ghost predicate Removes(rec: seq<byte>, r: Root, name: seq<byte>, x: seq<byte>) {
    Removable(rec, r, name) && x == Remove(rec, r, name).rec
  }

  /** Removing a name changes neither the magic nor the place of the array. */
  lemma RemoveKeepsPlace(rec: seq<byte>, r: Root, last: nat, name: seq<byte>, x: seq<byte>)
    requires Directory(rec, r, last) && Removes(rec, r, name, x)
    ensures SamePlace(x, rec)
  {
    hide IndexOk, Grow, Closed, ScanFrom, EntryLen, U16, U32, WellPlaced, SamePlace;
    IndexFramed(rec, r, last);
    var f := ScanFrom(rec, r.eb, r.total, 0, name);
    if f.Some? {
      var n := EntryLen(rec, r.eb + f.at);
      ClosedFront(rec, r.eb + f.at, n, UsedSize(rec));
      GrowKeeps(Closed(rec, r.eb + f.at, n, UsedSize(rec)), r, -(n as int), 0, 24);
    }
    FrontSame(x, rec);
  }

  lemma ClosedFront(rec: seq<byte>, ea: nat, n: nat, used: nat)
    requires 24 <= ea && ea + n <= used <= |rec|
    ensures Closed(rec, ea, n, used)[0..24] == rec[0..24]
  {
  }

  /** The directory after a removal that took out n bytes, as the next read finds it. */
  ghost predicate RemovedOnDisk(rec: seq<byte>, r: Root, last: nat, name: seq<byte>, n: nat, b: seq<byte>)
    requires Directory(rec, r, last)
  {
    && |b| == |rec| && 0 < n <= last && n <= r.total && n <= r.len
    && Directory(b, Shrunk(r, n), last - n) && UsedSize(b) == UsedSize(rec) - n
    && WalkFrom(b, r.eb, r.total - n, 0) == Without(WalkFrom(rec, r.eb, r.total, 0), name)
    && forall kind :: kind != INDEX_ROOT ==> AttrKept(rec, b, kind)
  }

  lemma RemoveReload(rec: seq<byte>, r: Root, last: nat, name: seq<byte>, n: nat, x: seq<byte>) returns (b: seq<byte>)
    requires Directory(rec, r, last) && Removes(rec, r, name, x) && 0 < n && RemovedWell(rec, r, last, name, n, x)
    ensures ReadsBack(x, b) && RemovedOnDisk(rec, r, last, name, n, b)
  {
    hide IndexOk, Removes, ReadsBack, SameRecordBut, WalkFrom, Without, AttrKept, U32, U16, WellPlaced;
    RemoveKeepsPlace(rec, r, last, name, x);
    assert Directory(x, Shrunk(r, n), last - n);
    b := ReloadDirectory(x, Shrunk(r, n), last - n);
    SameTail(b, x);
    SameDirectory(b, x, Shrunk(r, n), last - n);
    forall kind | kind != INDEX_ROOT ensures AttrKept(rec, b, kind) { SameAttr(rec, x, b, kind); }
  }

  /** The directory shows an entry of that name. */
  ghost predicate HasEntry(rec: seq<byte>, r: Root, name: seq<byte>) {
    r.eb + r.total <= |rec| && Shows(WalkFrom(rec, r.eb, r.total, 0), name)
  }

  /** remove_index_entry on the sectors of a directory record: the disk is changed only on
      success, which is when the directory shows an entry of that name, and then the next
      read accepts the record and finds the old entries without the first of that name and
      every other attribute as it was. */
  method RemoveOnDisk(disk: array<byte>, name: seq<byte>, ghost r: Root, ghost last: nat)
    returns (ok: bool, ghost n: nat)
    requires Readable(disk[..])
    requires Load(disk[..]).ok ==> Directory(Load(disk[..]).rec, r, last)
    modifies disk
    ensures ok <==> old(Load(disk[..]).ok && HasEntry(Load(disk[..]).rec, r, name))
    ensures !ok ==> disk[..] == old(disk[..])
    ensures ok ==> Readable(disk[..]) && Load(disk[..]).ok
    ensures ok ==> RemovedOnDisk(old(Load(disk[..]).rec), r, last, name, n, Load(disk[..]).rec)
  {
    hide IndexOk, Apply, Prepare, Remove, U16, U32, RemovedOnDisk, RemovedWell, ScanFrom, WalkFrom, Shows;
    n := 0;
    var rec := CopyOf(disk);
    if rec[..4] != FILE_MAGIC { return false, 0; }
    ok := ApplyFixup(rec);
    if !ok { return; }
    ghost var was := rec[..];
    assert was == Load(disk[..]).rec;
    n := RemoveTheorem(was, r, last, name);
    FramedEntries(was, r);
    ok := RemoveIndexEntry(rec, name, r, last);
    if !ok { return; }
    RemovedWhole(was, r, last, name, n, rec[..]);
    ghost var b := RemoveReload(was, r, last, name, n, rec[..]);
    var written := PrepareFixup(rec);
    CopyBack(rec, disk);
  }

  lemma FramedEntries(rec: seq<byte>, r: Root)
    requires Framed(rec, r)
    ensures r.eb + r.total <= |rec|
  {
  }

  lemma RemovedWhole(rec: seq<byte>, r: Root, last: nat, name: seq<byte>, n: nat, x: seq<byte>)
    requires IndexOk(rec, r, last) && RemovedWell(rec, r, last, name, n, x)
    ensures |x| == |rec|
  {
  }

  /** A record is accepted only if it starts with the letters FILE. */
  lemma AcceptedMagic(disk: seq<byte>)
    requires Readable(disk) && Load(disk).ok
    ensures disk[0] == 0x46 && disk[1] == 0x49 && disk[2] == 0x4C && disk[3] == 0x45
  {
    hide Apply;
    assert disk[..4] == FILE_MAGIC;
  }
}
