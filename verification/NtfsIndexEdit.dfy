/** Inserting an index entry keeps the directory record consistent, is seen by the walk,
    leaves every other attribute alone and is undone by removal (src/ntfs.c). */
module NtfsIndexEdit {
  import opened Bits
  import opened Strings
  import opened Search
  import opened LittleEndian
  import opened NtfsIndex

  // ---- the record after an insertion --------------------------------------------------------

  ghost function Grown(r: Root, n: nat): Root { r.(total := r.total + n, len := r.len + n) }

  lemma IndexFramed(rec: seq<byte>, r: Root, last: nat)
    requires IndexOk(rec, r, last)
    ensures Framed(rec, r) && LastFrom(rec, r.eb, r.total, 0) == last && r.ra >= 48
    ensures r.eb + last + 16 <= UsedSize(rec) && AllocSize(rec) <= |rec|
  {
    hide EntriesOk, AttrsOk, FindFrom, U16, U32;
    FindsLast(rec, r.eb, r.total, 0, last);
  }

  /** Windows in front of ts that avoid the five size fields. */
  lemma InsertKeepsFront(rec: seq<byte>, r: Root, ts: nat, used: nat, e: seq<byte>, x: nat, n: nat)
    requires 28 <= r.ra && r.ra + 24 <= r.ir && r.ir + 28 <= r.eb <= ts <= used && used + |e| <= |rec|
    requires x + n <= ts && Away(r, x, n)
    ensures Grow(Opened(rec, ts, used, e), r, |e|)[x..x + n] == rec[x..x + n]
  {
    hide Grow, Opened, Away;
    var o := Opened(rec, ts, used, e);
    OpenedParts(rec, ts, used, e);
    GrowKeeps(o, r, |e|, x, n);
    assert o[0..ts] == o[..ts] && rec[0..ts] == rec[..ts];
    SubWindow(o, 0, rec, 0, ts, x, x + n);
  }

  lemma InsertFields(rec: seq<byte>, r: Root, ts: nat, used: nat, e: seq<byte>)
    requires 28 <= r.ra && r.ra + 24 <= r.ir && r.ir + 28 <= r.eb <= ts <= used && used + |e| <= |rec|
    ensures var g := Grow(Opened(rec, ts, used, e), r, |e|);
            && U32(g, r.ir + 20) == (U32(rec, r.ir + 20) + |e|) % TWO32
            && U32(g, r.ir + 24) == (U32(rec, r.ir + 24) + |e|) % TWO32
            && U32(g, r.ra + 16) == (U32(rec, r.ra + 16) + |e|) % TWO32
            && U32(g, r.ra + 4) == (U32(rec, r.ra + 4) + |e|) % TWO32
            && U32(g, 24) == (U32(rec, 24) + |e|) % TWO32
  {
    hide Grow, Opened, U32;
    var o := Opened(rec, ts, used, e);
    GrowAdds(o, r, |e|);
    FrontWord(rec, ts, used, e, r.ir + 20);
    FrontWord(rec, ts, used, e, r.ir + 24);
    FrontWord(rec, ts, used, e, r.ra + 16);
    FrontWord(rec, ts, used, e, r.ra + 4);
    FrontWord(rec, ts, used, e, 24);
  }

  lemma FrontWord(rec: seq<byte>, ts: nat, used: nat, e: seq<byte>, p: nat)
    requires ts <= used && used + |e| <= |rec| && p + 4 <= ts
    ensures U32(Opened(rec, ts, used, e), p) == U32(rec, p)
  {
    hide U32, Opened;
    var o := Opened(rec, ts, used, e);
    OpenedParts(rec, ts, used, e);
    assert o[0..ts] == o[..ts] && rec[0..ts] == rec[..ts];
    SubWindow(o, 0, rec, 0, ts, p, p + 4);
    SameU32(o, p, rec, p);
  }

  lemma ModSmall(x: nat, n: nat)
    requires x + n < TWO32
    ensures (x + n) % TWO32 == x + n
  {
  }

  /** Where things are in a well-formed record. */
  lemma Layout(rec: seq<byte>, r: Root, last: nat)
    requires IndexOk(rec, r, last)
    ensures 48 <= r.ra && r.ra + 24 <= r.ir && r.ir + 28 <= r.eb
            && r.eb + last + 16 <= r.ra + r.len <= UsedSize(rec) <= |rec| < TWO32
    ensures r.eb + r.total <= |rec| && r.eb + r.total <= UsedSize(rec) + 8 && 8 <= AllocSize(rec) <= |rec|
    ensures U16(rec, r.ra + 20) == r.ir - r.ra && U32(rec, r.ir + 16) == r.eb - r.ir - 16
    ensures U32(rec, r.ir + 20) == r.total && U32(rec, r.ra + 4) == r.len
  {
    hide EntriesOk, AttrsOk, FindFrom, U16, U32;
  }

  ghost function Out(rec: seq<byte>, r: Root, last: nat, e: seq<byte>): (g: seq<byte>)
    requires IndexOk(rec, r, last) && UsedSize(rec) + |e| <= AllocSize(rec) - 8
    ensures |g| == |rec|
  {
    Layout(rec, r, last);
    Grow(Opened(rec, r.eb + last, UsedSize(rec), e), r, |e|)
  }

  /** The size fields of the grown record. */
  lemma OutFields(rec: seq<byte>, r: Root, last: nat, e: seq<byte>)
    requires IndexOk(rec, r, last) && UsedSize(rec) + |e| <= AllocSize(rec) - 8
    ensures var g := Out(rec, r, last, e);
            r.ir + 28 <= |rec| && UsedSize(g) == UsedSize(rec) + |e| && U32(g, r.ra + 4) == r.len + |e|
              && U32(g, r.ir + 20) == r.total + |e|
            && r.ra + 20 <= |rec| && U32(g, r.ra + 16) == (U32(rec, r.ra + 16) + |e|) % TWO32
            && U32(g, r.ir + 24) == (U32(rec, r.ir + 24) + |e|) % TWO32
  {
    hide IndexOk, Grow, Opened, U16, U32;
    Layout(rec, r, last);
    InsertFields(rec, r, r.eb + last, UsedSize(rec), e);
    ModSmall(UsedSize(rec), |e|);
    ModSmall(r.len, |e|);
    ModSmall(r.total, |e|);
  }

  /** The fields that stay. */
  lemma OutKeeps(rec: seq<byte>, r: Root, last: nat, e: seq<byte>)
    requires IndexOk(rec, r, last) && UsedSize(rec) + |e| <= AllocSize(rec) - 8
    ensures var g := Out(rec, r, last, e);
            && r.ir + 28 <= |rec| && |rec| >= 48
            && FirstAttr(g) == FirstAttr(rec) && AllocSize(g) == AllocSize(rec)
            && U16(g, r.ra + 20) == r.ir - r.ra && U32(g, r.ir + 16) == r.eb - r.ir - 16
            && U32(g, r.ra) == U32(rec, r.ra)
            && g[48..r.ra] == rec[48..r.ra]
  {
    hide IndexOk, Grow, Opened, U16, U32;
    Layout(rec, r, last);
    var ts, used := r.eb + last, UsedSize(rec);
    var g := Out(rec, r, last, e);
    InsertKeepsFront(rec, r, ts, used, e, 20, 2);
    InsertKeepsFront(rec, r, ts, used, e, 28, 4);
    InsertKeepsFront(rec, r, ts, used, e, r.ra + 20, 2);
    InsertKeepsFront(rec, r, ts, used, e, r.ir + 16, 4);
    InsertKeepsFront(rec, r, ts, used, e, r.ra, 4);
    InsertKeepsFront(rec, r, ts, used, e, 48, r.ra - 48);
    SameU16(g, 20, rec, 20);
    SameU32(g, 28, rec, 28);
    SameU16(g, r.ra + 20, rec, r.ra + 20);
    SameU32(g, r.ir + 16, rec, r.ir + 16);
    SameU32(g, r.ra, rec, r.ra);
  }

  lemma OutMoved(rec: seq<byte>, r: Root, last: nat, e: seq<byte>)
    requires IndexOk(rec, r, last) && UsedSize(rec) + |e| <= AllocSize(rec) - 8
    ensures Moved(rec, Out(rec, r, last, e), r.ra, r.len, UsedSize(rec), |e|)
    ensures Inserted(rec, Out(rec, r, last, e), r, r.eb + last, UsedSize(rec), e)
  {
    hide IndexOk, Grow, Opened, U16, U32;
    Layout(rec, r, last);
    var ts, used := r.eb + last, UsedSize(rec);
    OutFields(rec, r, last, e);
    OutKeeps(rec, r, last, e);
    InsertBytes(rec, r, ts, used, e);
    SubWindow(Out(rec, r, last, e), ts + |e|, rec, ts, used - ts, r.ra + r.len - ts, used - ts);
  }

  /** The record is well formed again. */
  lemma OutIndexOk(rec: seq<byte>, r: Root, last: nat, e: seq<byte>)
    requires IndexOk(rec, r, last) && NewEntry(e) && UsedSize(rec) + |e| <= AllocSize(rec) - 8
    ensures IndexOk(Out(rec, r, last, e), Grown(r, |e|), last + |e|)
  {
    hide EntriesOk, AttrsOk, FindFrom, U16, U32, Out, NewEntry, Moved, Inserted;
    Layout(rec, r, last);
    var out, used := Out(rec, r, last, e), UsedSize(rec);
    OutFields(rec, r, last, e);
    OutKeeps(rec, r, last, e);
    OutMoved(rec, r, last, e);
    EntriesInserted(rec, out, r, last, used, e, 0);
    FindMoved(rec, out, r.ra, r.len, used, |e|, FirstAttr(rec), INDEX_ROOT);
  }

  /** Looking the attribute up in the new record finds the same bytes. */
  ghost predicate AttrKept(rec: seq<byte>, out: seq<byte>, kind: nat)
    requires |rec| >= 48 && |out| == |rec|
  {
    var o, p := FindAttribute(rec, kind), FindAttribute(out, kind);
    && (p.Some? <==> o.Some?)
    && (o.Some? ==> var size := U32(rec, o.at + 4);
                    p.at + size <= |out| && out[p.at..p.at + size] == rec[o.at..o.at + size])
  }

  lemma OutKeepsAttribute(rec: seq<byte>, r: Root, last: nat, e: seq<byte>, kind: nat)
    requires IndexOk(rec, r, last) && UsedSize(rec) + |e| <= AllocSize(rec) - 8 && kind != INDEX_ROOT
    ensures |rec| >= 48 && AttrKept(rec, Out(rec, r, last, e), kind)
  {
    hide EntriesOk, AttrsOk, FindFrom, U16, U32, Out, Moved, Inserted;
    OutKeeps(rec, r, last, e);
    OutMoved(rec, r, last, e);
    OtherAttribute(rec, Out(rec, r, last, e), r.ra, r.len, UsedSize(rec), |e|, FirstAttr(rec), kind);
  }

  /** What a successful insertion means. */
  ghost predicate InsertedWell(rec: seq<byte>, r: Root, last: nat, e: seq<byte>, out: seq<byte>)
    requires IndexOk(rec, r, last)
  {
    && IndexOk(out, Grown(r, |e|), last + |e|) && |out| == |rec| && UsedSize(out) == UsedSize(rec) + |e|
    && U32(out, r.ra + 16) == (U32(rec, r.ra + 16) + |e|) % TWO32
    && U32(out, r.ir + 24) == (U32(rec, r.ir + 24) + |e|) % TWO32
    && WalkFrom(out, r.eb, r.total + |e|, 0) == WalkFrom(rec, r.eb, r.total, 0) + [e]
    && forall kind :: kind != INDEX_ROOT ==> AttrKept(rec, out, kind)
  }

  /** Insertion succeeds exactly when the record has room; then it is well formed again,
      with all its sizes grown by the entry's, the walk gives the old entries followed by
      the new one, and every other attribute is found with the same bytes. */
  lemma InsertTheorem(rec: seq<byte>, r: Root, last: nat, e: seq<byte>)
    requires IndexOk(rec, r, last) && NewEntry(e)
    ensures Framed(rec, r) && AllocSize(rec) <= |rec| && r.eb + LastFrom(rec, r.eb, r.total, 0) <= UsedSize(rec)
    ensures Insert(rec, r, e).ok <==> UsedSize(rec) + |e| <= AllocSize(rec) - 8
    ensures Insert(rec, r, e).ok ==> InsertedWell(rec, r, last, e, Insert(rec, r, e).rec)
  {
    hide IndexOk, InsertedWell, U16, U32, Grow, Opened, LastFrom, NewEntry, UsedSize, AllocSize;
    IndexFramed(rec, r, last);
    if UsedSize(rec) + |e| <= AllocSize(rec) - 8 { OutInsertedWell(rec, r, last, e); }
  }

  lemma OutWalk(rec: seq<byte>, r: Root, last: nat, e: seq<byte>)
    requires IndexOk(rec, r, last) && NewEntry(e) && UsedSize(rec) + |e| <= AllocSize(rec) - 8
    ensures r.eb + r.total + |e| <= |rec|
            && WalkFrom(Out(rec, r, last, e), r.eb, r.total + |e|, 0) == WalkFrom(rec, r.eb, r.total, 0) + [e]
  {
    hide EntriesOk, AttrsOk, FindFrom, U16, U32, Out, NewEntry, WalkFrom;
    Layout(rec, r, last);
    OutMoved(rec, r, last, e);
    WalkInserted(rec, Out(rec, r, last, e), r, last, UsedSize(rec), e, 0);
  }

  lemma OutInsertedWell(rec: seq<byte>, r: Root, last: nat, e: seq<byte>)
    requires IndexOk(rec, r, last) && NewEntry(e) && UsedSize(rec) + |e| <= AllocSize(rec) - 8
    ensures InsertedWell(rec, r, last, e, Out(rec, r, last, e))
  {
    hide IndexOk, Out, WalkFrom, NewEntry, AttrKept, U32, UsedSize, AllocSize;
    Layout(rec, r, last);
    OutFields(rec, r, last, e);
    OutWalk(rec, r, last, e);
    OutIndexOk(rec, r, last, e);
    forall kind | kind != INDEX_ROOT
      ensures AttrKept(rec, Out(rec, r, last, e), kind)
    {
      OutKeepsAttribute(rec, r, last, e, kind);
    }
  }

  // ---- removal undoes insertion ----------------------------------------------------------------

  /** The name of an entry depends only on its bytes. */
  lemma SameEntryName(a: seq<byte>, p: nat, b: seq<byte>, q: nat, n: nat)
    requires p + n <= |a| && q + n <= |b| && a[p..p + n] == b[q..q + n] && 82 <= n && 82 + 2 * b[q + 80] as int <= n
    ensures a[p + 80] == b[q + 80] && EntryName(a, p) == EntryName(b, q)
  {
    hide U16, Ascii, Until;
    assert a[p + 80] == a[p..p + n][80] && b[q + 80] == b[q..q + n][80];
    var m := b[q + 80] as int;
    forall i | 0 <= i < m ensures U16(a, p + 82 + 2 * i) == U16(b, q + 82 + 2 * i) {
      SubWindow(a, p, b, q, n, 82 + 2 * i, 84 + 2 * i);
      SameU16(a, p + 82 + 2 * i, b, q + 82 + 2 * i);
    }
    assert seq(m, i requires 0 <= i < m => Ascii(U16(a, p + 82 + 2 * i)))
      == seq(m, i requires 0 <= i < m => Ascii(U16(b, q + 82 + 2 * i)));
  }

  lemma SameHasName(a: seq<byte>, p: nat, b: seq<byte>, q: nat, n: nat, name: seq<byte>)
    requires p + n <= |a| && q + n <= |b| && 16 <= n && a[p..p + n] == b[q..q + n]
    requires ContentLen(b, q) >= 66 ==> 82 <= n && 82 + 2 * b[q + 80] as int <= n
    ensures HasName(a, p, name) <==> HasName(b, q, name)
  {
    hide EntryLen, ContentLen, IsLast, EntryName, SameName;
    SubWindow(a, p, b, q, n, 0, 16);
    SameEntry(a, p, b, q);
    if ContentLen(b, q) >= 66 { SameEntryName(a, p, b, q, n); }
  }

  /** When no old entry has the name, a scan for it ends at the new entry. */
  lemma {:induction false} ScanInserted(rec: seq<byte>, out: seq<byte>, r: Root, last: nat, used: nat, e: seq<byte>,
                                        off: nat, name: seq<byte>)
    requires Inserted(rec, out, r, r.eb + last, used, e) && r.eb + last + 16 <= used && NewEntry(e)
             && HasName(e, 0, name)
    requires EntriesOk(rec, r.eb, r.total, off, last) && r.eb + r.total + |e| <= |rec|
    requires ScanFrom(rec, r.eb, r.total, off, name) == None
    ensures ScanFrom(out, r.eb, r.total + |e|, off, name) == Some(last)
    decreases last - off
  {
    hide EntryLen, ContentLen, IsLast, Inserted, NewEntry, HasName;
    InsertedFacts(rec, out, r, r.eb + last, used, e);
    NewEntryLen(e);
    if off == last {
      NewAndEnd(rec, out, r, r.eb + last, used, e);
      NewEntryName(e);
      assert e[0..|e|] == e;
      SameHasName(out, r.eb + last, e, 0, |e|, name);
    } else {
      var len := EntryLen(rec, r.eb + off);
      KeptEntry(rec, out, r, r.eb + last, used, e, off, len);
      SameHasName(out, r.eb + off, rec, r.eb + off, len, name);
      ScanInserted(rec, out, r, last, used, e, off + len, name);
    }
  }

  lemma NewEntryName(e: seq<byte>)
    requires NewEntry(e)
    ensures 82 <= |e| && 82 + 2 * e[80] as int <= |e|
  {
  }

  /** Records that agree in the five size fields and everywhere else are equal. */
  lemma SameRecord(a: seq<byte>, b: seq<byte>, r: Root)
    requires |a| == |b| && 28 <= r.ra && r.ra + 24 <= r.ir && r.ir + 28 <= |a|
    requires forall x :: 0 <= x < |a| && Away(r, x, 1) ==> a[x] == b[x]
    requires U32(a, r.ir + 20) == U32(b, r.ir + 20) && U32(a, r.ir + 24) == U32(b, r.ir + 24)
    requires U32(a, r.ra + 16) == U32(b, r.ra + 16) && U32(a, r.ra + 4) == U32(b, r.ra + 4) && U32(a, 24) == U32(b, 24)
    ensures a == b
  {
    hide U32;
    forall x | 0 <= x < |a| ensures a[x] == b[x] {
      if 24 <= x < 28 { WordBytes(a, b, 24, x); }
      else if r.ra + 4 <= x < r.ra + 8 { WordBytes(a, b, r.ra + 4, x); }
      else if r.ra + 16 <= x < r.ra + 20 { WordBytes(a, b, r.ra + 16, x); }
      else if r.ir + 20 <= x < r.ir + 24 { WordBytes(a, b, r.ir + 20, x); }
      else if r.ir + 24 <= x < r.ir + 28 { WordBytes(a, b, r.ir + 24, x); }
      else { assert Away(r, x, 1); }
    }
  }

  lemma GrowKeepsByte(rec: seq<byte>, r: Root, d: int, x: nat)
    requires 28 <= r.ra && r.ra + 24 <= r.ir && r.ir + 28 <= |rec| && x < |rec| && Away(r, x, 1)
    ensures Grow(rec, r, d)[x] == rec[x]
  {
    hide Grow;
    GrowKeeps(rec, r, d, x, 1);
    assert Grow(rec, r, d)[x..x + 1][0] == Grow(rec, r, d)[x] && rec[x..x + 1][0] == rec[x];
  }

  /** The record as it was, but for zeros where the slack behind it was used. */
  ghost function Restored(rec: seq<byte>, used: nat, n: nat): (t: seq<byte>)
    requires used + n <= |rec|
    ensures |t| == |rec|
  {
    rec[..used] + seq(n, _ => 0) + rec[used + n..]
  }

  lemma ClosedOpened(rec: seq<byte>, ts: nat, used: nat, e: seq<byte>)
    requires ts <= used && used + |e| <= |rec|
    ensures Closed(Opened(rec, ts, used, e), ts, |e|, used + |e|) == Restored(rec, used, |e|)
  {
    hide Opened;
    OpenedParts(rec, ts, used, e);
    assert rec[..ts] + rec[ts..used] == rec[..used];
  }

  lemma ClosedByte(a: seq<byte>, b: seq<byte>, r: Root, ts: nat, n: nat, used: nat, x: nat)
    requires |a| == |b| && r.ra + 24 <= r.ir && r.ir + 28 <= ts && ts + n <= used <= |a| && x < |a| && Away(r, x, 1)
             && 28 <= r.ra
    requires forall y :: 0 <= y < |a| && Away(r, y, 1) ==> a[y] == b[y]
    ensures Closed(a, ts, n, used)[x] == Closed(b, ts, n, used)[x]
  {
    if ts <= x < used - n { assert Away(r, x + n, 1); }
  }

  lemma ClosedWord(a: seq<byte>, ts: nat, n: nat, used: nat, p: nat)
    requires ts + n <= used <= |a| && p + 4 <= ts
    ensures U32(Closed(a, ts, n, used), p) == U32(a, p)
  {
    hide U32;
    assert Closed(a, ts, n, used)[p..p + 4] == a[p..p + 4];
    SameU32(Closed(a, ts, n, used), p, a, p);
  }

  lemma AddSub(x: nat, n: nat)
    requires x < TWO32
    ensures ((x + n) % TWO32 - n) % TWO32 == x
  {
  }

  /** Taking the entry out again restores the bytes. */
  lemma ShrinkRestores(rec: seq<byte>, r: Root, ts: nat, used: nat, e: seq<byte>)
    requires 28 <= r.ra && r.ra + 24 <= r.ir && r.ir + 28 <= r.eb <= ts <= used && used + |e| <= |rec|
    ensures Grow(Closed(Grow(Opened(rec, ts, used, e), r, |e|), ts, |e|, used + |e|), r, -|e|)
            == Restored(rec, used, |e|)
  {
    hide Grow, Opened, Closed, U32, Restored, Away;
    var n := |e|;
    var o := Opened(rec, ts, used, e);
    var out := Grow(o, r, n);
    var c := Closed(out, ts, n, used + n);
    var f := Grow(c, r, -n);
    var t := Restored(rec, used, n);
    ClosedOpened(rec, ts, used, e);
    forall y | 0 <= y < |o| && Away(r, y, 1) ensures out[y] == o[y] { GrowKeepsByte(o, r, n, y); }
    forall x | 0 <= x < |f| && Away(r, x, 1) ensures f[x] == t[x] {
      GrowKeepsByte(c, r, -n, x);
      ClosedByte(out, o, r, ts, n, used + n, x);
    }
    RestoredField(rec, r, ts, used, e, r.ir + 20);
    RestoredField(rec, r, ts, used, e, r.ir + 24);
    RestoredField(rec, r, ts, used, e, r.ra + 16);
    RestoredField(rec, r, ts, used, e, r.ra + 4);
    RestoredField(rec, r, ts, used, e, 24);
    SameRecord(f, t, r);
  }

  ghost predicate IsField(r: Root, p: nat) {
    p == r.ir + 20 || p == r.ir + 24 || p == r.ra + 16 || p == r.ra + 4 || p == 24
  }

  lemma FieldBefore(r: Root, p: nat)
    requires 28 <= r.ra && r.ra + 24 <= r.ir && IsField(r, p)
    ensures p + 4 <= r.ir + 28
  {
  }

  lemma GrowAddsAt(rec: seq<byte>, r: Root, d: int, p: nat)
    requires 28 <= r.ra && r.ra + 24 <= r.ir && r.ir + 28 <= |rec| && IsField(r, p)
    ensures p + 4 <= |rec| && U32(Grow(rec, r, d), p) == (U32(rec, p) + d) % TWO32
  {
    hide Grow, U32;
    GrowAdds(rec, r, d);
  }

  lemma InsertFieldAt(rec: seq<byte>, r: Root, ts: nat, used: nat, e: seq<byte>, p: nat)
    requires 28 <= r.ra && r.ra + 24 <= r.ir && r.ir + 28 <= r.eb <= ts <= used && used + |e| <= |rec| && IsField(r, p)
    ensures U32(Grow(Opened(rec, ts, used, e), r, |e|), p) == (U32(rec, p) + |e|) % TWO32
  {
    hide Grow, U32, Opened;
    InsertFields(rec, r, ts, used, e);
  }

  /** Only the place of the attribute and of its value matter to the size fields. */
  lemma GrowPlace(rec: seq<byte>, r: Root, g: Root, d: int)
    requires 28 <= r.ra && r.ra + 24 <= r.ir && r.ir + 28 <= |rec| && g.ra == r.ra && g.ir == r.ir
    ensures Grow(rec, g, d) == Grow(rec, r, d)
  {
    hide AddU32;
  }

  lemma RestoredField(rec: seq<byte>, r: Root, ts: nat, used: nat, e: seq<byte>, p: nat)
    requires 28 <= r.ra && r.ra + 24 <= r.ir && r.ir + 28 <= r.eb <= ts <= used && used + |e| <= |rec|
    requires IsField(r, p)
    ensures U32(Grow(Closed(Grow(Opened(rec, ts, used, e), r, |e|), ts, |e|, used + |e|), r, -|e|), p)
            == U32(Restored(rec, used, |e|), p)
  {
    hide Grow, Opened, Closed, U32, Restored, IsField;
    var n := |e|;
    var out := Grow(Opened(rec, ts, used, e), r, n);
    var c := Closed(out, ts, n, used + n);
    FieldBefore(r, p);
    InsertFieldAt(rec, r, ts, used, e, p);
    ClosedWord(out, ts, n, used + n, p);
    GrowAddsAt(c, r, -n, p);
    AddSub(U32(rec, p), n);
    RestoredWord(rec, used, n, p);
  }

  lemma RestoredWord(rec: seq<byte>, used: nat, n: nat, p: nat)
    requires p + 4 <= used && used + n <= |rec|
    ensures U32(Restored(rec, used, n), p) == U32(rec, p)
  {
    hide U32;
    assert Restored(rec, used, n)[p..p + 4] == rec[p..p + 4];
    SameU32(Restored(rec, used, n), p, rec, p);
  }

  /** The record before the insertion, its slack cleared. */
  ghost function Before(rec: seq<byte>, r: Root, last: nat, n: nat): seq<byte>
    requires IndexOk(rec, r, last) && UsedSize(rec) + n <= AllocSize(rec) - 8
  {
    Layout(rec, r, last);
    Restored(rec, UsedSize(rec), n)
  }

  ghost predicate RemovalReady(rec: seq<byte>, r: Root, name: seq<byte>, at: nat) {
    Framed(rec, r) && ScanFrom(rec, r.eb, r.total, 0, name) == Some(at)
      && r.eb + at + EntryLen(rec, r.eb + at) <= UsedSize(rec)
  }

  /** Removing the name takes out the entry at `at` and leaves `res`. */
  ghost predicate RemovesTo(rec: seq<byte>, r: Root, name: seq<byte>, at: nat, res: seq<byte>) {
    RemovalReady(rec, r, name, at) && Remove(rec, r, name) == Result(true, res)
  }

  ghost predicate NobodyNamed(rec: seq<byte>, r: Root, name: seq<byte>) {
    r.eb + r.total <= |rec| && ScanFrom(rec, r.eb, r.total, 0, name) == None
  }

  /** Removing the entry just inserted, when no earlier entry has its name, restores the
      record, except that the slack it used is cleared. */
  lemma RemoveUndoesInsert(rec: seq<byte>, r: Root, last: nat, e: seq<byte>, name: seq<byte>)
    requires IndexOk(rec, r, last) && NewEntry(e) && UsedSize(rec) + |e| <= AllocSize(rec) - 8
    requires HasName(e, 0, name) && NobodyNamed(rec, r, name)
    ensures RemovesTo(Out(rec, r, last, e), Grown(r, |e|), name, last, Before(rec, r, last, |e|))
  {
    hide IndexOk, NewEntry, Grow, Opened, Closed, U32, U16, Restored, ScanFrom, HasName, Inserted, EntryLen;
    Layout(rec, r, last);
    RemoveFinds(rec, r, last, e, name);
    ShrinkRestores(rec, r, r.eb + last, UsedSize(rec), e);
    GrowPlace(Closed(Out(rec, r, last, e), r.eb + last, |e|, UsedSize(rec) + |e|), r, Grown(r, |e|), -|e|);
  }

  lemma RemoveFinds(rec: seq<byte>, r: Root, last: nat, e: seq<byte>, name: seq<byte>)
    requires IndexOk(rec, r, last) && NewEntry(e) && UsedSize(rec) + |e| <= AllocSize(rec) - 8
    requires HasName(e, 0, name) && NobodyNamed(rec, r, name)
    ensures var out, g := Out(rec, r, last, e), Grown(r, |e|);
            && Framed(out, g) && ScanFrom(out, g.eb, g.total, 0, name) == Some(last)
            && EntryLen(out, g.eb + last) == |e| && UsedSize(out) == UsedSize(rec) + |e|
  {
    hide EntriesOk, AttrsOk, FindFrom, Out, NewEntry, U32, U16, ScanFrom, HasName, Inserted, EntryLen;
    Layout(rec, r, last);
    OutFields(rec, r, last, e);
    OutMoved(rec, r, last, e);
    NewAndEnd(rec, Out(rec, r, last, e), r, r.eb + last, UsedSize(rec), e);
    ScanInserted(rec, Out(rec, r, last, e), r, last, UsedSize(rec), e, 0, name);
  }
}
