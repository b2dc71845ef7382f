/** Removing an index entry (src/ntfs.c): the record is well formed again, the walk shows
    the old entries without the first one of that name, and every other attribute keeps its
    bytes. */
module NtfsRemove {
  import opened Bits
  import opened Strings
  import opened Search
  import opened LittleEndian
  import opened NtfsIndex
  import opened NtfsIndexEdit

  /** The entries without the first one of the given name. */
  function Without(es: seq<seq<byte>>, name: seq<byte>): seq<seq<byte>> {
    if es == [] then [] else if EntryHasName(es[0], name) then es[1..] else [es[0]] + Without(es[1..], name)
  }

  predicate EntryHasName(e: seq<byte>, name: seq<byte>) { |e| >= 16 && HasName(e, 0, name) }

  /** Some entry has the given name. */
  predicate Shows(es: seq<seq<byte>>, name: seq<byte>) { exists e :: e in es && EntryHasName(e, name) }

  // ---- the entries ----------------------------------------------------------------------------

  /** The n bytes at eb + at are gone and the rest of the used part has moved down. */
  ghost predicate CutOut(rec: seq<byte>, out: seq<byte>, eb: nat, at: nat, n: nat, used: nat) {
    && |out| == |rec| && eb + at + n <= used <= |rec|
    && out[eb..eb + at] == rec[eb..eb + at] && out[eb + at..used - n] == rec[eb + at + n..used]
  }

  lemma CutFacts(rec: seq<byte>, out: seq<byte>, eb: nat, at: nat, n: nat, used: nat)
    requires CutOut(rec, out, eb, at, n, used)
    ensures |out| == |rec| && eb + at + n <= used <= |rec|
  {
  }

  /** An entry behind the cut, m bytes of it. */
  lemma EntryBehind(rec: seq<byte>, out: seq<byte>, eb: nat, at: nat, n: nat, used: nat, off: nat, m: nat)
    requires CutOut(rec, out, eb, at, n, used) && at <= off && 16 <= m && eb + off + n + m <= used
    ensures out[eb + off..eb + off + m] == rec[eb + off + n..eb + off + n + m]
    ensures EntryLen(out, eb + off) == EntryLen(rec, eb + off + n)
            && ContentLen(out, eb + off) == ContentLen(rec, eb + off + n)
    ensures IsLast(out, eb + off) <==> IsLast(rec, eb + off + n)
    ensures m > 80 ==> out[eb + off + 80] == rec[eb + off + n + 80]
  {
    hide EntryLen, ContentLen, IsLast;
    var i := off - at;
    SubWindow(out, eb + at, rec, eb + at + n, used - n - (eb + at), i, i + m);
    SubWindow(out, eb + at, rec, eb + at + n, used - n - (eb + at), i, i + 16);
    SameEntry(out, eb + off, rec, eb + off + n);
    if m > 80 {
      assert out[eb + off + 80] == out[eb + off..eb + off + m][80];
      assert rec[eb + off + n + 80] == rec[eb + off + n..eb + off + n + m][80];
    }
  }

  /** An entry in front of the cut, m bytes of it. */
  lemma EntryBefore(rec: seq<byte>, out: seq<byte>, eb: nat, at: nat, n: nat, used: nat, off: nat, m: nat)
    requires CutOut(rec, out, eb, at, n, used) && 16 <= m && off + m <= at
    ensures out[eb + off..eb + off + m] == rec[eb + off..eb + off + m]
    ensures EntryLen(out, eb + off) == EntryLen(rec, eb + off) && ContentLen(out, eb + off) == ContentLen(rec, eb + off)
    ensures IsLast(out, eb + off) <==> IsLast(rec, eb + off)
    ensures m > 80 ==> out[eb + off + 80] == rec[eb + off + 80]
  {
    hide EntryLen, ContentLen, IsLast;
    SubWindow(out, eb, rec, eb, at, off, off + m);
    SubWindow(out, eb, rec, eb, at, off, off + 16);
    SameEntry(out, eb + off, rec, eb + off);
    if m > 80 {
      assert out[eb + off + 80] == out[eb + off..eb + off + m][80];
      assert rec[eb + off + 80] == rec[eb + off..eb + off + m][80];
    }
  }

  /** From the cut on, the new record shows what the old one showed n bytes further. */
  lemma {:induction false} EntriesBehind(
      rec: seq<byte>, out: seq<byte>, eb: nat, total: nat, at: nat, n: nat, used: nat, off: nat, last: nat)
    requires CutOut(rec, out, eb, at, n, used) && at <= off && eb + total <= |rec| && eb + last + 16 <= used
             && n <= total
    requires EntriesOk(rec, eb, total, off + n, last)
    ensures EntriesOk(out, eb, total - n, off, last - n)
    ensures WalkFrom(out, eb, total - n, off) == WalkFrom(rec, eb, total, off + n)
    decreases last - off
  {
    hide EntryLen, ContentLen, IsLast, CutOut;
    CutFacts(rec, out, eb, at, n, used);
    if off + n == last {
      EntryBehind(rec, out, eb, at, n, used, off, 16);
    } else {
      var len := EntryLen(rec, eb + (off + n));
      EntryBehind(rec, out, eb, at, n, used, off, len);
      EntriesBehind(rec, out, eb, total, at, n, used, off + len, last);
    }
  }

  /** In front of the cut, up to the entry that the scan has found. */
  lemma {:induction false} EntriesBefore(
      rec: seq<byte>, out: seq<byte>, eb: nat, total: nat, at: nat, n: nat, used: nat, off: nat, last: nat,
      name: seq<byte>)
    requires CutOut(rec, out, eb, at, n, used) && eb + total <= |rec| && eb + last + 16 <= used && n <= total
    requires EntriesOk(rec, eb, total, off, last) && ScanFrom(rec, eb, total, off, name) == Some(at)
    requires eb + at + 16 <= |rec| && n == EntryLen(rec, eb + at) && n <= last
    ensures EntriesOk(out, eb, total - n, off, last - n)
    ensures WalkFrom(out, eb, total - n, off) == Without(WalkFrom(rec, eb, total, off), name)
    decreases last - off
  {
    hide EntryLen, ContentLen, IsLast, CutOut, HasName, EntryHasName, Without;
    CutFacts(rec, out, eb, at, n, used);
    var len := EntryLen(rec, eb + off);
    FoundAt(rec, eb, total, off, last, name);
    TakenEntry(rec, eb, off, len, name);
    if off == at {
      EntriesBehind(rec, out, eb, total, at, n, used, off, last);
      WithoutFirst(rec[eb + off..eb + off + len], WalkFrom(rec, eb, total, off + len), name);
    } else {
      EntryBefore(rec, out, eb, at, n, used, off, len);
      EntriesBefore(rec, out, eb, total, at, n, used, off + len, last, name);
      WithoutFirst(rec[eb + off..eb + off + len], WalkFrom(rec, eb, total, off + len), name);
    }
  }

  lemma ShowsFirst(e: seq<byte>, es: seq<seq<byte>>, name: seq<byte>)
    ensures Shows([e] + es, name) <==> EntryHasName(e, name) || Shows(es, name)
    ensures [] + es == es
  {
    hide EntryHasName;
    if EntryHasName(e, name) { assert e in [e] + es; }
    if Shows(es, name) {
      var x :| x in es && EntryHasName(x, name);
      assert x in [e] + es;
    }
  }

  lemma ShowsNothing(name: seq<byte>)
    ensures !Shows([], name)
  {
  }

  lemma WithoutFirst(e: seq<byte>, es: seq<seq<byte>>, name: seq<byte>)
    ensures Without([e] + es, name) == if EntryHasName(e, name) then es else [e] + Without(es, name)
    ensures [] + es == es
  {
    assert ([e] + es)[1..] == es;
  }

  /** The scan stops at an entry in front of the end mark, at this one or a later one. */
  lemma {:induction false} FoundAt(rec: seq<byte>, eb: nat, total: nat, off: nat, last: nat, name: seq<byte>)
    requires eb + total <= |rec| && EntriesOk(rec, eb, total, off, last) && ScanFrom(rec, eb, total, off, name).Some?
    ensures var at := ScanFrom(rec, eb, total, off, name).at;
            && off < last && at + EntryLen(rec, eb + at) <= last && HasName(rec, eb + at, name)
            && (at == off <==> HasName(rec, eb + off, name)) && (at != off ==> off + EntryLen(rec, eb + off) <= at)
    decreases last - off
  {
    hide EntryLen, ContentLen, IsLast, HasName;
    if off < last && !HasName(rec, eb + off, name) {
      FoundAt(rec, eb, total, off + EntryLen(rec, eb + off), last, name);
    }
  }

  /** An entry has its name wherever its bytes are. */
  lemma TakenEntry(rec: seq<byte>, eb: nat, off: nat, len: nat, name: seq<byte>)
    requires 16 <= len && eb + off + len <= |rec|
    requires ContentLen(rec, eb + off) >= 66 ==> 82 <= len && 82 + 2 * rec[eb + off + 80] as int <= len
    ensures EntryHasName(rec[eb + off..eb + off + len], name) <==> HasName(rec, eb + off, name)
    ensures HasName(rec, eb + off, name) ==> ContentLen(rec, eb + off) >= 66
  {
    var e := rec[eb + off..eb + off + len];
    assert e[0..len] == rec[eb + off..eb + off + len];
    hide ContentLen, EntryName, SameName;
    SameHasName(e, 0, rec, eb + off, len, name);
  }

  /** The scan succeeds exactly when the walk shows an entry of that name. */
  lemma {:induction false} ScanSeesWalk(rec: seq<byte>, eb: nat, total: nat, off: nat, last: nat, name: seq<byte>)
    requires eb + total <= |rec| && EntriesOk(rec, eb, total, off, last)
    ensures ScanFrom(rec, eb, total, off, name).Some? <==> Shows(WalkFrom(rec, eb, total, off), name)
    decreases last - off
  {
    hide EntryLen, ContentLen, IsLast, HasName, EntryHasName, Shows;
    if off < last {
      var len := EntryLen(rec, eb + off);
      TakenEntry(rec, eb, off, len, name);
      ScanSeesWalk(rec, eb, total, off + len, last, name);
      ShowsFirst(rec[eb + off..eb + off + len], WalkFrom(rec, eb, total, off + len), name);
    } else {
      ShowsNothing(name);
    }
  }

  // ---- the attributes -----------------------------------------------------------------------------

  /** Attributes behind the index root that are well formed where they have moved up to were
      well formed where they came from. */
  lemma {:induction false} AttrsBehind(
      small: seq<byte>, big: seq<byte>, ra: nat, len: nat, used: nat, n: nat, off: nat)
    requires Moved(small, big, ra, len, used, n) && ra + len <= off && AttrsOk(big, off + n, used + n)
    ensures AttrsOk(small, off, used)
    decreases used - off
  {
    hide U32, Moved;
    MovedHeader(small, big, ra, len, used, n, off);
    MovedFacts(small, big, ra, len, used, n);
    if U32(small, off) != END && U32(small, off) != 0 {
      AttrsBehind(small, big, ra, len, used, n, off + U32(small, off + 4));
    }
  }

  lemma {:induction false} AttrsBefore(
      small: seq<byte>, big: seq<byte>, ra: nat, len: nat, used: nat, n: nat, off: nat)
    requires Moved(small, big, ra, len, used, n) && 48 <= off && AttrsOk(big, off, used + n)
    requires FindFrom(big, INDEX_ROOT, off) == Some(ra)
    ensures AttrsOk(small, off, used) && FindFrom(small, INDEX_ROOT, off) == Some(ra)
    decreases used + n - off
  {
    hide U32, Moved;
    MovedFacts(small, big, ra, len, used, n);
    if off == ra {
      AttrsBehind(small, big, ra, len, used, n, ra + len);
    } else {
      KeptHeader(small, big, ra, len, used, n, off);
      AttrsBefore(small, big, ra, len, used, n, off + U32(big, off + 4));
    }
  }

  /** An attribute kept in one direction is kept in the other. */
  lemma KeptBothWays(small: seq<byte>, big: seq<byte>, kind: nat, used: nat)
    requires |small| == |big| >= 48 && AttrKept(small, big, kind) && used <= |small|
             && AttrsOk(small, FirstAttr(small), used)
    ensures AttrKept(big, small, kind)
  {
    hide U16, U32, FindFrom, AttrsOk;
    var p, o := FindAttribute(small, kind), FindAttribute(big, kind);
    if p.Some? {
      FoundSize(small, FirstAttr(small), used, kind);
      var size := U32(small, p.at + 4);
      SubWindow(big, o.at, small, p.at, size, 4, 8);
      SameU32(big, o.at + 4, small, p.at + 4);
    }
  }

  lemma {:induction false} FoundSize(rec: seq<byte>, off: nat, used: nat, kind: nat)
    requires used <= |rec| && AttrsOk(rec, off, used)
    ensures var o := FindFrom(rec, kind, off); o.Some? ==> U32(rec, o.at + 4) >= 16
    decreases used - off
  {
    hide U32;
    if U32(rec, off) != END && U32(rec, off) != 0 && U32(rec, off) != kind {
      FoundSize(rec, off + U32(rec, off + 4), used, kind);
    }
  }

  // ---- the record after a removal -------------------------------------------------------------------

  ghost function Shrunk(r: Root, n: nat): Root
    requires n <= r.total && n <= r.len
  {
    r.(total := r.total - n, len := r.len - n)
  }

  /** Where the scan has found its entry, and how long it is. */
  ghost predicate FoundEntry(rec: seq<byte>, r: Root, last: nat, name: seq<byte>, at: nat, n: nat) {
    && IndexOk(rec, r, last) && r.eb + r.total <= |rec| && ScanFrom(rec, r.eb, r.total, 0, name) == Some(at)
    && at + n <= last && n == EntryLen(rec, r.eb + at)
  }

  /** The record without the entry. */
  ghost function Rem(rec: seq<byte>, r: Root, last: nat, name: seq<byte>, at: nat, n: nat): (g: seq<byte>)
    requires FoundEntry(rec, r, last, name, at, n)
    ensures |g| == |rec|
  {
    Layout(rec, r, last);
    Grow(Closed(rec, r.eb + at, n, UsedSize(rec)), r, -(n as int))
  }

  lemma ModSub(x: nat, n: nat)
    requires n <= x < TWO32
    ensures (x - n) % TWO32 == x - n
  {
  }

  lemma RemFields(rec: seq<byte>, r: Root, last: nat, name: seq<byte>, at: nat, n: nat)
    requires FoundEntry(rec, r, last, name, at, n)
    ensures var g := Rem(rec, r, last, name, at, n);
            && 28 <= r.ra && r.ra + 24 <= r.ir && r.ir + 28 <= |rec| && n <= r.total && n <= r.len && n <= UsedSize(rec)
            && UsedSize(g) == UsedSize(rec) - n && U32(g, r.ra + 4) == r.len - n && U32(g, r.ir + 20) == r.total - n
            && U32(g, r.ra + 16) == (U32(rec, r.ra + 16) - n) % TWO32
            && U32(g, r.ir + 24) == (U32(rec, r.ir + 24) - n) % TWO32
  {
    hide IndexOk, Grow, Closed, U16, U32, ScanFrom, EntryLen;
    Layout(rec, r, last);
    TotalHoldsLast(rec, r, last);
    var ea, used := r.eb + at, UsedSize(rec);
    var c := Closed(rec, ea, n, used);
    GrowAdds(c, r, -(n as int));
    ClosedWord(rec, ea, n, used, r.ir + 20);
    ClosedWord(rec, ea, n, used, r.ir + 24);
    ClosedWord(rec, ea, n, used, r.ra + 16);
    ClosedWord(rec, ea, n, used, r.ra + 4);
    ClosedWord(rec, ea, n, used, 24);
    ModSub(used, n);
    ModSub(r.len, n);
    ModSub(r.total, n);
  }

  lemma TotalHoldsLast(rec: seq<byte>, r: Root, last: nat)
    requires IndexOk(rec, r, last)
    ensures last + 16 <= r.total
  {
    hide AttrsOk, FindFrom, U16, U32;
  }

  /** Windows in front of the entry that avoid the five size fields. */
  lemma RemKeepsFront(rec: seq<byte>, r: Root, last: nat, name: seq<byte>, at: nat, n: nat, x: nat, m: nat)
    requires FoundEntry(rec, r, last, name, at, n) && x + m <= r.eb + at && Away(r, x, m)
    ensures Rem(rec, r, last, name, at, n)[x..x + m] == rec[x..x + m]
  {
    hide IndexOk, Grow, Away, ScanFrom, EntryLen;
    Layout(rec, r, last);
    var c := Closed(rec, r.eb + at, n, UsedSize(rec));
    GrowKeeps(c, r, -(n as int), x, m);
    assert c[x..x + m] == rec[x..x + m];
  }

  /** The fields that stay. */
  lemma RemKeeps(rec: seq<byte>, r: Root, last: nat, name: seq<byte>, at: nat, n: nat)
    requires FoundEntry(rec, r, last, name, at, n)
    ensures var g := Rem(rec, r, last, name, at, n);
            && r.ir + 28 <= |rec| && |rec| >= 48
            && FirstAttr(g) == FirstAttr(rec) && AllocSize(g) == AllocSize(rec)
            && U16(g, r.ra + 20) == r.ir - r.ra && U32(g, r.ir + 16) == r.eb - r.ir - 16
            && U32(g, r.ra) == U32(rec, r.ra)
            && g[48..r.ra] == rec[48..r.ra]
  {
    hide IndexOk, Grow, Closed, U16, U32, ScanFrom, EntryLen, Rem;
    Layout(rec, r, last);
    var g := Rem(rec, r, last, name, at, n);
    RemKeepsFront(rec, r, last, name, at, n, 20, 2);
    RemKeepsFront(rec, r, last, name, at, n, 28, 4);
    RemKeepsFront(rec, r, last, name, at, n, r.ra + 20, 2);
    RemKeepsFront(rec, r, last, name, at, n, r.ir + 16, 4);
    RemKeepsFront(rec, r, last, name, at, n, r.ra, 4);
    RemKeepsFront(rec, r, last, name, at, n, 48, r.ra - 48);
    SameU16(g, 20, rec, 20);
    SameU32(g, 28, rec, 28);
    SameU16(g, r.ra + 20, rec, r.ra + 20);
    SameU32(g, r.ir + 16, rec, r.ir + 16);
    SameU32(g, r.ra, rec, r.ra);
  }

  /** Behind the entry everything has moved down. */
  lemma RemMoved(rec: seq<byte>, r: Root, last: nat, name: seq<byte>, at: nat, n: nat)
    requires FoundEntry(rec, r, last, name, at, n)
    ensures var g, used := Rem(rec, r, last, name, at, n), UsedSize(rec);
            && n <= r.len && n <= used && CutOut(rec, g, r.eb, at, n, used)
            && Moved(g, rec, r.ra, r.len - n, used - n, n)
  {
    hide IndexOk, Grow, U16, U32, ScanFrom, EntryLen, Rem, AddU32;
    Layout(rec, r, last);
    RemFields(rec, r, last, name, at, n);
    RemKeeps(rec, r, last, name, at, n);
    RemKeepsFront(rec, r, last, name, at, n, r.eb, at) by { assert Away(r, r.eb, at); }
    RemTail(rec, r, last, name, at, n);
    var g, used, ea := Rem(rec, r, last, name, at, n), UsedSize(rec), r.eb + at;
    SubWindow(g, ea, rec, ea + n, used - n - ea, r.ra + r.len - n - ea, used - n - ea);
  }

  lemma RemTail(rec: seq<byte>, r: Root, last: nat, name: seq<byte>, at: nat, n: nat)
    requires FoundEntry(rec, r, last, name, at, n)
    ensures var ea, used := r.eb + at, UsedSize(rec);
            ea + n <= used <= |rec| && Rem(rec, r, last, name, at, n)[ea..used - n] == rec[ea + n..used]
  {
    hide IndexOk, Grow, ScanFrom, EntryLen;
    Layout(rec, r, last);
    var ea, used := r.eb + at, UsedSize(rec);
    var c := Closed(rec, ea, n, used);
    GrowKeeps(c, r, -(n as int), ea, used - n - ea);
    assert c[ea..used - n] == rec[ea + n..used];
  }

  /** What a successful removal means. */
  ghost predicate RemovedWell(rec: seq<byte>, r: Root, last: nat, name: seq<byte>, n: nat, out: seq<byte>)
    requires IndexOk(rec, r, last)
  {
    && |out| == |rec| >= 48 && n <= last && n <= r.total && n <= r.len && r.eb + r.total <= |rec|
    && IndexOk(out, Shrunk(r, n), last - n) && UsedSize(out) == UsedSize(rec) - n
    && r.ir + 28 <= |rec| && r.ra + 20 <= |rec|
    && U32(out, r.ra + 16) == (U32(rec, r.ra + 16) - n) % TWO32
    && U32(out, r.ir + 24) == (U32(rec, r.ir + 24) - n) % TWO32
    && WalkFrom(out, r.eb, r.total - n, 0) == Without(WalkFrom(rec, r.eb, r.total, 0), name)
    && forall kind :: kind != INDEX_ROOT ==> AttrKept(rec, out, kind)
  }

  lemma RemEntries(rec: seq<byte>, r: Root, last: nat, name: seq<byte>, at: nat, n: nat)
    requires FoundEntry(rec, r, last, name, at, n)
    ensures var g := Rem(rec, r, last, name, at, n);
            && n <= r.total && EntriesOk(g, r.eb, r.total - n, 0, last - n)
            && WalkFrom(g, r.eb, r.total - n, 0) == Without(WalkFrom(rec, r.eb, r.total, 0), name)
  {
    hide AttrsOk, FindFrom, U16, U32, Rem, ScanFrom, EntryLen, EntriesOk, WalkFrom, Without;
    Layout(rec, r, last);
    RemFields(rec, r, last, name, at, n);
    RemMoved(rec, r, last, name, at, n);
    EntriesBefore(rec, Rem(rec, r, last, name, at, n), r.eb, r.total, at, n, UsedSize(rec), 0, last, name);
  }

  lemma RemAttrs(rec: seq<byte>, r: Root, last: nat, name: seq<byte>, at: nat, n: nat)
    requires FoundEntry(rec, r, last, name, at, n)
    ensures var g := Rem(rec, r, last, name, at, n);
            && |g| >= 48 && n <= UsedSize(rec) && AttrsOk(g, FirstAttr(g), UsedSize(rec) - n)
            && FindAttribute(g, INDEX_ROOT) == Some(r.ra)
            && forall kind :: kind != INDEX_ROOT ==> AttrKept(rec, g, kind)
  {
    hide AttrsOk, FindFrom, U16, U32, Rem, ScanFrom, EntryLen, EntriesOk, Moved, AttrKept;
    Layout(rec, r, last);
    RemFields(rec, r, last, name, at, n);
    RemKeeps(rec, r, last, name, at, n);
    RemMoved(rec, r, last, name, at, n);
    var g, used := Rem(rec, r, last, name, at, n), UsedSize(rec) - n;
    AttrsBefore(g, rec, r.ra, r.len - n, used, n, FirstAttr(rec));
    forall kind | kind != INDEX_ROOT ensures AttrKept(rec, g, kind) {
      OtherKept(g, rec, r.ra, r.len - n, used, n, kind);
    }
  }

  lemma OtherKept(small: seq<byte>, big: seq<byte>, ra: nat, len: nat, used: nat, n: nat, kind: nat)
    requires |small| == |big| >= 48 && FirstAttr(small) == FirstAttr(big) >= 48 && Moved(small, big, ra, len, used, n)
    requires used <= |small| && AttrsOk(small, FirstAttr(small), used)
    requires FindAttribute(small, INDEX_ROOT) == Some(ra) && kind != INDEX_ROOT
    ensures AttrKept(big, small, kind)
  {
    hide AttrsOk, FindFrom, U16, U32, Moved;
    OtherAttribute(small, big, ra, len, used, n, FirstAttr(small), kind);
    KeptBothWays(small, big, kind, used);
  }

  lemma RemWell(rec: seq<byte>, r: Root, last: nat, name: seq<byte>, at: nat, n: nat)
    requires FoundEntry(rec, r, last, name, at, n)
    ensures RemovedWell(rec, r, last, name, n, Rem(rec, r, last, name, at, n))
  {
    hide EntriesOk, AttrsOk, FindFrom, U16, U32, Rem, ScanFrom, EntryLen, WalkFrom, Without, AttrKept;
    Layout(rec, r, last);
    RemFields(rec, r, last, name, at, n);
    RemKeeps(rec, r, last, name, at, n);
    RemEntries(rec, r, last, name, at, n);
    RemAttrs(rec, r, last, name, at, n);
  }

  /** Removal succeeds exactly when the walk shows an entry of that name; then the record is
      well formed again with all its sizes smaller by the entry's, the walk shows the old
      entries without the first one of that name, and every other attribute is found with
      the same bytes. */
  lemma RemoveTheorem(rec: seq<byte>, r: Root, last: nat, name: seq<byte>) returns (n: nat)
    requires IndexOk(rec, r, last)
    ensures Removable(rec, r, name)
    ensures Remove(rec, r, name).ok <==> Shows(WalkFrom(rec, r.eb, r.total, 0), name)
    ensures Remove(rec, r, name).ok ==> n > 0 && RemovedWell(rec, r, last, name, n, Remove(rec, r, name).rec)
  {
    hide IndexOk, RemovedWell, U16, U32, Grow, Closed, ScanFrom, WalkFrom, Shows, Rem;
    IndexFramed(rec, r, last);
    Layout(rec, r, last);
    ScanMeaning(rec, r, last, name);
    n := 0;
    var f := ScanFrom(rec, r.eb, r.total, 0, name);
    if f.Some? {
      n := EntryLen(rec, r.eb + f.at);
      RemWell(rec, r, last, name, f.at, n);
      RemIs(rec, r, last, name, f.at, n);
    }
  }

  /** The conditions under which the removal is defined. */
  ghost predicate Removable(rec: seq<byte>, r: Root, name: seq<byte>) {
    && Framed(rec, r)
    && var f := ScanFrom(rec, r.eb, r.total, 0, name);
       f.Some? ==> r.eb + f.at + EntryLen(rec, r.eb + f.at) <= UsedSize(rec)
  }

  lemma RemIs(rec: seq<byte>, r: Root, last: nat, name: seq<byte>, at: nat, n: nat)
    requires FoundEntry(rec, r, last, name, at, n) && Removable(rec, r, name)
    ensures Remove(rec, r, name) == Result(true, Rem(rec, r, last, name, at, n))
  {
    hide IndexOk, Grow, Closed, ScanFrom, EntryLen, U32;
  }

  lemma ScanMeaning(rec: seq<byte>, r: Root, last: nat, name: seq<byte>)
    requires IndexOk(rec, r, last)
    ensures var f := ScanFrom(rec, r.eb, r.total, 0, name);
            && (f.Some? <==> Shows(WalkFrom(rec, r.eb, r.total, 0), name))
            && (f.Some? ==> FoundEntry(rec, r, last, name, f.at, EntryLen(rec, r.eb + f.at))
                            && EntryLen(rec, r.eb + f.at) > 0)
  {
    hide AttrsOk, FindFrom, U16, U32, ScanFrom, WalkFrom, EntriesOk, Shows, EntryLen;
    ScanSeesWalk(rec, r.eb, r.total, 0, last, name);
    var f := ScanFrom(rec, r.eb, r.total, 0, name);
    if f.Some? {
      FoundAt(rec, r.eb, r.total, 0, last, name);
      FoundLength(rec, r.eb, r.total, 0, last, name);
    }
  }

  lemma {:induction false} FoundLength(rec: seq<byte>, eb: nat, total: nat, off: nat, last: nat, name: seq<byte>)
    requires eb + total <= |rec| && EntriesOk(rec, eb, total, off, last) && ScanFrom(rec, eb, total, off, name).Some?
    ensures EntryLen(rec, eb + ScanFrom(rec, eb, total, off, name).at) >= 16
    decreases last - off
  {
    hide EntryLen, ContentLen, IsLast, HasName;
    if off < last && !HasName(rec, eb + off, name) {
      FoundLength(rec, eb, total, off + EntryLen(rec, eb + off), last, name);
    }
  }
}
