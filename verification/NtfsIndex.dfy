/** The index root of an NTFS directory record (src/ntfs.c): looking attributes up,
    walking the entries, inserting an entry in front of the end mark and removing one. */
module NtfsIndex {
  import opened Bits
  import opened Strings
  import opened Search
  import opened LittleEndian

  const INDEX_ROOT: nat := 0x90
  const END: nat := 0xFFFF_FFFF

  // ---- attributes -------------------------------------------------------------------------

  /** find_attribute from offset `off` on. */
  function FindFrom(rec: seq<byte>, kind: nat, off: nat): (r: Found)
    ensures r.Some? ==> off <= r.at && r.at + 16 <= |rec| && U32(rec, r.at) == kind
                        && 0 < U32(rec, r.at + 4) <= |rec| - r.at
    decreases |rec| - off
  {
    if off + 16 > |rec| then None
    else
      var t, len := U32(rec, off), U32(rec, off + 4);
      if t == END || t == 0 || len == 0 || len > |rec| - off then None
      else if t == kind then Some(off)
      else FindFrom(rec, kind, off + len)
  }

  function FirstAttr(rec: seq<byte>): nat requires |rec| >= 48 { U16(rec, 20) }
  function UsedSize(rec: seq<byte>): nat requires |rec| >= 48 { U32(rec, 24) }
  function AllocSize(rec: seq<byte>): nat requires |rec| >= 48 { U32(rec, 28) }

  function FindAttribute(rec: seq<byte>, kind: nat): Found
    requires |rec| >= 48
  {
    FindFrom(rec, kind, FirstAttr(rec))
  }

  // ---- entries ----------------------------------------------------------------------------

  function EntryLen(rec: seq<byte>, p: nat): nat requires p + 16 <= |rec| { U16(rec, p + 8) }
  function ContentLen(rec: seq<byte>, p: nat): nat requires p + 16 <= |rec| { U16(rec, p + 10) }
  predicate IsLast(rec: seq<byte>, p: nat) requires p + 16 <= |rec| { U32(rec, p + 12) / 2 % 2 == 1 }

  /** walk_index_entries: the entries that carry a file name, in order. */
  function WalkFrom(rec: seq<byte>, eb: nat, total: nat, off: nat): seq<seq<byte>>
    requires eb + total <= |rec|
    decreases total - off
  {
    if off + 16 > total then []
    else
      var len := EntryLen(rec, eb + off);
      if len == 0 || off + len > total || IsLast(rec, eb + off) then []
      else
        (if ContentLen(rec, eb + off) >= 66 then [rec[eb + off..eb + off + len]] else [])
          + WalkFrom(rec, eb, total, off + len)
  }

  /** The index root attribute: where it starts, where its value and its entries lie. */
  datatype Root = Root(ra: nat, ir: nat, eb: nat, total: nat, len: nat)

  predicate RootInside(rec: seq<byte>, ra: nat) {
    ra + 24 <= |rec| && ra + U16(rec, ra + 20) + 32 <= |rec|
  }

  function RootAt(rec: seq<byte>, ra: nat): Root
    requires RootInside(rec, ra)
  {
    var ir := ra + U16(rec, ra + 20);
    Root(ra, ir, ir + 16 + U32(rec, ir + 16), U32(rec, ir + 20), U32(rec, ra + 4))
  }

  /** The entries from `off` on are well formed and end with an end mark at `last`. */
  ghost predicate EntriesOk(rec: seq<byte>, eb: nat, total: nat, off: nat, last: nat)
    requires eb + total <= |rec|
    decreases total - off
  {
    && off <= last && last + 16 <= total
    && (off == last ==> IsLast(rec, eb + off) && EntryLen(rec, eb + off) != 0)
    && (off < last ==>
          var len := EntryLen(rec, eb + off);
          && 16 <= len <= last - off && !IsLast(rec, eb + off)
          && (ContentLen(rec, eb + off) >= 66 ==> 82 <= len && 82 + 2 * rec[eb + off + 80] as int <= len)
          && EntriesOk(rec, eb, total, off + len, last))
  }

  /** The attributes from `off` on lie below `used` and end with an end mark there. */
  ghost predicate AttrsOk(rec: seq<byte>, off: nat, used: nat)
    requires used <= |rec|
    decreases used - off
  {
    && off + 8 <= used
    && (U32(rec, off) == END || U32(rec, off) == 0
        || (16 <= U32(rec, off + 4) <= used - off && AttrsOk(rec, off + U32(rec, off + 4), used)))
  }

  /** A directory record as the driver builds it: the end mark of the index lies inside
      the index root attribute, which lies inside the used part of the record. */
  ghost predicate IndexOk(rec: seq<byte>, r: Root, last: nat) {
    && |rec| >= 48 && |rec| < TWO32 && FirstAttr(rec) >= 48
    && UsedSize(rec) <= |rec| && 8 <= AllocSize(rec) <= |rec| && AttrsOk(rec, FirstAttr(rec), UsedSize(rec))
    && FindAttribute(rec, INDEX_ROOT) == Some(r.ra) && RootInside(rec, r.ra) && r == RootAt(rec, r.ra)
    && r.ra + 24 <= r.ir && r.ir + 28 <= r.eb && r.eb + r.total <= |rec| && r.eb + r.total <= UsedSize(rec) + 8
    && EntriesOk(rec, r.eb, r.total, 0, last)
    && r.eb + last + 16 <= r.ra + r.len <= UsedSize(rec)
  }

  // ---- insertion ----------------------------------------------------------------------------

  /** The scan for the end mark; 0 when there is none. */
  function LastFrom(rec: seq<byte>, eb: nat, total: nat, off: nat): nat
    requires eb + total <= |rec|
    decreases total - off
  {
    if off + 16 > total || EntryLen(rec, eb + off) == 0 then 0
    else if IsLast(rec, eb + off) then off
    else LastFrom(rec, eb, total, off + EntryLen(rec, eb + off))
  }

  lemma {:induction false} FindsLast(rec: seq<byte>, eb: nat, total: nat, off: nat, last: nat)
    requires eb + total <= |rec| && EntriesOk(rec, eb, total, off, last)
    ensures LastFrom(rec, eb, total, off) == last
    decreases total - off
  {
    if off < last { FindsLast(rec, eb, total, off + EntryLen(rec, eb + off), last); }
  }

  /** The tail [ts, used) moved up by |e| bytes and e put in its place. */
  function Opened(rec: seq<byte>, ts: nat, used: nat, e: seq<byte>): (r: seq<byte>)
    requires ts <= used && used + |e| <= |rec|
    ensures |r| == |rec|
  {
    rec[..ts] + e + rec[ts..used] + rec[used + |e|..]
  }

  /** Adds d to the five size fields. */
  function Grow(rec: seq<byte>, r: Root, d: int): (g: seq<byte>)
    requires 28 <= r.ra && r.ra + 24 <= r.ir && r.ir + 28 <= |rec|
    ensures |g| == |rec|
  {
    var a := AddU32(rec, r.ir + 20, d);
    var b := AddU32(a, r.ir + 24, d);
    var c := AddU32(b, r.ra + 16, d);
    AddU32(AddU32(c, r.ra + 4, d), 24, d)
  }

  function AddU32(rec: seq<byte>, p: nat, d: int): (g: seq<byte>)
    requires p + 4 <= |rec|
    ensures |g| == |rec|
  {
    PutU32(rec, p, (U32(rec, p) + d) % TWO32)
  }

  datatype Result = Result(ok: bool, rec: seq<byte>)

  function Insert(rec: seq<byte>, r: Root, e: seq<byte>): (s: Result)
    requires Framed(rec, r) && AllocSize(rec) <= |rec| && r.eb + LastFrom(rec, r.eb, r.total, 0) <= UsedSize(rec)
  {
    if UsedSize(rec) + |e| > AllocSize(rec) - 8 then Result(false, rec)
    else Result(true, Grow(Opened(rec, r.eb + LastFrom(rec, r.eb, r.total, 0), UsedSize(rec), e), r, |e|))
  }

  // ---- removal ------------------------------------------------------------------------------

  /** The name stored in an entry, as an ASCII C string. */
  function EntryName(rec: seq<byte>, p: nat): seq<byte>
    requires p + 82 <= |rec| && p + 82 + 2 * rec[p + 80] as int <= |rec|
  {
    var n := rec[p + 80] as int;
    Until(seq(n, i requires 0 <= i < n => Ascii(U16(rec, p + 82 + 2 * i))), {0})
  }

  function Ascii(unit: nat): byte { if unit < 128 then unit else 0x3F }

  /** The entry has a file name the record holds completely. */
  predicate Named(rec: seq<byte>, p: nat) {
    p + 82 <= |rec| && ContentLen(rec, p) >= 66 && p + 82 + 2 * rec[p + 80] as int <= |rec|
  }

  predicate HasName(rec: seq<byte>, p: nat, name: seq<byte>) {
    Named(rec, p) && SameName(EntryName(rec, p), name)
  }

  function ScanFrom(rec: seq<byte>, eb: nat, total: nat, off: nat, name: seq<byte>): (r: Found)
    requires eb + total <= |rec|
    ensures r.Some? ==> off <= r.at && r.at + 16 <= total
    decreases total - off
  {
    if off + 16 > total || EntryLen(rec, eb + off) == 0 || IsLast(rec, eb + off) then None
    else if HasName(rec, eb + off, name) then Some(off)
    else ScanFrom(rec, eb, total, off + EntryLen(rec, eb + off), name)
  }

  /** The tail [ea + n, used) moved down over the n bytes at ea, and zeros behind it. */
  function Closed(rec: seq<byte>, ea: nat, n: nat, used: nat): (r: seq<byte>)
    requires ea + n <= used <= |rec|
    ensures |r| == |rec|
  {
    rec[..ea] + rec[ea + n..used] + seq(n, _ => 0) + rec[used..]
  }

  predicate Framed(rec: seq<byte>, r: Root) {
    |rec| >= 48 && 28 <= r.ra && r.ra + 24 <= r.ir && r.ir + 28 <= r.eb && r.eb + r.total <= |rec|
      && UsedSize(rec) <= |rec|
  }

  function Remove(rec: seq<byte>, r: Root, name: seq<byte>): (s: Result)
    requires Framed(rec, r)
    requires var f := ScanFrom(rec, r.eb, r.total, 0, name); f.Some? ==>
               r.eb + f.at + EntryLen(rec, r.eb + f.at) <= UsedSize(rec)
  {
    match ScanFrom(rec, r.eb, r.total, 0, name)
    case None => Result(false, rec)
    case Some(f) =>
      var n := EntryLen(rec, r.eb + f);
      Result(true, Grow(Closed(rec, r.eb + f, n, UsedSize(rec)), r, -(n as int)))
  }

  // ---- what insertion does to the bytes -------------------------------------------------------

  /** Everything at and behind eb, and everything in front of it but the five fields. */
  lemma AddKeeps(rec: seq<byte>, p: nat, d: int, x: nat, n: nat)
    requires p + 4 <= |rec| && x + n <= |rec| && (x + n <= p || p + 4 <= x)
    ensures AddU32(rec, p, d)[x..x + n] == rec[x..x + n]
  {
    var u, v := AddU32(rec, p, d)[x..x + n], rec[x..x + n];
    forall t | 0 <= t < n ensures u[t] == v[t] { assert u[t] == AddU32(rec, p, d)[x + t]; }
  }

  /** A window away from the five fields is kept. */
  ghost predicate Away(r: Root, x: nat, n: nat) {
    && (x + n <= 24 || 28 <= x) && (x + n <= r.ra + 4 || r.ra + 8 <= x) && (x + n <= r.ra + 16 || r.ra + 20 <= x)
    && (x + n <= r.ir + 20 || r.ir + 28 <= x)
  }

  lemma GrowKeeps(rec: seq<byte>, r: Root, d: int, x: nat, n: nat)
    requires 28 <= r.ra && r.ra + 24 <= r.ir && r.ir + 28 <= |rec| && x + n <= |rec| && Away(r, x, n)
    ensures Grow(rec, r, d)[x..x + n] == rec[x..x + n]
  {
    hide AddU32;
    var a := AddU32(rec, r.ir + 20, d);
    var b := AddU32(a, r.ir + 24, d);
    var c := AddU32(b, r.ra + 16, d);
    AddKeeps(rec, r.ir + 20, d, x, n);
    AddKeeps(a, r.ir + 24, d, x, n);
    AddKeeps(b, r.ra + 16, d, x, n);
    AddKeeps(c, r.ra + 4, d, x, n);
    AddKeeps(AddU32(c, r.ra + 4, d), 24, d, x, n);
  }

  /** The five fields themselves grow by d. */
  lemma GrowAdds(rec: seq<byte>, r: Root, d: int)
    requires 28 <= r.ra && r.ra + 24 <= r.ir && r.ir + 28 <= |rec|
    ensures var g := Grow(rec, r, d);
            && U32(g, r.ir + 20) == (U32(rec, r.ir + 20) + d) % TWO32
            && U32(g, r.ir + 24) == (U32(rec, r.ir + 24) + d) % TWO32
            && U32(g, r.ra + 16) == (U32(rec, r.ra + 16) + d) % TWO32
            && U32(g, r.ra + 4) == (U32(rec, r.ra + 4) + d) % TWO32
            && U32(g, 24) == (U32(rec, 24) + d) % TWO32
  {
    hide U32, PutU32;
    var a := AddU32(rec, r.ir + 20, d);
    var b := AddU32(a, r.ir + 24, d);
    var c := AddU32(b, r.ra + 16, d);
    var e := AddU32(c, r.ra + 4, d);
    AddOther(rec, r.ir + 20, d, r.ir + 24);
    AddOther(rec, r.ir + 20, d, r.ra + 16);
    AddOther(rec, r.ir + 20, d, r.ra + 4);
    AddOther(rec, r.ir + 20, d, 24);
    AddOther(a, r.ir + 24, d, r.ir + 20);
    AddOther(a, r.ir + 24, d, r.ra + 16);
    AddOther(a, r.ir + 24, d, r.ra + 4);
    AddOther(a, r.ir + 24, d, 24);
    AddOther(b, r.ra + 16, d, r.ir + 20);
    AddOther(b, r.ra + 16, d, r.ir + 24);
    AddOther(b, r.ra + 16, d, r.ra + 4);
    AddOther(b, r.ra + 16, d, 24);
    AddOther(c, r.ra + 4, d, r.ir + 20);
    AddOther(c, r.ra + 4, d, r.ir + 24);
    AddOther(c, r.ra + 4, d, r.ra + 16);
    AddOther(c, r.ra + 4, d, 24);
    AddOther(e, 24, d, r.ir + 20);
    AddOther(e, 24, d, r.ir + 24);
    AddOther(e, 24, d, r.ra + 16);
    AddOther(e, 24, d, r.ra + 4);
  }

  lemma AddOther(rec: seq<byte>, p: nat, d: int, q: nat)
    requires p + 4 <= |rec| && q + 4 <= |rec| && (p + 4 <= q || q + 4 <= p)
    ensures U32(AddU32(rec, p, d), q) == U32(rec, q)
  {
    hide U32, AddU32;
    AddKeeps(rec, p, d, q, 4);
    SameU32(AddU32(rec, p, d), q, rec, q);
  }

  lemma OpenedParts(rec: seq<byte>, ts: nat, used: nat, e: seq<byte>)
    requires ts <= used && used + |e| <= |rec|
    ensures var o := Opened(rec, ts, used, e);
            o[..ts] == rec[..ts] && o[ts..ts + |e|] == e && o[ts + |e|..used + |e|] == rec[ts..used]
              && o[used + |e|..] == rec[used + |e|..]
  {
  }

  /** The bytes of the record after an insertion at ts. */
  ghost predicate Inserted(rec: seq<byte>, out: seq<byte>, r: Root, ts: nat, used: nat, e: seq<byte>) {
    && |out| == |rec| && r.eb <= ts <= used && used + |e| <= |rec| && r.eb + r.total <= |rec|
    && out[r.eb..ts] == rec[r.eb..ts] && out[ts..ts + |e|] == e && out[ts + |e|..used + |e|] == rec[ts..used]
  }

  lemma InsertBytes(rec: seq<byte>, r: Root, ts: nat, used: nat, e: seq<byte>)
    requires 28 <= r.ra && r.ra + 24 <= r.ir && r.ir + 28 <= r.eb <= ts <= used && used + |e| <= |rec|
             && r.eb + r.total <= |rec|
    ensures Inserted(rec, Grow(Opened(rec, ts, used, e), r, |e|), r, ts, used, e)
  {
    hide Grow, Opened;
    var o := Opened(rec, ts, used, e);
    OpenedParts(rec, ts, used, e);
    GrowKeeps(o, r, |e|, r.eb, ts - r.eb);
    GrowKeeps(o, r, |e|, ts, |e|);
    GrowKeeps(o, r, |e|, ts + |e|, used - ts);
    SubWindow(o, 0, rec, 0, ts, r.eb, ts) by { assert o[0..ts] == o[..ts] && rec[0..ts] == rec[..ts]; }
  }

  // ---- walking ----------------------------------------------------------------------------------

  lemma SameEntry(a: seq<byte>, p: nat, b: seq<byte>, q: nat)
    requires p + 16 <= |a| && q + 16 <= |b| && a[p..p + 16] == b[q..q + 16]
    ensures EntryLen(a, p) == EntryLen(b, q) && ContentLen(a, p) == ContentLen(b, q) && (IsLast(a, p) <==> IsLast(b, q))
  {
    hide U16, U32;
    SubWindow(a, p, b, q, 16, 8, 10);
    SubWindow(a, p, b, q, 16, 10, 12);
    SubWindow(a, p, b, q, 16, 12, 16);
    SameU16(a, p + 8, b, q + 8);
    SameU16(a, p + 10, b, q + 10);
    SameU32(a, p + 12, b, q + 12);
  }

  /** An entry as build_index_entry makes it: its own length, a file name, not the end. */
  ghost predicate NewEntry(e: seq<byte>) {
    && 82 <= |e| < 0x1_0000 && EntryLen(e, 0) == |e| && ContentLen(e, 0) >= 66 && !IsLast(e, 0)
    && 82 + 2 * e[80] as int <= |e|
  }

  /** The entry at eb + off, of n bytes in front of ts, is as before. */
  lemma KeptEntry(rec: seq<byte>, out: seq<byte>, r: Root, ts: nat, used: nat, e: seq<byte>, off: nat, n: nat)
    requires Inserted(rec, out, r, ts, used, e) && r.eb + off + n <= ts && n >= 16
    ensures out[r.eb + off..r.eb + off + n] == rec[r.eb + off..r.eb + off + n]
    ensures EntryLen(out, r.eb + off) == EntryLen(rec, r.eb + off)
            && ContentLen(out, r.eb + off) == ContentLen(rec, r.eb + off)
    ensures IsLast(out, r.eb + off) <==> IsLast(rec, r.eb + off)
  {
    hide EntryLen, ContentLen, IsLast;
    SubWindow(out, r.eb, rec, r.eb, ts - r.eb, off, off + n);
    SubWindow(out, r.eb, rec, r.eb, ts - r.eb, off, off + 16);
    SameEntry(out, r.eb + off, rec, r.eb + off);
  }

  /** The new entry, and the end mark behind it. */
  lemma NewAndEnd(rec: seq<byte>, out: seq<byte>, r: Root, ts: nat, used: nat, e: seq<byte>)
    requires Inserted(rec, out, r, ts, used, e) && ts + 16 <= used && NewEntry(e)
    ensures EntryLen(out, ts) == |e| && ContentLen(out, ts) >= 66 && !IsLast(out, ts)
    ensures ts + |e| + 16 <= |out| && EntryLen(out, ts + |e|) == EntryLen(rec, ts)
            && (IsLast(out, ts + |e|) <==> IsLast(rec, ts))
  {
    hide EntryLen, ContentLen, IsLast;
    assert e[0..|e|] == e;
    SubWindow(out, ts, e, 0, |e|, 0, 16);
    SameEntry(out, ts, e, 0);
    SubWindow(out, ts + |e|, rec, ts, used - ts, 0, 16);
    SameEntry(out, ts + |e|, rec, ts);
  }

  /** After an insertion the walk gives the old entries followed by the new one. */
  lemma {:induction false} WalkInserted(rec: seq<byte>, out: seq<byte>, r: Root, last: nat, used: nat, e: seq<byte>,
                                        off: nat)
    requires Inserted(rec, out, r, r.eb + last, used, e) && r.eb + last + 16 <= used && NewEntry(e)
    requires EntriesOk(rec, r.eb, r.total, off, last) && r.eb + r.total + |e| <= |rec|
    ensures WalkFrom(out, r.eb, r.total + |e|, off) == WalkFrom(rec, r.eb, r.total, off) + [e]
    decreases last - off
  {
    hide EntryLen, ContentLen, IsLast, Inserted, NewEntry;
    InsertedFacts(rec, out, r, r.eb + last, used, e);
    NewEntryLen(e);
    if off == last {
      NewAndEnd(rec, out, r, r.eb + last, used, e);
      assert WalkFrom(out, r.eb, r.total + |e|, last + |e|) == [];
    } else {
      var len := EntryLen(rec, r.eb + off);
      KeptEntry(rec, out, r, r.eb + last, used, e, off, len);
      WalkInserted(rec, out, r, last, used, e, off + len);
    }
  }

  lemma InsertedFacts(rec: seq<byte>, out: seq<byte>, r: Root, ts: nat, used: nat, e: seq<byte>)
    requires Inserted(rec, out, r, ts, used, e)
    ensures |out| == |rec| && ts <= used && used + |e| <= |rec| && out[ts..ts + |e|] == e
  {
  }

  lemma NewEntryLen(e: seq<byte>)
    requires NewEntry(e)
    ensures 82 <= |e| < 0x1_0000
  {
  }

  /** The entries are still well formed, the end mark further back. */
  lemma {:induction false} EntriesInserted(rec: seq<byte>, out: seq<byte>, r: Root, last: nat, used: nat, e: seq<byte>,
                                           off: nat)
    requires Inserted(rec, out, r, r.eb + last, used, e) && r.eb + last + 16 <= used && NewEntry(e)
    requires EntriesOk(rec, r.eb, r.total, off, last) && r.eb + r.total + |e| <= |rec|
    ensures EntriesOk(out, r.eb, r.total + |e|, off, last + |e|)
    decreases last - off
  {
    hide EntryLen, ContentLen, IsLast;
    if off == last {
      NewAndEnd(rec, out, r, r.eb + last, used, e);
      assert out[r.eb + last + 80] == out[r.eb + last..r.eb + last + |e|][80];
      assert EntriesOk(out, r.eb, r.total + |e|, last + |e|, last + |e|);
    } else {
      var len := EntryLen(rec, r.eb + off);
      KeptEntry(rec, out, r, r.eb + last, used, e, off, len);
      if len > 80 {
        assert out[r.eb + off + 80] == out[r.eb + off..r.eb + off + len][80];
        assert rec[r.eb + off + 80] == rec[r.eb + off..r.eb + off + len][80];
      }
      EntriesInserted(rec, out, r, last, used, e, off + len);
    }
  }

  // ---- the other attributes -----------------------------------------------------------------------

  /** The attributes in front of the one at ra are as before, it has grown by n bytes, and
      those behind it have moved up by n. */
  ghost predicate Moved(rec: seq<byte>, out: seq<byte>, ra: nat, len: nat, used: nat, n: nat) {
    && |out| == |rec| && 48 <= ra && 16 <= len && ra + len <= used && used + n <= |rec|
    && out[48..ra] == rec[48..ra]
    && U32(rec, ra) == U32(out, ra) && U32(rec, ra + 4) == len && U32(out, ra + 4) == len + n
    && out[ra + len + n..used + n] == rec[ra + len..used]
  }

  function Shift(o: Found, ra: nat, n: nat): Found {
    if o.Some? && o.at > ra then Some(o.at + n) else o
  }

  lemma MovedHeader(rec: seq<byte>, out: seq<byte>, ra: nat, len: nat, used: nat, n: nat, off: nat)
    requires Moved(rec, out, ra, len, used, n) && ra + len <= off && off + 8 <= used
    ensures U32(out, off + n) == U32(rec, off) && U32(out, off + n + 4) == U32(rec, off + 4)
  {
    hide U32;
    var i := off - (ra + len);
    SubWindow(out, ra + len + n, rec, ra + len, used - (ra + len), i, i + 4);
    SubWindow(out, ra + len + n, rec, ra + len, used - (ra + len), i + 4, i + 8);
    SameU32(out, off + n, rec, off);
    SameU32(out, off + n + 4, rec, off + 4);
  }

  lemma KeptHeader(rec: seq<byte>, out: seq<byte>, ra: nat, len: nat, used: nat, n: nat, off: nat)
    requires Moved(rec, out, ra, len, used, n) && 48 <= off && off + 8 <= ra
    ensures U32(out, off) == U32(rec, off) && U32(out, off + 4) == U32(rec, off + 4)
  {
    hide U32;
    SubWindow(out, 48, rec, 48, ra - 48, off - 48, off - 44);
    SubWindow(out, 48, rec, 48, ra - 48, off - 44, off - 40);
    SameU32(out, off, rec, off);
    SameU32(out, off + 4, rec, off + 4);
  }

  lemma {:induction false} FindBehind(rec: seq<byte>, out: seq<byte>, ra: nat, len: nat, used: nat, n: nat, off: nat,
                                      kind: nat)
    requires Moved(rec, out, ra, len, used, n) && ra + len <= off && AttrsOk(rec, off, used)
    ensures AttrsOk(out, off + n, used + n)
    ensures FindFrom(out, kind, off + n) == Shift(FindFrom(rec, kind, off), ra, n)
    decreases used - off
  {
    hide U32, Moved;
    MovedHeader(rec, out, ra, len, used, n, off);
    MovedFacts(rec, out, ra, len, used, n);
    if U32(rec, off) != END && U32(rec, off) != 0 {
      FindBehind(rec, out, ra, len, used, n, off + U32(rec, off + 4), kind);
    }
  }

  lemma MovedFacts(rec: seq<byte>, out: seq<byte>, ra: nat, len: nat, used: nat, n: nat)
    requires Moved(rec, out, ra, len, used, n)
    ensures |out| == |rec| && 48 <= ra && 16 <= len && ra + len <= used && used + n <= |rec|
    ensures U32(rec, ra) == U32(out, ra) && U32(rec, ra + 4) == len && U32(out, ra + 4) == len + n
  {
  }

  /** Looking any kind of attribute up finds what it found before, at its new place. */
  lemma {:induction false} FindMoved(rec: seq<byte>, out: seq<byte>, ra: nat, len: nat, used: nat, n: nat, off: nat,
                                     kind: nat)
    requires Moved(rec, out, ra, len, used, n) && 48 <= off && AttrsOk(rec, off, used)
    requires FindFrom(rec, INDEX_ROOT, off) == Some(ra)
    ensures AttrsOk(out, off, used + n)
    ensures FindFrom(out, kind, off) == Shift(FindFrom(rec, kind, off), ra, n)
    decreases used - off
  {
    hide U32, Moved;
    MovedFacts(rec, out, ra, len, used, n);
    if off == ra {
      FindBehind(rec, out, ra, len, used, n, ra + len, kind);
    } else {
      KeptHeader(rec, out, ra, len, used, n, off);
      FindMoved(rec, out, ra, len, used, n, off + U32(rec, off + 4), kind);
    }
  }

  /** An attribute found lies below `used`, and not across the one at ra. */
  lemma {:induction false} FoundInside(rec: seq<byte>, off: nat, used: nat, ra: nat, kind: nat)
    requires used <= |rec| && AttrsOk(rec, off, used) && FindFrom(rec, INDEX_ROOT, off) == Some(ra)
             && kind != INDEX_ROOT
    ensures var o := FindFrom(rec, kind, off);
            o.Some? ==> off <= o.at && o.at + U32(rec, o.at + 4) <= used
                        && (o.at + U32(rec, o.at + 4) <= ra || ra + U32(rec, ra + 4) <= o.at)
    decreases used - off
  {
    hide U32;
    if off == ra { FoundBelow(rec, off + U32(rec, off + 4), used, kind); }
    else if U32(rec, off) != kind { FoundInside(rec, off + U32(rec, off + 4), used, ra, kind); }
  }

  lemma {:induction false} FoundBelow(rec: seq<byte>, off: nat, used: nat, kind: nat)
    requires used <= |rec| && AttrsOk(rec, off, used)
    ensures var o := FindFrom(rec, kind, off); o.Some? ==> off <= o.at && o.at + U32(rec, o.at + 4) <= used
    decreases used - off
  {
    hide U32;
    if U32(rec, off) != END && U32(rec, off) != 0 && U32(rec, off) != kind {
      FoundBelow(rec, off + U32(rec, off + 4), used, kind);
    }
  }

  /** Every other attribute keeps its bytes. */
  lemma OtherAttribute(rec: seq<byte>, out: seq<byte>, ra: nat, len: nat, used: nat, n: nat, off: nat, kind: nat)
    requires Moved(rec, out, ra, len, used, n) && 48 <= off && AttrsOk(rec, off, used)
    requires FindFrom(rec, INDEX_ROOT, off) == Some(ra) && kind != INDEX_ROOT
    ensures var o, p := FindFrom(rec, kind, off), FindFrom(out, kind, off);
            (p.Some? <==> o.Some?)
            && (o.Some? ==> var size := U32(rec, o.at + 4);
                            p.at + size <= |out| && out[p.at..p.at + size] == rec[o.at..o.at + size])
  {
    hide U32, FindFrom;
    FindMoved(rec, out, ra, len, used, n, off, kind);
    FoundInside(rec, off, used, ra, kind);
    MovedFacts(rec, out, ra, len, used, n);
    var o := FindFrom(rec, kind, off);
    if o.Some? {
      var size := U32(rec, o.at + 4);
      if o.at > ra {
        SubWindow(out, ra + len + n, rec, ra + len, used - (ra + len), o.at - (ra + len), o.at - (ra + len) + size);
      }
      else { SubWindow(out, 48, rec, 48, ra - 48, o.at - 48, o.at - 48 + size); }
    }
  }
}
