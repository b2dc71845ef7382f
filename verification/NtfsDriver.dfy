/** The in-place edits of a directory record (src/ntfs.c), byte by byte, tied to their
    meaning on the record as a sequence. */
module NtfsDriver {
  import opened Bits
  import opened Search
  import opened LittleEndian
  import opened NtfsFixup
  import opened NtfsIndex
  import opened NtfsIndexEdit

  method LoadLong(rec: array<byte>, p: nat) returns (w: nat)
    requires p + 4 <= rec.Length
    ensures w == U32(rec[..], p)
  {
    hide U16;
    var lo := LoadWord(rec, p);
    var hi := LoadWord(rec, p + 2);
    w := lo + 0x1_0000 * hi;
  }

  method AddLong(rec: array<byte>, p: nat, d: int)
    requires p + 4 <= rec.Length
    modifies rec
    ensures rec[..] == AddU32(old(rec[..]), p, d)
  {
    hide U16, U32, PutU16;
    var w := LoadLong(rec, p);
    var v := (w + d) % TWO32;
    StoreWord(rec, p, v % 0x1_0000);
    StoreWord(rec, p + 2, v / 0x1_0000);
  }

  /** find_attribute. */
  method FindAttr(rec: array<byte>, kind: nat) returns (r: Found)
    requires rec.Length >= 48
    ensures r == FindAttribute(rec[..], kind)
  {
    hide U16, U32;
    var off: nat := LoadWord(rec, 20);
    while off + 16 <= rec.Length
      invariant FindFrom(rec[..], kind, off) == FindAttribute(rec[..], kind)
      decreases rec.Length - off
    {
      var t := LoadLong(rec, off);
      var len := LoadLong(rec, off + 4);
      if t == END || t == 0 { return None; }
      if len == 0 || len > rec.Length - off { return None; }
      if t == kind { return Some(off); }
      off := off + len;
    }
    return None;
  }

  ghost function MovedUp(s: seq<byte>, ts: nat, used: nat, n: nat): (r: seq<byte>)
    requires ts <= used && used + n <= |s|
    ensures |r| == |s|
  {
    s[..ts + n] + s[ts..used] + s[used + n..]
  }

  ghost function MovedDown(s: seq<byte>, p: nat, from: nat, n: nat): (r: seq<byte>)
    requires p <= from && from + n <= |s|
    ensures |r| == |s|
  {
    s[..p] + s[from..from + n] + s[p + n..]
  }

  ghost function Patched(s: seq<byte>, p: nat, e: seq<byte>): (r: seq<byte>)
    requires p + |e| <= |s|
    ensures |r| == |s|
  {
    s[..p] + e + s[p + |e|..]
  }

  /** Moves [ts, used) up by n bytes, last byte first. */
  method MoveUp(rec: array<byte>, ts: nat, used: nat, n: nat)
    requires ts <= used && used + n <= rec.Length
    modifies rec
    ensures rec[..] == MovedUp(old(rec[..]), ts, used, n)
  {
    hide MovedUp;
    ghost var was := rec[..];
    var i := used - ts;
    while i > 0
      invariant 0 <= i <= used - ts
      invariant forall x :: ts + n + i <= x < used + n ==> rec[x] == was[x - n]
      invariant forall x :: 0 <= x < ts + n + i ==> rec[x] == was[x]
      invariant forall x :: used + n <= x < rec.Length ==> rec[x] == was[x]
    {
      i := i - 1;
      rec[ts + n + i] := rec[ts + i];
    }
    IsMovedUp(was, rec[..], ts, used, n);
  }

  lemma IsMovedUp(was: seq<byte>, now: seq<byte>, ts: nat, used: nat, n: nat)
    requires |now| == |was| && ts <= used && used + n <= |was|
    requires forall x :: ts + n <= x < used + n ==> now[x] == was[x - n]
    requires forall x :: 0 <= x < ts + n ==> now[x] == was[x]
    requires forall x :: used + n <= x < |was| ==> now[x] == was[x]
    ensures now == MovedUp(was, ts, used, n)
  {
    assert now[..ts + n] == was[..ts + n] && now[ts + n..used + n] == was[ts..used]
      && now[used + n..] == was[used + n..];
  }

  /** memcpy of e to p. */
  method CopyIn(rec: array<byte>, p: nat, e: seq<byte>)
    requires p + |e| <= rec.Length
    modifies rec
    ensures rec[..] == Patched(old(rec[..]), p, e)
  {
    ghost var was := rec[..];
    for j := 0 to |e|
      invariant forall x :: p <= x < p + j ==> rec[x] == e[x - p]
      invariant forall x :: 0 <= x < p ==> rec[x] == was[x]
      invariant forall x :: p + j <= x < rec.Length ==> rec[x] == was[x]
    {
      rec[p + j] := e[j];
    }
  }

  method OpenGap(rec: array<byte>, ts: nat, used: nat, e: seq<byte>)
    requires ts <= used && used + |e| <= rec.Length
    modifies rec
    ensures rec[..] == Opened(old(rec[..]), ts, used, e)
  {
    hide Opened, MovedUp, Patched;
    CopiesOpen(rec[..], ts, used, e);
    MoveUp(rec, ts, used, |e|);
    CopyIn(rec, ts, e);
  }

  lemma CopiesOpen(s: seq<byte>, ts: nat, used: nat, e: seq<byte>)
    requires ts <= used && used + |e| <= |s|
    ensures Patched(MovedUp(s, ts, used, |e|), ts, e) == Opened(s, ts, used, e)
  {
    var m := MovedUp(s, ts, used, |e|);
    assert m[..ts] == s[..ts];
    assert m[ts + |e|..] == s[ts..used] + s[used + |e|..];
  }

  /** Moves [from, from + n) down to p, first byte first. */
  method MoveDown(rec: array<byte>, p: nat, from: nat, n: nat)
    requires p <= from && from + n <= rec.Length
    modifies rec
    ensures rec[..] == MovedDown(old(rec[..]), p, from, n)
  {
    hide MovedDown;
    ghost var was := rec[..];
    for j := 0 to n
      invariant forall x :: p <= x < p + j ==> rec[x] == was[x - p + from]
      invariant forall x :: 0 <= x < p ==> rec[x] == was[x]
      invariant forall x :: p + j <= x < rec.Length ==> rec[x] == was[x]
    {
      rec[p + j] := rec[from + j];
    }
    IsMovedDown(was, rec[..], p, from, n);
  }

  lemma IsMovedDown(was: seq<byte>, now: seq<byte>, p: nat, from: nat, n: nat)
    requires |now| == |was| && p <= from && from + n <= |was|
    requires forall x :: p <= x < p + n ==> now[x] == was[x - p + from]
    requires forall x :: 0 <= x < p ==> now[x] == was[x]
    requires forall x :: p + n <= x < |was| ==> now[x] == was[x]
    ensures now == MovedDown(was, p, from, n)
  {
    assert now[..p] == was[..p] && now[p..p + n] == was[from..from + n] && now[p + n..] == was[p + n..];
  }

  /** Takes the n bytes at ea out of the used part and clears what its end left behind. */
  method CloseGap(rec: array<byte>, ea: nat, n: nat, used: nat)
    requires ea + n <= used <= rec.Length
    modifies rec
    ensures rec[..] == Closed(old(rec[..]), ea, n, used)
  {
    hide Closed, MovedDown, Patched;
    var tl := used - (ea + n);
    CopiesClose(rec[..], ea, n, used);
    MoveDown(rec, ea, ea + n, tl);
    CopyIn(rec, ea + tl, Zeros(n));
  }

  lemma CopiesClose(s: seq<byte>, ea: nat, n: nat, used: nat)
    requires ea + n <= used <= |s|
    ensures var tl := used - (ea + n);
            Patched(MovedDown(s, ea, ea + n, tl), ea + tl, Zeros(n)) == Closed(s, ea, n, used)
  {
    var tl := used - (ea + n);
    var m := MovedDown(s, ea, ea + n, tl);
    assert m[..ea + tl] == s[..ea] + s[ea + n..used];
    assert m[used..] == s[used..];
  }

  method GrowFields(rec: array<byte>, r: Root, d: int)
    requires 28 <= r.ra && r.ra + 24 <= r.ir && r.ir + 28 <= rec.Length
    modifies rec
    ensures rec[..] == Grow(old(rec[..]), r, d)
  {
    hide AddU32;
    AddLong(rec, r.ir + 20, d);
    AddLong(rec, r.ir + 24, d);
    AddLong(rec, r.ra + 16, d);
    AddLong(rec, r.ra + 4, d);
    AddLong(rec, 24, d);
  }

  /** The end-mark scan of insert_index_entry. */
  method ScanLast(rec: array<byte>, eb: nat, total: nat) returns (loff: nat)
    requires eb + total <= rec.Length
    ensures loff == LastFrom(rec[..], eb, total, 0)
  {
    hide U16, U32;
    var off: nat := 0;
    while off + 16 <= total
      invariant LastFrom(rec[..], eb, total, off) == LastFrom(rec[..], eb, total, 0)
      decreases total - off
    {
      var len := LoadWord(rec, eb + off + 8);
      if len == 0 { return 0; }
      var flags := LoadLong(rec, eb + off + 12);
      if flags / 2 % 2 == 1 { return off; }
      off := off + len;
    }
    return 0;
  }

  /** insert_index_entry, on a directory record that has been read. */
  method InsertIndexEntry(rec: array<byte>, e: seq<byte>, ghost r: Root, ghost last: nat) returns (ok: bool)
    requires IndexOk(rec[..], r, last) && NewEntry(e)
    modifies rec
    ensures old(Framed(rec[..], r)) && old(AllocSize(rec[..]) <= |rec[..]|
                                           && r.eb + LastFrom(rec[..], r.eb, r.total, 0) <= UsedSize(rec[..]))
    ensures Result(ok, rec[..]) == Insert(old(rec[..]), r, e)
    ensures ok ==> InsertedWell(old(rec[..]), r, last, e, rec[..])
  {
    hide IndexOk, U16, U32, Grow, Opened, LastFrom, NewEntry, InsertedWell;
    InsertTheorem(rec[..], r, last, e);
    var at := Locate(rec, r, last);
    var used := LoadLong(rec, 24);
    var alloc := LoadLong(rec, 28);
    var loff := ScanLast(rec, at.eb, at.total);
    if used + |e| + 8 > alloc { return false; }
    OpenGap(rec, at.eb + loff, used, e);
    GrowFields(rec, at, |e|);
    return true;
  }

  /** The index root attribute and where its parts lie. */
  method Locate(rec: array<byte>, ghost r: Root, ghost last: nat) returns (at: Root)
    requires IndexOk(rec[..], r, last)
    ensures at == r
  {
    hide EntriesOk, AttrsOk, FindFrom, U16, U32;
    var ira := FindAttr(rec, INDEX_ROOT);
    var len := LoadLong(rec, ira.at + 4);
    var vo := LoadWord(rec, ira.at + 20);
    var ir := ira.at + vo;
    var eo := LoadLong(rec, ir + 16);
    var total := LoadLong(rec, ir + 20);
    return Root(ira.at, ir, ir + 16 + eo, total, len);
  }

  /** The name scan of remove_index_entry. */
  method ScanName(rec: array<byte>, eb: nat, total: nat, name: seq<byte>) returns (r: Found)
    requires eb + total <= rec.Length
    ensures r == ScanFrom(rec[..], eb, total, 0, name)
  {
    hide U16, U32, HasName;
    var off: nat := 0;
    while off + 16 <= total
      invariant ScanFrom(rec[..], eb, total, off, name) == ScanFrom(rec[..], eb, total, 0, name)
      decreases total - off
    {
      var len := LoadWord(rec, eb + off + 8);
      var flags := LoadLong(rec, eb + off + 12);
      if len == 0 || flags / 2 % 2 == 1 { return None; }
      if HasName(rec[..], eb + off, name) { return Some(off); }
      off := off + len;
    }
    return None;
  }

  /** remove_index_entry, on a directory record that has been read. */
  method RemoveIndexEntry(rec: array<byte>, name: seq<byte>, ghost r: Root, ghost last: nat) returns (ok: bool)
    requires IndexOk(rec[..], r, last)
    modifies rec
    ensures old(Framed(rec[..], r))
    ensures old(var f := ScanFrom(rec[..], r.eb, r.total, 0, name); f.Some? ==>
              r.eb + f.at + EntryLen(rec[..], r.eb + f.at) <= UsedSize(rec[..]))
    ensures Result(ok, rec[..]) == Remove(old(rec[..]), r, name)
  {
    hide IndexOk, U16, U32, Grow, Closed, ScanFrom;
    IndexFramed(rec[..], r, last);
    ScanInside(rec[..], r, last, name);
    var at := Locate(rec, r, last);
    var found := ScanName(rec, at.eb, at.total, name);
    if found.None? { return false; }
    var used := LoadLong(rec, 24);
    var n := LoadWord(rec, at.eb + found.at + 8);
    CloseGap(rec, at.eb + found.at, n, used);
    GrowFields(rec, at, -(n as int));
    return true;
  }

  lemma ScanInside(rec: seq<byte>, r: Root, last: nat, name: seq<byte>)
    requires IndexOk(rec, r, last)
    ensures r.eb + r.total <= |rec| && |rec| >= 48
    ensures var f := ScanFrom(rec, r.eb, r.total, 0, name);
            f.Some? ==> r.eb + f.at + EntryLen(rec, r.eb + f.at) <= UsedSize(rec)
  {
    hide AttrsOk, FindFrom, U16, U32, ScanFrom, EntriesOk;
    ScanBelow(rec, r.eb, r.total, 0, last, name);
  }

  lemma {:induction false} ScanBelow(rec: seq<byte>, eb: nat, total: nat, off: nat, last: nat, name: seq<byte>)
    requires eb + total <= |rec| && EntriesOk(rec, eb, total, off, last)
    ensures var f := ScanFrom(rec, eb, total, off, name); f.Some? ==> f.at + EntryLen(rec, eb + f.at) <= last
    decreases total - off
  {
    hide U16, U32, HasName;
    if off < last && !HasName(rec, eb + off, name) {
      ScanBelow(rec, eb, total, off + EntryLen(rec, eb + off), last, name);
    }
  }
}
