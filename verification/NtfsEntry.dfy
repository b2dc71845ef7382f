/** Building an index entry (src/ntfs.c): which bytes it has, which names it answers to, and
    that a built entry can be inserted, looked up and removed by its name. */
module NtfsEntry {
  import opened Bits
  import opened Strings
  import opened LittleEndian
  import opened NtfsIndex
  import opened NtfsIndexEdit
  import opened NtfsRemove

  // ---- names ----------------------------------------------------------------------------------

  /** The same letter in either case, or the same byte. */
  predicate SameLetter(a: byte, b: byte) {
    a == b || (0x41 <= a <= 0x5A && b == a + 32) || (0x41 <= b <= 0x5A && a == b + 32)
  }

  /** Names are equal up to the case of the letters A to Z. */
  lemma SameNameMeaning(a: seq<byte>, b: seq<byte>)
    ensures SameName(a, b) <==> |a| == |b| && forall i :: 0 <= i < |a| ==> SameLetter(a[i], b[i])
  {
  }

  /** What a name looks like once stored and read back: other bytes become question marks. */
  function Shown(name: seq<byte>): (s: seq<byte>)
    ensures |s| == |name|
  {
    seq(|name|, i requires 0 <= i < |name| => if name[i] < 0x80 then name[i] else 0x3F)
  }

  /** A name survives being stored if and only if all its bytes are ASCII. */
  lemma ShownIsName(name: seq<byte>)
    ensures AsciiOnly(name) ==> Shown(name) == name
    ensures SameName(Shown(name), name) <==> AsciiOnly(name)
  {
    SameNameMeaning(Shown(name), name);
    if AsciiOnly(name) { assert Shown(name) == name; }
    else {
      var i :| 0 <= i < |name| && name[i] >= 0x80;
      assert !SameLetter(Shown(name)[i], name[i]);
    }
  }

  // ---- the bytes of an entry --------------------------------------------------------------------

  /** Each character as a 16-bit unit. */
  function Units(name: seq<byte>): (s: seq<byte>)
    ensures |s| == 2 * |name|
    ensures forall i :: 0 <= i < |name| ==> s[2 * i] == name[i] && s[2 * i + 1] == 0
  {
    if name == [] then [] else Units(name[..|name| - 1]) + [name[|name| - 1], 0]
  }

  /** The size of the file name, and of the entry, rounded up to 8. */
  function NameSize(n: nat): nat { 66 + 2 * n }
  function EntrySize(n: nat): nat { (16 + NameSize(n) + 7) / 8 * 8 }

  const REF_SEQUENCE: nat := 0x1_0000_0000_0000

  /** The parts of an entry in order: reference, lengths and flags, then the file name with
      parent, four times, sizes, attributes, length, type and characters, and padding. */
  function IndexEntry(ref: nat, parent: nat, name: seq<byte>, size: nat, isDir: bool): (e: seq<byte>)
    requires |name| <= 255
    ensures |e| == EntrySize(|name|)
  {
    FixedPart(ref, parent, |name|, size, isDir) + Units(name) + Zeros(EntrySize(|name|) - 16 - NameSize(|name|))
  }

  function LengthPart(ref: nat, n: nat): (e: seq<byte>)
    requires n <= 255
    ensures |e| == 12
  {
    Le(BitOr(ref, REF_SEQUENCE), 8) + Le(EntrySize(n), 2) + Le(NameSize(n), 2)
  }

  function FixedPart(ref: nat, parent: nat, n: nat, size: nat, isDir: bool): (e: seq<byte>)
    requires n <= 255
    ensures |e| == 82
  {
    var bytes := if isDir then 0 else size;
    LengthPart(ref, n) + Zeros(4) + Le(BitOr(parent, REF_SEQUENCE), 8) + Zeros(32) + Le(bytes, 8) + Le(bytes, 8)
    + Le(if isDir then 0x1000_0000 else 0x20, 4) + Zeros(4) + [n, 3]
  }

  // ---- building it in place ----------------------------------------------------------------------

  /** The first n bytes of the buffer are `done` followed by zeros. */
  ghost predicate Filled(out: array<byte>, n: nat, done: seq<byte>)
    reads out
  {
    |done| <= n <= out.Length && out[..n] == done + Zeros(n - |done|)
  }

  /** Stores the bytes s `gap` bytes behind what is done. */
  method Field(out: array<byte>, p: nat, s: seq<byte>, ghost n: nat, ghost done: seq<byte>)
    requires |done| <= p && p + |s| <= n && Filled(out, n, done)
    modifies out
    ensures Filled(out, n, done + Zeros(p - |done|) + s)
    ensures out[n..] == old(out[n..])
  {
    ghost var was, now := out[..n], done + Zeros(p - |done|);
    assert was == now + Zeros(n - p);
    var i := 0;
    while i < |s|
      invariant 0 <= i <= |s| && Filled(out, n, now + s[..i])
      invariant out[n..] == old(out[n..])
    {
      out[p + i] := s[i];
      assert now + s[..i + 1] == now + s[..i] + [s[i]];
      i := i + 1;
    }
    assert s[..|s|] == s;
  }

  /** memset of the first n bytes. */
  method Clear(out: array<byte>, n: nat)
    requires n <= out.Length
    modifies out
    ensures Filled(out, n, []) && out[n..] == old(out[n..])
  {
    var i := 0;
    while i < n
      invariant 0 <= i <= n && (forall j :: 0 <= j < i ==> out[j] == 0) && out[n..] == old(out[n..])
    {
      out[i] := 0;
      i := i + 1;
    }
  }

  lemma NextUnit(front: seq<byte>, name: seq<byte>, i: nat)
    requires i < |name|
    ensures front + Units(name[..i]) + Zeros(0) + [name[i], 0] == front + Units(name[..i + 1])
  {
    assert name[..i + 1][..i] == name[..i];
  }

  /** ascii_to_utf16le into the cleared buffer behind the fixed part. */
  method StoreUnits(out: array<byte>, name: seq<byte>, ghost n: nat, ghost front: seq<byte>)
    requires |front| == 82 && 82 + 2 * |name| <= n && Filled(out, n, front)
    modifies out
    ensures Filled(out, n, front + Units(name)) && out[n..] == old(out[n..])
  {
    var i := 0;
    while i < |name|
      invariant 0 <= i <= |name| && Filled(out, n, front + Units(name[..i])) && out[n..] == old(out[n..])
    {
      ghost var done := front + Units(name[..i]);
      Field(out, 82 + 2 * i, [name[i], 0], n, done);
      NextUnit(front, name, i);
      i := i + 1;
    }
    assert name[..|name|] == name;
  }

  method StoreLengths(out: array<byte>, ref: nat, es: nat, fns: nat, ghost n: nat)
    requires n <= 255 && es == EntrySize(n) && fns == NameSize(n) && Filled(out, es, [])
    modifies out
    ensures Filled(out, es, LengthPart(ref, n)) && out[es..] == old(out[es..])
  {
    ghost var a, b := Le(BitOr(ref, REF_SEQUENCE), 8), Le(es, 2);
    Field(out, 0, Le(BitOr(ref, REF_SEQUENCE), 8), es, []);
    assert [] + Zeros(0) + a == a;
    Field(out, 8, Le(es, 2), es, a);
    assert a + Zeros(0) + b == a + b;
    Field(out, 10, Le(fns, 2), es, a + b);
    assert a + b + Zeros(0) + Le(fns, 2) == LengthPart(ref, n);
  }

  method StoreFileName(out: array<byte>, parent: nat, n: nat, size: nat, isDir: bool, es: nat, ghost ref: nat)
    requires n <= 255 && es == EntrySize(n) && Filled(out, es, LengthPart(ref, n))
    modifies out
    ensures Filled(out, es, FixedPart(ref, parent, n, size, isDir)) && out[es..] == old(out[es..])
  {
    hide Filled, Le, BitOr;
    var bytes, attrs := if isDir then 0 else size, if isDir then 0x1000_0000 else 0x20;
    ghost var a := LengthPart(ref, n);
    Field(out, 16, Le(BitOr(parent, REF_SEQUENCE), 8), es, a);
    ghost var b := a + Zeros(4) + Le(BitOr(parent, REF_SEQUENCE), 8);
    Field(out, 56, Le(bytes, 8), es, b);
    ghost var c := b + Zeros(32) + Le(bytes, 8);
    Field(out, 64, Le(bytes, 8), es, c);
    ghost var d := c + Le(bytes, 8);
    assert c + Zeros(0) + Le(bytes, 8) == d;
    Field(out, 72, Le(attrs, 4), es, d);
    ghost var e := d + Le(attrs, 4);
    assert d + Zeros(0) + Le(attrs, 4) == e;
    Field(out, 80, [n, 3], es, e);
    assert e + Zeros(4) + [n, 3] == FixedPart(ref, parent, n, size, isDir);
  }

  /** build_index_entry: the entry in the front of the buffer; nothing behind it changes. */
  method BuildIndexEntry(out: array<byte>, ref: nat, parent: nat, name: seq<byte>, size: nat, isDir: bool)
    returns (es: nat)
    requires |name| <= 255 && EntrySize(|name|) <= out.Length
    modifies out
    ensures es == EntrySize(|name|) && out[..es] == IndexEntry(ref, parent, name, size, isDir)
    ensures out[es..] == old(out[es..])
  {
    var n := |name|;
    var fns := 66 + n * 2;
    es := (16 + fns + 7) / 8 * 8;
    Clear(out, es);
    StoreLengths(out, ref, es, fns, n);
    StoreFileName(out, parent, n, size, isDir, es, ref);
    StoreUnits(out, name, es, FixedPart(ref, parent, n, size, isDir));
  }

  // ---- what a built entry says ---------------------------------------------------------------------

  lemma FixedBytes(ref: nat, parent: nat, n: nat, size: nat, isDir: bool)
    requires n <= 255
    ensures var e := FixedPart(ref, parent, n, size, isDir);
            && e[..8] == Le(BitOr(ref, REF_SEQUENCE), 8) && e[8..10] == Le(EntrySize(n), 2)
            && e[10..12] == Le(NameSize(n), 2) && e[12..16] == Zeros(4)
            && e[72..76] == Le(if isDir then 0x1000_0000 else 0x20, 4) && e[80] == n && e[81] == 3
  {
    hide Le, EntrySize, NameSize, BitOr;
    var a := LengthPart(ref, n);
    var e := FixedPart(ref, parent, n, size, isDir);
    assert e[..12] == a;
    assert e[..8] == a[..8] && e[8..10] == a[8..10] && e[10..12] == a[10..12];
  }

  lemma LeWord(v: nat, s: seq<byte>, p: nat)
    requires p + 2 <= |s| && s[p..p + 2] == Le(v, 2)
    ensures U16(s, p) == v % 0x1_0000
  {
    assert Le(v, 2) == [v % 256] + Le(v / 256, 1) && Le(v / 256, 1) == [v / 256 % 256] + Le(v / 256 / 256, 0);
    assert s[p] == s[p..p + 2][0] && s[p + 1] == s[p..p + 2][1];
    LowWord(v, 256, 256);
  }

  /** The low digits in base a, then b. */
  lemma LowWord(v: nat, a: nat, b: nat)
    requires a > 0 && b > 0
    ensures a * b > 0 && v % a + a * (v / a % b) == v % (a * b)
  {
    var q, r := v / a, v % a;
    var t, u := q / b, q % b;
    MulGe(a, b);
    DivDivSum(v, a, b, q, r, t, u);
    RemainderFits(a, b, u, r);
    DivUnique(v, a * b, t, a * u + r);
  }

  lemma {:induction false} LeSplit(v: nat, n: nat, k: nat)
    requires k <= n
    ensures Le(v, n)[..k] == Le(v, k) && Le(v, n)[k..] == Le(Quot(v, Pow2(8 * k)), n - k)
  {
    if k == 0 {
      assert Pow2(0) == 1;
    } else {
      LeSplit(v / 256, n - 1, k - 1);
      assert Le(v, n) == [v % 256] + Le(v / 256, n - 1);
      Pow2Add(8, 8 * (k - 1));
      assert Pow2(8) == 256;
      DivDiv(v, 256, Pow2(8 * (k - 1)));
    }
  }

  lemma LeLong(v: nat, s: seq<byte>, p: nat)
    requires p + 4 <= |s| && s[p..p + 4] == Le(v, 4)
    ensures U32(s, p) == v % TWO32
  {
    LeSplit(v, 4, 2);
    assert Pow2(16) == 0x1_0000 by { Pow2Add(8, 8); assert Pow2(8) == 256; }
    assert s[p..p + 2] == s[p..p + 4][..2] && s[p + 2..p + 4] == s[p..p + 4][2..];
    LeWord(v, s, p);
    LeWord(v / 0x1_0000, s, p + 2);
    LowWord(v, 0x1_0000, 0x1_0000);
  }

  /** Lengths, flags, type and characters of a built entry. */
  lemma BuiltFields(ref: nat, parent: nat, name: seq<byte>, size: nat, isDir: bool)
    requires |name| <= 255
    ensures var e := IndexEntry(ref, parent, name, size, isDir);
            && |e| >= 82 + 2 * |name| && EntryLen(e, 0) == |e| && ContentLen(e, 0) == 66 + 2 * |name| && U32(e, 12) == 0
            && e[80] == |name| && e[81] == 3 && U32(e, 72) == (if isDir then 0x1000_0000 else 0x20)
            && forall i :: 0 <= i < |name| ==> U16(e, 82 + 2 * i) == name[i]
  {
    hide Le, U32, U16, BitOr, FixedPart, IndexEntry;
    var n, e := |name|, IndexEntry(ref, parent, name, size, isDir);
    BuiltParts(ref, parent, name, size, isDir);
    FixedBytes(ref, parent, n, size, isDir);
    LeWord(EntrySize(n), e, 8);
    LeWord(NameSize(n), e, 10);
    LeLong(if isDir then 0x1000_0000 else 0x20, e, 72);
    ZeroWord(e, 12);
  }

  /** The fixed part and the characters of a built entry. */
  lemma BuiltParts(ref: nat, parent: nat, name: seq<byte>, size: nat, isDir: bool)
    requires |name| <= 255
    ensures var e, a := IndexEntry(ref, parent, name, size, isDir), FixedPart(ref, parent, |name|, size, isDir);
            && |e| >= 82 + 2 * |name| && e[..8] == a[..8] && e[8..10] == a[8..10] && e[10..12] == a[10..12]
            && e[12..16] == a[12..16] && e[72..76] == a[72..76] && e[80] == a[80] && e[81] == a[81]
            && forall i :: 0 <= i < |name| ==> U16(e, 82 + 2 * i) == name[i]
  {
    hide FixedPart;
    var e, a := IndexEntry(ref, parent, name, size, isDir), FixedPart(ref, parent, |name|, size, isDir);
    forall i | 0 <= i < |name| ensures U16(e, 82 + 2 * i) == name[i] {
      assert e[82 + 2 * i] == Units(name)[2 * i] && e[83 + 2 * i] == Units(name)[2 * i + 1];
    }
  }

  lemma ZeroWord(s: seq<byte>, p: nat)
    requires p + 4 <= |s| && s[p..p + 4] == Zeros(4)
    ensures U32(s, p) == 0
  {
    assert s[p] == s[p..p + 4][0] && s[p + 1] == s[p..p + 4][1];
    assert s[p + 2] == s[p..p + 4][2] && s[p + 3] == s[p..p + 4][3];
  }

  /** A built entry has the shape an insertion needs. */
  lemma BuiltIsNew(ref: nat, parent: nat, name: seq<byte>, size: nat, isDir: bool)
    requires |name| <= 255
    ensures NewEntry(IndexEntry(ref, parent, name, size, isDir))
  {
    hide U32, U16, IndexEntry;
    BuiltFields(ref, parent, name, size, isDir);
  }

  /** The name of a built entry is the name it was built with, as it looks when read. */
  lemma BuiltName(ref: nat, parent: nat, name: seq<byte>, size: nat, isDir: bool)
    requires |name| <= 255 && CString(name)
    ensures var e := IndexEntry(ref, parent, name, size, isDir);
            82 + 2 * e[80] as int <= |e| && EntryName(e, 0) == Shown(name)
  {
    hide U32, U16, IndexEntry;
    BuiltFields(ref, parent, name, size, isDir);
    var e := IndexEntry(ref, parent, name, size, isDir);
    var n := |name|;
    var text := seq(n, i requires 0 <= i < n => Ascii(U16(e, 82 + 2 * i)));
    assert text == Shown(name);
    UntilIs(text, {0}, n);
    assert text[..n] == text;
  }

  /** A built entry answers to a name exactly when the name is the one it was built with, up
      to case and up to bytes that are not ASCII. */
  lemma BuiltAnswers(ref: nat, parent: nat, name: seq<byte>, size: nat, isDir: bool, m: seq<byte>)
    requires |name| <= 255 && CString(name)
    ensures var e := IndexEntry(ref, parent, name, size, isDir);
            && (EntryHasName(e, m) <==> SameName(Shown(name), m))
            && (AsciiOnly(name) ==> (EntryHasName(e, m) <==> SameName(name, m)))
            && (EntryHasName(e, name) <==> AsciiOnly(name))
  {
    hide U32, U16, IndexEntry, EntryName, SameName, Shown;
    BuiltFields(ref, parent, name, size, isDir);
    BuiltName(ref, parent, name, size, isDir);
    ShownIsName(name);
  }

  // ---- insertion and removal of a built entry --------------------------------------------------------

  /** Inserting the entry built for an ASCII name that nobody has, and removing that name,
      succeeds and restores the record, but for the slack it used. */
  lemma InsertThenRemove(rec: seq<byte>, r: Root, last: nat, ref: nat, parent: nat, name: seq<byte>, size: nat,
                         isDir: bool)
    requires IndexOk(rec, r, last) && |name| <= 255 && CString(name) && AsciiOnly(name) && NobodyNamed(rec, r, name)
    requires UsedSize(rec) + EntrySize(|name|) <= AllocSize(rec) - 8
    ensures var e := IndexEntry(ref, parent, name, size, isDir);
            && Framed(rec, r) && AllocSize(rec) <= |rec| && r.eb + LastFrom(rec, r.eb, r.total, 0) <= UsedSize(rec)
            && Insert(rec, r, e) == Result(true, Out(rec, r, last, e))
            && RemovesTo(Out(rec, r, last, e), Grown(r, |e|), name, last, Before(rec, r, last, |e|))
  {
    hide IndexOk, NewEntry, IndexEntry, RemovesTo, HasName, EntrySize, UsedSize, AllocSize, LastFrom, Grow, Opened,
      InsertedWell;
    var e := IndexEntry(ref, parent, name, size, isDir);
    BuiltIsNew(ref, parent, name, size, isDir);
    BuiltAnswers(ref, parent, name, size, isDir, name);
    InsertTheorem(rec, r, last, e);
    IndexFramed(rec, r, last);
    RemoveUndoesInsert(rec, r, last, e, name);
  }

  // ---- looking a name up -------------------------------------------------------------------------------

  /** What a lookup finds: the record number and whether it is a directory. */
  datatype Target = Missing | Target(ref: nat, isDir: bool)

  /** The entry is long enough for its file name. */
  predicate Whole(e: seq<byte>) { |e| >= 82 && ContentLen(e, 0) >= 66 && 82 + 2 * e[80] as int <= |e| }

  /** dir_lookup_callback: entries of the DOS name space are passed over. */
  predicate Hit(e: seq<byte>, name: seq<byte>) { Whole(e) && e[81] != 2 && EntryHasName(e, name) }

  /** The low 48 bits of the reference, and the directory bit of the attributes. */
  function TargetOf(e: seq<byte>): Target
    requires |e| >= 82
  {
    Target(U32(e, 0) + TWO32 * U16(e, 4), U32(e, 72) / 0x1000_0000 % 2 == 1)
  }

  function LookUp(es: seq<seq<byte>>, name: seq<byte>): Target {
    if es == [] then Missing else if Hit(es[0], name) then TargetOf(es[0]) else LookUp(es[1..], name)
  }

  /** A lookup that fails goes on behind the entries. */
  lemma {:induction false} LookUpFurther(es: seq<seq<byte>>, e: seq<byte>, name: seq<byte>)
    ensures LookUp(es + [e], name)
         == if LookUp(es, name) != Missing then LookUp(es, name)
            else if Hit(e, name) then TargetOf(e) else Missing
  {
    hide EntryHasName, U32, U16;
    if es != [] {
      LookUpFurther(es[1..], e, name);
      assert (es + [e])[1..] == es[1..] + [e];
    } else {
      assert (es + [e])[1..] == [];
    }
  }

  /** A built entry leads to the record it was built for. */
  lemma BuiltTarget(ref: nat, parent: nat, name: seq<byte>, size: nat, isDir: bool)
    requires |name| <= 255 && ref < REF_SEQUENCE
    ensures var e := IndexEntry(ref, parent, name, size, isDir); |e| >= 82 && TargetOf(e) == Target(ref, isDir)
  {
    hide U32, U16, Le, BitOr, FixedPart, IndexEntry;
    var e := IndexEntry(ref, parent, name, size, isDir);
    BuiltFields(ref, parent, name, size, isDir);
    BuiltParts(ref, parent, name, size, isDir);
    FixedBytes(ref, parent, |name|, size, isDir);
    RefBytes(e, BitOr(ref, REF_SEQUENCE));
    RefBits(ref);
  }

  lemma RefBytes(s: seq<byte>, v: nat)
    requires |s| >= 8 && s[..8] == Le(v, 8)
    ensures U32(s, 0) + TWO32 * U16(s, 4) == v % TWO32 + TWO32 * (v / TWO32 % 0x1_0000)
  {
    hide U32, U16, Le, Pow2;
    Power32();
    LeSplit(v, 8, 4);
    LeSplit(v / TWO32, 4, 2);
    assert s[0..4] == s[..8][..4] && s[4..6] == s[..8][4..][..2];
    LeLong(v, s, 0);
    LeWord(v / TWO32, s, 4);
  }

  lemma Power32()
    ensures Pow2(32) == TWO32 && Pow2(48) == REF_SEQUENCE
  {
    hide Pow2;
    Power8();
    Pow2Add(8, 8);
    Pow2Add(16, 16);
    Pow2Add(32, 16);
  }

  lemma Power8()
    ensures Pow2(8) == 256
  {
  }

  lemma RefBits(ref: nat)
    requires ref < REF_SEQUENCE
    ensures var v := BitOr(ref, REF_SEQUENCE); v % TWO32 + TWO32 * (v / TWO32 % 0x1_0000) == ref
  {
    hide BitOr, Pow2;
    Power32();
    OrDisjoint(ref, 1, 48);
    var v := BitOr(ref, REF_SEQUENCE);
    LowWord(v, TWO32, 0x1_0000);
    DivUnique(v, REF_SEQUENCE, 1, ref);
  }

  /** After the entry built for an ASCII name is added, a name that equals it up to case and
      had no entry leads to its record, and every other name leads where it did. */
  lemma LookUpInserted(es: seq<seq<byte>>, ref: nat, parent: nat, name: seq<byte>, size: nat, isDir: bool, m: seq<byte>)
    requires 1 <= |name| <= 255 && CString(name) && AsciiOnly(name) && ref < REF_SEQUENCE
    ensures var e := IndexEntry(ref, parent, name, size, isDir);
            LookUp(es + [e], m)
              == if LookUp(es, m) == Missing && SameName(name, m) then Target(ref, isDir) else LookUp(es, m)
  {
    hide IndexEntry, EntryHasName, SameName, TargetOf, LookUp;
    var e := IndexEntry(ref, parent, name, size, isDir);
    LookUpFurther(es, e, m);
    BuiltFields(ref, parent, name, size, isDir);
    BuiltAnswers(ref, parent, name, size, isDir, m);
    BuiltTarget(ref, parent, name, size, isDir);
  }

  /** One turn of the walk: an entry that is hit ends it, any other is passed over. */
  lemma LookUpStep(rec: seq<byte>, eb: nat, total: nat, off: nat, name: seq<byte>)
    requires eb + total <= |rec| && off + 16 <= total
    requires var len := EntryLen(rec, eb + off); len != 0 && off + len <= total && !IsLast(rec, eb + off)
    requires forall e :: e in WalkFrom(rec, eb, total, off) ==> Whole(e)
    ensures var len := EntryLen(rec, eb + off);
            var e, rest := rec[eb + off..eb + off + len], WalkFrom(rec, eb, total, off + len);
            && (forall x :: x in rest ==> Whole(x)) && (ContentLen(rec, eb + off) >= 66 ==> Whole(e))
            && LookUp(WalkFrom(rec, eb, total, off), name)
               == if ContentLen(rec, eb + off) >= 66 && Hit(e, name) then TargetOf(e) else LookUp(rest, name)
  {
    hide EntryHasName, TargetOf, Whole, EntryLen, ContentLen, IsLast;
    var len := EntryLen(rec, eb + off);
    var e, rest := rec[eb + off..eb + off + len], WalkFrom(rec, eb, total, off + len);
    if ContentLen(rec, eb + off) >= 66 {
      assert WalkFrom(rec, eb, total, off) == [e] + rest;
      assert ([e] + rest)[0] == e && ([e] + rest)[1..] == rest;
      assert forall x :: x in rest ==> x in [e] + rest;
    } else {
      assert [] + rest == rest;
    }
  }

  /** walk_index_entries with the lookup callback. */
  method FindEntry(rec: seq<byte>, eb: nat, total: nat, name: seq<byte>) returns (t: Target)
    requires eb + total <= |rec|
    requires forall e :: e in WalkFrom(rec, eb, total, 0) ==> Whole(e)
    ensures t == LookUp(WalkFrom(rec, eb, total, 0), name)
  {
    hide EntryHasName, TargetOf, EntryLen, ContentLen, IsLast, LookUp;
    NothingFound(name);
    var off := 0;
    while off + 16 <= total
      invariant LookUp(WalkFrom(rec, eb, total, off), name) == LookUp(WalkFrom(rec, eb, total, 0), name)
      invariant forall e :: e in WalkFrom(rec, eb, total, off) ==> Whole(e)
      decreases total - off
    {
      var len := EntryLen(rec, eb + off);
      if len == 0 || off + len > total || IsLast(rec, eb + off) { return Missing; }
      LookUpStep(rec, eb, total, off, name);
      if ContentLen(rec, eb + off) >= 66 {
        var e := rec[eb + off..eb + off + len];
        if e[81] != 2 && EntryHasName(e, name) { return TargetOf(e); }
      }
      off := off + len;
    }
    return Missing;
  }

  lemma NothingFound(name: seq<byte>)
    ensures LookUp([], name) == Missing
  {
  }

  /** In a well-formed directory every entry of the walk is whole. */
  lemma {:induction false} WalkIsWhole(rec: seq<byte>, eb: nat, total: nat, off: nat, last: nat)
    requires eb + total <= |rec| && EntriesOk(rec, eb, total, off, last)
    ensures forall e :: e in WalkFrom(rec, eb, total, off) ==> Whole(e)
    decreases last - off
  {
    hide EntryLen, ContentLen, IsLast, Whole;
    if off < last {
      var len := EntryLen(rec, eb + off);
      WalkIsWhole(rec, eb, total, off + len, last);
      if ContentLen(rec, eb + off) >= 66 { TakenIsWhole(rec, eb + off, len); }
    }
  }

  lemma TakenIsWhole(rec: seq<byte>, p: nat, len: nat)
    requires p + len <= |rec| && 82 <= len && ContentLen(rec, p) >= 66 && 82 + 2 * rec[p + 80] as int <= len
    ensures Whole(rec[p..p + len])
  {
    hide EntryLen, IsLast, ContentLen;
    assert rec[p..p + len][0..16] == rec[p..p + 16];
    SameEntry(rec[p..p + len], 0, rec, p);
  }
}
