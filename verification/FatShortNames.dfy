/** Files stored under their 8.3 name alone (src/fat16.c): when such a name can be read
    back. */
module FatShortNames {
  import opened Bits
  import opened Strings
  import opened Search
  import opened FatChains
  import opened FatNames
  import opened FatDirectory
  import opened FatVolume
  import opened FatTheorems
  import opened FatReadWrite

  /** A dot with nothing behind it, which the 8.3 fields cannot express. */
  predicate TrailingDot(name: seq<byte>) { name != [] && name[|name| - 1] == DOT }

  // ---- the text of a stored 8.3 name ------------------------------------------------------

  lemma UpperKeeps(c: byte)
    ensures Upper(c) == SPACE <==> c == SPACE
    ensures Upper(c) == 0 <==> c == 0
    ensures Lower(Lower(Upper(c))) == Lower(c) && (Lower(Upper(c)) == 0 <==> c == 0)
  {
  }

  /** A padded field read up to its padding. */
  lemma FieldText(s: seq<byte>, n: nat)
    requires |s| <= n && forall i :: 0 <= i < |s| ==> s[i] != SPACE
    ensures Until(Padded(AllUpper(s), n), {SPACE}) == AllUpper(s)
  {
    hide Upper, Until;
    forall i | 0 <= i < |s| ensures AllUpper(s)[i] != SPACE { UpperKeeps(s[i]); }
    var p := Padded(AllUpper(s), n);
    UntilIs(p, {SPACE}, |s|);
    assert p[..|s|] == AllUpper(s);
  }

  /** What the two fields of a stored 8.3 name spell. */
  function Spelled(name: seq<byte>): seq<byte> {
    AllLower(AllUpper(Base(name))) + if Ext(name) != [] then [DOT] + AllLower(AllUpper(Ext(name))) else []
  }

  lemma ShortParts(name: seq<byte>)
    requires FileName(name) && !NeedsLong(name)
    ensures 1 <= |Base(name)| <= 8 && |Ext(name)| <= 3
    ensures (forall i :: 0 <= i < |name| ==> name[i] != SPACE && name[i] != 0)
    ensures (forall i :: 0 <= i < |Base(name)| ==> Base(name)[i] != SPACE && Base(name)[i] != 0)
    ensures (forall i :: 0 <= i < |Ext(name)| ==> Ext(name)[i] != SPACE && Ext(name)[i] != 0)
    ensures name == Base(name) + if LastDot(name) < |name| then [DOT] + Ext(name) else []
    ensures TrailingDot(name) <==> LastDot(name) < |name| && Ext(name) == []
    ensures LastDot(name) >= |name| ==> Ext(name) == []
  {
    forall i | 0 <= i < |name| ensures name[i] != SPACE && name[i] != 0 { assert !Special(name[i]); }
  }

  lemma SpelledText(name: seq<byte>, e: Slot)
    requires FileName(name) && !NeedsLong(name) && e[..11] == Encode83(name)
    ensures Text83(e) == Spelled(name)
  {
    hide NeedsLong, FileName, Base, Ext, Upper, Lower, LastDot;
    ShortParts(name);
    var b, x := Base(name), Ext(name);
    assert e[..8] == Padded(AllUpper(b), 8) by { assert e[..11][..8] == e[..8]; }
    assert e[8..11] == Padded(AllUpper(x), 3) by { assert e[..11][8..] == e[8..11]; }
    FieldText(b, 8);
    FieldText(x, 3);
    assert e[8] == e[8..11][0];
    if x != [] { UpperKeeps(x[0]); }
    NoZeros(name);
    UntilIs(Spelled(name), {0}, |Spelled(name)|);
  }

  lemma NoZeros(name: seq<byte>)
    requires FileName(name) && !NeedsLong(name)
    ensures forall i :: 0 <= i < |Spelled(name)| ==> Spelled(name)[i] != 0
    ensures Spelled(name)[..|Spelled(name)|] == Spelled(name)
  {
    hide NeedsLong, FileName, Base, Ext, Upper, Lower, LastDot;
    ShortParts(name);
    var b, x := Base(name), Ext(name);
    forall i | 0 <= i < |b| ensures AllLower(AllUpper(b))[i] != 0 { UpperKeeps(b[i]); }
    forall i | 0 <= i < |x| ensures AllLower(AllUpper(x))[i] != 0 { UpperKeeps(x[i]); }
  }

  /** The stored fields answer to the name unless it ends in a dot. */
  lemma SpelledMatches(name: seq<byte>)
    requires FileName(name) && !NeedsLong(name)
    ensures SameName(Spelled(name), name) <==> !TrailingDot(name)
  {
    hide NeedsLong, FileName, Base, Ext, Upper, Lower, LastDot;
    ShortParts(name);
    var b, x, t := Base(name), Ext(name), Spelled(name);
    assert |t| == |name| <==> !TrailingDot(name);
    if !TrailingDot(name) {
      forall i | 0 <= i < |name| ensures Lower(t[i]) == Lower(name[i]) {
        if i < |b| { UpperKeeps(b[i]); } else if i > |b| { UpperKeeps(x[i - |b| - 1]); }
      }
    }
  }

  // ---- looking it up --------------------------------------------------------------------------

  /** The names a new 8.3 entry in slot f answers to: what its fields spell, and the name
      collected from a long-name run that an earlier deletion left in front of the slot. */
  predicate NewAnswers(root: seq<Slot>, f: nat, name: seq<byte>, m: seq<byte>)
    requires name != [] && f <= |root|
  {
    FirstByte(name) != DELETED && (SameName(Spelled(name), m) || LongMatch(Collected(root, f), m))
  }

  lemma NewShortAnswers(v: Vol, name: seq<byte>, bytes: seq<byte>, w: Written, m: seq<byte>)
    requires EntryPlace(v, name, bytes, w) && FileName(name) && !NeedsLong(name) && |w.es| == 1 && name != []
    ensures Answers(Place(v.root, w.f, w.es), w.f, m) <==> NewAnswers(v.root, w.f, name, m)
  {
    hide FileName, NeedsLong, FirstByte, EntryPlace, Collected, LongMatch, Text83, SameName, Live, Spelled;
    ShortEntry(v, name, bytes, w);
    PlaceEnd(v, name, bytes, w);
    var r := Place(v.root, w.f, w.es);
    assert r[w.f] == w.es[0] && r[..w.f] == v.root[..w.f];
    CollectedPrefix(r, v.root, w.f);
  }

  /** The one slot stored for an 8.3 name. */
  lemma ShortEntry(v: Vol, name: seq<byte>, bytes: seq<byte>, w: Written)
    requires EntryPlace(v, name, bytes, w) && FileName(name) && !NeedsLong(name) && |w.es| == 1 && name != []
    ensures Text83(w.es[0]) == Spelled(name) && (Live(w.es[0]) <==> FirstByte(name) != DELETED)
  {
    hide FileName, NeedsLong, FirstByte, EntrySlots, FirstFit, Text83, Encode83, FileEntry, Spelled, Live;
    EntriesShape(v.root, name, w.a.cs[0], |bytes|);
    ShortFirstByte(v.root, name);
    var e := w.es[0];
    assert e == FileEntry(StoredShort(v.root, name), w.a.cs[0], |bytes|) && StoredShort(v.root, name) == Encode83(name);
    SpelledText(name, e);
    ArchiveLive(e);
  }

  lemma ArchiveLive(e: Slot)
    requires e[11] == ATTR_ARCHIVE
    ensures Live(e) <==> e[0] != 0 && e[0] != DELETED
  {
  }

  /** Where a lookup of any name that nobody answered to ends once the 8.3 entry is there. */
  lemma ShortIsFound(v: Vol, name: seq<byte>, bytes: seq<byte>, w: Written, m: seq<byte>)
    requires EntryPlace(v, name, bytes, w) && EndClosed(v.root) && FileName(name) && !NeedsLong(name)
             && Find(v.root, m).None?
    ensures name != [] && w.f < |v.root| && |w.es| == 1
    ensures Find(Place(v.root, w.f, w.es), m) == if NewAnswers(v.root, w.f, name, m) then Some(w.f) else None
  {
    hide FileName, NeedsLong, FirstByte, EndClosed, Find, FileEntry, EntrySlots, FirstFit, Answers, NewAnswers,
      Encode83;
    EntriesShape(v.root, name, w.a.cs[0], |bytes|);
    var r, e := Place(v.root, w.f, w.es), w.es[0];
    assert StoredRun(v.root, name) == [] && w.es == [e];
    NewShortAnswers(v, name, bytes, w, m);
    NoAnswerNotFound(v.root, m);
    PlaceKeepsClosed(v.root, w.f, w.es);
    forall j | 0 <= j < |r| && j != w.f ensures !Answers(r, j, m) { PlaceKeepsOthers(v.root, w.f, w.es, j, m); }
    FindMeaning(r, m, w.f);
    NoAnswerNotFound(r, m);
  }

  // ---- write, then read ---------------------------------------------------------------------------

  lemma CreateThenReadShort(spc: nat, v: Vol, name: seq<byte>, bytes: seq<byte>, m: seq<byte>, max: nat)
    returns (f: nat)
    requires Sane(spc, v) && EndClosed(v.root) && FileName(name) && !NeedsLong(name) && |bytes| < 0x1_0000_0000
    requires m != [] && Find(v.root, m).None? && Create(spc, v, name, bytes).ret >= 0
    ensures name != [] && f < |v.root| && FirstFit(v.root, 1, Some(f))
    ensures var out := Create(spc, v, name, bytes);
            out.ret == |bytes| && Sane(spc, out.vol)
            && ReadFile(spc, out.vol, m, max)
               == if NewAnswers(v.root, f, name, m) then Bytes(bytes[..Min(|bytes|, max)]) else Failed
  {
    hide Create, FileName, NeedsLong, FirstByte, Sane, EndClosed, EntryPlace, Allocate, Needed, Holds, Stored, Place,
      Find, FirstFit, EntrySlots, IsRun, ReadFile, NewAnswers;
    var w := CreateParts(spc, v, name, bytes);
    f := w.f;
    CreateSane(spc, v, name, bytes);
    PlaceEnd(v, name, bytes, w);
    ShortIsFound(v, name, bytes, w, m);
    if NewAnswers(v.root, f, name, m) {
      NotDeleted(v.root, f, name, m);
      ReadsNew(spc, v, name, bytes, w, m, max);
    } else {
      NotFoundFails(spc, Create(spc, v, name, bytes).vol, m, max);
    }
  }

  lemma NotDeleted(root: seq<Slot>, f: nat, name: seq<byte>, m: seq<byte>)
    requires name != [] && f <= |root| && NewAnswers(root, f, name, m)
    ensures FirstByte(name) != DELETED
  {
  }

  lemma NotFoundFails(spc: nat, v: Vol, name: seq<byte>, max: nat)
    requires Sane(spc, v) && Find(v.root, name).None?
    ensures ReadFile(spc, v, name, max) == Failed
  {
  }

  /** After a successful write under an 8.3 name, every name m that no other entry answers
      to, among them the deleted ones, reads the new file's bytes if and only if the fields
      spell m or the long-name run collected in front of the slot does; otherwise m is not
      found. */
  lemma ShortWriteThenReadAny(spc: nat, v: Vol, name: seq<byte>, bytes: seq<byte>, chains: map<nat, seq<nat>>,
                              m: seq<byte>, max: nat) returns (f: nat)
    requires Inv(spc, v, chains) && FileName(name) && !NeedsLong(name) && |bytes| < 0x8000_0000
    requires Sane(spc, v) && m != [] && Find(MakeRoom(spc, v, name).root, m).None?
    ensures name != []
    ensures var out, room := WriteFile(spc, v, name, bytes), MakeRoom(spc, v, name);
            Sane(spc, out.vol)
            && (out.ret >= 0 ==>
                  && out.ret == |bytes| && f < |room.root| && FirstFit(room.root, 1, Some(f))
                  && ReadFile(spc, out.vol, m, max)
                     == if NewAnswers(room.root, f, name, m) then Bytes(bytes[..Min(|bytes|, max)]) else Failed)
  {
    hide Inv, FileName, NeedsLong, FirstByte, Sane, EndClosed, Create, ReadFile, MakeRoom, Owns, OwnersOk, FirstFit,
      NewAnswers;
    FirstByteNonZero(name);
    InvParts(spc, v, chains);
    MakeRoomKeeps(spc, v, name, chains);
    var room := MakeRoom(spc, v, name);
    InvParts(spc, room, RoomChains(spc, v, name, chains));
    CreateSane(spc, room, name, bytes);
    f := 0;
    if Create(spc, room, name, bytes).ret >= 0 { f := CreateThenReadShort(spc, room, name, bytes, m, max); }
  }

  /** When no other live entry answers to an 8.3 name, a successful write makes a read
      return exactly the data if and only if the name neither starts with the deletion mark
      nor ends in a dot; for a name ending in a dot, only a matching long-name run left in
      front of the slot makes it readable. */
  lemma ShortWriteThenRead(spc: nat, v: Vol, name: seq<byte>, bytes: seq<byte>, chains: map<nat, seq<nat>>, max: nat)
    returns (f: nat)
    requires Inv(spc, v, chains) && FileName(name) && !NeedsLong(name) && |bytes| < 0x8000_0000
             && NobodyElse(v.root, name)
    ensures Sane(spc, v) && name != []
    ensures var out, room := WriteFile(spc, v, name, bytes), MakeRoom(spc, v, name);
            Sane(spc, out.vol)
            && (out.ret >= 0 ==>
                  && out.ret == |bytes| && f < |room.root| && FirstFit(room.root, 1, Some(f))
                  && (ReadFile(spc, out.vol, name, max) == Bytes(bytes[..Min(|bytes|, max)])
                      <==> FirstByte(name) != DELETED
                           && (!TrailingDot(name) || LongMatch(Collected(room.root, f), name))))
  {
    hide Inv, FileName, NeedsLong, FirstByte, Sane, EndClosed, WriteFile, ReadFile, NobodyElse, MakeRoom, Owns,
      OwnersOk, FirstFit, LongMatch, Collected, TrailingDot, Spelled;
    FirstByteNonZero(name);
    InvParts(spc, v, chains);
    RoomMade(spc, v, name);
    SpelledMatches(name);
    f := ShortWriteThenReadAny(spc, v, name, bytes, chains, name, max);
  }

  /** Such a name: "A." */
  lemma TrailingDotExample()
    ensures var name: seq<byte> := [0x41, 0x2E];
            FileName(name) && !NeedsLong(name) && TrailingDot(name) && FirstByte(name) != DELETED
  {
    var name: seq<byte> := [0x41, 0x2E];
    assert LastDot(name) == 1 by { assert name[1] == DOT; }
    assert Base(name) == [0x41] && Ext(name) == [];
    assert !Special(name[0]) && !Special(name[1]);
  }
}
