/** The generated 8.3 names of long-named files (src/fat16.c): the loop that looks for a free
    number adds 32 to every byte of a candidate before it looks it up, digits and tilde
    included, and so sees no collision. */
module FatAliases {
  import opened Bits
  import opened Strings
  import opened FatChains
  import opened FatNames
  import opened FatDirectory
  import opened FatVolume
  import opened FatTheorems

  /** Every name that an entry of the directory answers to is ASCII. */
  ghost predicate AsciiNames(root: seq<Slot>) {
    forall i, m :: 0 <= i < |root| && Answers(root, i, m) ==> AsciiOnly(m)
  }

  /** Of two names that are equal up to case both are ASCII or none. */
  lemma SameIsAscii(a: seq<byte>, b: seq<byte>)
    requires SameName(a, b)
    ensures AsciiOnly(a) <==> AsciiOnly(b)
  {
    forall i | 0 <= i < |b| ensures a[i] < 0x80 <==> b[i] < 0x80 { assert Lower(a[i]) == Lower(b[i]); }
  }

  lemma NobodyAnswers(root: seq<Slot>, name: seq<byte>, j: nat)
    requires AsciiNames(root) && j < |name| && name[j] >= 0x80
    ensures Find(root, name).None?
  {
    hide Answers;
  }

  // ---- candidates -----------------------------------------------------------------------------

  lemma {:induction false} UsableBytes(s: seq<byte>)
    requires AsciiOnly(s) && CString(s)
    ensures forall i :: 0 <= i < |Usable(s)| ==> 0 < Usable(s)[i] < 0x80 && Usable(s)[i] != SPACE
  {
    if s != [] { UsableBytes(s[1..]); }
  }

  lemma StemBytes(name: seq<byte>)
    requires AsciiOnly(name) && CString(name)
    ensures forall i :: 0 <= i < |Stem(name)| ==> 0 < Stem(name)[i] < 0x80 && Stem(name)[i] != SPACE
  {
    UsableBytes(Base(name));
  }

  /** The candidate begins with the stem and a tilde. */
  lemma CandidateFront(name: seq<byte>, k: nat)
    requires AsciiOnly(name) && CString(name) && 1 <= k < 100
    ensures var n, front := |Stem(name)|, Until(ShortName(name, k)[..8], {SPACE});
            |front| > n && front[n] == 0x7E && forall i :: 0 <= i < n ==> front[i] == Stem(name)[i]
  {
    hide Stem, Digits, Until;
    StemBytes(name);
    var n, short := |Stem(name)|, ShortName(name, k);
    assert short[..8] == Padded(Stem(name) + [0x7E] + Digits(k), 8);
    assert short[..8][n] == 0x7E && forall i :: 0 <= i < n ==> short[..8][i] == Stem(name)[i];
  }

  /** The byte that the tilde of a candidate becomes. */
  lemma TildeShifted(name: seq<byte>, k: nat)
    requires AsciiOnly(name) && CString(name) && 1 <= k < 100
    ensures var c := CheckName(ShortName(name, k)); |Stem(name)| < |c| && c[|Stem(name)|] == 0x9E
  {
    hide Stem, ShortName, Until;
    StemBytes(name);
    CandidateFront(name, k);
    var n, short := |Stem(name)|, ShortName(name, k);
    var front := Until(short[..8], {SPACE});
    var text := Shifted(front) + if short[8] != SPACE then [DOT] + Shifted(Until(short[8..], {SPACE})) else [];
    assert text[n] == 0x9E && forall i :: 0 <= i < n ==> text[i] == Stem(name)[i] + 32;
  }

  /** In a directory of ASCII names every long ASCII name gets number 1. */
  lemma NumberIsOne(root: seq<Slot>, name: seq<byte>)
    requires AsciiNames(root) && AsciiOnly(name) && CString(name)
    ensures PickNumber(root, name, 1) == 1
  {
    hide CheckName, ShortName, Find, Stem, AsciiNames;
    TildeShifted(name, 1);
    NobodyAnswers(root, CheckName(ShortName(name, 1)), |Stem(name)|);
  }

  /** Two long names that begin alike. */
  ghost predicate Alike(a: seq<byte>, b: seq<byte>) {
    Stem(a) == Stem(b) && AllUpper(Ext(a)) == AllUpper(Ext(b))
  }

  ghost predicate LongAscii(name: seq<byte>) { FileName(name) && AsciiOnly(name) && NeedsLong(name) }

  /** Names that begin alike are stored under the same 8.3 name, whatever else the
      directories hold. */
  lemma SameAlias(r: seq<Slot>, s: seq<Slot>, a: seq<byte>, b: seq<byte>)
    requires AsciiNames(r) && AsciiNames(s) && LongAscii(a) && LongAscii(b) && Alike(a, b)
    ensures StoredShort(r, a) == StoredShort(s, b) == ShortName(a, 1)
  {
    hide NeedsLong, Stem, Ext, PickNumber, AsciiNames;
    NumberIsOne(r, a);
    NumberIsOne(s, b);
  }

  // ---- two files --------------------------------------------------------------------------------

  lemma ExtIsAscii(name: seq<byte>)
    requires AsciiOnly(name)
    ensures AsciiOnly(AllUpper(Ext(name)))
  {
  }

  lemma UntilIsAscii(s: seq<byte>, stop: set<byte>)
    requires AsciiOnly(s)
    ensures AsciiOnly(Until(s, stop)) && AsciiOnly(AllLower(Until(s, stop)))
  {
  }

  lemma ShortIsAscii(name: seq<byte>, e: Slot)
    requires AsciiOnly(name) && CString(name) && e[..11] == ShortName(name, 1)
    ensures AsciiOnly(Text83(e)) && 0 < e[0] < 0x80
  {
    hide Until, Stem;
    StemBytes(name);
    ExtIsAscii(name);
    assert e[..8] == e[..11][..8] && e[8..11] == e[..11][8..11];
    assert AsciiOnly(e[..8]) && AsciiOnly(e[8..11]);
    UntilIsAscii(e[..8], {SPACE});
    UntilIsAscii(e[8..11], {SPACE});
    var ext := if e[8] != SPACE then [DOT] + AllLower(Until(e[8..11], {SPACE})) else [];
    var all := AllLower(Until(e[..8], {SPACE})) + ext;
    UntilIsAscii(all, {0});
    assert e[0] == e[..11][0] == Stem(name)[0];
  }

  /** A new long-named entry answers to ASCII names only. */
  lemma CreatedAnswers(v: Vol, name: seq<byte>, bytes: seq<byte>, w: Written, m: seq<byte>)
    requires EntryPlace(v, name, bytes, w) && LongAscii(name) && AsciiNames(v.root)
    requires Answers(Place(v.root, w.f, w.es), w.f + |w.es| - 1, m)
    ensures AsciiOnly(m)
  {
    hide Text83, Collected, LongRun, Checksum, StoredShort, FileEntry, FirstFit, EntrySlots, NeedsLong, AsciiNames,
      SameName, Text, PickNumber, ShortName;
    var sum := Checksum(StoredShort(v.root, name));
    var run := LongRun(name, sum);
    var r := Place(v.root, w.f, w.es);
    var e := w.es[|w.es| - 1];
    assert w.es == run + [e] && e == FileEntry(StoredShort(v.root, name), w.a.cs[0], |bytes|);
    NumberIsOne(v.root, name);
    ShortStored(v.root, name);
    ShortIsAscii(name, e);
    PlacedRun(v.root, w.f, run, e);
    AsciiIsPlain(name);
    RunIsCollected(r, w.f, name, sum);
    if SameName(Text83(e), m) {
      SameIsAscii(Text83(e), m);
    } else {
      var text := Text(Collected(r, w.f + |run|).buf);
      SameIsAscii(text, name);
      SameIsAscii(text, m);
    }
  }

  lemma PlacedRun(root: seq<Slot>, f: nat, run: seq<Slot>, e: Slot)
    requires f + |run| + 1 <= |root|
    ensures var r := Place(root, f, run + [e]); r[f..f + |run|] == run && r[f + |run|] == e
  {
  }

  lemma AsciiIsPlain(name: seq<byte>)
    requires AsciiOnly(name)
    ensures Plain(name)
  {
  }

  lemma ShortStored(root: seq<Slot>, name: seq<byte>)
    requires NeedsLong(name) && PickNumber(root, name, 1) == 1
    ensures StoredShort(root, name) == ShortName(name, 1)
  {
  }

  /** The names of the directory stay ASCII. */
  lemma CreatedAscii(v: Vol, name: seq<byte>, bytes: seq<byte>, w: Written)
    requires EntryPlace(v, name, bytes, w) && LongAscii(name) && AsciiNames(v.root) && EndClosed(v.root)
    ensures AsciiNames(Place(v.root, w.f, w.es))
  {
    hide Answers, LongAscii, Entries, EntrySlots, FirstFit, EndClosed, Place;
    var r := Place(v.root, w.f, w.es);
    forall i, m | 0 <= i < |r| && Answers(r, i, m) ensures AsciiOnly(m) {
      if i == w.f + |w.es| - 1 {
        CreatedAnswers(v, name, bytes, w, m);
      } else {
        PlaceKeepsOthers(v.root, w.f, w.es, i, m);
      }
    }
  }

  /** Slot i holds a live entry with these eleven name bytes. */
  ghost predicate LiveAs(root: seq<Slot>, i: nat, short: seq<byte>) {
    i < |root| && Live(root[i]) && root[i][..11] == short
  }

  lemma CreatedAlias(v: Vol, name: seq<byte>, bytes: seq<byte>, w: Written)
    requires EntryPlace(v, name, bytes, w) && LongAscii(name) && AsciiNames(v.root)
    ensures LiveAs(Place(v.root, w.f, w.es), w.f + |w.es| - 1, ShortName(name, 1))
  {
    hide AsciiNames, NeedsLong, FirstFit, EntrySlots, PickNumber, ShortName, LongRun, Checksum;
    NumberIsOne(v.root, name);
    ShortStored(v.root, name);
    ShortIsAscii(name, w.es[|w.es| - 1]);
  }

  /** Storing a long ASCII name: its 8.3 name, and what else stays. */
  lemma CreateAliased(spc: nat, v: Vol, name: seq<byte>, bytes: seq<byte>) returns (k: nat)
    requires Sane(spc, v) && EndClosed(v.root) && AsciiNames(v.root) && LongAscii(name)
    requires Create(spc, v, name, bytes).ret >= 0
    ensures var r := Create(spc, v, name, bytes).vol.root;
            && LiveAs(r, k, ShortName(name, 1)) && AsciiNames(r) && EndClosed(r) && |r| == |v.root|
            && forall i :: 0 <= i < |r| && Live(v.root[i]) ==> i != k && r[i] == v.root[i]
  {
    hide Sane, Create, AsciiNames, NeedsLong, FileName, EndClosed, ShortName, Holds, LiveAs, Live, Entries, FirstFit,
      Allocate, Stored;
    var w := CreateParts(spc, v, name, bytes);
    CreatedAlias(v, name, bytes, w);
    CreatedAscii(v, name, bytes, w);
    PlaceKeepsClosed(v.root, w.f, w.es);
    k := w.f + |w.es| - 1;
    forall i | 0 <= i < |v.root| && Live(v.root[i])
      ensures Place(v.root, w.f, w.es)[i] == v.root[i] && i != k
    {
      KeptBeside(v, name, bytes, w, i);
    }
  }

  /** Storing one long ASCII name and then another that begins alike leaves two live entries
      with the same 8.3 name. */
  lemma AliasesCollide(spc: nat, v: Vol, a: seq<byte>, x: seq<byte>, b: seq<byte>, y: seq<byte>)
    returns (i: nat, j: nat)
    requires Sane(spc, v) && EndClosed(v.root) && AsciiNames(v.root) && LongAscii(a) && LongAscii(b) && Alike(a, b)
    requires Create(spc, v, a, x).ret >= 0 && Sane(spc, Create(spc, v, a, x).vol)
    requires Create(spc, Create(spc, v, a, x).vol, b, y).ret >= 0
    ensures var root := Create(spc, Create(spc, v, a, x).vol, b, y).vol.root;
            i != j && LiveAs(root, i, ShortName(a, 1)) && LiveAs(root, j, ShortName(a, 1))
  {
    hide Sane, Create, AsciiNames, LongAscii, EndClosed, ShortName, Alike, Live;
    i := CreateAliased(spc, v, a, x);
    j := CreateAliased(spc, Create(spc, v, a, x).vol, b, y);
    AlikeShort(a, b);
  }

  lemma AlikeShort(a: seq<byte>, b: seq<byte>)
    requires Alike(a, b)
    ensures ShortName(a, 1) == ShortName(b, 1)
  {
  }

  /** A live slot is not among those a new entry takes. */
  lemma KeptBeside(v: Vol, name: seq<byte>, bytes: seq<byte>, w: Written, i: nat)
    requires EntryPlace(v, name, bytes, w) && i < |v.root| && Live(v.root[i])
    ensures Place(v.root, w.f, w.es)[i] == v.root[i] && i != w.f + |w.es| - 1
  {
    hide Entries;
  }

  /** The names "abcdefg" and "abcdefh". */
  const FIRST: seq<byte> := [0x61, 0x62, 0x63, 0x64, 0x65, 0x66, 0x67]
  const SECOND: seq<byte> := [0x61, 0x62, 0x63, 0x64, 0x65, 0x66, 0x68]

  lemma AliasExample()
    ensures LongAscii(FIRST) && LongAscii(SECOND) && Alike(FIRST, SECOND) && FIRST != SECOND
  {
    hide LongAscii, Stem, Ext;
    LetterName(FIRST);
    LetterName(SECOND);
    assert AllUpper(FIRST)[..6] == AllUpper(SECOND)[..6];
  }

  /** A name of small letters. */
  lemma LetterName(s: seq<byte>)
    requires 6 < |s| < MAX_NAME && forall i :: 0 <= i < |s| ==> 0x61 <= s[i] <= 0x7A
    ensures LongAscii(s) && Stem(s) == AllUpper(s)[..6] && Ext(s) == []
  {
    hide Usable;
    assert Special(s[0]);
    assert LastDot(s) == |s| && s[..|s|] == s;
    LettersUsable(s);
  }

  lemma {:induction false} LettersUsable(s: seq<byte>)
    requires forall i :: 0 <= i < |s| ==> 0x61 <= s[i] <= 0x7A
    ensures Usable(s) == AllUpper(s)
  {
    if s != [] {
      LettersUsable(s[1..]);
      assert AllUpper(s) == [Upper(s[0])] + AllUpper(s[1..]);
    }
  }
}
