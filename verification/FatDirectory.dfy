/** The root directory of a FAT16 volume (src/fat16.c) as a sequence of 32-byte slots:
    looking a name up, finding room, and adding or deleting an entry. */
module FatDirectory {
  import opened Bits
  import opened LittleEndian
  import opened Strings
  import opened Search
  import opened FatNames

  // ---- slots ----------------------------------------------------------------------

  predicate IsFree(e: Slot) { e[0] == 0 || e[0] == DELETED }

  /** A slot that find_entry_in_dir compares with the name it looks for. */
  predicate Live(e: Slot) {
    e[0] != 0 && e[0] != DELETED && e[11] != ATTR_LFN && e[11] / 8 % 2 == 0
  }

  function ClusterOf(e: Slot): nat { U16(e, 26) }
  function SizeOf(e: Slot): nat { U32(e, 28) }
  predicate IsDir(e: Slot) { e[11] / 16 % 2 == 1 }

  /** The entry fat16_write_file stores for a regular file. */
  function FileEntry(name: seq<byte>, cluster: nat, size: nat): (e: Slot)
    requires |name| == 11
    ensures e[..11] == name && e[0] == name[0] && e[11] == ATTR_ARCHIVE
    ensures U16(e, 26) == cluster % 0x1_0000 && U32(e, 28) == size % TWO32
  {
    var named := name + [ATTR_ARCHIVE] + Zeros(20);
    var linked := PutU16(named, 26, cluster % 0x1_0000);
    var e := PutU32(linked, 28, size % TWO32);
    assert e[26..28] == linked[26..28];
    SameU16(e, 26, linked, 26);
    assert e[..11] == name;
    e
  }

  lemma FileEntryFields(name: seq<byte>, cluster: nat, size: nat)
    requires |name| == 11 && cluster < 0x1_0000 && size < TWO32
    ensures ClusterOf(FileEntry(name, cluster, size)) == cluster
    ensures SizeOf(FileEntry(name, cluster, size)) == size
    ensures !IsDir(FileEntry(name, cluster, size))
    ensures Live(FileEntry(name, cluster, size)) <==> name[0] != 0 && name[0] != DELETED
  {
    hide U16, U32, FileEntry;
    SmallMod(cluster, 0x1_0000);
    SmallMod(size, TWO32);
  }

  // ---- collection and lookup --------------------------------------------------------

  /** What one slot does to the long-name collection. */
  function Next(st: Collecting, e: Slot): (r: Collecting)
    requires Ready(st)
    ensures Ready(r)
  {
    if e[0] == 0 || e[0] == DELETED then Idle
    else if e[11] == ATTR_LFN then Absorb(st, e)
    else Idle
  }

  /** The collection in front of slot i. */
  function Collected(root: seq<Slot>, i: nat): (r: Collecting)
    requires i <= |root|
    ensures Ready(r)
  {
    if i == 0 then Idle else Next(Collected(root, i - 1), root[i - 1])
  }

  predicate LongMatch(st: Collecting, name: seq<byte>)
    requires Ready(st)
  {
    st.Long? && st.buf[0] != 0 && SameName(Text(st.buf), name)
  }

  /** Slot i is a live entry that answers to the name, by its long or its short name. */
  predicate Answers(root: seq<Slot>, i: nat, name: seq<byte>)
    requires i < |root|
  {
    Live(root[i]) && (LongMatch(Collected(root, i), name) || SameName(Text83(root[i]), name))
  }

  ghost predicate NoEnd(root: seq<Slot>, i: nat, k: nat)
    requires k <= |root|
  {
    forall j :: i <= j < k ==> root[j][0] != 0
  }

  /** The first entry from slot i on that answers, before the end mark. */
  function FindFrom(root: seq<Slot>, name: seq<byte>, i: nat): (r: Found)
    requires i <= |root|
    ensures r.Some? ==> i <= r.at < |root| && NoEnd(root, i, r.at) && Answers(root, r.at, name)
    ensures r.Some? ==> forall k :: i <= k < r.at ==> !Answers(root, k, name)
    ensures r.None? ==> forall k :: i <= k < |root| && NoEnd(root, i, k) ==> !Answers(root, k, name)
    decreases |root| - i
  {
    if i == |root| || root[i][0] == 0 then None
    else if Answers(root, i, name) then Some(i)
    else FindFrom(root, name, i + 1)
  }

  function Find(root: seq<Slot>, name: seq<byte>): Found { FindFrom(root, name, 0) }

  /** No entry stands behind an end mark. */
  ghost predicate EndClosed(root: seq<Slot>) {
    forall i, j :: 0 <= i < j < |root| && root[i][0] == 0 ==> root[j][0] == 0
  }

  lemma ClosedNoEnd(root: seq<Slot>, k: nat)
    requires EndClosed(root) && k < |root| && root[k][0] != 0
    ensures NoEnd(root, 0, k)
  {
  }

  /** A lookup finds the first answering entry, and fails only when there is none. */
  lemma FindMeaning(root: seq<Slot>, name: seq<byte>, k: nat)
    requires EndClosed(root) && k < |root|
    ensures Find(root, name) == Some(k) <==> Answers(root, k, name)
                                             && forall j :: 0 <= j < k ==> !Answers(root, j, name)
    ensures Answers(root, k, name) ==> Find(root, name).Some?
  {
    if Answers(root, k, name) { ClosedNoEnd(root, k); }
  }

  lemma NoAnswerNotFound(root: seq<Slot>, name: seq<byte>)
    requires EndClosed(root)
    ensures Find(root, name).None? <==> forall k :: 0 <= k < |root| ==> !Answers(root, k, name)
  {
    forall k | 0 <= k < |root| && Answers(root, k, name) ensures Find(root, name).Some? { ClosedNoEnd(root, k); }
  }

  // ---- room -----------------------------------------------------------------------

  predicate IsRun(root: seq<Slot>, f: nat, count: nat) {
    f + count <= |root| && forall j :: f <= j < f + count ==> IsFree(root[j])
  }

  /** First fit: the first place with `count` free slots in a row. */
  ghost predicate FirstFit(root: seq<Slot>, count: nat, r: Found) {
    match r
    case Some(f) => IsRun(root, f, count) && forall g: nat :: g < f ==> !IsRun(root, g, count)
    case None => forall g: nat :: !IsRun(root, g, count)
  }

  function FirstRun(root: seq<Slot>, count: nat): (r: Found)
    ensures FirstFit(root, count, r)
  {
    FirstRunFrom(root, count, 0)
  }

  function FirstRunFrom(root: seq<Slot>, count: nat, f: nat): (r: Found)
    requires f <= |root| + 1 && forall g: nat :: g < f ==> !IsRun(root, g, count)
    ensures FirstFit(root, count, r)
    decreases |root| + 1 - f
  {
    if f + count > |root| then None
    else if IsRun(root, f, count) then Some(f)
    else FirstRunFrom(root, count, f + 1)
  }

  lemma RunStart(root: seq<Slot>, count: nat, f: nat)
    requires FirstFit(root, count, Some(f)) && count > 0 && f > 0
    ensures !IsFree(root[f - 1])
  {
    assert !IsRun(root, f - 1, count);
  }

  // ---- changes --------------------------------------------------------------------

  function Place(root: seq<Slot>, f: nat, es: seq<Slot>): (r: seq<Slot>)
    requires f + |es| <= |root|
    ensures |r| == |root|
    ensures forall j :: 0 <= j < |root| ==> r[j] == if f <= j < f + |es| then es[j - f] else root[j]
  {
    root[..f] + es + root[f + |es|..]
  }

  function Erase(root: seq<Slot>, i: nat): (r: seq<Slot>)
    requires i < |root|
    ensures |r| == |root|
    ensures forall j :: 0 <= j < |root| && j != i ==> r[j] == root[j]
    ensures r[i][0] == DELETED
  {
    root[i := root[i][0 := DELETED]]
  }

  /** The collection depends only on the slots in front. */
  lemma {:induction false} CollectedPrefix(a: seq<Slot>, b: seq<Slot>, i: nat)
    requires i <= |a| && i <= |b| && a[..i] == b[..i]
    ensures Collected(a, i) == Collected(b, i)
  {
    if i > 0 {
      assert a[..i - 1] == a[..i][..i - 1] && b[..i - 1] == b[..i][..i - 1];
      assert a[i - 1] == a[..i][i - 1] && b[i - 1] == b[..i][i - 1];
      CollectedPrefix(a, b, i - 1);
    }
  }

  /** Two directories collect the same from slot k on once they agree at k and from there. */
  lemma {:induction false} CollectedRejoins(a: seq<Slot>, b: seq<Slot>, k: nat, i: nat)
    requires |a| == |b| && k <= i <= |a| && Collected(a, k) == Collected(b, k)
    requires forall j :: k <= j < i ==> a[j] == b[j]
    ensures Collected(a, i) == Collected(b, i)
    decreases i
  {
    if i > k { CollectedRejoins(a, b, k, i - 1); }
  }

  lemma {:induction false} CollectedRun(root: seq<Slot>, f: nat, es: seq<Slot>)
    requires f + |es| <= |root| && root[f..f + |es|] == es
    requires forall j :: 0 <= j < |es| ==> !IsFree(es[j]) && es[j][11] == ATTR_LFN
    ensures Collected(root, f + |es|) == AbsorbAll(Collected(root, f), es)
    decreases |es|
  {
    var n := |es|;
    if n > 0 {
      assert root[f..f + n][n - 1] == root[f + n - 1];
      assert root[f..f + (n - 1)] == root[f..f + n][..n - 1];
      CollectedRun(root, f, es[..n - 1]);
    }
  }

  /** Deleting an entry changes nothing about who else answers to which name, although
      the long-name slots in front of it stay behind. */
  lemma EraseKeepsOthers(root: seq<Slot>, i: nat, j: nat, name: seq<byte>)
    requires i < |root| && Live(root[i]) && j < |root|
    ensures Answers(Erase(root, i), j, name) <==> j != i && Answers(root, j, name)
  {
    var r := Erase(root, i);
    if j <= i {
      assert r[..j] == root[..j];
      CollectedPrefix(r, root, j);
    } else {
      assert Collected(r, i + 1) == Idle && Collected(root, i + 1) == Idle;
      CollectedRejoins(r, root, i + 1, j);
    }
  }

  lemma EraseKeepsClosed(root: seq<Slot>, i: nat)
    requires EndClosed(root) && i < |root| && root[i][0] != 0
    ensures EndClosed(Erase(root, i))
  {
    var r := Erase(root, i);
    forall x, y | 0 <= x < y < |r| && r[x][0] == 0 ensures r[y][0] == 0 {
      assert root[x][0] == 0 && root[y][0] == 0;
    }
  }

  // ---- adding an entry --------------------------------------------------------------

  /** The slots stored for one file: its long-name run, possibly empty, and its entry. */
  ghost predicate EntrySlots(es: seq<Slot>) {
    && es != []
    && (forall j :: 0 <= j < |es| - 1 ==> !IsFree(es[j]) && es[j][11] == ATTR_LFN)
    && es[|es| - 1][0] != 0 && es[|es| - 1][11] == ATTR_ARCHIVE
  }

  lemma PlaceKeepsClosed(root: seq<Slot>, f: nat, es: seq<Slot>)
    requires EndClosed(root) && EntrySlots(es) && FirstFit(root, |es|, Some(f))
    ensures EndClosed(Place(root, f, es))
  {
    var r := Place(root, f, es);
    if f > 0 {
      RunStart(root, |es|, f);
      ClosedNoEnd(root, f - 1);
    }
    assert NoEnd(r, 0, f + |es|);
    forall x, y | 0 <= x < y < |r| && r[x][0] == 0 ensures r[y][0] == 0 {
      assert root[x] == r[x] && root[y] == r[y];
    }
  }

  /** Adding an entry changes nothing about who else answers to which name. */
  lemma PlaceKeepsOthers(root: seq<Slot>, f: nat, es: seq<Slot>, j: nat, name: seq<byte>)
    requires EndClosed(root) && EntrySlots(es) && FirstFit(root, |es|, Some(f)) && j < |root| && j != f + |es| - 1
    ensures Answers(Place(root, f, es), j, name) <==> Answers(root, j, name)
  {
    var r := Place(root, f, es);
    var k := f + |es|;
    if j < f {
      assert r[..j] == root[..j];
      CollectedPrefix(r, root, j);
    } else if k <= j {
      assert IsFree(root[k - 1]);
      assert Collected(r, k) == Idle by { assert r[k - 1] == es[|es| - 1]; }
      assert Collected(root, k) == Idle;
      CollectedRejoins(r, root, k, j);
    } else {
      assert r[j] == es[j - f] && IsFree(root[j]);
    }
  }

  lemma LongRunSlots(name: seq<byte>, sum: byte)
    requires FileName(name)
    ensures 1 <= |LongRun(name, sum)| <= 10
    ensures forall j :: 0 <= j < |LongRun(name, sum)|
              ==> !IsFree(LongRun(name, sum)[j]) && LongRun(name, sum)[j][11] == ATTR_LFN
  {
  }

  /** Behind the run of a name, that name is collected. */
  lemma RunIsCollected(r: seq<Slot>, f: nat, name: seq<byte>, sum: byte)
    requires FileName(name) && Plain(name) && f + |LongRun(name, sum)| <= |r|
             && r[f..f + |LongRun(name, sum)|] == LongRun(name, sum)
    ensures LongMatch(Collected(r, f + |LongRun(name, sum)|), name)
  {
    hide LongRun, Collected, AbsorbAll, Text, Plain, FileName;
    LongRunSlots(name, sum);
    CollectedRun(r, f, LongRun(name, sum));
    LongNameRoundTrip(Collected(r, f), name, sum);
  }

  /** A file stored with its long-name run answers to that name exactly when its short
      entry does not look deleted. */
  lemma PlacedAnswers(root: seq<Slot>, f: nat, name: seq<byte>, sum: byte, e: Slot)
    requires FileName(name) && Plain(name) && e[0] != 0 && e[11] == ATTR_ARCHIVE
    requires f + |LongRun(name, sum)| + 1 <= |root|
    ensures var r := Place(root, f, LongRun(name, sum) + [e]);
            Answers(r, f + |LongRun(name, sum)|, name) <==> e[0] != DELETED
  {
    var es := LongRun(name, sum);
    hide LongRun, Collected, Text83, SameName, Text, Plain, LongMatch;
    var r := Place(root, f, es + [e]);
    assert r[f..f + |es|] == es;
    assert r[f + |es|] == e;
    RunIsCollected(r, f, name, sum);
  }

  /** Looking the name up afterwards finds the new entry when nobody else answers. */
  lemma PlacedIsFound(root: seq<Slot>, f: nat, name: seq<byte>, sum: byte, e: Slot)
    requires EndClosed(root) && FileName(name) && Plain(name) && e[0] != 0 && e[11] == ATTR_ARCHIVE
    requires FirstFit(root, |LongRun(name, sum)| + 1, Some(f)) && Find(root, name).None?
    ensures Find(Place(root, f, LongRun(name, sum) + [e]), name)
            == if e[0] != DELETED then Some(f + |LongRun(name, sum)|) else None
  {
    var es := LongRun(name, sum) + [e];
    var r := Place(root, f, es);
    var k := f + |es| - 1;
    LongRunSlots(name, sum);
    PlaceKeepsClosed(root, f, es);
    PlacedAnswers(root, f, name, sum, e);
    NoAnswerNotFound(root, name);
    forall j | 0 <= j < |r| && j != k ensures !Answers(r, j, name) { PlaceKeepsOthers(root, f, es, j, name); }
    FindMeaning(r, name, k);
    NoAnswerNotFound(r, name);
  }
}
