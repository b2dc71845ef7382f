/** Update-sequence fixups of NTFS records (src/ntfs.c): the last word of every sector is
    replaced by a sequence number before a record is written and put back after it is
    read, so that a record whose sectors come from different writes is recognised. */
module NtfsFixup {
  import opened Bits
  import opened LittleEndian

  const SECTOR: nat := 512

  // ---- records --------------------------------------------------------------------------

  function ArrayAt(rec: seq<byte>): nat requires |rec| >= 8 { U16(rec, 4) }
  function ArrayCount(rec: seq<byte>): nat requires |rec| >= 8 { U16(rec, 6) }

  predicate ArrayFits(rec: seq<byte>)
    requires |rec| >= 8
  {
    ArrayAt(rec) + 2 * ArrayCount(rec) <= |rec|
  }

  /** What the driver's callers pass: the array has room for its sequence number. */
  predicate Readable(rec: seq<byte>) {
    |rec| >= 8 && (ArrayFits(rec) ==> ArrayAt(rec) + 2 <= |rec|)
  }

  function Tail(i: nat): (p: nat)
    requires i >= 1
    ensures p == 512 * i - 2
  {
    512 * i - 2
  }

  datatype Fixed = Fixed(ok: bool, rec: seq<byte>)

  /** The loop of apply_fixup from entry i on; `sv` is the sequence number. */
  function ApplyFrom(rec: seq<byte>, at: nat, count: nat, sv: nat, i: nat): (r: Fixed)
    requires at + 2 * count <= |rec| && i >= 1
    ensures |r.rec| == |rec|
    decreases count - i
  {
    if i >= count || Tail(i) + 2 > |rec| then Fixed(true, rec)
    else if U16(rec, Tail(i)) != sv then Fixed(false, rec)
    else ApplyFrom(PutU16(rec, Tail(i), U16(rec, at + 2 * i)), at, count, sv, i + 1)
  }

  function Apply(rec: seq<byte>): (r: Fixed)
    requires Readable(rec)
    ensures |r.rec| == |rec|
  {
    if !ArrayFits(rec) then Fixed(false, rec)
    else ApplyFrom(rec, ArrayAt(rec), ArrayCount(rec), U16(rec, ArrayAt(rec)), 1)
  }

  /** The sequence number after one more write; 0 is skipped. */
  function NextNumber(n: nat): (r: nat)
    requires n < 0x1_0000
    ensures 1 <= r < 0x1_0000 && r != n
  {
    if n == 0xFFFF then 1 else n + 1
  }

  /** Saves the tail of sector i in the array and replaces it by the sequence number. */
  function MarkSector(rec: seq<byte>, at: nat, i: nat, sv: nat): (r: seq<byte>)
    requires i >= 1 && at + 2 * i + 2 <= |rec| && Tail(i) + 2 <= |rec| && sv < 0x1_0000
    ensures |r| == |rec|
  {
    PutU16(PutU16(rec, at + 2 * i, U16(rec, Tail(i))), Tail(i), sv)
  }

  /** The loop of prepare_fixup from entry i on. */
  function PrepareFrom(rec: seq<byte>, at: nat, count: nat, sv: nat, i: nat): (r: seq<byte>)
    requires at + 2 * count <= |rec| && i >= 1 && sv < 0x1_0000
    ensures |r| == |rec|
    decreases count - i
  {
    if i >= count || Tail(i) + 2 > |rec| then rec
    else PrepareFrom(MarkSector(rec, at, i, sv), at, count, sv, i + 1)
  }

  function Prepare(rec: seq<byte>): (r: Fixed)
    requires Readable(rec)
    ensures |r.rec| == |rec|
  {
    if !ArrayFits(rec) then Fixed(false, rec)
    else
      var at := ArrayAt(rec);
      var sv := NextNumber(U16(rec, at));
      Fixed(true, PrepareFrom(PutU16(rec, at, sv), at, ArrayCount(rec), sv, 1))
  }

  method LoadWord(rec: array<byte>, p: nat) returns (w: nat)
    requires p + 2 <= rec.Length
    ensures w == U16(rec[..], p)
  {
    w := rec[p] as int + 256 * rec[p + 1] as int;
  }

  method StoreWord(rec: array<byte>, p: nat, w: nat)
    requires p + 2 <= rec.Length && w < 0x1_0000
    modifies rec
    ensures rec[..] == PutU16(old(rec[..]), p, w)
  {
    rec[p] := w % 256;
    rec[p + 1] := w / 256;
  }

  method ApplyFixup(rec: array<byte>) returns (ok: bool)
    requires Readable(rec[..])
    modifies rec
    ensures Fixed(ok, rec[..]) == Apply(old(rec[..]))
  {
    hide U16, PutU16;
    var at := LoadWord(rec, 4);
    var count := LoadWord(rec, 6);
    if at + 2 * count > rec.Length { return false; }
    var sv := LoadWord(rec, at);
    var i := 1;
    while i < count
      invariant i >= 1 && ApplyFrom(rec[..], at, count, sv, i) == Apply(old(rec[..]))
    {
      var p := i * 512 - 2;
      if p + 2 > rec.Length { break; }
      var s := LoadWord(rec, p);
      if s != sv { return false; }
      var saved := LoadWord(rec, at + 2 * i);
      StoreWord(rec, p, saved);
      i := i + 1;
    }
    return true;
  }

  method PrepareFixup(rec: array<byte>) returns (ok: bool)
    requires Readable(rec[..])
    modifies rec
    ensures Fixed(ok, rec[..]) == Prepare(old(rec[..]))
  {
    hide U16, PutU16;
    var at := LoadWord(rec, 4);
    var count := LoadWord(rec, 6);
    if at + 2 * count > rec.Length { return false; }
    var sv := LoadWord(rec, at);
    sv := if sv == 0xFFFF then 0 else sv + 1;
    if sv == 0 { sv := 1; }
    StoreWord(rec, at, sv);
    var i := 1;
    while i < count
      invariant i >= 1 && PrepareFrom(rec[..], at, count, sv, i) == Prepare(old(rec[..])).rec
    {
      var p := i * 512 - 2;
      if p + 2 > rec.Length { break; }
      var s := LoadWord(rec, p);
      StoreWord(rec, at + 2 * i, s);
      StoreWord(rec, p, sv);
      i := i + 1;
    }
    return true;
  }

  // ---- the round trip ---------------------------------------------------------------------

  /** The array lies behind the fields that describe it and before the last word of the
      first sector, as in every record the driver builds. */
  ghost predicate WellPlaced(rec: seq<byte>) {
    |rec| >= 512 && 8 <= ArrayAt(rec) && ArrayCount(rec) >= 1 && ArrayAt(rec) + 2 * ArrayCount(rec) <= 510
  }

  /** Bytes at which two records may differ: inside the update-sequence array. */
  ghost predicate SameOutside(a: seq<byte>, b: seq<byte>, at: nat, count: nat) {
    |a| == |b| && forall p :: 0 <= p < |a| && !(at <= p < at + 2 * count) ==> a[p] == b[p]
  }

  /** What preparing from entry i on leaves alone: the array in front of entry i, every
      byte outside the array that is not a tail at or behind i. */
  lemma {:induction false} PrepareKeeps(rec: seq<byte>, at: nat, count: nat, sv: nat, i: nat, q: nat)
    requires 8 <= at && at + 2 * count <= 510 <= |rec| && i >= 1 && sv < 0x1_0000 && q + 2 <= |rec|
    requires q + 2 <= at + 2 * i || (at + 2 * count <= q && forall k :: i <= k ==> q + 2 <= Tail(k) || Tail(k) + 2 <= q)
    requires q + 2 <= 510 || at + 2 * count <= q
    ensures U16(PrepareFrom(rec, at, count, sv, i), q) == U16(rec, q)
    decreases count - i
  {
    hide U16, PutU16;
    if i < count && Tail(i) + 2 <= |rec| {
      var w := U16(rec, Tail(i));
      var one := PutU16(rec, at + 2 * i, w);
      OtherWord(rec, at + 2 * i, w, q);
      OtherWord(one, Tail(i), sv, q);
      PrepareKeeps(PutU16(one, Tail(i), sv), at, count, sv, i + 1, q);
    }
  }

  /** Writing the tail of an earlier sector commutes with preparing the later ones. */
  lemma {:induction false} PrepareCommutes(rec: seq<byte>, at: nat, count: nat, sv: nat, i: nat, k: nat, w: nat)
    requires 8 <= at && at + 2 * count <= 510 <= |rec| && sv < 0x1_0000 && w < 0x1_0000
    requires 1 <= k < i && Tail(k) + 2 <= |rec|
    ensures PrepareFrom(PutU16(rec, Tail(k), w), at, count, sv, i)
            == PutU16(PrepareFrom(rec, at, count, sv, i), Tail(k), w)
    decreases count - i
  {
    hide U16, PutU16, PrepareFrom;
    PrepareStep(rec, at, count, sv, i);
    PrepareStep(PutU16(rec, Tail(k), w), at, count, sv, i);
    if i < count && Tail(i) + 2 <= |rec| {
      MarkCommutes(rec, at, count, sv, i, k, w);
      PrepareCommutes(MarkSector(rec, at, i, sv), at, count, sv, i + 1, k, w);
    }
  }

  lemma MarkCommutes(rec: seq<byte>, at: nat, count: nat, sv: nat, i: nat, k: nat, w: nat)
    requires at + 2 * count <= 510 <= |rec| && sv < 0x1_0000 && w < 0x1_0000
    requires 1 <= k < i < count && Tail(i) + 2 <= |rec|
    ensures MarkSector(PutU16(rec, Tail(k), w), at, i, sv) == PutU16(MarkSector(rec, at, i, sv), Tail(k), w)
  {
    hide U16, PutU16;
    var q, a, t := Tail(k), at + 2 * i, Tail(i);
    var v := U16(rec, t);
    OtherWord(rec, q, w, t);
    PutCommutes(rec, q, w, a, v);
    PutCommutes(PutU16(rec, a, v), q, w, t, sv);
  }

  lemma PrepareStep(rec: seq<byte>, at: nat, count: nat, sv: nat, i: nat)
    requires at + 2 * count <= |rec| && i >= 1 && sv < 0x1_0000
    ensures PrepareFrom(rec, at, count, sv, i)
            == if i >= count || Tail(i) + 2 > |rec| then rec
               else PrepareFrom(MarkSector(rec, at, i, sv), at, count, sv, i + 1)
  {
  }

  /** Applying undoes preparing, from entry i on. */
  lemma {:induction false} ApplyUndoes(rec: seq<byte>, at: nat, count: nat, sv: nat, i: nat)
    requires 8 <= at && at + 2 * count <= 510 <= |rec| && i >= 1 && sv < 0x1_0000
    ensures var r := ApplyFrom(PrepareFrom(rec, at, count, sv, i), at, count, sv, i);
            r.ok && SameOutside(r.rec, rec, at, count)
    decreases count - i
  {
    hide U16, PutU16, PrepareFrom, ApplyFrom;
    PrepareStep(rec, at, count, sv, i);
    ApplyStep(PrepareFrom(rec, at, count, sv, i), at, count, sv, i);
    if i < count && Tail(i) + 2 <= |rec| {
      var a, t := at + 2 * i, Tail(i);
      var v := U16(rec, t);
      var saved := PutU16(rec, a, v);
      UndoStep(rec, at, count, sv, i);
      ApplyUndoes(saved, at, count, sv, i + 1);
    }
  }

  /** What the first application step sees and does. */
  lemma UndoStep(rec: seq<byte>, at: nat, count: nat, sv: nat, i: nat)
    requires 8 <= at && at + 2 * count <= 510 <= |rec| && 1 <= i < count && sv < 0x1_0000 && Tail(i) + 2 <= |rec|
    ensures var q := PrepareFrom(MarkSector(rec, at, i, sv), at, count, sv, i + 1);
            && U16(q, Tail(i)) == sv
            && PutU16(q, Tail(i), U16(q, at + 2 * i))
               == PrepareFrom(PutU16(rec, at + 2 * i, U16(rec, Tail(i))), at, count, sv, i + 1)
  {
    hide U16, PutU16, PrepareFrom;
    var a, t := at + 2 * i, Tail(i);
    var v := U16(rec, t);
    var saved := PutU16(rec, a, v);
    var marked := PutU16(saved, t, sv);
    OtherWord(rec, a, v, t);
    OtherWord(saved, t, sv, a);
    PrepareKeeps(marked, at, count, sv, i + 1, t);
    PrepareKeeps(marked, at, count, sv, i + 1, a);
    PutBack(saved, t, sv);
    PrepareCommutes(marked, at, count, sv, i + 1, i, v);
  }

  lemma ApplyStep(rec: seq<byte>, at: nat, count: nat, sv: nat, i: nat)
    requires at + 2 * count <= |rec| && i >= 1
    ensures ApplyFrom(rec, at, count, sv, i)
            == if i >= count || Tail(i) + 2 > |rec| then Fixed(true, rec)
               else if U16(rec, Tail(i)) != sv then Fixed(false, rec)
               else ApplyFrom(PutU16(rec, Tail(i), U16(rec, at + 2 * i)), at, count, sv, i + 1)
  {
  }

  lemma PreparedHeader(rec: seq<byte>)
    requires WellPlaced(rec)
    ensures var p := Prepare(rec);
            p.ok && Readable(p.rec) && ArrayAt(p.rec) == ArrayAt(rec) && ArrayCount(p.rec) == ArrayCount(rec)
            && U16(p.rec, ArrayAt(rec)) == NextNumber(U16(rec, ArrayAt(rec)))
  {
    hide PrepareFrom, PutU16, U16, NextNumber;
    var at, count := ArrayAt(rec), ArrayCount(rec);
    var sv := NextNumber(U16(rec, at));
    var r := PutU16(rec, at, sv);
    OtherWord(rec, at, sv, 4);
    OtherWord(rec, at, sv, 6);
    PrepareKeeps(r, at, count, sv, 1, 4);
    PrepareKeeps(r, at, count, sv, 1, 6);
    PrepareKeeps(r, at, count, sv, 1, at);
  }

  /** A prepared record can be applied, which restores every byte outside the array. */
  lemma FixupRoundTrip(rec: seq<byte>)
    requires WellPlaced(rec)
    ensures Prepare(rec).ok && Readable(Prepare(rec).rec) && Apply(Prepare(rec).rec).ok
    ensures SameOutside(Apply(Prepare(rec).rec).rec, rec, ArrayAt(rec), ArrayCount(rec))
  {
    PreparedHeader(rec);
    hide PrepareFrom, U16, NextNumber, ApplyFrom;
    var at, count := ArrayAt(rec), ArrayCount(rec);
    var sv := NextNumber(U16(rec, at));
    ApplyUndoes(PutU16(rec, at, sv), at, count, sv, 1);
  }

  // ---- torn writes --------------------------------------------------------------------------

  /** Applying succeeds exactly when every covered sector ends in the sequence number. */
  lemma {:induction false} ApplyOk(rec: seq<byte>, at: nat, count: nat, sv: nat, i: nat)
    requires at + 2 * count <= 510 <= |rec| && i >= 1
    ensures ApplyFrom(rec, at, count, sv, i).ok <==> forall k :: i <= k < count && Tail(k) + 2 <= |rec| ==>
              U16(rec, Tail(k)) == sv
    decreases count - i
  {
    if i < count && Tail(i) + 2 <= |rec| && U16(rec, Tail(i)) == sv {
      hide U16, PutU16;
      var w := U16(rec, at + 2 * i);
      var r := PutU16(rec, Tail(i), w);
      ApplyOk(r, at, count, sv, i + 1);
      forall k | i < k < count && Tail(k) + 2 <= |rec|
        ensures U16(r, Tail(k)) == U16(rec, Tail(k))
      {
        OtherWord(rec, Tail(i), w, Tail(k));
      }
    }
  }

  /** Every covered sector of a prepared record ends in its sequence number. */
  lemma {:induction false} PreparedTails(rec: seq<byte>, at: nat, count: nat, sv: nat, i: nat, k: nat)
    requires 8 <= at && at + 2 * count <= 510 <= |rec| && 1 <= i <= k < count && sv < 0x1_0000 && Tail(k) + 2 <= |rec|
    ensures U16(PrepareFrom(rec, at, count, sv, i), Tail(k)) == sv
    decreases count - i
  {
    hide U16, PutU16;
    var r := PutU16(PutU16(rec, at + 2 * i, U16(rec, Tail(i))), Tail(i), sv);
    if i < k { PreparedTails(r, at, count, sv, i + 1, k); }
    else { PrepareKeeps(r, at, count, sv, i + 1, Tail(i)); }
  }

  lemma PreparedTail(rec: seq<byte>, k: nat)
    requires WellPlaced(rec) && 1 <= k < ArrayCount(rec) && Tail(k) + 2 <= |rec|
    ensures U16(Prepare(rec).rec, Tail(k)) == NextNumber(U16(rec, ArrayAt(rec)))
  {
    hide PrepareFrom, PutU16, U16, NextNumber;
    var at, count := ArrayAt(rec), ArrayCount(rec);
    var sv := NextNumber(U16(rec, at));
    PreparedTails(PutU16(rec, at, sv), at, count, sv, 1, k);
  }

  /** m takes each of its sectors from a or from b. */
  ghost predicate Mixes(m: seq<byte>, a: seq<byte>, b: seq<byte>, fromA: seq<bool>) {
    && |m| == |a| == |b| == 512 * |fromA|
    && forall p :: 0 <= p < |m| ==> m[p] == if fromA[p / 512] then a[p] else b[p]
  }

  lemma MixedWord(m: seq<byte>, a: seq<byte>, b: seq<byte>, fromA: seq<bool>, p: nat)
    requires Mixes(m, a, b, fromA) && p + 2 <= |m| && p / 512 == (p + 1) / 512
    ensures U16(m, p) == if fromA[p / 512] then U16(a, p) else U16(b, p)
  {
  }

  /** Two consecutive writes of a record: the second starts from the first one's sequence
      number, and every sector is covered. */
  ghost predicate Consecutive(r1: seq<byte>, r2: seq<byte>) {
    && WellPlaced(r1) && WellPlaced(r2) && |r1| == |r2| == 512 * (ArrayCount(r1) - 1)
    && ArrayAt(r2) == ArrayAt(r1) && ArrayCount(r2) == ArrayCount(r1)
    && U16(r2, ArrayAt(r2)) == NextNumber(U16(r1, ArrayAt(r1)))
  }

  /** A mix of the sectors of two consecutive writes is accepted exactly when it is one of
      the two: every torn write is rejected. */
  lemma TornWriteIsRejected(r1: seq<byte>, r2: seq<byte>, m: seq<byte>, fromA: seq<bool>)
    requires Consecutive(r1, r2) && Mixes(m, Prepare(r1).rec, Prepare(r2).rec, fromA)
    ensures Readable(m)
    ensures Apply(m).ok <==> forall k :: 0 <= k < |fromA| ==> fromA[k] == fromA[0]
  {
    var a, b := Prepare(r1).rec, Prepare(r2).rec;
    var at, count := ArrayAt(r1), ArrayCount(r1);
    var sa, sb := NextNumber(U16(r1, at)), NextNumber(U16(r2, at));
    PreparedHeader(r1);
    PreparedHeader(r2);
    hide U16, Apply, ApplyFrom, Prepare, NextNumber;
    MixedWord(m, a, b, fromA, 4);
    MixedWord(m, a, b, fromA, 6);
    FirstSector(at);
    MixedWord(m, a, b, fromA, at);
    var sv := if fromA[0] then sa else sb;
    forall k | 1 <= k < count ensures U16(m, Tail(k)) == (if fromA[k - 1] then sa else sb) {
      PreparedTail(r1, k);
      PreparedTail(r2, k);
      TailSector(k);
      MixedWord(m, a, b, fromA, Tail(k));
    }
    ApplyMeaning(m, at, count, sv);
    if Apply(m).ok {
      forall k | 0 <= k < |fromA| ensures fromA[k] == fromA[0] {
        assert U16(m, Tail(k + 1)) == if fromA[(k + 1) - 1] then sa else sb;
      }
    }
  }

  lemma FirstSector(at: nat)
    requires at + 2 <= 510
    ensures at / 512 == 0 == (at + 1) / 512
  {
  }

  lemma TailSector(k: nat)
    requires k >= 1
    ensures Tail(k) / 512 == k - 1 == (Tail(k) + 1) / 512
  {
  }

  lemma ApplyMeaning(m: seq<byte>, at: nat, count: nat, sv: nat)
    requires |m| >= 512 && at == ArrayAt(m) && count == ArrayCount(m) && at + 2 * count <= 510 && at + 2 <= 510
             && U16(m, at) == sv
    ensures Readable(m)
    ensures Apply(m).ok <==> forall k :: 1 <= k < count && Tail(k) + 2 <= |m| ==> U16(m, Tail(k)) == sv
  {
    ApplyOk(m, at, count, sv, 1);
  }
}
