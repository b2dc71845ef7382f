/** Names in FAT16 directories (src/fat16.c): 8.3 names, long-name slots and how a
    long name is collected back from them.  A name is a C string: bytes without 0. */
module FatNames {
  import opened Bits
  import opened Strings

  const MAX_NAME: nat := 128

  const ATTR_ARCHIVE: byte := 0x20
  const ATTR_LFN: byte := 0x0F

  const SPACE: byte := 0x20
  const DOT: byte := 0x2E
  const DELETED: byte := 0xE5

  type Slot = s: seq<byte> | |s| == 32 witness seq(32, _ => 0)

  /** A file name the driver's buffers can hold. */
  ghost predicate FileName(s: seq<byte>) { CString(s) && 1 <= |s| < MAX_NAME }

  // ---- 8.3 names ------------------------------------------------------------------

  /** Position of the last dot; |name| when there is none. */
  function LastDot(name: seq<byte>): (r: nat)
    ensures r <= |name|
    ensures r < |name| ==> name[r] == DOT && forall i :: r < i < |name| ==> name[i] != DOT
    ensures r == |name| ==> DOT !in name
  {
    LastDotBelow(name, |name|)
  }

  function LastDotBelow(name: seq<byte>, k: nat): (r: nat)
    requires k <= |name|
    requires forall i :: k <= i < |name| ==> name[i] != DOT
    ensures r <= |name|
    ensures r < |name| ==> name[r] == DOT && forall i :: r < i < |name| ==> name[i] != DOT
    ensures r == |name| ==> DOT !in name
  {
    if k == 0 then |name| else if name[k - 1] == DOT then k - 1 else LastDotBelow(name, k - 1)
  }

  function Base(name: seq<byte>): seq<byte> { name[..LastDot(name)] }

  function Ext(name: seq<byte>): seq<byte> {
    if LastDot(name) < |name| then name[LastDot(name) + 1..] else []
  }

  function AllUpper(s: seq<byte>): (r: seq<byte>)
    ensures |r| == |s| && forall i :: 0 <= i < |s| ==> r[i] == Upper(s[i])
  {
    seq(|s|, i requires 0 <= i < |s| => Upper(s[i]))
  }

  function AllLower(s: seq<byte>): (r: seq<byte>)
    ensures |r| == |s| && forall i :: 0 <= i < |s| ==> r[i] == Lower(s[i])
  {
    seq(|s|, i requires 0 <= i < |s| => Lower(s[i]))
  }

  /** s cut to n bytes and filled up with spaces. */
  function Padded(s: seq<byte>, n: nat): (r: seq<byte>)
    ensures |r| == n
    ensures forall i :: 0 <= i < n ==> r[i] == if i < |s| then s[i] else SPACE
  {
    seq(n, i => if 0 <= i < |s| then s[i] else SPACE)
  }

  /** encode_83_name. */
  function Encode83(name: seq<byte>): (r: seq<byte>)
    ensures |r| == 11
  {
    Padded(AllUpper(Base(name)), 8) + Padded(AllUpper(Ext(name)), 3)
  }

  predicate Special(c: byte) {
    0x61 <= c <= 0x7A || c in {SPACE, 0x2B, 0x2C, 0x3B, 0x3D, 0x5B, 0x5D}
  }

  /** needs_lfn. */
  predicate NeedsLong(name: seq<byte>) {
    || (exists i :: 0 <= i < |name| && Special(name[i]))
    || DOT in Base(name)
    || |Base(name)| > 8 || |Ext(name)| > 3 || |Base(name)| == 0
  }

  /** Base characters usable in a generated short name: spaces and dots are skipped. */
  function Usable(s: seq<byte>): (r: seq<byte>)
    ensures |r| <= |s|
    ensures CString(s) ==> CString(r)
  {
    if s == [] then []
    else if s[0] == SPACE || s[0] == DOT then Usable(s[1..])
    else [Upper(s[0])] + Usable(s[1..])
  }

  function Stem(name: seq<byte>): (r: seq<byte>)
    ensures 1 <= |r| <= 6
  {
    var u := Usable(Base(name));
    if u == [] then [0x5F] else if |u| > 6 then u[..6] else u
  }

  function Digits(k: nat): seq<byte>
    requires k < 100
  {
    if k < 10 then [0x30 + k] else [0x30 + k / 10, 0x30 + k % 10]
  }

  /** generate_short_name with sequence number k. */
  function ShortName(name: seq<byte>, k: nat): (r: seq<byte>)
    requires k < 100
    ensures |r| == 11 && r[0] == Stem(name)[0]
  {
    Padded(Stem(name) + [0x7E] + Digits(k), 8) + Padded(AllUpper(Ext(name)), 3)
  }

  /** First byte of the short entry stored for a name: what tells a live slot from a
      deleted or an unused one. */
  function FirstByte(name: seq<byte>): byte
    requires name != []
  {
    if NeedsLong(name) then Stem(name)[0] else Upper(name[0])
  }

  lemma FirstByteNonZero(name: seq<byte>)
    requires FileName(name)
    ensures name != [] && FirstByte(name) != 0
    ensures !NeedsLong(name) ==> Encode83(name)[0] == FirstByte(name)
  {
    assert CString(Base(name));
  }

  function Checksum(name: seq<byte>): byte
  {
    if name == [] then 0 else Rotate(Checksum(name[..|name| - 1]), name[|name| - 1])
  }

  function Rotate(sum: byte, c: byte): byte { ((if sum % 2 == 1 then 0x80 else 0) + sum / 2 + c) % 256 }

  /** The text of an 8.3 slot as strcasecmp83 builds it: lower case, a dot before a
      non-empty extension, read as a C string. */
  function Text83(e: Slot): seq<byte> {
    var base := AllLower(Until(e[..8], {SPACE}));
    var ext := if e[8] != SPACE then [DOT] + AllLower(Until(e[8..11], {SPACE})) else [];
    Until(base + ext, {0})
  }

  // ---- long-name slots ------------------------------------------------------------

  /** Byte offset in a slot of its i-th character (low half of a UCS-2 unit). */
  function CharPos(i: nat): (r: nat)
    requires i < 13
    ensures r < 32
  {
    if i < 5 then 1 + 2 * i else if i < 11 then 4 + 2 * i else 6 + 2 * i
  }

  function UnitByte(name: seq<byte>, ci: nat, half: nat): byte {
    if ci < |name| then (if half == 0 then name[ci] else 0)
    else if ci == |name| then 0
    else 0xFF
  }

  function LongByte(name: seq<byte>, sum: byte, no: nat, last: bool, b: nat): byte
    requires 1 <= no <= 20
  {
    var base := 13 * (no - 1);
    if b == 0 then no + (if last then 0x40 else 0)
    else if b < 11 then UnitByte(name, base + (b - 1) / 2, (b - 1) % 2)
    else if b == 11 then ATTR_LFN
    else if b == 12 then 0
    else if b == 13 then sum
    else if b < 26 then UnitByte(name, base + 5 + (b - 14) / 2, (b - 14) % 2)
    else if b < 28 then 0
    else UnitByte(name, base + 11 + (b - 28) / 2, (b - 28) % 2)
  }

  /** The slot holding characters 13*(no-1) onwards. */
  function LongSlot(name: seq<byte>, sum: byte, no: nat, last: bool): (r: Slot)
    requires 1 <= no <= 20
    ensures r[0] == no + (if last then 0x40 else 0) && r[11] == ATTR_LFN
    ensures forall i :: 0 <= i < 13 ==> r[CharPos(i)] == UnitByte(name, 13 * (no - 1) + i, 0)
  {
    seq(32, b requires 0 <= b < 32 => LongByte(name, sum, no, last, b))
  }

  function LongCount(name: seq<byte>): nat { (|name| + 12) / 13 }

  /** What build_lfn_entries produces, in disk order: the last fragment first.  A name
      needing more than 20 slots is refused. */
  function LongRun(name: seq<byte>, sum: byte): (r: seq<Slot>)
    ensures |r| == if LongCount(name) > 20 then 0 else LongCount(name)
  {
    if LongCount(name) > 20 then []
    else seq(LongCount(name), n requires 0 <= n < LongCount(name) => LongSlot(name, sum, LongCount(name) - n, n == 0))
  }

  method BuildLong(name: seq<byte>, sum: byte) returns (es: seq<Slot>)
    ensures es == LongRun(name, sum)
  {
    es := [];
    var count := (|name| + 12) / 13;
    if count > 20 { return; }
    for n := 0 to count
      invariant es == LongRun(name, sum)[..n]
    {
      es := es + [LongSlot(name, sum, count - n, n == 0)];
    }
  }

  // ---- collection -----------------------------------------------------------------

  /** The collection buffer, when a long name is being collected. */
  datatype Collecting = Idle | Long(buf: seq<byte>)

  function Cleared(): (r: seq<byte>)
    ensures |r| == MAX_NAME && forall j :: 0 <= j < MAX_NAME ==> r[j] == 0
  {
    seq(MAX_NAME, j => 0)
  }

  /** The copy loop: stops at 13 characters, at the end of the buffer, at 0 and at 0xFF. */
  function PutChars(buf: seq<byte>, base: nat, e: Slot, c: nat): (r: seq<byte>)
    requires |buf| == MAX_NAME && c <= 13
    ensures |r| == MAX_NAME
    decreases 13 - c
  {
    if c == 13 || base + c >= MAX_NAME - 1 || e[CharPos(c)] == 0 || e[CharPos(c)] == 0xFF then buf
    else PutChars(buf[base + c := e[CharPos(c)]], base, e, c + 1)
  }

  method PutSlot(buf: seq<byte>, base: nat, e: Slot) returns (r: seq<byte>)
    requires |buf| == MAX_NAME
    ensures r == PutChars(buf, base, e, 0)
  {
    r := buf;
    var c := 0;
    while c < 13 && base + c < MAX_NAME - 1
      invariant 0 <= c <= 13 && |r| == MAX_NAME
      invariant PutChars(r, base, e, c) == PutChars(buf, base, e, 0)
    {
      if e[CharPos(c)] == 0 || e[CharPos(c)] == 0xFF { break; }
      r := r[base + c := e[CharPos(c)]];
      c := c + 1;
    }
  }

  ghost predicate Ready(st: Collecting) { st.Long? ==> |st.buf| == MAX_NAME }

  function SeqNo(b: byte): nat { b % 32 }
  predicate StartsRun(b: byte) { b / 64 % 2 == 1 }

  /** What one long-name slot does to the collection. */
  function Absorb(st: Collecting, e: Slot): (r: Collecting)
    requires Ready(st)
    ensures Ready(r)
  {
    var no := SeqNo(e[0]);
    var s := if StartsRun(e[0]) then Long(Cleared()) else st;
    if s.Long? && 1 <= no <= 20 then Long(PutChars(s.buf, (no - 1) * 13, e, 0)) else s
  }

  function AbsorbAll(st: Collecting, es: seq<Slot>): (r: Collecting)
    requires Ready(st)
    ensures Ready(r)
  {
    if es == [] then st else Absorb(AbsorbAll(st, es[..|es| - 1]), es[|es| - 1])
  }

  /** The collected name: 0xFF is replaced by 0, then the buffer is read as a C string. */
  function Text(buf: seq<byte>): seq<byte> { Until(buf, {0, 0xFF}) }

  // ---- the round trip -------------------------------------------------------------

  /** The buffer once the characters from `from` on have arrived. */
  function Partial(name: seq<byte>, from: nat): (r: seq<byte>)
    ensures |r| == MAX_NAME
    ensures forall j :: 0 <= j < MAX_NAME ==> r[j] == if from <= j < |name| then name[j] else 0
  {
    seq(MAX_NAME, j => if from <= j < |name| then name[j] else 0)
  }

  /** The buffer while a fragment arrives: characters [from, mid) and [from + 13, ...). */
  function Arriving(name: seq<byte>, from: nat, mid: nat): (r: seq<byte>)
    ensures |r| == MAX_NAME
    ensures forall j :: 0 <= j < MAX_NAME ==> r[j] == if j < |name|
                                              && (from <= j < mid || from + 13 <= j) then name[j] else 0
  {
    seq(MAX_NAME, j => if 0 <= j < |name| && (from <= j < mid || from + 13 <= j) then name[j] else 0)
  }

  ghost predicate Plain(name: seq<byte>) {
    forall i :: 0 <= i < |name| ==> name[i] != 0xFF
  }

  lemma {:induction false} FragmentArrives(name: seq<byte>, sum: byte, no: nat, last: bool, c: nat)
    requires FileName(name) && Plain(name) && 1 <= no <= LongCount(name) && c <= 13
    ensures var from := 13 * (no - 1);
            PutChars(Arriving(name, from, from + c), from, LongSlot(name, sum, no, last), c) == Partial(name, from)
    decreases 13 - c
  {
    var from := 13 * (no - 1);
    var e := LongSlot(name, sum, no, last);
    if from + c < |name| && c < 13 {
      assert e[CharPos(c)] == name[from + c];
      assert Arriving(name, from, from + c)[from + c := name[from + c]] == Arriving(name, from, from + c + 1);
      FragmentArrives(name, sum, no, last, c + 1);
    } else {
      assert c < 13 && from + c == |name| ==> e[CharPos(c)] == 0;
      assert c < 13 && from + c > |name| ==> e[CharPos(c)] == 0xFF;
      assert Arriving(name, from, from + c) == Partial(name, from);
    }
  }

  /** The buffer before fragment `no` arrives. */
  function Awaiting(name: seq<byte>, no: nat): (r: seq<byte>)
    ensures |r| == MAX_NAME
  {
    if no >= LongCount(name) then Cleared() else Partial(name, 13 * no)
  }

  lemma FragmentLands(name: seq<byte>, sum: byte, no: nat, last: bool)
    requires FileName(name) && Plain(name) && 1 <= no <= LongCount(name)
    ensures PutChars(Awaiting(name, no), 13 * (no - 1), LongSlot(name, sum, no, last), 0)
            == Partial(name, 13 * (no - 1))
  {
    var from := 13 * (no - 1);
    assert Awaiting(name, no) == Arriving(name, from, from);
    FragmentArrives(name, sum, no, last, 0);
  }

  /** One slot of the run moves the boundary down by 13 characters. */
  lemma SlotArrives(st: Collecting, name: seq<byte>, sum: byte, no: nat)
    requires Ready(st) && FileName(name) && Plain(name) && 1 <= no <= LongCount(name)
    requires no < LongCount(name) ==> st == Long(Partial(name, 13 * no))
    ensures Absorb(st, LongSlot(name, sum, no, no == LongCount(name))) == Long(Partial(name, 13 * (no - 1)))
  {
    var last := no == LongCount(name);
    FragmentLands(name, sum, no, last);
    AbsorbStep(st, LongSlot(name, sum, no, last), no, last);
  }

  lemma AbsorbStep(st: Collecting, e: Slot, no: nat, last: bool)
    requires Ready(st) && 1 <= no <= 20 && e[0] == no + (if last then 0x40 else 0) && (last || st.Long?)
    ensures Absorb(st, e) == Long(PutChars(if last then Cleared() else st.buf, 13 * (no - 1), e, 0))
  {
    SequenceByte(no, last);
    hide SeqNo, StartsRun;
  }

  lemma SequenceByte(no: nat, last: bool)
    requires 1 <= no <= 20
    ensures var b := no + (if last then 0x40 else 0); SeqNo(b) == no && (StartsRun(b) <==> last)
  {
  }

  lemma {:induction false} RunArrives(st: Collecting, name: seq<byte>, sum: byte, k: nat)
    requires Ready(st) && FileName(name) && Plain(name) && 1 <= k <= LongCount(name)
    ensures AbsorbAll(st, LongRun(name, sum)[..k]) == Long(Partial(name, 13 * (LongCount(name) - k)))
  {
    hide Absorb, Partial;
    var run := LongRun(name, sum);
    if k > 1 { RunArrives(st, name, sum, k - 1); }
    var es := run[..k];
    assert es[..k - 1] == run[..k - 1] && es[k - 1] == run[k - 1];
    SlotArrives(AbsorbAll(st, es[..k - 1]), name, sum, LongCount(name) - (k - 1));
  }

  lemma PartialText(name: seq<byte>)
    requires FileName(name) && Plain(name)
    ensures Text(Partial(name, 0)) == name && Partial(name, 0)[0] != 0
  {
    UntilIs(Partial(name, 0), {0, 0xFF}, |name|);
    assert Partial(name, 0)[..|name|] == name;
  }

  /** Collecting the slots built for a name, whatever was collected before, gives back
      exactly that name, also when its length is a multiple of 13. */
  lemma LongNameRoundTrip(st: Collecting, name: seq<byte>, sum: byte)
    requires Ready(st) && FileName(name) && Plain(name)
    ensures var r := AbsorbAll(st, LongRun(name, sum)); r.Long? && r.buf[0] != 0 && Text(r.buf) == name
  {
    var run := LongRun(name, sum);
    assert run[..|run|] == run;
    RunArrives(st, name, sum, |run|);
    PartialText(name);
  }

  /** Among the names the driver can hold, exactly those without 0xFF survive. */
  lemma ExactlyPlainNamesSurvive(name: seq<byte>, sum: byte)
    requires FileName(name)
    ensures var r := AbsorbAll(Idle, LongRun(name, sum)); r.Long? && Text(r.buf) == name <==> 0xFF !in name
  {
    if 0xFF !in name { LongNameRoundTrip(Idle, name, sum); }
  }
}
