/** Data runs of NTFS attributes (src/ntfs.c): the run-list encoding of where a file's
    clusters lie, its parser and its encoder. */
module NtfsRuns {
  import opened Bits
  import opened LittleEndian

  const MAX_DATA_RUNS: nat := 256
  const TWO63: nat := 0x8000_0000_0000_0000
  const TWO64: nat := 0x1_0000_0000_0000_0000

  // ---- little-endian numbers ---------------------------------------------------------------

  function Pow256(n: nat): (p: nat)
    ensures p > 0 && (n > 0 ==> p % 256 == 0)
  {
    if n == 0 then 1 else 256 * Pow256(n - 1)
  }

  function FromLe(s: seq<byte>): (v: nat) {
    if s == [] then 0 else s[0] as int + 256 * FromLe(s[1..])
  }

  lemma {:induction false} LeRoundTrip(v: nat, n: nat)
    requires v < Pow256(n)
    ensures FromLe(Le(v, n)) == v
  {
    if n > 0 {
      assert Le(v, n)[1..] == Le(v / 256, n - 1);
      LeRoundTrip(v / 256, n - 1);
    }
  }

  /** Appending a byte adds it at the next position: the accumulation of the read loops. */
  lemma {:induction false} FromLeAppend(s: seq<byte>, b: byte)
    ensures FromLe(s + [b]) == FromLe(s) + b as int * Pow256(|s|)
  {
    if s == [] {
      assert [b][1..] == [];
    } else {
      assert (s + [b])[1..] == s[1..] + [b];
      FromLeAppend(s[1..], b);
      var x, p := b as int, Pow256(|s| - 1);
      assert 256 * (x * p) == x * (256 * p);
    }
  }

  /** Two's complement of n bytes. */
  function Signed(raw: nat, n: nat): int {
    if raw >= Pow256(n) / 2 then raw - Pow256(n) else raw
  }

  function Unsigned(x: int, n: nat): (r: nat)
    requires -(Pow256(n) / 2) <= x < Pow256(n) / 2
    ensures r < Pow256(n)
  {
    if x < 0 then x + Pow256(n) else x
  }

  lemma SignedRoundTrip(x: int, n: nat)
    requires n > 0 && -(Pow256(n) / 2) <= x < Pow256(n) / 2
    ensures Signed(Unsigned(x, n), n) == x
  {
  }

  function U64(x: int): (r: nat) { x % TWO64 }

  predicate InI64(x: int) { -(TWO63 as int) <= x < TWO63 }

  // ---- the parser ----------------------------------------------------------------------------

  datatype Run = Run(vcn: nat, lcn: nat, length: nat)

  /** Undefined stands for the inputs on which the C code shifts by 64 bits or more or
      overflows a signed number. */
  datatype Parsed = Parsed(runs: seq<Run>, total: nat) | Undefined

  function ParseFrom(b: seq<byte>, pos: nat, prev: int, runs: seq<Run>, total: nat): Parsed
    requires pos <= |b|
    decreases |b| - pos
  {
    if pos == |b| || b[pos] == 0 || |runs| >= MAX_DATA_RUNS then Parsed(runs, total)
    else
      var lb, ob := b[pos] % 16, b[pos] / 16;
      var mid := pos + 1 + lb;
      if lb == 0 || mid + ob > |b| then Parsed(runs, total)
      else if lb > 8 then Undefined
      else
        var len := FromLe(b[pos + 1..mid]);
        if ob == 0 then ParseFrom(b, mid, prev, runs, U64(total + len))
        else if ob > 8 then Undefined
        else
          var raw := FromLe(b[mid..mid + ob]);
          var lcn := prev + Signed(raw, ob);
          if (ob == 8 && raw >= TWO63) || !InI64(lcn) then Undefined
          else ParseFrom(b, mid + ob, lcn, runs + [Run(total, U64(lcn), len)], U64(total + len))
  }

  function Parse(b: seq<byte>): Parsed { ParseFrom(b, 0, 0, [], 0) }

  method ReadLe(b: seq<byte>, pos: nat, n: nat) returns (v: nat)
    requires pos + n <= |b|
    ensures v == FromLe(b[pos..pos + n])
  {
    v := 0;
    var p := 1;
    for i := 0 to n
      invariant v == FromLe(b[pos..pos + i]) && p == Pow256(i)
    {
      FromLeAppend(b[pos..pos + i], b[pos + i]);
      assert b[pos..pos + (i + 1)] == b[pos..pos + i] + [b[pos + i]];
      v := v + b[pos + i] as int * p;
      p := 256 * p;
    }
  }

  /** parse_data_runs on the run bytes of a non-resident attribute. */
  method ParseDataRuns(b: seq<byte>) returns (ok: bool, runs: seq<Run>, total: nat)
    requires Parse(b).Parsed?
    ensures Parsed(runs, total) == Parse(b) && (ok <==> runs != [])
  {
    hide FromLe, Pow256, Signed, U64, InI64;
    runs, total := [], 0;
    var pos := 0;
    var prev := 0;
    while pos < |b| && b[pos] != 0 && |runs| < MAX_DATA_RUNS
      invariant pos <= |b| && ParseFrom(b, pos, prev, runs, total) == Parse(b)
      decreases |b| - pos
    {
      var lb, ob := b[pos] % 16, b[pos] / 16;
      if lb == 0 || pos + 1 + lb + ob > |b| { break; }
      var len := ReadLe(b, pos + 1, lb);
      if ob == 0 {
        pos, total := pos + 1 + lb, U64(total + len);
        continue;
      }
      var raw := ReadLe(b, pos + 1 + lb, ob);
      prev := prev + Signed(raw, ob);
      runs := runs + [Run(total, U64(prev), len)];
      pos, total := pos + 1 + lb + ob, U64(total + len);
    }
    ok := runs != [];
  }

  // ---- run lists --------------------------------------------------------------------------------

  /** One run as stored: a length in lb bytes and a signed distance to the previous run's
      first cluster in ob bytes. */
  datatype Field = Field(lb: nat, len: nat, ob: nat, delta: int)

  ghost predicate FieldOk(f: Field) {
    && 1 <= f.lb <= 8 && f.len < Pow256(f.lb)
    && 1 <= f.ob <= 8 && -(Pow256(f.ob) / 2) <= f.delta < Pow256(f.ob) / 2 && (f.ob == 8 ==> f.delta >= 0)
  }

  ghost function FieldBytes(f: Field): (r: seq<byte>)
    requires FieldOk(f)
    ensures |r| == 1 + f.lb + f.ob
  {
    [f.ob * 16 + f.lb] + Le(f.len, f.lb) + Le(Unsigned(f.delta, f.ob), f.ob)
  }

  ghost function ListBytes(fs: seq<Field>): seq<byte>
    requires forall i :: 0 <= i < |fs| ==> FieldOk(fs[i])
  {
    if fs == [] then [] else FieldBytes(fs[0]) + ListBytes(fs[1..])
  }

  ghost function LenSum(fs: seq<Field>, k: nat): nat
    requires k <= |fs|
  {
    if k == 0 then 0 else LenSum(fs, k - 1) + fs[k - 1].len
  }

  ghost function DeltaSum(fs: seq<Field>, k: nat): int
    requires k <= |fs|
  {
    if k == 0 then 0 else DeltaSum(fs, k - 1) + fs[k - 1].delta
  }

  /** The runs a list stands for: absolute clusters, and virtual clusters counted up. */
  ghost function RunsOf(fs: seq<Field>, k: nat): (r: seq<Run>)
    requires k <= |fs|
    ensures |r| == k
  {
    if k == 0 then []
    else RunsOf(fs, k - 1) + [Run(U64(LenSum(fs, k - 1)), U64(DeltaSum(fs, k)), fs[k - 1].len)]
  }

  // ---- parsing a list ------------------------------------------------------------------------

  lemma Pow256Eight()
    ensures Pow256(8) == TWO64 && Pow256(7) == 0x100_0000_0000_0000
  {
    assert Pow256(4) == 0x1_0000_0000;
  }

  lemma U64Add(a: int, b: int)
    ensures U64(U64(a) + b) == U64(a + b)
  {
  }

  lemma FieldParts(f: Field)
    requires FieldOk(f)
    ensures var r := FieldBytes(f);
            && r[0] % 16 == f.lb && r[0] / 16 == f.ob && r[0] != 0
            && FromLe(r[1..1 + f.lb]) == f.len && FromLe(r[1 + f.lb..]) == Unsigned(f.delta, f.ob)
            && Signed(Unsigned(f.delta, f.ob), f.ob) == f.delta
            && (f.ob == 8 ==> Unsigned(f.delta, f.ob) < TWO63)
  {
    Pow256Eight();
    hide Pow256, Le, FromLe;
    var r := FieldBytes(f);
    assert r[1..1 + f.lb] == Le(f.len, f.lb);
    assert r[1 + f.lb..] == Le(Unsigned(f.delta, f.ob), f.ob);
    LeRoundTrip(f.len, f.lb);
    LeRoundTrip(Unsigned(f.delta, f.ob), f.ob);
    SignedRoundTrip(f.delta, f.ob);
  }

  lemma ParseField(b: seq<byte>, pos: nat, prev: int, runs: seq<Run>, total: nat, f: Field)
    requires FieldOk(f) && |runs| < MAX_DATA_RUNS && InI64(prev + f.delta)
    requires pos + 1 + f.lb + f.ob <= |b| && b[pos..pos + 1 + f.lb + f.ob] == FieldBytes(f)
    ensures ParseFrom(b, pos, prev, runs, total)
            == ParseFrom(b, pos + 1 + f.lb + f.ob, prev + f.delta,
                         runs + [Run(total, U64(prev + f.delta), f.len)], U64(total + f.len))
  {
    hide Pow256, Le, FromLe, FieldBytes, Signed, Unsigned;
    FieldParts(f);
    var n := 1 + f.lb + f.ob;
    assert b[pos] == b[pos..pos + n][0];
    SubSlice(b, pos, n, 1, 1 + f.lb);
    SubSlice(b, pos, n, 1 + f.lb, n);
  }

  lemma SubSlice(b: seq<byte>, pos: nat, n: nat, i: nat, j: nat)
    requires pos + n <= |b| && i <= j <= n
    ensures b[pos..pos + n][i..j] == b[pos + i..pos + j]
  {
    var s := b[pos..pos + n];
    assert forall t :: 0 <= t < j - i ==> s[i..j][t] == s[i + t] == b[pos + i..pos + j][t];
  }

  lemma SplitTail(b: seq<byte>, pos: nat, x: seq<byte>, y: seq<byte>, z: seq<byte>)
    requires pos <= |b| && b[pos..] == x + y + z
    ensures pos + |x| <= |b| && b[pos..pos + |x|] == x && b[pos + |x|..] == y + z
  {
    assert b[pos..][..|x|] == x && b[pos..][|x|..] == y + z;
  }

  lemma ListHead(fs: seq<Field>, k: nat)
    requires k < |fs| && forall i :: 0 <= i < |fs| ==> FieldOk(fs[i])
    ensures ListBytes(fs[k..]) == FieldBytes(fs[k]) + ListBytes(fs[k + 1..])
  {
    assert fs[k..][0] == fs[k] && fs[k..][1..] == fs[k + 1..];
  }

  ghost predicate ListOk(fs: seq<Field>) {
    && |fs| <= MAX_DATA_RUNS
    && (forall i :: 0 <= i < |fs| ==> FieldOk(fs[i]))
    && (forall k :: 0 <= k <= |fs| ==> InI64(DeltaSum(fs, k)))
  }

  lemma {:induction false} ParseRest(b: seq<byte>, pos: nat, fs: seq<Field>, k: nat, tail: seq<byte>)
    requires ListOk(fs) && k <= |fs| && pos <= |b| && b[pos..] == ListBytes(fs[k..]) + tail
    requires tail == [] || tail[0] == 0 || |fs| == MAX_DATA_RUNS
    ensures ParseFrom(b, pos, DeltaSum(fs, k), RunsOf(fs, k), U64(LenSum(fs, k)))
            == Parsed(RunsOf(fs, |fs|), U64(LenSum(fs, |fs|)))
    decreases |fs| - k
  {
    hide FieldBytes, U64, InI64, FieldOk, ParseFrom, ListBytes;
    if k == |fs| {
      assert fs[k..] == [];
      ParseStops(b, pos, DeltaSum(fs, k), RunsOf(fs, k), U64(LenSum(fs, k)), tail);
    } else {
      var n := |FieldBytes(fs[k])|;
      ListHead(fs, k);
      SplitTail(b, pos, FieldBytes(fs[k]), ListBytes(fs[k + 1..]), tail);
      assert InI64(DeltaSum(fs, k + 1));
      ParseField(b, pos, DeltaSum(fs, k), RunsOf(fs, k), U64(LenSum(fs, k)), fs[k]);
      U64Add(LenSum(fs, k), fs[k].len);
      ParseRest(b, pos + n, fs, k + 1, tail);
    }
  }

  lemma ParseStops(b: seq<byte>, pos: nat, prev: int, runs: seq<Run>, total: nat, tail: seq<byte>)
    requires pos <= |b| && b[pos..] == ListBytes([]) + tail && (tail == [] || tail[0] == 0 || |runs| == MAX_DATA_RUNS)
    ensures ParseFrom(b, pos, prev, runs, total) == Parsed(runs, total)
  {
    assert b[pos..] == tail;
    assert pos < |b| ==> b[pos] == b[pos..][0];
  }

  /** Parsing a stored run list recovers every absolute cluster number, with virtual
      cluster numbers equal to the sums of the lengths in front. */
  lemma ListParses(fs: seq<Field>, tail: seq<byte>)
    requires ListOk(fs) && (tail == [] || tail[0] == 0 || |fs| == MAX_DATA_RUNS)
    ensures Parse(ListBytes(fs) + tail) == Parsed(RunsOf(fs, |fs|), U64(LenSum(fs, |fs|)))
  {
    hide ParseFrom, ListBytes, FieldOk, InI64;
    assert fs[0..] == fs;
    var b := ListBytes(fs) + tail;
    assert b[0..] == b;
    ParseRest(b, 0, fs, 0, tail);
  }

  lemma {:induction false} RunsOfAt(fs: seq<Field>, n: nat, k: nat)
    requires k < n <= |fs|
    ensures RunsOf(fs, n)[k] == Run(U64(LenSum(fs, k)), U64(DeltaSum(fs, k + 1)), fs[k].len)
  {
    if k < n - 1 { RunsOfAt(fs, n - 1, k); }
  }

  /** Distances of at most seven bytes never overflow: no further condition is needed. */
  lemma SevenByteListOk(fs: seq<Field>)
    requires |fs| <= MAX_DATA_RUNS && forall i :: 0 <= i < |fs| ==> FieldOk(fs[i]) && fs[i].ob <= 7
    ensures ListOk(fs)
  {
    Pow256Eight();
    forall k | 0 <= k <= |fs| ensures InI64(DeltaSum(fs, k)) { DeltaBound(fs, k); }
  }

  lemma {:induction false} DeltaBound(fs: seq<Field>, k: nat)
    requires k <= |fs| && forall i :: 0 <= i < |fs| ==> FieldOk(fs[i]) && fs[i].ob <= 7
    ensures -(k * 0x80_0000_0000_0000) <= DeltaSum(fs, k) && (k == 0 || DeltaSum(fs, k) < k * 0x80_0000_0000_0000)
  {
    if k > 0 {
      Pow256Eight();
      Pow256Monotone(fs[k - 1].ob, 7);
      DeltaBound(fs, k - 1);
    }
  }

  lemma {:induction false} Pow256Monotone(a: nat, b: nat)
    requires a <= b
    ensures Pow256(a) <= Pow256(b)
  {
    if a < b { Pow256Monotone(a, b - 1); }
  }

  // ---- the encoder ---------------------------------------------------------------------------

  /** Bytes needed for v; 0 for 0. */
  function ByteLen(v: nat): (n: nat)
    ensures v < Pow256(n) && (n > 0 ==> v >= Pow256(n - 1))
    decreases v
  {
    if v == 0 then 0 else 1 + ByteLen(v / 256)
  }

  function LengthWidth(length: nat): nat { if ByteLen(length) == 0 then 1 else ByteLen(length) }

  /** One byte more when the top bit is set, which would read as a negative number. */
  function OffsetWidth(lcn: nat): nat {
    var ob := if ByteLen(lcn) == 0 then 1 else ByteLen(lcn);
    if lcn != 0 && lcn / Pow256(ob - 1) % 256 >= 128 then ob + 1 else ob
  }

  function EncodeRun(lcn: nat, length: nat): seq<byte>
    requires OffsetWidth(lcn) < 16 && LengthWidth(length) < 16
  {
    [OffsetWidth(lcn) * 16 + LengthWidth(length)] + Le(length, LengthWidth(length)) + Le(lcn, OffsetWidth(lcn))
  }

  method CountBytes(v: nat) returns (n: nat)
    ensures n == ByteLen(v)
  {
    n := 0;
    var w := v;
    while w != 0
      invariant n + ByteLen(w) == ByteLen(v)
    {
      n := n + 1;
      w := w / 256;
    }
  }

  method PutBytes(out: seq<byte>, v: nat, n: nat) returns (r: seq<byte>)
    ensures r == out + Le(v, n)
  {
    r := out;
    var w := v;
    for i := 0 to n
      invariant r + Le(w, n - i) == out + Le(v, n)
    {
      assert r + Le(w, n - i) == (r + [w % 256]) + Le(w / 256, n - i - 1);
      r := r + [w % 256];
      w := w / 256;
    }
    assert r + [] == r;
  }

  /** encode_data_run. */
  method EncodeDataRun(lcn: nat, length: nat) returns (out: seq<byte>)
    requires lcn < TWO64 && length < TWO64
    ensures OffsetWidth(lcn) < 16 && LengthWidth(length) < 16 && out == EncodeRun(lcn, length)
  {
    hide Pow256, Le, ByteLen;
    WidthBound(lcn);
    WidthBound(length);
    var lb := CountBytes(length);
    if lb == 0 { lb := 1; }
    var ob := CountBytes(lcn);
    if ob == 0 { ob := 1; }
    if lcn != 0 && lcn / Pow256(ob - 1) % 256 >= 128 { ob := ob + 1; }
    out := [ob * 16 + lb];
    out := PutBytes(out, length, lb);
    out := PutBytes(out, lcn, ob);
  }

  lemma WidthBound(v: nat)
    requires v < TWO64
    ensures ByteLen(v) <= 8
  {
    Pow256Eight();
    if ByteLen(v) > 8 { Pow256Monotone(8, ByteLen(v) - 1); }
  }

  /** The width chosen for an offset below 2^63 holds it as a signed number. */
  lemma OffsetFits(lcn: nat)
    requires lcn < TWO63
    ensures 1 <= OffsetWidth(lcn) <= 8 && lcn < Pow256(OffsetWidth(lcn)) / 2
  {
    Pow256Eight();
    WidthBound(lcn);
    var n := ByteLen(lcn);
    if lcn != 0 {
      TopByte(lcn, n);
      assert Pow256(n) == 256 * Pow256(n - 1) && Pow256(n + 1) == 256 * Pow256(n);
      if n == 8 { TopByteSmall(lcn); }
    }
  }

  lemma TopByte(v: nat, n: nat)
    requires n >= 1 && v < Pow256(n)
    ensures v / Pow256(n - 1) < 256 && (v / Pow256(n - 1) < 128 <==> v < 128 * Pow256(n - 1))
  {
    var p := Pow256(n - 1);
    DivBelow(v, p, 256);
    DivBelow(v, p, 128);
  }

  lemma TopByteSmall(v: nat)
    requires v < TWO63
    ensures v / Pow256(7) < 128
  {
    Pow256Eight();
    DivBelow(v, Pow256(7), 128);
  }

  lemma DivBelow(v: nat, p: nat, k: nat)
    requires p > 0
    ensures v / p < k <==> v < k * p
  {
    if v / p >= k { MulMonotone(k, v / p, p); } else { MulMonotone(v / p + 1, k, p); }
  }

  /** Parsing the encoding of a run gives it back, for every length and every cluster
      number below 2^63. */
  lemma EncodedRunParses(lcn: nat, length: nat, tail: seq<byte>)
    requires lcn < TWO63 && length < TWO64 && (tail == [] || tail[0] == 0)
    ensures OffsetWidth(lcn) < 16 && LengthWidth(length) < 16
    ensures Parse(EncodeRun(lcn, length) + tail) == Parsed([Run(0, lcn, length)], length)
  {
    OffsetFits(lcn);
    WidthBound(length);
    SingleList(lcn, length);
    hide FieldOk, OffsetWidth, LengthWidth, EncodeRun, ListBytes, ListOk, RunsOf, LenSum, Parse;
    ListParses([Field(LengthWidth(length), length, OffsetWidth(lcn), lcn)], tail);
  }

  /** The encoding is a list of one field. */
  lemma SingleList(lcn: nat, length: nat)
    requires lcn < TWO63 && length < TWO64
    ensures OffsetWidth(lcn) < 16 && LengthWidth(length) < 16
    ensures var fs := [Field(LengthWidth(length), length, OffsetWidth(lcn), lcn)];
            && ListOk(fs) && ListBytes(fs) == EncodeRun(lcn, length)
            && RunsOf(fs, |fs|) == [Run(0, lcn, length)] && U64(LenSum(fs, |fs|)) == length
  {
    hide Pow256, OffsetWidth, LengthWidth, Le;
    OffsetFits(lcn);
    LengthFits(length);
    var f := Field(LengthWidth(length), length, OffsetWidth(lcn), lcn);
    var fs := [f];
    assert FieldOk(f);
    assert DeltaSum(fs, 0) == 0 && DeltaSum(fs, 1) == lcn && LenSum(fs, 0) == 0 && LenSum(fs, 1) == length;
    assert fs[1..] == [];
    assert ListBytes(fs) == FieldBytes(f) + [];
    assert RunsOf(fs, 0) == [];
    assert RunsOf(fs, 1) == [Run(U64(0), U64(lcn), length)];
  }

  lemma LengthFits(length: nat)
    requires length < TWO64
    ensures 1 <= LengthWidth(length) <= 8 && length < Pow256(LengthWidth(length))
  {
    WidthBound(length);
  }
}
