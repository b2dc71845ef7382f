/** Cluster chains of the FAT16 driver (src/fat16.c), on the table as a sequence of
    16-bit entries: allocation, release, and who owns which cluster. */
module FatChains {

  const EOC: nat := 0xFFFF
  const EOC_MIN: nat := 0xFFF8

  /** Every entry names a cluster of the table or ends a chain. */
  ghost predicate InRange(fat: seq<nat>) {
    |fat| <= EOC_MIN && forall c :: 0 <= c < |fat| ==> fat[c] < |fat| || fat[c] >= EOC_MIN
  }

  predicate IsCluster(fat: seq<nat>, c: nat) { 2 <= c < |fat| }

  // ---- chains ---------------------------------------------------------------------

  ghost predicate LinkOk(fat: seq<nat>, cs: seq<nat>, i: nat)
    requires i < |cs|
  {
    && IsCluster(fat, cs[i])
    && if i + 1 < |cs| then fat[cs[i]] == cs[i + 1] else fat[cs[i]] >= EOC_MIN
  }

  ghost predicate Distinct(cs: seq<nat>) {
    forall i, j :: 0 <= i < j < |cs| ==> cs[i] != cs[j]
  }

  /** cs is an acyclic chain: each cluster links to the next and the last one ends it. */
  ghost predicate IsChain(fat: seq<nat>, cs: seq<nat>) {
    cs != [] && Distinct(cs) && forall i :: 0 <= i < |cs| ==> LinkOk(fat, cs, i)
  }

  /** A chain depends only on the entries of its own clusters. */
  lemma ChainFrame(fat: seq<nat>, g: seq<nat>, cs: seq<nat>)
    requires IsChain(fat, cs) && |g| == |fat|
    requires forall c :: c in cs && c < |fat| ==> g[c] == fat[c]
    ensures IsChain(g, cs)
  {
    forall i | 0 <= i < |cs| ensures LinkOk(g, cs, i) {
      assert LinkOk(fat, cs, i);
      assert cs[i] in cs;
    }
  }

  // ---- release --------------------------------------------------------------------

  function ClearAll(fat: seq<nat>, cs: seq<nat>): (r: seq<nat>)
    ensures |r| == |fat|
    ensures forall c :: 0 <= c < |fat| ==> r[c] == if c in cs then 0 else fat[c]
  {
    seq(|fat|, c requires 0 <= c < |fat| => if c in cs then 0 else fat[c])
  }

  function NonZero(fat: seq<nat>): nat {
    if fat == [] then 0 else NonZero(fat[..|fat| - 1]) + if fat[|fat| - 1] != 0 then 1 else 0
  }

  lemma {:induction false} ClearCounts(fat: seq<nat>, c: nat)
    requires c < |fat|
    ensures fat[c] != 0 ==> NonZero(fat[c := 0]) == NonZero(fat) - 1
    ensures fat[c] == 0 ==> fat[c := 0] == fat
  {
    var n := |fat| - 1;
    if c < n {
      ClearCounts(fat[..n], c);
      assert fat[c := 0][..n] == fat[..n][c := 0];
    } else {
      assert fat[c := 0][..n] == fat[..n];
    }
  }

  /** fat_free_chain as a function.  It terminates on every in-range table, even a
      cyclic one: each pass clears a non-zero entry or stops at the next test. */
  function FreeWalk(fat: seq<nat>, c: nat): (r: seq<nat>)
    requires InRange(fat) && (c < |fat| || c >= EOC_MIN)
    ensures |r| == |fat| && InRange(r)
    decreases NonZero(fat), c
  {
    if 2 <= c < EOC_MIN then
      ClearCounts(fat, c);
      FreeWalk(fat[c := 0], fat[c])
    else fat
  }

  /** On a chain it clears exactly the chain. */
  lemma {:induction false} FreeWalkClears(fat: seq<nat>, cs: seq<nat>, i: nat)
    requires InRange(fat) && cs != [] && Distinct(cs) && i < |cs|
    requires forall j :: i <= j < |cs| ==> LinkOk(fat, cs, j)
    ensures cs[i] < |fat| && FreeWalk(fat, cs[i]) == ClearAll(fat, cs[i..])
    decreases |cs| - i
  {
    assert LinkOk(fat, cs, i);
    var next := fat[cs[i] := 0];
    ClearCounts(fat, cs[i]);
    if i + 1 < |cs| {
      forall j | i + 1 <= j < |cs| ensures LinkOk(next, cs, j) { assert LinkOk(fat, cs, j); }
      FreeWalkClears(next, cs, i + 1);
      assert cs[i..] == [cs[i]] + cs[i + 1..];
      assert ClearAll(next, cs[i + 1..]) == ClearAll(fat, cs[i..]);
    } else {
      assert cs[i..] == [cs[i]];
      assert FreeWalk(next, fat[cs[i]]) == next;
      assert next == ClearAll(fat, cs[i..]);
    }
  }

  lemma FreeChainClears(fat: seq<nat>, cs: seq<nat>)
    requires InRange(fat) && IsChain(fat, cs)
    ensures cs[0] < |fat| && FreeWalk(fat, cs[0]) == ClearAll(fat, cs)
  {
    FreeWalkClears(fat, cs, 0);
    assert cs[0..] == cs;
  }

  // ---- allocation -----------------------------------------------------------------

  /** First free cluster from c on; |fat| when the table is full. */
  function FirstFree(fat: seq<nat>, c: nat): (r: nat)
    requires c <= |fat|
    ensures c <= r <= |fat|
    ensures r < |fat| ==> fat[r] == 0
    ensures forall d :: c <= d < r ==> fat[d] != 0
    decreases |fat| - c
  {
    if c == |fat| || fat[c] == 0 then c else FirstFree(fat, c + 1)
  }

  /** `ok` tells whether all requested clusters were found; cs are those taken. */
  datatype Allocation = Allocation(ok: bool, fat: seq<nat>, cs: seq<nat>)

  /** The allocation loop of fat16_write_file after n rounds. */
  function Allocate(fat: seq<nat>, n: nat): (a: Allocation)
    requires |fat| >= 2
    ensures |a.fat| == |fat| && (a.ok ==> |a.cs| == n) && |a.cs| <= n
    ensures forall i :: 0 <= i < |a.cs| ==> a.cs[i] < |fat|
  {
    if n == 0 then Allocation(true, fat, [])
    else
      var a := Allocate(fat, n - 1);
      if !a.ok then a
      else
        var c := FirstFree(a.fat, 2);
        if c == |fat| then a.(ok := false)
        else
          var f := a.fat[c := EOC];
          Allocation(true, if a.cs == [] then f else f[a.cs[|a.cs| - 1] := c], a.cs + [c])
  }

  /** What allocation has done: the clusters were free, now form one chain, and nothing
      else changed; when it gives up, nothing is free any more. */
  ghost predicate Allocated(fat: seq<nat>, a: Allocation) {
    && |a.fat| == |fat|
    && (a.cs != [] ==> IsChain(a.fat, a.cs))
    && (forall c :: c in a.cs ==> IsCluster(fat, c) && fat[c] == 0)
    && (forall c :: 0 <= c < |fat| && c !in a.cs ==> a.fat[c] == fat[c])
    && (!a.ok ==> forall c :: 2 <= c < |fat| ==> a.fat[c] != 0)
  }

  lemma {:induction false} AllocateMeaning(fat: seq<nat>, n: nat)
    requires InRange(fat) && |fat| >= 2
    ensures Allocated(fat, Allocate(fat, n)) && InRange(Allocate(fat, n).fat)
  {
    if n > 0 {
      AllocateMeaning(fat, n - 1);
      var a := Allocate(fat, n - 1);
      var c := FirstFree(a.fat, 2);
      if a.ok && c < |fat| { ExtendChain(fat, a, c); }
    }
  }

  lemma ExtendChain(fat: seq<nat>, a: Allocation, c: nat)
    requires InRange(fat) && InRange(a.fat) && Allocated(fat, a) && a.ok && IsCluster(fat, c) && a.fat[c] == 0
    ensures a.cs != [] ==> a.cs[|a.cs| - 1] < |fat|
    ensures var f := a.fat[c := EOC];
            var g := if a.cs == [] then f else f[a.cs[|a.cs| - 1] := c];
            Allocated(fat, Allocation(true, g, a.cs + [c])) && InRange(g)
  {
    var m := |a.cs|;
    if m > 0 { assert LinkOk(a.fat, a.cs, m - 1); }
    var f := a.fat[c := EOC];
    var g := if m == 0 then f else f[a.cs[m - 1] := c];
    var cs := a.cs + [c];
    forall i | 0 <= i < m ensures a.cs[i] != c {
      assert LinkOk(a.fat, a.cs, i);
      assert i + 1 < m ==> LinkOk(a.fat, a.cs, i + 1);
    }
    forall i | 0 <= i < |cs| ensures LinkOk(g, cs, i) {
      if i < m { assert LinkOk(a.fat, a.cs, i); }
    }
    assert fat[c] == 0 by { assert c !in a.cs; }
    forall d | d in cs ensures IsCluster(fat, d) && fat[d] == 0 { if d != c { assert d in a.cs; } }
    forall d | 0 <= d < |fat| && d !in cs ensures g[d] == fat[d] {
      assert d !in a.cs && d != c;
      if m > 0 { assert a.cs[m - 1] in a.cs; }
    }
  }

  /** Giving the clusters back restores the table exactly. */
  lemma ReleaseUndoesAllocate(fat: seq<nat>, n: nat)
    requires InRange(fat) && |fat| >= 2 && Allocate(fat, n).cs != []
    ensures var a := Allocate(fat, n); InRange(a.fat) && a.cs[0] < |fat| && FreeWalk(a.fat, a.cs[0]) == fat
  {
    AllocateMeaning(fat, n);
    var a := Allocate(fat, n);
    assert LinkOk(a.fat, a.cs, 0);
    FreeChainClears(a.fat, a.cs);
    assert ClearAll(a.fat, a.cs) == fat;
  }

  // ---- ownership ------------------------------------------------------------------

  ghost predicate Apart(a: seq<nat>, b: seq<nat>) { forall c :: c in a ==> c !in b }

  ghost predicate OwnedCluster(chains: map<nat, seq<nat>>, c: nat) {
    exists s :: s in chains && c in chains[s]
  }

  ghost predicate AllChains(fat: seq<nat>, chains: map<nat, seq<nat>>) {
    forall s :: s in chains ==> IsChain(fat, chains[s])
  }

  ghost predicate PairwiseApart(chains: map<nat, seq<nat>>) {
    forall s, t :: s in chains && t in chains && s != t ==> Apart(chains[s], chains[t])
  }

  ghost predicate CoversUsed(fat: seq<nat>, chains: map<nat, seq<nat>>) {
    forall c :: 2 <= c < |fat| ==> (fat[c] != 0 <==> OwnedCluster(chains, c))
  }

  /** Live chains are acyclic, pairwise disjoint, and together cover exactly the data
      clusters that are not free. */
  ghost predicate Owns(fat: seq<nat>, chains: map<nat, seq<nat>>) {
    InRange(fat) && |fat| >= 2 && AllChains(fat, chains) && PairwiseApart(chains) && CoversUsed(fat, chains)
  }

  /** Freeing one chain leaves the ownership of all the others as it was. */
  lemma ReleaseKeepsOwnership(fat: seq<nat>, chains: map<nat, seq<nat>>, s: nat)
    requires Owns(fat, chains) && s in chains
    ensures chains[s] != [] && chains[s][0] < |fat|
    ensures FreeWalk(fat, chains[s][0]) == ClearAll(fat, chains[s])
    ensures Owns(FreeWalk(fat, chains[s][0]), chains - {s})
  {
    FreeChainClears(fat, chains[s]);
    assert InRange(ClearAll(fat, chains[s]));
    hide FreeWalk, IsChain, CoversUsed, InRange, Apart, ClearAll;
    ReleasedChains(fat, chains, s);
    ReleasedCover(fat, chains, s);
  }

  lemma ReleasedChains(fat: seq<nat>, chains: map<nat, seq<nat>>, s: nat)
    requires AllChains(fat, chains) && PairwiseApart(chains) && s in chains
    ensures AllChains(ClearAll(fat, chains[s]), chains - {s})
  {
    forall t | t in chains && t != s ensures IsChain(ClearAll(fat, chains[s]), chains[t]) {
      assert Apart(chains[t], chains[s]);
      assert IsChain(fat, chains[t]);
      hide IsChain;
      ChainFrame(fat, ClearAll(fat, chains[s]), chains[t]);
    }
  }

  lemma ReleasedCover(fat: seq<nat>, chains: map<nat, seq<nat>>, s: nat)
    requires Owns(fat, chains) && s in chains
    ensures CoversUsed(ClearAll(fat, chains[s]), chains - {s})
  {
    hide Owns, OwnedCluster;
    forall c | 2 <= c < |fat|
      ensures ClearAll(fat, chains[s])[c] != 0 <==> OwnedCluster(chains - {s}, c)
    { ReleasedCluster(fat, chains, s, c); }
  }

  lemma ReleasedCluster(fat: seq<nat>, chains: map<nat, seq<nat>>, s: nat, c: nat)
    requires Owns(fat, chains) && s in chains && 2 <= c < |fat|
    ensures ClearAll(fat, chains[s])[c] != 0 <==> OwnedCluster(chains - {s}, c)
  {
    hide IsChain;
    var rest := chains - {s};
    if OwnedCluster(rest, c) {
      var t :| t in rest && c in rest[t];
      assert Apart(chains[t], chains[s]) && t in chains && OwnedCluster(chains, c);
    }
    if OwnedCluster(chains, c) && c !in chains[s] {
      var t :| t in chains && c in chains[t];
      assert t in rest && c in rest[t];
    }
  }

  /** A cluster of a live chain is in use. */
  lemma OwnedIsUsed(fat: seq<nat>, chains: map<nat, seq<nat>>, s: nat, c: nat)
    requires Owns(fat, chains) && s in chains && c in chains[s]
    ensures IsCluster(fat, c) && fat[c] != 0
  {
    assert IsChain(fat, chains[s]);
    var i :| 0 <= i < |chains[s]| && chains[s][i] == c;
    assert LinkOk(fat, chains[s], i);
    assert OwnedCluster(chains, c);
  }

  /** Newly allocated clusters belong to nobody else, whose chains stay as they are. */
  lemma AllocateApart(fat: seq<nat>, chains: map<nat, seq<nat>>, a: Allocation, t: nat)
    requires Owns(fat, chains) && t in chains && Allocated(fat, a)
    ensures Apart(chains[t], a.cs) && IsChain(a.fat, chains[t])
  {
    forall c | c in chains[t] ensures c !in a.cs {
      hide IsChain, CoversUsed;
      OwnedIsUsed(fat, chains, t, c);
    }
    assert IsChain(fat, chains[t]);
    hide IsChain, CoversUsed;
    ChainFrame(fat, a.fat, chains[t]);
  }

  lemma AllocateKeepsOwnership(fat: seq<nat>, chains: map<nat, seq<nat>>, n: nat, s: nat)
    requires Owns(fat, chains) && s !in chains && n > 0 && Allocate(fat, n).ok
    ensures Owns(Allocate(fat, n).fat, chains[s := Allocate(fat, n).cs])
    ensures IsChain(Allocate(fat, n).fat, Allocate(fat, n).cs)
    ensures forall t :: t in chains ==> Apart(chains[t], Allocate(fat, n).cs)
  {
    AllocateMeaning(fat, n);
    var a := Allocate(fat, n);
    var all := chains[s := a.cs];
    hide Allocate;
    forall t | t in chains
      ensures Apart(chains[t], a.cs) && IsChain(a.fat, chains[t])
    {
      AllocateApart(fat, chains, a, t);
    }
    assert PairwiseApart(all) by { hide IsChain, CoversUsed; }
    forall c | 2 <= c < |a.fat|
      ensures a.fat[c] != 0 <==> OwnedCluster(all, c)
    {
      AllocatedCluster(fat, chains, a, s, c);
    }
  }

  lemma AllocatedCluster(fat: seq<nat>, chains: map<nat, seq<nat>>, a: Allocation, s: nat, c: nat)
    requires Owns(fat, chains) && s !in chains && Allocated(fat, a) && a.cs != [] && 2 <= c < |fat|
    ensures a.fat[c] != 0 <==> OwnedCluster(chains[s := a.cs], c)
  {
    var all := chains[s := a.cs];
    if c in a.cs {
      var i :| 0 <= i < |a.cs| && a.cs[i] == c;
      assert LinkOk(a.fat, a.cs, i);
      assert i + 1 < |a.cs| ==> LinkOk(a.fat, a.cs, i + 1);
      assert s in all && c in all[s];
    } else if OwnedCluster(all, c) {
      hide IsChain;
      var t :| t in all && c in all[t];
      assert t in chains && c in chains[t];
    }
    if OwnedCluster(chains, c) {
      var t :| t in chains && c in chains[t];
      assert t in all && c in all[t];
    }
  }

  /** A chain just allocated ends with the mark 0xFFFF, and its clusters were free, that is 0. */
  lemma {:induction false} AllocateEnds(fat: seq<nat>, n: nat)
    requires InRange(fat) && |fat| >= 2 && n > 0 && Allocate(fat, n).ok
    ensures var a := Allocate(fat, n);
            a.fat[a.cs[n - 1]] == 0xFFFF && forall i :: 0 <= i < n ==> fat[a.cs[i]] == 0x0000
  {
    AllocateMeaning(fat, n);
    var a := Allocate(fat, n);
    forall i | 0 <= i < n ensures fat[a.cs[i]] == 0 { assert a.cs[i] in a.cs; }
    if n > 1 { LastIsNew(fat, n); }
  }

  lemma LastIsNew(fat: seq<nat>, n: nat)
    requires InRange(fat) && |fat| >= 2 && n > 1 && Allocate(fat, n).ok
    ensures var a := Allocate(fat, n); a.cs[n - 2] != a.cs[n - 1]
  {
    AllocateMeaning(fat, n);
  }
}
