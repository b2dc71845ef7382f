/** Whole sessions with the mounted FAT16 volume (src/fat16.c). */
module FatHistory {
  import opened FatNames
  import opened FatVolume
  import opened FatDisk
  import opened FatTheorems
  import opened FatReadWrite
  import opened FatDriver

  /** Carries any list of writes and deletes out on the disk.  Afterwards the volume is the
      one the list describes, the two copies of the table are still equal, and the chains of
      the live files are acyclic, disjoint and cover exactly the used clusters. */
  method RunOps(vol: Volume, ops: seq<Op>, ghost chains: map<nat, seq<nat>>) returns (ghost c2: map<nat, seq<nat>>)
    requires vol.Ok() && Mirrored(vol.g, vol.disk) && Inv(vol.g.spc, vol.V(), chains)
    requires forall i :: 0 <= i < |ops| ==> Callable(ops[i])
    requires forall i :: 0 <= i < |ops| && ops[i].Write? && ops[i].name != [] ==> FirstByte(ops[i].name) != DELETED
    modifies vol
    ensures vol.Ok() && old(Sane(vol.g.spc, vol.V())) && vol.V() == History(vol.g.spc, old(vol.V()), ops)
    ensures Mirrored(vol.g, vol.disk)
    ensures Inv(vol.g.spc, vol.V(), c2) && SameForeign(|vol.V().root|, chains, c2)
  {
    hide Inv, Sane, Callable, FirstByte, Mirrored, Fits, Volume.V, Apply, SameForeign, History;
    ghost var v := vol.V();
    InvParts(vol.g.spc, v, chains);
    HistoryStart(vol.g.spc, v);
    var i := 0;
    while i < |ops|
      invariant 0 <= i <= |ops| && vol.Ok() && Sane(vol.g.spc, v)
      invariant vol.V() == History(vol.g.spc, v, ops[..i]) && Mirrored(vol.g, vol.disk)
    {
      RunOp(vol, ops[i]);
      HistoryStep(vol.g.spc, v, ops, i);
      i := i + 1;
    }
    assert ops[..i] == ops;
    c2 := EveryHistoryKeepsOwnership(vol.g.spc, v, ops, chains);
  }

  method RunOp(vol: Volume, op: Op)
    requires vol.Ok() && Sane(vol.g.spc, vol.V()) && Callable(op)
    modifies vol
    ensures vol.Ok() && old(Sane(vol.g.spc, vol.V())) && vol.V() == Apply(vol.g.spc, old(vol.V()), op)
    ensures old(Mirrored(vol.g, vol.disk)) ==> Mirrored(vol.g, vol.disk)
  {
    hide Sane, Mirrored, Fits, WriteFile, DeleteFile, Volume.V, FileName;
    match op
    case Write(name, bytes) => var _ := vol.Write(name, bytes);
    case Delete(name) => var _ := vol.Delete(name);
  }

  lemma HistoryStart(spc: nat, v: Vol)
    requires Sane(spc, v)
    ensures History(spc, v, []) == v
  {
  }

  lemma HistoryStep(spc: nat, v: Vol, ops: seq<Op>, i: nat)
    requires Sane(spc, v) && i < |ops| && forall k :: 0 <= k < |ops| ==> Callable(ops[k])
    ensures History(spc, v, ops[..i + 1]) == Apply(spc, History(spc, v, ops[..i]), ops[i])
  {
    hide Sane, Callable, Apply;
    assert ops[..i + 1][..i] == ops[..i] && ops[..i + 1][i] == ops[i];
  }
}
