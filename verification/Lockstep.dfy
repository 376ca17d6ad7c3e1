/** The FAT volume and tmpfs driven side by side, from a fresh start. */
module Lockstep {
  import opened Bytes
  import opened Results
  import opened Layout
  import opened Namespace
  import opened Paths
  import opened FatState
  import opened FatOps
  import opened FatFiles
  import opened FatTheorems
  import opened Runs
  import Tmp = TmpFs

  /** A freshly formatted volume and a new tmpfs start out alike. */
  lemma StartAlike(v: Vol, g: Geometry)
    requires Formatted(v, g)
    ensures Agree(Snap(v, RootShape(g.rootCluster)), g, Tmp.DirNode(map[]))
  {
    var s, t := Snap(v, RootShape(g.rootCluster)), Tmp.DirNode(map[]);
    forall q
      ensures Tmp.ObsIn(t, q) == Seen(s, g, q) && (!Tmp.ObsIn(t, q).Absent? ==> LowerPath(q))
    {
      FormattedEmpty(v, g, q);
    }
  }

  lemma ProperStorable(op: Op)
    requires Proper(op.path)
    ensures Storable(op)
  {
    ProperSplit(op.path);
  }

  /** Run the same calls on both, then read any path from both. */
  method SideBySide(fat: FatFs, tmp: Tmp.TmpFs, ops: seq<Op>, path: Str)
    returns (rs: seq<Result<()>>, ts: seq<Result<()>>, a: Result<seq<byte>>, b: Result<seq<byte>>,
             ghost states: seq<Snap>)
    requires fat.Valid() && tmp.Valid() && Agree(fat.Now(), fat.v.geo, tmp.root)
    requires Proper(path) && forall i :: 0 <= i < |ops| ==> Proper(ops[i].path)
    modifies fat, fat.v, tmp
    ensures fat.Valid() && tmp.Valid()
    ensures FatRun(states, fat.v.geo, ops, rs) && states[0] == old(fat.Now())
    ensures fat.v.geo.ClusterBytes() > 0
    ensures Fitting(states, fat.v.geo, ops) ==> (SameOutcomes(rs, ts, |ops|) <==> Roomy(states, fat.v.geo, ops, |ops|))
    ensures Fitting(states, fat.v.geo, ops) && SameOutcomes(rs, ts, |ops|) ==> a == b
  {
    forall i | 0 <= i < |ops|
      ensures Storable(ops[i])
    {
      ProperStorable(ops[i]);
    }
    CbPositive(fat.Now(), fat.v.geo);
    ghost var trees: seq<Tmp.Node>;
    rs, states := FatRunAll(fat, ops);
    ts, trees := TmpRunAll(tmp, ops);
    a := fat.ReadFile(path);
    b := tmp.ReadFile(path);
    if Fitting(states, fat.v.geo, ops) {
      RunsAgree(states, trees, fat.v.geo, ops, rs, ts, |ops|);
      if SameOutcomes(rs, ts, |ops|) {
        ProperSeen(fat.Now(), fat.v.geo, path);
        assert Tmp.ObsIn(tmp.root, Segments(path)) == Seen(fat.Now(), fat.v.geo, Segments(path));
      }
    }
  }
}
