/** Runs of the write surface. Whole runs of the FAT driver keep the volume in shape, and a run on FAT
    and the same run on tmpfs succeed on the same calls and show the same files. */
module Runs {
  import opened Bytes
  import opened Results
  import opened Layout
  import opened ShortNames
  import opened Namespace
  import opened Paths
  import opened Volume
  import Chains
  import opened FatState
  import opened FatOps
  import opened FatFiles
  import Tmp = TmpFs

  datatype Op =
    | Create(path: Str)
    | Write(path: Str, data: seq<byte>)
    | Append(path: Str, data: seq<byte>)
    | MakeDir(path: Str)
    | Remove(path: Str)

  /** The name an operation may create fits 8.3. */
  ghost predicate Storable(op: Op) {
    SplitParent(op.path).Ok? ==> ValidName(SplitParent(op.path).value.1)
  }

  // ---- Runs of the FAT driver ----

  /** One call, from state `s` to state `s'`. */
  ghost predicate FatStep(s: Snap, s': Snap, g: Geometry, op: Op, r: Result<()>) {
    && g.ClusterBytes() > 0
    && match op
       case Create(a) => CreatedAt(s, s', g, a, r)
       case Write(a, d) => WroteAt(s, s', g, a, d, r)
       case Append(a, d) => AppendedAt(s, s', g, a, d, r)
       case MakeDir(a) => MadeAt(s, s', g, a, r)
       case Remove(a) => RemovedAt(s, s', g, a, r)
  }

  ghost predicate FatRun(states: seq<Snap>, g: Geometry, ops: seq<Op>, results: seq<Result<()>>) {
    && |states| == |ops| + 1 && |results| == |ops|
    && forall i {:trigger ops[i]} :: 0 <= i < |ops| ==> FatStep(states[i], states[i + 1], g, ops[i], results[i])
  }

  method FatApply(fs: FatFs, op: Op) returns (r: Result<()>)
    requires fs.Valid() && Storable(op)
    modifies fs, fs.v
    ensures fs.Valid() && FatStep(old(fs.Now()), fs.Now(), fs.v.geo, op, r)
    ensures fs.v.vol.frozen == old(fs.v.vol).frozen
  {
    CbPositive(fs.Now(), fs.v.geo);
    match op {
      case Create(a) => r := fs.CreateFile(a);
      case Write(a, d) => r := fs.WriteFile(a, d);
      case Append(a, d) => r := fs.AppendFile(a, d);
      case MakeDir(a) => r := fs.CreateDir(a);
      case Remove(a) => r := fs.Remove(a);
    }
  }

  /** Any sequence of calls is a run. After every call, including calls that fail for lack of space, the
      volume is in shape and its fixed part untouched; if every call succeeds, no cluster leaks and the
      FSInfo count stays right. */
  method FatRunAll(fs: FatFs, ops: seq<Op>) returns (results: seq<Result<()>>, ghost states: seq<Snap>)
    requires fs.Valid() && forall i :: 0 <= i < |ops| ==> Storable(ops[i])
    modifies fs, fs.v
    ensures fs.Valid() && FatRun(states, fs.v.geo, ops, results)
    ensures states[0] == old(fs.Now()) && states[|ops|] == fs.Now()
    ensures forall i {:trigger states[i]} :: 0 <= i < |states| ==> Sound(states[i], fs.v.geo)
    ensures forall i {:trigger states[i]} :: 0 <= i < |states| ==> states[i].vol.frozen == old(fs.v.vol).frozen
    ensures AllOk(results) ==> Kept(old(fs.Now()), fs.Now())
  {
    results := [];
    states := [fs.Now()];
    for i := 0 to |ops|
      invariant fs.Valid() && |results| == i && |states| == i + 1
      invariant states[0] == old(fs.Now()) && states[i] == fs.Now() && fs.v.vol.frozen == old(fs.v.vol).frozen
      invariant forall j {:trigger ops[j]} :: 0 <= j < i ==>
                  FatStep(states[j], states[j + 1], fs.v.geo, ops[j], results[j])
      invariant forall j {:trigger states[j]} :: 0 <= j <= i ==> Sound(states[j], fs.v.geo)
      invariant forall j {:trigger states[j]} :: 0 <= j <= i ==> states[j].vol.frozen == old(fs.v.vol).frozen
    {
      var r := FatApply(fs, ops[i]);
      results := results + [r];
      states := states + [fs.Now()];
    }
    if AllOk(results) {
      RunKeeps(states, fs.v.geo, ops, results, |ops|);
    }
  }

  ghost predicate AllOk(results: seq<Result<()>>) {
    forall i :: 0 <= i < |results| ==> results[i].Ok?
  }

  lemma StepKeeps(s: Snap, s': Snap, g: Geometry, op: Op, r: Result<()>)
    requires FatStep(s, s', g, op, r) && r.Ok?
    ensures Kept(s, s')
  {
  }

  /** Over every run of calls that succeed, no cluster leaks, the FSInfo count stays right and the fixed
      part of the volume stays untouched. */
  lemma {:induction false} RunKeeps(states: seq<Snap>, g: Geometry, ops: seq<Op>, results: seq<Result<()>>, n: nat)
    requires FatRun(states, g, ops, results) && AllOk(results) && n <= |ops|
    ensures Kept(states[0], states[n])
    ensures Tight(states[0]) ==> Tight(states[n])
    ensures Counted(states[0].vol) && states[n].vol.info.signed && states[n].vol.info.free != 0xFFFF_FFFF ==>
              states[n].vol.info.free == |Chains.FreeList(states[n].vol.fat)|
  {
    if n > 0 {
      RunKeeps(states, g, ops, results, n - 1);
      RunStepKeeps(states, g, ops, results, n - 1);
      KeptTwice(states[0], states[n - 1], states[n]);
    }
  }

  lemma RunStepKeeps(states: seq<Snap>, g: Geometry, ops: seq<Op>, results: seq<Result<()>>, i: nat)
    requires FatRun(states, g, ops, results) && AllOk(results) && i < |ops|
    ensures Kept(states[i], states[i + 1])
  {
    StepKeeps(states[i], states[i + 1], g, ops[i], results[i]);
  }

  lemma KeptTwice(s: Snap, t: Snap, u: Snap)
    requires Kept(s, t) && Kept(t, u)
    ensures Kept(s, u)
  {
  }

  // ---- Runs of tmpfs ----

  ghost predicate TmpStep(t: Tmp.Node, t': Tmp.Node, op: Op, r: Result<()>) {
    var p := Segments(op.path);
    match op
    case Create(_) => Tmp.Outcome(t, t', p, Tmp.StoreDenied(t, p), File([]), r)
    case Write(_, d) => Tmp.Outcome(t, t', p, Tmp.StoreDenied(t, p), File(d), r)
    case Append(_, d) => Tmp.Outcome(t, t', p, Tmp.StoreDenied(t, p), File(Tmp.BytesAt(t, p) + d), r)
    case MakeDir(_) => Tmp.Outcome(t, t', p, Tmp.NewDirDenied(t, p), Dir, r)
    case Remove(_) => Tmp.Outcome(t, t', p, Tmp.DropDenied(t, p), Absent(NotFound), r)
  }

  ghost predicate TmpRun(trees: seq<Tmp.Node>, ops: seq<Op>, results: seq<Result<()>>) {
    && |trees| == |ops| + 1 && |results| == |ops|
    && forall i {:trigger ops[i]} :: 0 <= i < |ops| ==> TmpStep(trees[i], trees[i + 1], ops[i], results[i])
  }

  method TmpApply(fs: Tmp.TmpFs, op: Op) returns (r: Result<()>)
    requires fs.Valid()
    modifies fs
    ensures fs.Valid() && TmpStep(old(fs.root), fs.root, op, r)
  {
    match op {
      case Create(a) => r := fs.CreateFile(a);
      case Write(a, d) => r := fs.WriteFile(a, d);
      case Append(a, d) => r := fs.AppendFile(a, d);
      case MakeDir(a) => r := fs.CreateDir(a);
      case Remove(a) => r := fs.Remove(a);
    }
  }

  method TmpRunAll(fs: Tmp.TmpFs, ops: seq<Op>) returns (results: seq<Result<()>>, ghost trees: seq<Tmp.Node>)
    requires fs.Valid()
    modifies fs
    ensures fs.Valid() && TmpRun(trees, ops, results)
    ensures trees[0] == old(fs.root) && trees[|ops|] == fs.root
  {
    results := [];
    trees := [fs.root];
    for i := 0 to |ops|
      invariant fs.Valid() && |results| == i && |trees| == i + 1
      invariant trees[0] == old(fs.root) && trees[i] == fs.root
      invariant forall j {:trigger ops[j]} :: 0 <= j < i ==> TmpStep(trees[j], trees[j + 1], ops[j], results[j])
    {
      var r := TmpApply(fs, ops[i]);
      results := results + [r];
      trees := trees + [fs.root];
    }
  }

  // ---- The two file systems side by side ----

  /** The same files, bytes and directories on every lower-case path, and no other names in tmpfs. */
  ghost predicate Agree(s: Snap, g: Geometry, t: Tmp.Node) {
    && (forall q {:trigger Tmp.ObsIn(t, q)} :: LowerPath(q) ==> Tmp.ObsIn(t, q) == Seen(s, g, q))
    && (forall q :: !Tmp.ObsIn(t, q).Absent? ==> LowerPath(q))
  }

  /** The call is refused, whatever space there is. */
  ghost predicate Refused(s: Snap, g: Geometry, op: Op) {
    match op
    case MakeDir(a) => MakeDenied(s, g, a).Some?
    case Remove(a) => RemoveDenied(s, g, a).Some?
    case _ => WriteDenied(s, g, op.path).Some?
  }

  /** What a write or an append is to leave at its path. */
  ghost function Outgoing(s: Snap, g: Geometry, op: Op): seq<byte> {
    var p := Segments(op.path);
    match op
    case Write(_, d) => d
    case Append(_, d) => (if Seen(s, g, p).File? then Seen(s, g, p).bytes else []) + d
    case _ => []
  }

  /** FAT has the clusters the call needs, or the call is refused anyway. */
  ghost predicate Enough(s: Snap, g: Geometry, op: Op)
    requires g.ClusterBytes() > 0
  {
    var p := Segments(op.path);
    Refused(s, g, op)
    || match op
       case Create(_) => CreateRoom(s, g, p)
       case MakeDir(_) => MakeRoom(s, g, p)
       case Remove(_) => true
       case _ => WriteRoom(s, g, p, ClustersFor(Outgoing(s, g, op), g.ClusterBytes()))
  }

  lemma ChangedAt(s: Snap, s': Snap, g: Geometry, t: Tmp.Node, t': Tmp.Node, p: Path, now: Obs, q: Path)
    requires Agree(s, g, t) && LowerPath(p) && Changed(s, s', g, p, now) && Tmp.Became(t, t', p, now)
    ensures LowerPath(q) ==> Tmp.ObsIn(t', q) == Seen(s', g, q)
    ensures !Tmp.ObsIn(t', q).Absent? ==> LowerPath(q)
  {
    assert Tmp.ObsIn(t', q) == Tmp.AfterIn(Tmp.ObsIn(t, q), q, p, now);
    if LowerPath(q) {
      LowerUnder(q, p);
      AgreeAt(s, g, t, q);
      assert Seen(s', g, q) == After(Seen(s, g, q), q, p, now);
    }
  }

  /** Both sides make the same path show the same thing. */
  lemma ChangedAgree(s: Snap, s': Snap, g: Geometry, t: Tmp.Node, t': Tmp.Node, p: Path, now: Obs)
    requires Agree(s, g, t) && LowerPath(p) && Changed(s, s', g, p, now) && Tmp.Became(t, t', p, now)
    ensures Agree(s', g, t')
  {
    forall q
      ensures LowerPath(q) ==> Tmp.ObsIn(t', q) == Seen(s', g, q)
      ensures !Tmp.ObsIn(t', q).Absent? ==> LowerPath(q)
    {
      ChangedAt(s, s', g, t, t', p, now, q);
    }
  }

  lemma ProperSeen(s: Snap, g: Geometry, abs: Str)
    requires Proper(abs)
    ensures SeenAt(s, g, abs) == Seen(s, g, Segments(abs))
  {
  }

  /** Whether there is a directory to work in. */
  ghost predicate HasParent(s: Snap, g: Geometry, p: Path) {
    p != [] && Seen(s, g, p[..|p| - 1]).Dir?
  }

  lemma ParentSeen(s: Snap, g: Geometry, abs: Str)
    requires Proper(abs) && Segments(abs) != []
    ensures var p := Segments(abs); var parent := p[..|p| - 1];
            && SplitParent(abs) == Ok((Join(parent), p[|p| - 1])) && LowerPath(parent)
            && SeenAt(s, g, Join(parent)) == Seen(s, g, parent) && Segments(Join(parent)) == parent
            && parent + [p[|p| - 1]] == p
  {
    ProperSplit(abs);
    ParentSegments(abs);
    SeenJoined(s, g, Join(Segments(abs)[..|Segments(abs)| - 1]));
  }

  lemma SeenJoined(s: Snap, g: Geometry, abs: Str)
    requires Segments(abs) == [] ==> abs == [SLASH]
    ensures SeenAt(s, g, abs) == Seen(s, g, Segments(abs))
  {
  }

  lemma WriteRefusal(s: Snap, g: Geometry, abs: Str)
    requires Proper(abs)
    ensures WriteDenied(s, g, abs).None? <==>
              HasParent(s, g, Segments(abs)) && !Seen(s, g, Segments(abs)).Dir?
  {
    if Segments(abs) == [] {
      ProperSplit(abs);
    } else {
      ParentSeen(s, g, abs);
    }
  }

  lemma MakeRefusal(s: Snap, g: Geometry, abs: Str)
    requires Proper(abs)
    ensures MakeDenied(s, g, abs).None? <==>
              HasParent(s, g, Segments(abs)) && Seen(s, g, Segments(abs)).Absent?
  {
    if Segments(abs) == [] {
      ProperSplit(abs);
    } else {
      ParentSeen(s, g, abs);
    }
  }

  lemma RemoveRefusal(s: Snap, g: Geometry, abs: Str)
    requires Proper(abs)
    ensures RemoveDenied(s, g, abs).None? <==>
              HasParent(s, g, Segments(abs)) && RemoveAt(s, g, Segments(abs)).None?
  {
    var p := Segments(abs);
    if p == [] {
      ProperSplit(abs);
    } else {
      ParentSeen(s, g, abs);
      assert RemoveDenied(s, g, abs) == RemoveBelow(Seen(s, g, p[..|p| - 1]), RemoveAt(s, g, p));
    }
  }

  /** The refusals of tmpfs, when both show the same. */
  lemma TmpRefusals(s: Snap, g: Geometry, t: Tmp.Node, p: Path)
    requires Agree(s, g, t) && LowerPath(p)
    ensures Tmp.StoreDenied(t, p).None? <==> HasParent(s, g, p) && !Seen(s, g, p).Dir?
    ensures Tmp.NewDirDenied(t, p).None? <==> HasParent(s, g, p) && Seen(s, g, p).Absent?
    ensures Tmp.DropDenied(t, p).None? <==> HasParent(s, g, p) && RemoveAt(s, g, p).None?
  {
    ChildrenAgree(s, g, t, p);
    AgreeAt(s, g, t, p);
    ParentsAgree(s, g, t, p);
  }

  lemma AgreeAt(s: Snap, g: Geometry, t: Tmp.Node, p: Path)
    requires Agree(s, g, t) && LowerPath(p)
    ensures Tmp.ObsIn(t, p) == Seen(s, g, p)
  {
  }

  lemma ParentsAgree(s: Snap, g: Geometry, t: Tmp.Node, p: Path)
    requires Agree(s, g, t) && LowerPath(p)
    ensures Tmp.ParentDenied(t, p).None? <==> HasParent(s, g, p)
  {
    if p != [] {
      LowerPrefix(p, |p| - 1);
      AgreeAt(s, g, t, p[..|p| - 1]);
    }
  }

  lemma RefusalsAgree(s: Snap, g: Geometry, t: Tmp.Node, abs: Str)
    requires Agree(s, g, t) && Proper(abs)
    ensures WriteDenied(s, g, abs).None? <==> Tmp.StoreDenied(t, Segments(abs)).None?
    ensures MakeDenied(s, g, abs).None? <==> Tmp.NewDirDenied(t, Segments(abs)).None?
    ensures RemoveDenied(s, g, abs).None? <==> Tmp.DropDenied(t, Segments(abs)).None?
  {
    WriteRefusal(s, g, abs);
    MakeRefusal(s, g, abs);
    RemoveRefusal(s, g, abs);
    TmpRefusals(s, g, t, Segments(abs));
  }

  lemma ChildrenAgree(s: Snap, g: Geometry, t: Tmp.Node, p: Path)
    requires Agree(s, g, t) && LowerPath(p)
    ensures NoChildren(s, g, p) <==> Tmp.Childless(t, p)
  {
    if NoChildren(s, g, p) {
      forall n
        ensures Tmp.ObsIn(t, p + [n]).Absent?
      {
        assert Seen(s, g, p + [n]).Absent?;
      }
    }
    if Tmp.Childless(t, p) {
      forall n
        ensures Seen(s, g, p + [n]).Absent?
      {
        LowerSnoc(p, n);
        LowerSnoc(p, Lower(n));
        LowerTwice(n);
        assert LowerPath(p + [Lower(n)]);
        ObsIgnoresCase(Names(s), g.rootCluster, p + [n], p + [Lower(n)]);
        assert Tmp.ObsIn(t, p + [Lower(n)]).Absent?;
      }
    }
  }

  /** A write that is not refused succeeds exactly when there is room, and stores every byte. */
  lemma WriteFits(s: Snap, s': Snap, g: Geometry, p: Path, data: seq<byte>, r: Result<()>)
    requires g.ClusterBytes() > 0 && |data| < U32_RANGE && Written(s, s', g, p, data, r)
    ensures r.Ok? <==> WriteRoom(s, g, p, ClustersFor(data, g.ClusterBytes()))
    ensures r.Ok? ==> Changed(s, s', g, p, File(data))
  {
    StoredWhole(data, g.ClusterBytes());
    SmallMod(ClustersFor(data, g.ClusterBytes()));
  }

  lemma SmallMod(n: nat)
    requires n < U32_RANGE
    ensures n % U32_RANGE == n
  {
  }

  lemma WriteAgrees(s: Snap, s': Snap, g: Geometry, t: Tmp.Node, t': Tmp.Node, abs: Str, data: seq<byte>,
                    r: Result<()>, rt: Result<()>)
    requires Agree(s, g, t) && Proper(abs) && g.ClusterBytes() > 0 && |data| < U32_RANGE
             && WroteAt(s, s', g, abs, data, r)
    requires Tmp.Outcome(t, t', Segments(abs), Tmp.StoreDenied(t, Segments(abs)), File(data), rt)
    ensures (r.Ok? <==> rt.Ok?) <==>
            WriteDenied(s, g, abs).Some? || WriteRoom(s, g, Segments(abs), ClustersFor(data, g.ClusterBytes()))
    ensures (r.Ok? <==> rt.Ok?) ==> Agree(s', g, t')
  {
    RefusalsAgree(s, g, t, abs);
    if WriteDenied(s, g, abs).None? {
      WriteFits(s, s', g, Segments(abs), data, r);
      if r.Ok? {
        ChangedAgree(s, s', g, t, t', Segments(abs), File(data));
      }
    }
  }

  /** A path below something that is not a directory has no directory as its parent. */
  lemma NotADirParent(t: Tmp.Node, p: Path)
    requires Tmp.ObsIn(t, p) == Absent(NotADir) || p == []
    ensures Tmp.ParentDenied(t, p).Some?
  {
    if p != [] {
      var n := |p| - 1;
      Tmp.LastStep(p);
      Tmp.NodeShows(t, p[..n]);
      Tmp.NodeShows(t, p);
      if Tmp.ObsIn(t, p[..n]).Dir? {
        Tmp.NodeChild(t, p[..n], p[n]);
      }
    }
  }

  lemma ObsReasons(G: Graph, h: nat, p: Path)
    ensures ObsAt(G, h, p).Absent? ==> ObsAt(G, h, p).why == NotFound || ObsAt(G, h, p).why == NotADir
    decreases |p|
  {
  }

  lemma AppendAgrees(s: Snap, s': Snap, g: Geometry, t: Tmp.Node, t': Tmp.Node, abs: Str, data: seq<byte>,
                     r: Result<()>, rt: Result<()>)
    requires Agree(s, g, t) && Proper(abs) && g.ClusterBytes() > 0 && AppendedAt(s, s', g, abs, data, r)
    requires |Outgoing(s, g, Append(abs, data))| < U32_RANGE && TmpStep(t, t', Append(abs, data), rt)
    ensures (r.Ok? <==> rt.Ok?) <==> Enough(s, g, Append(abs, data))
    ensures (r.Ok? <==> rt.Ok?) ==> Agree(s', g, t')
  {
    var p := Segments(abs);
    ProperSeen(s, g, abs);
    ObsReasons(Names(s), g.rootCluster, p);
    assert Tmp.ObsIn(t, p) == Seen(s, g, p);
    match Seen(s, g, p) {
      case Dir => RefusalsAgree(s, g, t, abs);
      case File(b) => WriteAgrees(s, s', g, t, t', abs, b + data, r, rt);
      case Absent(why) =>
        if why == NotFound {
          assert [] + data == data;
          WriteAgrees(s, s', g, t, t', abs, data, r, rt);
        } else {
          NotADirParent(t, p);
          RefusalsAgree(s, g, t, abs);
        }
    }
  }

  /** One call on both: they agree on success exactly when FAT has the clusters the call needs, and then
      show the same files afterwards. */
  lemma StepAgrees(s: Snap, s': Snap, g: Geometry, t: Tmp.Node, t': Tmp.Node, op: Op, r: Result<()>, rt: Result<()>)
    requires Agree(s, g, t) && Proper(op.path) && FatStep(s, s', g, op, r) && TmpStep(t, t', op, rt)
    requires |Outgoing(s, g, op)| < U32_RANGE
    ensures (r.Ok? <==> rt.Ok?) <==> Enough(s, g, op)
    ensures (r.Ok? <==> rt.Ok?) ==> Agree(s', g, t')
  {
    var p := Segments(op.path);
    match op {
      case Write(a, d) => WriteAgrees(s, s', g, t, t', a, d, r, rt);
      case Append(a, d) => AppendAgrees(s, s', g, t, t', a, d, r, rt);
      case Create(a) => CreateAgrees(s, s', g, t, t', a, r, rt);
      case MakeDir(a) => MakeAgrees(s, s', g, t, t', a, r, rt);
      case Remove(a) =>
        RefusalsAgree(s, g, t, a);
        if RemoveDenied(s, g, a).None? {
          ChangedAgree(s, s', g, t, t', p, Absent(NotFound));
        }
    }
  }

  lemma CreateAgrees(s: Snap, s': Snap, g: Geometry, t: Tmp.Node, t': Tmp.Node, a: Str, r: Result<()>, rt: Result<()>)
    requires Agree(s, g, t) && Proper(a) && CreatedAt(s, s', g, a, r) && TmpStep(t, t', Create(a), rt)
    ensures (r.Ok? <==> rt.Ok?) <==> WriteDenied(s, g, a).Some? || CreateRoom(s, g, Segments(a))
    ensures (r.Ok? <==> rt.Ok?) ==> Agree(s', g, t')
  {
    RefusalsAgree(s, g, t, a);
    if WriteDenied(s, g, a).None? && r.Ok? {
      ChangedAgree(s, s', g, t, t', Segments(a), File([]));
    }
  }

  lemma MakeAgrees(s: Snap, s': Snap, g: Geometry, t: Tmp.Node, t': Tmp.Node, a: Str, r: Result<()>, rt: Result<()>)
    requires Agree(s, g, t) && Proper(a) && MadeAt(s, s', g, a, r) && TmpStep(t, t', MakeDir(a), rt)
    ensures (r.Ok? <==> rt.Ok?) <==> MakeDenied(s, g, a).Some? || MakeRoom(s, g, Segments(a))
    ensures (r.Ok? <==> rt.Ok?) ==> Agree(s', g, t')
  {
    RefusalsAgree(s, g, t, a);
    if MakeDenied(s, g, a).None? && r.Ok? {
      ChangedAgree(s, s', g, t, t', Segments(a), Dir);
    }
  }

  ghost predicate SameOutcomes(rs: seq<Result<()>>, ts: seq<Result<()>>, n: nat) {
    n <= |rs| && n <= |ts| && forall i :: 0 <= i < n ==> (rs[i].Ok? <==> ts[i].Ok?)
  }

  /** Every path of the run is proper and every file stays below 2^32 bytes. */
  ghost predicate Fitting(states: seq<Snap>, g: Geometry, ops: seq<Op>) {
    && |states| == |ops| + 1
    && forall i {:trigger ops[i]} :: 0 <= i < |ops| ==>
         Proper(ops[i].path) && |Outgoing(states[i], g, ops[i])| < U32_RANGE
  }

  /** FAT has the clusters it needs for the first `n` calls. */
  ghost predicate Roomy(states: seq<Snap>, g: Geometry, ops: seq<Op>, n: nat)
    requires g.ClusterBytes() > 0 && n <= |ops| && |states| == |ops| + 1
  {
    forall i {:trigger ops[i]} :: 0 <= i < n ==> Enough(states[i], g, ops[i])
  }

  /** `Agree` at call `i`, folded like `Sound`. */
  ghost predicate Twins(states: seq<Snap>, trees: seq<Tmp.Node>, g: Geometry, i: nat) {
    i < |states| && i < |trees|
    && forall x: Geometry {:trigger Agree(states[i], x, trees[i])} :: x == g ==> Agree(states[i], x, trees[i])
  }

  /** The same calls on both, folded like `Sound`. */
  ghost predicate BothRun(states: seq<Snap>, trees: seq<Tmp.Node>, g: Geometry, ops: seq<Op>, rs: seq<Result<()>>,
                          ts: seq<Result<()>>)
  {
    && |states| == |trees| == |ops| + 1 && |rs| == |ts| == |ops|
    && forall x: Geometry {:trigger FatRun(states, x, ops, rs)} :: x == g ==>
         FatRun(states, x, ops, rs) && TmpRun(trees, ops, ts) && Fitting(states, x, ops)
  }

  lemma RunStepAgrees(states: seq<Snap>, trees: seq<Tmp.Node>, g: Geometry, ops: seq<Op>, rs: seq<Result<()>>,
                      ts: seq<Result<()>>, i: nat)
    requires BothRun(states, trees, g, ops, rs, ts) && g.ClusterBytes() > 0
    requires i < |ops| && Twins(states, trees, g, i)
    ensures (rs[i].Ok? <==> ts[i].Ok?) <==> Enough(states[i], g, ops[i])
    ensures (rs[i].Ok? <==> ts[i].Ok?) ==> Twins(states, trees, g, i + 1)
  {
    assert FatRun(states, g, ops, rs) && Agree(states[i], g, trees[i]);
    StepAgrees(states[i], states[i + 1], g, trees[i], trees[i + 1], ops[i], rs[i], ts[i]);
  }

  lemma OutcomesNext(rs: seq<Result<()>>, ts: seq<Result<()>>, n: nat)
    requires n < |rs| && n < |ts|
    ensures SameOutcomes(rs, ts, n + 1) <==> SameOutcomes(rs, ts, n) && (rs[n].Ok? <==> ts[n].Ok?)
  {
  }

  lemma RoomyNext(states: seq<Snap>, g: Geometry, ops: seq<Op>, n: nat)
    requires g.ClusterBytes() > 0 && n < |ops| && |states| == |ops| + 1
    ensures Roomy(states, g, ops, n + 1) <==> Roomy(states, g, ops, n) && Enough(states[n], g, ops[n])
  {
  }

  lemma {:induction false} RunsInStep(states: seq<Snap>, trees: seq<Tmp.Node>, g: Geometry, ops: seq<Op>,
                                      rs: seq<Result<()>>, ts: seq<Result<()>>, n: nat)
    requires BothRun(states, trees, g, ops, rs, ts) && g.ClusterBytes() > 0
    requires n <= |ops| && Twins(states, trees, g, 0)
    ensures SameOutcomes(rs, ts, n) <==> Roomy(states, g, ops, n)
    ensures SameOutcomes(rs, ts, n) ==> Twins(states, trees, g, n)
  {
    if n > 0 {
      RunsInStep(states, trees, g, ops, rs, ts, n - 1);
      OutcomesNext(rs, ts, n - 1);
      RoomyNext(states, g, ops, n - 1);
      if SameOutcomes(rs, ts, n - 1) {
        RunStepAgrees(states, trees, g, ops, rs, ts, n - 1);
      }
    }
  }

  /** A run on FAT and the same run on tmpfs: the same calls succeed exactly when FAT has the clusters it
      needs at every call, and then every path shows the same after every call. */
  lemma RunsAgree(states: seq<Snap>, trees: seq<Tmp.Node>, g: Geometry, ops: seq<Op>, rs: seq<Result<()>>,
                  ts: seq<Result<()>>, n: nat)
    requires FatRun(states, g, ops, rs) && TmpRun(trees, ops, ts) && Fitting(states, g, ops) && g.ClusterBytes() > 0
    requires n <= |ops| && Agree(states[0], g, trees[0])
    ensures SameOutcomes(rs, ts, n) <==> Roomy(states, g, ops, n)
    ensures SameOutcomes(rs, ts, n) ==> Agree(states[n], g, trees[n])
  {
    RunsInStep(states, trees, g, ops, rs, ts, n);
  }
}
