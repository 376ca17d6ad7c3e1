/** What the invariant and the contracts of the FAT driver add up to. */
module FatTheorems {
  import opened Bytes
  import opened Results
  import opened Layout
  import opened Chains
  import opened Slots
  import opened ShortNames
  import opened Directory
  import opened Shape
  import opened FatTree
  import opened FatSteps
  import opened Namespace
  import opened Paths
  import opened Volume
  import opened FatState
  import opened FatOps
  import opened FatFiles

  // ---- The shape of a sound volume ----

  /** Every chain is terminated and acyclic. */
  lemma ChainSound(s: Snap, g: Geometry, h: nat)
    requires Sound(s, g) && h in s.shape.chains
    ensures IsChain(s.vol.fat, s.shape.chains[h]) && s.shape.chains[h][0] == h && Distinct(s.shape.chains[h])
  {
    Unfold(s, g);
    ChainDistinct(s.vol.fat, s.shape.chains[h]);
  }

  /** Chains are pairwise disjoint. */
  lemma ChainsApart(s: Snap, g: Geometry, h: nat, k: nat, c: nat)
    requires Sound(s, g) && h in s.shape.chains && k in s.shape.chains && h != k
    ensures !(c in s.shape.chains[h] && c in s.shape.chains[k])
  {
    SoundOwners(s, g);
    OwnersApart(s.shape, h, k, c);
  }

  lemma SoundOwners(s: Snap, g: Geometry)
    requires Sound(s, g)
    ensures OwnersOk(s.shape)
  {
    Unfold(s, g);
  }

  /** A live entry never points at a free cluster, and two entries never share a chain. */
  lemma EntriesSafe(s: Snap, g: Geometry, P: nat, k: nat, e: DirEntry)
    requires Sound(s, g) && EntryAt(s, P, k, e) && e.cluster >= 2
    ensures e.cluster < |s.vol.fat| && s.vol.fat[e.cluster] != 0 && e.cluster in s.shape.chains
    ensures forall Q, j, f :: EntryAt(s, Q, j, f) && f.cluster == e.cluster ==> Q == P && j == k
  {
    EntryFacts(s, g, P, k, e);
    ChainUsed(s.vol.fat, s.shape.chains[e.cluster]);
    Unfold(s, g);
    forall Q, j, f | EntryAt(s, Q, j, f) && f.cluster == e.cluster
      ensures Q == P && j == k
    {
      if (Q, j) != (P, k) {
        RefElsewhere(Dirs(s), s.shape, g.rootCluster, P, k, Q, j);
      }
    }
  }

  /** Every chain hangs below the root directory. */
  lemma ChainsReached(s: Snap, g: Geometry, h: nat) returns (steps: seq<nat>)
    requires Sound(s, g) && h in s.shape.chains
    ensures LeadsTo(Dirs(s), g.rootCluster, steps, h)
  {
    Unfold(s, g);
    var d := if h in s.shape.depth then s.shape.depth[h] else 0;
    var known := h in s.shape.parent && s.shape.parent[h].0 in s.shape.depth;
    var up := if known then s.shape.depth[s.shape.parent[h].0] else 0;
    steps := Reachable(Dirs(s), s.shape, g.rootCluster, h, d + up + 1);
  }

  /** Without leaks, every used cluster lies on exactly one chain, and exactly the others are free. */
  lemma NothingLeaked(s: Snap, g: Geometry, c: nat)
    requires Sound(s, g) && Tight(s) && 2 <= c < |s.vol.fat|
    ensures s.vol.fat[c] != 0 <==> exists h :: h in s.shape.chains && c in s.shape.chains[h]
  {
    Unfold(s, g);
    if s.vol.fat[c] != 0 {
      assert s.shape.owner[c] in s.shape.chains && c in s.shape.chains[s.shape.owner[c]];
    } else if h :| h in s.shape.chains && c in s.shape.chains[h] {
      OwnedClusters(s.vol.fat, s.shape, c);
    }
  }

  // ---- The shape is no extra information ----

  /** A chain of one sound shape is a chain of any other, and a directory in one is one in the other. */
  lemma {:induction false} SameChain(v: Vol, S: Shape, T: Shape, g: Geometry, h: nat, depth: nat)
    requires Sound(Snap(v, S), g) && Sound(Snap(v, T), g) && h in S.chains
    requires h == g.rootCluster || (h in S.parent && S.parent[h].0 in S.depth && S.depth[S.parent[h].0] < depth)
    ensures h in T.chains && T.chains[h] == S.chains[h] && (h in S.dirs <==> h in T.dirs)
    decreases depth
  {
    RootIsDir(Snap(v, S), g);
    RootIsDir(Snap(v, T), g);
    DirsAreChains(Snap(v, T), g);
    if h != g.rootCluster {
      var P, k := HangsFrom(Snap(v, S), g, h);
      if P != g.rootCluster {
        ParentNearer(Snap(v, S), g, P);
      }
      SameChain(v, S, T, g, P, depth - 1);
      SameListing(v, S, T, g, P);
      EntryKind(Snap(v, T), g, P, k);
      EntryKind(Snap(v, S), g, P, k);
    }
    ChainSound(Snap(v, S), g, h);
    ChainSound(Snap(v, T), g, h);
    TableSize(Snap(v, S), g);
    ChainUnique(v.fat, S.chains[h], T.chains[h]);
  }

  /** Where a chain other than the root's hangs. */
  lemma HangsFrom(s: Snap, g: Geometry, h: nat) returns (P: nat, k: nat)
    requires Sound(s, g) && h in s.shape.chains && h != g.rootCluster
    ensures h in s.shape.parent && (P, k) == s.shape.parent[h] && P in s.shape.dirs && P in s.shape.chains
            && P in Dirs(s)
    ensures k < |Dirs(s)[P]| && Dirs(s)[P][k].Live? && Dirs(s)[P][k].entry.cluster == h && h >= 2
  {
    Unfold(s, g);
    HeadsAreClusters(s.vol.fat, s.shape);
    P, k := s.shape.parent[h].0, s.shape.parent[h].1;
    assert HangsAt(Dirs(s), s.shape, h, P, k);
  }

  lemma ParentNearer(s: Snap, g: Geometry, h: nat)
    requires Sound(s, g) && h in s.shape.dirs && h != g.rootCluster
    ensures h in s.shape.chains && h in s.shape.parent && s.shape.parent[h].0 in s.shape.depth && h in s.shape.depth
    ensures s.shape.depth[s.shape.parent[h].0] < s.shape.depth[h]
  {
    Unfold(s, g);
    var (P, k) := s.shape.parent[h];
    assert HangsAt(Dirs(s), s.shape, h, P, k);
    assert RefOk(s.shape, g.rootCluster, P, k, Dirs(s)[P][k].entry);
  }

  lemma SameListing(v: Vol, S: Shape, T: Shape, g: Geometry, P: nat)
    requires Sound(Snap(v, S), g) && Sound(Snap(v, T), g) && P in S.dirs && P in T.dirs
    requires P in S.chains && P in T.chains && S.chains[P] == T.chains[P]
    ensures Dirs(Snap(v, T))[P] == Dirs(Snap(v, S))[P]
  {
    OpenDir(Snap(v, S), g, P);
    OpenDir(Snap(v, T), g, P);
  }

  lemma EntryKind(s: Snap, g: Geometry, P: nat, k: nat)
    requires Sound(s, g) && P in Dirs(s) && k < |Dirs(s)[P]| && Dirs(s)[P][k].Live? && Dirs(s)[P][k].entry.cluster >= 2
    ensures var e := Dirs(s)[P][k].entry; e.cluster in s.shape.chains && (e.isDir <==> e.cluster in s.shape.dirs)
  {
    Unfold(s, g);
    EntryCluster(s, g, P, k, Dirs(s)[P][k].entry);
  }

  lemma TableSize(s: Snap, g: Geometry)
    requires Sound(s, g)
    ensures |s.vol.fat| < EOC_THRESHOLD
  {
    Unfold(s, g);
  }

  lemma ChainInOther(v: Vol, S: Shape, T: Shape, g: Geometry, h: nat)
    requires Sound(Snap(v, S), g) && Sound(Snap(v, T), g) && h in S.chains
    ensures h in T.chains && T.chains[h] == S.chains[h] && (h in S.dirs <==> h in T.dirs)
  {
    var depth := 0;
    if h != g.rootCluster {
      var P, k := HangsFrom(Snap(v, S), g, h);
      DirDepth(Snap(v, S), g, P);
      depth := S.depth[P] + 1;
    }
    SameChain(v, S, T, g, h, depth);
  }

  lemma DirDepth(s: Snap, g: Geometry, P: nat)
    requires Sound(s, g) && P in s.shape.dirs
    ensures P in s.shape.depth && P in s.shape.chains
  {
    Unfold(s, g);
  }

  /** The blocks alone determine the chains, the directories and who owns what: any two sound shapes of
      a volume agree, so nothing said with the shape depends on it. */
  lemma ShapeDetermined(v: Vol, S: Shape, T: Shape, g: Geometry)
    requires Sound(Snap(v, S), g) && Sound(Snap(v, T), g)
    ensures S.chains == T.chains && S.dirs == T.dirs && S.owner.Keys == T.owner.Keys
    ensures Tight(Snap(v, S)) <==> Tight(Snap(v, T))
    ensures forall p :: Seen(Snap(v, S), g, p) == Seen(Snap(v, T), g, p)
  {
    forall h
      ensures h in S.chains <==> h in T.chains
      ensures h in S.chains ==> T.chains[h] == S.chains[h] && (h in S.dirs <==> h in T.dirs)
    {
      if h in S.chains {
        ChainInOther(v, S, T, g, h);
      } else if h in T.chains {
        ChainInOther(v, T, S, g, h);
      }
    }
    DirsAreChains(Snap(v, S), g);
    DirsAreChains(Snap(v, T), g);
    assert S.chains == T.chains && S.dirs == T.dirs;
    SameOwners(v, S, T, g);
    assert Names(Snap(v, S)) == Names(Snap(v, T)) by { SameNamesOf(v.data, S, T); }
  }

  lemma DirsAreChains(s: Snap, g: Geometry)
    requires Sound(s, g)
    ensures s.shape.dirs <= s.shape.chains.Keys
  {
    Unfold(s, g);
  }

  lemma SameOwners(v: Vol, S: Shape, T: Shape, g: Geometry)
    requires Sound(Snap(v, S), g) && Sound(Snap(v, T), g) && S.chains == T.chains
    ensures S.owner.Keys == T.owner.Keys
  {
    SoundOwners(Snap(v, S), g);
    SoundOwners(Snap(v, T), g);
    forall c
      ensures c in S.owner <==> c in T.owner
    {
      if c in S.owner {
        assert c in T.chains[S.owner[c]];
      }
      if c in T.owner {
        assert c in S.chains[T.owner[c]];
      }
    }
  }

  lemma SameNamesOf(data: seq<seq<byte>>, S: Shape, T: Shape)
    requires S.chains == T.chains && S.dirs == T.dirs
    ensures GraphOf(data, S) == GraphOf(data, T)
  {
    forall d | d in S.dirs
      ensures EntsOf(data, S, DirMarks(data, S, d)) == EntsOf(data, T, DirMarks(data, T, d))
    {
      assert forall e :: EntOf(data, S, e) == EntOf(data, T, e);
    }
  }

  // ---- A freshly formatted volume ----

  ghost function RootShape(root: nat): Shape {
    Shape(map[root := [root]], map[root := root], {root}, map[], map[root := 0])
  }

  /** Only the root directory is allocated, and it is all end slots. */
  ghost predicate Formatted(v: Vol, g: Geometry) {
    && Whole(g, v) && |v.fat| == |v.data| && |v.fat| < EOC_THRESHOLD && Sized(v.data, g.ClusterBytes())
    && (forall c :: 2 <= c < |v.fat| ==> v.fat[c] == if c == g.rootCluster then END_OF_CHAIN else 0)
    && v.data[g.rootCluster] == Zeros(g.ClusterBytes())
  }

  lemma RootListing(v: Vol, g: Geometry)
    requires Formatted(v, g)
    ensures ListingOf(v.data, RootShape(g.rootCluster)) == map[g.rootCluster := Marks(SlotsOf(Zeros(g.ClusterBytes())))]
  {
    var root := g.rootCluster;
    assert Clusters([root], |v.data|);
    assert DirSlots(v.data, [root]) == SlotsOf(v.data[root]);
  }

  lemma RootTree(root: nat, ms: seq<Mark>)
    requires forall i :: 0 <= i < |ms| ==> ms[i] == End
    ensures TreeOk(map[root := ms], RootShape(root), root)
  {
  }

  /** A freshly formatted volume is sound and leaks nothing. */
  lemma FormattedSound(v: Vol, g: Geometry)
    requires Formatted(v, g)
    ensures Sound(Snap(v, RootShape(g.rootCluster)), g) && Tight(Snap(v, RootShape(g.rootCluster)))
  {
    var root := g.rootCluster;
    ZeroMarks(g.ClusterBytes());
    RootListing(v, g);
    RootTree(root, Marks(SlotsOf(Zeros(g.ClusterBytes()))));
    assert IsChain(v.fat, [root]);
    GoodOf(Snap(v, RootShape(root)), g, |v.fat|);
    Fold(Snap(v, RootShape(root)), g);
  }

  /** It shows nothing but the root. */
  lemma FormattedEmpty(v: Vol, g: Geometry, p: Path)
    requires Formatted(v, g)
    ensures Seen(Snap(v, RootShape(g.rootCluster)), g, p) == if p == [] then Dir else Absent(NotFound)
  {
    var s := Snap(v, RootShape(g.rootCluster));
    FormattedSound(v, g);
    if p != [] {
      RootListing(v, g);
      ZeroMarks(g.ClusterBytes());
      EndsMiss(Dirs(s)[g.rootCluster], p[0]);
      var P, k := LookSeen(s, g, p);
    }
  }

  lemma EndsMiss(ms: seq<Mark>, name: Str)
    requires forall i :: 0 <= i < |ms| ==> ms[i] == End
    ensures Find(ms, name) < 0
  {
  }

  // ---- What a failed allocation leaves behind ----

  /** An allocation that runs out of space keeps every cluster it had already marked and leaves FSInfo
      alone, so the count stays right only if nothing was free to begin with. */
  lemma FailedAllocationMiscounts(v: Vol, count: nat, cb: nat)
    requires Counted(v) && v.info.signed && v.info.free != UNKNOWN_COUNT && count > FreeCount(v.fat)
    requires |v.fat| == |v.data| && |v.fat| < EOC_THRESHOLD
    ensures FreeCount(AllocOutcome(v, count, cb).fat) == 0
    ensures Counted(AllocOutcome(v, count, cb)) <==> FreeCount(v.fat) == 0
  {
    var all := FreeList(v.fat);
    AllTaken(v.fat);
    assert AllocOutcome(v, count, cb).fat == Linked(v.fat, all);
  }

  // ---- Writing and reading back ----

  lemma SplitNotRoot(abs: Str)
    requires SplitParent(abs).Ok?
    ensures Segments(abs) != [] && !OnlySlashes(abs)
  {
    SplitParentSegments(abs);
  }

  /** What is read after a successful write is what was written; any path that is not at or below the
      written one reads as before. */
  method WriteThenRead(fs: FatFs, abs: Str, data: seq<byte>, other: Str)
    returns (w: Result<()>, r: Result<seq<byte>>, before: Result<seq<byte>>, after: Result<seq<byte>>, wasDir: bool,
             isDir: bool)
    requires fs.Valid() && |data| < 0x1_0000_0000 && (SplitParent(abs).Ok? ==> ValidName(SplitParent(abs).value.1))
    modifies fs, fs.v
    ensures fs.Valid()
    ensures w.Ok? ==> r == Ok(data)
    ensures !Under(Segments(other), Segments(abs)) ==> after == before && isDir == wasDir
    ensures w.Err? && w != Err(Io) ==> after == before && isDir == wasDir
  {
    before := fs.ReadFile(other);
    wasDir := fs.IsDir(other);
    ghost var s := fs.Now();
    w := fs.WriteFile(abs, data);
    r := fs.ReadFile(abs);
    after := fs.ReadFile(other);
    isDir := fs.IsDir(other);
    StoredWhole(data, fs.v.geo.ClusterBytes());
    WriteSeen(s, fs.Now(), fs.v.geo, abs, data, w);
    OtherSeen(s, fs.Now(), fs.v.geo, abs, data, w, other);
  }

  lemma WriteSeen(s: Snap, s': Snap, g: Geometry, abs: Str, data: seq<byte>, w: Result<()>)
    requires g.ClusterBytes() > 0 && WroteAt(s, s', g, abs, data, w) && Stored32(data) == data
    requires ClustersFor(data, g.ClusterBytes()) < U32_RANGE
    ensures w.Ok? ==> SeenAt(s', g, abs) == File(data)
  {
    if w.Ok? {
      SplitNotRoot(abs);
      UnderSelf(Segments(abs));
      assert Seen(s', g, Segments(abs)) == After(Seen(s, g, Segments(abs)), Segments(abs), Segments(abs), File(data));
    }
  }

  lemma UnderSelf(p: Path)
    ensures Under(p, p)
  {
  }

  lemma OtherSeen(s: Snap, s': Snap, g: Geometry, abs: Str, data: seq<byte>, w: Result<()>, other: Str)
    requires g.ClusterBytes() > 0 && WroteAt(s, s', g, abs, data, w) && ClustersFor(data, g.ClusterBytes()) < U32_RANGE
    ensures !Under(Segments(other), Segments(abs)) ==> SeenAt(s', g, other) == SeenAt(s, g, other)
    ensures w.Err? && w != Err(Io) ==> SeenAt(s', g, other) == SeenAt(s, g, other)
  {
  }

  /** Appending reads back as the old bytes followed by the new ones. */
  method AppendThenRead(fs: FatFs, abs: Str, data: seq<byte>)
    returns (was: Result<seq<byte>>, w: Result<()>, r: Result<seq<byte>>)
    requires fs.Valid() && (SplitParent(abs).Ok? ==> ValidName(SplitParent(abs).value.1))
    modifies fs, fs.v
    ensures fs.Valid()
    ensures w.Ok? ==> was.Ok? || was == Err(NotFound)
    ensures var now := (if was.Ok? then was.value else []) + data;
            w.Ok? && |now| < 0x1_0000_0000 ==> r == Ok(now)
  {
    was := fs.ReadFile(abs);
    ghost var s := fs.Now();
    w := fs.AppendFile(abs, data);
    r := fs.ReadFile(abs);
    AppendSeen(s, fs.Now(), fs.v.geo, abs, data, w);
  }

  /** What an append leaves at its path. */
  lemma AppendSeen(s: Snap, s': Snap, g: Geometry, abs: Str, data: seq<byte>, w: Result<()>)
    requires g.ClusterBytes() > 0 && AppendedAt(s, s', g, abs, data, w)
    ensures w.Ok? ==> SeenAt(s, g, abs).File? || SeenAt(s, g, abs) == Absent(NotFound)
    ensures var now := (if SeenAt(s, g, abs).File? then SeenAt(s, g, abs).bytes else []) + data;
            w.Ok? && |now| < U32_RANGE ==> SeenAt(s', g, abs) == File(now)
  {
    var now := (if SeenAt(s, g, abs).File? then SeenAt(s, g, abs).bytes else []) + data;
    assert [] + data == data;
    if w.Ok? && |now| < U32_RANGE {
      StoredWhole(now, g.ClusterBytes());
      WriteSeen(s, s', g, abs, now, w);
    }
  }

  // ---- Directory listings ----

  /** `names` is a listing of the directory at `q`. */
  ghost predicate Lists(s: Snap, g: Geometry, q: Path, names: seq<Str>) {
    Distinct(names) && forall n :: n in names <==> n == Lower(n) && !Seen(s, g, q + [n]).Absent?
  }

  lemma {:induction false} DistinctCount(names: seq<Str>, n: Str)
    requires Distinct(names)
    ensures multiset(names)[n] == if n in names then 1 else 0
  {
    if names != [] {
      assert names == [names[0]] + names[1..];
      assert names[0] !in names[1..];
      DistinctCount(names[1..], n);
    }
  }

  lemma ChildUnder(q: Path, n: Str, parent: Path, name: Str)
    requires !Under(q, parent + [name])
    ensures Under(q + [n], parent + [name]) <==> LowerAll(q) == LowerAll(parent) && Lower(n) == Lower(name)
  {
    UnderSplit(q + [n], parent, name);
    UnderSplit(q, parent, name);
    var k := |parent|;
    if k < |q| {
      assert (q + [n])[..k] == q[..k] && (q + [n])[k] == q[k];
    } else if k == |q| {
      assert (q + [n])[..k] == q && (q + [n])[k] == n;
    } else {
      assert |LowerAll(q)| != |LowerAll(parent)|;
    }
  }

  /** A write changes one directory listing, and there only the written name: any other listing keeps
      its multiset of names. */
  lemma ListingAfter(s: Snap, s': Snap, g: Geometry, parent: Path, name: Str, now: Obs, q: Path, a: seq<Str>,
                     b: seq<Str>)
    requires Changed(s, s', g, parent + [name], now) && !Under(q, parent + [name]) && Lists(s, g, q, a)
             && Lists(s', g, q, b)
    ensures multiset(b)
         == if LowerAll(q) != LowerAll(parent) then multiset(a)
            else multiset(a)[Lower(name) := if now.Absent? then 0 else 1]
  {
    LowerTwice(name);
    forall n
      ensures multiset(b)[n]
           == if LowerAll(q) == LowerAll(parent) && n == Lower(name) then (if now.Absent? then 0 else 1)
              else multiset(a)[n]
    {
      DistinctCount(a, n);
      DistinctCount(b, n);
      ChildUnder(q, n, parent, name);
      assert Seen(s', g, q + [n]) == After(Seen(s, g, q + [n]), q + [n], parent + [name], now);
    }
  }
}
