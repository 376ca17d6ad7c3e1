/** Whole states of a FAT volume: the blocks' meaning together with the shape, what every path shows,
    and what detaching and attaching an entry do to all of it. */
module FatState {
  import opened Bytes
  import opened Results
  import opened Layout
  import opened Chains
  import opened Slots
  import opened ShortNames
  import opened Directory
  import opened Shape
  import opened FatTree
  import opened FatSteps
  import opened Namespace
  import opened Volume

  datatype Snap = Snap(vol: Vol, shape: Shape)

  ghost predicate Good(s: Snap, g: Geometry) {
    && Whole(g, s.vol) && InRange(s.vol.fat)
    && Inv(s.vol.fat, s.vol.data, s.shape, g.rootCluster, g.ClusterBytes())
  }

  ghost function Names(s: Snap): Graph {
    GraphOf(s.vol.data, s.shape)
  }

  /** The listing of directory `P`. */
  ghost function Dirs(s: Snap): Listing {
    ListingOf(s.vol.data, s.shape)
  }

  /** What path `p` shows. */
  ghost function Seen(s: Snap, g: Geometry, p: Path): Obs {
    ObsAt(Names(s), g.rootCluster, p)
  }

  /** Between `s` and `s'`, path `p` became `now` and nothing else changed. */
  ghost predicate Changed(s: Snap, s': Snap, g: Geometry, p: Path, now: Obs) {
    forall q :: Seen(s', g, q) == After(Seen(s, g, q), q, p, now)
  }

  /** Path `p` leads to directory `P`. */
  ghost predicate Leads(s: Snap, g: Geometry, p: Path, P: nat) {
    HeadAt(Names(s), g.rootCluster, p) == Some(P)
  }

  /** FSInfo is signed and its count known. */
  ghost predicate Known(info: FsInfo) {
    info.signed && info.free != UNKNOWN_COUNT
  }

  /** FSInfo, when signed and known, counts the free clusters. */
  ghost predicate Counted(v: Vol) {
    Known(v.info) ==> v.info.free == FreeCount(v.fat)
  }

  /** How many clusters an entry holds. */
  ghost function Clustered(s: Snap, e: DirEntry): nat {
    if e.cluster in s.shape.chains then |s.shape.chains[e.cluster]| else 0
  }

  ghost predicate Tight(s: Snap) {
    NoLeaks(s.vol.fat, s.shape)
  }

  // ---- Composition ----

  lemma ChangedTwice(s: Snap, t: Snap, u: Snap, g: Geometry, p: Path, mid: Obs, now: Obs)
    requires Changed(s, t, g, p, mid) && Changed(t, u, g, p, now)
    ensures Changed(s, u, g, p, now)
  {
  }

  lemma SameThenChanged(s: Snap, t: Snap, u: Snap, g: Geometry, p: Path, now: Obs)
    requires Names(t) == Names(s) && Changed(t, u, g, p, now)
    ensures Changed(s, u, g, p, now)
  {
  }

  lemma ChangedThenSame(s: Snap, t: Snap, u: Snap, g: Geometry, p: Path, now: Obs)
    requires Changed(s, t, g, p, now) && Names(u) == Names(t)
    ensures Changed(s, u, g, p, now)
  {
  }

  // ---- Counting free clusters ----

  lemma CountedAlloc(v: Vol, count: nat, cb: nat)
    requires Counted(v) && |v.fat| < EOC_THRESHOLD && count <= FreeCount(v.fat) && AllocState(v, Taken(v.fat, count))
    ensures Counted(AllocOutcome(v, count, cb))
  {
  }

  lemma FreeCountBound(fat: seq<nat>)
    ensures FreeCount(fat) <= |fat|
  {
    FreeFromSpec(fat, 2);
    Pigeonhole(FreeList(fat), |fat|);
  }

  lemma CountedFree(v: Vol, ch: seq<nat>)
    requires Counted(v) && |v.fat| < EOC_THRESHOLD && IsChain(v.fat, ch)
    ensures Counted(v.(fat := Cleared(v.fat, ch), info := InfoAfter(v.info, |ch|, 0)))
  {
    ChainDistinct(v.fat, ch);
    ChainUsed(v.fat, ch);
    ClearedCount(v.fat, ch);
    FreeCountBound(Cleared(v.fat, ch));
  }

  lemma CountedGrow(v: Vol, ch: seq<nat>, c: nat, cb: nat)
    requires Counted(v) && |v.fat| == |v.data| && |v.fat| < EOC_THRESHOLD && IsChain(v.fat, ch)
    requires 2 <= c < |v.fat| && v.fat[c] == 0 && FreeList(v.fat) != [] && FreeList(v.fat)[0] == c
    ensures Counted(GrownVol(v, ch, c, cb))
  {
    ChainUsed(v.fat, ch);
    FirstIsLeast(v.fat, c);
    FreeAfterLink(v.fat, c, ch[|ch| - 1]);
    FreeCountBound(v.fat);
  }

  lemma FirstIsLeast(fat: seq<nat>, c: nat)
    requires FreeList(fat) != [] && FreeList(fat)[0] == c
    ensures forall x :: 2 <= x < c && x < |fat| ==> fat[x] != 0
  {
    FreeFromSpec(fat, 2);
  }

  // ---- In-range links ----

  lemma InRangeGrown(fat: seq<nat>, last: nat, c: nat)
    requires InRange(fat) && last < |fat| && c < |fat| && |fat| < EOC_THRESHOLD
    ensures InRange(fat[c := END_OF_CHAIN][last := c])
  {
  }

  // ---- Detaching ----

  /** The volume after `free_chain` on the entry's cluster. */
  ghost function FreedVol(v: Vol, e: DirEntry): Vol
    requires InRange(v.fat) && (Follows(e.cluster) ==> e.cluster < |v.fat|)
  {
    if e.cluster >= 2 then
      var n := FreedRounds(v.fat, e.cluster);
      v.(fat := Freed(v.fat, e.cluster), info := if n > 0 then InfoAfter(v.info, n, 0) else v.info)
    else v
  }

  /** A live entry of a directory. */
  ghost predicate EntryAt(s: Snap, P: nat, k: nat, e: DirEntry) {
    P in Dirs(s) && k < |Dirs(s)[P]| && Dirs(s)[P][k] == Live(e)
  }

  lemma EntryCluster(s: Snap, g: Geometry, P: nat, k: nat, e: DirEntry)
    requires Good(s, g) && EntryAt(s, P, k, e)
    ensures e.cluster >= 2 <==> e.cluster in s.shape.chains
    ensures Follows(e.cluster) ==> e.cluster < |s.vol.fat|
    ensures e.isDir ==> e.cluster in s.shape.dirs && e.cluster in s.shape.chains
    ensures !e.isDir ==> e.cluster !in s.shape.dirs
  {
    HeadsAreClusters(s.vol.fat, s.shape);
    assert RefOk(s.shape, g.rootCluster, P, k, Dirs(s)[P][k].entry);
  }

  lemma FreedIs(s: Snap, g: Geometry, P: nat, k: nat, e: DirEntry)
    requires Good(s, g) && EntryAt(s, P, k, e) && e.cluster >= 2
    ensures e.cluster in s.shape.chains && IsChain(s.vol.fat, s.shape.chains[e.cluster]) && e.cluster < |s.vol.fat|
    ensures var ch := s.shape.chains[e.cluster];
            FreedVol(s.vol, e) == s.vol.(fat := Cleared(s.vol.fat, ch), info := InfoAfter(s.vol.info, |ch|, 0))
  {
    EntryCluster(s, g, P, k, e);
    FreedChain(s.vol.fat, s.shape.chains[e.cluster]);
  }

  lemma DeletedMark(slot: Slot)
    ensures Classify(slot[0 := DELETED]) == Gone
  {
  }

  /** The state after entry `e` at slot `k` of `P` was freed and marked deleted. */
  ghost predicate Detached(s: Snap, s': Snap, P: nat, k: nat, e: DirEntry) {
    && InRange(s.vol.fat) && (Follows(e.cluster) ==> e.cluster < |s.vol.fat|)
    && P in s.shape.chains
    && EntryDeleted(FreedVol(s.vol, e), s'.vol, s.shape.chains[P], k)
    && s'.shape == Without(s.shape, e.cluster)
  }

  ghost predicate EmptyIfDir(s: Snap, e: DirEntry) {
    e.isDir ==> e.cluster in Dirs(s) && NoLive(Dirs(s)[e.cluster])
  }

  lemma DetachedParts(s: Snap, g: Geometry, s': Snap, P: nat, k: nat, e: DirEntry)
    requires Good(s, g) && EntryAt(s, P, k, e) && Detached(s, s', P, k, e)
    ensures P in s.shape.dirs && P in s.shape.chains && Clusters(s.shape.chains[P], |s.vol.data|)
    ensures k < |DirSlots(s.vol.data, s.shape.chains[P])|
    ensures var slot := DirSlots(s.vol.data, s.shape.chains[P])[k][0 := DELETED];
            SlotWritten(s.vol.data, s'.vol.data, s.shape.chains[P], k, slot) && Classify(slot) == Gone
    ensures s'.vol.fat == DetachedFat(s.vol.fat, s.shape, e) && s'.vol == FreedVol(s.vol, e).(data := s'.vol.data)
  {
    EntryCluster(s, g, P, k, e);
    if e.cluster >= 2 {
      FreedIs(s, g, P, k, e);
    }
    DeletedMark(DirSlots(s.vol.data, s.shape.chains[P])[k]);
  }

  lemma DetachInvState(s: Snap, g: Geometry, s': Snap, P: nat, k: nat, e: DirEntry)
    requires Good(s, g) && EntryAt(s, P, k, e) && Detached(s, s', P, k, e) && EmptyIfDir(s, e)
    ensures Inv(s'.vol.fat, s'.vol.data, s'.shape, g.rootCluster, g.ClusterBytes())
    ensures e.cluster in s.shape.chains ==> P != e.cluster && e.cluster != g.rootCluster
    ensures Dirs(s') == if e.cluster in s.shape.chains then DetachedListing(Dirs(s), P, k, e.cluster)
                        else Dirs(s)[P := Dirs(s)[P][k := Gone]]
  {
    DetachedParts(s, g, s', P, k, e);
    EntryCluster(s, g, P, k, e);
    var slot := DirSlots(s.vol.data, s.shape.chains[P])[k][0 := DELETED];
    if e.cluster in s.shape.chains {
      DetachInv(s.shape, s.vol.fat, s.vol.data, s'.vol.data, P, k, slot, e.cluster, g.rootCluster, g.ClusterBytes());
    } else {
      DetachBareInv(s.shape, s.vol.fat, s.vol.data, s'.vol.data, P, k, slot, g.rootCluster, g.ClusterBytes());
    }
  }

  ghost function GoneSet(s: Snap, e: DirEntry): set<nat> {
    if e.cluster in s.shape.chains then {e.cluster} else {}
  }

  lemma DetachEditState(s: Snap, g: Geometry, s': Snap, P: nat, k: nat, e: DirEntry)
    requires Good(s, g) && EntryAt(s, P, k, e) && Detached(s, s', P, k, e) && EmptyIfDir(s, e)
    ensures Edit(Names(s), Names(s'), P, e.name, GoneSet(s, e)) && g.rootCluster !in GoneSet(s, e)
    ensures P in Names(s') && e.name !in Names(s')[P]
  {
    DetachInvState(s, g, s', P, k, e);
    DetachedParts(s, g, s', P, k, e);
    EntryCluster(s, g, P, k, e);
    var slot := DirSlots(s.vol.data, s.shape.chains[P])[k][0 := DELETED];
    if e.cluster in s.shape.chains {
      DetachEdit(s.shape, s.vol.fat, s.vol.data, s'.vol.data, P, k, slot, e.cluster, g.rootCluster);
    } else {
      DetachBareEdit(s.shape, s.vol.fat, s.vol.data, s'.vol.data, P, k, slot, g.rootCluster);
    }
  }

  lemma DetachGood(s: Snap, g: Geometry, s': Snap, P: nat, k: nat, e: DirEntry)
    requires Good(s, g) && EntryAt(s, P, k, e) && Detached(s, s', P, k, e) && EmptyIfDir(s, e)
    ensures Good(s', g)
    ensures P in s'.shape.dirs && P in s'.shape.chains && s'.shape.chains[P] == s.shape.chains[P]
  {
    DetachInvState(s, g, s', P, k, e);
    DetachedParts(s, g, s', P, k, e);
    DetachedInRange(s.vol.fat, s.shape, e);
    GoodOf(s', g, |s.vol.fat|);
    WithoutKeeps(s.shape, e.cluster, P);
  }

  lemma GoodOf(s: Snap, g: Geometry, n: nat)
    requires |s.vol.fat| == n == g.TotalClusters() && 2 <= g.rootCluster < n && InRange(s.vol.fat)
    requires Inv(s.vol.fat, s.vol.data, s.shape, g.rootCluster, g.ClusterBytes())
    ensures Good(s, g)
  {
  }

  lemma DetachedInRange(fat: seq<nat>, S: Shape, e: DirEntry)
    requires InRange(fat)
    ensures InRange(DetachedFat(fat, S, e)) && |DetachedFat(fat, S, e)| == |fat|
  {
  }

  lemma WithoutKeeps(S: Shape, h: nat, P: nat)
    requires P in S.dirs && P in S.chains && (h in S.chains ==> P != h)
    ensures P in Without(S, h).dirs && P in Without(S, h).chains && Without(S, h).chains[P] == S.chains[P]
  {
  }

  /** Detaching leaks nothing, keeps the FSInfo count right and gives clusters back. */
  lemma DetachCounts(s: Snap, g: Geometry, s': Snap, P: nat, k: nat, e: DirEntry)
    requires Good(s, g) && EntryAt(s, P, k, e) && Detached(s, s', P, k, e) && EmptyIfDir(s, e)
    ensures Tight(s) ==> Tight(s')
    ensures Counted(s.vol) ==> Counted(s'.vol)
    ensures FreeCount(s'.vol.fat) == FreeCount(s.vol.fat) + Clustered(s, e) && s'.vol.frozen == s.vol.frozen
    ensures Counted(s.vol) ==> (Known(s'.vol.info) <==> Known(s.vol.info))
  {
    DetachedParts(s, g, s', P, k, e);
    EntryCluster(s, g, P, k, e);
    if e.cluster in s.shape.chains {
      FreedIs(s, g, P, k, e);
      ClearCounts(s.vol, s.shape, e.cluster);
      KnownAfterFree(s.vol, s.shape.chains[e.cluster]);
    }
  }

  lemma KnownAfterFree(v: Vol, ch: seq<nat>)
    requires |v.fat| < EOC_THRESHOLD && IsChain(v.fat, ch)
    ensures Counted(v) ==> (Known(InfoAfter(v.info, |ch|, 0)) <==> Known(v.info))
  {
    ChainDistinct(v.fat, ch);
    ChainUsed(v.fat, ch);
    ClearedCount(v.fat, ch);
    FreeCountBound(Cleared(v.fat, ch));
  }

  lemma ClearCounts(v: Vol, S: Shape, h: nat)
    requires |v.fat| < EOC_THRESHOLD && OwnersOk(S) && h in S.chains && IsChain(v.fat, S.chains[h])
    ensures NoLeaks(v.fat, S) ==> NoLeaks(Cleared(v.fat, S.chains[h]), Without(S, h))
    ensures Counted(v) ==> Counted(v.(fat := Cleared(v.fat, S.chains[h]), info := InfoAfter(v.info, |S.chains[h]|, 0)))
    ensures FreeCount(Cleared(v.fat, S.chains[h])) == FreeCount(v.fat) + |S.chains[h]|
  {
    var ch := S.chains[h];
    ChainDistinct(v.fat, ch);
    ChainUsed(v.fat, ch);
    ClearedCount(v.fat, ch);
    if NoLeaks(v.fat, S) {
      ClearedLeaks(v.fat, S, h);
    }
    if Counted(v) {
      CountedFree(v, ch);
    }
  }

  /** An edit shown on every path. */
  lemma EditChanges(s: Snap, s': Snap, g: Geometry, parent: Path, name: Str, P: nat, gone: set<nat>, now: Obs)
    requires GraphOk(Names(s), g.rootCluster) && Leads(s, g, parent, P) && g.rootCluster !in gone
    requires Edit(Names(s), Names(s'), P, Lower(name), gone) && Shows(Names(s'), P, name, now)
    ensures Changed(s, s', g, parent + [name], now) && Leads(s', g, parent, P)
  {
    EditKeepsParent(Names(s), Names(s'), g.rootCluster, parent, name, P, gone);
    forall q
      ensures Seen(s', g, q) == After(Seen(s, g, q), q, parent + [name], now)
    {
      EditObserved(Names(s), Names(s'), g.rootCluster, parent, name, P, gone, now, q);
    }
  }

  /** Detaching an entry makes its path, and everything below it, disappear; nothing else changes. */
  lemma DetachSeen(s: Snap, g: Geometry, s': Snap, parent: Path, name: Str, P: nat, k: nat, e: DirEntry)
    requires Good(s, g) && EntryAt(s, P, k, e) && Detached(s, s', P, k, e) && EmptyIfDir(s, e)
    requires Leads(s, g, parent, P) && e.name == Lower(name)
    ensures Changed(s, s', g, parent + [name], Absent(NotFound)) && Leads(s', g, parent, P)
  {
    DetachEditState(s, g, s', P, k, e);
    TreeOfNames(s.vol.data, s.shape, g.rootCluster);
    EditChanges(s, s', g, parent, name, P, GoneSet(s, e), Absent(NotFound));
  }

  lemma NameGone(s: Snap, g: Geometry, P: nat, name: Str)
    requires Good(s, g) && P in s.shape.dirs && Lower(name) !in Names(s)[P]
    ensures Find(Dirs(s)[P], name) < 0
  {
    GraphKeys(s.vol.data, s.shape, P);
    EntryMapAt(Dirs(s)[P], name);
  }

  lemma DetachFree(s: Snap, g: Geometry, s': Snap, P: nat, k: nat, e: DirEntry, name: Str)
    requires Good(s, g) && EntryAt(s, P, k, e) && Detached(s, s', P, k, e) && EmptyIfDir(s, e) && e.name == Lower(name)
    ensures P in s'.shape.dirs && Find(Dirs(s')[P], name) < 0
  {
    DetachGood(s, g, s', P, k, e);
    DetachEditState(s, g, s', P, k, e);
    NameGone(s', g, P, name);
  }

  // ---- Attaching ----

  /** A chain ready to be hung up: nobody owns it, and it is an empty directory if it is to be one. */
  ghost predicate Fresh(s: Snap, ch: seq<nat>, cluster: nat, isDir: bool) {
    if ch == [] then cluster < 2 && !isDir
    else
      && IsChain(s.vol.fat, ch) && ch[0] == cluster && Clusters(ch, |s.vol.data|)
      && (forall c :: c in ch ==> c !in s.shape.owner)
      && (isDir ==> DirOk(Marks(DirSlots(s.vol.data, ch))) && NoLive(Marks(DirSlots(s.vol.data, ch))))
  }

  /** Every used cluster is owned or in `ch`. */
  ghost predicate TightBut(s: Snap, ch: seq<nat>) {
    forall c :: 2 <= c < |s.vol.fat| && s.vol.fat[c] != 0 ==> c in s.shape.owner || c in ch
  }

  /** The first `size` bytes of a chain. */
  ghost function FirstBytes(data: seq<seq<byte>>, ch: seq<nat>, size: nat): seq<byte>
    requires Clusters(ch, |data|)
  {
    var all := ChainBytes(data, ch);
    if |all| <= size then all else all[..size]
  }

  // Growing the directory first

  ghost function GrownSnap(s: Snap, g: Geometry, P: nat, c: nat): Snap
    requires Good(s, g) && P in s.shape.dirs && 2 <= c < |s.vol.fat|
  {
    DirChain(s, g, P);
    Snap(GrownVol(s.vol, s.shape.chains[P], c, g.ClusterBytes()), GrownShape(s.shape, P, c))
  }

  lemma DirChain(s: Snap, g: Geometry, P: nat)
    requires Good(s, g) && P in s.shape.dirs
    ensures P in s.shape.chains && IsChain(s.vol.fat, s.shape.chains[P]) && s.shape.chains[P][0] == P
    ensures Clusters(s.shape.chains[P], |s.vol.data|) && Clusters(s.shape.chains[P], |s.vol.fat|)
    ensures Dirs(s)[P] == Marks(DirSlots(s.vol.data, s.shape.chains[P])) && P in s.shape.depth
  {
  }

  lemma FreeUnowned(s: Snap, g: Geometry, c: nat)
    requires Good(s, g) && c < |s.vol.fat| && s.vol.fat[c] == 0
    ensures c !in s.shape.owner
  {
    if c in s.shape.owner {
      OwnedClusters(s.vol.fat, s.shape, c);
    }
  }

  lemma GrowGood(s: Snap, g: Geometry, P: nat, c: nat)
    requires Good(s, g) && P in s.shape.dirs && NoneDead(Dirs(s)[P])
    requires 2 <= c < |s.vol.fat| && s.vol.fat[c] == 0
    ensures Good(GrownSnap(s, g, P, c), g)
    ensures Names(GrownSnap(s, g, P, c)) == Names(s)
    ensures P in Dirs(GrownSnap(s, g, P, c))
    ensures EntryMap(Dirs(GrownSnap(s, g, P, c))[P]) == EntryMap(Dirs(s)[P])
  {
    DirChain(s, g, P);
    FreeUnowned(s, g, c);
    var ch, s' := s.shape.chains[P], GrownSnap(s, g, P, c);
    GrowInv(s.shape, s.vol.fat, s.vol.data, P, c, s'.vol.fat, s'.vol.data, g.rootCluster, g.ClusterBytes());
    GrowGraph(s.shape, s.vol.fat, s.vol.data, P, c, s'.vol.data, g.rootCluster, g.ClusterBytes());
    InRangeGrown(s.vol.fat, ch[|ch| - 1], c);
    GoodOf(s', g, |s.vol.fat|);
  }

  lemma UsedNotFree(fat: seq<nat>, ch: seq<nat>, c: nat)
    requires IsChain(fat, ch) && c < |fat| && fat[c] == 0
    ensures c !in ch
  {
    ChainUsed(fat, ch);
  }

  lemma LastOwned(S: Shape, P: nat)
    requires OwnersOk(S) && P in S.chains && S.chains[P] != []
    ensures S.chains[P][|S.chains[P]| - 1] in S.owner
  {
  }

  /** Growing a directory by `c` leaves a chain apart from it alone. */
  lemma GrownApart(v: Vol, dir: seq<nat>, c: nat, cb: nat, ch: seq<nat>)
    requires |v.fat| == |v.data| && |v.fat| < EOC_THRESHOLD && IsChain(v.fat, dir) && IsChain(v.fat, ch)
             && 2 <= c < |v.fat|
    requires c !in ch && dir[|dir| - 1] !in ch && Clusters(ch, |v.data|)
    ensures var v' := GrownVol(v, dir, c, cb);
            && IsChain(v'.fat, ch) && DirSlots(v'.data, ch) == DirSlots(v.data, ch)
            && ChainBytes(v'.data, ch) == ChainBytes(v.data, ch)
  {
  }

  lemma GrowFreshChain(s: Snap, g: Geometry, P: nat, c: nat, ch: seq<nat>, cluster: nat, isDir: bool)
    requires Good(s, g) && P in s.shape.dirs && 2 <= c < |s.vol.fat| && s.vol.fat[c] == 0
    requires Fresh(s, ch, cluster, isDir) && ch != []
    ensures Fresh(GrownSnap(s, g, P, c), ch, cluster, isDir)
    ensures ChainBytes(GrownSnap(s, g, P, c).vol.data, ch) == ChainBytes(s.vol.data, ch)
  {
    DirChain(s, g, P);
    UsedNotFree(s.vol.fat, ch, c);
    LastOwned(s.shape, P);
    GrownApart(s.vol, s.shape.chains[P], c, g.ClusterBytes(), ch);
    FreshOwners(s.shape, P, c, ch);
  }

  lemma FreshOwners(S: Shape, P: nat, c: nat, ch: seq<nat>)
    requires P in S.chains && c !in ch && forall x :: x in ch ==> x !in S.owner
    ensures forall x :: x in ch ==> x !in GrownShape(S, P, c).owner
  {
  }

  lemma GrowTight(s: Snap, g: Geometry, P: nat, c: nat, ch: seq<nat>)
    requires Good(s, g) && P in s.shape.dirs && 2 <= c < |s.vol.fat| && TightBut(s, ch)
    ensures TightBut(GrownSnap(s, g, P, c), ch)
  {
    DirChain(s, g, P);
    var last := s.shape.chains[P][|s.shape.chains[P]| - 1];
    assert last in s.shape.owner by { LastOwned(s.shape, P); }
    GrownLeaksBut(s.vol.fat, s.shape, P, c, last, ch);
    TightOf(GrownSnap(s, g, P, c), s.vol.fat[c := END_OF_CHAIN][last := c], GrownShape(s.shape, P, c), ch);
  }

  lemma TightOf(s: Snap, fat: seq<nat>, S: Shape, ch: seq<nat>)
    requires s.vol.fat == fat && s.shape == S
    requires forall x :: 2 <= x < |fat| && fat[x] != 0 ==> x in S.owner || x in ch
    ensures TightBut(s, ch)
  {
  }

  lemma GrownLeaksBut(fat: seq<nat>, S: Shape, P: nat, c: nat, last: nat, ch: seq<nat>)
    requires P in S.chains && c < |fat| && last < |fat| && last in S.owner
    requires forall x :: 2 <= x < |fat| && fat[x] != 0 ==> x in S.owner || x in ch
    ensures var fat' := fat[c := END_OF_CHAIN][last := c];
            forall x :: 2 <= x < |fat| && fat'[x] != 0 ==> x in GrownShape(S, P, c).owner || x in ch
  {
  }

  lemma GrowFresh(s: Snap, g: Geometry, P: nat, c: nat, ch: seq<nat>, cluster: nat, isDir: bool)
    requires Good(s, g) && P in s.shape.dirs && 2 <= c < |s.vol.fat| && s.vol.fat[c] == 0
    requires Fresh(s, ch, cluster, isDir)
    ensures Fresh(GrownSnap(s, g, P, c), ch, cluster, isDir)
    ensures Clusters(ch, |s.vol.data|) && ChainBytes(GrownSnap(s, g, P, c).vol.data, ch) == ChainBytes(s.vol.data, ch)
  {
    if ch != [] {
      GrowFreshChain(s, g, P, c, ch, cluster, isDir);
    }
  }

  // Hanging the entry up

  ghost predicate Attached(s: Snap, s': Snap, P: nat, k: nat, slot: Slot, e: DirEntry, ch: seq<nat>) {
    && P in s.shape.chains && P in s.shape.depth
    && EntryAdded(s.vol, s'.vol, s.shape.chains[P], slot, k) && Classify(slot) == Live(e)
    && s'.shape == With(s.shape, ch, e.isDir, P, k)
  }

  ghost function Inside(s: Snap, ch: seq<nat>): seq<Mark>
    requires Clusters(ch, |s.vol.data|)
  {
    Marks(DirSlots(s.vol.data, ch))
  }

  lemma AttachInvState(s: Snap, g: Geometry, s': Snap, P: nat, k: nat, slot: Slot, e: DirEntry, ch: seq<nat>)
    requires Good(s, g) && P in s.shape.dirs && Attached(s, s', P, k, slot, e, ch) && Fresh(s, ch, e.cluster, e.isDir)
    requires Find(Dirs(s)[P], e.name) < 0 && Lower(e.name) == e.name
    ensures Inv(s'.vol.fat, s'.vol.data, s'.shape, g.rootCluster, g.ClusterBytes())
    ensures Clusters(ch, |s.vol.data|) && (ch != [] ==> ch[0] !in s.shape.chains) && k < |Dirs(s)[P]|
    ensures Dirs(s') == AttachedListing(Dirs(s), P, k, e, ch, Inside(s, ch))
  {
    DirChain(s, g, P);
    if ch != [] {
      AttachInv(s.shape, s.vol.fat, s.vol.data, s'.vol.data, P, k, slot, e, ch, g.rootCluster, g.ClusterBytes());
    } else {
      AttachBareInv(s.shape, s.vol.fat, s.vol.data, s'.vol.data, P, k, slot, e, g.rootCluster, g.ClusterBytes());
    }
  }

  lemma AttachEditState(s: Snap, g: Geometry, s': Snap, P: nat, k: nat, slot: Slot, e: DirEntry, ch: seq<nat>)
    requires Good(s, g) && P in s.shape.dirs && Attached(s, s', P, k, slot, e, ch) && Fresh(s, ch, e.cluster, e.isDir)
    requires Find(Dirs(s)[P], e.name) < 0 && Lower(e.name) == e.name
    ensures Edit(Names(s), Names(s'), P, e.name, {})
    ensures P in Names(s') && e.name in Names(s')[P] && Names(s')[P][e.name] == EntOf(s'.vol.data, s'.shape, e)
  {
    DirChain(s, g, P);
    AttachInvState(s, g, s', P, k, slot, e, ch);
    AttachEdit(s.shape, s.vol.fat, s.vol.data, s'.vol.data, P, k, slot, e, ch, Inside(s, ch), g.rootCluster);
  }

  /** What the new entry shows. */
  ghost function NewObs(s: Snap, e: DirEntry, ch: seq<nat>): Obs
    requires Clusters(ch, |s.vol.data|)
  {
    if e.isDir then Dir else File(if e.size == 0 then [] else FirstBytes(s.vol.data, ch, e.size))
  }

  lemma AttachContent(s: Snap, s': Snap, P: nat, k: nat, slot: Slot, e: DirEntry, ch: seq<nat>)
    requires OwnersOk(s.shape) && Attached(s, s', P, k, slot, e, ch) && Fresh(s, ch, e.cluster, e.isDir) && !e.isDir
    requires ch != [] ==> e.cluster >= 2
    requires Clusters(ch, |s.vol.data|)
    ensures Content(s'.vol.data, s'.shape, e) == if e.size == 0 then [] else FirstBytes(s.vol.data, ch, e.size)
  {
    if ch != [] {
      forall c | c in ch
        ensures s'.vol.data[c] == s.vol.data[c]
      {
        assert c !in s.shape.chains[P];
      }
      ChainBytesKept(s.vol.data, s'.vol.data, ch);
    }
  }

  lemma AttachShows(s: Snap, g: Geometry, s': Snap, P: nat, k: nat, slot: Slot, e: DirEntry, ch: seq<nat>, name: Str)
    requires Good(s, g) && P in s.shape.dirs && Attached(s, s', P, k, slot, e, ch) && Fresh(s, ch, e.cluster, e.isDir)
    requires Find(Dirs(s)[P], e.name) < 0 && Lower(e.name) == e.name == Lower(name)
    ensures Clusters(ch, |s.vol.data|) && Shows(Names(s'), P, name, NewObs(s, e, ch))
  {
    AttachInvState(s, g, s', P, k, slot, e, ch);
    AttachEditState(s, g, s', P, k, slot, e, ch);
    if e.isDir {
      NewDirEmpty(s, s', P, k, e, ch);
    } else {
      AttachContent(s, s', P, k, slot, e, ch);
    }
  }

  lemma NewDirEmpty(s: Snap, s': Snap, P: nat, k: nat, e: DirEntry, ch: seq<nat>)
    requires ch != [] && e.isDir && Clusters(ch, |s.vol.data|) && NoLive(Inside(s, ch))
    requires P in Dirs(s) && k < |Dirs(s)[P]| && Dirs(s') == AttachedListing(Dirs(s), P, k, e, ch, Inside(s, ch))
    ensures ch[0] in Names(s') && Names(s')[ch[0]] == map[]
  {
  }

  /** Attaching an entry makes its path appear, with the chain's bytes or as an empty directory, and
      changes nothing else. */
  lemma AttachSeen(s: Snap, g: Geometry, s': Snap, parent: Path, name: Str, P: nat, k: nat, slot: Slot, e: DirEntry,
                   ch: seq<nat>)
    requires Good(s, g) && P in s.shape.dirs && Attached(s, s', P, k, slot, e, ch) && Fresh(s, ch, e.cluster, e.isDir)
    requires Find(Dirs(s)[P], e.name) < 0 && Lower(e.name) == e.name == Lower(name) && Leads(s, g, parent, P)
    ensures Clusters(ch, |s.vol.data|) && Changed(s, s', g, parent + [name], NewObs(s, e, ch))
            && Leads(s', g, parent, P)
  {
    AttachShows(s, g, s', P, k, slot, e, ch, name);
    AttachEditState(s, g, s', P, k, slot, e, ch);
    TreeOfNames(s.vol.data, s.shape, g.rootCluster);
    EditChanges(s, s', g, parent, name, P, {}, NewObs(s, e, ch));
  }

  lemma AttachGood(s: Snap, g: Geometry, s': Snap, P: nat, k: nat, slot: Slot, e: DirEntry, ch: seq<nat>)
    requires Good(s, g) && P in s.shape.dirs && Attached(s, s', P, k, slot, e, ch) && Fresh(s, ch, e.cluster, e.isDir)
    requires Find(Dirs(s)[P], e.name) < 0 && Lower(e.name) == e.name
    ensures Good(s', g)
    ensures TightBut(s, ch) ==> Tight(s')
    ensures Counted(s.vol) ==> Counted(s'.vol)
    ensures s'.vol.frozen == s.vol.frozen
  {
    AttachInvState(s, g, s', P, k, slot, e, ch);
    GoodOf(s', g, |s.vol.fat|);
    if TightBut(s, ch) {
      AttachedLeaks(s.vol.fat, s.shape, ch, e.isDir, P, k);
    }
  }

  // ---- A whole `add_dir_entry` ----

  ghost function LeastFreeCluster(s: Snap): nat {
    if FreeList(s.vol.fat) == [] then 0 else FreeList(s.vol.fat)[0]
  }

  /** The state the entry goes into: the directory grown by one cluster if it was full. */
  ghost function Room(s: Snap, g: Geometry, P: nat): Snap
    requires Good(s, g) && P in s.shape.dirs
  {
    var c := LeastFreeCluster(s);
    if NoneDead(Dirs(s)[P]) && 2 <= c < |s.vol.fat| then GrownSnap(s, g, P, c) else s
  }

  ghost predicate Placed(s: Snap, s': Snap, g: Geometry, P: nat, k: nat, slot: Slot, e: DirEntry, ch: seq<nat>)
    requires Good(s, g) && P in s.shape.dirs
  {
    && P in s.shape.chains && IsChain(s.vol.fat, s.shape.chains[P]) && Clusters(s.shape.chains[P], |s.vol.data|)
    && EntryPlaced(s.vol, s'.vol, s.shape.chains[P], slot, k, g.ClusterBytes()) && Classify(slot) == Live(e)
    && P in Room(s, g, P).shape.depth && s'.shape == With(Room(s, g, P).shape, ch, e.isDir, P, k)
  }

  lemma RoomState(s: Snap, s': Snap, g: Geometry, P: nat, k: nat, slot: Slot, e: DirEntry, ch: seq<nat>)
    requires Good(s, g) && P in s.shape.dirs && Placed(s, s', g, P, k, slot, e, ch) && Fresh(s, ch, e.cluster, e.isDir)
    requires Find(Dirs(s)[P], e.name) < 0 && Lower(e.name) == e.name
    ensures var t := Room(s, g, P);
            && Good(t, g) && Names(t) == Names(s) && P in t.shape.dirs && Attached(t, s', P, k, slot, e, ch)
            && Find(Dirs(t)[P], e.name) < 0
  {
    DirChain(s, g, P);
    if NoneDead(Dirs(s)[P]) {
      var c := LeastFreeCluster(s);
      GrowGood(s, g, P, c);
      EntryMapAt(Dirs(s)[P], e.name);
      EntryMapAt(Dirs(GrownSnap(s, g, P, c))[P], e.name);
    }
  }

  lemma LeastFreeIsFree(s: Snap)
    ensures 2 <= LeastFreeCluster(s) < |s.vol.fat| ==> s.vol.fat[LeastFreeCluster(s)] == 0
  {
    FreeFromSpec(s.vol.fat, 2);
  }

  lemma RoomFresh(s: Snap, g: Geometry, P: nat, ch: seq<nat>, cluster: nat, isDir: bool)
    requires Good(s, g) && P in s.shape.dirs && Fresh(s, ch, cluster, isDir)
    ensures Fresh(Room(s, g, P), ch, cluster, isDir)
    ensures Clusters(ch, |s.vol.data|) && Clusters(ch, |Room(s, g, P).vol.data|)
    ensures ChainBytes(Room(s, g, P).vol.data, ch) == ChainBytes(s.vol.data, ch)
  {
    LeastFreeIsFree(s);
    if Room(s, g, P) != s {
      GrowFresh(s, g, P, LeastFreeCluster(s), ch, cluster, isDir);
    }
  }

  lemma RoomTight(s: Snap, g: Geometry, P: nat, ch: seq<nat>)
    requires Good(s, g) && P in s.shape.dirs && TightBut(s, ch)
    ensures TightBut(Room(s, g, P), ch)
  {
    var t, c := Room(s, g, P), LeastFreeCluster(s);
    if t != s {
      GrowTight(s, g, P, c, ch);
    }
  }

  lemma RoomCounted(s: Snap, s': Snap, g: Geometry, P: nat, k: nat, slot: Slot, e: DirEntry, ch: seq<nat>)
    requires Good(s, g) && P in s.shape.dirs && Placed(s, s', g, P, k, slot, e, ch)
    ensures Counted(s.vol) ==> Counted(Room(s, g, P).vol)
    ensures Room(s, g, P).vol.frozen == s.vol.frozen
  {
    DirChain(s, g, P);
    if NoneDead(Dirs(s)[P]) && Counted(s.vol) {
      CountedGrow(s.vol, s.shape.chains[P], LeastFreeCluster(s), g.ClusterBytes());
    }
  }

  lemma NewObsSame(s: Snap, t: Snap, e: DirEntry, ch: seq<nat>)
    requires Clusters(ch, |s.vol.data|) && Clusters(ch, |t.vol.data|)
    requires ChainBytes(t.vol.data, ch) == ChainBytes(s.vol.data, ch)
    ensures NewObs(t, e, ch) == NewObs(s, e, ch)
  {
  }

  /** A whole `add_dir_entry`, growth included: the shape is kept, nothing leaks, the count stays right. */
  lemma PlaceGood(s: Snap, s': Snap, g: Geometry, P: nat, k: nat, slot: Slot, e: DirEntry, ch: seq<nat>)
    requires Good(s, g) && P in s.shape.dirs && Placed(s, s', g, P, k, slot, e, ch) && Fresh(s, ch, e.cluster, e.isDir)
    requires Find(Dirs(s)[P], e.name) < 0 && Lower(e.name) == e.name
    ensures Good(s', g)
    ensures TightBut(s, ch) ==> Tight(s')
    ensures Counted(s.vol) ==> Counted(s'.vol)
    ensures s'.vol.frozen == s.vol.frozen
  {
    RoomState(s, s', g, P, k, slot, e, ch);
    RoomFresh(s, g, P, ch, e.cluster, e.isDir);
    RoomCounted(s, s', g, P, k, slot, e, ch);
    if TightBut(s, ch) {
      RoomTight(s, g, P, ch);
    }
    AttachGood(Room(s, g, P), g, s', P, k, slot, e, ch);
  }

  /** A whole `add_dir_entry`, growth included: the new path appears and nothing else changes. */
  lemma PlaceSeen(s: Snap, s': Snap, g: Geometry, parent: Path, name: Str, P: nat, k: nat, slot: Slot, e: DirEntry,
                  ch: seq<nat>)
    requires Good(s, g) && P in s.shape.dirs && Placed(s, s', g, P, k, slot, e, ch) && Fresh(s, ch, e.cluster, e.isDir)
    requires Find(Dirs(s)[P], e.name) < 0 && Lower(e.name) == e.name == Lower(name) && Leads(s, g, parent, P)
    ensures Clusters(ch, |s.vol.data|) && Changed(s, s', g, parent + [name], NewObs(s, e, ch))
  {
    var t := Room(s, g, P);
    RoomState(s, s', g, P, k, slot, e, ch);
    RoomFresh(s, g, P, ch, e.cluster, e.isDir);
    NewObsSame(s, t, e, ch);
    AttachSeen(t, g, s', parent, name, P, k, slot, e, ch);
    SameThenChanged(s, t, s', g, parent + [name], NewObs(s, e, ch));
  }

  /** The new directory `ch` hangs at `p` in `s'`, with the bytes it had in `s`. */
  ghost predicate HungDir(s: Snap, s': Snap, g: Geometry, p: Path, ch: seq<nat>) {
    && ch != [] && Leads(s', g, p, ch[0]) && ch[0] in s'.shape.chains && s'.shape.chains[ch[0]] == ch
    && |s'.vol.data| == |s.vol.data| && forall c :: c in ch && c < |s.vol.data| ==> s'.vol.data[c] == s.vol.data[c]
  }

  /** `slot` stands in directory `P`, where the last name of `p` belongs. */
  ghost predicate SlotAt(s: Snap, g: Geometry, p: Path, P: nat, slot: Slot) {
    && p != [] && Leads(s, g, p[..|p| - 1], P)
    && P in s.shape.chains && Clusters(s.shape.chains[P], |s.vol.data|)
    && slot in DirSlots(s.vol.data, s.shape.chains[P])
  }

  /** Hanging up a fresh chain leaves the chain of directory `P` alone. */
  lemma WithKeeps(S: Shape, ch: seq<nat>, isDir: bool, P: nat, k: nat)
    requires OwnersOk(S) && P in S.depth && P in S.chains && S.chains[P] != [] && S.chains[P][0] == P
    requires forall c :: c in ch ==> c !in S.owner
    ensures P in With(S, ch, isDir, P, k).chains && With(S, ch, isDir, P, k).chains[P] == S.chains[P]
  {
    assert P in S.chains[P];
    if ch != [] {
      assert ch[0] in ch;
    }
  }

  lemma SlotInPlace(v: Vol, v': Vol, ch: seq<nat>, slot: Slot, k: nat)
    requires EntryAdded(v, v', ch, slot, k)
    ensures Clusters(ch, |v'.data|) && slot in DirSlots(v'.data, ch)
  {
    assert DirSlots(v'.data, ch)[k] == slot;
  }

  lemma AttachSlot(s: Snap, s': Snap, P: nat, k: nat, slot: Slot, e: DirEntry, ch: seq<nat>)
    requires OwnersOk(s.shape) && Attached(s, s', P, k, slot, e, ch) && Fresh(s, ch, e.cluster, e.isDir)
    requires s.shape.chains[P] != [] && s.shape.chains[P][0] == P
    ensures P in s'.shape.chains && Clusters(s'.shape.chains[P], |s'.vol.data|)
    ensures slot in DirSlots(s'.vol.data, s'.shape.chains[P])
  {
    WithKeeps(s.shape, ch, e.isDir, P, k);
    SlotInPlace(s.vol, s'.vol, s.shape.chains[P], slot, k);
  }

  /** The slot of a new entry stands in its directory. */
  lemma PlaceSlot(s: Snap, s': Snap, g: Geometry, parent: Path, name: Str, P: nat, k: nat, slot: Slot, e: DirEntry,
                  ch: seq<nat>)
    requires Good(s, g) && P in s.shape.dirs && Placed(s, s', g, P, k, slot, e, ch) && Fresh(s, ch, e.cluster, e.isDir)
    requires Find(Dirs(s)[P], e.name) < 0 && Lower(e.name) == e.name == Lower(name) && Leads(s, g, parent, P)
    ensures SlotAt(s', g, parent + [name], P, slot)
  {
    var t := Room(s, g, P);
    RoomState(s, s', g, P, k, slot, e, ch);
    RoomFresh(s, g, P, ch, e.cluster, e.isDir);
    AttachSeen(t, g, s', parent, name, P, k, slot, e, ch);
    DirChain(t, g, P);
    AttachSlot(t, s', P, k, slot, e, ch);
    assert (parent + [name])[..|parent + [name]| - 1] == parent;
  }

  lemma AttachData(s: Snap, s': Snap, P: nat, k: nat, slot: Slot, e: DirEntry, ch: seq<nat>)
    requires OwnersOk(s.shape) && Attached(s, s', P, k, slot, e, ch) && Fresh(s, ch, e.cluster, e.isDir)
    ensures |s'.vol.data| == |s.vol.data| && forall c :: c in ch && c < |s.vol.data| ==> s'.vol.data[c] == s.vol.data[c]
  {
    forall c | c in ch && c < |s.vol.data|
      ensures s'.vol.data[c] == s.vol.data[c]
    {
      assert c !in s.shape.chains[P];
    }
  }

  lemma GrownVolData(v: Vol, dir: seq<nat>, c: nat, cb: nat, ch: seq<nat>)
    requires dir != [] && dir[|dir| - 1] < |v.fat| && c < |v.fat| && c < |v.data| && c < 0x1_0000_0000 && c !in ch
    ensures var data := GrownVol(v, dir, c, cb).data;
            |data| == |v.data| && forall x :: x in ch && x < |v.data| ==> data[x] == v.data[x]
  {
  }

  lemma GrownData(s: Snap, g: Geometry, P: nat, ch: seq<nat>, cluster: nat, isDir: bool)
    requires Good(s, g) && P in s.shape.dirs && Fresh(s, ch, cluster, isDir)
    ensures var t := Room(s, g, P);
            |t.vol.data| == |s.vol.data| && forall c :: c in ch && c < |s.vol.data| ==> t.vol.data[c] == s.vol.data[c]
  {
    LeastFreeIsFree(s);
    DirChain(s, g, P);
    if Room(s, g, P) != s && ch != [] {
      var c := LeastFreeCluster(s);
      UsedNotFree(s.vol.fat, ch, c);
      GrownVolData(s.vol, s.shape.chains[P], c, g.ClusterBytes(), ch);
    }
  }

  lemma AttachLeads(s: Snap, g: Geometry, s': Snap, parent: Path, name: Str, P: nat, k: nat, slot: Slot, e: DirEntry,
                    ch: seq<nat>)
    requires Good(s, g) && P in s.shape.dirs && Attached(s, s', P, k, slot, e, ch) && Fresh(s, ch, e.cluster, e.isDir)
    requires Find(Dirs(s)[P], e.name) < 0 && Lower(e.name) == e.name == Lower(name) && Leads(s, g, parent, P) && e.isDir
    ensures Leads(s', g, parent + [name], e.cluster)
  {
    AttachSeen(s, g, s', parent, name, P, k, slot, e, ch);
    AttachEditState(s, g, s', P, k, slot, e, ch);
    HeadChild(Names(s'), g.rootCluster, parent, P, name, e.cluster);
  }

  /** A new directory hangs at its path with the bytes it was given. */
  lemma PlaceDir(s: Snap, s': Snap, g: Geometry, parent: Path, name: Str, P: nat, k: nat, slot: Slot, e: DirEntry,
                 ch: seq<nat>)
    requires Good(s, g) && P in s.shape.dirs && Placed(s, s', g, P, k, slot, e, ch) && Fresh(s, ch, e.cluster, e.isDir)
    requires Find(Dirs(s)[P], e.name) < 0 && Lower(e.name) == e.name == Lower(name) && Leads(s, g, parent, P) && e.isDir
    ensures HungDir(s, s', g, parent + [name], ch)
  {
    var t := Room(s, g, P);
    RoomState(s, s', g, P, k, slot, e, ch);
    RoomFresh(s, g, P, ch, e.cluster, e.isDir);
    GrownData(s, g, P, ch, e.cluster, e.isDir);
    AttachData(t, s', P, k, slot, e, ch);
    AttachLeads(t, g, s', parent, name, P, k, slot, e, ch);
  }

  // ---- Looking a path up ----

  /** `lookup` from directory `h`: the entry the path leads to. */
  ghost function Walk(L: Listing, h: nat, p: Path): Result<DirEntry>
    requires p != []
    decreases |p|
  {
    if h !in L then Err(NotFound)
    else
      var i := Find(L[h], p[0]);
      if i < 0 then Err(NotFound)
      else if |p| == 1 then Ok(L[h][i].entry)
      else if !L[h][i].entry.isDir then Err(NotADir)
      else Walk(L, L[h][i].entry.cluster, p[1..])
  }

  lemma WalkChild(s: Snap, g: Geometry, h: nat, name: Str)
    requires Good(s, g) && h in s.shape.dirs
    ensures var i := Find(Dirs(s)[h], name);
            Child(Names(s), h, name) == if i < 0 then None else Some(EntOf(s.vol.data, s.shape, Dirs(s)[h][i].entry))
  {
    EntryMapAt(Dirs(s)[h], name);
    GraphKeys(s.vol.data, s.shape, h);
    if Find(Dirs(s)[h], name) >= 0 {
      GraphValue(s.vol.data, s.shape, h, Lower(name));
    }
  }

  /** `G` names exactly the live entries of `L`. */
  ghost predicate NamedBy(L: Listing, G: Graph, content: DirEntry -> seq<byte>) {
    && (forall h, n {:trigger Child(G, h, n)} :: h in L ==>
          Child(G, h, n) == var i := Find(L[h], n);
                            if i < 0 then None
                            else Some(if L[h][i].entry.isDir then DirEnt(L[h][i].entry.cluster)
                                      else FileEnt(content(L[h][i].entry))))
    && (forall h, i :: h in L && 0 <= i < |L[h]| && L[h][i].Live? && L[h][i].entry.isDir ==> L[h][i].entry.cluster in L)
  }

  lemma {:induction false} WalkNamed(L: Listing, G: Graph, content: DirEntry -> seq<byte>, h: nat, p: Path)
    returns (P: nat, k: nat)
    requires NamedBy(L, G, content) && h in L && p != []
    ensures match Walk(L, h, p)
            case Err(x) => ObsAt(G, h, p) == Absent(x) && HeadAt(G, h, p) == None
            case Ok(e) =>
              && P in L && k < |L[P]| && L[P][k] == Live(e)
              && ObsAt(G, h, p) == (if e.isDir then Dir else File(content(e)))
              && HeadAt(G, h, p) == (if e.isDir then Some(e.cluster) else None)
    decreases |p|
  {
    var c := Child(G, h, p[0]);
    var i := Find(L[h], p[0]);
    P, k := h, 0;
    if i >= 0 {
      k := i;
      var e := L[h][i].entry;
      if |p| > 1 && e.isDir {
        P, k := WalkNamed(L, G, content, e.cluster, p[1..]);
      }
    }
  }

  lemma NamedState(s: Snap, g: Geometry)
    requires Good(s, g)
    ensures NamedBy(Dirs(s), Names(s), e => Content(s.vol.data, s.shape, e))
  {
    var L: Listing, G: Graph := Dirs(s), Names(s);
    forall h, n {:trigger Child(G, h, n)} | h in L
      ensures Child(G, h, n) == var i := Find(L[h], n);
                                if i < 0 then None
                                else Some(if L[h][i].entry.isDir then DirEnt(L[h][i].entry.cluster)
                                          else FileEnt(Content(s.vol.data, s.shape, L[h][i].entry)))
    {
      WalkChild(s, g, h, n);
    }
    forall h: nat, i: nat | h in L && i < |L[h]| && L[h][i].Live? && L[h][i].entry.isDir
      ensures L[h][i].entry.cluster in L
    {
      EntryCluster(s, g, h, i, L[h][i].entry);
    }
  }

  /** What `lookup` returns is what the path shows. */
  lemma WalkSeen(s: Snap, g: Geometry, p: Path) returns (P: nat, k: nat)
    requires Good(s, g) && p != []
    ensures match Walk(Dirs(s), g.rootCluster, p)
            case Err(x) => Seen(s, g, p) == Absent(x) && HeadAt(Names(s), g.rootCluster, p) == None
            case Ok(e) =>
              && EntryAt(s, P, k, e)
              && Seen(s, g, p) == (if e.isDir then Dir else File(Content(s.vol.data, s.shape, e)))
              && HeadAt(Names(s), g.rootCluster, p) == (if e.isDir then Some(e.cluster) else None)
  {
    NamedState(s, g);
    P, k := WalkNamed(Dirs(s), Names(s), e => Content(s.vol.data, s.shape, e), g.rootCluster, p);
  }
}
