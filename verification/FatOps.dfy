/** The steps of the file operations on sound states: what each driver call does to a state, folded so
    that the operations can be read, and verified, without looking inside the invariant. */
module FatOps {
  import opened Bytes
  import opened Results
  import opened Layout
  import opened Chains
  import opened Slots
  import opened ShortNames
  import opened Directory
  import opened Shape
  import opened FatSteps
  import opened Namespace
  import opened Volume
  import opened FatState

  /** `Good`, folded: the quantifier allows just the one geometry. */
  ghost predicate Sound(s: Snap, g: Geometry) {
    forall x: Geometry {:trigger Good(s, x)} :: x == g ==> Good(s, x)
  }

  lemma Unfold(s: Snap, g: Geometry)
    requires Sound(s, g)
    ensures Good(s, g)
  {
  }

  lemma Fold(s: Snap, g: Geometry)
    requires Good(s, g)
    ensures Sound(s, g)
  {
  }

  // ---- Reading ----

  /** A directory's chain and listing. */
  lemma OpenDir(s: Snap, g: Geometry, P: nat)
    requires Sound(s, g) && P in s.shape.dirs
    ensures P in s.shape.chains && IsChain(s.vol.fat, s.shape.chains[P]) && s.shape.chains[P][0] == P
    ensures Clusters(s.shape.chains[P], |s.vol.data|)
    ensures Dirs(s)[P] == Marks(DirSlots(s.vol.data, s.shape.chains[P]))
  {
    Unfold(s, g);
    DirChain(s, g, P);
  }

  lemma RootIsDir(s: Snap, g: Geometry)
    requires Sound(s, g)
    ensures g.rootCluster in s.shape.dirs && Leads(s, g, [], g.rootCluster) && InRange(s.vol.fat)
  {
    Unfold(s, g);
  }

  lemma EntryFacts(s: Snap, g: Geometry, P: nat, k: nat, e: DirEntry)
    requires Sound(s, g) && EntryAt(s, P, k, e)
    ensures e.isDir ==> e.cluster in s.shape.dirs
    ensures Follows(e.cluster) ==> e.cluster < |s.vol.fat|
    ensures e.cluster >= 2 ==> Follows(e.cluster) && e.cluster in s.shape.chains
    ensures e.cluster >= 2 ==> var ch := s.shape.chains[e.cluster];
                               IsChain(s.vol.fat, ch) && ch[0] == e.cluster && Clusters(ch, |s.vol.data|)
  {
    Unfold(s, g);
    EntryCluster(s, g, P, k, e);
    HeadsAreClusters(s.vol.fat, s.shape);
  }

  lemma SearchFacts(s: Snap, g: Geometry, P: nat, name: Str)
    requires Sound(s, g) && P in s.shape.dirs
    ensures var k := Find(Dirs(s)[P], name);
            k >= 0 ==> EntryAt(s, P, k, Dirs(s)[P][k].entry) && Dirs(s)[P][k].entry.name == Lower(name)
                       && Lower(name) != DOT_NAME && Lower(name) != DOT_DOT_NAME
  {
    Unfold(s, g);
    DirChain(s, g, P);
    FindMeans(Dirs(s)[P], name, 0);
    var k := Find(Dirs(s)[P], name);
    if k >= 0 {
      LiveNotDot(DirSlots(s.vol.data, s.shape.chains[P]), k);
    }
  }

  lemma LiveNotDot(slots: seq<Slot>, k: nat)
    requires k < |slots| && Marks(slots)[k].Live?
    ensures Marks(slots)[k].entry.name != DOT_NAME && Marks(slots)[k].entry.name != DOT_DOT_NAME
  {
    MarkAt(slots, k);
  }

  lemma LookSeen(s: Snap, g: Geometry, p: Path) returns (P: nat, k: nat)
    requires Sound(s, g) && p != []
    ensures match Walk(Dirs(s), g.rootCluster, p)
            case Err(x) => Seen(s, g, p) == Absent(x) && HeadAt(Names(s), g.rootCluster, p) == None
            case Ok(e) =>
              && EntryAt(s, P, k, e)
              && Seen(s, g, p) == (if e.isDir then Dir else File(Content(s.vol.data, s.shape, e)))
              && HeadAt(Names(s), g.rootCluster, p) == (if e.isDir then Some(e.cluster) else None)
  {
    Unfold(s, g);
    P, k := WalkSeen(s, g, p);
  }

  /** An entry of a directory shows at the directory's path followed by its name. */
  lemma EntrySeen(s: Snap, g: Geometry, parent: Path, P: nat, name: Str)
    requires Sound(s, g) && P in s.shape.dirs && Leads(s, g, parent, P)
    ensures var k := Find(Dirs(s)[P], name);
            Seen(s, g, parent + [name])
            == if k < 0 then Absent(NotFound)
               else if Dirs(s)[P][k].entry.isDir then Dir
               else File(Content(s.vol.data, s.shape, Dirs(s)[P][k].entry))
  {
    Unfold(s, g);
    WalkChild(s, g, P, name);
    ObsConcat(Names(s), g.rootCluster, parent, [name]);
    OneStep(Names(s), P, name);
  }

  /** A directory entry's path leads to its directory. */
  lemma ChildLeads(s: Snap, g: Geometry, parent: Path, P: nat, name: Str)
    requires Sound(s, g) && P in s.shape.dirs && Leads(s, g, parent, P)
    ensures var k := Find(Dirs(s)[P], name);
            k >= 0 && Dirs(s)[P][k].entry.isDir ==> Leads(s, g, parent + [name], Dirs(s)[P][k].entry.cluster)
  {
    ChildEnt(s, g, P, name);
    var k := Find(Dirs(s)[P], name);
    if k >= 0 && Dirs(s)[P][k].entry.isDir {
      HeadChild(Names(s), g.rootCluster, parent, P, name, Dirs(s)[P][k].entry.cluster);
    }
  }

  lemma ChildEnt(s: Snap, g: Geometry, P: nat, name: Str)
    requires Sound(s, g) && P in s.shape.dirs
    ensures var k := Find(Dirs(s)[P], name);
            k >= 0 && Dirs(s)[P][k].entry.isDir ==>
              Child(Names(s), P, name) == Some(DirEnt(Dirs(s)[P][k].entry.cluster))
  {
    Unfold(s, g);
    WalkChild(s, g, P, name);
  }

  lemma CbPositive(s: Snap, g: Geometry)
    requires Sound(s, g)
    ensures g.ClusterBytes() > 0
  {
    Unfold(s, g);
  }

  lemma OneStep(G: Graph, P: nat, name: Str)
    ensures ObsAt(G, P, [name])
         == match Child(G, P, name)
            case None => Absent(NotFound)
            case Some(FileEnt(b)) => File(b)
            case Some(DirEnt(_)) => Dir
  {
  }

  // ---- Listing ----

  ghost function EntryNames(es: seq<DirEntry>): (r: seq<Str>)
    ensures |r| == |es| && forall i :: 0 <= i < |r| ==> r[i] == es[i].name
  {
    seq(|es|, i requires 0 <= i < |es| => es[i].name)
  }

  lemma {:induction false} EntriesListed(ms: seq<Mark>, i: nat)
    requires TailDead(ms)
    ensures forall j :: 0 <= j < |EntriesFrom(ms, i)| ==>
              exists k :: i <= k < |ms| && ms[k] == Live(EntriesFrom(ms, i)[j])
    ensures forall k :: i <= k < |ms| && ms[k].Live? ==> ms[k].entry in EntriesFrom(ms, i)
    decreases |ms| - i
  {
    if i < |ms| && !ms[i].End? {
      EntriesListed(ms, i + 1);
      var es, rest := EntriesFrom(ms, i), EntriesFrom(ms, i + 1);
      forall j | 0 <= j < |es|
        ensures exists k :: i <= k < |ms| && ms[k] == Live(es[j])
      {
        if ms[i].Live? && j == 0 {
          assert ms[i] == Live(es[j]);
        } else {
          var r := if ms[i].Live? then j - 1 else j;
          assert es[j] == rest[r];
          var k :| i + 1 <= k < |ms| && ms[k] == Live(rest[r]);
        }
      }
      forall k | i <= k < |ms| && ms[k].Live?
        ensures ms[k].entry in es
      {
        if k == i {
          assert es[0] == ms[i].entry;
        } else {
          var r :| 0 <= r < |rest| && rest[r] == ms[k].entry;
          assert es[if ms[i].Live? then r + 1 else r] == rest[r];
        }
      }
    } else {
      assert EntriesFrom(ms, i) == [];
      assert forall k :: i < k < |ms| ==> Dead(ms[k]);
      assert forall k :: i <= k < |ms| ==> !ms[k].Live?;
    }
  }

  lemma NamesCons(e: DirEntry, rest: seq<DirEntry>)
    requires Distinct(EntryNames(rest)) && forall x :: x in rest ==> x.name != e.name
    ensures Distinct(EntryNames([e] + rest))
  {
    forall a, b | 0 <= a < b < |rest| + 1
      ensures EntryNames([e] + rest)[a] != EntryNames([e] + rest)[b]
    {
      if a == 0 {
        assert rest[b - 1] in rest;
      } else {
        assert EntryNames(rest)[a - 1] != EntryNames(rest)[b - 1];
      }
    }
  }

  lemma {:induction false} EntriesDistinct(ms: seq<Mark>, i: nat)
    requires TailDead(ms) && UniqueNames(ms)
    ensures Distinct(EntryNames(EntriesFrom(ms, i)))
    decreases |ms| - i
  {
    if i < |ms| && !ms[i].End? {
      EntriesDistinct(ms, i + 1);
      EntriesListed(ms, i + 1);
      var es, rest := EntriesFrom(ms, i), EntriesFrom(ms, i + 1);
      if ms[i].Live? {
        assert es == [ms[i].entry] + rest;
        forall e | e in rest
          ensures e.name != ms[i].entry.name
        {
          var b :| 0 <= b < |rest| && rest[b] == e;
          var k :| i + 1 <= k < |ms| && ms[k] == Live(rest[b]);
        }
        NamesCons(ms[i].entry, rest);
      } else {
        assert es == rest;
      }
    }
  }

  /** A listing names each visible child once. */
  lemma ListingSeen(s: Snap, g: Geometry, parent: Path, P: nat)
    requires Sound(s, g) && P in s.shape.dirs && Leads(s, g, parent, P)
    ensures var names := EntryNames(EntriesFrom(Dirs(s)[P], 0));
            && Distinct(names)
            && forall n :: n in names <==> n == Lower(n) && !Seen(s, g, parent + [n]).Absent?
  {
    DirListOk(s, g, P);
    var ms := Dirs(s)[P];
    EntriesListed(ms, 0);
    EntriesDistinct(ms, 0);
    var es := EntriesFrom(ms, 0);
    forall n
      ensures n in EntryNames(es) <==> n == Lower(n) && !Seen(s, g, parent + [n]).Absent?
    {
      EntrySeen(s, g, parent, P, n);
      ListedName(ms, es, n);
    }
  }

  lemma DirListOk(s: Snap, g: Geometry, P: nat)
    requires Sound(s, g) && P in s.shape.dirs
    ensures DirOk(Dirs(s)[P])
  {
    Unfold(s, g);
  }

  lemma ListedName(ms: seq<Mark>, es: seq<DirEntry>, n: Str)
    requires DirOk(ms)
    requires forall j :: 0 <= j < |es| ==> exists k :: 0 <= k < |ms| && ms[k] == Live(es[j])
    requires forall k :: 0 <= k < |ms| && ms[k].Live? ==> ms[k].entry in es
    ensures n in EntryNames(es) <==> n == Lower(n) && Find(ms, n) >= 0
  {
    FindMeans(ms, n, 0);
    if n in EntryNames(es) {
      var j :| 0 <= j < |es| && es[j].name == n;
      var k :| 0 <= k < |ms| && ms[k] == Live(es[j]);
    }
    if n == Lower(n) && Find(ms, n) >= 0 {
      var e := ms[Find(ms, n)].entry;
      var j :| 0 <= j < |es| && es[j] == e;
      assert EntryNames(es)[j] == n;
    }
  }

  // ---- Detach ----

  /** Freeing an entry's chain leaves its directory's chain alone. */
  lemma FreeStep(s: Snap, g: Geometry, P: nat, k: nat, e: DirEntry)
    requires Sound(s, g) && EntryAt(s, P, k, e)
    requires EmptyIfDir(s, e)
    ensures InRange(s.vol.fat) && (Follows(e.cluster) ==> e.cluster < |s.vol.fat|)
    ensures P in s.shape.dirs && P in s.shape.chains && IsChain(FreedVol(s.vol, e).fat, s.shape.chains[P])
    ensures FreedVol(s.vol, e).data == s.vol.data && Clusters(s.shape.chains[P], |s.vol.data|)
  {
    Unfold(s, g);
    DirChain(s, g, P);
    EntryCluster(s, g, P, k, e);
    if e.cluster >= 2 {
      FreedIs(s, g, P, k, e);
      NotOwnEntry(s, g, P, k, e);
      ChainBeside(s.shape, s.vol.fat, e.cluster, P);
    }
  }

  lemma ChainBeside(S: Shape, fat: seq<nat>, h: nat, P: nat)
    requires ChainsOk(fat, S) && OwnersOk(S) && h in S.chains && P in S.chains && P != h
    ensures IsChain(Cleared(fat, S.chains[h]), S.chains[P])
  {
    DetachChains(S, fat, h);
    assert P in Without(S, h).chains;
  }

  lemma NotOwnEntry(s: Snap, g: Geometry, P: nat, k: nat, e: DirEntry)
    requires Good(s, g) && EntryAt(s, P, k, e) && e.cluster in s.shape.chains
    ensures P != e.cluster
  {
    assert RefOk(s.shape, g.rootCluster, P, k, Dirs(s)[P][k].entry);
  }

  lemma DetachOp(s: Snap, g: Geometry, s': Snap, parent: Path, name: Str, P: nat, k: nat, e: DirEntry)
    requires Sound(s, g) && EntryAt(s, P, k, e) && Detached(s, s', P, k, e) && EmptyIfDir(s, e)
    requires Leads(s, g, parent, P) && e.name == Lower(name)
    ensures Sound(s', g) && P in s'.shape.dirs && Find(Dirs(s')[P], name) < 0 && !NoneDead(Dirs(s')[P])
    ensures Changed(s, s', g, parent + [name], Absent(NotFound)) && Leads(s', g, parent, P)
    ensures (Tight(s) ==> Tight(s')) && (Counted(s.vol) ==> Counted(s'.vol))
    ensures FreeCount(s'.vol.fat) == FreeCount(s.vol.fat) + Clustered(s, e) && s'.vol.frozen == s.vol.frozen
    ensures Counted(s.vol) ==> (Known(s'.vol.info) <==> Known(s.vol.info))
  {
    Unfold(s, g);
    DetachGood(s, g, s', P, k, e);
    DetachCounts(s, g, s', P, k, e);
    DetachSeen(s, g, s', parent, name, P, k, e);
    DetachFree(s, g, s', P, k, e, name);
    DetachLeavesRoom(s, g, s', P, k, e);
    Fold(s', g);
  }

  lemma DetachLeavesRoom(s: Snap, g: Geometry, s': Snap, P: nat, k: nat, e: DirEntry)
    requires Good(s, g) && EntryAt(s, P, k, e) && Detached(s, s', P, k, e) && EmptyIfDir(s, e)
    ensures P in Dirs(s') && !NoneDead(Dirs(s')[P])
  {
    DetachInvState(s, g, s', P, k, e);
    DetachedDead(Dirs(s), Dirs(s'), P, k, e.cluster);
  }

  lemma DetachedDead(L: Listing, L': Listing, P: nat, k: nat, h: nat)
    requires P in L && k < |L[P]| && (L' == L[P := L[P][k := Gone]] || (P != h && L' == DetachedListing(L, P, k, h)))
    ensures P in L' && !NoneDead(L'[P])
  {
    assert Dead(L'[P][k]);
  }

  /** Where a directory has no entry of a name, that path shows nothing, and clearing it is no change. */
  lemma MissingSame(s: Snap, g: Geometry, parent: Path, P: nat, name: Str)
    requires Sound(s, g) && P in s.shape.dirs && Leads(s, g, parent, P) && Find(Dirs(s)[P], name) < 0
    ensures Changed(s, s, g, parent + [name], Absent(NotFound))
  {
    Unfold(s, g);
    WalkChild(s, g, P, name);
    forall q
      ensures Seen(s, g, q) == After(Seen(s, g, q), q, parent + [name], Absent(NotFound))
    {
      if Under(q, parent + [name]) {
        UnderSplit(q, parent, name);
        ObsThrough(Names(s), g.rootCluster, parent, P, q);
        assert Child(Names(s), P, q[|parent|..][0]) == Child(Names(s), P, name);
      }
    }
  }

  /** A directory with no live entry shows no child, and conversely. */
  lemma EmptySeen(s: Snap, g: Geometry, p: Path, h: nat)
    requires Sound(s, g) && h in s.shape.dirs && Leads(s, g, p, h)
    ensures NoLive(Dirs(s)[h]) <==> forall n :: Seen(s, g, p + [n]).Absent?
    ensures NoLive(Dirs(s)[h]) <==> EntriesFrom(Dirs(s)[h], 0) == []
  {
    DirListOk(s, g, h);
    var ms := Dirs(s)[h];
    EntriesListed(ms, 0);
    if EntriesFrom(ms, 0) != [] {
      var k :| 0 <= k < |ms| && ms[k] == Live(EntriesFrom(ms, 0)[0]);
      assert !NoLive(ms);
    }
    if NoLive(ms) {
      forall n
        ensures Seen(s, g, p + [n]).Absent?
      {
        EntrySeen(s, g, p, h, n);
      }
    } else {
      var i :| 0 <= i < |ms| && ms[i].Live?;
      FindIs(ms, ms[i].entry.name, i);
      EntrySeen(s, g, p, h, ms[i].entry.name);
    }
  }

  // ---- Allocate and fill ----

  /** Changing only clusters nobody owns. */
  lemma TouchOp(s: Snap, g: Geometry, v: Vol)
    requires Sound(s, g) && OwnedKept(s.shape, s.vol.fat, s.vol.data, v.fat, v.data) && Sized(v.data, g.ClusterBytes())
    requires InRange(v.fat)
    ensures Sound(Snap(v, s.shape), g) && Names(Snap(v, s.shape)) == Names(s) && Dirs(Snap(v, s.shape)) == Dirs(s)
  {
    Unfold(s, g);
    UnownedStep(s.shape, s.vol.fat, s.vol.data, v.fat, v.data, g.rootCluster, g.ClusterBytes());
    GoodOf(Snap(v, s.shape), g, |s.vol.fat|);
    Fold(Snap(v, s.shape), g);
  }

  lemma TakenClusters(fat: seq<nat>, taken: seq<nat>)
    requires taken <= FreeList(fat)
    ensures Clusters(taken, |fat|) && Distinct(taken) && forall i :: 0 <= i < |taken| ==> fat[taken[i]] == 0
  {
    FreePrefix(fat, |taken|);
    assert FreeList(fat)[..|taken|] == taken;
  }

  lemma TakenUnowned(s: Snap, g: Geometry, taken: seq<nat>)
    requires Sound(s, g) && Clusters(taken, |s.vol.fat|) && forall i :: 0 <= i < |taken| ==> s.vol.fat[taken[i]] == 0
    ensures forall c :: c in taken ==> c !in s.shape.owner
  {
    Unfold(s, g);
    forall c | c in taken
      ensures c !in s.shape.owner
    {
      var i :| 0 <= i < |taken| && taken[i] == c;
      FreeUnowned(s, g, c);
    }
  }

  lemma AllocKeeps(S: Shape, v: Vol, taken: seq<nat>, cb: nat)
    requires |v.fat| == |v.data| && Clusters(taken, |v.fat|) && forall c :: c in taken ==> c !in S.owner
    ensures OwnedKept(S, v.fat, v.data, Linked(v.fat, taken), Zeroed(v.data, taken, cb))
  {
  }

  lemma AllocInRange(fat: seq<nat>, taken: seq<nat>)
    requires |fat| < EOC_THRESHOLD && InRange(fat) && Clusters(taken, |fat|) && Distinct(taken)
    ensures InRange(Linked(fat, taken))
  {
  }

  /** The state after `allocate_chain(count)`, successful or not: still sound, same name space. */
  lemma AllocOp(s: Snap, g: Geometry, count: nat)
    requires Sound(s, g) && Whole(g, s.vol)
    ensures var t := Snap(AllocOutcome(s.vol, count, g.ClusterBytes()), s.shape);
            Sound(t, g) && Names(t) == Names(s) && Dirs(t) == Dirs(s) && t.vol.frozen == s.vol.frozen
  {
    RootIsDir(s, g);
    var taken, cb := if count == 0 then [] else Taken(s.vol.fat, count), g.ClusterBytes();
    TakenClusters(s.vol.fat, taken);
    TakenUnowned(s, g, taken);
    AllocKeeps(s.shape, s.vol, taken, cb);
    AllocInRange(s.vol.fat, taken);
    AllocStart(s.vol, cb);
    TouchOp(s, g, AllocOutcome(s.vol, count, cb));
  }

  /** On success the new clusters form a fresh chain, and nothing else is leaked. */
  lemma AllocFresh(s: Snap, g: Geometry, count: nat, ch: seq<nat>)
    requires Sound(s, g) && Whole(g, s.vol) && 0 < count <= FreeCount(s.vol.fat) && ch == FreeList(s.vol.fat)[..count]
    requires AllocState(s.vol, Taken(s.vol.fat, count))
    ensures var t := Snap(AllocOutcome(s.vol, count, g.ClusterBytes()), s.shape);
            && Fresh(t, ch, ch[0], false) && ch[0] == FreeList(s.vol.fat)[0] && |ch| == count && Distinct(ch)
            && (Tight(s) ==> TightBut(t, ch)) && (Counted(s.vol) ==> Counted(t.vol))
            && FreeCount(t.vol.fat) == FreeCount(s.vol.fat) - count
            && forall c :: c in ch ==> t.vol.data[c] == Zeros(g.ClusterBytes())
  {
    TakenClusters(s.vol.fat, ch);
    TakenUnowned(s, g, ch);
    LinkedIsChain(s.vol.fat, ch);
    if Tight(s) {
      AllocTight(s.vol.fat, s.shape, ch);
    }
    if Counted(s.vol) {
      CountedAlloc(s.vol, count, g.ClusterBytes());
    }
  }

  /** An allocation that fails marks every free cluster and hands none of them out: it leaks them, and
      FSInfo does not hear of it. */
  lemma FailOp(s: Snap, g: Geometry, count: nat)
    requires Sound(s, g) && Whole(g, s.vol) && count > FreeCount(s.vol.fat)
    ensures var t := Snap(AllocOutcome(s.vol, count, g.ClusterBytes()), s.shape);
            && FreeCount(t.vol.fat) == 0
            && (Tight(s) ==> (Tight(t) <==> FreeCount(s.vol.fat) == 0))
            && (Counted(s.vol) ==> (Counted(t.vol) <==> FreeCount(s.vol.fat) == 0 || !Known(s.vol.info)))
  {
    var all := FreeList(s.vol.fat);
    AllTaken(s.vol.fat);
    TakenClusters(s.vol.fat, all);
    TakenUnowned(s, g, all);
    if all != [] {
      LinkedIsChain(s.vol.fat, all);
      ChainUsed(Linked(s.vol.fat, all), all);
      assert all[0] in all;
    }
  }

  /** Linking all free clusters leaves none. */
  lemma AllTaken(fat: seq<nat>)
    requires |fat| < EOC_THRESHOLD
    ensures FreeList(Linked(fat, FreeList(fat))) == []
  {
    var all := FreeList(fat);
    FreeFromSpec(fat, 2);
    var fat' := Linked(fat, all);
    forall c | 2 <= c < |fat|
      ensures fat'[c] != 0
    {
      if c in all {
        LinkedIsChain(fat, all);
        ChainUsed(fat', all);
      } else {
        LinkedOutside(fat, all, c);
      }
    }
    NoneFree(fat');
  }

  lemma AllocTight(fat: seq<nat>, S: Shape, ch: seq<nat>)
    requires NoLeaks(fat, S) && Clusters(ch, |fat|)
    ensures forall c :: 2 <= c < |fat| && Linked(fat, ch)[c] != 0 ==> c in S.owner || c in ch
  {
  }

  /** Writing data along a fresh chain. */
  lemma StoreOp(s: Snap, g: Geometry, ch: seq<nat>, bytes: seq<byte>)
    requires Sound(s, g) && Whole(g, s.vol) && Fresh(s, ch, if ch == [] then 0 else ch[0], false) && Distinct(ch)
    requires Clusters(ch, |s.vol.data|)
    ensures g.ClusterBytes() > 0
    ensures var t := Snap(s.vol.(data := Stored(s.vol.data, ch, bytes, g.ClusterBytes())), s.shape);
            && Sound(t, g) && Names(t) == Names(s) && Dirs(t) == Dirs(s)
            && Fresh(t, ch, if ch == [] then 0 else ch[0], false)
            && (TightBut(s, ch) ==> TightBut(t, ch))
            && (|bytes| <= |ch| * g.ClusterBytes() ==> bytes <= ChainBytes(t.vol.data, ch))
  {
    RootIsDir(s, g);
    var cb := g.ClusterBytes();
    var data := Stored(s.vol.data, ch, bytes, cb);
    StoredSized(s.vol.data, ch, bytes, cb);
    forall c | c in s.shape.owner && c < |data|
      ensures data[c] == s.vol.data[c]
    {
      StoredOutside(s.vol.data, ch, bytes, cb, c);
    }
    TouchOp(s, g, s.vol.(data := data));
    if |bytes| <= |ch| * cb {
      StoredReads(s.vol.data, ch, bytes, cb);
    }
  }

  // ---- A new directory ----

  /** The first two slots of a directory: `.` for cluster `self` and `..` for cluster `up`. */
  ghost predicate Dots(bytes: seq<byte>, self: nat, up: nat) {
    && |bytes| >= 64
    && NameOf(bytes[0..32]) == DOT_NAME && Word16(bytes, 20) * 0x1_0000 + Word16(bytes, 26) == self
    && NameOf(bytes[32..64]) == DOT_DOT_NAME && Word16(bytes, 52) * 0x1_0000 + Word16(bytes, 58) == up
    && bytes[11] == bytes[43] == ATTR_DIRECTORY
  }

  /** The first cluster of an empty directory: `.`, `..` and end slots. */
  ghost predicate DotCluster(bytes: seq<byte>) {
    && |bytes| >= 64
    && Classify(bytes[0..32]) == Hidden && Classify(bytes[32..64]) == Hidden
    && forall k :: 64 <= k < |bytes| ==> bytes[k] == 0
  }

  lemma DotHidden(name: Str, cluster: u32)
    requires name == DOT_NAME || name == DOT_DOT_NAME
    ensures Classify(EncodeSlot(name, ATTR_DIRECTORY, cluster, 0)) == Hidden
  {
    var s := EncodeSlot(name, ATTR_DIRECTORY, cluster, 0);
    assert LastIndex(name, DOT) == |name| - 1;
    assert NameOf(s) == Lower(name) by { NameRoundTrip(name, ATTR_DIRECTORY, cluster, 0); }
    assert Lower(DOT_NAME) == DOT_NAME && Lower(DOT_DOT_NAME) == DOT_DOT_NAME;
    SlotFields(name, ATTR_DIRECTORY, cluster, 0);
    HeldFirstByte(s, name);
  }

  lemma DotNamed(name: Str, cluster: u32)
    requires name == DOT_NAME || name == DOT_DOT_NAME
    ensures var s := EncodeSlot(name, ATTR_DIRECTORY, cluster, 0);
            NameOf(s) == name && s[11] == ATTR_DIRECTORY && Word16(s, 20) * 0x1_0000 + Word16(s, 26) == cluster
  {
    assert LastIndex(name, DOT) == |name| - 1;
    NameRoundTrip(name, ATTR_DIRECTORY, cluster, 0);
    assert Lower(DOT_NAME) == DOT_NAME && Lower(DOT_DOT_NAME) == DOT_DOT_NAME;
    SlotFields(name, ATTR_DIRECTORY, cluster, 0);
    SlotNumbers(name, ATTR_DIRECTORY, cluster, 0);
  }

  /** Two encoded slots at the front make the dots. */
  lemma DotsOf(bytes: seq<byte>, self: u32, up: u32)
    requires |bytes| >= 64 && bytes[0..32] == EncodeSlot(DOT_NAME, ATTR_DIRECTORY, self, 0)
    requires bytes[32..64] == EncodeSlot(DOT_DOT_NAME, ATTR_DIRECTORY, up, 0)
    ensures Dots(bytes, self, up)
  {
    DotNamed(DOT_NAME, self);
    DotNamed(DOT_DOT_NAME, up);
    assert forall k :: 0 <= k < 32 ==> bytes[0..32][k] == bytes[k] && bytes[32..64][k] == bytes[32 + k];
  }

  lemma DotMark(bytes: seq<byte>, k: nat)
    requires DotCluster(bytes) && k < |SlotsOf(bytes)|
    ensures Marks(SlotsOf(bytes))[k] == if k < 2 then Hidden else End
  {
    MarkAt(SlotsOf(bytes), k);
    assert k >= 2 ==> SlotsOf(bytes)[k][0] == bytes[32 * k];
  }

  lemma DotMarks(bytes: seq<byte>)
    requires DotCluster(bytes)
    ensures DirOk(Marks(SlotsOf(bytes))) && NoLive(Marks(SlotsOf(bytes)))
  {
    var ms := Marks(SlotsOf(bytes));
    forall k | 0 <= k < |ms|
      ensures ms[k] == if k < 2 then Hidden else End
    {
      DotMark(bytes, k);
    }
  }

  /** Writing `.` and `..` into a fresh cluster makes it a fresh empty directory. */
  lemma MakeDirOp(s: Snap, g: Geometry, c: nat, bytes: seq<byte>)
    requires Sound(s, g) && Whole(g, s.vol) && Fresh(s, [c], c, false) && DotCluster(bytes)
             && |bytes| == g.ClusterBytes()
    ensures 2 <= c < |s.vol.data|
    ensures var t := Snap(s.vol.(data := s.vol.data[c := bytes]), s.shape);
            && Sound(t, g) && Names(t) == Names(s) && Dirs(t) == Dirs(s) && Fresh(t, [c], c, true)
            && (TightBut(s, [c]) ==> TightBut(t, [c]))
  {
    RootIsDir(s, g);
    assert [c][0] == c && c in [c];
    var data := s.vol.data[c := bytes];
    TouchOp(s, g, s.vol.(data := data));
    assert DirSlots(data, [c]) == SlotsOf(bytes);
    DotMarks(bytes);
  }

  // ---- Attach ----

  lemma PlaceOp(s: Snap, s': Snap, g: Geometry, parent: Path, name: Str, P: nat, k: nat, slot: Slot, e: DirEntry,
                ch: seq<nat>)
    requires Sound(s, g) && P in s.shape.dirs && Good(s, g) && Placed(s, s', g, P, k, slot, e, ch)
             && Fresh(s, ch, e.cluster, e.isDir)
    requires Find(Dirs(s)[P], e.name) < 0 && Lower(e.name) == e.name == Lower(name) && Leads(s, g, parent, P)
    ensures Clusters(ch, |s.vol.data|) && Sound(s', g) && Changed(s, s', g, parent + [name], NewObs(s, e, ch))
    ensures (TightBut(s, ch) ==> Tight(s')) && (Counted(s.vol) ==> Counted(s'.vol)) && s'.vol.frozen == s.vol.frozen
    ensures e.isDir ==> HungDir(s, s', g, parent + [name], ch)
    ensures SlotAt(s', g, parent + [name], P, slot)
  {
    PlaceGood(s, s', g, P, k, slot, e, ch);
    PlaceSlot(s, s', g, parent, name, P, k, slot, e, ch);
    PlaceSeen(s, s', g, parent, name, P, k, slot, e, ch);
    if e.isDir {
      PlaceDir(s, s', g, parent, name, P, k, slot, e, ch);
    }
    Fold(s', g);
  }
}
