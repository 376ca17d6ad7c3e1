/** The heap shape of a FAT volume: disjoint, terminated chains hung off a tree of directories.

    A `Shape` names the chains, who owns each cluster, which chains are directories and where each
    chain hangs. `Inv` ties it to the table and the data. The four editing lemmas at the end say that
    touching free clusters, detaching an entry, growing a directory and attaching an entry each keep
    `Inv`, and what each does to the directories. */
module Shape {
  import opened Bytes
  import opened Layout
  import opened Chains
  import opened Slots
  import opened ShortNames
  import opened Directory

  datatype Shape = Shape(chains: map<nat, seq<nat>>, owner: map<nat, nat>, dirs: set<nat>,
                         parent: map<nat, (nat, nat)>, depth: map<nat, nat>)

  type Listing = map<nat, seq<Mark>>

  // ---- Chains ----

  ghost predicate VolOk(fat: seq<nat>, data: seq<seq<byte>>, cb: nat) {
    |fat| == |data| && |fat| < EOC_THRESHOLD && Sized(data, cb)
  }

  /** Every chain is linked and terminated, and keyed by its first cluster. */
  ghost predicate ChainsOk(fat: seq<nat>, S: Shape) {
    forall h :: h in S.chains ==> IsChain(fat, S.chains[h]) && S.chains[h][0] == h
  }

  /** Every cluster of a chain has that chain as its only owner. */
  ghost predicate OwnersOk(S: Shape) {
    && (forall h, c :: h in S.chains && c in S.chains[h] ==> c in S.owner && S.owner[c] == h)
    && (forall c :: c in S.owner ==> S.owner[c] in S.chains && c in S.chains[S.owner[c]])
  }

  // ---- Directories ----

  /** The marks of the directory with head `d`. */
  ghost function DirMarks(data: seq<seq<byte>>, S: Shape, d: nat): seq<Mark> {
    if d in S.chains && Clusters(S.chains[d], |data|) then Marks(DirSlots(data, S.chains[d])) else []
  }

  ghost function ListingOf(data: seq<seq<byte>>, S: Shape): (L: Listing)
    ensures L.Keys == S.dirs
  {
    map d | d in S.dirs :: DirMarks(data, S, d)
  }

  /** A live entry leads to the chain that hangs at it. */
  ghost predicate RefOk(S: Shape, root: nat, d: nat, i: nat, e: DirEntry) {
    if e.isDir then
      && e.cluster in S.dirs && e.cluster != root
      && e.cluster in S.parent && S.parent[e.cluster] == (d, i)
      && d in S.depth && e.cluster in S.depth && S.depth[e.cluster] == S.depth[d] + 1
    else
      e.cluster < 2
      || (&& e.cluster in S.chains && e.cluster !in S.dirs
          && e.cluster in S.parent && S.parent[e.cluster] == (d, i))
  }

  /** Chain `h` hangs at slot `i` of directory `d`. */
  ghost predicate HangsAt(L: Listing, S: Shape, h: nat, d: nat, i: nat) {
    && d in L && i < |L[d]| && L[d][i].Live? && L[d][i].entry.cluster == h
    && (L[d][i].entry.isDir <==> h in S.dirs)
  }

  ghost predicate DirsOk(L: Listing) {
    forall d :: d in L ==> DirOk(L[d])
  }

  ghost predicate RefsOk(L: Listing, S: Shape, root: nat) {
    forall d, i :: d in L && 0 <= i < |L[d]| && L[d][i].Live? ==> RefOk(S, root, d, i, L[d][i].entry)
  }

  ghost predicate ParentsOk(L: Listing, S: Shape, root: nat) {
    forall h :: h in S.chains && h != root ==> h in S.parent && HangsAt(L, S, h, S.parent[h].0, S.parent[h].1)
  }

  /** The directories form a tree, and every chain but the root's hangs in exactly one place. */
  ghost predicate TreeOk(L: Listing, S: Shape, root: nat) {
    && root in L && L.Keys == S.dirs && S.dirs <= S.chains.Keys && S.dirs <= S.depth.Keys
    && DirsOk(L)
    && RefsOk(L, S, root)
    && ParentsOk(L, S, root)
  }

  ghost predicate Inv(fat: seq<nat>, data: seq<seq<byte>>, S: Shape, root: nat, cb: nat) {
    VolOk(fat, data, cb) && ChainsOk(fat, S) && OwnersOk(S) && TreeOk(ListingOf(data, S), S, root)
  }

  /** Every used cluster belongs to a chain. */
  ghost predicate NoLeaks(fat: seq<nat>, S: Shape) {
    forall c :: 2 <= c < |fat| && fat[c] != 0 ==> c in S.owner
  }

  lemma OwnedClusters(fat: seq<nat>, S: Shape, c: nat)
    requires ChainsOk(fat, S) && OwnersOk(S) && c in S.owner
    ensures 2 <= c < |fat| && fat[c] != 0
  {
    var ch := S.chains[S.owner[c]];
    ChainUsed(fat, ch);
    var i :| 0 <= i < |ch| && ch[i] == c;
  }

  lemma OwnersApart(S: Shape, h: nat, k: nat, c: nat)
    requires OwnersOk(S) && h in S.chains && k in S.chains && h != k
    ensures !(c in S.chains[h] && c in S.chains[k])
  {
    assert c in S.chains[h] ==> c in S.owner && S.owner[c] == h;
    assert c in S.chains[k] ==> c in S.owner && S.owner[c] == k;
  }

  // ---- What a volume looks like to a reader of names ----

  /** The contents of a file entry: at most `size` bytes of its chain. */
  ghost function Content(data: seq<seq<byte>>, S: Shape, e: DirEntry): seq<byte> {
    if e.size == 0 || e.cluster < 2 || e.cluster !in S.chains || !Clusters(S.chains[e.cluster], |data|) then []
    else
      var all := ChainBytes(data, S.chains[e.cluster]);
      if |all| <= e.size then all else all[..e.size]
  }

  // ---- Reachability ----

  /** A list of steps, each a live entry of the directory before it. */
  ghost predicate LeadsTo(L: Listing, root: nat, steps: seq<nat>, h: nat)
    decreases |steps|
  {
    if steps == [] then h == root
    else
      var i := steps[|steps| - 1];
      exists d :: d in L && i < |L[d]| && L[d][i].Live? && L[d][i].entry.cluster == h
                  && LeadsTo(L, root, steps[..|steps| - 1], d)
  }

  /** Every chain of the shape is reachable from the root directory. */
  lemma {:induction false} Reachable(L: Listing, S: Shape, root: nat, h: nat, fuel: nat) returns (steps: seq<nat>)
    requires TreeOk(L, S, root) && h in S.chains
    requires h in S.dirs && h in S.depth ==> S.depth[h] <= fuel
    requires h !in S.dirs && h != root ==> h in S.parent && (S.parent[h].0 in S.depth ==> S.depth[S.parent[h].0] < fuel)
    ensures LeadsTo(L, root, steps, h)
    decreases fuel
  {
    if h == root {
      steps := [];
    } else {
      var (d, i) := S.parent[h];
      assert HangsAt(L, S, h, d, i);
      assert RefOk(S, root, d, i, L[d][i].entry);
      if d == root {
        steps := [i];
        assert LeadsTo(L, root, [], d);
        assert steps[..0] == [];
      } else {
        assert d in S.parent && HangsAt(L, S, d, S.parent[d].0, S.parent[d].1);
        assert RefOk(S, root, S.parent[d].0, S.parent[d].1, L[S.parent[d].0][S.parent[d].1].entry);
        var before := Reachable(L, S, root, d, fuel - 1);
        steps := before + [i];
        assert steps[..|steps| - 1] == before;
      }
    }
  }

  // ---- Step 0: touching only clusters nobody owns ----

  ghost predicate OwnedKept(S: Shape, fat: seq<nat>, data: seq<seq<byte>>, fat': seq<nat>, data': seq<seq<byte>>) {
    && |fat'| == |fat| && |data'| == |data|
    && (forall c :: c in S.owner && c < |fat| ==> fat'[c] == fat[c])
    && (forall c :: c in S.owner && c < |data| ==> data'[c] == data[c])
  }

  lemma ListingKept(S: Shape, fat: seq<nat>, data: seq<seq<byte>>, data': seq<seq<byte>>)
    requires ChainsOk(fat, S) && OwnersOk(S) && S.dirs <= S.chains.Keys && |data| == |fat| == |data'|
    requires forall c :: c in S.owner && c < |data| ==> data'[c] == data[c]
    ensures ListingOf(data', S) == ListingOf(data, S)
  {
    forall d | d in S.dirs
      ensures DirMarks(data', S, d) == DirMarks(data, S, d)
    {
      MarksKept(S, fat, data, data', d);
    }
  }

  lemma MarksKept(S: Shape, fat: seq<nat>, data: seq<seq<byte>>, data': seq<seq<byte>>, d: nat)
    requires ChainsOk(fat, S) && OwnersOk(S) && d in S.chains && |data| == |fat| == |data'|
    requires forall c :: c in S.owner && c < |data| ==> data'[c] == data[c]
    ensures DirMarks(data', S, d) == DirMarks(data, S, d)
  {
    ChainClusters(fat, S.chains[d]);
    assert forall c :: c in S.chains[d] ==> c in S.owner;
    DirSlotsKept(data, data', S.chains[d]);
  }

  lemma ChainsKept(S: Shape, fat: seq<nat>, fat': seq<nat>)
    requires ChainsOk(fat, S) && OwnersOk(S) && |fat'| == |fat|
    requires forall c :: c in S.owner && c < |fat| ==> fat'[c] == fat[c]
    ensures ChainsOk(fat', S)
  {
  }

  lemma UnownedTouched(S: Shape, fat: seq<nat>, data: seq<seq<byte>>, fat': seq<nat>, data': seq<seq<byte>>, root: nat,
                       cb: nat)
    requires Inv(fat, data, S, root, cb) && OwnedKept(S, fat, data, fat', data') && Sized(data', cb)
    ensures Inv(fat', data', S, root, cb) && ListingOf(data', S) == ListingOf(data, S)
  {
    ListingKept(S, fat, data, data');
    ChainsKept(S, fat, fat');
  }

  // ---- Writing one slot ----

  /** Writing a slot of directory `P` changes the listing of `P` there and of no other directory. */
  lemma ListingWritten(S: Shape, fat: seq<nat>, data: seq<seq<byte>>, data': seq<seq<byte>>, P: nat, k: nat, s: Slot)
    requires ChainsOk(fat, S) && OwnersOk(S) && S.dirs <= S.chains.Keys && |data| == |fat|
    requires P in S.dirs && Clusters(S.chains[P], |data|) && SlotWritten(data, data', S.chains[P], k, s)
    ensures k < |ListingOf(data, S)[P]|
    ensures ListingOf(data', S) == ListingOf(data, S)[P := ListingOf(data, S)[P][k := Classify(s)]]
  {
    MarksUpdate(DirSlots(data, S.chains[P]), k, s);
    forall d | d in S.dirs && d != P
      ensures DirMarks(data', S, d) == DirMarks(data, S, d)
    {
      ChainClusters(fat, S.chains[d]);
      forall c | c in S.chains[d]
        ensures data'[c] == data[c]
      {
        assert S.owner[c] == d;
        assert c !in S.chains[P];
      }
      DirSlotsKept(data, data', S.chains[d]);
    }
  }

  // ---- Step 1: detaching an entry and its chain ----

  /** The shape without the chain `h`. */
  ghost function Without(S: Shape, h: nat): Shape {
    if h !in S.chains then S
    else
      var owner := map c | c in S.owner && S.owner[c] != h :: S.owner[c];
      Shape(S.chains - {h}, owner, S.dirs - {h}, S.parent - {h}, S.depth)
  }

  lemma DetachOwners(S: Shape, h: nat)
    requires OwnersOk(S)
    ensures OwnersOk(Without(S, h))
  {
  }

  lemma DetachChains(S: Shape, fat: seq<nat>, h: nat)
    requires ChainsOk(fat, S) && OwnersOk(S) && h in S.chains
    ensures ChainsOk(Cleared(fat, S.chains[h]), Without(S, h))
  {
    var fat' := Cleared(fat, S.chains[h]);
    forall x | x in S.chains && x != h
      ensures IsChain(fat', S.chains[x])
    {
      ChainClusters(fat, S.chains[x]);
      forall c | c in S.chains[x]
        ensures fat'[c] == fat[c]
      {
        assert S.owner[c] == x;
        assert c !in S.chains[h];
      }
      ChainKept(fat, fat', S.chains[x]);
    }
  }

  ghost predicate NoLive(ms: seq<Mark>) {
    forall i :: 0 <= i < |ms| ==> !ms[i].Live?
  }

  /** The listing after slot `k` of `P` was marked deleted and directory `h`, if it was one, dropped. */
  ghost function DetachedListing(L: Listing, P: nat, k: nat, h: nat): Listing
    requires P in L && k < |L[P]|
  {
    L[P := L[P][k := Gone]] - (if h != P then {h} else {})
  }

  lemma DirsOkUpdate(L: Listing, P: nat, ms: seq<Mark>)
    requires DirsOk(L) && DirOk(ms)
    ensures DirsOk(L[P := ms])
  {
  }

  lemma DirsOkMinus(L: Listing, hs: set<nat>)
    requires DirsOk(L)
    ensures DirsOk(L - hs)
  {
  }

  /** A chain hangs in one place only. */
  lemma RefElsewhere(L: Listing, S: Shape, root: nat, P: nat, k: nat, d: nat, i: nat)
    requires RefsOk(L, S, root) && P in L && k < |L[P]| && L[P][k].Live?
    requires d in L && i < |L[d]| && L[d][i].Live? && (d, i) != (P, k) && L[P][k].entry.cluster >= 2
    ensures L[d][i].entry.cluster != L[P][k].entry.cluster
  {
  }

  lemma DetachRefs(L: Listing, S: Shape, root: nat, P: nat, k: nat, h: nat)
    requires RefsOk(L, S, root) && P in L && k < |L[P]| && L[P][k].Live? && h == L[P][k].entry.cluster
    requires 2 <= h && h in S.chains && P != h
    ensures RefsOk(DetachedListing(L, P, k, h), Without(S, h), root)
  {
  }

  lemma DetachParents(L: Listing, S: Shape, root: nat, P: nat, k: nat, h: nat)
    requires ParentsOk(L, S, root) && P in L && k < |L[P]| && L[P][k].Live? && h == L[P][k].entry.cluster
    requires 2 <= h && h in S.chains && P != h
    requires h in L ==> NoLive(L[h])
    ensures ParentsOk(DetachedListing(L, P, k, h), Without(S, h), root)
  {
  }

  /** No entry leads to its own directory or to the root. */
  lemma HangsElsewhere(L: Listing, S: Shape, root: nat, P: nat, k: nat)
    requires TreeOk(L, S, root) && P in L && k < |L[P]| && L[P][k].Live? && L[P][k].entry.cluster in S.chains
    requires L[P][k].entry.cluster >= 2
    ensures P != L[P][k].entry.cluster && L[P][k].entry.cluster != root
  {
    assert RefOk(S, root, P, k, L[P][k].entry);
  }

  lemma DirsDetached(L: Listing, P: nat, k: nat, h: nat)
    requires DirsOk(L) && P in L && k < |L[P]| && L[P][k].Live? && P != h
    ensures DirsOk(DetachedListing(L, P, k, h))
  {
    DeleteMark(L[P], k);
    DirsOkUpdate(L, P, L[P][k := Gone]);
    DirsOkMinus(L[P := L[P][k := Gone]], {h});
  }

  /** Detaching keeps the tree. A detached directory must be empty. */
  lemma DetachTree(L: Listing, S: Shape, root: nat, P: nat, k: nat, h: nat)
    requires TreeOk(L, S, root) && P in L && k < |L[P]| && L[P][k].Live? && h == L[P][k].entry.cluster
    requires 2 <= h && h in S.chains
    requires h in L ==> NoLive(L[h])
    ensures P != h && h != root
    ensures TreeOk(DetachedListing(L, P, k, h), Without(S, h), root)
  {
    HangsElsewhere(L, S, root, P, k);
    DirsDetached(L, P, k, h);
    DetachRefs(L, S, root, P, k, h);
    DetachParents(L, S, root, P, k, h);
  }

  lemma DetachBareRefs(L: Listing, S: Shape, root: nat, P: nat, k: nat)
    requires RefsOk(L, S, root) && ParentsOk(L, S, root) && P in L && k < |L[P]| && L[P][k].Live?
    requires L[P][k].entry.cluster !in S.chains
    ensures RefsOk(L[P := L[P][k := Gone]], S, root) && ParentsOk(L[P := L[P][k := Gone]], S, root)
  {
  }

  /** Detaching an entry that hangs on no chain. */
  lemma DetachTreeBare(L: Listing, S: Shape, root: nat, P: nat, k: nat)
    requires TreeOk(L, S, root) && P in L && k < |L[P]| && L[P][k].Live?
    requires L[P][k].entry.cluster !in S.chains
    ensures TreeOk(L[P := L[P][k := Gone]], S, root)
  {
    DeleteMark(L[P], k);
    DirsOkUpdate(L, P, L[P][k := Gone]);
    DetachBareRefs(L, S, root, P, k);
  }

  // ---- Step 2: growing a directory ----

  ghost function GrownShape(S: Shape, P: nat, c: nat): Shape
    requires P in S.chains
  {
    S.(chains := S.chains[P := S.chains[P] + [c]], owner := S.owner[c := P])
  }

  lemma GrowOwners(S: Shape, P: nat, c: nat)
    requires OwnersOk(S) && P in S.chains && c !in S.owner
    ensures OwnersOk(GrownShape(S, P, c))
  {
  }

  lemma GrowChains(S: Shape, fat: seq<nat>, P: nat, c: nat)
    requires |fat| < EOC_THRESHOLD && ChainsOk(fat, S) && OwnersOk(S) && P in S.chains && c !in S.owner
             && 2 <= c < |fat|
    ensures var ch := S.chains[P];
            ChainsOk(fat[c := END_OF_CHAIN][ch[|ch| - 1] := c], GrownShape(S, P, c))
  {
    var ch := S.chains[P];
    var fat' := fat[c := END_OF_CHAIN][ch[|ch| - 1] := c];
    ChainGrown(fat, ch, c);
    forall h | h in S.chains && h != P
      ensures IsChain(fat', S.chains[h])
    {
      ChainClusters(fat, S.chains[h]);
      forall x | x in S.chains[h]
        ensures fat'[x] == fat[x]
      {
        assert S.owner[x] == h;
        assert x !in ch;
      }
      ChainKept(fat, fat', S.chains[h]);
    }
  }

  lemma GrowOne(S: Shape, fat: seq<nat>, data: seq<seq<byte>>, P: nat, c: nat, zeros: seq<byte>, d: nat)
    requires ChainsOk(fat, S) && OwnersOk(S) && |data| == |fat|
    requires P in S.chains && c !in S.owner && 2 <= c < |fat| && d in S.chains
    ensures DirMarks(data[c := zeros], GrownShape(S, P, c), d)
         == if d == P then DirMarks(data, S, P) + Marks(SlotsOf(zeros)) else DirMarks(data, S, d)
  {
    var data' := data[c := zeros];
    var ch := S.chains[d];
    ChainClusters(fat, ch);
    assert c !in ch;
    DirSlotsKept(data, data', ch);
    if d == P {
      DirSlotsConcat(data', ch, [c]);
      assert DirSlots(data', [c]) == SlotsOf(zeros);
      MarksConcat(DirSlots(data', ch), SlotsOf(zeros));
    }
  }

  lemma GrowListing(S: Shape, fat: seq<nat>, data: seq<seq<byte>>, P: nat, c: nat, zeros: seq<byte>)
    requires ChainsOk(fat, S) && OwnersOk(S) && S.dirs <= S.chains.Keys && |data| == |fat|
    requires P in S.dirs && c !in S.owner && 2 <= c < |fat|
    ensures ListingOf(data[c := zeros], GrownShape(S, P, c))
         == ListingOf(data, S)[P := ListingOf(data, S)[P] + Marks(SlotsOf(zeros))]
  {
    forall d | d in S.dirs
      ensures DirMarks(data[c := zeros], GrownShape(S, P, c), d)
           == if d == P then DirMarks(data, S, P) + Marks(SlotsOf(zeros)) else DirMarks(data, S, d)
    {
      GrowOne(S, fat, data, P, c, zeros, d);
    }
  }

  lemma GrowRefs(L: Listing, S: Shape, root: nat, P: nat, c: nat, more: seq<Mark>)
    requires RefsOk(L, S, root) && ParentsOk(L, S, root) && P in L && P in S.chains
    requires forall j :: 0 <= j < |more| ==> more[j].End?
    ensures RefsOk(L[P := L[P] + more], GrownShape(S, P, c), root)
    ensures ParentsOk(L[P := L[P] + more], GrownShape(S, P, c), root)
  {
  }

  lemma GrowTree(L: Listing, S: Shape, root: nat, P: nat, c: nat, more: seq<Mark>)
    requires TreeOk(L, S, root) && P in L && NoneDead(L[P]) && forall j :: 0 <= j < |more| ==> more[j].End?
    ensures TreeOk(L[P := L[P] + more], GrownShape(S, P, c), root)
  {
    AppendEnds(L[P], more);
    DirsOkUpdate(L, P, L[P] + more);
    GrowRefs(L, S, root, P, c, more);
  }

  // ---- Step 3: attaching an entry and its chain ----

  /** The shape with the chain `ch` hung at slot `k` of `P`. */
  ghost function With(S: Shape, ch: seq<nat>, isDir: bool, P: nat, k: nat): Shape
    requires P in S.depth
  {
    if ch == [] then S
    else
      var h := ch[0];
      Shape(S.chains[h := ch], (map c | c in S.owner.Keys + (set x | x in ch) :: if c in ch then h else S.owner[c]),
            if isDir then S.dirs + {h} else S.dirs,
            S.parent[h := (P, k)], S.depth[h := S.depth[P] + 1])
  }

  lemma AttachOwners(S: Shape, ch: seq<nat>, isDir: bool, P: nat, k: nat)
    requires OwnersOk(S) && P in S.depth && ch != [] && ch[0] !in S.chains && forall c :: c in ch ==> c !in S.owner
    ensures OwnersOk(With(S, ch, isDir, P, k))
  {
  }

  lemma AttachChains(S: Shape, fat: seq<nat>, ch: seq<nat>, isDir: bool, P: nat, k: nat)
    requires ChainsOk(fat, S) && P in S.depth && IsChain(fat, ch)
    ensures ChainsOk(fat, With(S, ch, isDir, P, k))
  {
  }

  ghost function AttachedListing(L: Listing, P: nat, k: nat, e: DirEntry, ch: seq<nat>, inside: seq<Mark>): Listing
    requires P in L && k < |L[P]|
  {
    var L1: Listing := L[P := L[P][k := Live(e)]];
    if e.isDir && ch != [] then L1[ch[0] := inside] else L1
  }

  lemma AttachRefs(L: Listing, S: Shape, root: nat, P: nat, k: nat, e: DirEntry, ch: seq<nat>, inside: seq<Mark>)
    requires RefsOk(L, S, root) && P in L && P in S.depth && k < |L[P]| && L.Keys == S.dirs <= S.chains.Keys
    requires ch != [] && ch[0] == e.cluster >= 2 && ch[0] !in S.chains && root in S.chains
    requires e.isDir ==> NoLive(inside)
    ensures RefsOk(AttachedListing(L, P, k, e, ch, inside), With(S, ch, e.isDir, P, k), root)
  {
    var h := ch[0];
    var L': Listing := AttachedListing(L, P, k, e, ch, inside);
    var S' := With(S, ch, e.isDir, P, k);
    assert h !in L;
    forall d: nat, i: nat | d in L' && i < |L'[d]| && L'[d][i].Live?
      ensures RefOk(S', root, d, i, L'[d][i].entry)
    {
      if (d, i) != (P, k) {
        assert d != h;
        assert L'[d][i] == L[d][i];
        assert RefOk(S, root, d, i, L[d][i].entry);
      }
    }
  }

  lemma AttachParents(L: Listing, S: Shape, root: nat, P: nat, k: nat, e: DirEntry, ch: seq<nat>, inside: seq<Mark>)
    requires ParentsOk(L, S, root) && P in L && P in S.depth && k < |L[P]| && L.Keys == S.dirs <= S.chains.Keys
    requires ch != [] && ch[0] == e.cluster >= 2 && ch[0] !in S.chains && Dead(L[P][k])
    ensures ParentsOk(AttachedListing(L, P, k, e, ch, inside), With(S, ch, e.isDir, P, k), root)
  {
    var h := ch[0];
    var L': Listing := AttachedListing(L, P, k, e, ch, inside);
    var S' := With(S, ch, e.isDir, P, k);
    forall x | x in S'.chains && x != root
      ensures x in S'.parent && HangsAt(L', S', x, S'.parent[x].0, S'.parent[x].1)
    {
      if x != h {
        assert HangsAt(L, S, x, S.parent[x].0, S.parent[x].1);
      }
    }
  }

  /** Attaching keeps the tree. A new directory must be empty. */
  lemma AttachTree(L: Listing, S: Shape, root: nat, P: nat, k: nat, e: DirEntry, ch: seq<nat>, inside: seq<Mark>)
    requires TreeOk(L, S, root) && P in L && P in S.depth
    requires FirstDead(L[P], k) && Find(L[P], e.name) < 0 && Lower(e.name) == e.name
    requires ch != [] && ch[0] == e.cluster >= 2 && ch[0] !in S.chains
    requires e.isDir ==> DirOk(inside) && NoLive(inside)
    ensures TreeOk(AttachedListing(L, P, k, e, ch, inside), With(S, ch, e.isDir, P, k), root)
  {
    AddMark(L[P], k, e);
    DirsOkUpdate(L, P, L[P][k := Live(e)]);
    if e.isDir {
      DirsOkUpdate(L[P := L[P][k := Live(e)]], ch[0], inside);
    }
    AttachRefs(L, S, root, P, k, e, ch, inside);
    AttachParents(L, S, root, P, k, e, ch, inside);
  }

  lemma AttachBareRefs(L: Listing, S: Shape, root: nat, P: nat, k: nat, e: DirEntry)
    requires RefsOk(L, S, root) && ParentsOk(L, S, root) && P in L && k < |L[P]| && Dead(L[P][k])
    requires !e.isDir && e.cluster < 2
    ensures RefsOk(L[P := L[P][k := Live(e)]], S, root) && ParentsOk(L[P := L[P][k := Live(e)]], S, root)
  {
  }

  /** Attaching an empty file. */
  lemma AttachTreeBare(L: Listing, S: Shape, root: nat, P: nat, k: nat, e: DirEntry)
    requires TreeOk(L, S, root) && P in L
    requires FirstDead(L[P], k) && Find(L[P], e.name) < 0 && Lower(e.name) == e.name
    requires !e.isDir && e.cluster < 2
    ensures TreeOk(L[P := L[P][k := Live(e)]], S, root)
  {
    AddMark(L[P], k, e);
    DirsOkUpdate(L, P, L[P][k := Live(e)]);
    AttachBareRefs(L, S, root, P, k, e);
  }
}
