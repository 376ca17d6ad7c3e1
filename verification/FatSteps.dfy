/** The four steps every file operation is made of, each shown to keep the shape and to change the
    name space in one known way. */
module FatSteps {
  import opened Bytes
  import opened Layout
  import opened Chains
  import opened Slots
  import opened ShortNames
  import opened Directory
  import opened Shape
  import opened FatTree
  import opened Namespace

  /** A directory listing after the entry `name` was replaced. */
  lemma MinusUpdate<K, V>(m: map<K, V>, k: K, v: V)
    ensures m[k := v] - {k} == m - {k} && (m - {k}) - {k} == m - {k}
  {
  }

  lemma WrittenSized(data: seq<seq<byte>>, data': seq<seq<byte>>, ch: seq<nat>, k: nat, s: Slot, cb: nat)
    requires Clusters(ch, |data|) && SlotWritten(data, data', ch, k, s) && Sized(data, cb)
    ensures Sized(data', cb)
  {
  }

  lemma InvOf(fat: seq<nat>, data: seq<seq<byte>>, S: Shape, root: nat, cb: nat)
    requires VolOk(fat, data, cb) && ChainsOk(fat, S) && OwnersOk(S) && TreeOk(ListingOf(data, S), S, root)
    ensures Inv(fat, data, S, root, cb)
  {
  }

  // ---- No entry changes ----

  /** Same entries and same file chains give the same name space. */
  lemma GraphSame(data: seq<seq<byte>>, S: Shape, data': seq<seq<byte>>, S': Shape, root: nat)
    requires DirsOk(ListingOf(data, S)) && RefsOk(ListingOf(data, S), S, root) && FilesKept(data, S, data', S', 0)
    requires S'.dirs == S.dirs
    requires forall d :: d in S.dirs ==> EntryMap(ListingOf(data', S')[d]) == EntryMap(ListingOf(data, S)[d])
    ensures GraphOf(data', S') == GraphOf(data, S)
  {
    forall d | d in S.dirs
      ensures EntsOf(data', S', ListingOf(data', S')[d]) == EntsOf(data, S, ListingOf(data, S)[d])
    {
      EntsSame(data, S, data', S', root, d);
    }
  }

  lemma EntsSame(data: seq<seq<byte>>, S: Shape, data': seq<seq<byte>>, S': Shape, root: nat, d: nat)
    requires DirsOk(ListingOf(data, S)) && RefsOk(ListingOf(data, S), S, root) && FilesKept(data, S, data', S', 0)
    requires d in S.dirs && d in S'.dirs && EntryMap(ListingOf(data', S')[d]) == EntryMap(ListingOf(data, S)[d])
    ensures EntsOf(data', S', ListingOf(data', S')[d]) == EntsOf(data, S, ListingOf(data, S)[d])
  {
    var ms := ListingOf(data, S)[d];
    forall n | n in EntryMap(ms)
      ensures EntOf(data', S', EntryMap(ms)[n]) == EntOf(data, S, EntryMap(ms)[n])
    {
      var i := EntryMapFrom(ms, n);
      EntKept(data, S, data', S', root, 0, d, i);
    }
  }

  /** Touching only clusters nobody owns keeps the shape and the name space. */
  lemma UnownedStep(S: Shape, fat: seq<nat>, data: seq<seq<byte>>, fat': seq<nat>, data': seq<seq<byte>>, root: nat,
                    cb: nat)
    requires Inv(fat, data, S, root, cb) && OwnedKept(S, fat, data, fat', data') && Sized(data', cb)
    ensures Inv(fat', data', S, root, cb) && GraphOf(data', S) == GraphOf(data, S)
    ensures ListingOf(data', S) == ListingOf(data, S)
  {
    UnownedTouched(S, fat, data, fat', data', root, cb);
    UnownedFiles(S, fat, data, data');
    GraphSame(data, S, data', S, root);
  }

  lemma UnownedFiles(S: Shape, fat: seq<nat>, data: seq<seq<byte>>, data': seq<seq<byte>>)
    requires ChainsOk(fat, S) && OwnersOk(S) && |data| == |fat| == |data'|
    requires forall c :: c in S.owner && c < |data| ==> data'[c] == data[c]
    ensures FilesKept(data, S, data', S, 0)
  {
  }

  // ---- Detach ----

  /** The table and shape after the entry `e` was detached. */
  ghost function DetachedFat(fat: seq<nat>, S: Shape, e: DirEntry): seq<nat> {
    if e.cluster in S.chains then Cleared(fat, S.chains[e.cluster]) else fat
  }

  lemma DetachListing(S: Shape, fat: seq<nat>, data: seq<seq<byte>>, data': seq<seq<byte>>, P: nat, k: nat, s: Slot,
                      h: nat)
    requires ChainsOk(fat, S) && OwnersOk(S) && S.dirs <= S.chains.Keys && |data| == |fat|
    requires P in S.dirs && Clusters(S.chains[P], |data|) && SlotWritten(data, data', S.chains[P], k, s)
    requires Classify(s) == Gone && h in S.chains && P != h
    ensures k < |ListingOf(data, S)[P]|
    ensures ListingOf(data', Without(S, h)) == DetachedListing(ListingOf(data, S), P, k, h)
  {
    ListingWritten(S, fat, data, data', P, k, s);
    var S' := Without(S, h);
    assert ListingOf(data', S') == ListingOf(data', S) - {h} by {
      forall d | d in S'.dirs
        ensures DirMarks(data', S', d) == DirMarks(data', S, d)
      {
        assert S'.chains[d] == S.chains[d];
      }
    }
  }

  /** Writing a slot of directory `P` touches no file. */
  lemma WrittenFiles(S: Shape, fat: seq<nat>, data: seq<seq<byte>>, data': seq<seq<byte>>, P: nat, k: nat, s: Slot)
    requires ChainsOk(fat, S) && OwnersOk(S) && |data| == |fat|
    requires P in S.dirs && P in S.chains && Clusters(S.chains[P], |data|)
             && SlotWritten(data, data', S.chains[P], k, s)
    ensures FilesKept(data, S, data', S, 0)
  {
    forall h | h in S.chains && h !in S.dirs
      ensures Clusters(S.chains[h], |data|)
      ensures forall c :: c in S.chains[h] && c < |data| ==> data'[c] == data[c]
    {
      ChainClusters(fat, S.chains[h]);
      forall c | c in S.chains[h] && c < |data|
        ensures data'[c] == data[c]
      {
        assert S.owner[c] == h;
        assert c !in S.chains[P];
      }
    }
  }

  lemma HangsOnce(L: Listing, S: Shape, root: nat, P: nat, k: nat)
    requires RefsOk(L, S, root) && P in L && k < |L[P]| && L[P][k].Live?
    ensures OnlyAt(L, L[P][k].entry.cluster, P, L[P][k].entry.name)
  {
  }

  lemma HeadsAreClusters(fat: seq<nat>, S: Shape)
    requires ChainsOk(fat, S)
    ensures forall h :: h in S.chains ==> 2 <= h < |fat|
  {
  }

  lemma DetachInvTree(S: Shape, fat: seq<nat>, data: seq<seq<byte>>, data': seq<seq<byte>>, P: nat, k: nat, s: Slot,
                      h: nat, root: nat)
    requires ChainsOk(fat, S) && OwnersOk(S) && |data| == |fat| && TreeOk(ListingOf(data, S), S, root)
    requires P in S.dirs && Clusters(S.chains[P], |data|)
    requires SlotWritten(data, data', S.chains[P], k, s) && Classify(s) == Gone
    requires k < |ListingOf(data, S)[P]| && ListingOf(data, S)[P][k].Live?
             && h == ListingOf(data, S)[P][k].entry.cluster
    requires 2 <= h && h in S.chains && (h in S.dirs ==> NoLive(ListingOf(data, S)[h]))
    ensures P != h && h != root
    ensures ListingOf(data', Without(S, h)) == DetachedListing(ListingOf(data, S), P, k, h)
    ensures TreeOk(ListingOf(data', Without(S, h)), Without(S, h), root)
  {
    DetachTree(ListingOf(data, S), S, root, P, k, h);
    DetachListing(S, fat, data, data', P, k, s, h);
  }

  /** Detaching an entry with a chain keeps the invariant. */
  lemma DetachInv(S: Shape, fat: seq<nat>, data: seq<seq<byte>>, data': seq<seq<byte>>, P: nat, k: nat, s: Slot, h: nat,
                  root: nat, cb: nat)
    requires Inv(fat, data, S, root, cb) && P in S.dirs && Clusters(S.chains[P], |data|)
    requires SlotWritten(data, data', S.chains[P], k, s) && Classify(s) == Gone
    requires k < |ListingOf(data, S)[P]| && ListingOf(data, S)[P][k].Live?
             && h == ListingOf(data, S)[P][k].entry.cluster
    requires h in S.chains && (h in S.dirs ==> NoLive(ListingOf(data, S)[h]))
    ensures P != h && h != root
    ensures Inv(Cleared(fat, S.chains[h]), data', Without(S, h), root, cb)
    ensures ListingOf(data', Without(S, h)) == DetachedListing(ListingOf(data, S), P, k, h)
  {
    assert h >= 2 by { HeadsAreClusters(fat, S); }
    DetachInvTree(S, fat, data, data', P, k, s, h, root);
    DetachChains(S, fat, h);
    DetachOwners(S, h);
    WrittenSized(data, data', S.chains[P], k, s, cb);
    InvOf(Cleared(fat, S.chains[h]), data', Without(S, h), root, cb);
  }

  lemma DetachedMap(ms: seq<Mark>, k: nat)
    requires DirOk(ms) && k < |ms| && ms[k].Live?
    ensures var name := ms[k].entry.name;
            EntryMap(ms[k := Gone]) - {name} == EntryMap(ms) - {name} && name !in EntryMap(ms[k := Gone])
  {
    DeleteMark(ms, k);
    MinusUpdate(EntryMap(ms), ms[k].entry.name, ms[k].entry);
  }

  lemma DetachedMaps(L: Listing, L': Listing, P: nat, k: nat, h: nat)
    requires DirsOk(L) && P in L && k < |L[P]| && L[P][k].Live? && P != h
    requires L' == DetachedListing(L, P, k, h) || L' == L[P := L[P][k := Gone]]
    ensures var name := L[P][k].entry.name;
            P in L' && EntryMap(L'[P]) - {name} == EntryMap(L[P]) - {name} && name !in EntryMap(L'[P])
    ensures forall d :: d in L && d != P && d != h ==> d in L' && L'[d] == L[d]
  {
    assert L'[P] == L[P][k := Gone];
    DetachedMap(L[P], k);
  }

  lemma FilesWithout(data: seq<seq<byte>>, S: Shape, data': seq<seq<byte>>, h: nat)
    requires FilesKept(data, S, data', S, 0) && 0 !in S.chains
    ensures FilesKept(data, S, data', Without(S, h), h)
  {
  }

  lemma GraphKeys(data: seq<seq<byte>>, S: Shape, P: nat)
    requires P in S.dirs
    ensures GraphOf(data, S)[P].Keys == EntryMap(ListingOf(data, S)[P]).Keys
  {
  }

  lemma DetachEdit(S: Shape, fat: seq<nat>, data: seq<seq<byte>>, data': seq<seq<byte>>, P: nat, k: nat, s: Slot,
                   h: nat, root: nat)
    requires ChainsOk(fat, S) && OwnersOk(S) && |data| == |fat| && TreeOk(ListingOf(data, S), S, root)
    requires P in S.dirs && Clusters(S.chains[P], |data|) && SlotWritten(data, data', S.chains[P], k, s)
    requires k < |ListingOf(data, S)[P]| && ListingOf(data, S)[P][k].Live?
             && h == ListingOf(data, S)[P][k].entry.cluster
    requires h in S.chains && h >= 2 && P != h
    requires ListingOf(data', Without(S, h)) == DetachedListing(ListingOf(data, S), P, k, h)
    ensures var name := ListingOf(data, S)[P][k].entry.name;
            && Edit(GraphOf(data, S), GraphOf(data', Without(S, h)), P, name, {h})
            && name !in GraphOf(data', Without(S, h))[P]
  {
    var L: Listing, S' := ListingOf(data, S), Without(S, h);
    var name := L[P][k].entry.name;
    DetachedMaps(L, ListingOf(data', S'), P, k, h);
    HangsOnce(L, S, root, P, k);
    assert FilesKept(data, S, data', S', h) by {
      HeadsAreClusters(fat, S);
      WrittenFiles(S, fat, data, data', P, k, s);
      FilesWithout(data, S, data', h);
    }
    GraphKeys(data', S', P);
    GraphEdit(data, S, data', S', root, h, P, name);
  }

  /** Detaching an entry without a chain. */
  lemma DetachBareInv(S: Shape, fat: seq<nat>, data: seq<seq<byte>>, data': seq<seq<byte>>, P: nat, k: nat, s: Slot,
                      root: nat, cb: nat)
    requires Inv(fat, data, S, root, cb) && P in S.dirs && Clusters(S.chains[P], |data|)
    requires SlotWritten(data, data', S.chains[P], k, s) && Classify(s) == Gone
    requires k < |ListingOf(data, S)[P]| && ListingOf(data, S)[P][k].Live?
    requires ListingOf(data, S)[P][k].entry.cluster !in S.chains
    ensures Inv(fat, data', S, root, cb)
    ensures ListingOf(data', S) == ListingOf(data, S)[P := ListingOf(data, S)[P][k := Gone]]
  {
    ListingWritten(S, fat, data, data', P, k, s);
    DetachTreeBare(ListingOf(data, S), S, root, P, k);
    WrittenSized(data, data', S.chains[P], k, s, cb);
    InvOf(fat, data', S, root, cb);
  }

  lemma DetachBareEdit(S: Shape, fat: seq<nat>, data: seq<seq<byte>>, data': seq<seq<byte>>, P: nat, k: nat, s: Slot,
                       root: nat)
    requires ChainsOk(fat, S) && OwnersOk(S) && |data| == |fat| && TreeOk(ListingOf(data, S), S, root)
    requires P in S.dirs && Clusters(S.chains[P], |data|) && SlotWritten(data, data', S.chains[P], k, s)
    requires k < |ListingOf(data, S)[P]| && ListingOf(data, S)[P][k].Live?
    requires ListingOf(data', S) == ListingOf(data, S)[P := ListingOf(data, S)[P][k := Gone]]
    ensures var name := ListingOf(data, S)[P][k].entry.name;
            && Edit(GraphOf(data, S), GraphOf(data', S), P, name, {})
            && name !in GraphOf(data', S)[P]
  {
    var L: Listing := ListingOf(data, S);
    var name := L[P][k].entry.name;
    assert 0 !in S.chains by { HeadsAreClusters(fat, S); }
    DetachedMaps(L, ListingOf(data', S), P, k, 0);
    WrittenFiles(S, fat, data, data', P, k, s);
    GraphKeys(data', S, P);
    GraphEdit(data, S, data', S, root, 0, P, name);
  }

  lemma ClearedLeaks(fat: seq<nat>, S: Shape, h: nat)
    requires NoLeaks(fat, S) && OwnersOk(S) && h in S.chains
    ensures NoLeaks(Cleared(fat, S.chains[h]), Without(S, h))
  {
  }

  // ---- Grow ----

  /** Linking a zeroed cluster behind a full directory keeps the invariant and the name space. */
  lemma GrowInv(S: Shape, fat: seq<nat>, data: seq<seq<byte>>, P: nat, c: nat, fat': seq<nat>, data': seq<seq<byte>>,
                root: nat, cb: nat)
    requires Inv(fat, data, S, root, cb) && P in S.dirs && NoneDead(ListingOf(data, S)[P])
    requires 2 <= c < |fat| && c !in S.owner && IsChain(fat, S.chains[P])
    requires var ch := S.chains[P]; fat' == fat[c := END_OF_CHAIN][ch[|ch| - 1] := c] && data' == data[c := Zeros(cb)]
    ensures Inv(fat', data', GrownShape(S, P, c), root, cb)
    ensures ListingOf(data', GrownShape(S, P, c))
         == ListingOf(data, S)[P := ListingOf(data, S)[P] + Marks(SlotsOf(Zeros(cb)))]
  {
    var more := Marks(SlotsOf(Zeros(cb)));
    ZeroMarks(cb);
    GrowListing(S, fat, data, P, c, Zeros(cb));
    GrowTree(ListingOf(data, S), S, root, P, c, more);
    GrowChains(S, fat, P, c);
    GrowOwners(S, P, c);
    SizedUpdate(data, c, cb);
    InvOf(fat', data', GrownShape(S, P, c), root, cb);
  }

  lemma ZeroMarks(cb: nat)
    ensures var more := Marks(SlotsOf(Zeros(cb)));
            |more| == cb / 32 && forall j :: 0 <= j < |more| ==> more[j].End?
  {
    forall j | 0 <= j < cb / 32
      ensures Marks(SlotsOf(Zeros(cb)))[j].End?
    {
      MarkAt(SlotsOf(Zeros(cb)), j);
      assert SlotsOf(Zeros(cb))[j][0] == 0;
    }
  }

  lemma SizedUpdate(data: seq<seq<byte>>, c: nat, cb: nat)
    requires Sized(data, cb) && c < |data|
    ensures Sized(data[c := Zeros(cb)], cb)
  {
  }

  lemma GrowGraph(S: Shape, fat: seq<nat>, data: seq<seq<byte>>, P: nat, c: nat, data': seq<seq<byte>>, root: nat,
                  cb: nat)
    requires ChainsOk(fat, S) && OwnersOk(S) && |data| == |fat| && TreeOk(ListingOf(data, S), S, root)
    requires P in S.dirs && NoneDead(ListingOf(data, S)[P]) && cb >= 32
    requires 2 <= c < |fat| && c !in S.owner && data' == data[c := Zeros(cb)]
    requires ListingOf(data', GrownShape(S, P, c))
         == ListingOf(data, S)[P := ListingOf(data, S)[P] + Marks(SlotsOf(Zeros(cb)))]
    ensures GraphOf(data', GrownShape(S, P, c)) == GraphOf(data, S)
    ensures var ms := ListingOf(data', GrownShape(S, P, c))[P];
            FirstDead(ms, |ListingOf(data, S)[P]|) && EntryMap(ms) == EntryMap(ListingOf(data, S)[P])
  {
    ZeroMarks(cb);
    GrownMaps(ListingOf(data, S), ListingOf(data', GrownShape(S, P, c)), P, Marks(SlotsOf(Zeros(cb))));
    GrowFiles(S, fat, data, P, c, Zeros(cb));
    GraphSame(data, S, data', GrownShape(S, P, c), root);
  }

  lemma GrownMaps(L: Listing, L': Listing, P: nat, more: seq<Mark>)
    requires DirsOk(L) && P in L && NoneDead(L[P]) && L' == L[P := L[P] + more]
    requires more != [] && forall j :: 0 <= j < |more| ==> more[j].End?
    ensures forall d :: d in L ==> EntryMap(L'[d]) == EntryMap(L[d])
    ensures FirstDead(L'[P], |L[P]|)
  {
    AppendEnds(L[P], more);
  }

  lemma GrowFiles(S: Shape, fat: seq<nat>, data: seq<seq<byte>>, P: nat, c: nat, zeros: seq<byte>)
    requires ChainsOk(fat, S) && OwnersOk(S) && |data| == |fat| && P in S.dirs && P in S.chains && c < |fat|
             && c !in S.owner
    ensures FilesKept(data, S, data[c := zeros], GrownShape(S, P, c), 0)
  {
  }

  // ---- Attach ----

  lemma WithNew(S: Shape, data: seq<seq<byte>>, data': seq<seq<byte>>, ch: seq<nat>, isDir: bool, P: nat, k: nat)
    requires P in S.depth && ch != [] && Clusters(ch, |data|) && |data'| == |data|
    requires forall c :: c in ch ==> data'[c] == data[c]
    ensures DirMarks(data', With(S, ch, isDir, P, k), ch[0]) == Marks(DirSlots(data, ch))
  {
    DirSlotsKept(data, data', ch);
  }

  lemma WithListing(S: Shape, data: seq<seq<byte>>, ch: seq<nat>, isDir: bool, P: nat, k: nat)
    requires S.dirs <= S.chains.Keys && P in S.depth && ch != [] && ch[0] !in S.chains
    ensures ListingOf(data, With(S, ch, isDir, P, k))
         == if isDir then ListingOf(data, S)[ch[0] := DirMarks(data, With(S, ch, isDir, P, k), ch[0])]
            else ListingOf(data, S)
  {
  }

  lemma AttachListing(S: Shape, data: seq<seq<byte>>, data': seq<seq<byte>>, P: nat, k: nat, e: DirEntry, ch: seq<nat>)
    requires S.dirs <= S.chains.Keys && P in S.depth && P in S.dirs && |data'| == |data|
    requires k < |ListingOf(data, S)[P]|
    requires ListingOf(data', S) == ListingOf(data, S)[P := ListingOf(data, S)[P][k := Live(e)]]
    requires Clusters(ch, |data|) && ch != [] && ch[0] !in S.chains && forall c :: c in ch ==> data'[c] == data[c]
    ensures ListingOf(data', With(S, ch, e.isDir, P, k))
         == AttachedListing(ListingOf(data, S), P, k, e, ch, Marks(DirSlots(data, ch)))
  {
    WithListing(S, data', ch, e.isDir, P, k);
    WithNew(S, data, data', ch, e.isDir, P, k);
  }

  lemma AttachInvTree(S: Shape, fat: seq<nat>, data: seq<seq<byte>>, data': seq<seq<byte>>, P: nat, k: nat, s: Slot,
                      e: DirEntry, ch: seq<nat>, root: nat)
    requires ChainsOk(fat, S) && OwnersOk(S) && |data| == |fat| && TreeOk(ListingOf(data, S), S, root)
    requires P in S.dirs && Clusters(S.chains[P], |data|) && SlotWritten(data, data', S.chains[P], k, s)
             && Classify(s) == Live(e)
    requires FirstDead(ListingOf(data, S)[P], k) && Find(ListingOf(data, S)[P], e.name) < 0 && Lower(e.name) == e.name
    requires Clusters(ch, |data|) && ch != [] && ch[0] == e.cluster && ch[0] !in S.chains
             && (forall c :: c in ch ==> data'[c] == data[c])
    requires e.isDir ==> DirOk(Marks(DirSlots(data, ch))) && NoLive(Marks(DirSlots(data, ch)))
    ensures var S' := With(S, ch, e.isDir, P, k);
            && ListingOf(data', S') == AttachedListing(ListingOf(data, S), P, k, e, ch, Marks(DirSlots(data, ch)))
            && TreeOk(ListingOf(data', S'), S', root)
  {
    ListingWritten(S, fat, data, data', P, k, s);
    AttachListing(S, data, data', P, k, e, ch);
    AttachTree(ListingOf(data, S), S, root, P, k, e, ch, Marks(DirSlots(data, ch)));
  }

  /** Attaching an entry with a chain keeps the invariant. */
  lemma AttachInv(S: Shape, fat: seq<nat>, data: seq<seq<byte>>, data': seq<seq<byte>>, P: nat, k: nat, s: Slot,
                  e: DirEntry, ch: seq<nat>, root: nat, cb: nat)
    requires Inv(fat, data, S, root, cb) && P in S.dirs && Clusters(S.chains[P], |data|)
    requires SlotWritten(data, data', S.chains[P], k, s) && Classify(s) == Live(e)
    requires FirstDead(ListingOf(data, S)[P], k) && Find(ListingOf(data, S)[P], e.name) < 0 && Lower(e.name) == e.name
    requires IsChain(fat, ch) && ch[0] == e.cluster && (forall c :: c in ch ==> c !in S.owner)
    requires Clusters(ch, |data|) && (e.isDir ==> DirOk(Marks(DirSlots(data, ch))) && NoLive(Marks(DirSlots(data, ch))))
    ensures ch[0] !in S.chains
    ensures Inv(fat, data', With(S, ch, e.isDir, P, k), root, cb)
    ensures ListingOf(data', With(S, ch, e.isDir, P, k))
         == AttachedListing(ListingOf(data, S), P, k, e, ch, Marks(DirSlots(data, ch)))
  {
    FreshHead(S, fat, ch);
    FreshData(S, data, data', P, k, s, ch);
    AttachInvTree(S, fat, data, data', P, k, s, e, ch, root);
    AttachHeap(S, fat, ch, e.isDir, P, k);
    WrittenSized(data, data', S.chains[P], k, s, cb);
    InvOf(fat, data', With(S, ch, e.isDir, P, k), root, cb);
  }

  lemma FreshData(S: Shape, data: seq<seq<byte>>, data': seq<seq<byte>>, P: nat, k: nat, s: Slot, ch: seq<nat>)
    requires OwnersOk(S) && P in S.chains && Clusters(S.chains[P], |data|)
             && SlotWritten(data, data', S.chains[P], k, s)
    requires Clusters(ch, |data|) && forall c :: c in ch ==> c !in S.owner
    ensures forall c :: c in ch ==> data'[c] == data[c]
  {
  }

  lemma AttachHeap(S: Shape, fat: seq<nat>, ch: seq<nat>, isDir: bool, P: nat, k: nat)
    requires ChainsOk(fat, S) && OwnersOk(S) && P in S.depth && IsChain(fat, ch) && ch[0] !in S.chains
    requires forall c :: c in ch ==> c !in S.owner
    ensures ChainsOk(fat, With(S, ch, isDir, P, k)) && OwnersOk(With(S, ch, isDir, P, k))
  {
    AttachChains(S, fat, ch, isDir, P, k);
    AttachOwners(S, ch, isDir, P, k);
  }

  lemma FreshHead(S: Shape, fat: seq<nat>, ch: seq<nat>)
    requires ChainsOk(fat, S) && OwnersOk(S) && ch != [] && forall c :: c in ch ==> c !in S.owner
    ensures ch[0] !in S.chains
  {
    assert ch[0] in ch;
  }

  lemma AttachedMaps(L: Listing, L': Listing, P: nat, k: nat, e: DirEntry, ch: seq<nat>, inside: seq<Mark>)
    requires DirsOk(L) && P in L && FirstDead(L[P], k) && Find(L[P], e.name) < 0 && Lower(e.name) == e.name
    requires (ch != [] ==> ch[0] !in L) && L' == AttachedListing(L, P, k, e, ch, inside)
    ensures P in L' && EntryMap(L'[P]) - {e.name} == EntryMap(L[P]) - {e.name}
    ensures e.name in EntryMap(L'[P]) && EntryMap(L'[P])[e.name] == e
    ensures forall d :: d in L && d != P ==> d in L' && L'[d] == L[d]
  {
    assert L'[P] == L[P][k := Live(e)];
    AddMark(L[P], k, e);
    MinusUpdate(EntryMap(L[P]), e.name, e);
  }

  lemma FilesWith(data: seq<seq<byte>>, S: Shape, data': seq<seq<byte>>, ch: seq<nat>, isDir: bool, P: nat, k: nat)
    requires FilesKept(data, S, data', S, 0) && P in S.depth && (ch != [] ==> ch[0] !in S.chains)
    ensures FilesKept(data, S, data', With(S, ch, isDir, P, k), 0)
  {
  }

  lemma GraphValue(data: seq<seq<byte>>, S: Shape, P: nat, n: Str)
    requires P in S.dirs && n in EntryMap(ListingOf(data, S)[P])
    ensures n in GraphOf(data, S)[P] && GraphOf(data, S)[P][n] == EntOf(data, S, EntryMap(ListingOf(data, S)[P])[n])
  {
  }

  lemma AttachEdit(S: Shape, fat: seq<nat>, data: seq<seq<byte>>, data': seq<seq<byte>>, P: nat, k: nat, s: Slot,
                   e: DirEntry, ch: seq<nat>, inside: seq<Mark>, root: nat)
    requires ChainsOk(fat, S) && OwnersOk(S) && |data| == |fat| && TreeOk(ListingOf(data, S), S, root)
    requires P in S.dirs && Clusters(S.chains[P], |data|) && SlotWritten(data, data', S.chains[P], k, s)
    requires FirstDead(ListingOf(data, S)[P], k) && Find(ListingOf(data, S)[P], e.name) < 0 && Lower(e.name) == e.name
    requires ch != [] ==> ch[0] !in S.chains
    requires ListingOf(data', With(S, ch, e.isDir, P, k)) == AttachedListing(ListingOf(data, S), P, k, e, ch, inside)
    ensures var S' := With(S, ch, e.isDir, P, k);
            && P in S'.dirs && Edit(GraphOf(data, S), GraphOf(data', S'), P, e.name, {})
            && e.name in GraphOf(data', S')[P] && GraphOf(data', S')[P][e.name] == EntOf(data', S', e)
  {
    var L: Listing, S' := ListingOf(data, S), With(S, ch, e.isDir, P, k);
    AttachedMaps(L, ListingOf(data', S'), P, k, e, ch, inside);
    assert 0 !in S.chains by { HeadsAreClusters(fat, S); }
    assert FilesKept(data, S, data', S', 0) by {
      WrittenFiles(S, fat, data, data', P, k, s);
      FilesWith(data, S, data', ch, e.isDir, P, k);
    }
    GraphValue(data', S', P, e.name);
    GraphEdit(data, S, data', S', root, 0, P, e.name);
  }

  /** Attaching an empty file. */
  lemma AttachBareInv(S: Shape, fat: seq<nat>, data: seq<seq<byte>>, data': seq<seq<byte>>, P: nat, k: nat, s: Slot,
                      e: DirEntry, root: nat, cb: nat)
    requires Inv(fat, data, S, root, cb) && P in S.dirs && Clusters(S.chains[P], |data|)
    requires SlotWritten(data, data', S.chains[P], k, s) && Classify(s) == Live(e)
    requires FirstDead(ListingOf(data, S)[P], k) && Find(ListingOf(data, S)[P], e.name) < 0 && Lower(e.name) == e.name
    requires !e.isDir && e.cluster < 2
    ensures Inv(fat, data', S, root, cb)
    ensures ListingOf(data', S) == ListingOf(data, S)[P := ListingOf(data, S)[P][k := Live(e)]]
  {
    ListingWritten(S, fat, data, data', P, k, s);
    AttachTreeBare(ListingOf(data, S), S, root, P, k, e);
    WrittenSized(data, data', S.chains[P], k, s, cb);
    InvOf(fat, data', S, root, cb);
  }

  lemma AttachedLeaks(fat: seq<nat>, S: Shape, ch: seq<nat>, isDir: bool, P: nat, k: nat)
    requires P in S.depth && forall c :: 2 <= c < |fat| && fat[c] != 0 ==> c in S.owner || c in ch
    ensures NoLeaks(fat, With(S, ch, isDir, P, k))
  {
  }
}
