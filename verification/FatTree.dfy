/** From the heap shape to the name space: what each step of the writer does to every path. */
module FatTree {
  import opened Bytes
  import opened Chains
  import opened Slots
  import opened ShortNames
  import opened Directory
  import opened Shape
  import opened Namespace

  ghost function EntOf(data: seq<seq<byte>>, S: Shape, e: DirEntry): Ent {
    if e.isDir then DirEnt(e.cluster) else FileEnt(Content(data, S, e))
  }

  ghost function EntsOf(data: seq<seq<byte>>, S: Shape, ms: seq<Mark>): (m: map<Str, Ent>)
    ensures m.Keys == EntryMap(ms).Keys
  {
    map n | n in EntryMap(ms) :: EntOf(data, S, EntryMap(ms)[n])
  }

  /** The name space of a volume. */
  ghost function GraphOf(data: seq<seq<byte>>, S: Shape): (G: Graph)
    ensures G.Keys == S.dirs
  {
    map d | d in S.dirs :: EntsOf(data, S, ListingOf(data, S)[d])
  }

  lemma GraphEntry(data: seq<seq<byte>>, S: Shape, d: nat, n: Str) returns (i: nat)
    requires DirsOk(ListingOf(data, S)) && d in S.dirs && n in GraphOf(data, S)[d]
    ensures var ms := ListingOf(data, S)[d];
            i < |ms| && ms[i].Live? && ms[i].entry.name == n && GraphOf(data, S)[d][n] == EntOf(data, S, ms[i].entry)
  {
    i := EntryMapFrom(ListingOf(data, S)[d], n);
  }

  /** The directories of a well-shaped volume form a tree of names. */
  lemma TreeOfNames(data: seq<seq<byte>>, S: Shape, root: nat)
    requires TreeOk(ListingOf(data, S), S, root)
    ensures GraphOk(GraphOf(data, S), root)
  {
    var L: Listing, G: Graph := ListingOf(data, S), GraphOf(data, S);
    forall d, n | d in G && n in G[d] && G[d][n].DirEnt?
      ensures G[d][n].head in G && G[d][n].head != root
    {
      var i := GraphEntry(data, S, d, n);
      assert RefOk(S, root, d, i, L[d][i].entry);
    }
    forall d, n, d', n' | d in G && n in G[d] && d' in G && n' in G[d'] && G[d][n].DirEnt? && G[d'][n'] == G[d][n]
      ensures d' == d && n' == n
    {
      var i := GraphEntry(data, S, d, n);
      var i' := GraphEntry(data, S, d', n');
      assert RefOk(S, root, d, i, L[d][i].entry);
      assert RefOk(S, root, d', i', L[d'][i'].entry);
    }
  }

  // ---- One entry changes ----

  /** File `e` reads the same before and after. */
  ghost predicate SameFile(data: seq<seq<byte>>, S: Shape, data': seq<seq<byte>>, S': Shape, e: DirEntry) {
    e.cluster >= 2 ==>
      && e.cluster in S.chains && e.cluster in S'.chains && S'.chains[e.cluster] == S.chains[e.cluster]
      && |data'| == |data| && Clusters(S.chains[e.cluster], |data|)
      && forall c :: c in S.chains[e.cluster] && c < |data| ==> data'[c] == data[c]
  }

  lemma SameContent(data: seq<seq<byte>>, S: Shape, data': seq<seq<byte>>, S': Shape, e: DirEntry)
    requires SameFile(data, S, data', S', e)
    ensures Content(data', S', e) == Content(data, S, e)
  {
    if e.cluster >= 2 {
      ChainBytesKept(data, data', S.chains[e.cluster]);
    }
  }

  /** Every file chain but `lost` is kept, links and bytes. */
  ghost predicate FilesKept(data: seq<seq<byte>>, S: Shape, data': seq<seq<byte>>, S': Shape, lost: nat) {
    forall h :: h in S.chains && h !in S.dirs && h != lost ==>
                  && h in S'.chains && S'.chains[h] == S.chains[h]
                  && |data'| == |data| && Clusters(S.chains[h], |data|)
                  && forall c :: c in S.chains[h] && c < |data| ==> data'[c] == data[c]
  }

  lemma EntKept(data: seq<seq<byte>>, S: Shape, data': seq<seq<byte>>, S': Shape, root: nat, lost: nat, d: nat, i: nat)
    requires RefsOk(ListingOf(data, S), S, root) && FilesKept(data, S, data', S', lost)
    requires d in S.dirs && i < |ListingOf(data, S)[d]| && ListingOf(data, S)[d][i].Live?
    requires ListingOf(data, S)[d][i].entry.cluster < 2 || ListingOf(data, S)[d][i].entry.cluster != lost
    ensures var e := ListingOf(data, S)[d][i].entry; EntOf(data', S', e) == EntOf(data, S, e)
  {
    var e := ListingOf(data, S)[d][i].entry;
    assert RefOk(S, root, d, i, e);
    if !e.isDir {
      SameContent(data, S, data', S', e);
    }
  }

  /** A directory with the same listing, none of whose files was lost, keeps its entries. */
  lemma DirKept(data: seq<seq<byte>>, S: Shape, data': seq<seq<byte>>, S': Shape, root: nat, lost: nat, d: nat)
    requires DirsOk(ListingOf(data, S)) && RefsOk(ListingOf(data, S), S, root) && FilesKept(data, S, data', S', lost)
    requires d in S.dirs && d in S'.dirs && ListingOf(data', S')[d] == ListingOf(data, S)[d]
    requires forall i :: 0 <= i < |ListingOf(data, S)[d]| && ListingOf(data, S)[d][i].Live? ==>
                           ListingOf(data, S)[d][i].entry.cluster < 2 || ListingOf(data, S)[d][i].entry.cluster != lost
    ensures GraphOf(data', S')[d] == GraphOf(data, S)[d]
  {
    var ms := ListingOf(data, S)[d];
    forall n | n in EntryMap(ms)
      ensures EntOf(data', S', EntryMap(ms)[n]) == EntOf(data, S, EntryMap(ms)[n])
    {
      var i := EntryMapFrom(ms, n);
      EntKept(data, S, data', S', root, lost, d, i);
    }
  }

  /** The edited directory keeps every entry but the edited one. */
  lemma DirEdited(data: seq<seq<byte>>, S: Shape, data': seq<seq<byte>>, S': Shape, root: nat, lost: nat, P: nat,
                  name: Str, n: Str)
    requires DirsOk(ListingOf(data, S)) && RefsOk(ListingOf(data, S), S, root) && FilesKept(data, S, data', S', lost)
    requires P in S.dirs && P in S'.dirs && n != name
    requires EntryMap(ListingOf(data', S')[P]) - {name} == EntryMap(ListingOf(data, S)[P]) - {name}
    requires forall i :: 0 <= i < |ListingOf(data, S)[P]| && ListingOf(data, S)[P][i].Live?
                         && ListingOf(data, S)[P][i].entry.name != name ==>
                           ListingOf(data, S)[P][i].entry.cluster < 2 || ListingOf(data, S)[P][i].entry.cluster != lost
    ensures n in GraphOf(data, S)[P] <==> n in GraphOf(data', S')[P]
    ensures n in GraphOf(data, S)[P] ==> GraphOf(data', S')[P][n] == GraphOf(data, S)[P][n]
  {
    var ms, ms' := ListingOf(data, S)[P], ListingOf(data', S')[P];
    MinusSame(EntryMap(ms), EntryMap(ms'), name, n);
    if n in EntryMap(ms) {
      var i := EntryMapFrom(ms, n);
      EntKept(data, S, data', S', root, lost, P, i);
    }
  }

  lemma MinusSame<K, V>(a: map<K, V>, b: map<K, V>, k: K, n: K)
    requires a - {k} == b - {k} && n != k
    ensures n in a <==> n in b
    ensures n in a ==> a[n] == b[n]
  {
    assert n in a <==> n in a - {k};
    assert n in b <==> n in b - {k};
    if n in a {
      assert a[n] == (a - {k})[n] && b[n] == (b - {k})[n];
    }
  }

  /** Chain `lost` hangs nowhere but at entry `name` of `P`. */
  ghost predicate OnlyAt(L: Listing, lost: nat, P: nat, name: Str) {
    forall d, i :: d in L && 0 <= i < |L[d]| && L[d][i].Live? && L[d][i].entry.cluster == lost >= 2 ==>
                     d == P && L[d][i].entry.name == name
  }

  lemma OthersKept(data: seq<seq<byte>>, S: Shape, data': seq<seq<byte>>, S': Shape, root: nat, lost: nat, P: nat,
                   name: Str, d: nat)
    requires DirsOk(ListingOf(data, S)) && RefsOk(ListingOf(data, S), S, root) && FilesKept(data, S, data', S', lost)
    requires OnlyAt(ListingOf(data, S), lost, P, name)
    requires d in S.dirs && d != P && d in S'.dirs && ListingOf(data', S')[d] == ListingOf(data, S)[d]
    ensures GraphOf(data', S')[d] == GraphOf(data, S)[d]
  {
    var L: Listing := ListingOf(data, S);
    forall i | 0 <= i < |L[d]| && L[d][i].Live?
      ensures L[d][i].entry.cluster < 2 || L[d][i].entry.cluster != lost
    {
    }
    DirKept(data, S, data', S', root, lost, d);
  }

  lemma GoneOnlyThere(data: seq<seq<byte>>, S: Shape, lost: nat, P: nat, name: Str, d: nat, n: Str)
    requires DirsOk(ListingOf(data, S)) && OnlyAt(ListingOf(data, S), lost, P, name)
    requires d in S.dirs && n in GraphOf(data, S)[d] && GraphOf(data, S)[d][n] == DirEnt(lost) && lost >= 2
    ensures d == P && n == name
  {
    var i := GraphEntry(data, S, d, n);
  }

  lemma AllOthersKept(data: seq<seq<byte>>, S: Shape, data': seq<seq<byte>>, S': Shape, root: nat, lost: nat, P: nat,
                      name: Str)
    requires DirsOk(ListingOf(data, S)) && RefsOk(ListingOf(data, S), S, root) && FilesKept(data, S, data', S', lost)
    requires OnlyAt(ListingOf(data, S), lost, P, name)
    requires forall d :: d in S.dirs && d != P && d != lost ==>
               d in S'.dirs && ListingOf(data', S')[d] == ListingOf(data, S)[d]
    ensures forall d :: d in S.dirs && d != P && d != lost ==>
              d in S'.dirs && GraphOf(data', S')[d] == GraphOf(data, S)[d]
  {
    forall d | d in S.dirs && d != P && d != lost
      ensures d in S'.dirs && GraphOf(data', S')[d] == GraphOf(data, S)[d]
    {
      OthersKept(data, S, data', S', root, lost, P, name, d);
    }
  }

  lemma AllEntriesKept(data: seq<seq<byte>>, S: Shape, data': seq<seq<byte>>, S': Shape, root: nat, lost: nat, P: nat,
                       name: Str)
    requires DirsOk(ListingOf(data, S)) && RefsOk(ListingOf(data, S), S, root) && FilesKept(data, S, data', S', lost)
    requires P in S.dirs && P in S'.dirs && OnlyAt(ListingOf(data, S), lost, P, name)
    requires EntryMap(ListingOf(data', S')[P]) - {name} == EntryMap(ListingOf(data, S)[P]) - {name}
    ensures var m, m' := GraphOf(data, S)[P], GraphOf(data', S')[P];
            && (forall n :: n != name ==> (n in m <==> n in m'))
            && (forall n :: n != name && n in m ==> m'[n] == m[n])
  {
    var m, m' := GraphOf(data, S)[P], GraphOf(data', S')[P];
    forall n | n != name
      ensures n in m <==> n in m'
      ensures n in m ==> m'[n] == m[n]
    {
      DirEdited(data, S, data', S', root, lost, P, name, n);
    }
  }

  lemma AllGoneThere(data: seq<seq<byte>>, S: Shape, lost: nat, P: nat, name: Str)
    requires DirsOk(ListingOf(data, S)) && OnlyAt(ListingOf(data, S), lost, P, name) && lost >= 2
    ensures var G := GraphOf(data, S);
            forall d, n :: d in G && n in G[d] && G[d][n] == DirEnt(lost) ==> d == P && n == name
  {
    var G: Graph := GraphOf(data, S);
    forall d, n | d in G && n in G[d] && G[d][n] == DirEnt(lost)
      ensures d == P && n == name
    {
      GoneOnlyThere(data, S, lost, P, name, d, n);
    }
  }

  lemma EditFrom(G: Graph, G': Graph, P: nat, name: Str, lost: nat)
    requires P in G && P in G' && P != lost && (lost >= 2 || lost !in G)
    requires forall d :: d in G && d != P && d != lost ==> d in G' && G'[d] == G[d]
    requires forall n :: n != name ==> (n in G[P] <==> n in G'[P])
    requires forall n :: n != name && n in G[P] ==> G'[P][n] == G[P][n]
    requires lost >= 2 ==> forall d, n :: d in G && n in G[d] && G[d][n] == DirEnt(lost) ==> d == P && n == name
    ensures Edit(G, G', P, name, if lost >= 2 then {lost} else {})
  {
  }

  /** If one name of one directory is all that changed, the name spaces differ by one edit. */
  lemma GraphEdit(data: seq<seq<byte>>, S: Shape, data': seq<seq<byte>>, S': Shape, root: nat, lost: nat, P: nat,
                  name: Str)
    requires DirsOk(ListingOf(data, S)) && RefsOk(ListingOf(data, S), S, root) && FilesKept(data, S, data', S', lost)
    requires P in S.dirs && P in S'.dirs && P != lost && OnlyAt(ListingOf(data, S), lost, P, name)
    requires lost >= 2 || lost !in S.dirs
    requires EntryMap(ListingOf(data', S')[P]) - {name} == EntryMap(ListingOf(data, S)[P]) - {name}
    requires forall d :: d in S.dirs && d != P && d != lost ==>
               d in S'.dirs && ListingOf(data', S')[d] == ListingOf(data, S)[d]
    ensures Edit(GraphOf(data, S), GraphOf(data', S'), P, name, if lost >= 2 then {lost} else {})
  {
    AllOthersKept(data, S, data', S', root, lost, P, name);
    AllEntriesKept(data, S, data', S', root, lost, P, name);
    if lost >= 2 {
      AllGoneThere(data, S, lost, P, name);
    }
    EditFrom(GraphOf(data, S), GraphOf(data', S'), P, name, lost);
  }
}
