/** The FAT32 file operations: lookup, reading, listing, and the write surface, each specified by what
    every path shows before and after. */
module FatFiles {
  import opened Bytes
  import opened Results
  import opened Layout
  import opened Chains
  import opened Slots
  import opened ShortNames
  import opened Directory
  import opened Shape
  import opened Namespace
  import opened Volume
  import opened FatState
  import opened FatOps
  import opened Paths

  const U32_RANGE: nat := 0x1_0000_0000

  /** A string of slashes other than `/` itself names nothing: `lookup` finds no segment in it. */
  predicate OnlySlashes(abs: Str) {
    Segments(abs) == [] && abs != [SLASH] && abs != []
  }

  /** What a path string shows. */
  ghost function SeenAt(s: Snap, g: Geometry, abs: Str): Obs {
    if OnlySlashes(abs) then Absent(NotFound) else Seen(s, g, Segments(abs))
  }

  /** The empty string and `/` name the root; two or more slashes and nothing else name nothing; every other string
      names what its segments lead to. */
  lemma RootMeans(s: Snap, g: Geometry, abs: Str)
    ensures SeenAt(s, g, []) == SeenAt(s, g, [47]) == Dir
    ensures |abs| > 1 && (forall i :: 0 <= i < |abs| ==> abs[i] == 47) ==> SeenAt(s, g, abs) == Absent(NotFound)
    ensures (exists i :: 0 <= i < |abs| && abs[i] != 47) ==> SeenAt(s, g, abs) == Seen(s, g, Segments(abs))
  {
    RootSegments();
    SlashesOnly(abs);
  }

  lemma {:induction false} SlashesOnly(abs: Str)
    ensures Segments(abs) == [] <==> forall i :: 0 <= i < |abs| ==> abs[i] == SLASH
    decreases |abs|
  {
    if abs != [] && abs[0] == SLASH {
      SlashesOnly(abs[1..]);
      assert forall i :: 0 < i < |abs| ==> abs[i] == abs[1..][i - 1];
    }
  }

  /** What `lookup` returns. */
  ghost function LookupSpec(s: Snap, g: Geometry, abs: Str): Result<DirEntry> {
    if abs == [SLASH] || abs == [] then Ok(DirEntry([SLASH], true, g.rootCluster % U32_RANGE, 0))
    else if Segments(abs) == [] then Err(NotFound)
    else Walk(Dirs(s), g.rootCluster, Segments(abs))
  }

  /** The bytes of a file that `size` as a 32-bit number keeps. */
  function Stored32(data: seq<byte>): seq<byte> {
    data[..|data| % U32_RANGE]
  }

  // ---- What the write operations may refuse ----

  /** Why `create_file` and `write_file` refuse a path, if they do. */
  ghost function WriteDenied(s: Snap, g: Geometry, abs: Str): Option<FsError> {
    match SplitParent(abs)
    case Err(x) => Some(x)
    case Ok((parent, name)) =>
      if !SeenAt(s, g, parent).Dir? then Some(NotADir)
      else if Seen(s, g, Segments(parent) + [name]).Dir? then Some(IsADir)
      else None
  }

  /** Why `create_dir` refuses a path, if it does. */
  ghost function MakeDenied(s: Snap, g: Geometry, abs: Str): Option<FsError> {
    match SplitParent(abs)
    case Err(x) => Some(x)
    case Ok((parent, name)) =>
      if !SeenAt(s, g, parent).Dir? then Some(NotADir)
      else if !Seen(s, g, Segments(parent) + [name]).Absent? then Some(Io)
      else None
  }

  /** Nothing shows below `p`. */
  ghost predicate NoChildren(s: Snap, g: Geometry, p: Path) {
    forall n :: Seen(s, g, p + [n]).Absent?
  }

  /** Why `remove` refuses what it finds at `p`, if it does. */
  ghost function RemoveAt(s: Snap, g: Geometry, p: Path): Option<FsError> {
    match Seen(s, g, p)
    case Absent(_) => Some(NotFound)
    case File(_) => None
    case Dir => if NoChildren(s, g, p) then None else Some(Io)
  }

  /** Why `remove` refuses, given what the parent shows and what it says of the entry itself. */
  ghost function RemoveBelow(parent: Obs, entry: Option<FsError>): (r: Option<FsError>)
    ensures r.None? <==> parent.Dir? && entry.None?
  {
    match parent
    case Absent(why) => Some(why)
    case File(_) => Some(NotADir)
    case Dir => entry
  }

  /** Why `remove` refuses a path, if it does. */
  ghost function RemoveDenied(s: Snap, g: Geometry, abs: Str): Option<FsError> {
    match SplitParent(abs)
    case Err(x) => Some(x)
    case Ok((parent, name)) => RemoveBelow(SeenAt(s, g, parent), RemoveAt(s, g, Segments(parent) + [name]))
  }

  /** Which calls are refused, and how, by what the parent and the path show. */
  lemma RefusalsMean(s: Snap, g: Geometry, abs: Str, parent: Str, name: Str)
    requires SplitParent(abs) == Ok((parent, name))
    ensures var p := Segments(parent) + [name];
            match SeenAt(s, g, parent)
            case Absent(why) =>
              WriteDenied(s, g, abs) == MakeDenied(s, g, abs) == Some(NotADir) && RemoveDenied(s, g, abs) == Some(why)
            case File(_) => WriteDenied(s, g, abs) == MakeDenied(s, g, abs) == RemoveDenied(s, g, abs) == Some(NotADir)
            case Dir =>
              match Seen(s, g, p)
              case Absent(_) =>
                WriteDenied(s, g, abs) == MakeDenied(s, g, abs) == None && RemoveDenied(s, g, abs) == Some(NotFound)
              case File(_) =>
                WriteDenied(s, g, abs) == RemoveDenied(s, g, abs) == None && MakeDenied(s, g, abs) == Some(Io)
              case Dir =>
                && WriteDenied(s, g, abs) == Some(IsADir) && MakeDenied(s, g, abs) == Some(Io)
                && RemoveDenied(s, g, abs) == if forall n :: Seen(s, g, p + [n]).Absent? then None else Some(Io)
  {
  }

  // ---- What the write operations need ----

  /** The directory that the last name of `p` belongs in. */
  ghost function HomeOf(s: Snap, g: Geometry, p: Path): Option<nat> {
    if p == [] then None else HeadAt(Names(s), g.rootCluster, p[..|p| - 1])
  }

  /** How many clusters the entry `name` of directory `P` holds. */
  ghost function HeldIn(s: Snap, P: nat, name: Str): nat {
    if P in Dirs(s) && Find(Dirs(s)[P], name) >= 0 then Clustered(s, Dirs(s)[P][Find(Dirs(s)[P], name)].entry) else 0
  }

  /** How many clusters are free once the entry at `p`, if there is one, gave its own back. */
  ghost function Space(s: Snap, g: Geometry, p: Path): nat {
    FreeCount(s.vol.fat) + match HomeOf(s, g, p)
                           case Some(P) => HeldIn(s, P, p[|p| - 1])
                           case None => 0
  }

  /** The directory that `p` belongs in has no slot to reuse. */
  ghost predicate Crowded(s: Snap, g: Geometry, p: Path) {
    match HomeOf(s, g, p)
    case Some(P) => P in Dirs(s) && NoneDead(Dirs(s)[P])
    case None => false
  }

  /** Room for a file of `n` clusters at `p`: the old file's clusters and its slot are used again, and a
      new entry in a full directory takes one cluster more. */
  ghost predicate WriteRoom(s: Snap, g: Geometry, p: Path, n: nat) {
    n <= Space(s, g, p) && (Seen(s, g, p).File? || !Crowded(s, g, p) || n < Space(s, g, p))
  }

  /** Room for an empty file at `p`. */
  ghost predicate CreateRoom(s: Snap, g: Geometry, p: Path) {
    Seen(s, g, p).File? || !Crowded(s, g, p) || FreeCount(s.vol.fat) > 0
  }

  /** Room for a new directory at `p`. */
  ghost predicate MakeRoom(s: Snap, g: Geometry, p: Path) {
    FreeCount(s.vol.fat) >= if Crowded(s, g, p) then 2 else 1
  }

  lemma HomeIs(s: Snap, g: Geometry, parent: Path, name: Str, P: nat)
    requires Leads(s, g, parent, P) && P in s.shape.dirs
    ensures Space(s, g, parent + [name]) == FreeCount(s.vol.fat) + HeldIn(s, P, name)
    ensures Crowded(s, g, parent + [name]) <==> NoneDead(Dirs(s)[P])
  {
    var p := parent + [name];
    assert p[..|p| - 1] == parent;
  }

  /** Everything but the name space that a successful operation keeps. */
  ghost predicate Kept(s: Snap, s': Snap) {
    && (Tight(s) ==> Tight(s')) && (Counted(s.vol) ==> Counted(s'.vol))
    && s'.vol.frozen == s.vol.frozen
  }

  ghost predicate SameNames(s: Snap, t: Snap) {
    Names(t) == Names(s) && Dirs(t) == Dirs(s) && t.vol.frozen == s.vol.frozen && t.shape == s.shape
  }

  /** Clusters a file of these bytes needs. */
  function ClustersFor(data: seq<byte>, cb: nat): nat
    requires cb > 0
  {
    (|data| + cb - 1) / cb
  }

  /** Exactly enough: one cluster fewer would not hold the bytes. */
  lemma ClustersMeans(data: seq<byte>, cb: nat)
    requires cb > 0
    ensures var n := ClustersFor(data, cb);
            |data| <= n * cb && (n == 0 <==> data == []) && (n > 0 ==> (n - 1) * cb < |data|)
  {
    CeilDiv(|data|, cb);
    var n := ClustersFor(data, cb);
    MulStep(n - 1, cb);
    assert (|data| + cb - 1) == n * cb + (|data| + cb - 1) % cb;
  }

  /** The entry at `p`, if there was one, was dropped, and its clusters given back. */
  ghost predicate Dropped(s: Snap, s': Snap, g: Geometry, p: Path) {
    && Changed(s, s', g, p, Absent(NotFound)) && Kept(s, s') && FreeCount(s'.vol.fat) == Space(s, g, p)
    && (Crowded(s', g, p) <==> Crowded(s, g, p) && !Seen(s, g, p).File?)
    && (Counted(s.vol) ==> (Known(s'.vol.info) <==> Known(s.vol.info)))
  }

  lemma NothingDropped(s: Snap, g: Geometry, parent: Path, P: nat, name: Str)
    requires Sound(s, g) && P in s.shape.dirs && Leads(s, g, parent, P) && Find(Dirs(s)[P], name) < 0
    ensures Dropped(s, s, g, parent + [name])
  {
    HomeIs(s, g, parent, name, P);
    EntrySeen(s, g, parent, P, name);
    MissingSame(s, g, parent, P, name);
  }

  lemma EntryDropped(s: Snap, s': Snap, g: Geometry, parent: Path, P: nat, name: Str)
    requires P in s.shape.dirs && Leads(s, g, parent, P) && Seen(s, g, parent + [name]).File?
    requires P in s'.shape.dirs && Leads(s', g, parent, P) && !NoneDead(Dirs(s')[P]) && Kept(s, s')
    requires Changed(s, s', g, parent + [name], Absent(NotFound))
    requires FreeCount(s'.vol.fat) == FreeCount(s.vol.fat) + HeldIn(s, P, name)
    requires Counted(s.vol) ==> (Known(s'.vol.info) <==> Known(s.vol.info))
    ensures Dropped(s, s', g, parent + [name])
  {
    HomeIs(s, g, parent, name, P);
    HomeIs(s', g, parent, name, P);
  }

  /** A fresh chain `ch` with head `head` holds `data` in state `t`, and nothing else was used up. */
  ghost predicate Filled(s: Snap, t: Snap, g: Geometry, data: seq<byte>, head: nat, ch: seq<nat>)
    requires g.ClusterBytes() > 0
  {
    && head < U32_RANGE && Fresh(t, ch, head, false) && Clusters(ch, |t.vol.data|)
    && (Tight(s) ==> TightBut(t, ch)) && (Counted(s.vol) ==> Counted(t.vol))
    && (ClustersFor(data, g.ClusterBytes()) < U32_RANGE ==> data <= ChainBytes(t.vol.data, ch))
    && |ch| == ClustersFor(data, g.ClusterBytes()) % U32_RANGE
    && FreeCount(t.vol.fat) == FreeCount(s.vol.fat) - |ch|
  }

  /** An allocation of more clusters than there are: nothing free is left, and what was is leaked. */
  ghost predicate Exhausted(s: Snap, t: Snap) {
    && FreeCount(t.vol.fat) == 0
    && (Tight(s) ==> (Tight(t) <==> FreeCount(s.vol.fat) == 0))
    && (Counted(s.vol) ==> (Counted(t.vol) <==> FreeCount(s.vol.fat) == 0 || !Known(s.vol.info)))
  }

  lemma FilledNothing(s: Snap, g: Geometry, data: seq<byte>)
    requires g.ClusterBytes() > 0 && ClustersFor(data, g.ClusterBytes()) % U32_RANGE == 0
    requires data != [] ==> ClustersFor(data, g.ClusterBytes()) > 0
    ensures Filled(s, s, g, data, 0, [])
  {
  }

  lemma FilledAll(s: Snap, t: Snap, u: Snap, g: Geometry, data: seq<byte>, head: nat, ch: seq<nat>)
    requires g.ClusterBytes() > 0 && head < U32_RANGE
    requires |ch| == ClustersFor(data, g.ClusterBytes()) % U32_RANGE
    requires (Tight(s) ==> TightBut(t, ch)) && (Counted(s.vol) ==> Counted(t.vol))
    requires FreeCount(t.vol.fat) == FreeCount(s.vol.fat) - |ch| && u.vol == t.vol.(data := u.vol.data)
    requires Fresh(u, ch, head, false) && Clusters(ch, |u.vol.data|) && (TightBut(t, ch) ==> TightBut(u, ch))
    requires ClustersFor(data, g.ClusterBytes()) < U32_RANGE ==> data <= ChainBytes(u.vol.data, ch)
    ensures Filled(s, u, g, data, head, ch)
  {
  }

  lemma RoomFor(data: seq<byte>, cb: nat, n: nat)
    requires cb > 0 && n == ClustersFor(data, cb) % U32_RANGE
    ensures ClustersFor(data, cb) < U32_RANGE ==> |data| <= n * cb
  {
    ClustersEnough(data, cb);
  }

  /** Entry `e` with the fresh chain `ch` was hung up at `p`. */
  ghost predicate Hung(s: Snap, s': Snap, g: Geometry, p: Path, e: DirEntry, ch: seq<nat>) {
    && Clusters(ch, |s.vol.data|) && Changed(s, s', g, p, NewObs(s, e, ch))
    && (TightBut(s, ch) ==> Tight(s')) && (Counted(s.vol) ==> Counted(s'.vol)) && s'.vol.frozen == s.vol.frozen
    && (e.isDir ==> HungDir(s, s', g, p, ch))
  }

  /** The directory of `p` holds a slot that encodes its last name with these attributes. */
  ghost predicate Stamped(s: Snap, g: Geometry, p: Path, attrs: byte) {
    exists P: nat, slot: Slot :: SlotAt(s, g, p, P, slot) && StampIs(slot, p[|p| - 1], attrs)
  }

  ghost predicate StampIs(slot: Slot, name: Str, attrs: byte) {
    exists cluster: u32, size: u32 :: Encodes(slot, name, attrs, cluster, size)
  }

  /** Attribute bytes of a directory or a file entry, as opposed to a volume label. */
  ghost predicate EntryAttrs(attrs: byte, isDir: bool) {
    attrs / 8 % 2 == 0 && isDir == (attrs / 16 % 2 == 1)
  }

  lemma EntryKinds()
    ensures EntryAttrs(ATTR_ARCHIVE, false) && EntryAttrs(0, false) && EntryAttrs(ATTR_DIRECTORY, true)
  {
  }

  /** What `write_file` did at `p`, once the path was not refused: it succeeds exactly when there is room,
      and a failure leaks what was free and upsets the count exactly when it struck in the allocation. */
  ghost predicate Written(s: Snap, s': Snap, g: Geometry, p: Path, data: seq<byte>, r: Result<()>)
    requires g.ClusterBytes() > 0
  {
    var n := ClustersFor(data, g.ClusterBytes());
    && (r.Ok? <==> WriteRoom(s, g, p, n % U32_RANGE))
    && (r.Ok? ==> Kept(s, s'))
    && (r.Ok? && n < U32_RANGE ==> Changed(s, s', g, p, File(Stored32(data))))
    && (r.Err? ==> r.error == Io && Changed(s, s', g, p, Absent(NotFound)) && FailedWrite(s, s', g, p, n % U32_RANGE))
  }

  /** What a write of `n` clusters that ran out of space leaves behind. */
  ghost predicate FailedWrite(s: Snap, s': Snap, g: Geometry, p: Path, n: nat) {
    && FreeCount(s'.vol.fat) == 0
    && (Tight(s) ==> (Tight(s') <==> Space(s, g, p) == 0))
    && (Counted(s.vol) ==> (Counted(s'.vol) <==> n <= Space(s, g, p) || Space(s, g, p) == 0 || !Known(s.vol.info)))
  }

  /** What `write_file` did. */
  ghost predicate WroteAt(s: Snap, s': Snap, g: Geometry, abs: Str, data: seq<byte>, r: Result<()>)
    requires g.ClusterBytes() > 0
  {
    match WriteDenied(s, g, abs)
    case Some(why) => r == Err(why) && s' == s
    case None => Written(s, s', g, Segments(abs), data, r)
  }

  /** What `append_file` did. */
  ghost predicate AppendedAt(s: Snap, s': Snap, g: Geometry, abs: Str, data: seq<byte>, r: Result<()>)
    requires g.ClusterBytes() > 0
  {
    match SeenAt(s, g, abs)
    case Dir => r == Err(IsADir) && s' == s
    case File(b) => WroteAt(s, s', g, abs, b + data, r)
    case Absent(why) => if why != NotFound then r == Err(why) && s' == s else WroteAt(s, s', g, abs, data, r)
  }

  /** What `create_file` did. */
  ghost predicate CreatedAt(s: Snap, s': Snap, g: Geometry, abs: Str, r: Result<()>) {
    match WriteDenied(s, g, abs)
    case Some(why) => r == Err(why) && s' == s
    case None => Created(s, s', g, Segments(abs), r)
  }

  /** What `create_dir` did. */
  ghost predicate MadeAt(s: Snap, s': Snap, g: Geometry, abs: Str, r: Result<()>) {
    match MakeDenied(s, g, abs)
    case Some(why) => r == Err(why) && s' == s
    case None => MadeDir(s, s', g, Segments(abs), r)
  }

  /** What `remove` did. */
  ghost predicate RemovedAt(s: Snap, s': Snap, g: Geometry, abs: Str, r: Result<()>) {
    match RemoveDenied(s, g, abs)
    case Some(why) => r == Err(why) && s' == s
    case None => r.Ok? && Kept(s, s') && Changed(s, s', g, Segments(abs), Absent(NotFound))
  }

  lemma WriteFailed(s: Snap, s1: Snap, s2: Snap, g: Geometry, p: Path, data: seq<byte>)
    requires g.ClusterBytes() > 0 && Dropped(s, s1, g, p) && SameNames(s1, s2) && Exhausted(s1, s2)
    requires ClustersFor(data, g.ClusterBytes()) % U32_RANGE > FreeCount(s1.vol.fat)
    ensures Written(s, s2, g, p, data, Err(Io))
  {
    ChangedThenSame(s, s1, s2, g, p, Absent(NotFound));
  }

  lemma WriteFull(s: Snap, s1: Snap, s2: Snap, g: Geometry, p: Path, data: seq<byte>, head: nat, ch: seq<nat>)
    requires g.ClusterBytes() > 0 && Dropped(s, s1, g, p) && SameNames(s1, s2) && Filled(s1, s2, g, data, head, ch)
    requires FreeCount(s2.vol.fat) == 0 && Crowded(s1, g, p)
    ensures Written(s, s2, g, p, data, Err(Io))
  {
    ChangedThenSame(s, s1, s2, g, p, Absent(NotFound));
    if ch == [] {
      assert TightBut(s2, ch) ==> Tight(s2);
    } else {
      FreshLeaks(s2, ch, head, false);
    }
  }

  /** A fresh chain that is not hung up is leaked. */
  lemma FreshLeaks(s: Snap, ch: seq<nat>, head: nat, isDir: bool)
    requires Fresh(s, ch, head, isDir) && ch != []
    ensures !Tight(s)
  {
    ChainUsed(s.vol.fat, ch);
    assert ch[0] in ch;
  }

  lemma WriteDone(s: Snap, s1: Snap, s2: Snap, s3: Snap, g: Geometry, p: Path, data: seq<byte>, e: DirEntry,
                  ch: seq<nat>)
    requires g.ClusterBytes() > 0 && Dropped(s, s1, g, p) && SameNames(s1, s2)
    requires Filled(s1, s2, g, data, e.cluster, ch) && !e.isDir && e.size == |data| % U32_RANGE
    requires Hung(s2, s3, g, p, e, ch) && (FreeCount(s2.vol.fat) > 0 || !Crowded(s1, g, p))
    ensures Written(s, s3, g, p, data, Ok(()))
  {
    ChangedThenSame(s, s1, s2, g, p, Absent(NotFound));
    ChangedTwice(s, s2, s3, g, p, Absent(NotFound), NewObs(s2, e, ch));
    if ClustersFor(data, g.ClusterBytes()) < U32_RANGE {
      StoredObs(s2, e, ch, data);
    }
  }

  /** The last part of a write, entry placed or not. */
  lemma WriteEnded(s: Snap, s1: Snap, s2: Snap, s3: Snap, g: Geometry, p: Path, data: seq<byte>, e: DirEntry,
                   ch: seq<nat>, r: Result<()>)
    requires g.ClusterBytes() > 0 && Dropped(s, s1, g, p) && SameNames(s1, s2)
    requires Filled(s1, s2, g, data, e.cluster, ch) && !e.isDir && e.size == |data| % U32_RANGE
    requires r.Ok? <==> FreeCount(s2.vol.fat) > 0 || !Crowded(s1, g, p)
    requires if r.Ok? then Hung(s2, s3, g, p, e, ch) else r.error == Io && s3 == s2
    ensures Written(s, s3, g, p, data, r)
  {
    if r.Ok? {
      WriteDone(s, s1, s2, s3, g, p, data, e, ch);
    } else {
      WriteFull(s, s1, s2, g, p, data, e.cluster, ch);
    }
  }

  /** What `create_file` did at `p`, once the path was not refused. */
  ghost predicate Created(s: Snap, s': Snap, g: Geometry, p: Path, r: Result<()>) {
    && (r.Ok? ==> Kept(s, s') && Changed(s, s', g, p, File([])))
    && (r.Err? ==> r.error == Io && s' == s)
    && (r.Ok? <==> CreateRoom(s, g, p))
  }

  lemma CreateDone(s: Snap, s1: Snap, s': Snap, g: Geometry, p: Path, e: DirEntry)
    requires CreateRoom(s, g, p)
    requires Changed(s, s1, g, p, Absent(NotFound)) && Kept(s, s1) && Hung(s1, s', g, p, e, []) && !e.isDir
             && e.size == 0
    ensures Created(s, s', g, p, Ok(()))
  {
  }

  /** A new empty entry where there was none. */
  lemma EmptyAdded(s: Snap, s': Snap, g: Geometry, parent: Path, name: Str, P: nat, e: DirEntry, r: Result<()>)
    requires Sound(s, g) && P in s.shape.dirs && Leads(s, g, parent, P) && Find(Dirs(s)[P], name) < 0
    requires Seen(s, g, parent + [name]).Absent? && !e.isDir && e.size == 0
    requires r.Ok? <==> FreeCount(s.vol.fat) > 0 || !NoneDead(Dirs(s)[P])
    requires if r.Ok? then Hung(s, s', g, parent + [name], e, []) else r.error == Io && s' == s
    ensures Created(s, s', g, parent + [name], r)
  {
    HomeIs(s, g, parent, name, P);
    if r.Ok? {
      MissingSame(s, g, parent, P, name);
      CreateDone(s, s, s', g, parent + [name], e);
    }
  }

  /** What `create_dir` did at `p`, once the path was not refused. */
  ghost predicate MadeDir(s: Snap, s': Snap, g: Geometry, p: Path, r: Result<()>) {
    && (r.Ok? ==> Kept(s, s') && Changed(s, s', g, p, Dir))
    && (r.Ok? <==> MakeRoom(s, g, p))
    && (r.Err? ==> r.error == Io && SameNames(s, s') && FailedMake(s, s'))
  }

  /** What a `create_dir` that ran out of space leaves behind: the last free cluster, marked and leaked. */
  ghost predicate FailedMake(s: Snap, s': Snap) {
    && FreeCount(s'.vol.fat) == 0
    && (Tight(s) ==> (Tight(s') <==> FreeCount(s.vol.fat) == 0))
    && (Counted(s.vol) ==> Counted(s'.vol))
  }

  /** The directory at `p` is one cluster, with `.` for itself and `..` for cluster `up`. */
  ghost predicate Dotted(s: Snap, g: Geometry, p: Path, up: nat) {
    var h := HeadAt(Names(s), g.rootCluster, p);
    && h.Some? && h.value < |s.vol.data| && h.value in s.shape.chains && s.shape.chains[h.value] == [h.value]
    && Dots(s.vol.data[h.value], h.value, up)
  }

  /** A fresh empty directory at cluster `c` below cluster `up`, and nothing else used up. */
  ghost predicate DirReady(s: Snap, t: Snap, c: nat, up: nat) {
    && c < U32_RANGE && c < |t.vol.data| && Dots(t.vol.data[c], c, up) && Fresh(t, [c], c, true) && SameNames(s, t)
    && (Tight(s) ==> TightBut(t, [c])) && (Counted(s.vol) ==> Counted(t.vol))
    && FreeCount(t.vol.fat) == FreeCount(s.vol.fat) - 1
  }

  lemma MakeDone(s: Snap, t: Snap, s': Snap, g: Geometry, p: Path, e: DirEntry, c: nat, up: nat)
    requires DirReady(s, t, c, up) && Hung(t, s', g, p, e, [c]) && e.isDir && MakeRoom(s, g, p)
    ensures MadeDir(s, s', g, p, Ok(())) && Dotted(s', g, p, up)
  {
    SameThenChanged(s, t, s', g, p, Dir);
    assert c in [c];
  }

  lemma MakeFull(s: Snap, t: Snap, g: Geometry, p: Path, c: nat, up: nat)
    requires DirReady(s, t, c, up) && FreeCount(t.vol.fat) == 0 && Crowded(s, g, p)
    ensures MadeDir(s, t, g, p, Err(Io))
  {
    FreshLeaks(t, [c], c, true);
  }

  lemma ClustersEnough(data: seq<byte>, cb: nat)
    requires cb > 0
    ensures |data| <= ClustersFor(data, cb) * cb && (data != [] ==> ClustersFor(data, cb) > 0)
  {
    CeilDiv(|data|, cb);
  }

  lemma StoredWhole(data: seq<byte>, cb: nat)
    requires |data| < U32_RANGE && cb > 0
    ensures Stored32(data) == data && ClustersFor(data, cb) < U32_RANGE
  {
    CeilDiv(|data|, cb);
  }

  class FatFs {
    const v: FatVolume
    ghost var shape: Shape

    ghost predicate Valid()
      reads this, v
    {
      v.Ready() && Sound(Snap(v.vol, shape), v.geo)
    }

    ghost function Now(): Snap
      reads this, v
    {
      Snap(v.vol, shape)
    }

    constructor (volume: FatVolume, ghost s: Shape)
      requires volume.Ready() && Sound(Snap(volume.vol, s), volume.geo)
      ensures v == volume && shape == s && Valid()
    {
      v := volume;
      shape := s;
    }

    // ---- Reading ----

    /** `lookup`: walk the segments from the root, one directory at a time. */
    method Lookup(abs: Str) returns (r: Result<DirEntry>)
      requires Valid()
      ensures r == LookupSpec(Now(), v.geo, abs)
    {
      if abs == [SLASH] || abs == [] {
        return Ok(DirEntry([SLASH], true, v.geo.rootCluster, 0));
      }
      var segs := Segments(abs);
      var current: nat := v.geo.rootCluster;
      var found: Option<DirEntry> := None;
      RootIsDir(Now(), v.geo);
      ghost var L := Dirs(Now());
      for i := 0 to |segs|
        invariant i == 0 ==> found == None && current == v.geo.rootCluster
        invariant i > 0 ==> found.Some? && WalkOn(L, v.geo.rootCluster, segs, found.value, i)
        invariant i > 0 && found.value.isDir ==> found.value.cluster in shape.dirs
      {
        if i > 0 {
          if !found.value.isDir {
            return Err(NotADir);
          }
          current := found.value.cluster;
        }
        OpenDir(Now(), v.geo, current);
        SearchFacts(Now(), v.geo, current, segs[i]);
        found := v.FindInDir(current, segs[i], shape.chains[current]);
        if found == None {
          return Err(NotFound);
        }
        EntryFacts(Now(), v.geo, current, Find(L[current], segs[i]), found.value);
        if i > 0 {
          assert segs[i..][1..] == segs[i + 1..];
        }
      }
      r := if found.Some? then Ok(found.value) else Err(NotFound);
    }

    /** `is_dir`. */
    method IsDir(abs: Str) returns (r: bool)
      requires Valid()
      ensures r == SeenAt(Now(), v.geo, abs).Dir?
    {
      var e := Lookup(abs);
      ghost var P, k := LookupSeen(Now(), v.geo, abs);
      r := e.Ok? && e.value.isDir;
    }

    /** `read_file`: the bytes the path shows, or why there are none. */
    method ReadFile(abs: Str) returns (r: Result<seq<byte>>)
      requires Valid()
      ensures r == match SeenAt(Now(), v.geo, abs)
                   case File(b) => Ok(b)
                   case Dir => Err(IsADir)
                   case Absent(why) => Err(why)
    {
      var e := Lookup(abs);
      ghost var P, k := LookupSeen(Now(), v.geo, abs);
      if e.Err? {
        return Err(e.error);
      }
      var entry := e.value;
      if entry.isDir {
        return Err(IsADir);
      }
      var out := ReadEntry(entry, P, k);
      r := Ok(out);
    }

    /** The contents of a file entry: its chain, cut at the size. */
    method ReadEntry(entry: DirEntry, ghost P: nat, ghost k: nat) returns (out: seq<byte>)
      requires Valid() && EntryAt(Now(), P, k, entry)
      ensures out == Content(v.vol.data, shape, entry)
    {
      EntryFacts(Now(), v.geo, P, k, entry);
      if entry.size == 0 || entry.cluster < 2 {
        return [];
      }
      out := v.ReadChain(entry.cluster, entry.size, shape.chains[entry.cluster]);
      ReadIsContent(v.vol.data, shape, entry, out);
      if |out| > entry.size {
        out := out[..entry.size];
      }
    }

    /** `list_dir`: every child the directory shows, once, in lower case. */
    method ListDir(abs: Str) returns (r: Result<seq<Str>>)
      requires Valid()
      ensures match SeenAt(Now(), v.geo, abs)
              case Absent(why) => r == Err(why)
              case File(_) => r == Err(NotADir)
              case Dir =>
                && r.Ok? && Distinct(r.value)
                && forall n :: n in r.value <==> n == Lower(n) && !Seen(Now(), v.geo, Segments(abs) + [n]).Absent?
      ensures r.Ok? ==> var P := HeadAt(Names(Now()), v.geo.rootCluster, Segments(abs));
                        && P.Some? && P.value in Dirs(Now())
                        && r.value == EntryNames(EntriesFrom(Dirs(Now())[P.value], 0))
    {
      var e := Lookup(abs);
      ghost var P, k := LookupSeen(Now(), v.geo, abs);
      if e.Err? {
        return Err(e.error);
      }
      if !e.value.isDir {
        return Err(NotADir);
      }
      var cluster: nat := if abs == [SLASH] then v.geo.rootCluster else e.value.cluster;
      LookupHead(Now(), v.geo, abs);
      OpenDir(Now(), v.geo, cluster);
      ListingSeen(Now(), v.geo, Segments(abs), cluster);
      var entries := v.ReadDir(cluster, shape.chains[cluster]);
      var names := CollectNames(entries);
      r := Ok(names);
    }

    /** `cluster_for`: the first cluster of the directory a path leads to. */
    method ClusterFor(abs: Str) returns (r: Result<nat>)
      requires Valid()
      ensures r.Ok? <==> SeenAt(Now(), v.geo, abs).Dir?
      ensures r.Ok? ==> r.value in shape.dirs && Leads(Now(), v.geo, Segments(abs), r.value)
      ensures r.Err? ==> r.error == if SeenAt(Now(), v.geo, abs).Absent? then SeenAt(Now(), v.geo, abs).why else NotADir
    {
      LookupHead(Now(), v.geo, abs);
      ghost var P, k := LookupSeen(Now(), v.geo, abs);
      if abs == [SLASH] {
        return Ok(v.geo.rootCluster);
      }
      var e := Lookup(abs);
      if e.Err? {
        return Err(e.error);
      }
      if !e.value.isDir {
        return Err(NotADir);
      }
      r := Ok(e.value.cluster);
    }

    // ---- The two halves of every write ----

    /** Free an entry's chain and mark its slot deleted. */
    method DropEntry(P: nat, name: Str, e: DirEntry, ghost k: nat, ghost parent: Path)
      requires Valid() && EntryAt(Now(), P, k, e) && k == Find(Dirs(Now())[P], name) && e.name == Lower(name)
      requires EmptyIfDir(Now(), e) && Leads(Now(), v.geo, parent, P)
      requires Lower(name) != DOT_NAME && Lower(name) != DOT_DOT_NAME
      modifies this, v
      ensures Valid() && P in shape.dirs && Find(Dirs(Now())[P], name) < 0 && Leads(Now(), v.geo, parent, P)
      ensures !NoneDead(Dirs(Now())[P])
      ensures Changed(old(Now()), Now(), v.geo, parent + [name], Absent(NotFound))
      ensures Kept(old(Now()), Now()) && FreeCount(v.vol.fat) == FreeCount(old(v.vol).fat) + Clustered(old(Now()), e)
      ensures Counted(old(v.vol)) ==> (Known(v.vol.info) <==> Known(old(v.vol).info))
    {
      ghost var s := Now();
      FreeStep(s, v.geo, P, k, e);
      OpenDir(s, v.geo, P);
      EntryFacts(s, v.geo, P, k, e);
      if e.cluster >= 2 {
        v.FreeChain(e.cluster);
      }
      assert v.vol == FreedVol(s.vol, e);
      var r := v.DeleteDirEntry(P, name, shape.chains[P]);
      shape := Without(shape, e.cluster);
      DetachOp(s, v.geo, Now(), parent, name, P, k, e);
    }

    /** `add_dir_entry`, before the shape is brought up to date. */
    method AddToDir(P: nat, name: Str, attrs: byte, cluster: u32, size: u32)
      returns (r: Result<()>, ghost slot: Slot, ghost k: nat)
      requires Valid() && P in shape.dirs
      modifies v
      ensures v.Ready() && Encodes(slot, name, attrs, cluster, size)
      ensures r.Ok? ==> SlotPlaced(old(Now()), v.vol, v.geo, P, slot, k)
      ensures r.Ok? <==> FreeCount(old(v.vol).fat) > 0 || !NoneDead(Dirs(old(Now()))[P])
      ensures r.Err? ==> r.error == Io && v.vol == old(v.vol)
    {
      OpenDir(Now(), v.geo, P);
      r, slot, k := v.AddDirEntry(P, name, attrs, cluster, size, shape.chains[P]);
    }

    /** `add_dir_entry` for a name that is not there, hanging up the fresh chain `ch`. */
    method AddEntry(P: nat, name: Str, attrs: byte, cluster: u32, size: u32, ghost parent: Path, ghost ch: seq<nat>,
                    ghost isDir: bool)
      returns (r: Result<()>)
      requires Valid() && P in shape.dirs && Leads(Now(), v.geo, parent, P) && Find(Dirs(Now())[P], name) < 0
      requires ValidName(name) && EntryAttrs(attrs, isDir) && Fresh(Now(), ch, cluster, isDir)
      modifies this, v
      ensures Valid() && v.vol.frozen == old(v.vol).frozen
      ensures r.Ok? ==> Hung(old(Now()), Now(), v.geo, parent + [name], DirEntry(Lower(name), isDir, cluster, size), ch)
      ensures r.Ok? ==> Stamped(Now(), v.geo, parent + [name], attrs)
      ensures r.Ok? <==> FreeCount(old(v.vol).fat) > 0 || !NoneDead(Dirs(old(Now()))[P])
      ensures r.Err? ==> r.error == Io && Now() == old(Now())
    {
      ghost var s := Now();
      ghost var slot: Slot, k: nat;
      r, slot, k := AddToDir(P, name, attrs, cluster, size);
      if r.Ok? {
        shape := PlacedShape(s, v.geo, v.vol, parent, name, attrs, cluster, size, P, slot, k, ch, isDir);
      }
    }

    /** The first part of `write_file`: drop the old file of that name, if there is one. */
    method ClearName(P: nat, name: Str, ghost parent: Path) returns (r: Result<()>)
      requires Valid() && P in shape.dirs && Leads(Now(), v.geo, parent, P)
      modifies this, v
      ensures Valid()
      ensures if old(Seen(Now(), v.geo, parent + [name])).Dir? then r == Err(IsADir) && Now() == old(Now())
              else
                && r.Ok? && P in shape.dirs && Leads(Now(), v.geo, parent, P) && Find(Dirs(Now())[P], name) < 0
                && Dropped(old(Now()), Now(), v.geo, parent + [name])
    {
      OpenDir(Now(), v.geo, P);
      SearchFacts(Now(), v.geo, P, name);
      EntrySeen(Now(), v.geo, parent, P, name);
      var found := v.FindInDir(P, name, shape.chains[P]);
      ghost var s := Now();
      if found == None {
        NothingDropped(s, v.geo, parent, P, name);
        return Ok(());
      }
      var e := found.value;
      if e.isDir {
        return Err(IsADir);
      }
      DropEntry(P, name, e, Find(Dirs(s)[P], name), parent);
      EntryDropped(s, Now(), v.geo, parent, P, name);
      r := Ok(());
    }

    /** The second part of `write_file`: a fresh chain holding the data. */
    method FillChain(data: seq<byte>) returns (r: Result<nat>, ghost ch: seq<nat>)
      requires Valid()
      modifies v
      ensures Valid() && v.geo.ClusterBytes() > 0 && SameNames(old(Now()), Now())
      ensures r.Ok? <==> ClustersFor(data, v.geo.ClusterBytes()) % U32_RANGE <= FreeCount(old(v.vol).fat)
      ensures r.Ok? ==> Filled(old(Now()), Now(), v.geo, data, r.value, ch)
      ensures r.Err? ==> r.error == Io && Exhausted(old(Now()), Now())
    {
      ch := [];
      var cb := v.geo.ClusterBytes();
      ghost var s := Now();
      if data == [] {
        NoClusters(cb);
        FilledNothing(s, v.geo, data);
        return Ok(0), [];
      }
      var count := ClustersFor(data, cb) % U32_RANGE;
      AllocOp(s, v.geo, count);
      r := v.AllocateChain(count);
      if count == 0 {
        ClustersEnough(data, cb);
        FilledNothing(s, v.geo, data);
      } else if r.Ok? {
        ch := FreeList(s.vol.fat)[..count];
        AllocFresh(s, v.geo, count, ch);
        ghost var t := Now();
        RoomFor(data, cb, count);
        StoreData(r.value, data, ch);
        FilledAll(s, t, Now(), v.geo, data, r.value, ch);
      } else {
        FailOp(s, v.geo, count);
      }
    }

    /** `write_chain` on a fresh chain. */
    method StoreData(head: nat, data: seq<byte>, ghost ch: seq<nat>)
      requires Valid() && ch != [] && Fresh(Now(), ch, head, false) && Distinct(ch)
      modifies v
      ensures Valid() && SameNames(old(Now()), Now())
      ensures v.vol == old(v.vol).(data := v.vol.data) && Fresh(Now(), ch, head, false) && Clusters(ch, |v.vol.data|)
      ensures TightBut(old(Now()), ch) ==> TightBut(Now(), ch)
      ensures |data| <= |ch| * v.geo.ClusterBytes() ==> data <= ChainBytes(v.vol.data, ch)
    {
      ghost var s := Now();
      FreshClusters(s, ch, head, false);
      StoreOp(s, v.geo, ch, data);
      v.WriteChain(head, data, ch);
    }

    // ---- The write surface ----

    /** `write_file`. */
    method WriteFile(abs: Str, data: seq<byte>) returns (r: Result<()>)
      requires Valid() && (SplitParent(abs).Ok? ==> ValidName(SplitParent(abs).value.1))
      modifies this, v
      ensures Valid() && v.vol.frozen == old(v.vol).frozen && v.geo.ClusterBytes() > 0
      ensures WroteAt(old(Now()), Now(), v.geo, abs, data, r)
      ensures r.Ok? ==> Stamped(Now(), v.geo, Segments(abs), 0x20)
    {
      var split := SplitParent(abs);
      if split.Err? {
        return Err(split.error);
      }
      var (parent, name) := split.value;
      SplitParentSegments(abs);
      var isDir := IsDir(parent);
      if !isDir {
        return Err(NotADir);
      }
      var pc := ClusterFor(parent);
      r := WriteIn(pc.value, name, data, Segments(parent));
    }

    /** `write_file` inside the directory `P`. */
    method WriteIn(P: nat, name: Str, data: seq<byte>, ghost parent: Path) returns (r: Result<()>)
      requires Valid() && P in shape.dirs && Leads(Now(), v.geo, parent, P) && ValidName(name)
      modifies this, v
      ensures Valid() && v.vol.frozen == old(v.vol).frozen && v.geo.ClusterBytes() > 0
      ensures var s, p := old(Now()), parent + [name];
              if Seen(s, v.geo, p).Dir? then r == Err(IsADir) && Now() == s
              else Written(s, Now(), v.geo, p, data, r)
      ensures r.Ok? ==> Stamped(Now(), v.geo, parent + [name], 0x20)
    {
      ghost var s := Now();
      r := ClearName(P, name, parent);
      if r.Ok? {
        r := PlaceFile(P, name, data, parent, s);
      }
    }

    /** Store the data and hang it up, where `ClearName` left no entry of that name. */
    method PlaceFile(P: nat, name: Str, data: seq<byte>, ghost parent: Path, ghost s: Snap) returns (r: Result<()>)
      requires Valid() && P in shape.dirs && Leads(Now(), v.geo, parent, P) && ValidName(name)
      requires Find(Dirs(Now())[P], name) < 0 && Dropped(s, Now(), v.geo, parent + [name])
      modifies this, v
      ensures Valid() && v.vol.frozen == old(v.vol).frozen && v.geo.ClusterBytes() > 0
      ensures Written(s, Now(), v.geo, parent + [name], data, r)
      ensures r.Ok? ==> Stamped(Now(), v.geo, parent + [name], 0x20)
    {
      ghost var s1 := Now();
      var head, ch := FillChain(data);
      ghost var s2 := Now();
      if head.Err? {
        WriteFailed(s, s1, s2, v.geo, parent + [name], data);
        return Err(head.error);
      }
      HomeIs(s1, v.geo, parent, name, P);
      SameDir(s1, s2, v.geo, parent, P, name);
      r := HangUp(P, name, data, head.value, ch, parent, s, s1);
    }

    /** The last part of `write_file`: the entry for the stored data. */
    method HangUp(P: nat, name: Str, data: seq<byte>, head: nat, ghost ch: seq<nat>, ghost parent: Path, ghost s: Snap,
                  ghost s1: Snap)
      returns (r: Result<()>)
      requires Valid() && P in shape.dirs && Leads(Now(), v.geo, parent, P) && ValidName(name)
               && v.geo.ClusterBytes() > 0
      requires Find(Dirs(Now())[P], name) < 0 && Filled(s1, Now(), v.geo, data, head, ch) && SameNames(s1, Now())
      requires Dropped(s, s1, v.geo, parent + [name])
               && (Crowded(s1, v.geo, parent + [name]) <==> NoneDead(Dirs(Now())[P]))
      requires head < U32_RANGE && Fresh(Now(), ch, head, false)
      modifies this, v
      ensures Valid() && v.vol.frozen == old(v.vol).frozen
      ensures Written(s, Now(), v.geo, parent + [name], data, r)
      ensures r.Ok? ==> Stamped(Now(), v.geo, parent + [name], 0x20)
    {
      ghost var s2 := Now();
      var size := |data| % U32_RANGE;
      EntryKinds();
      r := AddEntry(P, name, ATTR_ARCHIVE, head, size, parent, ch, false);
      WriteEnded(s, s1, s2, Now(), v.geo, parent + [name], data, DirEntry(Lower(name), false, head, size), ch, r);
    }

    /** `create_file`: an empty file, or an existing one truncated. */
    method CreateFile(abs: Str) returns (r: Result<()>)
      requires Valid() && (SplitParent(abs).Ok? ==> ValidName(SplitParent(abs).value.1))
      modifies this, v
      ensures Valid() && v.vol.frozen == old(v.vol).frozen
      ensures CreatedAt(old(Now()), Now(), v.geo, abs, r)
      ensures r.Ok? ==>
                Stamped(Now(), v.geo, Segments(abs), if old(Seen(Now(), v.geo, Segments(abs))).File? then 0x20 else 0)
    {
      var split := SplitParent(abs);
      if split.Err? {
        return Err(split.error);
      }
      var (parent, name) := split.value;
      SplitParentSegments(abs);
      var isDir := IsDir(parent);
      if !isDir {
        return Err(NotADir);
      }
      var pc := ClusterFor(parent);
      r := CreateIn(pc.value, name, Segments(parent));
    }

    /** `create_file` inside the directory `P`. */
    method CreateIn(P: nat, name: Str, ghost parent: Path) returns (r: Result<()>)
      requires Valid() && P in shape.dirs && Leads(Now(), v.geo, parent, P) && ValidName(name)
      modifies this, v
      ensures Valid() && v.vol.frozen == old(v.vol).frozen
      ensures var s, p := old(Now()), parent + [name];
              if Seen(s, v.geo, p).Dir? then r == Err(IsADir) && Now() == s
              else Created(s, Now(), v.geo, p, r)
      ensures r.Ok? ==>
                Stamped(Now(), v.geo, parent + [name], if old(Seen(Now(), v.geo, parent + [name])).File? then 0x20
                                                       else 0)
    {
      OpenDir(Now(), v.geo, P);
      EntrySeen(Now(), v.geo, parent, P, name);
      var found := v.FindInDir(P, name, shape.chains[P]);
      if found.Some? {
        r := TruncateFile(P, name, parent);
      } else {
        r := AddEmpty(P, name, parent);
      }
    }

    /** `truncate_file`: drop the entry and write an empty one in its place. */
    method TruncateFile(P: nat, name: Str, ghost parent: Path) returns (r: Result<()>)
      requires Valid() && P in shape.dirs && Leads(Now(), v.geo, parent, P) && ValidName(name)
      modifies this, v
      ensures Valid() && v.vol.frozen == old(v.vol).frozen
      ensures var s, p := old(Now()), parent + [name];
              match Seen(s, v.geo, p)
              case Absent(_) => r == Err(NotFound) && Now() == s
              case Dir => r == Err(IsADir) && Now() == s
              case File(_) => r.Ok? && Created(s, Now(), v.geo, p, r)
      ensures r.Ok? ==> Stamped(Now(), v.geo, parent + [name], 0x20)
    {
      ghost var s := Now();
      OpenDir(s, v.geo, P);
      SearchFacts(s, v.geo, P, name);
      EntrySeen(s, v.geo, parent, P, name);
      var found := v.FindInDir(P, name, shape.chains[P]);
      if found == None {
        return Err(NotFound);
      }
      var e := found.value;
      if e.isDir {
        return Err(IsADir);
      }
      DropEntry(P, name, e, Find(Dirs(s)[P], name), parent);
      r := AddBack(P, name, parent, s);
    }

    /** The empty entry of a truncated file; the slot just freed has room for it. */
    method AddBack(P: nat, name: Str, ghost parent: Path, ghost s: Snap) returns (r: Result<()>)
      requires Valid() && P in shape.dirs && Leads(Now(), v.geo, parent, P) && ValidName(name)
      requires Find(Dirs(Now())[P], name) < 0 && !NoneDead(Dirs(Now())[P]) && Kept(s, Now())
               && CreateRoom(s, v.geo, parent + [name])
      requires Changed(s, Now(), v.geo, parent + [name], Absent(NotFound))
      modifies this, v
      ensures Valid() && v.vol.frozen == old(v.vol).frozen
      ensures r.Ok? && Created(s, Now(), v.geo, parent + [name], r)
      ensures Stamped(Now(), v.geo, parent + [name], 0x20)
    {
      ghost var s1 := Now();
      EntryKinds();
      r := AddEntry(P, name, ATTR_ARCHIVE, 0, 0, parent, [], false);
      CreateDone(s, s1, Now(), v.geo, parent + [name], DirEntry(Lower(name), false, 0, 0));
    }

    /** The entry of a new empty file. */
    method AddEmpty(P: nat, name: Str, ghost parent: Path) returns (r: Result<()>)
      requires Valid() && P in shape.dirs && Leads(Now(), v.geo, parent, P) && ValidName(name)
      requires Find(Dirs(Now())[P], name) < 0 && Seen(Now(), v.geo, parent + [name]).Absent?
      modifies this, v
      ensures Valid() && v.vol.frozen == old(v.vol).frozen
      ensures Created(old(Now()), Now(), v.geo, parent + [name], r)
      ensures r.Ok? ==> Stamped(Now(), v.geo, parent + [name], 0)
    {
      ghost var s := Now();
      EntryKinds();
      r := AddEntry(P, name, 0, 0, 0, parent, [], false);
      EmptyAdded(s, Now(), v.geo, parent, name, P, DirEntry(Lower(name), false, 0, 0), r);
    }

    /** `append_file`: read what is there, extend it, write it back. */
    method AppendFile(abs: Str, data: seq<byte>) returns (r: Result<()>)
      requires Valid() && (SplitParent(abs).Ok? ==> ValidName(SplitParent(abs).value.1))
      modifies this, v
      ensures Valid() && v.vol.frozen == old(v.vol).frozen && v.geo.ClusterBytes() > 0
      ensures AppendedAt(old(Now()), Now(), v.geo, abs, data, r)
      ensures r.Ok? ==> Stamped(Now(), v.geo, Segments(abs), 0x20)
    {
      RootIsDir(Now(), v.geo);
      assert v.geo.ClusterBytes() > 0 by { CbPositive(Now(), v.geo); }
      var existing := ReadFile(abs);
      var combined: seq<byte> := [];
      if existing.Ok? {
        combined := existing.value;
      } else if existing.error != NotFound {
        return Err(existing.error);
      }
      assert existing.Err? ==> combined + data == data;
      combined := combined + data;
      r := WriteFile(abs, combined);
    }

    /** `create_dir`. */
    method CreateDir(abs: Str) returns (r: Result<()>)
      requires Valid() && (SplitParent(abs).Ok? ==> ValidName(SplitParent(abs).value.1))
      modifies this, v
      ensures Valid() && v.vol.frozen == old(v.vol).frozen
      ensures MadeAt(old(Now()), Now(), v.geo, abs, r)
      ensures r.Ok? ==> var parent := SplitParent(abs).value.0;
                        var P := HeadAt(Names(old(Now())), v.geo.rootCluster, Segments(parent));
                        P.Some? && Dotted(Now(), v.geo, Segments(abs), if parent == [SLASH] then 0 else P.value)
      ensures r.Ok? ==> Stamped(Now(), v.geo, Segments(abs), 0x10)
    {
      var split := SplitParent(abs);
      if split.Err? {
        return Err(split.error);
      }
      var (parent, name) := split.value;
      SplitParentSegments(abs);
      var isDir := IsDir(parent);
      if !isDir {
        return Err(NotADir);
      }
      var pc := ClusterFor(parent);
      r := MakeIn(pc.value, name, parent == [SLASH], Segments(parent));
    }

    /** `create_dir` inside the directory `P`. */
    method MakeIn(P: nat, name: Str, inRoot: bool, ghost parent: Path) returns (r: Result<()>)
      requires Valid() && P in shape.dirs && Leads(Now(), v.geo, parent, P) && ValidName(name)
      modifies this, v
      ensures Valid() && v.vol.frozen == old(v.vol).frozen
      ensures var s, p := old(Now()), parent + [name];
              if !Seen(s, v.geo, p).Absent? then r == Err(Io) && Now() == s
              else MadeDir(s, Now(), v.geo, p, r)
      ensures r.Ok? ==> Dotted(Now(), v.geo, parent + [name], if inRoot then 0 else P)
      ensures r.Ok? ==> Stamped(Now(), v.geo, parent + [name], 0x10)
    {
      ghost var s := Now();
      OpenDir(s, v.geo, P);
      EntrySeen(s, v.geo, parent, P, name);
      var found := v.FindInDir(P, name, shape.chains[P]);
      if found.Some? {
        return Err(Io);
      }
      HomeIs(s, v.geo, parent, name, P);
      var cluster := NewDirCluster(P, inRoot);
      if cluster.Err? {
        return Err(cluster.error);
      }
      SameDir(s, Now(), v.geo, parent, P, name);
      r := HangDir(P, name, cluster.value, parent, s, if inRoot then 0 else P);
    }

    /** A fresh cluster holding `.` and `..`. */
    method NewDirCluster(P: nat, inRoot: bool) returns (r: Result<nat>)
      requires Valid() && P in shape.dirs
      modifies v
      ensures Valid() && SameNames(old(Now()), Now())
      ensures r.Ok? <==> FreeCount(old(v.vol).fat) >= 1
      ensures r.Ok? ==> DirReady(old(Now()), Now(), r.value, if inRoot then 0 else P)
      ensures r.Err? ==> r.error == Io && FailedMake(old(Now()), Now())
    {
      ghost var s := Now();
      AllocOp(s, v.geo, 1);
      r := v.AllocateChain(1);
      if r.Ok? {
        var cluster := r.value;
        assert FreeList(s.vol.fat)[..1] == [cluster];
        AllocFresh(s, v.geo, 1, [cluster]);
        OpenDir(s, v.geo, P);
        WriteDots(cluster, if inRoot then 0 else P);
      } else {
        FailOp(s, v.geo, 1);
      }
    }

    /** Write `.` and `..` into a fresh cluster. */
    method WriteDots(cluster: u32, up: u32)
      requires Valid() && Fresh(Now(), [cluster], cluster, false)
      modifies v
      ensures Valid() && Fresh(Now(), [cluster], cluster, true) && SameNames(old(Now()), Now())
      ensures TightBut(old(Now()), [cluster]) ==> TightBut(Now(), [cluster])
      ensures v.vol.info == old(v.vol).info && v.vol.fat == old(v.vol).fat
      ensures cluster < |v.vol.data| && Dots(v.vol.data[cluster], cluster, up)
    {
      CbPositive(Now(), v.geo);
      var buf := DotBytes(cluster, up);
      MakeDirOp(Now(), v.geo, cluster, buf);
      v.WriteCluster(cluster, buf);
    }

    /** The contents of a new directory's cluster. */
    method DotBytes(cluster: u32, up: u32) returns (buf: seq<byte>)
      requires v.geo.ClusterBytes() >= 64
      ensures DotCluster(buf) && Dots(buf, cluster, up) && |buf| == v.geo.ClusterBytes()
    {
      buf := Zeros(v.geo.ClusterBytes());
      var dot := WriteShortEntry(DOT_NAME, ATTR_DIRECTORY, cluster, 0);
      var dotDot := WriteShortEntry(DOT_DOT_NAME, ATTR_DIRECTORY, up, 0);
      DotHidden(DOT_NAME, cluster);
      DotHidden(DOT_DOT_NAME, up);
      buf := Splice(buf, 0, dot);
      buf := Splice(buf, 32, dotDot);
      assert buf[0..32] == dot && buf[32..64] == dotDot;
      DotsOf(buf, cluster, up);
    }

    /** Link the new directory in its parent. */
    method HangDir(P: nat, name: Str, cluster: nat, ghost parent: Path, ghost s: Snap, ghost up: nat)
      returns (r: Result<()>)
      requires Valid() && P in shape.dirs && Leads(Now(), v.geo, parent, P) && ValidName(name)
      requires Find(Dirs(Now())[P], name) < 0 && DirReady(s, Now(), cluster, up)
      requires Crowded(s, v.geo, parent + [name]) <==> NoneDead(Dirs(Now())[P])
      modifies this, v
      ensures Valid() && v.vol.frozen == old(v.vol).frozen
      ensures MadeDir(s, Now(), v.geo, parent + [name], r) && (r.Ok? ==> Dotted(Now(), v.geo, parent + [name], up))
      ensures r.Ok? ==> Stamped(Now(), v.geo, parent + [name], 0x10)
    {
      ghost var t := Now();
      EntryKinds();
      r := AddEntry(P, name, ATTR_DIRECTORY, cluster, 0, parent, [cluster], true);
      if r.Ok? {
        MakeDone(s, t, Now(), v.geo, parent + [name], DirEntry(Lower(name), true, cluster, 0), cluster, up);
      } else {
        MakeFull(s, t, v.geo, parent + [name], cluster, up);
      }
    }

    /** `remove`: a file or an empty directory. */
    method Remove(abs: Str) returns (r: Result<()>)
      requires Valid()
      modifies this, v
      ensures Valid() && v.vol.frozen == old(v.vol).frozen
      ensures RemovedAt(old(Now()), Now(), v.geo, abs, r)
    {
      var split := SplitParent(abs);
      if split.Err? {
        return Err(split.error);
      }
      var (parent, name) := split.value;
      SplitParentSegments(abs);
      var pc := ClusterFor(parent);
      if pc.Err? {
        return Err(pc.error);
      }
      r := RemoveIn(pc.value, name, Segments(parent));
    }

    /** `remove` inside the directory `P`. */
    method RemoveIn(P: nat, name: Str, ghost parent: Path) returns (r: Result<()>)
      requires Valid() && P in shape.dirs && Leads(Now(), v.geo, parent, P)
      modifies this, v
      ensures Valid() && v.vol.frozen == old(v.vol).frozen
      ensures var s, p := old(Now()), parent + [name];
              match Seen(s, v.geo, p)
              case Absent(_) => r == Err(NotFound) && Now() == s
              case Dir =>
                if NoChildren(s, v.geo, p)
                then r.Ok? && Kept(s, Now()) && Changed(s, Now(), v.geo, p, Absent(NotFound))
                else r == Err(Io) && Now() == s
              case File(_) => r.Ok? && Kept(s, Now()) && Changed(s, Now(), v.geo, p, Absent(NotFound))
    {
      ghost var s := Now();
      OpenDir(s, v.geo, P);
      SearchFacts(s, v.geo, P, name);
      EntrySeen(s, v.geo, parent, P, name);
      var found := v.FindInDir(P, name, shape.chains[P]);
      if found == None {
        return Err(NotFound);
      }
      var e := found.value;
      if e.isDir {
        var empty := IsEmptyDir(P, name, e, Find(Dirs(s)[P], name), parent);
        if !empty {
          return Err(Io);
        }
      }
      DropEntry(P, name, e, Find(Dirs(s)[P], name), parent);
      r := Ok(());
    }

    /** Whether a directory has no entry but `.` and `..`. */
    method IsEmptyDir(P: nat, name: Str, e: DirEntry, ghost k: nat, ghost parent: Path) returns (empty: bool)
      requires Valid() && EntryAt(Now(), P, k, e) && k == Find(Dirs(Now())[P], name) && e.isDir
               && Leads(Now(), v.geo, parent, P)
      ensures empty <==> NoChildren(Now(), v.geo, parent + [name])
      ensures empty ==> EmptyIfDir(Now(), e)
    {
      EntryFacts(Now(), v.geo, P, k, e);
      OpenDir(Now(), v.geo, e.cluster);
      ChildLeads(Now(), v.geo, parent, P, name);
      EmptySeen(Now(), v.geo, parent + [name], e.cluster);
      var kids := v.ReadDir(e.cluster, shape.chains[e.cluster]);
      empty := kids == [];
    }
  }

  lemma SameDir(s: Snap, t: Snap, g: Geometry, parent: Path, P: nat, name: Str)
    requires SameNames(s, t) && P in s.shape.dirs
    ensures P in t.shape.dirs && (Leads(s, g, parent, P) ==> Leads(t, g, parent, P))
    ensures Find(Dirs(t)[P], name) == Find(Dirs(s)[P], name)
    ensures NoneDead(Dirs(t)[P]) <==> NoneDead(Dirs(s)[P])
  {
  }

  lemma NoClusters(cb: nat)
    requires cb > 0
    ensures ClustersFor([], cb) == 0
  {
    CeilDiv(0, cb);
  }

  /** The new entry shows what was stored, cut to what its size field can say. */
  lemma StoredObs(s: Snap, e: DirEntry, ch: seq<nat>, data: seq<byte>)
    requires Clusters(ch, |s.vol.data|) && data <= ChainBytes(s.vol.data, ch) && !e.isDir
             && e.size == |data| % U32_RANGE
    ensures NewObs(s, e, ch) == File(Stored32(data))
  {
  }

  lemma FreshClusters(s: Snap, ch: seq<nat>, cluster: nat, isDir: bool)
    requires Fresh(s, ch, cluster, isDir)
    ensures Clusters(ch, |s.vol.data|)
  {
  }

  lemma EncodedMark(slot: Slot, name: Str, attrs: byte, cluster: u32, size: u32, isDir: bool)
    requires ValidName(name) && EntryAttrs(attrs, isDir) && Encodes(slot, name, attrs, cluster, size)
    ensures Classify(slot) == Live(DirEntry(Lower(name), isDir, cluster, size))
  {
    EntryRoundTrip(name, attrs, cluster, size);
  }

  /** `add_dir_entry` put `slot` into directory `P`; folded like `Stands`. */
  ghost predicate SlotPlaced(s: Snap, now: Vol, g: Geometry, P: nat, slot: Slot, k: nat) {
    && P in s.shape.chains && IsChain(s.vol.fat, s.shape.chains[P]) && Clusters(s.shape.chains[P], |s.vol.data|)
    && forall cb: nat {:trigger EntryPlaced(s.vol, now, s.shape.chains[P], slot, k, cb)} :: cb == g.ClusterBytes() ==>
         EntryPlaced(s.vol, now, s.shape.chains[P], slot, k, cb)
  }

  /** The shape after `add_dir_entry` succeeded. */
  ghost function PlacedShape(s: Snap, g: Geometry, now: Vol, parent: Path, name: Str, attrs: byte, cluster: u32,
                             size: u32, P: nat, slot: Slot, k: nat, ch: seq<nat>, isDir: bool): (S: Shape)
    requires Sound(s, g) && P in s.shape.dirs && Leads(s, g, parent, P) && Find(Dirs(s)[P], name) < 0
    requires ValidName(name) && EntryAttrs(attrs, isDir) && Fresh(s, ch, cluster, isDir)
    requires SlotPlaced(s, now, g, P, slot, k) && Encodes(slot, name, attrs, cluster, size)
    ensures Sound(Snap(now, S), g) && Clusters(ch, |s.vol.data|) && now.frozen == s.vol.frozen
    ensures Hung(s, Snap(now, S), g, parent + [name], DirEntry(Lower(name), isDir, cluster, size), ch)
    ensures Stamped(Snap(now, S), g, parent + [name], attrs)
  {
    Unfold(s, g);
    var e := DirEntry(Lower(name), isDir, cluster, size);
    EncodedMark(slot, name, attrs, cluster, size, isDir);
    RoomDepth(s, g, P);
    assert EntryPlaced(s.vol, now, s.shape.chains[P], slot, k, g.ClusterBytes());
    var S := With(Room(s, g, P).shape, ch, e.isDir, P, k);
    LowerTwice(name);
    FindLower(Dirs(s)[P], name, 0);
    PlaceOp(s, Snap(now, S), g, parent, name, P, k, slot, e, ch);
    assert StampIs(slot, name, attrs);
    S
  }

  lemma RoomDepth(s: Snap, g: Geometry, P: nat)
    requires Good(s, g) && P in s.shape.dirs
    ensures P in Room(s, g, P).shape.depth
  {
  }

  lemma ReadIsContent(data: seq<seq<byte>>, S: Shape, e: DirEntry, out: seq<byte>)
    requires e.size > 0 && e.cluster >= 2 && e.cluster in S.chains && Clusters(S.chains[e.cluster], |data|)
    requires out <= ChainBytes(data, S.chains[e.cluster])
    requires |out| >= e.size || out == ChainBytes(data, S.chains[e.cluster])
    ensures Content(data, S, e) == if |out| > e.size then out[..e.size] else out
  {
  }

  /** The rest of a walk, once `i` segments led to `e`. */
  ghost predicate WalkOn(L: Listing, h: nat, segs: Path, e: DirEntry, i: nat) {
    && 0 < i <= |segs|
    && Walk(L, h, segs) == if i == |segs| then Ok(e)
                           else if !e.isDir then Err(NotADir)
                           else Walk(L, e.cluster, segs[i..])
  }

  lemma LookupSeen(s: Snap, g: Geometry, abs: Str) returns (P: nat, k: nat)
    requires Sound(s, g) && Whole(g, s.vol)
    ensures match LookupSpec(s, g, abs)
            case Err(x) => SeenAt(s, g, abs) == Absent(x)
            case Ok(e) =>
              && SeenAt(s, g, abs) == (if e.isDir then Dir else File(Content(s.vol.data, s.shape, e)))
              && (!e.isDir ==> EntryAt(s, P, k, e))
  {
    RootSegments();
    P, k := 0, 0;
    if Segments(abs) != [] {
      P, k := LookSeen(s, g, Segments(abs));
    }
  }

  lemma LookupHead(s: Snap, g: Geometry, abs: Str)
    requires Sound(s, g) && Whole(g, s.vol)
    ensures var r := LookupSpec(s, g, abs);
            r.Ok? && r.value.isDir ==> r.value.cluster in s.shape.dirs && Leads(s, g, Segments(abs), r.value.cluster)
    ensures abs == [SLASH] ==> LookupSpec(s, g, abs).Ok? && LookupSpec(s, g, abs).value.cluster == g.rootCluster
  {
    RootSegments();
    RootIsDir(s, g);
    if Segments(abs) != [] {
      var P, k := LookSeen(s, g, Segments(abs));
      var r := LookupSpec(s, g, abs);
      if r.Ok? {
        EntryFacts(s, g, P, k, r.value);
      }
    }
  }

  method CollectNames(entries: seq<DirEntry>) returns (names: seq<Str>)
    ensures names == EntryNames(entries)
  {
    names := [];
    for i := 0 to |entries|
      invariant |names| == i && forall j :: 0 <= j < i ==> names[j] == entries[j].name
    {
      names := names + [entries[i].name];
    }
  }
}
