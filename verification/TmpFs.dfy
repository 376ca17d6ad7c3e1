/** The in-memory file system: a tree of maps, specified by what every path shows. */
module TmpFs {
  import opened Bytes
  import opened Results
  import opened Namespace
  import opened Paths

  datatype Node = FileNode(bytes: seq<byte>) | DirNode(kids: map<Str, Node>)

  /** What a path shows from a node on. Names are compared exactly. */
  ghost function ObsIn(n: Node, p: Path): Obs
    decreases |p|
  {
    match n
    case FileNode(b) => if p == [] then File(b) else Absent(NotADir)
    case DirNode(kids) =>
      if p == [] then Dir
      else if p[0] in kids then ObsIn(kids[p[0]], p[1..])
      else Absent(NotFound)
  }

  /** The node a path leads to. */
  ghost function NodeAt(n: Node, p: Path): Result<Node>
    decreases |p|
  {
    if p == [] then Ok(n)
    else match n
      case FileNode(_) => Err(NotADir)
      case DirNode(kids) => if p[0] in kids then NodeAt(kids[p[0]], p[1..]) else Err(NotFound)
  }

  /** The tree `n` with the node at `p` replaced by `x`. */
  function Plug(n: Node, p: Path, x: Node): Node
    decreases |p|
  {
    if p == [] then x
    else if n.DirNode? && p[0] in n.kids then DirNode(n.kids[p[0] := Plug(n.kids[p[0]], p[1..], x)])
    else n
  }

  /** What a path shows after `p` became `now`: a file, an empty directory, or nothing. */
  ghost function AfterIn(was: Obs, q: Path, p: Path, now: Obs): Obs {
    if !(p <= q) then was
    else if |q| == |p| then now
    else if now.File? then Absent(NotADir)
    else Absent(NotFound)
  }

  /** Between two trees, path `p` became `now` and nothing else changed. */
  ghost predicate Became(n: Node, n': Node, p: Path, now: Obs) {
    forall q :: ObsIn(n', q) == AfterIn(ObsIn(n, q), q, p, now)
  }

  /** The entry `name` of a directory shows as `now`. */
  ghost predicate Holds(kids: map<Str, Node>, name: Str, now: Obs) {
    match now
    case Absent(why) => why == NotFound && name !in kids
    case File(b) => name in kids && kids[name] == FileNode(b)
    case Dir => name in kids && kids[name] == DirNode(map[])
  }

  /** `kids'` is `kids` but for the entry `name`. */
  ghost predicate OneEntry(kids: map<Str, Node>, kids': map<Str, Node>, name: Str) {
    kids' - {name} == kids - {name}
  }

  lemma OneEntryAt(kids: map<Str, Node>, kids': map<Str, Node>, name: Str, m: Str)
    requires OneEntry(kids, kids', name) && m != name
    ensures m in kids <==> m in kids'
    ensures m in kids ==> kids'[m] == kids[m]
  {
    assert m in kids <==> m in kids - {name};
    assert m in kids' <==> m in kids' - {name};
    if m in kids {
      assert (kids - {name})[m] == kids[m] && (kids' - {name})[m] == kids'[m];
    }
  }

  /** What a path that exists is, by its node. */
  lemma {:induction false} NodeShows(n: Node, p: Path)
    ensures ObsIn(n, p) == match NodeAt(n, p)
                           case Err(why) => Absent(why)
                           case Ok(FileNode(b)) => File(b)
                           case Ok(DirNode(_)) => Dir
    decreases |p|
  {
    if p != [] && n.DirNode? && p[0] in n.kids {
      NodeShows(n.kids[p[0]], p[1..]);
    }
  }

  lemma {:induction false} NodeChild(n: Node, p: Path, name: Str)
    requires NodeAt(n, p).Ok? && NodeAt(n, p).value.DirNode?
    ensures var kids := NodeAt(n, p).value.kids;
            NodeAt(n, p + [name]) == if name in kids then Ok(kids[name]) else Err(NotFound)
    decreases |p|
  {
    if p == [] {
      assert p + [name] == [name];
      assert [name][1..] == [];
    } else {
      assert (p + [name])[1..] == p[1..] + [name];
      NodeChild(n.kids[p[0]], p[1..], name);
    }
  }

  lemma {:induction false} ChildEdited(kids: map<Str, Node>, kids': map<Str, Node>, name: Str, now: Obs, q: Path)
    requires OneEntry(kids, kids', name) && Holds(kids', name, now)
    ensures ObsIn(DirNode(kids'), q) == AfterIn(ObsIn(DirNode(kids), q), q, [name], now)
  {
    if q != [] {
      assert [name] <= q <==> q[0] == name;
      if q[0] != name {
        OneEntryAt(kids, kids', name, q[0]);
      } else if |q| == 1 {
        assert q[1..] == [];
      }
    }
  }

  /** Replacing one entry of the directory at `parent` changes what is seen exactly there and below. */
  lemma {:induction false} PlugSeen(n: Node, parent: Path, kids': map<Str, Node>, name: Str, now: Obs, q: Path)
    requires NodeAt(n, parent).Ok? && NodeAt(n, parent).value.DirNode?
    requires OneEntry(NodeAt(n, parent).value.kids, kids', name) && Holds(kids', name, now)
    ensures ObsIn(Plug(n, parent, DirNode(kids')), q) == AfterIn(ObsIn(n, q), q, parent + [name], now)
    decreases |parent|
  {
    if parent == [] {
      assert parent + [name] == [name];
      ChildEdited(n.kids, kids', name, now, q);
    } else {
      var p := parent + [name];
      assert p[1..] == parent[1..] + [name] && p[0] == parent[0];
      if q != [] {
        assert p <= q <==> p[0] == q[0] && p[1..] <= q[1..];
        if q[0] == p[0] {
          PlugSeen(n.kids[p[0]], parent[1..], kids', name, now, q[1..]);
        }
      }
    }
  }

  lemma PlugBecame(n: Node, parent: Path, kids': map<Str, Node>, name: Str, now: Obs)
    requires NodeAt(n, parent).Ok? && NodeAt(n, parent).value.DirNode?
    requires OneEntry(NodeAt(n, parent).value.kids, kids', name) && Holds(kids', name, now)
    ensures Became(n, Plug(n, parent, DirNode(kids')), parent + [name], now)
  {
    forall q
      ensures ObsIn(Plug(n, parent, DirNode(kids')), q) == AfterIn(ObsIn(n, q), q, parent + [name], now)
    {
      PlugSeen(n, parent, kids', name, now, q);
    }
  }

  /** Why a path shows nothing: below a file everything is refused as not a directory, and a name that a directory
      does not have is not found, with everything below it. */
  lemma {:induction false} AbsentMeans(n: Node, p: Path, name: Str, rest: Path)
    ensures ObsIn(n, p).File? ==> ObsIn(n, p + [name]) == Absent(NotADir)
    ensures ObsIn(n, p).Dir? && ObsIn(n, p + [name]).Absent? ==> ObsIn(n, p + [name] + rest) == Absent(NotFound)
    ensures ObsIn(n, p).Absent? ==> ObsIn(n, p + [name]) == ObsIn(n, p)
    decreases |p|
  {
    if p == [] {
      assert p + [name] == [name] && [name][1..] == [];
      assert p + [name] + rest == [name] + rest && ([name] + rest)[1..] == rest;
      assert n.DirNode? && name in n.kids ==> ObsIn(n, [name]) == ObsIn(n.kids[name], []);
    } else {
      assert (p + [name])[1..] == p[1..] + [name];
      assert (p + [name] + rest)[1..] == p[1..] + [name] + rest;
      assert (p + [name])[0] == p[0] && (p + [name] + rest)[0] == p[0];
      if n.DirNode? && p[0] in n.kids {
        AbsentMeans(n.kids[p[0]], p[1..], name, rest);
      }
    }
  }

  // ---- What the write operations may refuse ----

  /** Why there is no directory to work in, if there is none. */
  ghost function ParentDenied(n: Node, p: Path): Option<FsError> {
    if p == [] then Some(Io)
    else match ObsIn(n, p[..|p| - 1])
      case Absent(why) => Some(why)
      case File(_) => Some(NotADir)
      case Dir => None
  }

  ghost function StoreDenied(n: Node, p: Path): Option<FsError> {
    match ParentDenied(n, p)
    case Some(why) => Some(why)
    case None => if ObsIn(n, p).Dir? then Some(IsADir) else None
  }

  ghost function NewDirDenied(n: Node, p: Path): Option<FsError> {
    match ParentDenied(n, p)
    case Some(why) => Some(why)
    case None => if !ObsIn(n, p).Absent? then Some(Io) else None
  }

  ghost predicate Childless(n: Node, p: Path) {
    forall name :: ObsIn(n, p + [name]).Absent?
  }

  ghost function DropDenied(n: Node, p: Path): Option<FsError> {
    match ParentDenied(n, p)
    case Some(why) => Some(why)
    case None =>
      match ObsIn(n, p)
      case Absent(_) => Some(NotFound)
      case File(_) => None
      case Dir => if Childless(n, p) then None else Some(Io)
  }

  /** Which calls are refused, and how, by what the path and its parent show. */
  lemma RefusalsMean(n: Node, p: Path, name: Str)
    ensures StoreDenied(n, []) == NewDirDenied(n, []) == DropDenied(n, []) == Some(Io)
    ensures var q := p + [name];
            match ObsIn(n, p)
            case Absent(why) => StoreDenied(n, q) == NewDirDenied(n, q) == DropDenied(n, q) == Some(why)
            case File(_) => StoreDenied(n, q) == NewDirDenied(n, q) == DropDenied(n, q) == Some(NotADir)
            case Dir =>
              match ObsIn(n, q)
              case Absent(_) => StoreDenied(n, q) == NewDirDenied(n, q) == None && DropDenied(n, q) == Some(NotFound)
              case File(_) => StoreDenied(n, q) == DropDenied(n, q) == None && NewDirDenied(n, q) == Some(Io)
              case Dir =>
                && StoreDenied(n, q) == Some(IsADir) && NewDirDenied(n, q) == Some(Io)
                && DropDenied(n, q) == if forall x :: ObsIn(n, q + [x]).Absent? then None else Some(Io)
  {
    assert (p + [name])[..|p + [name]| - 1] == p;
  }

  /** The bytes of a file, none if there is no file. */
  ghost function BytesAt(n: Node, p: Path): seq<byte> {
    match ObsIn(n, p)
    case File(b) => b
    case _ => []
  }

  /** The outcome of an operation that either refuses or makes `p` show `now`. */
  ghost predicate Outcome(n: Node, n': Node, p: Path, denied: Option<FsError>, now: Obs, r: Result<()>) {
    match denied
    case Some(why) => r == Err(why) && n' == n
    case None => r == Ok(()) && Became(n, n', p, now)
  }

  lemma ChildlessMap(n: Node, p: Path)
    requires NodeAt(n, p).Ok? && NodeAt(n, p).value.DirNode?
    ensures Childless(n, p) <==> NodeAt(n, p).value.kids == map[]
  {
    var kids := NodeAt(n, p).value.kids;
    forall name
      ensures ObsIn(n, p + [name]).Absent? <==> name !in kids
    {
      NodeChild(n, p, name);
      NodeShows(n, p + [name]);
    }
    if Childless(n, p) {
      assert forall name :: name in kids ==> !ObsIn(n, p + [name]).Absent?;
    }
  }

  lemma LastStep(p: Path)
    requires p != []
    ensures p == p[..|p| - 1] + [p[|p| - 1]]
  {
  }

  // ---- The order of keys ----

  /** Strings are ordered byte by byte. */
  predicate Less(a: Str, b: Str)
    decreases |a|
  {
    b != [] && (a == [] || a[0] < b[0] || (a[0] == b[0] && Less(a[1..], b[1..])))
  }

  /** The order is by the first difference: there the smaller byte, or the end of the string, comes first. */
  lemma {:induction false} LessMeans(a: Str, b: Str)
    ensures Less(a, b) <==> exists k: nat :: Differs(a, b, k)
    decreases |a|
  {
    if b != [] && (a == [] || a[0] < b[0]) {
      assert Differs(a, b, 0);
    } else if b != [] && a[0] == b[0] {
      LessMeans(a[1..], b[1..]);
      if Less(a, b) {
        var k: nat :| Differs(a[1..], b[1..], k);
        assert a[..k + 1] == [a[0]] + a[1..][..k] && b[..k + 1] == [b[0]] + b[1..][..k];
        assert Differs(a, b, k + 1);
      } else if k: nat :| Differs(a, b, k) {
        assert a[1..][..k - 1] == a[..k][1..] && b[1..][..k - 1] == b[..k][1..];
        assert Differs(a[1..], b[1..], k - 1);
      }
    } else {
      forall k: nat
        ensures !Differs(a, b, k)
      {
        if 0 < k <= |a| && k < |b| {
          assert a[..k][0] == a[0] && b[..k][0] == b[0];
        }
      }
    }
  }

  /** `a` and `b` agree before `k`, and there `a` is smaller or ends. */
  ghost predicate Differs(a: Str, b: Str, k: nat) {
    k <= |a| && k < |b| && a[..k] == b[..k] && (k == |a| || a[k] < b[k])
  }

  lemma {:induction false} LessTotal(a: Str, b: Str)
    ensures Less(a, b) || a == b || Less(b, a)
    decreases |a|
  {
    if a != [] && b != [] && a[0] == b[0] {
      LessTotal(a[1..], b[1..]);
      assert a == [a[0]] + a[1..] && b == [b[0]] + b[1..];
    }
  }

  lemma {:induction false} LessTransitive(a: Str, b: Str, c: Str)
    requires Less(a, b) && Less(b, c)
    ensures Less(a, c)
    decreases |a|
  {
    if a != [] && a[0] == b[0] == c[0] {
      LessTransitive(a[1..], b[1..], c[1..]);
    }
  }

  ghost predicate Sorted(s: seq<Str>) {
    forall i, j :: 0 <= i < j < |s| ==> Less(s[i], s[j])
  }

  /** Put a new name in its place. */
  method InsertName(s: seq<Str>, x: Str) returns (r: seq<Str>)
    requires Sorted(s) && x !in s
    ensures Sorted(r) && forall n :: n in r <==> n in s || n == x
  {
    var k := 0;
    while k < |s| && Less(s[k], x)
      invariant k <= |s| && forall i :: 0 <= i < k ==> Less(s[i], x)
    {
      k := k + 1;
    }
    forall j | k <= j < |s|
      ensures Less(x, s[j])
    {
      LessTotal(s[k], x);
      if k < j {
        LessTransitive(x, s[k], s[j]);
      }
    }
    r := s[..k] + [x] + s[k..];
    assert s == s[..k] + s[k..];
  }

  /** The names of a set in order. */
  method SortedNames(names: set<Str>) returns (r: seq<Str>)
    ensures Sorted(r) && forall n :: n in r <==> n in names
  {
    r := [];
    var rest := names;
    while rest != {}
      invariant Sorted(r) && rest <= names && forall n :: n in r <==> n in names && n !in rest
      decreases |rest|
    {
      var x :| x in rest;
      r := InsertName(r, x);
      rest := rest - {x};
    }
  }

  class TmpFs {
    var root: Node

    ghost predicate Valid()
      reads this
    {
      root.DirNode?
    }

    constructor ()
      ensures Valid() && forall p :: ObsIn(root, p) == if p == [] then Dir else Absent(NotFound)
    {
      root := DirNode(map[]);
    }

    /** `walk`: follow the segments from the root. */
    method Walk(segs: Path) returns (r: Result<Node>)
      ensures r == NodeAt(root, segs)
    {
      var cur := root;
      for i := 0 to |segs|
        invariant NodeAt(cur, segs[i..]) == NodeAt(root, segs)
      {
        assert segs[i..][1..] == segs[i + 1..];
        if cur.FileNode? {
          return Err(NotADir);
        }
        if segs[i] !in cur.kids {
          return Err(NotFound);
        }
        cur := cur.kids[segs[i]];
      }
      r := Ok(cur);
    }

    method ReadFile(rel: Str) returns (r: Result<seq<byte>>)
      ensures r == match ObsIn(root, Segments(rel))
                   case File(b) => Ok(b)
                   case Dir => Err(IsADir)
                   case Absent(why) => Err(why)
    {
      NodeShows(root, Segments(rel));
      var n := Walk(Segments(rel));
      r := if n.Err? then Err(n.error) else if n.value.FileNode? then Ok(n.value.bytes) else Err(IsADir);
    }

    /** `list_dir`: every child once, in the order of the map's keys. */
    method ListDir(rel: Str) returns (r: Result<seq<Str>>)
      ensures match ObsIn(root, Segments(rel))
              case File(_) => r == Err(NotADir)
              case Absent(why) => r == Err(why)
              case Dir =>
                && r.Ok? && Sorted(r.value)
                && forall n :: n in r.value <==> !ObsIn(root, Segments(rel) + [n]).Absent?
    {
      ghost var p := Segments(rel);
      NodeShows(root, p);
      var n := Walk(Segments(rel));
      if n.Err? {
        return Err(n.error);
      }
      if n.value.FileNode? {
        return Err(NotADir);
      }
      forall name
        ensures name in n.value.kids <==> !ObsIn(root, p + [name]).Absent?
      {
        NodeChild(root, p, name);
        NodeShows(root, p + [name]);
      }
      var names := SortedNames(n.value.kids.Keys);
      r := Ok(names);
    }

    method IsDir(rel: Str) returns (r: bool)
      ensures r == ObsIn(root, Segments(rel)).Dir?
    {
      NodeShows(root, Segments(rel));
      var n := Walk(Segments(rel));
      r := n.Ok? && n.value.DirNode?;
    }

    /** The entries of the directory a new entry goes into, or why there is none. */
    method OpenParent(segs: Path) returns (r: Result<map<Str, Node>>)
      ensures match ParentDenied(root, segs)
              case Some(why) => r == Err(why)
              case None => r.Ok? && segs != [] && NodeAt(root, segs[..|segs| - 1]) == Ok(DirNode(r.value))
      ensures r.Ok? ==> NodeAt(root, segs) == var name := segs[|segs| - 1];
                                              if name in r.value then Ok(r.value[name]) else Err(NotFound)
    {
      if segs == [] {
        return Err(Io);
      }
      ghost var parent := segs[..|segs| - 1];
      NodeShows(root, parent);
      var n := Walk(segs[..|segs| - 1]);
      if n.Err? {
        return Err(n.error);
      }
      if n.value.FileNode? {
        return Err(NotADir);
      }
      LastStep(segs);
      NodeChild(root, parent, segs[|segs| - 1]);
      r := Ok(n.value.kids);
    }

    /** Write a directory's changed entries back into the tree. */
    method Replace(segs: Path, kids: map<Str, Node>, kids': map<Str, Node>, ghost now: Obs)
      requires Valid() && segs != [] && NodeAt(root, segs[..|segs| - 1]) == Ok(DirNode(kids))
      requires OneEntry(kids, kids', segs[|segs| - 1]) && Holds(kids', segs[|segs| - 1], now)
      modifies this
      ensures Valid() && Became(old(root), root, segs, now)
    {
      LastStep(segs);
      PlugBecame(root, segs[..|segs| - 1], kids', segs[|segs| - 1], now);
      root := Plug(root, segs[..|segs| - 1], DirNode(kids'));
    }

    method CreateFile(rel: Str) returns (r: Result<()>)
      requires Valid()
      modifies this
      ensures Valid()
      ensures var p := Segments(rel); Outcome(old(root), root, p, StoreDenied(old(root), p), File([]), r)
    {
      r := WriteFile(rel, []);
    }

    method WriteFile(rel: Str, data: seq<byte>) returns (r: Result<()>)
      requires Valid()
      modifies this
      ensures Valid()
      ensures var p := Segments(rel); Outcome(old(root), root, p, StoreDenied(old(root), p), File(data), r)
    {
      var segs := Segments(rel);
      NodeShows(root, segs);
      var dir := OpenParent(segs);
      if dir.Err? {
        return Err(dir.error);
      }
      var name := segs[|segs| - 1];
      if name in dir.value && dir.value[name].DirNode? {
        return Err(IsADir);
      }
      Replace(segs, dir.value, dir.value[name := FileNode(data)], File(data));
      r := Ok(());
    }

    method AppendFile(rel: Str, data: seq<byte>) returns (r: Result<()>)
      requires Valid()
      modifies this
      ensures Valid()
      ensures var p := Segments(rel);
              Outcome(old(root), root, p, StoreDenied(old(root), p), File(BytesAt(old(root), p) + data), r)
    {
      var segs := Segments(rel);
      NodeShows(root, segs);
      var dir := OpenParent(segs);
      if dir.Err? {
        return Err(dir.error);
      }
      var name := segs[|segs| - 1];
      if name in dir.value {
        match dir.value[name] {
          case FileNode(b) =>
            Replace(segs, dir.value, dir.value[name := FileNode(b + data)], File(b + data));
          case DirNode(_) =>
            return Err(IsADir);
        }
      } else {
        assert [] + data == data;
        Replace(segs, dir.value, dir.value[name := FileNode(data)], File(data));
      }
      r := Ok(());
    }

    method CreateDir(rel: Str) returns (r: Result<()>)
      requires Valid()
      modifies this
      ensures Valid()
      ensures var p := Segments(rel); Outcome(old(root), root, p, NewDirDenied(old(root), p), Dir, r)
    {
      var segs := Segments(rel);
      NodeShows(root, segs);
      var dir := OpenParent(segs);
      if dir.Err? {
        return Err(dir.error);
      }
      var name := segs[|segs| - 1];
      if name in dir.value {
        return Err(Io);
      }
      Replace(segs, dir.value, dir.value[name := DirNode(map[])], Dir);
      r := Ok(());
    }

    method Remove(rel: Str) returns (r: Result<()>)
      requires Valid()
      modifies this
      ensures Valid()
      ensures var p := Segments(rel); Outcome(old(root), root, p, DropDenied(old(root), p), Absent(NotFound), r)
    {
      var segs := Segments(rel);
      NodeShows(root, segs);
      var dir := OpenParent(segs);
      if dir.Err? {
        return Err(dir.error);
      }
      var name := segs[|segs| - 1];
      if name !in dir.value {
        return Err(NotFound);
      }
      if dir.value[name].DirNode? {
        ChildlessMap(root, segs);
        if dir.value[name].kids != map[] {
          return Err(Io);
        }
      }
      Replace(segs, dir.value, dir.value - {name}, Absent(NotFound));
      r := Ok(());
    }
  }
}
