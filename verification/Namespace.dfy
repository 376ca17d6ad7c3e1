/** The name space of a file system, seen through paths.

    A `Graph` gives every directory (identified by a number) its entries. `ObsAt` is what a caller can
    see of a path. The theorem `EditObserved` says what replacing one entry of one directory does to
    every path at once. */
module Namespace {
  import opened Bytes
  import opened Results

  /** A path, as its list of segments. */
  type Path = seq<Str>

  datatype Ent = FileEnt(bytes: seq<byte>) | DirEnt(head: nat)

  type Graph = map<nat, map<Str, Ent>>

  /** What a path shows: nothing (and why), a file with its bytes, or a directory. */
  datatype Obs = Absent(why: FsError) | File(bytes: seq<byte>) | Dir

  ghost function Child(G: Graph, h: nat, name: Str): Option<Ent> {
    if h in G && Lower(name) in G[h] then Some(G[h][Lower(name)]) else None
  }

  /** The directory a path leads to. */
  ghost function HeadAt(G: Graph, h: nat, p: Path): Option<nat>
    decreases |p|
  {
    if p == [] then Some(h)
    else match Child(G, h, p[0])
      case Some(DirEnt(x)) => HeadAt(G, x, p[1..])
      case _ => None
  }

  ghost function ObsAt(G: Graph, h: nat, p: Path): Obs
    decreases |p|
  {
    if p == [] then Dir
    else match Child(G, h, p[0])
      case None => Absent(NotFound)
      case Some(FileEnt(b)) => if |p| == 1 then File(b) else Absent(NotADir)
      case Some(DirEnt(x)) => ObsAt(G, x, p[1..])
  }

  /** Why a path shows nothing: a step below a file is refused as not a directory, and a name that a directory does
      not have is not found, with everything below it. */
  lemma {:induction false} AbsentMeans(G: Graph, h: nat, p: Path, name: Str, rest: Path)
    ensures ObsAt(G, h, p).File? ==> ObsAt(G, h, p + [name]) == Absent(NotADir)
    ensures ObsAt(G, h, p).Dir? && ObsAt(G, h, p + [name]).Absent? ==>
              ObsAt(G, h, p + [name] + rest) == Absent(NotFound)
    ensures ObsAt(G, h, p).Absent? ==> ObsAt(G, h, p + [name]) == ObsAt(G, h, p)
    decreases |p|
  {
    if p == [] {
      assert p + [name] == [name] && [name][1..] == [];
      assert p + [name] + rest == [name] + rest && ([name] + rest)[1..] == rest;
      match Child(G, h, name) {
        case Some(DirEnt(x)) => assert ObsAt(G, h, [name]) == ObsAt(G, x, []);
        case _ =>
      }
    } else {
      assert (p + [name])[1..] == p[1..] + [name];
      assert (p + [name] + rest)[1..] == p[1..] + [name] + rest;
      assert (p + [name])[0] == p[0] && (p + [name] + rest)[0] == p[0];
      match Child(G, h, p[0]) {
        case Some(DirEnt(x)) => AbsentMeans(G, x, p[1..], name, rest);
        case _ =>
      }
    }
  }

  ghost function LowerAll(p: Path): (r: Path)
    ensures |r| == |p| && forall i :: 0 <= i < |p| ==> r[i] == Lower(p[i])
  {
    seq(|p|, i requires 0 <= i < |p| => Lower(p[i]))
  }

  /** Every directory but the root hangs in exactly one place. */
  ghost predicate GraphOk(G: Graph, root: nat) {
    && root in G
    && (forall d, n :: d in G && n in G[d] && G[d][n].DirEnt? ==> G[d][n].head in G && G[d][n].head != root)
    && (forall d, n, d', n' :: d in G && n in G[d] && d' in G && n' in G[d'] ==>
          G[d][n].DirEnt? && G[d'][n'] == G[d][n] ==>
                                 d' == d && n' == n)
  }

  // ---- Paths and directories ----

  lemma {:induction false} HeadConcat(G: Graph, h: nat, a: Path, b: Path)
    ensures HeadAt(G, h, a + b) == match HeadAt(G, h, a) case None => None case Some(x) => HeadAt(G, x, b)
    decreases |a|
  {
    if a == [] {
      assert a + b == b;
    } else {
      assert (a + b)[1..] == a[1..] + b;
      match Child(G, h, a[0]) {
        case Some(DirEnt(x)) => HeadConcat(G, x, a[1..], b);
        case _ =>
      }
    }
  }

  /** One step below a directory. */
  lemma HeadChild(G: Graph, root: nat, parent: Path, P: nat, name: Str, c: nat)
    requires HeadAt(G, root, parent) == Some(P) && Child(G, P, name) == Some(DirEnt(c))
    ensures HeadAt(G, root, parent + [name]) == Some(c)
  {
    HeadConcat(G, root, parent, [name]);
    assert [name][1..] == [];
  }

  lemma {:induction false} ObsConcat(G: Graph, h: nat, a: Path, b: Path)
    requires HeadAt(G, h, a).Some?
    ensures ObsAt(G, h, a + b) == ObsAt(G, HeadAt(G, h, a).value, b)
    decreases |a|
  {
    if a == [] {
      assert a + b == b;
    } else {
      assert (a + b)[1..] == a[1..] + b;
      ObsConcat(G, Child(G, h, a[0]).value.head, a[1..], b);
    }
  }

  lemma {:induction false} ObsIgnoresCase(G: Graph, h: nat, p: Path, q: Path)
    requires LowerAll(p) == LowerAll(q)
    ensures ObsAt(G, h, p) == ObsAt(G, h, q) && HeadAt(G, h, p) == HeadAt(G, h, q)
    decreases |p|
  {
    assert |LowerAll(p)| == |LowerAll(q)|;
    if p != [] {
      assert LowerAll(p)[0] == LowerAll(q)[0];
      assert LowerAll(p[1..]) == LowerAll(p)[1..] && LowerAll(q[1..]) == LowerAll(q)[1..];
      match Child(G, h, p[0]) {
        case Some(DirEnt(x)) => ObsIgnoresCase(G, x, p[1..], q[1..]);
        case _ =>
      }
    }
  }

  lemma {:induction false} HeadInGraph(G: Graph, root: nat, h: nat, p: Path)
    requires GraphOk(G, root) && h in G && HeadAt(G, h, p).Some?
    ensures HeadAt(G, h, p).value in G
    decreases |p|
  {
    if p != [] {
      HeadInGraph(G, root, Child(G, h, p[0]).value.head, p[1..]);
    }
  }

  /** The last step to a directory. */
  lemma HeadLast(G: Graph, root: nat, p: Path) returns (d: nat)
    requires GraphOk(G, root) && p != [] && HeadAt(G, root, p).Some?
    ensures HeadAt(G, root, p[..|p| - 1]) == Some(d)
    ensures d in G && Lower(p[|p| - 1]) in G[d] && G[d][Lower(p[|p| - 1])] == DirEnt(HeadAt(G, root, p).value)
    ensures HeadAt(G, root, p).value != root
  {
    var n := |p| - 1;
    assert p == p[..n] + [p[n]];
    HeadConcat(G, root, p[..n], [p[n]]);
    d := HeadAt(G, root, p[..n]).value;
    HeadInGraph(G, root, root, p[..n]);
  }

  /** A directory has one path, up to case. */
  lemma {:induction false} HeadUnique(G: Graph, root: nat, p: Path, q: Path)
    requires GraphOk(G, root) && HeadAt(G, root, p).Some? && HeadAt(G, root, q) == HeadAt(G, root, p)
    ensures LowerAll(p) == LowerAll(q)
    decreases |p|
  {
    if p != [] || q != [] {
      if p != [] {
        var d := HeadLast(G, root, p);
      }
      if q != [] {
        var e := HeadLast(G, root, q);
      }
      assert p != [] && q != [];
      var d := HeadLast(G, root, p);
      var e := HeadLast(G, root, q);
      HeadUnique(G, root, p[..|p| - 1], q[..|q| - 1]);
      assert p == p[..|p| - 1] + [p[|p| - 1]] && q == q[..|q| - 1] + [q[|q| - 1]];
      LowerSnoc(p[..|p| - 1], p[|p| - 1]);
      LowerSnoc(q[..|q| - 1], q[|q| - 1]);
    }
  }

  lemma LowerSnoc(p: Path, s: Str)
    ensures LowerAll(p + [s]) == LowerAll(p) + [Lower(s)]
  {
  }

  // ---- Replacing one entry ----

  /** `G'` is `G` except for the entry `name` of directory `P`; directories in `gone` hung there only. */
  ghost predicate Edit(G: Graph, G': Graph, P: nat, name: Str, gone: set<nat>) {
    && P in G && P in G' && P !in gone
    && (forall d :: d in G && d != P && d !in gone ==> d in G' && G'[d] == G[d])
    && (forall n :: n != name ==> (n in G[P] <==> n in G'[P]))
    && (forall n :: n != name && n in G[P] ==> G'[P][n] == G[P][n])
    && (forall d, n :: d in G && n in G[d] && G[d][n].DirEnt? && G[d][n].head in gone ==> d == P && n == name)
  }

  /** The path goes through the entry `name` of directory `P`. */
  ghost predicate Passes(G: Graph, h: nat, p: Path, P: nat, name: Str)
    decreases |p|
  {
    p != [] && ((h == P && Lower(p[0]) == name)
                || match Child(G, h, p[0])
                   case Some(DirEnt(x)) => Passes(G, x, p[1..], P, name)
                   case _ => false)
  }

  /** Paths that avoid the entry see no difference. */
  lemma {:induction false} EditFrame(G: Graph, G': Graph, root: nat, h: nat, p: Path, P: nat, name: Str, gone: set<nat>)
    requires GraphOk(G, root) && Edit(G, G', P, name, gone) && h in G && h !in gone
    requires !Passes(G, h, p, P, name)
    ensures ObsAt(G', h, p) == ObsAt(G, h, p) && HeadAt(G', h, p) == HeadAt(G, h, p)
    decreases |p|
  {
    if p != [] {
      assert Child(G', h, p[0]) == Child(G, h, p[0]);
      match Child(G, h, p[0]) {
        case Some(DirEnt(x)) =>
          assert G[h][Lower(p[0])] == DirEnt(x);
          EditFrame(G, G', root, x, p[1..], P, name, gone);
        case _ =>
      }
    }
  }

  /** A path that goes through an entry reaches its directory first. */
  lemma {:induction false} PassesAt(G: Graph, h: nat, p: Path, P: nat, name: Str) returns (k: nat)
    requires Passes(G, h, p, P, name)
    ensures k < |p| && HeadAt(G, h, p[..k]) == Some(P) && Lower(p[k]) == name
    decreases |p|
  {
    if h == P && Lower(p[0]) == name {
      k := 0;
    } else {
      var x := Child(G, h, p[0]).value.head;
      var j := PassesAt(G, x, p[1..], P, name);
      k := j + 1;
      assert p[..k][1..] == p[1..][..j];
    }
  }

  lemma {:induction false} PassesIf(G: Graph, h: nat, a: Path, b: Path, P: nat, name: Str)
    requires HeadAt(G, h, a) == Some(P) && b != [] && Lower(b[0]) == name
    ensures Passes(G, h, a + b, P, name)
    decreases |a|
  {
    if a == [] {
      assert a + b == b;
    } else {
      assert (a + b)[1..] == a[1..] + b;
      PassesIf(G, Child(G, h, a[0]).value.head, a[1..], b, P, name);
    }
  }

  /** `q` is `p` or lies below it, ignoring case. */
  ghost predicate Under(q: Path, p: Path) {
    |p| <= |q| && LowerAll(q[..|p|]) == LowerAll(p)
  }

  lemma UnderSplit(q: Path, parent: Path, name: Str)
    ensures Under(q, parent + [name])
       <==> |parent| < |q| && LowerAll(q[..|parent|]) == LowerAll(parent) && Lower(q[|parent|]) == Lower(name)
  {
  }

  /** From the root, the paths through an entry are exactly those at or under its path. */
  lemma PassesUnder(G: Graph, root: nat, parent: Path, name: Str, P: nat, q: Path)
    requires GraphOk(G, root) && HeadAt(G, root, parent) == Some(P)
    ensures Passes(G, root, q, P, Lower(name)) <==> Under(q, parent + [name])
  {
    UnderSplit(q, parent, name);
    if Passes(G, root, q, P, Lower(name)) {
      var k := PassesAt(G, root, q, P, Lower(name));
      HeadUnique(G, root, q[..k], parent);
      assert |LowerAll(q[..k])| == |LowerAll(parent)|;
    } else if Under(q, parent + [name]) {
      var n := |parent|;
      ObsIgnoresCase(G, root, q[..n], parent);
      assert q == q[..n] + q[n..];
      PassesIf(G, root, q[..n], q[n..], P, Lower(name));
    }
  }

  /** What a path shows after `p` became `now`: a file or an empty directory there, or nothing. */
  ghost function After(was: Obs, q: Path, p: Path, now: Obs): Obs {
    if !Under(q, p) then was
    else if |q| == |p| then now
    else if now.File? then Absent(NotADir)
    else Absent(NotFound)
  }

  /** The entry that shows as `now`. */
  ghost predicate Shows(G: Graph, P: nat, name: Str, now: Obs) {
    match now
    case Absent(why) => why == NotFound && P in G && Lower(name) !in G[P]
    case File(b) => P in G && Lower(name) in G[P] && G[P][Lower(name)] == FileEnt(b)
    case Dir => P in G && Lower(name) in G[P] && G[P][Lower(name)].DirEnt?
                && G[P][Lower(name)].head in G && G[G[P][Lower(name)].head] == map[]
  }

  lemma ShowsBelow(G: Graph, P: nat, q: Path, now: Obs)
    requires q != [] && Shows(G, P, q[0], now)
    ensures ObsAt(G, P, q) == if |q| == 1 then now else if now.File? then Absent(NotADir) else Absent(NotFound)
  {
  }

  /** The way to the edited directory is not affected. */
  lemma EditKeepsParent(G: Graph, G': Graph, root: nat, parent: Path, name: Str, P: nat, gone: set<nat>)
    requires GraphOk(G, root) && HeadAt(G, root, parent) == Some(P) && root !in gone
    requires Edit(G, G', P, Lower(name), gone)
    ensures HeadAt(G', root, parent) == Some(P)
  {
    PassesUnder(G, root, parent, name, P, parent);
    EditFrame(G, G', root, root, parent, P, Lower(name), gone);
  }

  /** What is seen under a directory's path is what is seen from the directory. */
  lemma ObsThrough(G: Graph, root: nat, parent: Path, P: nat, q: Path)
    requires HeadAt(G, root, parent) == Some(P) && |parent| <= |q| && LowerAll(q[..|parent|]) == LowerAll(parent)
    ensures ObsAt(G, root, q) == ObsAt(G, P, q[|parent|..])
  {
    var n := |parent|;
    ObsIgnoresCase(G, root, q[..n], parent);
    assert q == q[..n] + q[n..];
    ObsConcat(G, root, q[..n], q[n..]);
  }

  lemma EditInside(G: Graph, G': Graph, root: nat, parent: Path, name: Str, P: nat, gone: set<nat>, now: Obs, q: Path)
    requires GraphOk(G, root) && HeadAt(G, root, parent) == Some(P) && root !in gone
    requires Edit(G, G', P, Lower(name), gone) && Shows(G', P, name, now) && Under(q, parent + [name])
    ensures ObsAt(G', root, q) == After(ObsAt(G, root, q), q, parent + [name], now)
  {
    assert HeadAt(G', root, parent) == Some(P) by { EditKeepsParent(G, G', root, parent, name, P, gone); }
    UnderSplit(q, parent, name);
    ObsThrough(G', root, parent, P, q);
    assert ObsAt(G', P, q[|parent|..])
        == (if |q| == |parent| + 1 then now else if now.File? then Absent(NotADir) else Absent(NotFound)) by {
      ShowsBelow(G', P, q[|parent|..], now);
    }
  }

  /** Replacing the entry at `parent/name` changes what is seen exactly there and below. */
  lemma EditObserved(G: Graph, G': Graph, root: nat, parent: Path, name: Str, P: nat, gone: set<nat>, now: Obs, q: Path)
    requires GraphOk(G, root) && HeadAt(G, root, parent) == Some(P) && root !in gone
    requires Edit(G, G', P, Lower(name), gone) && Shows(G', P, name, now)
    ensures ObsAt(G', root, q) == After(ObsAt(G, root, q), q, parent + [name], now)
  {
    if Under(q, parent + [name]) {
      EditInside(G, G', root, parent, name, P, gone, now, q);
    } else {
      PassesUnder(G, root, parent, name, P, q);
      EditFrame(G, G', root, root, q, P, Lower(name), gone);
    }
  }
}
