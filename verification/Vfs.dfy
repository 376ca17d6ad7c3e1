/** The mount table: longest-prefix resolution on `/` boundaries, and listings that show mount points. */
module Vfs {
  import opened Bytes
  import opened Results
  import opened Namespace
  import opened Paths
  import opened Normalize

  const MAX_MOUNTS: nat := 8

  /** What a mounted file system answers for paths relative to its root. */
  datatype Backend = Backend(listDir: Str -> Result<seq<Str>>, isDir: Str -> bool)

  datatype MountPoint = MountPoint(prefix: Str, fs: Backend)

  /** `canonical_prefix`: no trailing slash, and the root is the empty string. */
  function CanonicalPrefix(p: Str): (r: Str)
    ensures r == TrimEnd(p)
  {
    if p == [SLASH] then assert TrimEnd(p) == [] by { assert p[..0] == []; } [] else TrimEnd(p)
  }

  /** A prefix as the table stores it. */
  predicate Stored(p: Str) {
    p == [] || (p[0] == SLASH && p[|p| - 1] != SLASH)
  }

  /** Mount prefix `p` covers the path `abs`. */
  predicate Covers(p: Str, abs: Str) {
    p == [] || abs == p || (|abs| > |p| && p <= abs && abs[|p|] == SLASH)
  }

  /** Mount `i` is the one mount with the longest prefix that covers `abs`. */
  ghost predicate IsBest(ms: seq<MountPoint>, abs: Str, i: nat) {
    && i < |ms| && Covers(ms[i].prefix, abs)
    && forall j :: 0 <= j < |ms| && j != i && Covers(ms[j].prefix, abs) ==> |ms[j].prefix| < |ms[i].prefix|
  }

  /** The path relative to the mount point. */
  function Relative(p: Str, abs: Str): Str
    requires Covers(p, abs)
  {
    if abs == p && p != [] then [SLASH] else abs[|p|..]
  }

  ghost predicate TableOk(ms: seq<MountPoint>) {
    && |ms| <= MAX_MOUNTS
    && (forall i :: 0 <= i < |ms| ==> Stored(ms[i].prefix))
    && (forall i, j :: 0 <= i < j < |ms| ==> ms[i].prefix != ms[j].prefix)
  }

  lemma BestUnique(ms: seq<MountPoint>, abs: Str, i: nat)
    requires IsBest(ms, abs, i)
    ensures forall k: nat :: IsBest(ms, abs, k) ==> k == i
  {
  }

  /** A best mount is best in any order of the table. */
  lemma BestInAnyOrder(ms: seq<MountPoint>, ms': seq<MountPoint>, abs: Str, i: nat, k: nat)
    requires TableOk(ms) && TableOk(ms') && multiset(ms) == multiset(ms') && IsBest(ms, abs, i) && IsBest(ms', abs, k)
    ensures ms[i] == ms'[k]
  {
    assert ms[i] in multiset(ms') && ms'[k] in multiset(ms);
    var j :| 0 <= j < |ms'| && ms'[j] == ms[i];
    var l :| 0 <= l < |ms| && ms[l] == ms'[k];
  }

  /** The relative path starts with a slash and completes the prefix. */
  lemma RelativeCompletes(p: Str, abs: Str)
    requires Covers(p, abs) && Absolute(abs)
    ensures Absolute(Relative(p, abs))
    ensures p + Relative(p, abs) == abs || (abs == p && Relative(p, abs) == [SLASH])
  {
  }

  /** A prefix covers itself and everything that continues it with a slash; the root covers everything. */
  lemma CoversMeans(p: Str, abs: Str)
    ensures Covers(p, abs) <==> p == [] || abs == p || exists rel :: Absolute(rel) && abs == p + rel
  {
    if Covers(p, abs) && p != [] && abs != p {
      assert Absolute(abs[|p|..]) && abs == p + abs[|p|..];
    }
  }

  /** A path below a mount point is handed to the mount without the prefix. */
  lemma RelativeBelow(p: Str, rel: Str)
    requires Absolute(rel)
    ensures Covers(p, p + rel) && Relative(p, p + rel) == rel
    ensures p != [] ==> Covers(p, p) && Relative(p, p) == [SLASH]
  {
    assert (p + rel)[|p|..] == rel;
  }

  /** Mounting one more file system changes the resolution of covered paths only. */
  lemma MountFrame(ms: seq<MountPoint>, m: MountPoint, abs: Str, i: nat)
    requires TableOk(ms + [m]) && IsBest(ms, abs, i)
    ensures var ms' := ms + [m];
            if Covers(m.prefix, abs) && |m.prefix| > |ms[i].prefix| then IsBest(ms', abs, |ms|) else IsBest(ms', abs, i)
  {
  }

  // ---- Clean paths stay clean inside a mount ----

  /** Cutting a joined path at a slash cuts its list of segments. */
  lemma {:induction false} JoinTailCut(p: Path, i: nat) returns (k: nat)
    requires AllPlain(p) && i <= |JoinTail(p)| && (i < |JoinTail(p)| ==> JoinTail(p)[i] == SLASH)
    ensures k <= |p| && JoinTail(p)[i..] == JoinTail(p[k..])
  {
    if i == 0 {
      k := 0;
      assert p[0..] == p && JoinTail(p)[0..] == JoinTail(p);
    } else {
      var n := 1 + |p[0]|;
      var front, rest := [SLASH] + p[0], JoinTail(p[1..]);
      assert JoinTail(p) == front + rest;
      assert forall x :: 1 <= x < n ==> JoinTail(p)[x] == p[0][x - 1] && p[0][x - 1] != SLASH;
      assert i < |JoinTail(p)| ==> rest[i - n] == SLASH;
      var j := JoinTailCut(p[1..], i - n);
      k := j + 1;
      assert p[1..][j..] == p[k..];
      assert JoinTail(p)[i..] == rest[i - n..];
    }
  }

  lemma JoinClean(p: Path)
    requires AllReal(p)
    ensures Clean(Join(p))
  {
    SegmentsJoin(p);
  }

  /** A clean path is handed to its mount as a clean path. */
  lemma RelativeClean(p: Str, abs: Str)
    requires Covers(p, abs) && Stored(p) && Clean(abs)
    ensures Clean(Relative(p, abs))
  {
    if p == [] {
      assert abs[0..] == abs;
    } else if abs == p {
      JoinClean([]);
    } else {
      var segs := Segments(abs);
      CanonicalRoot(abs);
      assert segs != [];
      assert abs == JoinTail(segs);
      var k := JoinTailCut(segs, |p|);
      var rel := abs[|p|..];
      assert rel == JoinTail(segs[k..]) && rel[0] == SLASH;
      assert segs[k..] != [];
      JoinClean(segs[k..]);
    }
  }

  // ---- Child mounts ----

  /** `direct_child`: the last segment, if the mount sits directly below `parent`. */
  function DirectChild(parent: Str, p: Str): (r: Option<Str>)
    ensures match r
            case Some(n) => Plain(n) && p == parent + [SLASH] + n
            case None => forall n :: Plain(n) ==> p != parent + [SLASH] + n
  {
    if parent + [SLASH] <= p && Plain(p[|parent| + 1..]) then
      assert p == parent + [SLASH] + p[|parent| + 1..];
      Some(p[|parent| + 1..])
    else
      assert forall n: Str :: Plain(n) ==> (parent + [SLASH] + n)[|parent| + 1..] == n;
      None
  }

  class Vfs {
    var mounts: seq<MountPoint>

    ghost predicate Valid()
      reads this
    {
      TableOk(mounts)
    }

    constructor ()
      ensures Valid() && mounts == []
    {
      mounts := [];
    }

    ghost predicate Mounted(p: Str)
      reads this
    {
      exists i :: 0 <= i < |mounts| && mounts[i].prefix == p
    }

    /** A mount point, or a directory of the mount that covers the path best. */
    ghost predicate IsDirectory(abs: Str)
      reads this
    {
      Mounted(TrimEnd(abs))
      || (Absolute(abs) && exists i: nat :: IsBest(mounts, abs, i)
                             && mounts[i].fs.isDir(Relative(mounts[i].prefix, abs)))
    }

    /** The position of a prefix in the table. */
    method Position(p: Str) returns (r: Option<nat>)
      ensures match r
              case Some(i) => i < |mounts| && mounts[i].prefix == p && forall j :: 0 <= j < i ==> mounts[j].prefix != p
              case None => !Mounted(p)
    {
      for i := 0 to |mounts|
        invariant forall j :: 0 <= j < i ==> mounts[j].prefix != p
      {
        if mounts[i].prefix == p {
          return Some(i);
        }
      }
      r := None;
    }

    /** `mount`. */
    method Mount(prefix: Str, fs: Backend) returns (r: Result<()>)
      requires Valid()
      modifies this
      ensures Valid()
      ensures r == if |old(mounts)| >= 8 then Err(Unsupported)
                   else if !Absolute(prefix) || old(Mounted(TrimEnd(prefix))) then Err(Io)
                   else Ok(())
      ensures mounts == if r.Ok? then old(mounts) + [MountPoint(TrimEnd(prefix), fs)] else old(mounts)
    {
      if |mounts| >= MAX_MOUNTS {
        return Err(Unsupported);
      }
      if !Absolute(prefix) {
        return Err(Io);
      }
      var canonical := CanonicalPrefix(prefix);
      var at := Position(canonical);
      if at.Some? {
        return Err(Io);
      }
      mounts := mounts + [MountPoint(canonical, fs)];
      r := Ok(());
    }

    /** `unmount`. */
    method Unmount(prefix: Str) returns (r: Result<()>)
      requires Valid()
      modifies this
      ensures Valid() && !Mounted(TrimEnd(prefix))
      ensures r == if old(Mounted(TrimEnd(prefix))) then Ok(()) else Err(NotFound)
      ensures r.Err? ==> mounts == old(mounts)
      ensures r.Ok? ==> exists i :: 0 <= i < |old(mounts)| && old(mounts)[i].prefix == TrimEnd(prefix)
                                    && mounts == old(mounts)[..i] + old(mounts)[i + 1..]
    {
      var canonical := CanonicalPrefix(prefix);
      var at := Position(canonical);
      if at.None? {
        return Err(NotFound);
      }
      mounts := mounts[..at.value] + mounts[at.value + 1..];
      r := Ok(());
    }

    /** Mounting and unmounting again gives the old table back. */
    method MountUnmount(prefix: Str, fs: Backend)
      requires Valid() && |mounts| < MAX_MOUNTS && Absolute(prefix) && !Mounted(TrimEnd(prefix))
      modifies this
      ensures mounts == old(mounts)
    {
      var r := Mount(prefix, fs);
      ghost var n := |old(mounts)|;
      assert mounts[n].prefix == TrimEnd(prefix);
      ghost var grown := mounts;
      var u := Unmount(prefix);
      assert old(mounts) == grown[..n] + grown[n + 1..];
    }

    /** `resolve`: the mount that covers a path best, and the path below it. */
    method Resolve(abs: Str) returns (r: Result<(nat, Str)>)
      requires Valid()
      ensures match r
              case Ok((i, rel)) => Absolute(abs) && IsBest(mounts, abs, i) && rel == Relative(mounts[i].prefix, abs)
              case Err(x) => x == NotFound
                             && (Absolute(abs) ==> forall i :: 0 <= i < |mounts| ==> !Covers(mounts[i].prefix, abs))
    {
      if !Absolute(abs) {
        return Err(NotFound);
      }
      var best: Option<nat> := None;
      for i := 0 to |mounts|
        invariant best.Some? ==> IsBest(mounts[..i], abs, best.value)
        invariant best.None? ==> forall j :: 0 <= j < i ==> !Covers(mounts[j].prefix, abs)
      {
        var m := mounts[i];
        ghost var was := best;
        if m.prefix == [] {
          if best.None? {
            best := Some(i);
          }
        } else if abs == m.prefix || (|abs| > |m.prefix| && m.prefix <= abs && abs[|m.prefix|] == SLASH) {
          if best.None? || |mounts[best.value].prefix| < |m.prefix| {
            best := Some(i);
          }
        }
        assert mounts[..i + 1] == mounts[..i] + [m];
        if was.Some? {
          TablePrefix(mounts, i + 1);
          MountFrame(mounts[..i], m, abs, was.value);
        }
      }
      if best.None? {
        return Err(NotFound);
      }
      assert mounts[..|mounts|] == mounts;
      var m := mounts[best.value];
      var rel := if m.prefix == [] then abs
                 else if abs[|m.prefix|..] == [] then [SLASH]
                 else abs[|m.prefix|..];
      r := Ok((best.value, rel));
    }

    /** A file system that was just mounted answers for its own mount point. */
    method MountThenResolve(prefix: Str, fs: Backend) returns (r: Result<(nat, Str)>)
      requires Valid() && |mounts| < MAX_MOUNTS && Absolute(prefix) && !Mounted(TrimEnd(prefix))
               && TrimEnd(prefix) != []
      modifies this
      ensures Valid() && r.Ok? && r.value.0 < |mounts| && mounts[r.value.0].fs == fs && r.value.1 == [SLASH]
    {
      var ok := Mount(prefix, fs);
      r := Resolve(TrimEnd(prefix));
      ghost var n := |old(mounts)|;
      ghost var p := TrimEnd(prefix);
      assert Covers(mounts[n].prefix, p) && Absolute(p);
    }

    /** A file system that was just mounted answers for every path below its mount point that no longer
        prefix covers, and is asked for what follows the prefix. */
    method MountThenResolveBelow(prefix: Str, fs: Backend, rel: Str) returns (r: Result<(nat, Str)>)
      requires Valid() && |mounts| < 8 && Absolute(prefix) && !Mounted(TrimEnd(prefix)) && Absolute(rel)
      requires forall j :: 0 <= j < |mounts| && |mounts[j].prefix| > |TrimEnd(prefix)| ==>
                             !Covers(mounts[j].prefix, TrimEnd(prefix) + rel)
      modifies this
      ensures Valid() && r == Ok((|old(mounts)|, rel)) && |mounts| == |old(mounts)| + 1
      ensures mounts[|old(mounts)|].fs == fs
    {
      var ok := Mount(prefix, fs);
      ghost var p := TrimEnd(prefix);
      ghost var n := |old(mounts)|;
      r := Resolve(TrimEnd(prefix) + rel);
      RelativeBelow(p, rel);
      assert mounts[n].prefix == p;
      BestBelow(mounts, p, rel, n);
      BestUnique(mounts, p + rel, n);
    }

    /** `is_dir`. */
    method IsDir(abs: Str) returns (r: bool)
      requires Valid()
      ensures r <==> IsDirectory(abs)
    {
      var at := Position(CanonicalPrefix(abs));
      if at.Some? {
        return true;
      }
      var found := Resolve(abs);
      match found {
        case Ok((i, rel)) =>
          BestUnique(mounts, abs, i);
          r := mounts[i].fs.isDir(rel);
        case Err(_) =>
          r := false;
      }
    }

    /** `list_dir`: the covering mount's own entries, then the mount points right below, each once. */
    method ListDir(abs: Str) returns (r: Result<seq<Str>>, ghost own: nat)
      requires Valid()
      ensures !Absolute(abs) || (forall i :: 0 <= i < |mounts| ==> !Covers(mounts[i].prefix, abs)) ==>
                r == Err(NotFound)
      ensures forall i: nat :: Absolute(abs) && IsBest(mounts, abs, i) ==>
                match mounts[i].fs.listDir(Relative(mounts[i].prefix, abs))
                case Err(x) => r == Err(x)
                case Ok(es) => r.Ok? && es <= r.value && own == |es|
      ensures r.Ok? ==> forall n :: Plain(n) && Mounted(TrimEnd(abs) + [SLASH] + n) ==> n in r.value
      ensures r.Ok? ==> forall k :: own <= k < |r.value| ==>
                          Mounted(TrimEnd(abs) + [SLASH] + r.value[k]) && Plain(r.value[k])
      ensures r.Ok? ==> forall k, l :: own <= k < |r.value| && 0 <= l < k ==> r.value[l] != r.value[k]
      ensures r.Ok? ==> TableOrder(TrimEnd(abs), r.value, own)
    {
      own := 0;
      var found := Resolve(abs);
      if found.Err? {
        return Err(found.error), 0;
      }
      var (i, rel) := found.value;
      BestUnique(mounts, abs, i);
      var listed := mounts[i].fs.listDir(rel);
      if listed.Err? {
        return Err(listed.error), 0;
      }
      own := |listed.value|;
      var entries := AddChildren(CanonicalPrefix(abs), listed.value);
      r := Ok(entries);
    }

    /** Mount `j` is the child `name` of `parent`. */
    ghost predicate MountedAt(parent: Str, name: Str, j: int)
      reads this
    {
      0 <= j < |mounts| && mounts[j].prefix == parent + [SLASH] + name
    }

    /** The child mounts from position `own` on come in the order of the table. */
    ghost predicate TableOrder(parent: Str, entries: seq<Str>, own: nat)
      reads this
    {
      forall k, l, i, j :: own <= k < l < |entries| && MountedAt(parent, entries[k], i)
        && MountedAt(parent, entries[l], j)
        ==> i < j
    }

    lemma OrderNext(parent: Str, entries: seq<Str>, own: nat, name: Str, m: nat)
      requires Valid() && own <= |entries| && TableOrder(parent, entries, own) && MountedAt(parent, name, m)
      requires forall k, j :: own <= k < |entries| && MountedAt(parent, entries[k], j) ==> j < m
      ensures TableOrder(parent, entries + [name], own)
      ensures forall k, j :: own <= k < |entries| + 1 && MountedAt(parent, (entries + [name])[k], j) ==> j < m + 1
    {
      assert forall j :: MountedAt(parent, name, j) ==> j == m;
    }

    /** The mount points right below `parent`, added to a listing where they are missing. */
    method AddChildren(parent: Str, listed: seq<Str>) returns (entries: seq<Str>)
      requires Valid()
      ensures listed <= entries
      ensures forall n :: Plain(n) && Mounted(parent + [SLASH] + n) ==> n in entries
      ensures forall k :: |listed| <= k < |entries| ==> Mounted(parent + [SLASH] + entries[k]) && Plain(entries[k])
      ensures forall k, l :: |listed| <= k < |entries| && 0 <= l < k ==> entries[l] != entries[k]
      ensures TableOrder(parent, entries, |listed|)
    {
      entries := listed;
      for m := 0 to |mounts|
        invariant listed <= entries
        invariant forall j, n :: 0 <= j < m && Plain(n) && mounts[j].prefix == parent + [SLASH] + n ==> n in entries
        invariant forall k :: |listed| <= k < |entries| ==> Mounted(parent + [SLASH] + entries[k]) && Plain(entries[k])
        invariant forall k, l :: |listed| <= k < |entries| && 0 <= l < k ==> entries[l] != entries[k]
        invariant TableOrder(parent, entries, |listed|)
        invariant forall k, j :: |listed| <= k < |entries| && MountedAt(parent, entries[k], j) ==> j < m
      {
        var child := DirectChild(parent, mounts[m].prefix);
        if child.Some? {
          SameTail(parent, child.value);
          if child.value !in entries {
            OrderNext(parent, entries, |listed|, child.value, m);
            entries := entries + [child.value];
          }
        }
      }
    }

    /** Every mount point that a listing adds is a directory. */
    method AddedChildIsDir(abs: Str, name: Str) returns (r: bool)
      requires Valid() && Plain(name) && Mounted(TrimEnd(abs) + [SLASH] + name)
      ensures r
    {
      var child := TrimEnd(abs) + [SLASH] + name;
      assert child[|child| - 1] == name[|name| - 1];
      assert name[|name| - 1] in name;
      assert TrimEnd(child) == child;
      r := IsDir(child);
    }
  }

  /** Two covering prefixes of one length are the same prefix. */
  lemma SameLength(p: Str, q: Str, abs: Str)
    requires Covers(p, abs) && Covers(q, abs) && |p| == |q|
    ensures p == q
  {
  }

  lemma BestBelow(ms: seq<MountPoint>, p: Str, rel: Str, n: nat)
    requires TableOk(ms) && n < |ms| && ms[n].prefix == p && Absolute(rel)
    requires forall j :: 0 <= j < |ms| && |ms[j].prefix| > |p| ==> !Covers(ms[j].prefix, p + rel)
    ensures IsBest(ms, p + rel, n)
  {
    RelativeBelow(p, rel);
    forall j | 0 <= j < |ms| && j != n && Covers(ms[j].prefix, p + rel)
      ensures |ms[j].prefix| < |p|
    {
      if |ms[j].prefix| == |p| {
        SameLength(ms[j].prefix, p, p + rel);
      }
    }
  }

  lemma TablePrefix(ms: seq<MountPoint>, n: nat)
    requires TableOk(ms) && n <= |ms|
    ensures TableOk(ms[..n])
  {
  }

  /** The last segment is determined by the whole. */
  lemma SameTail(parent: Str, n: Str)
    ensures forall k: Str :: parent + [SLASH] + k == parent + [SLASH] + n ==> k == n
  {
    forall k: Str | parent + [SLASH] + k == parent + [SLASH] + n
      ensures k == n
    {
      assert (parent + [SLASH] + k)[|parent| + 1..] == k;
      assert (parent + [SLASH] + n)[|parent| + 1..] == n;
    }
  }
}
