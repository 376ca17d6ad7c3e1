/** The shell's working directory: which path a command line hands to the VFS, and what `cd` does. */
module Shell {
  import opened Bytes
  import opened Results
  import opened Namespace
  import opened Paths
  import opened Normalize
  import opened Vfs

  const LS: Str := [108, 115]
  const CD: Str := [99, 100]
  const CAT: Str := [99, 97, 116]
  const TOUCH: Str := [116, 111, 117, 99, 104]
  const MKDIR: Str := [109, 107, 100, 105, 114]
  const RM: Str := [114, 109]
  const WRITE: Str := [119, 114, 105, 116, 101]

  predicate IsBlank(b: byte) {
    b == 9 || b == 10 || b == 12 || b == 13 || b == 32
  }

  /** Position of the first blank, or the length. */
  function FirstBlank(s: Str): (r: nat)
    ensures r <= |s| && (r < |s| ==> IsBlank(s[r])) && forall k :: 0 <= k < r ==> !IsBlank(s[k])
  {
    if s == [] || IsBlank(s[0]) then 0 else 1 + FirstBlank(s[1..])
  }

  /** `split_ascii_whitespace`. */
  function Words(s: Str): (r: seq<Str>)
    ensures forall i :: 0 <= i < |r| ==> r[i] != []
    decreases |s|
  {
    if s == [] then []
    else if IsBlank(s[0]) then Words(s[1..])
    else [s[..FirstBlank(s)]] + Words(s[FirstBlank(s)..])
  }

  /** The path a command hands to the VFS, if any: its operand seen from the working directory; `ls`
      and `cd` have a default. */
  function Target(cwd: Str, words: seq<Str>): Option<Str> {
    if words == [] then None
    else if words[0] in {LS, CD, CAT, TOUCH, MKDIR, RM, WRITE} then
      if |words| > 1 then Some(Normal(cwd, words[1]))
      else if words[0] == LS then Some(cwd)
      else if words[0] == CD then Some([SLASH])
      else None
    else None
  }

  /** A run of bytes without a blank is one word. */
  lemma WordAlone(w: Str)
    requires w != [] && forall i :: 0 <= i < |w| ==> !IsBlank(w[i])
    ensures Words(w) == [w]
  {
    assert FirstBlank(w) == |w| && w[|w|..] == [] && w[..|w|] == w;
  }

  /** A blank separates the words before it from those behind it. */
  lemma {:induction false} WordsSplit(a: Str, b: byte, rest: Str)
    requires IsBlank(b)
    ensures Words(a + [b] + rest) == Words(a) + Words(rest)
    decreases |a|
  {
    var s := a + [b] + rest;
    if a == [] {
      assert s[1..] == rest;
    } else if IsBlank(a[0]) {
      assert s[1..] == a[1..] + [b] + rest;
      WordsSplit(a[1..], b, rest);
    } else {
      BlankBehind(a, b, rest);
      var n := FirstBlank(a);
      assert s[..n] == a[..n] && s[n..] == a[n..] + [b] + rest;
      WordsSplit(a[n..], b, rest);
    }
  }

  lemma {:induction false} BlankBehind(a: Str, b: byte, rest: Str)
    requires IsBlank(b)
    ensures FirstBlank(a + [b] + rest) == FirstBlank(a)
  {
    var s := a + [b] + rest;
    if a != [] && !IsBlank(a[0]) {
      assert s[1..] == a[1..] + [b] + rest;
      BlankBehind(a[1..], b, rest);
    }
  }

  /** No tab, line feed, form feed, carriage return or space in it. */
  ghost predicate IsWord(w: Str) {
    w != [] && forall i :: 0 <= i < |w| ==> w[i] !in [9, 10, 12, 13, 32]
  }

  lemma WordThen(w: Str, rest: Str)
    requires IsWord(w) && (rest == [] || rest[0] == 32)
    ensures Words(w + rest) == [w] + Words(rest)
  {
    WordAlone(w);
    if rest == [] {
      assert w + rest == w;
    } else {
      var tail := rest[1..];
      assert w + rest == w + [32] + tail;
      WordsSplit(w, 32, tail);
    }
  }

  /** The second word of a line is its first operand, whatever follows. */
  lemma LineWords(cmd: Str, arg: Str, rest: Str)
    requires IsWord(cmd) && IsWord(arg) && (rest == [] || rest[0] == 32)
    ensures Words(cmd) == [cmd] && Words(cmd + [32] + arg + rest) == [cmd] + ([arg] + Words(rest))
  {
    WordAlone(cmd);
    WordThen(arg, rest);
    var tail := arg + rest;
    assert cmd + [32] + arg + rest == cmd + [32] + tail;
    WordsSplit(cmd, 32, tail);
  }

  /** The commands that take a path: `ls`, `cd`, `cat`, `touch`, `mkdir`, `rm` and `write`. */
  ghost predicate TakesPath(cmd: Str) {
    || cmd == [108, 115] || cmd == [99, 100] || cmd == [99, 97, 116] || cmd == [116, 111, 117, 99, 104]
    || cmd == [109, 107, 100, 105, 114] || cmd == [114, 109] || cmd == [119, 114, 105, 116, 101]
  }

  /** The path of a line is its operand seen from the working directory; without one, `ls` takes the working
      directory and `cd` the root, and no other command touches a path. */
  lemma OperandMeans(cwd: Str, cmd: Str, arg: Str, rest: Str)
    requires IsWord(cmd) && IsWord(arg) && (rest == [] || rest[0] == 32)
    ensures Target(cwd, Words(cmd + [32] + arg + rest)) == if TakesPath(cmd) then Some(Normal(cwd, arg)) else None
    ensures Target(cwd, Words(cmd)) == if cmd == [108, 115] then Some(cwd)
                                       else if cmd == [99, 100] then Some([47])
                                       else None
  {
    LineWords(cmd, arg, rest);
    TargetOf(cwd, cmd, [arg] + Words(rest));
    assert [cmd] + [] == [cmd];
    TargetOf(cwd, cmd, []);
  }

  lemma TargetOf(cwd: Str, cmd: Str, args: seq<Str>)
    ensures Target(cwd, [cmd] + args)
         == if TakesPath(cmd) && args != [] then Some(Normal(cwd, args[0]))
            else if args == [] && cmd == [108, 115] then Some(cwd)
            else if args == [] && cmd == [99, 100] then Some([47])
            else None
  {
  }

  lemma RootClean()
    ensures Clean([SLASH])
  {
    RootSegments();
  }

  /** Every path that reaches the VFS is clean. */
  lemma TargetClean(cwd: Str, words: seq<Str>)
    requires Clean(cwd)
    ensures Target(cwd, words).Some? ==> Clean(Target(cwd, words).value)
  {
    RootClean();
    if |words| > 1 {
      NormalClean(cwd, words[1]);
    }
  }

  // ---- The children that `ls` tests ----

  /** The path `ls` builds for an entry of its target. */
  function ChildPath(target: Str, name: Str): Str {
    TrimEnd(target) + [SLASH] + name
  }

  lemma TrimmedClean(target: Str)
    requires Clean(target)
    ensures TrimEnd(target) == JoinTail(Segments(target)) && (Segments(target) == [] <==> target == [SLASH])
  {
    CanonicalRoot(target);
    SegmentsPlain(target);
    if Segments(target) == [] {
      assert target[..0] == [];
    } else {
      JoinTailEnds(Segments(target));
    }
  }

  lemma ChildSegments(target: Str, name: Str)
    ensures Segments(ChildPath(target, name)) == Segments(target) + Segments(name)
    ensures Segments([SLASH] + name) == Segments(name)
  {
    SegmentsThen(TrimEnd(target), name);
    TrimKeepsSegments(target);
    assert ([SLASH] + name)[1..] == name;
  }

  /** The canonical spelling of a child's path. */
  lemma ChildJoined(target: Str, name: Str)
    requires Clean(target)
    ensures ChildPath(target, name) == Join(Segments(target) + Segments(name)) <==>
              [SLASH] + name == Join(Segments(name)) && (name != [] || target == [SLASH])
  {
    var t, p, q := TrimEnd(target), Segments(target), Segments(name);
    TrimmedClean(target);
    JoinTailConcat(p, q);
    assert ChildPath(target, name) == t + ([SLASH] + name);
    if q == [] {
      assert p + q == p;
    } else {
      Prefixed(t, [SLASH] + name, JoinTail(q));
    }
  }

  /** The path of a child is clean exactly when its name, behind a slash, is; a nameless child of any
      directory but the root gets a path with a trailing slash. */
  lemma ChildClean(target: Str, name: Str)
    requires Clean(target)
    ensures Clean(ChildPath(target, name)) <==> Clean([SLASH] + name) && (name != [] || target == [SLASH])
  {
    ChildSegments(target, name);
    ChildJoined(target, name);
    RealBoth(Segments(target), Segments(name));
  }

  lemma RealBoth(p: Path, q: Path)
    requires AllReal(p)
    ensures AllReal(p + q) <==> AllReal(q)
  {
    if AllReal(p + q) {
      assert forall i :: 0 <= i < |q| ==> (p + q)[|p| + i] == q[i];
    }
  }

  lemma Prefixed(a: Str, b: Str, c: Str)
    ensures a + b == a + c <==> b == c
  {
    assert (a + b)[|a|..] == b && (a + c)[|a|..] == c;
  }

  class Shell {
    const vfs: Vfs
    var cwd: Str

    ghost predicate Valid()
      reads this, vfs
    {
      vfs.Valid() && Clean(cwd)
    }

    constructor (v: Vfs)
      requires v.Valid()
      ensures Valid() && vfs == v && cwd == [SLASH]
    {
      vfs := v;
      cwd := [SLASH];
      new;
      RootClean();
    }

    /** `names` are what the VFS lists at `target`: the entries of the covering mount and the mount points right
        below; none if there is no mount or the mount refuses. */
    ghost predicate Listed(target: Str, names: seq<Str>)
      reads this, vfs
    {
      && ((forall i :: 0 <= i < |vfs.mounts| ==> !Covers(vfs.mounts[i].prefix, target)) ==> names == [])
      && forall i: nat :: IsBest(vfs.mounts, target, i) ==>
           match vfs.mounts[i].fs.listDir(Relative(vfs.mounts[i].prefix, target))
           case Err(_) => names == []
           case Ok(own) =>
             && own <= names
             && (forall n :: Plain(n) && vfs.Mounted(TrimEnd(target) + [SLASH] + n) ==> n in names)
             && forall k :: |own| <= k < |names| ==>
                  vfs.Mounted(TrimEnd(target) + [SLASH] + names[k]) && Plain(names[k])
    }

    /** `execute_line`, as far as paths go: returns the operand path handed to the VFS, the names whose paths
        below it `ls` tests, and which of them it marks as directories. Only `cd` changes the working
        directory, and only to a directory. */
    method ExecuteLine(line: Str) returns (target: Option<Str>, tested: seq<Str>, marked: seq<bool>)
      requires Valid()
      modifies this`cwd
      ensures Valid() && target == Target(old(cwd), Words(line))
      ensures target.Some? ==> Clean(target.value)
      ensures if Words(line) != [] && Words(line)[0] == LS then target.Some? && Listed(target.value, tested)
              else tested == []
      ensures target.Some? ==> MarkedDirs(target.value, tested, marked)
      ensures Tested(target, tested)
      ensures var moved := Words(line) != [] && Words(line)[0] == CD && vfs.IsDirectory(target.value);
              cwd == if moved then target.value else old(cwd)
    {
      tested, marked := [], [];
      var words := Words(line);
      TargetClean(cwd, words);
      if words == [] {
        return None, [], [];
      }
      var cmd := words[0];
      var path := if |words| > 1 then Some(words[1]) else None;
      if cmd == CD {
        target := CmdCd(path);
      } else if cmd == LS {
        var p := cwd;
        if path.Some? {
          p := NormalizePath(cwd, path.value);
        }
        target := Some(p);
        tested, marked := CmdLs(p);
      } else if cmd == CAT || cmd == TOUCH || cmd == MKDIR || cmd == RM || cmd == WRITE {
        if path.Some? {
          var p := NormalizePath(cwd, path.value);
          target := Some(p);
        } else {
          target := None;
        }
      } else {
        target := None;
      }
    }

    /** Every name is marked exactly when its path below `target` is a directory. */
    ghost predicate MarkedDirs(target: Str, names: seq<Str>, marked: seq<bool>)
      reads this, vfs
    {
      && |marked| == |names|
      && forall i :: 0 <= i < |names| ==> (marked[i] <==> vfs.IsDirectory(TrimEnd(target) + [SLASH] + names[i]))
    }

    /** `cmd_ls`: list the directory, test the path of every entry and mark the directories. */
    method CmdLs(target: Str) returns (tested: seq<Str>, marked: seq<bool>)
      requires Valid() && Clean(target)
      ensures Tested(Some(target), tested) && Listed(target, tested) && MarkedDirs(target, tested, marked)
    {
      NormalFixed(target, target);
      tested, marked := [], [];
      ghost var own: nat;
      var listed: Result<seq<Str>>;
      listed, own := vfs.ListDir(target);
      if listed.Ok? {
        for i := 0 to |listed.value|
          invariant tested == listed.value[..i] && MarkedDirs(target, tested, marked)
        {
          var isDir := vfs.IsDir(ChildPath(target, listed.value[i]));
          tested, marked := tested + [listed.value[i]], marked + [isDir];
        }
      }
      forall n | n in tested
        ensures Clean(ChildPath(target, n)) <==> Clean([SLASH] + n) && (n != [] || target == [SLASH])
      {
        ChildClean(target, n);
      }
    }

    /** `cmd_cd`. */
    method CmdCd(path: Option<Str>) returns (target: Option<Str>)
      requires Valid()
      modifies this`cwd
      ensures Valid() && target == Some(if path.Some? then Normal(old(cwd), path.value) else [SLASH])
      ensures cwd == if vfs.IsDirectory(target.value) then target.value else old(cwd)
    {
      RootClean();
      var p := [SLASH];
      if path.Some? {
        NormalClean(cwd, path.value);
        p := NormalizePath(cwd, path.value);
      }
      var isDir := vfs.IsDir(p);
      if isDir {
        cwd := p;
      }
      target := Some(p);
    }

    /** Over any sequence of command lines, the working directory and every operand path handed to the VFS
        are clean, and so is every operand path a mounted file system sees. The paths that `ls` tests below
        its operand are clean exactly when the listed name is. */
    method Session(lines: seq<Str>) returns (targets: seq<Option<Str>>, tested: seq<seq<Str>>)
      requires Valid()
      modifies this`cwd
      ensures Valid() && |targets| == |tested| == |lines|
      ensures forall i :: 0 <= i < |targets| && targets[i].Some? ==> Clean(targets[i].value)
      ensures forall i, m :: 0 <= i < |targets| && targets[i].Some? && 0 <= m < |vfs.mounts| ==>
                Covers(vfs.mounts[m].prefix, targets[i].value) ==>
                Clean(Relative(vfs.mounts[m].prefix, targets[i].value))
      ensures forall i :: 0 <= i < |tested| ==> Tested(targets[i], tested[i])
    {
      targets, tested := [], [];
      for i := 0 to |lines|
        invariant Valid() && |targets| == |tested| == i
        invariant forall j :: 0 <= j < i && targets[j].Some? ==> Clean(targets[j].value)
        invariant forall j :: 0 <= j < i ==> Tested(targets[j], tested[j])
      {
        var t, names, _ := ExecuteLine(lines[i]);
        targets, tested := targets + [t], tested + [names];
      }
      forall i, m | 0 <= i < |targets| && targets[i].Some? && 0 <= m < |vfs.mounts|
        && Covers(vfs.mounts[m].prefix, targets[i].value)
        ensures Clean(Relative(vfs.mounts[m].prefix, targets[i].value))
      {
        RelativeClean(vfs.mounts[m].prefix, targets[i].value);
      }
    }
  }

  /** When the child paths of a listing are clean. */
  ghost predicate Tested(target: Option<Str>, names: seq<Str>) {
    names != [] ==>
      target.Some?
      && forall n :: n in names ==>
           (Clean(ChildPath(target.value, n)) <==> Clean([SLASH] + n) && (n != [] || target.value == [SLASH]))
  }
}
