/** Path strings: splitting at `/`, joining, and taking the parent. */
module Paths {
  import opened Bytes
  import opened Results
  import opened ShortNames
  import opened Namespace

  /** Position of the first `/`, or the length. */
  function FirstSlash(s: Str): (r: nat)
    ensures r <= |s|
    ensures r < |s| ==> s[r] == SLASH
    ensures forall k :: 0 <= k < r ==> s[k] != SLASH
  {
    if s == [] || s[0] == SLASH then 0 else 1 + FirstSlash(s[1..])
  }

  /** The non-empty pieces between slashes (`split('/').filter(|s| !s.is_empty())`). */
  function Segments(s: Str): (p: Path)
    decreases |s|
  {
    if s == [] then []
    else if s[0] == SLASH then Segments(s[1..])
    else [s[..FirstSlash(s)]] + Segments(s[FirstSlash(s)..])
  }

  /** A usable path segment. */
  predicate Plain(seg: Str) {
    seg != [] && SLASH !in seg
  }

  predicate AllPlain(p: Path) {
    forall i :: 0 <= i < |p| ==> Plain(p[i])
  }

  function JoinTail(p: Path): Str {
    if p == [] then [] else [SLASH] + p[0] + JoinTail(p[1..])
  }

  /** The canonical spelling of a path. */
  function Join(p: Path): Str {
    if p == [] then [SLASH] else JoinTail(p)
  }

  predicate Canonical(s: Str) {
    s == Join(Segments(s))
  }

  lemma {:induction false} SegmentsPlain(s: Str)
    ensures AllPlain(Segments(s))
    decreases |s|
  {
    if s != [] {
      if s[0] == SLASH {
        SegmentsPlain(s[1..]);
      } else {
        SegmentsPlain(s[FirstSlash(s)..]);
      }
    }
  }

  /** Splitting at a boundary. */
  lemma {:induction false} SegmentsSlash(a: Str, b: Str)
    requires b == [] || b[0] == SLASH
    ensures Segments(a + b) == Segments(a) + Segments(b)
    decreases |a|
  {
    if a == [] {
      assert a + b == b;
    } else if a[0] == SLASH {
      assert (a + b)[1..] == a[1..] + b;
      SegmentsSlash(a[1..], b);
    } else {
      var n := FirstSlash(a);
      FirstSlashConcat(a, b);
      assert (a + b)[..n] == a[..n];
      assert (a + b)[n..] == a[n..] + b;
      SegmentsSlash(a[n..], b);
    }
  }

  lemma {:induction false} FirstSlashConcat(a: Str, b: Str)
    requires b == [] || b[0] == SLASH
    ensures FirstSlash(a + b) == FirstSlash(a)
  {
    if a == [] {
      assert a + b == b;
    } else if a[0] != SLASH {
      assert (a + b)[1..] == a[1..] + b;
      FirstSlashConcat(a[1..], b);
    }
  }

  lemma SegmentsOne(seg: Str)
    requires Plain(seg)
    ensures Segments(seg) == [seg] && Segments([SLASH] + seg) == [seg]
  {
    assert FirstSlash(seg) == |seg|;
    assert seg[|seg|..] == [] && seg[..|seg|] == seg;
    assert ([SLASH] + seg)[1..] == seg;
  }

  lemma {:induction false} SegmentsJoinTail(p: Path)
    requires AllPlain(p)
    ensures Segments(JoinTail(p)) == p
  {
    if p != [] {
      SegmentsJoinTail(p[1..]);
      SegmentsSlash([SLASH] + p[0], JoinTail(p[1..]));
      SegmentsOne(p[0]);
    }
  }

  /** Joining and splitting are inverse. */
  lemma SegmentsJoin(p: Path)
    requires AllPlain(p)
    ensures Segments(Join(p)) == p && Canonical(Join(p))
  {
    if p == [] {
      assert [SLASH][1..] == [];
    }
    SegmentsJoinTail(p);
  }

  lemma {:induction false} JoinTailSnoc(p: Path, s: Str)
    ensures JoinTail(p + [s]) == JoinTail(p) + [SLASH] + s
  {
    if p == [] {
      assert p + [s] == [s];
      assert JoinTail([s]) == [SLASH] + s + JoinTail([]);
    } else {
      assert (p + [s])[1..] == p[1..] + [s];
      JoinTailSnoc(p[1..], s);
    }
  }

  lemma {:induction false} JoinTailConcat(p: Path, q: Path)
    ensures JoinTail(p + q) == JoinTail(p) + JoinTail(q)
    decreases |p|
  {
    if p == [] {
      assert p + q == q;
    } else {
      assert (p + q)[1..] == p[1..] + q;
      JoinTailConcat(p[1..], q);
    }
  }

  /** `trim_end_matches('/')`. */
  function TrimEnd(s: Str): (r: Str)
    ensures r <= s && (r != [] ==> r[|r| - 1] != SLASH)
  {
    if s != [] && s[|s| - 1] == SLASH then TrimEnd(s[..|s| - 1]) else s
  }

  /** What trimming takes away is a run of slashes. */
  lemma {:induction false} TrimEndMeans(s: Str)
    ensures TrimEnd(s) <= s && forall k :: |TrimEnd(s)| <= k < |s| ==> s[k] == 47
  {
    if s != [] && s[|s| - 1] == SLASH {
      TrimEndMeans(s[..|s| - 1]);
    }
  }

  lemma {:induction false} TrimKeepsSegments(s: Str)
    ensures Segments(TrimEnd(s)) == Segments(s)
  {
    if s != [] && s[|s| - 1] == SLASH {
      var t := s[..|s| - 1];
      TrimKeepsSegments(t);
      assert s == t + [SLASH];
      SegmentsSlash(t, [SLASH]);
      assert [SLASH][1..] == [];
    }
  }

  /** `split_parent`: the path of the directory and the last segment. */
  function SplitParent(abs: Str): Result<(Str, Str)> {
    var trimmed := TrimEnd(abs);
    if trimmed == [] then Err(Io)
    else
      var i := LastIndex(trimmed, SLASH);
      if i < 0 then Err(Io)
      else
        var parent := if i == 0 then [SLASH] else trimmed[..i];
        var name := trimmed[i + 1..];
        if name == [] then Err(Io) else Ok((parent, name))
  }

  lemma CutAt(t: Str, i: nat)
    requires i + 1 < |t| && t[i] == SLASH && forall k :: i < k < |t| ==> t[k] != SLASH
    ensures Plain(t[i + 1..]) && Segments(t) == Segments(t[..i]) + [t[i + 1..]]
  {
    var name := t[i + 1..];
    assert Plain(name);
    assert t == t[..i] + ([SLASH] + name);
    SegmentsSlash(t[..i], [SLASH] + name);
    SegmentsOne(name);
  }

  lemma RootSegments()
    ensures Segments([SLASH]) == [] && Segments([]) == []
  {
  }

  lemma ParentIs(t: Str, i: nat)
    requires i < |t|
    ensures Segments(if i == 0 then [SLASH] else t[..i]) == Segments(t[..i])
  {
    RootSegments();
    assert i == 0 ==> t[..i] == [];
  }

  /** Where a path is split. */
  lemma SplitPoint(abs: Str)
    requires SplitParent(abs).Ok?
    ensures var t := TrimEnd(abs); var i := LastIndex(t, SLASH);
            && 0 <= i && i + 1 < |t|
            && SplitParent(abs).value == (if i == 0 then [SLASH] else t[..i], t[i + 1..])
  {
  }

  /** The parent and the name together are the whole path. */
  lemma SplitParentSegments(abs: Str)
    requires SplitParent(abs).Ok?
    ensures var (parent, name) := SplitParent(abs).value;
            Plain(name) && Segments(abs) == Segments(parent) + [name]
  {
    var t := TrimEnd(abs);
    var i := LastIndex(t, SLASH);
    SplitPoint(abs);
    assert Segments(abs) == Segments(t) by { TrimKeepsSegments(abs); }
    assert Plain(t[i + 1..]) && Segments(t) == Segments(t[..i]) + [t[i + 1..]] by { CutAt(t, i); }
    assert Segments(if i == 0 then [SLASH] else t[..i]) == Segments(t[..i]) by { ParentIs(t, i); }
  }

  lemma {:induction false} JoinTailEnds(p: Path)
    requires p != [] && AllPlain(p)
    ensures JoinTail(p) != [] && JoinTail(p)[|JoinTail(p)| - 1] != SLASH
  {
    var n := |p| - 1;
    assert p == p[..n] + [p[n]];
    JoinTailSnoc(p[..n], p[n]);
  }

  lemma LastIndexIs(s: Str, b: byte, i: nat)
    requires i < |s| && s[i] == b && forall k :: i < k < |s| ==> s[k] != b
    ensures LastIndex(s, b) == i
  {
  }

  lemma SplitAt(front: Str, name: Str)
    requires Plain(name) && (front != [] ==> front[|front| - 1] != SLASH)
    ensures SplitParent(front + [SLASH] + name) == Ok((if front == [] then [SLASH] else front, name))
  {
    var s := front + [SLASH] + name;
    assert s[|s| - 1] == name[|name| - 1];
    assert TrimEnd(s) == s;
    LastIndexIs(s, SLASH, |front|);
    assert s[|front| + 1..] == name && s[..|front|] == front;
  }

  /** Every canonical path but the root splits, into a canonical parent. */
  lemma SplitCanonical(p: Path)
    requires p != [] && AllPlain(p)
    ensures SplitParent(Join(p)) == Ok((Join(p[..|p| - 1]), p[|p| - 1]))
  {
    var n := |p| - 1;
    assert p == p[..n] + [p[n]];
    JoinTailSnoc(p[..n], p[n]);
    if p[..n] != [] {
      JoinTailEnds(p[..n]);
    }
    SplitAt(JoinTail(p[..n]), p[n]);
  }

  /** Only the root spells an empty list of segments, among canonical paths. */
  lemma CanonicalRoot(s: Str)
    requires Canonical(s)
    ensures Segments(s) == [] <==> s == [SLASH]
  {
  }

  /** Canonical paths, said on the bytes: a leading slash, no two slashes in a row, and none at the end but
      for the root. */
  lemma CanonicalMeans(s: Str)
    ensures Canonical(s) <==>
              && s != [] && s[0] == 47 && (forall i :: 0 <= i < |s| - 1 && s[i] == 47 ==> s[i + 1] != 47)
              && (|s| > 1 ==> s[|s| - 1] != 47)
  {
    SegmentsPlain(s);
    if Canonical(s) {
      JoinSpelling(Segments(s));
    }
    if s != [] && s[0] == SLASH && (forall i :: 0 <= i < |s| - 1 && s[i] == SLASH ==> s[i + 1] != SLASH) {
      if |s| == 1 {
        RootSegments();
        assert s == [SLASH];
      } else if s[|s| - 1] != SLASH {
        assert SingleSlashes(s);
        Respelled(s);
      }
    }
  }

  lemma {:induction false} JoinSpelling(p: Path)
    requires AllPlain(p)
    ensures var s := JoinTail(p);
            && (p != [] ==> |s| > 1 && s[0] == SLASH && s[|s| - 1] != SLASH)
            && forall i :: 0 <= i < |s| - 1 && s[i] == SLASH ==> s[i + 1] != SLASH
  {
    if p != [] {
      var s, rest := JoinTail(p), JoinTail(p[1..]);
      JoinSpelling(p[1..]);
      JoinTailEnds(p);
      var n := 1 + |p[0]|;
      assert s == [SLASH] + p[0] + rest;
      assert forall i :: 1 <= i < n ==> s[i] == p[0][i - 1] && p[0][i - 1] != SLASH;
      forall i | 0 <= i < |s| - 1 && s[i] == SLASH
        ensures s[i + 1] != SLASH
      {
        assert i >= n ==> s[i] == rest[i - n] && s[i + 1] == rest[i - n + 1];
      }
    }
  }

  /** The first segment of such a path, and what follows it. */
  lemma FirstSegment(s: Str, n: nat)
    requires |s| > 1 && s[0] == SLASH && s[1] != SLASH && n == FirstSlash(s[1..])
    ensures 0 < n && s == [SLASH] + s[1..][..n] + s[n + 1..]
    ensures Segments(s) == [s[1..][..n]] + Segments(s[n + 1..])
  {
    var t := s[1..];
    assert t[0] == s[1];
    CutOff(s, n);
    assert Segments(t) == [t[..n]] + Segments(t[n..]);
  }

  lemma CutOff(s: Str, n: nat)
    requires s != [] && n + 1 <= |s|
    ensures s == [s[0]] + s[1..][..n] + s[n + 1..] && s[1..][n..] == s[n + 1..]
  {
  }

  /** No two slashes in a row. */
  ghost predicate SingleSlashes(s: Str) {
    forall i {:trigger SlashPair(s, i)} :: 0 <= i < |s| - 1 ==> !SlashPair(s, i)
  }

  ghost predicate SlashPair(s: Str, i: nat)
    requires i + 1 < |s|
  {
    s[i] == SLASH && s[i + 1] == SLASH
  }

  lemma SingleDrop(s: Str, n: nat)
    requires SingleSlashes(s) && n <= |s|
    ensures SingleSlashes(s[n..])
  {
    forall i {:trigger SlashPair(s[n..], i)} | 0 <= i < |s[n..]| - 1
      ensures !SlashPair(s[n..], i)
    {
      assert !SlashPair(s, n + i);
    }
  }

  lemma JoinCons(seg: Str, p: Path)
    ensures JoinTail([seg] + p) == [SLASH] + seg + JoinTail(p)
  {
    assert ([seg] + p)[1..] == p;
  }

  /** A path spelled that way is spelled by its segments. */
  lemma {:induction false} Respelled(s: Str)
    requires |s| > 1 && s[0] == SLASH && s[|s| - 1] != SLASH && SingleSlashes(s)
    ensures Segments(s) != [] && JoinTail(Segments(s)) == s
    decreases |s|
  {
    assert !SlashPair(s, 0);
    var n := FirstSlash(s[1..]);
    FirstSegment(s, n);
    var rest := s[n + 1..];
    JoinCons(s[1..][..n], Segments(rest));
    if rest != [] {
      SingleDrop(s, n + 1);
      Respelled(rest);
    }
  }

  // ---- Paths both file systems understand alike ----

  ghost predicate LowerPath(p: Path) {
    LowerAll(p) == p
  }

  /** A normalised path of lower-case 8.3 names. */
  ghost predicate Proper(abs: Str) {
    Canonical(abs) && LowerPath(Segments(abs)) && forall i :: 0 <= i < |Segments(abs)| ==> ValidName(Segments(abs)[i])
  }

  lemma LowerPrefix(p: Path, n: nat)
    requires LowerPath(p) && n <= |p|
    ensures LowerPath(p[..n])
  {
  }

  lemma LowerUnder(q: Path, p: Path)
    requires LowerPath(q) && LowerPath(p)
    ensures Under(q, p) <==> p <= q
  {
  }

  /** A proper path splits into its parent and its last name; the root does not split. */
  lemma ProperSplit(abs: Str)
    requires Proper(abs)
    ensures var p := Segments(abs);
            if p == [] then SplitParent(abs) == Err(Io) && abs == [SLASH]
            else SplitParent(abs) == Ok((Join(p[..|p| - 1]), p[|p| - 1])) && LowerPath(p[..|p| - 1])
  {
    var p := Segments(abs);
    SegmentsPlain(abs);
    CanonicalRoot(abs);
    if p != [] {
      SplitCanonical(p);
      LowerPrefix(p, |p| - 1);
    } else {
      assert abs[..0] == [];
      assert TrimEnd(abs) == TrimEnd([]) == [];
    }
  }

  lemma ParentSegments(abs: Str)
    requires Segments(abs) != []
    ensures var parent := Segments(abs)[..|Segments(abs)| - 1];
            && Segments(Join(parent)) == parent && (parent == [] ==> Join(parent) == [SLASH])
            && parent + [Segments(abs)[|Segments(abs)| - 1]] == Segments(abs)
  {
    SegmentsPlain(abs);
    SegmentsJoin(Segments(abs)[..|Segments(abs)| - 1]);
  }
}
