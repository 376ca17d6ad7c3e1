/** Path normalisation against a working directory. */
module Normalize {
  import opened Bytes
  import opened ShortNames
  import opened Namespace
  import opened Paths

  /** A segment that names something. */
  predicate Real(seg: Str) {
    Plain(seg) && seg != DOT_NAME && seg != DOT_DOT_NAME
  }

  predicate AllReal(p: Path) {
    forall i :: 0 <= i < |p| ==> Real(p[i])
  }

  /** An absolute path with no empty, `.` or `..` segment and no trailing slash. */
  predicate Clean(s: Str) {
    Canonical(s) && AllReal(Segments(s))
  }

  predicate Absolute(s: Str) {
    s != [] && s[0] == SLASH
  }

  /** What one segment does to the stack. */
  function Push(stack: Path, seg: Str): Path {
    if seg == DOT_NAME then stack
    else if seg == DOT_DOT_NAME then (if stack == [] then [] else stack[..|stack| - 1])
    else stack + [seg]
  }

  function PushAll(stack: Path, segs: Path): Path
    decreases |segs|
  {
    if segs == [] then stack else PushAll(Push(stack, segs[0]), segs[1..])
  }

  /** The stack a path ends with. */
  function Resolved(cwd: Str, input: Str): Path {
    PushAll(if Absolute(input) then [] else Segments(cwd), Segments(input))
  }

  function Normal(cwd: Str, input: Str): Str {
    Join(Resolved(cwd, input))
  }

  lemma {:induction false} PushAllConcat(stack: Path, a: Path, b: Path)
    ensures PushAll(stack, a + b) == PushAll(PushAll(stack, a), b)
    decreases |a|
  {
    if a == [] {
      assert a + b == b;
    } else {
      assert (a + b)[1..] == a[1..] + b;
      PushAllConcat(Push(stack, a[0]), a[1..], b);
    }
  }

  lemma {:induction false} PushAllReal(stack: Path, segs: Path)
    requires AllReal(stack) && AllPlain(segs)
    ensures AllReal(PushAll(stack, segs))
    decreases |segs|
  {
    if segs != [] {
      PushAllReal(Push(stack, segs[0]), segs[1..]);
    }
  }

  /** Real segments just pile up. */
  lemma {:induction false} PushAllAppends(stack: Path, segs: Path)
    requires AllReal(segs)
    ensures PushAll(stack, segs) == stack + segs
    decreases |segs|
  {
    if segs != [] {
      PushAllAppends(stack + [segs[0]], segs[1..]);
      assert stack + [segs[0]] + segs[1..] == stack + segs;
    }
  }

  lemma ResolvedReal(cwd: Str, input: Str)
    requires Clean(cwd)
    ensures AllReal(Resolved(cwd, input))
  {
    SegmentsPlain(input);
    PushAllReal(if Absolute(input) then [] else Segments(cwd), Segments(input));
  }

  /** A normalised path is clean, and its segments are the stack. */
  lemma NormalClean(cwd: Str, input: Str)
    requires Clean(cwd)
    ensures Clean(Normal(cwd, input)) && Segments(Normal(cwd, input)) == Resolved(cwd, input)
    ensures Absolute(Normal(cwd, input))
  {
    ResolvedReal(cwd, input);
    SegmentsJoin(Resolved(cwd, input));
  }

  /** A clean path is its own normal form, whatever the working directory. */
  lemma NormalFixed(cwd: Str, s: Str)
    requires Clean(s)
    ensures Absolute(s) && Normal(cwd, s) == s
  {
    PushAllAppends([], Segments(s));
    assert [] + Segments(s) == Segments(s);
  }

  /** Normalising twice changes nothing more. */
  lemma NormalIdempotent(cwd: Str, other: Str, input: Str)
    requires Clean(cwd)
    ensures Normal(other, Normal(cwd, input)) == Normal(cwd, input)
  {
    NormalClean(cwd, input);
    NormalFixed(other, Normal(cwd, input));
  }

  lemma SegmentsThen(a: Str, b: Str)
    ensures Segments(a + [SLASH] + b) == Segments(a) + Segments(b)
  {
    assert a + [SLASH] + b == a + ([SLASH] + b);
    SegmentsSlash(a, [SLASH] + b);
    assert ([SLASH] + b)[1..] == b;
  }

  /** Going to `a` and then to the relative path `b` is going to `a/b`. */
  lemma NormalComposes(cwd: Str, a: Str, b: Str)
    requires Clean(cwd) && a != [] && !Absolute(b)
    ensures Normal(Normal(cwd, a), b) == Normal(cwd, a + [SLASH] + b)
  {
    var start := if Absolute(a) then [] else Segments(cwd);
    NormalClean(cwd, a);
    SegmentsThen(a, b);
    PushAllConcat(start, Segments(a), Segments(b));
    assert Absolute(a + [SLASH] + b) <==> Absolute(a);
  }

  // ---- What the special segments mean, on path strings ----

  /** A segment and `..` behind it cancel. */
  lemma DotDotCancels(cwd: Str, a: Str, x: Str)
    requires a != [] && Real(x)
    ensures Normal(cwd, a + [SLASH] + x + [SLASH] + DOT_DOT_NAME) == Normal(cwd, a)
  {
    var start := if Absolute(a) then [] else Segments(cwd);
    var mid := a + [SLASH] + x;
    SegmentsThen(mid, DOT_DOT_NAME);
    SegmentsThen(a, x);
    SegmentsOne(x);
    SegmentsOne(DOT_DOT_NAME);
    PushAllConcat(start, Segments(a) + [x], [DOT_DOT_NAME]);
    PushAllConcat(start, Segments(a), [x]);
    PushOne(PushAll(start, Segments(a)), x);
    PushOne(PushAll(start, Segments(a)) + [x], DOT_DOT_NAME);
  }

  lemma PushOne(stack: Path, seg: Str)
    ensures PushAll(stack, [seg]) == Push(stack, seg)
  {
    assert [seg][1..] == [];
  }

  /** A `.` behind a path changes nothing. */
  lemma DotStays(cwd: Str, a: Str)
    requires a != []
    ensures Normal(cwd, a + [SLASH] + DOT_NAME) == Normal(cwd, a)
  {
    var start := if Absolute(a) then [] else Segments(cwd);
    SegmentsThen(a, DOT_NAME);
    SegmentsOne(DOT_NAME);
    PushAllConcat(start, Segments(a), [DOT_NAME]);
    PushOne(PushAll(start, Segments(a)), DOT_NAME);
  }

  /** A real name behind a path goes one level down. */
  lemma NameDescends(cwd: Str, a: Str, x: Str)
    requires Clean(cwd) && a != [] && Real(x)
    ensures Normal(cwd, a + [SLASH] + x) == (if Normal(cwd, a) == [SLASH] then [] else Normal(cwd, a)) + [SLASH] + x
  {
    var start := if Absolute(a) then [] else Segments(cwd);
    SegmentsThen(a, x);
    SegmentsOne(x);
    PushAllConcat(start, Segments(a), [x]);
    PushOne(PushAll(start, Segments(a)), x);
    JoinTailSnoc(PushAll(start, Segments(a)), x);
    NormalClean(cwd, a);
    CanonicalRoot(Normal(cwd, a));
  }

  /** `..` goes to the parent of the working directory, and stays in the root. */
  lemma DotDotIsParent(cwd: Str)
    requires Clean(cwd)
    ensures if cwd == [SLASH] then Normal(cwd, DOT_DOT_NAME) == [SLASH]
            else SplitParent(cwd).Ok? && Normal(cwd, DOT_DOT_NAME) == SplitParent(cwd).value.0
  {
    SegmentsOne(DOT_DOT_NAME);
    PushOne(Segments(cwd), DOT_DOT_NAME);
    CanonicalRoot(cwd);
    if cwd != [SLASH] {
      SplitCanonical(Segments(cwd));
    }
  }

  /** Only a path that begins with a slash leaves the working directory behind. */
  lemma RelativeTakesCwd(cwd: Str, input: Str)
    requires Clean(cwd)
    ensures Normal(cwd, input) == if input != [] && input[0] == 47 then Normal([SLASH], input)
                                  else Normal([SLASH], cwd + [SLASH] + input)
  {
    if !Absolute(input) {
      SegmentsThen(cwd, input);
      PushAllConcat([], Segments(cwd), Segments(input));
      PushAllAppends([], Segments(cwd));
      assert [] + Segments(cwd) == Segments(cwd);
      NormalFixed(cwd, cwd);
    }
  }

  /** `normalize`: build the stack, then join it. */
  method NormalizePath(cwd: Str, input: Str) returns (out: Str)
    ensures out == Normal(cwd, input)
  {
    var stack: Path := [];
    if !Absolute(input) {
      stack := Segments(cwd);
    }
    stack := PushSegments(stack, Segments(input));
    if stack == [] {
      return [SLASH];
    }
    out := JoinStack(stack);
  }

  /** The loop over the segments of the input. */
  method PushSegments(start: Path, segs: Path) returns (stack: Path)
    ensures stack == PushAll(start, segs)
  {
    stack := start;
    for i := 0 to |segs|
      invariant PushAll(stack, segs[i..]) == PushAll(start, segs)
    {
      assert segs[i..][1..] == segs[i + 1..] && segs[i..][0] == segs[i];
      if segs[i] == DOT_NAME {
      } else if segs[i] == DOT_DOT_NAME {
        if stack != [] {
          stack := stack[..|stack| - 1];
        }
      } else {
        stack := stack + [segs[i]];
      }
    }
  }

  /** The loop that spells the path. */
  method JoinStack(stack: Path) returns (out: Str)
    ensures out == JoinTail(stack)
  {
    out := [];
    for i := 0 to |stack|
      invariant out + JoinTail(stack[i..]) == JoinTail(stack)
    {
      assert stack[i..][1..] == stack[i + 1..] && stack[i..][0] == stack[i];
      ghost var before := out;
      out := out + [SLASH];
      out := out + stack[i];
      assert out + JoinTail(stack[i + 1..]) == before + ([SLASH] + stack[i] + JoinTail(stack[i + 1..]));
    }
  }
}
