/** Cluster chains in a file allocation table, as mathematics: what a chain is, what allocation and
    freeing do to the table, and how the number of free clusters moves. */
module Chains {
  import opened Layout

  /** A link that sends a reader on to another cluster. */
  predicate Follows(v: nat) {
    2 <= v < EOC_THRESHOLD
  }

  /** An end-of-chain terminated run of in-range clusters, each linked to the next. */
  ghost predicate IsChain(fat: seq<nat>, ch: seq<nat>) {
    && |ch| > 0
    && (forall i :: 0 <= i < |ch| ==> 2 <= ch[i] < |fat|)
    && (forall i :: 0 <= i < |ch| - 1 ==> fat[ch[i]] == ch[i + 1])
    && fat[ch[|ch| - 1]] >= EOC_THRESHOLD
  }

  ghost predicate Distinct<T>(s: seq<T>) {
    forall i, j :: 0 <= i < j < |s| ==> s[i] != s[j]
  }

  ghost predicate Increasing(s: seq<nat>) {
    forall i, j :: 0 <= i < j < |s| ==> s[i] < s[j]
  }

  ghost predicate Clusters(ch: seq<nat>, n: nat) {
    forall i :: 0 <= i < |ch| ==> 2 <= ch[i] < n
  }

  lemma ChainClusters(fat: seq<nat>, ch: seq<nat>)
    requires IsChain(fat, ch)
    ensures Clusters(ch, |fat|)
  {
  }

  /** A chain cannot come back to itself, because its end is marked. */
  lemma {:induction false} ChainStepsApart(fat: seq<nat>, ch: seq<nat>, i: nat, j: nat)
    requires |fat| < EOC_THRESHOLD && IsChain(fat, ch)
    requires i < j < |ch|
    ensures ch[i] != ch[j]
    decreases |ch| - j
  {
    assert fat[ch[i]] == ch[i + 1];
    if j + 1 < |ch| {
      ChainStepsApart(fat, ch, i + 1, j + 1);
    }
  }

  lemma ChainDistinct(fat: seq<nat>, ch: seq<nat>)
    requires |fat| < EOC_THRESHOLD && IsChain(fat, ch)
    ensures Distinct(ch)
  {
    forall i, j | 0 <= i < j < |ch|
      ensures ch[i] != ch[j]
    {
      ChainStepsApart(fat, ch, i, j);
    }
  }

  /** A head determines its chain. */
  lemma {:induction false} ChainUnique(fat: seq<nat>, a: seq<nat>, b: seq<nat>)
    requires |fat| < EOC_THRESHOLD && IsChain(fat, a) && IsChain(fat, b) && a[0] == b[0]
    ensures a == b
  {
    assert |a| > 1 ==> fat[a[0]] == a[1];
    assert |b| > 1 ==> fat[b[0]] == b[1];
    if |a| > 1 && |b| > 1 {
      ChainUnique(fat, a[1..], b[1..]);
      assert a == [a[0]] + a[1..] && b == [b[0]] + b[1..];
    }
  }

  /** A distinct sequence of numbers below `n` has at most `n` elements. */
  lemma {:induction false} Pigeonhole(s: seq<nat>, n: nat)
    requires Distinct(s) && forall i :: 0 <= i < |s| ==> s[i] < n
    ensures |s| <= n
  {
    if s != [] {
      assert 0 <= s[0] < n;
      if n - 1 in s {
        var k :| 0 <= k < |s| && s[k] == n - 1;
        Pigeonhole(s[..k] + s[k + 1..], n - 1);
      } else {
        Pigeonhole(s, n - 1);
      }
    }
  }

  lemma ChainShort(fat: seq<nat>, ch: seq<nat>)
    requires |fat| < EOC_THRESHOLD && IsChain(fat, ch)
    ensures |ch| <= |fat|
  {
    ChainDistinct(fat, ch);
    Pigeonhole(ch, |fat|);
  }

  /** A chain survives every change outside it. */
  lemma ChainKept(fat: seq<nat>, fat': seq<nat>, ch: seq<nat>)
    requires IsChain(fat, ch) && |fat'| == |fat|
    requires forall c :: c in ch ==> fat'[c] == fat[c]
    ensures IsChain(fat', ch)
  {
  }

  lemma ChainSuffix(fat: seq<nat>, ch: seq<nat>, k: nat)
    requires IsChain(fat, ch) && k < |ch|
    ensures IsChain(fat, ch[k..])
  {
  }

  /** Linking one fresh cluster behind the end of a chain. */
  lemma ChainGrown(fat: seq<nat>, ch: seq<nat>, c: nat)
    requires |fat| < EOC_THRESHOLD && IsChain(fat, ch) && 2 <= c < |fat| && c !in ch
    ensures IsChain(fat[c := END_OF_CHAIN][ch[|ch| - 1] := c], ch + [c])
  {
  }

  // ---- Free clusters ----

  /** The free clusters from `lo` on, in increasing order. */
  ghost function FreeFrom(fat: seq<nat>, lo: nat): seq<nat>
    decreases |fat| - lo
  {
    if lo >= |fat| then []
    else if fat[lo] == 0 then [lo] + FreeFrom(fat, lo + 1)
    else FreeFrom(fat, lo + 1)
  }

  lemma {:induction false} FreeFromSpec(fat: seq<nat>, lo: nat)
    ensures var r := FreeFrom(fat, lo);
            && (forall i :: 0 <= i < |r| ==> lo <= r[i] < |fat| && fat[r[i]] == 0)
            && Increasing(r)
            && (forall c :: lo <= c < |fat| && fat[c] == 0 ==> c in r)
    decreases |fat| - lo
  {
    if lo < |fat| {
      FreeFromSpec(fat, lo + 1);
      if fat[lo] == 0 {
        FreeFromCons(fat, lo, FreeFrom(fat, lo + 1));
      }
    }
  }

  lemma FreeFromCons(fat: seq<nat>, lo: nat, rest: seq<nat>)
    requires lo < |fat| && fat[lo] == 0 && Increasing(rest)
    requires forall i :: 0 <= i < |rest| ==> lo < rest[i] < |fat| && fat[rest[i]] == 0
    requires forall c :: lo < c < |fat| && fat[c] == 0 ==> c in rest
    ensures Increasing([lo] + rest)
    ensures forall i :: 0 <= i < |rest| + 1 ==> lo <= ([lo] + rest)[i] < |fat| && fat[([lo] + rest)[i]] == 0
    ensures forall c :: lo <= c < |fat| && fat[c] == 0 ==> c in [lo] + rest
  {
  }

  ghost function FreeList(fat: seq<nat>): seq<nat> {
    FreeFrom(fat, 2)
  }

  ghost function FreeCount(fat: seq<nat>): nat {
    |FreeList(fat)|
  }

  /** The list depends only on which entries are zero. */
  lemma {:induction false} FreeFromSame(fat: seq<nat>, fat': seq<nat>, lo: nat)
    requires |fat'| == |fat|
    requires forall c :: lo <= c < |fat| ==> (fat'[c] == 0 <==> fat[c] == 0)
    ensures FreeFrom(fat', lo) == FreeFrom(fat, lo)
    decreases |fat| - lo
  {
    if lo < |fat| {
      FreeFromSame(fat, fat', lo + 1);
    }
  }

  /** Nothing before `c` is free: the list from `lo` is the list from `c`. */
  lemma {:induction false} FreeFromSkip(fat: seq<nat>, lo: nat, c: nat)
    requires lo <= c <= |fat|
    requires forall x :: lo <= x < c ==> fat[x] != 0
    ensures FreeFrom(fat, lo) == FreeFrom(fat, c)
    decreases c - lo
  {
    if lo < c {
      FreeFromSkip(fat, lo + 1, c);
    }
  }

  /** Taking the least free cluster removes the first element of the list. */
  lemma TakeFirstFree(fat: seq<nat>, c: nat, v: nat)
    requires 2 <= c < |fat| && fat[c] == 0 && v != 0
    requires forall x :: 2 <= x < c ==> fat[x] != 0
    ensures FreeList(fat) == [c] + FreeFrom(fat, c + 1)
    ensures FreeList(fat[c := v]) == FreeFrom(fat, c + 1)
  {
    FreeFromSkip(fat, 2, c);
    FreeFromSkip(fat[c := v], 2, c);
    FreeFromSame(fat, fat[c := v], c + 1);
  }

  /** Clearing a used entry adds one free cluster. */
  lemma {:induction false} FreeCountClear(fat: seq<nat>, c: nat, lo: nat)
    requires lo <= c < |fat| && fat[c] != 0
    ensures |FreeFrom(fat[c := 0], lo)| == |FreeFrom(fat, lo)| + 1
    decreases c - lo
  {
    if lo < c {
      FreeCountClear(fat, c, lo + 1);
    } else {
      FreeFromSame(fat, fat[c := 0], lo + 1);
    }
  }

  // ---- Allocation ----

  ghost function SetLink(fat: seq<nat>, c: nat, v: nat): (r: seq<nat>)
    ensures |r| == |fat|
  {
    if c < |fat| then fat[c := v] else fat
  }

  /** The table after `ch` was taken, linked in order and terminated. */
  ghost function Linked(fat: seq<nat>, ch: seq<nat>): (r: seq<nat>)
    ensures |r| == |fat|
    decreases |ch|
  {
    if ch == [] then fat
    else
      var n := |ch| - 1;
      var marked := SetLink(Linked(fat, ch[..n]), ch[n], END_OF_CHAIN);
      if n == 0 then marked else SetLink(marked, ch[n - 1], ch[n])
  }

  lemma {:induction false} LinkedOutside(fat: seq<nat>, ch: seq<nat>, x: nat)
    requires x < |fat| && x !in ch
    ensures Linked(fat, ch)[x] == fat[x]
    decreases |ch|
  {
    if ch != [] {
      LinkedOutside(fat, ch[..|ch| - 1], x);
    }
  }

  lemma FrontApart(ch: seq<nat>, n: nat)
    requires ch != [] && Distinct(ch) && Clusters(ch, n)
    ensures var front, c := ch[..|ch| - 1], ch[|ch| - 1];
            Distinct(front) && Clusters(front, n) && c !in front && front + [c] == ch
  {
  }

  lemma {:induction false} LinkedSnocIsChain(fat: seq<nat>, front: seq<nat>, c: nat)
    requires |fat| < EOC_THRESHOLD && Clusters(front, |fat|) && 2 <= c < |fat| && c !in front
    requires front != [] ==> IsChain(Linked(fat, front), front)
    ensures IsChain(Linked(fat, front + [c]), front + [c])
  {
    LinkedTail(fat, front, c);
    if front != [] {
      ChainGrown(Linked(fat, front), front, c);
    }
  }

  /** The clusters taken by an allocation form one chain. */
  lemma {:induction false} LinkedIsChain(fat: seq<nat>, ch: seq<nat>)
    requires |fat| < EOC_THRESHOLD && ch != [] && Distinct(ch) && Clusters(ch, |fat|)
    ensures IsChain(Linked(fat, ch), ch)
    decreases |ch|
  {
    var front := ch[..|ch| - 1];
    FrontApart(ch, |fat|);
    if front != [] {
      LinkedIsChain(fat, front);
    }
    LinkedSnocIsChain(fat, front, ch[|ch| - 1]);
  }

  lemma LinkedTail(fat: seq<nat>, ch: seq<nat>, c: nat)
    requires c < |fat| && forall i :: 0 <= i < |ch| ==> ch[i] < |fat|
    ensures Linked(fat, ch + [c])
         == if ch == [] then fat[c := END_OF_CHAIN] else Linked(fat, ch)[c := END_OF_CHAIN][ch[|ch| - 1] := c]
  {
    var more := ch + [c];
    assert more[..|more| - 1] == ch;
    if ch != [] {
      assert more[|more| - 2] == ch[|ch| - 1];
    }
  }

  /** The last cluster of a new chain carries the end mark. */
  lemma LinkedEnd(fat: seq<nat>, ch: seq<nat>)
    requires ch != [] && Distinct(ch) && Clusters(ch, |fat|)
    ensures Linked(fat, ch)[ch[|ch| - 1]] == 0x0FFF_FFFF
  {
    FrontApart(ch, |fat|);
    LinkedTail(fat, ch[..|ch| - 1], ch[|ch| - 1]);
  }

  /** Taking the least free cluster and linking a used one to it pops the free list. */
  lemma FreeAfterLink(now: seq<nat>, c: nat, prev: nat)
    requires 2 <= c < |now| && now[c] == 0 && (forall x :: 2 <= x < c ==> now[x] != 0)
    requires prev < |now| && now[prev] != 0
    ensures FreeList(now) != [] && FreeList(now)[0] == c
    ensures FreeList(now[c := END_OF_CHAIN]) == FreeList(now)[1..]
    ensures FreeList(now[c := END_OF_CHAIN][prev := c]) == FreeList(now)[1..]
  {
    TakeFirstFree(now, c, END_OF_CHAIN);
    FreeFromSame(now[c := END_OF_CHAIN], now[c := END_OF_CHAIN][prev := c], 2);
  }

  /** One more round of allocation: the least free cluster is the next of the free list. */
  lemma AllocateStep(fat: seq<nat>, free: seq<nat>, taken: seq<nat>, c: nat)
    requires |fat| < EOC_THRESHOLD && taken != [] && taken <= free && Distinct(taken) && Clusters(taken, |fat|)
    requires FreeList(Linked(fat, taken)) == free[|taken|..]
    requires 2 <= c < |fat| && Linked(fat, taken)[c] == 0
    requires forall x :: 2 <= x < c ==> Linked(fat, taken)[x] != 0
    ensures taken + [c] <= free
    ensures Linked(fat, taken + [c]) == Linked(fat, taken)[c := END_OF_CHAIN][taken[|taken| - 1] := c]
    ensures FreeList(Linked(fat, taken + [c])) == free[|taken| + 1..]
  {
    var now := Linked(fat, taken);
    var prev := taken[|taken| - 1];
    assert now[prev] != 0 by { LinkedIsChain(fat, taken); }
    FreeAfterLink(now, c, prev);
    LinkedTail(fat, taken, c);
    assert free[|taken|..][1..] == free[|taken| + 1..];
  }

  lemma AllocateFirst(fat: seq<nat>, c: nat)
    requires 2 <= c < |fat| && fat[c] == 0 && (forall x :: 2 <= x < c ==> fat[x] != 0)
    ensures [c] <= FreeList(fat)
    ensures Linked(fat, [c]) == fat[c := END_OF_CHAIN]
    ensures FreeList(Linked(fat, [c])) == FreeList(fat)[1..]
  {
    TakeFirstFree(fat, c, END_OF_CHAIN);
    LinkedTail(fat, [], c);
    assert [] + [c] == [c];
  }

  lemma FreePrefix(fat: seq<nat>, n: nat)
    requires n <= FreeCount(fat)
    ensures var ch := FreeList(fat)[..n];
            && Clusters(ch, |fat|) && Increasing(ch) && Distinct(ch)
            && (forall i :: 0 <= i < |ch| ==> fat[ch[i]] == 0)
  {
    FreeFromSpec(fat, 2);
  }

  /** `allocate_chain(n)` takes the `n` least free clusters: they were free, they come back as one
      strictly increasing chain, and every other entry is unchanged. */
  lemma AllocationSound(fat: seq<nat>, n: nat, ch: seq<nat>)
    requires |fat| < EOC_THRESHOLD && 0 < n <= FreeCount(fat) && ch == FreeList(fat)[..n]
    ensures Clusters(ch, |fat|) && Increasing(ch) && forall i :: 0 <= i < |ch| ==> fat[ch[i]] == 0
    ensures IsChain(Linked(fat, ch), ch)
    ensures forall x :: 0 <= x < |fat| && x !in ch ==> Linked(fat, ch)[x] == fat[x]
  {
    FreePrefix(fat, n);
    LinkedIsChain(fat, ch);
    forall x | 0 <= x < |fat| && x !in ch
      ensures Linked(fat, ch)[x] == fat[x]
    {
      LinkedOutside(fat, ch, x);
    }
  }

  // ---- Freeing ----

  /** Number of used entries from `lo` on. */
  ghost function Used(fat: seq<nat>, lo: nat): nat
    decreases |fat| - lo
  {
    if lo >= |fat| then 0 else (if fat[lo] != 0 then 1 else 0) + Used(fat, lo + 1)
  }

  lemma {:induction false} UsedClear(fat: seq<nat>, c: nat, lo: nat)
    requires c < |fat| && fat[c] != 0
    ensures Used(fat[c := 0], lo) == if lo <= c then Used(fat, lo) - 1 else Used(fat, lo)
    decreases |fat| - lo
  {
    if lo < |fat| {
      UsedClear(fat, c, lo + 1);
    }
  }

  /** Every link of a cluster that is followed stays inside the table. Entries 0 and 1 are no clusters. */
  ghost predicate InRange(fat: seq<nat>) {
    forall c :: 2 <= c < |fat| && Follows(fat[c]) ==> fat[c] < |fat|
  }

  /** The table after `free_chain` ran from `c`, for any in-range content, cyclic or not, together with
      the number of loop rounds. */
  ghost function Freed(fat: seq<nat>, c: nat): (r: seq<nat>)
    requires InRange(fat) && (Follows(c) ==> c < |fat|)
    ensures |r| == |fat|
    decreases Used(fat, 0), if Follows(c) then 1 else 0
  {
    if !Follows(c) then fat
    else
      assert fat[c] != 0 ==> Used(fat[c := 0], 0) < Used(fat, 0) by {
        if fat[c] != 0 { UsedClear(fat, c, 0); }
      }
      assert fat[c] == 0 ==> fat[c := 0] == fat;
      Freed(fat[c := 0], fat[c])
  }

  ghost function FreedRounds(fat: seq<nat>, c: nat): nat
    requires InRange(fat) && (Follows(c) ==> c < |fat|)
    decreases Used(fat, 0), if Follows(c) then 1 else 0
  {
    if !Follows(c) then 0
    else
      assert fat[c] != 0 ==> Used(fat[c := 0], 0) < Used(fat, 0) by {
        if fat[c] != 0 { UsedClear(fat, c, 0); }
      }
      assert fat[c] == 0 ==> fat[c := 0] == fat;
      1 + FreedRounds(fat[c := 0], fat[c])
  }

  /** `p` follows links from `c` to `x`. */
  ghost predicate IsPath(fat: seq<nat>, c: nat, p: seq<nat>, x: nat) {
    && |p| > 0 && p[0] == c && p[|p| - 1] == x
    && (forall i :: 0 <= i < |p| ==> Follows(p[i]) && p[i] < |fat|)
    && (forall i :: 0 <= i < |p| - 1 ==> fat[p[i]] == p[i + 1])
  }

  ghost predicate Reaches(fat: seq<nat>, c: nat, x: nat) {
    exists p :: IsPath(fat, c, p, x)
  }

  /** What is reachable from `c` is `c` itself and what its link reaches once `c` is cut out. */
  lemma ReachesUnfold(fat: seq<nat>, c: nat, x: nat)
    requires InRange(fat) && Follows(c) && c < |fat|
    ensures Reaches(fat, c, x) <==> x == c || Reaches(fat[c := 0], fat[c], x)
  {
    if x == c {
      assert IsPath(fat, c, [c], c);
    } else if Reaches(fat, c, x) {
      var p :| IsPath(fat, c, p, x);
      ReachesAfterCut(fat, c, p, x);
    } else if Reaches(fat[c := 0], fat[c], x) {
      var p :| IsPath(fat[c := 0], fat[c], p, x);
      assert IsPath(fat, c, [c] + p, x);
    }
  }

  /** Drop everything up to the last visit of `c`; the rest never meets `c` again. */
  lemma {:induction false} ReachesAfterCut(fat: seq<nat>, c: nat, p: seq<nat>, x: nat)
    requires Follows(c) && c < |fat| && x != c && IsPath(fat, c, p, x)
    ensures Reaches(fat[c := 0], fat[c], x)
    decreases |p|
  {
    if c in p[1..] {
      var k :| 0 <= k < |p[1..]| && p[1..][k] == c;
      assert p[k + 1..][0] == c;
      ReachesAfterCut(fat, c, p[k + 1..], x);
    } else {
      var q := p[1..];
      assert |p| > 1;
      forall i | 0 <= i < |q| - 1
        ensures fat[c := 0][q[i]] == q[i + 1]
      {
        assert q[i] in q;
      }
      assert IsPath(fat[c := 0], fat[c], q, x);
    }
  }

  /** `free_chain` clears exactly the clusters reachable from its start, whatever the table holds. */
  lemma {:induction false} FreedExactly(fat: seq<nat>, c: nat, x: nat)
    requires InRange(fat) && (Follows(c) ==> c < |fat|) && x < |fat|
    ensures Freed(fat, c)[x] == if Reaches(fat, c, x) then 0 else fat[x]
    decreases Used(fat, 0), if Follows(c) then 1 else 0
  {
    if Follows(c) {
      if fat[c] != 0 {
        UsedClear(fat, c, 0);
      } else {
        assert fat[c := 0] == fat;
      }
      ReachesUnfold(fat, c, x);
      FreedExactly(fat[c := 0], fat[c], x);
    }
  }

  /** A start below 2, or from the end marks on, frees nothing; any other start is freed itself. */
  lemma FreedStart(fat: seq<nat>, c: nat)
    requires InRange(fat) && (Follows(c) ==> c < |fat|)
    ensures c < 2 || c >= 0x0FFF_FFF8 ==> Freed(fat, c) == fat && FreedRounds(fat, c) == 0
    ensures 2 <= c < 0x0FFF_FFF8 ==> c < |fat| && Freed(fat, c)[c] == 0 && FreedRounds(fat, c) > 0
  {
    if Follows(c) {
      FreedExactly(fat, c, c);
      assert IsPath(fat, c, [c], c);
    }
  }

  /** The table with the clusters of `ch` cleared. */
  ghost function Cleared(fat: seq<nat>, ch: seq<nat>): (r: seq<nat>)
    ensures |r| == |fat|
    ensures forall x :: 0 <= x < |fat| ==> r[x] == if x in ch then 0 else fat[x]
  {
    seq(|fat|, x requires 0 <= x < |fat| => if x in ch then 0 else fat[x])
  }

  lemma ClearedStep(fat: seq<nat>, ch: seq<nat>, k: nat)
    requires k < |ch| && ch[k] < |fat|
    ensures Cleared(fat, ch[..k])[ch[k] := 0] == Cleared(fat, ch[..k + 1])
  {
  }

  /** Clearing a chain returns as many clusters as it had. */
  lemma {:induction false} ClearedCount(fat: seq<nat>, ch: seq<nat>)
    requires Distinct(ch) && forall i :: 0 <= i < |ch| ==> 2 <= ch[i] < |fat| && fat[ch[i]] != 0
    ensures FreeCount(Cleared(fat, ch)) == FreeCount(fat) + |ch|
    decreases |ch|
  {
    if ch == [] {
      assert Cleared(fat, ch) == fat;
    } else {
      var n := |ch| - 1;
      ClearedCount(fat, ch[..n]);
      ClearedStep(fat, ch, n);
      assert ch[..n + 1] == ch;
      assert ch[n] !in ch[..n];
      FreeCountClear(Cleared(fat, ch[..n]), ch[n], 2);
    }
  }

  lemma ChainUsed(fat: seq<nat>, ch: seq<nat>)
    requires IsChain(fat, ch)
    ensures forall i :: 0 <= i < |ch| ==> fat[ch[i]] != 0
  {
    forall i | 0 <= i < |ch|
      ensures fat[ch[i]] != 0
    {
      assert i < |ch| - 1 ==> fat[ch[i]] == ch[i + 1];
    }
  }

  /** On a chain, `free_chain` clears the chain, one round per cluster. */
  lemma {:induction false} FreedChain(fat: seq<nat>, ch: seq<nat>)
    requires |fat| < EOC_THRESHOLD && InRange(fat) && IsChain(fat, ch)
    ensures Freed(fat, ch[0]) == Cleared(fat, ch) && FreedRounds(fat, ch[0]) == |ch|
    decreases |ch|
  {
    ChainDistinct(fat, ch);
    var cut := fat[ch[0] := 0];
    if |ch| > 1 {
      var rest := ch[1..];
      assert ch[0] !in rest;
      ChainSuffix(fat, ch, 1);
      ChainKept(fat, cut, rest);
      FreedChain(cut, rest);
      assert Cleared(cut, rest) == Cleared(fat, ch);
    } else {
      assert Cleared(fat, ch) == cut;
    }
  }

  lemma LinkedInRange(fat: seq<nat>, ch: seq<nat>)
    requires |fat| < EOC_THRESHOLD && InRange(fat) && Clusters(ch, |fat|) && IsChain(Linked(fat, ch), ch)
    requires forall x :: 0 <= x < |fat| && x !in ch ==> Linked(fat, ch)[x] == fat[x]
    ensures InRange(Linked(fat, ch))
  {
    var fat' := Linked(fat, ch);
    forall c | 2 <= c < |fat| && Follows(fat'[c])
      ensures fat'[c] < |fat|
    {
      if c in ch {
        var i :| 0 <= i < |ch| && ch[i] == c;
        assert i < |ch| - 1 ==> fat'[ch[i]] == ch[i + 1];
      }
    }
  }

  /** Freeing what was just allocated restores the table. */
  lemma AllocateThenFree(fat: seq<nat>, n: nat, ch: seq<nat>)
    requires |fat| < EOC_THRESHOLD && InRange(fat) && 0 < n <= FreeCount(fat) && ch == FreeList(fat)[..n]
    ensures Clusters(ch, |fat|) && InRange(Linked(fat, ch)) && ch[0] < |fat|
    ensures Freed(Linked(fat, ch), ch[0]) == fat
  {
    AllocationSound(fat, n, ch);
    LinkedInRange(fat, ch);
    FreedChain(Linked(fat, ch), ch);
    assert Cleared(Linked(fat, ch), ch) == fat;
  }
}
