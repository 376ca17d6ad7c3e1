/** A directory as one flat sequence of slots, hung over the clusters of its chain. */
module Slots {
  import opened Bytes
  import opened Layout
  import opened Chains
  import opened ShortNames

  // ---- Chains of cluster data ----

  /** Every data cluster holds `cb` bytes, a whole number of slots. */
  ghost predicate Sized(data: seq<seq<byte>>, cb: nat) {
    && cb > 0 && cb % 32 == 0
    && forall c :: 2 <= c < |data| ==> |data[c]| == cb
  }

  /** The bytes of a chain, cluster after cluster. */
  ghost function ChainBytes(data: seq<seq<byte>>, ch: seq<nat>): seq<byte>
    requires Clusters(ch, |data|)
  {
    if ch == [] then [] else data[ch[0]] + ChainBytes(data, ch[1..])
  }

  lemma {:induction false} ChainBytesLength(data: seq<seq<byte>>, ch: seq<nat>, cb: nat)
    requires Sized(data, cb) && Clusters(ch, |data|)
    ensures |ChainBytes(data, ch)| == |ch| * cb
  {
    if ch != [] {
      ChainBytesLength(data, ch[1..], cb);
      MulStep(|ch| - 1, cb);
    }
  }

  /** Byte `b` of cluster `m` of a chain. */
  lemma {:induction false} ChainByteAt(data: seq<seq<byte>>, ch: seq<nat>, cb: nat, m: nat, b: nat)
    requires Sized(data, cb) && Clusters(ch, |data|) && m < |ch| && b < cb
    ensures m * cb + b < |ChainBytes(data, ch)| && ChainBytes(data, ch)[m * cb + b] == data[ch[m]][b]
  {
    if m > 0 {
      ChainByteAt(data, ch[1..], cb, m - 1, b);
      MulStep(m - 1, cb);
    }
  }

  lemma {:induction false} ChainBytesConcat(data: seq<seq<byte>>, a: seq<nat>, b: seq<nat>)
    requires Clusters(a, |data|) && Clusters(b, |data|)
    ensures Clusters(a + b, |data|) && ChainBytes(data, a + b) == ChainBytes(data, a) + ChainBytes(data, b)
  {
    if a == [] {
      assert a + b == b;
    } else {
      assert (a + b)[1..] == a[1..] + b;
      ChainBytesConcat(data, a[1..], b);
    }
  }

  lemma {:induction false} ChainBytesKept(data: seq<seq<byte>>, data': seq<seq<byte>>, ch: seq<nat>)
    requires |data'| == |data| && Clusters(ch, |data|)
    requires forall c :: c in ch ==> data'[c] == data[c]
    ensures ChainBytes(data', ch) == ChainBytes(data, ch)
  {
    if ch != [] {
      assert ch[0] in ch;
      ChainBytesKept(data, data', ch[1..]);
    }
  }

  // ---- Slots ----

  /** The slots of a run of bytes (`chunks_exact(32)`). */
  function SlotsOf(bytes: seq<byte>): (r: seq<Slot>)
    ensures |r| == |bytes| / 32
    ensures forall k :: 0 <= k < |r| ==> r[k] == bytes[32 * k..32 * k + 32]
  {
    seq(|bytes| / 32, k requires 0 <= k < |bytes| / 32 => bytes[32 * k..32 * k + 32])
  }

  lemma SliceLeft(a: seq<byte>, b: seq<byte>, i: nat, j: nat)
    requires i <= j <= |a|
    ensures (a + b)[i..j] == a[i..j]
  {
  }

  lemma SliceRight(a: seq<byte>, b: seq<byte>, i: nat, j: nat)
    requires i <= j <= |b|
    ensures (a + b)[|a| + i..|a| + j] == b[i..j]
  {
  }

  lemma SlotsConcat(a: seq<byte>, b: seq<byte>)
    requires |a| % 32 == 0
    ensures SlotsOf(a + b) == SlotsOf(a) + SlotsOf(b)
  {
    var n := |a| / 32;
    assert 32 * n == |a| && |a + b| / 32 == n + |b| / 32;
    forall k | 0 <= k < |a + b| / 32
      ensures SlotsOf(a + b)[k] == (SlotsOf(a) + SlotsOf(b))[k]
    {
      if k < n {
        SliceLeft(a, b, 32 * k, 32 * k + 32);
      } else {
        SliceRight(a, b, 32 * (k - n), 32 * (k - n) + 32);
      }
    }
  }

  lemma SlotsSplice(bytes: seq<byte>, j: nat, s: Slot)
    requires 32 * j + 32 <= |bytes|
    ensures SlotsOf(Splice(bytes, 32 * j, s)) == SlotsOf(bytes)[j := s]
  {
    var bytes' := Splice(bytes, 32 * j, s);
    forall k | 0 <= k < |bytes| / 32
      ensures SlotsOf(bytes')[k] == SlotsOf(bytes)[j := s][k]
    {
      if k == j {
        assert bytes'[32 * k..32 * k + 32] == s;
      } else {
        assert bytes'[32 * k..32 * k + 32] == bytes[32 * k..32 * k + 32];
      }
    }
  }

  /** The slots of a directory whose clusters are `ch`. */
  ghost function DirSlots(data: seq<seq<byte>>, ch: seq<nat>): seq<Slot>
    requires Clusters(ch, |data|)
  {
    if ch == [] then [] else SlotsOf(data[ch[0]]) + DirSlots(data, ch[1..])
  }

  /** Reading the whole chain and cutting it into slots gives the directory's slots. */
  lemma {:induction false} SlotsOfChain(data: seq<seq<byte>>, ch: seq<nat>, cb: nat)
    requires Sized(data, cb) && Clusters(ch, |data|)
    ensures SlotsOf(ChainBytes(data, ch)) == DirSlots(data, ch)
  {
    if ch != [] {
      SlotsConcat(data[ch[0]], ChainBytes(data, ch[1..]));
      SlotsOfChain(data, ch[1..], cb);
    }
  }

  lemma {:induction false} DirSlotsConcat(data: seq<seq<byte>>, a: seq<nat>, b: seq<nat>)
    requires Clusters(a, |data|) && Clusters(b, |data|)
    ensures Clusters(a + b, |data|) && DirSlots(data, a + b) == DirSlots(data, a) + DirSlots(data, b)
  {
    if a == [] {
      assert a + b == b;
    } else {
      assert (a + b)[1..] == a[1..] + b;
      DirSlotsConcat(data, a[1..], b);
    }
  }

  lemma {:induction false} DirSlotsKept(data: seq<seq<byte>>, data': seq<seq<byte>>, ch: seq<nat>)
    requires |data'| == |data| && Clusters(ch, |data|)
    requires forall c :: c in ch ==> data'[c] == data[c]
    ensures DirSlots(data', ch) == DirSlots(data, ch)
  {
    if ch != [] {
      assert ch[0] in ch;
      DirSlotsKept(data, data', ch[1..]);
    }
  }

  /** Where the slots of cluster `m` of the chain start. */
  ghost function Base(data: seq<seq<byte>>, ch: seq<nat>, m: nat): nat
    requires Clusters(ch, |data|) && m <= |ch|
  {
    |DirSlots(data, ch[..m])|
  }

  lemma BaseNext(data: seq<seq<byte>>, ch: seq<nat>, m: nat)
    requires Clusters(ch, |data|) && m < |ch|
    ensures Base(data, ch, m + 1) == Base(data, ch, m) + |SlotsOf(data[ch[m]])|
  {
    assert ch[..m + 1] == ch[..m] + [ch[m]];
    DirSlotsConcat(data, ch[..m], [ch[m]]);
    assert DirSlots(data, [ch[m]]) == SlotsOf(data[ch[m]]);
  }

  lemma Middle<T>(a: seq<T>, b: seq<T>, c: seq<T>)
    ensures (a + (b + c))[|a|..|a| + |b|] == b
  {
  }

  /** The slots of cluster `m` sit at its base. */
  lemma DirSlotsAt(data: seq<seq<byte>>, ch: seq<nat>, m: nat)
    requires Clusters(ch, |data|) && m < |ch|
    ensures var slots, here := DirSlots(data, ch), SlotsOf(data[ch[m]]);
            && Base(data, ch, m + 1) == Base(data, ch, m) + |here| <= |slots|
            && slots[Base(data, ch, m)..Base(data, ch, m + 1)] == here
  {
    DirSlotsSplit(data, ch, m);
    BaseNext(data, ch, m);
    Middle(DirSlots(data, ch[..m]), SlotsOf(data[ch[m]]), DirSlots(data, ch[m + 1..]));
  }

  /** Changing one cluster of a chain changes only its own stretch of slots. */
  lemma DirSlotsUpdate(data: seq<seq<byte>>, data': seq<seq<byte>>, ch: seq<nat>, m: nat)
    requires Clusters(ch, |data|) && Distinct(ch) && m < |ch| && |data'| == |data|
    requires forall c :: 0 <= c < |data| && c != ch[m] ==> data'[c] == data[c]
    ensures DirSlots(data', ch)
         == DirSlots(data, ch[..m]) + (SlotsOf(data'[ch[m]]) + DirSlots(data, ch[m + 1..]))
  {
    assert ch[m] !in ch[..m] && ch[m] !in ch[m + 1..];
    DirSlotsKept(data, data', ch[..m]);
    DirSlotsKept(data, data', ch[m + 1..]);
    DirSlotsSplit(data', ch, m);
  }

  lemma DirSlotsSplit(data: seq<seq<byte>>, ch: seq<nat>, m: nat)
    requires Clusters(ch, |data|) && m < |ch|
    ensures DirSlots(data, ch) == DirSlots(data, ch[..m]) + (SlotsOf(data[ch[m]]) + DirSlots(data, ch[m + 1..]))
  {
    assert ch == ch[..m] + ch[m..];
    DirSlotsConcat(data, ch[..m], ch[m..]);
    assert ch[m..][1..] == ch[m + 1..];
  }

  lemma BaseEnd(data: seq<seq<byte>>, ch: seq<nat>)
    requires Clusters(ch, |data|)
    ensures Base(data, ch, 0) == 0 && Base(data, ch, |ch|) == |DirSlots(data, ch)|
  {
    assert ch[..|ch|] == ch;
  }

  /** `data'` is `data` with slot `k` of the directory `ch` replaced by `s`, and nothing else changed. */
  ghost predicate SlotWritten(data: seq<seq<byte>>, data': seq<seq<byte>>, ch: seq<nat>, k: nat, s: Slot)
    requires Clusters(ch, |data|)
  {
    && |data'| == |data|
    && k < |DirSlots(data, ch)|
    && DirSlots(data', ch) == DirSlots(data, ch)[k := s]
    && (forall c :: 0 <= c < |data| && c !in ch ==> data'[c] == data[c])
    && (forall c :: 0 <= c < |data| ==> |data'[c]| == |data[c]|)
  }

  lemma PrefixUpdate<T>(a: seq<T>, b: seq<T>, c: seq<T>, j: nat, x: T)
    requires j < |b|
    ensures a + (b[j := x] + c) == (a + (b + c))[|a| + j := x]
  {
  }

  /** Splicing a slot into one cluster of the chain writes exactly that slot of the directory. */
  lemma SlotWrite(data: seq<seq<byte>>, ch: seq<nat>, m: nat, j: nat, s: Slot)
    requires Clusters(ch, |data|) && Distinct(ch) && m < |ch| && 32 * j + 32 <= |data[ch[m]]|
    ensures SlotWritten(data, data[ch[m] := Splice(data[ch[m]], 32 * j, s)], ch, Base(data, ch, m) + j, s)
  {
    var c := ch[m];
    var data' := data[c := Splice(data[c], 32 * j, s)];
    DirSlotsUpdate(data, data', ch, m);
    DirSlotsSplit(data, ch, m);
    SlotsSplice(data[c], j, s);
    PrefixUpdate(DirSlots(data, ch[..m]), SlotsOf(data[c]), DirSlots(data, ch[m + 1..]), j, s);
    assert c in ch;
  }
}
