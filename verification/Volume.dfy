/** The block-level half of the FAT driver: reading and patching FAT entries, FSInfo, clusters and
    whole chains. Every method is specified by what it does to the `Vol` its blocks stand for. */
module Volume {
  import opened Bytes
  import opened Results
  import opened Layout
  import opened Chains
  import opened Slots
  import opened ShortNames
  import opened Directory

  const USIZE_MAX: nat := 0xFFFF_FFFF_FFFF_FFFF

  /** FSInfo after `delta` clusters were freed (negative: taken), the last of them `last`. */
  function InfoAfter(info: FsInfo, delta: int, last: u32): FsInfo {
    if !info.signed then info
    else
      var free := if info.free == UNKNOWN_COUNT then info.free
                  else (if info.free + delta < 0 then 0 else info.free + delta) % 0x1_0000_0000;
      FsInfo(true, free, if last != 0 then last else info.hint)
  }

  /** What an update does to FSInfo: nothing without the signatures; otherwise the hint becomes the last cluster
      taken, if one was, and a known count moves by `delta` but not below zero. */
  lemma InfoMoves(info: FsInfo, delta: int, last: u32)
    ensures var after := InfoAfter(info, delta, last);
            && (!info.signed ==> after == info)
            && (info.signed ==> after.signed && after.hint == if last == 0 then info.hint else last)
            && (info.free == 0xFFFF_FFFF ==> after.free == 0xFFFF_FFFF)
            && (info.signed && info.free != 0xFFFF_FFFF && 0 <= info.free + delta < 0x1_0000_0000 ==>
                  after.free == info.free + delta)
            && (info.signed && info.free != 0xFFFF_FFFF && info.free + delta < 0 ==> after.free == 0)
  {
  }

  /** `data` with the clusters of `ch` filled with zeros. */
  ghost function Zeroed(data: seq<seq<byte>>, ch: seq<nat>, cb: nat): (r: seq<seq<byte>>)
    ensures |r| == |data|
    ensures forall c :: 0 <= c < |data| ==> r[c] == if c in ch then Zeros(cb) else data[c]
  {
    seq(|data|, c requires 0 <= c < |data| => if c in ch then Zeros(cb) else data[c])
  }

  lemma ZeroedSnoc(data: seq<seq<byte>>, ch: seq<nat>, c: nat, cb: nat)
    requires c < |data|
    ensures Zeroed(data, ch, cb)[c := Zeros(cb)] == Zeroed(data, ch + [c], cb)
  {
  }

  /** A chunk padded with zeros to a whole cluster. */
  function Padded(chunk: seq<byte>, cb: nat): (r: seq<byte>)
    requires |chunk| <= cb
    ensures |r| == cb && chunk <= r && forall k :: |chunk| <= k < cb ==> r[k] == 0
  {
    chunk + Zeros(cb - |chunk|)
  }

  /** The data after `bytes` was written along the chain `ch`. */
  ghost function Stored(data: seq<seq<byte>>, ch: seq<nat>, bytes: seq<byte>, cb: nat): (r: seq<seq<byte>>)
    requires cb > 0 && Clusters(ch, |data|)
    ensures |r| == |data|
    decreases |ch|
  {
    if ch == [] || bytes == [] then data
    else
      var n := if |bytes| < cb then |bytes| else cb;
      Stored(data[ch[0] := Padded(bytes[..n], cb)], ch[1..], bytes[n..], cb)
  }

  lemma {:induction false} StoredOutside(data: seq<seq<byte>>, ch: seq<nat>, bytes: seq<byte>, cb: nat, c: nat)
    requires cb > 0 && Clusters(ch, |data|) && c < |data| && c !in ch
    ensures Stored(data, ch, bytes, cb)[c] == data[c]
    decreases |ch|
  {
    if ch != [] && bytes != [] {
      var n := if |bytes| < cb then |bytes| else cb;
      StoredOutside(data[ch[0] := Padded(bytes[..n], cb)], ch[1..], bytes[n..], cb, c);
    }
  }

  lemma {:induction false} StoredSized(data: seq<seq<byte>>, ch: seq<nat>, bytes: seq<byte>, cb: nat)
    requires Sized(data, cb) && Clusters(ch, |data|)
    ensures Sized(Stored(data, ch, bytes, cb), cb)
    decreases |ch|
  {
    if ch != [] && bytes != [] {
      var n := if |bytes| < cb then |bytes| else cb;
      StoredSized(data[ch[0] := Padded(bytes[..n], cb)], ch[1..], bytes[n..], cb);
    }
  }

  /** What was written along a long enough chain is read back from it. */
  lemma {:induction false} StoredReads(data: seq<seq<byte>>, ch: seq<nat>, bytes: seq<byte>, cb: nat)
    requires Sized(data, cb) && Clusters(ch, |data|) && Distinct(ch) && |bytes| <= |ch| * cb
    ensures bytes <= ChainBytes(Stored(data, ch, bytes, cb), ch)
    decreases |ch|
  {
    if ch == [] {
      assert |ch| * cb == 0;
    } else if bytes != [] {
      var n := if |bytes| < cb then |bytes| else cb;
      var data' := data[ch[0] := Padded(bytes[..n], cb)];
      MulStep(|ch| - 1, cb);
      StoredReads(data', ch[1..], bytes[n..], cb);
      assert ch[0] !in ch[1..];
      StoredOutside(data', ch[1..], bytes[n..], cb, ch[0]);
      StoredFront(data', ch, bytes, n, cb);
    }
  }

  lemma StoredFront(data': seq<seq<byte>>, ch: seq<nat>, bytes: seq<byte>, n: nat, cb: nat)
    requires cb > 0 && Clusters(ch, |data'|) && ch != [] && n <= |bytes| && n <= cb
    requires var r := Stored(data', ch[1..], bytes[n..], cb);
             r[ch[0]] == Padded(bytes[..n], cb) && bytes[n..] <= ChainBytes(r, ch[1..])
    requires n == cb || n == |bytes|
    ensures bytes <= ChainBytes(Stored(data', ch[1..], bytes[n..], cb), ch)
  {
    var r := Stored(data', ch[1..], bytes[n..], cb);
    if n == cb {
      assert Padded(bytes[..n], cb) == bytes[..n];
    }
    PrefixConcat(bytes, n, r[ch[0]], ChainBytes(r, ch[1..]));
  }

  lemma PrefixConcat(bytes: seq<byte>, n: nat, x: seq<byte>, y: seq<byte>)
    requires n <= |bytes| && bytes[..n] <= x && bytes[n..] <= y && (n == |x| || n == |bytes|)
    ensures bytes <= x + y
  {
  }

  // ---- Allocation, round by round ----

  /** Volume `v` after the clusters `taken` of its free list were marked, zeroed and linked. */
  ghost function Allocated(v: Vol, taken: seq<nat>, cb: nat): Vol {
    v.(fat := Linked(v.fat, taken), data := Zeroed(v.data, taken, cb))
  }

  ghost predicate AllocState(v: Vol, taken: seq<nat>) {
    && |v.fat| == |v.data| && |v.fat| < EOC_THRESHOLD
    && taken <= FreeList(v.fat)
    && FreeList(Linked(v.fat, taken)) == FreeList(v.fat)[|taken|..]
  }

  lemma AllocStart(v: Vol, cb: nat)
    requires |v.fat| == |v.data| && |v.fat| < EOC_THRESHOLD
    ensures AllocState(v, []) && Allocated(v, [], cb) == v
  {
  }

  /** Marking and zeroing the least free cluster, and linking its predecessor to it. */
  lemma AllocNext(v: Vol, taken: seq<nat>, c: nat, cb: nat)
    requires AllocState(v, taken) && 2 <= c < |v.fat| && (taken != [] ==> taken[|taken| - 1] < |v.fat|)
    requires var fat := Linked(v.fat, taken); fat[c] == 0 && forall x :: 2 <= x < c ==> fat[x] != 0
    ensures AllocState(v, taken + [c])
    ensures var now := Allocated(v, taken, cb);
            var marked := now.(fat := now.fat[c := END_OF_CHAIN], data := now.data[c := Zeros(cb)]);
            Allocated(v, taken + [c], cb)
            == if taken == [] then marked else marked.(fat := marked.fat[taken[|taken| - 1] := c])
  {
    ZeroedSnoc(v.data, taken, c, cb);
    FreePrefix(v.fat, |taken|);
    assert FreeList(v.fat)[..|taken|] == taken;
    AllocRound(v.fat, taken, c);
  }

  lemma AllocRound(fat: seq<nat>, taken: seq<nat>, c: nat)
    requires |fat| < EOC_THRESHOLD && taken <= FreeList(fat) && Clusters(taken, |fat|) && Distinct(taken)
    requires FreeList(Linked(fat, taken)) == FreeList(fat)[|taken|..] && 2 <= c < |fat|
    requires Linked(fat, taken)[c] == 0 && forall x :: 2 <= x < c ==> Linked(fat, taken)[x] != 0
    ensures taken + [c] <= FreeList(fat)
    ensures FreeList(Linked(fat, taken + [c])) == FreeList(fat)[|taken + [c]|..]
    ensures Linked(fat, taken + [c])
         == if taken == [] then Linked(fat, taken)[c := END_OF_CHAIN]
            else Linked(fat, taken)[c := END_OF_CHAIN][taken[|taken| - 1] := c]
  {
    if taken == [] {
      AllocateFirst(fat, c);
      assert taken + [c] == [c];
    } else {
      AllocateStep(fat, FreeList(fat), taken, c);
    }
  }

  /** When nothing is free any more, everything was taken. */
  lemma AllocExhausted(v: Vol, taken: seq<nat>)
    requires AllocState(v, taken)
    requires forall x :: 2 <= x < |v.fat| ==> Linked(v.fat, taken)[x] != 0
    ensures taken == FreeList(v.fat)
  {
    var now := Linked(v.fat, taken);
    if 2 <= |now| {
      FreeFromSkip(now, 2, |now|);
    }
    assert FreeList(now) == [];
  }

  /** The clusters `allocate_chain(count)` takes. */
  ghost function Taken(fat: seq<nat>, count: nat): seq<nat> {
    if count <= FreeCount(fat) then FreeList(fat)[..count] else FreeList(fat)
  }

  /** The volume after `allocate_chain(count)`. */
  ghost function AllocOutcome(v: Vol, count: nat, cb: nat): Vol {
    var free := FreeList(v.fat);
    if count == 0 then v
    else if count <= |free| then
      Allocated(v, free[..count], cb).(info := InfoAfter(v.info, 0 - count, free[count - 1] % 0x1_0000_0000))
    else Allocated(v, free, cb)
  }

  ghost function AllocResult(fat: seq<nat>, count: nat): Result<nat> {
    var free := FreeList(fat);
    if count == 0 then Ok(0)
    else if count <= |free| then Ok(free[0])
    else Err(Io)
  }

  /** A successful allocation: the least free clusters as one chain with the end mark, each filled with zeros, and
      in a signed FSInfo the last of them as the hint. */
  lemma AllocMeans(v: Vol, count: nat, cb: nat, ch: seq<nat>)
    requires |v.fat| == |v.data| && |v.fat| < EOC_THRESHOLD && 0 < count <= FreeCount(v.fat)
    requires ch == FreeList(v.fat)[..count]
    ensures var o := AllocOutcome(v, count, cb);
            && IsChain(o.fat, ch) && o.fat[ch[count - 1]] == 0x0FFF_FFFF && Clusters(ch, |o.data|)
            && (forall i :: 0 <= i < count ==> o.data[ch[i]] == Zeros(cb))
            && (v.info.signed ==> o.info.hint == ch[count - 1])
            && AllocResult(v.fat, count) == Ok(ch[0])
  {
    var o := AllocOutcome(v, count, cb);
    assert IsChain(Linked(v.fat, ch), ch) && Clusters(ch, |v.fat|) by { AllocationSound(v.fat, count, ch); }
    assert Linked(v.fat, ch)[ch[count - 1]] == 0x0FFF_FFFF by {
      FreePrefix(v.fat, count);
      LinkedEnd(v.fat, ch);
    }
    assert o.fat == Linked(v.fat, ch) && o.data == Zeroed(v.data, ch, cb);
    assert o.info == InfoAfter(v.info, 0 - count, ch[count - 1] % 0x1_0000_0000);
  }

  lemma AllocDone(v: Vol, taken: seq<nat>, cb: nat)
    requires AllocState(v, taken) && taken != []
    ensures var last := taken[|taken| - 1];
            && last < 0x1_0000_0000
            && AllocOutcome(v, |taken|, cb) == Allocated(v, taken, cb).(info := InfoAfter(v.info, 0 - |taken|, last))
            && AllocResult(v.fat, |taken|) == Ok(taken[0]) && Taken(v.fat, |taken|) == taken
  {
    FreePrefix(v.fat, |taken|);
    assert FreeList(v.fat)[..|taken|] == taken;
  }

  lemma AllocFailed(v: Vol, taken: seq<nat>, count: nat, cb: nat)
    requires AllocState(v, taken) && |taken| < count
    requires forall x :: 2 <= x < |v.fat| ==> Linked(v.fat, taken)[x] != 0
    ensures AllocOutcome(v, count, cb) == Allocated(v, taken, cb) && AllocResult(v.fat, count) == Err(Io)
    ensures Taken(v.fat, count) == taken
  {
    AllocExhausted(v, taken);
  }

  // ---- Directory slots ----

  /** `slot` is the encoding of an entry; folded like `Stands`. */
  ghost predicate Encodes(slot: Slot, name: Str, attrs: byte, cluster: u32, size: u32) {
    forall n: Str {:trigger EncodeSlot(n, attrs, cluster, size)} :: n == name ==>
      slot == EncodeSlot(n, attrs, cluster, size)
  }

  lemma SliceOfSlice(s: seq<byte>, a: nat, b: nat, i: nat, j: nat)
    requires a <= b <= |s| && i <= j <= b - a
    ensures s[a..b][i..j] == s[a + i..a + j]
  {
    var x, y := s[a..b][i..j], s[a + i..a + j];
    assert |x| == |y| == j - i;
    assert forall k :: 0 <= k < j - i ==> x[k] == s[a + i + k] == y[k];
  }

  lemma SlotInBlock(bytes: seq<byte>, sec: nat, k: nat)
    requires 512 * sec + 512 <= |bytes| && k < 16
    ensures 16 * sec + k < |SlotsOf(bytes)|
    ensures SlotsOf(bytes)[16 * sec + k] == bytes[512 * sec..512 * sec + 512][32 * k..32 * k + 32]
  {
    var i := 16 * sec + k;
    assert 32 * i == 512 * sec + 32 * k;
    assert 32 * i + 32 <= |bytes|;
    assert i < |bytes| / 32;
    SliceOfSlice(bytes, 512 * sec, 512 * sec + 512, 32 * k, 32 * k + 32);
  }

  lemma SpliceInBlock(bytes: seq<byte>, sec: nat, k: nat, s: Slot)
    requires 512 * sec + 512 <= |bytes| && k < 16
    ensures Splice(bytes, 512 * sec, Splice(bytes[512 * sec..512 * sec + 512], 32 * k, s))
         == Splice(bytes, 32 * (16 * sec + k), s)
  {
  }

  /** No slot of the first `m` clusters may be reused. */
  ghost predicate LiveUpTo(data: seq<seq<byte>>, ch: seq<nat>, m: nat)
    requires Clusters(ch, |data|) && m <= |ch|
  {
    var ms := Marks(DirSlots(data, ch));
    Base(data, ch, m) <= |ms| && forall j :: 0 <= j < Base(data, ch, m) ==> !Dead(ms[j])
  }

  lemma MarkInCluster(data: seq<seq<byte>>, ch: seq<nat>, m: nat, j: nat)
    requires Clusters(ch, |data|) && m < |ch| && j < |SlotsOf(data[ch[m]])|
    ensures Base(data, ch, m) + j < |DirSlots(data, ch)|
    ensures Marks(DirSlots(data, ch))[Base(data, ch, m) + j] == Classify(SlotsOf(data[ch[m]])[j])
    ensures Dead(Marks(DirSlots(data, ch))[Base(data, ch, m) + j]) <==> IsDead(SlotsOf(data[ch[m]])[j])
  {
    DirSlotsAt(data, ch, m);
    var slots := DirSlots(data, ch);
    assert slots[Base(data, ch, m)..Base(data, ch, m + 1)][j] == slots[Base(data, ch, m) + j];
    MarkAt(slots, Base(data, ch, m) + j);
  }

  /** The first reusable slot of the next cluster is the first of the directory. */
  lemma ScanHit(data: seq<seq<byte>>, ch: seq<nat>, m: nat, j: nat)
    requires Clusters(ch, |data|) && m < |ch| && LiveUpTo(data, ch, m) && j < |SlotsOf(data[ch[m]])|
    requires IsDead(SlotsOf(data[ch[m]])[j]) && forall i :: 0 <= i < j ==> !IsDead(SlotsOf(data[ch[m]])[i])
    ensures FirstDead(Marks(DirSlots(data, ch)), Base(data, ch, m) + j)
  {
    MarkInCluster(data, ch, m, j);
    ScanBefore(data, ch, m, j);
  }

  /** The slots before a position are the earlier clusters' and this cluster's first ones. */
  lemma ScanBefore(data: seq<seq<byte>>, ch: seq<nat>, m: nat, j: nat)
    requires Clusters(ch, |data|) && m < |ch| && LiveUpTo(data, ch, m) && j <= |SlotsOf(data[ch[m]])|
    requires forall i :: 0 <= i < j ==> !IsDead(SlotsOf(data[ch[m]])[i])
    ensures Base(data, ch, m) + j <= |DirSlots(data, ch)|
    ensures forall i :: 0 <= i < Base(data, ch, m) + j ==> !Dead(Marks(DirSlots(data, ch))[i])
  {
    var b, ms := Base(data, ch, m), Marks(DirSlots(data, ch));
    assert b + |SlotsOf(data[ch[m]])| <= |DirSlots(data, ch)| by { DirSlotsAt(data, ch, m); }
    forall i | 0 <= i < b + j
      ensures !Dead(ms[i])
    {
      if b <= i {
        assert !IsDead(SlotsOf(data[ch[m]])[i - b]);
        MarkInCluster(data, ch, m, i - b);
      }
    }
  }

  lemma ScanMiss(data: seq<seq<byte>>, ch: seq<nat>, m: nat)
    requires Clusters(ch, |data|) && m < |ch| && LiveUpTo(data, ch, m)
    requires forall i :: 0 <= i < |SlotsOf(data[ch[m]])| ==> !IsDead(SlotsOf(data[ch[m]])[i])
    ensures LiveUpTo(data, ch, m + 1)
  {
    DirSlotsAt(data, ch, m);
    ScanBefore(data, ch, m, |SlotsOf(data[ch[m]])|);
  }

  lemma ScanEnd(data: seq<seq<byte>>, ch: seq<nat>)
    requires Clusters(ch, |data|) && LiveUpTo(data, ch, |ch|)
    ensures NoneDead(Marks(DirSlots(data, ch)))
  {
    BaseEnd(data, ch);
  }

  /** Volume `v` with the zeroed cluster `c` linked behind the chain `ch`. */
  ghost function GrownVol(v: Vol, ch: seq<nat>, c: nat, cb: nat): Vol
    requires ch != [] && ch[|ch| - 1] < |v.fat| && c < |v.fat| && c < |v.data| && c < 0x1_0000_0000
  {
    v.(fat := v.fat[c := END_OF_CHAIN][ch[|ch| - 1] := c], data := v.data[c := Zeros(cb)],
       info := InfoAfter(v.info, -1, c))
  }

  /** `v'` is `v` with `s` in the first reusable slot of the directory `ch`. */
  ghost predicate EntryAdded(v: Vol, v': Vol, ch: seq<nat>, s: Slot, k: nat) {
    && Clusters(ch, |v.data|) && FirstDead(Marks(DirSlots(v.data, ch)), k)
    && SlotWritten(v.data, v'.data, ch, k, s) && v' == v.(data := v'.data)
  }

  /** Where `add_dir_entry` stands: in cluster `m` of the chain, with every slot before it taken, and
      with the chain grown by the least free cluster if it was full. */
  ghost predicate Searching(v: Vol, now: Vol, ch: seq<nat>, chain: seq<nat>, m: nat, grown: bool, cb: nat) {
    && IsChain(now.fat, chain) && m < |chain| && Clusters(chain, |now.data|) && LiveUpTo(now.data, chain, m)
    && IsChain(v.fat, ch) && Clusters(ch, |v.data|)
    && if grown then Regrown(v, now, ch, chain, cb) && m == |ch| else now == v && chain == ch
  }

  ghost predicate Regrown(v: Vol, now: Vol, ch: seq<nat>, chain: seq<nat>, cb: nat)
    requires IsChain(v.fat, ch) && Clusters(ch, |v.data|)
  {
    && |v.fat| == |v.data| && |v.fat| < EOC_THRESHOLD
    && FreeList(v.fat) != [] && 2 <= FreeList(v.fat)[0] < |v.fat| && v.fat[FreeList(v.fat)[0]] == 0
    && NoneDead(Marks(DirSlots(v.data, ch))) && chain == ch + [FreeList(v.fat)[0]]
    && now == GrownVol(v, ch, FreeList(v.fat)[0], cb)
  }

  /** What `add_dir_entry` did, on success. */
  ghost predicate EntryPlaced(v: Vol, now: Vol, ch: seq<nat>, s: Slot, k: nat, cb: nat)
    requires IsChain(v.fat, ch) && Clusters(ch, |v.data|)
  {
    if NoneDead(Marks(DirSlots(v.data, ch))) then
      && FreeList(v.fat) != [] && 2 <= FreeList(v.fat)[0] < |v.fat| == |v.data| && |v.fat| < EOC_THRESHOLD
      && v.fat[FreeList(v.fat)[0]] == 0
      && EntryAdded(GrownVol(v, ch, FreeList(v.fat)[0], cb), now, ch + [FreeList(v.fat)[0]], s, k)
    else EntryAdded(v, now, ch, s, k)
  }

  lemma SearchStart(v: Vol, ch: seq<nat>, cb: nat)
    requires IsChain(v.fat, ch) && |v.fat| == |v.data|
    ensures Searching(v, v, ch, ch, 0, false, cb)
  {
  }

  lemma SearchNext(v: Vol, now: Vol, ch: seq<nat>, chain: seq<nat>, m: nat, grown: bool, cb: nat)
    requires Searching(v, now, ch, chain, m, grown, cb) && m + 1 < |chain|
    requires forall i :: 0 <= i < |SlotsOf(now.data[chain[m]])| ==> !IsDead(SlotsOf(now.data[chain[m]])[i])
    ensures !grown && Searching(v, now, ch, chain, m + 1, grown, cb)
  {
    ScanMiss(now.data, chain, m);
  }

  /** A full last cluster means a full, not yet grown directory. */
  lemma SearchFull(v: Vol, now: Vol, ch: seq<nat>, chain: seq<nat>, m: nat, grown: bool, cb: nat)
    requires Searching(v, now, ch, chain, m, grown, cb) && m + 1 == |chain| && cb >= 32
    requires forall i :: 0 <= i < |SlotsOf(now.data[chain[m]])| ==> !IsDead(SlotsOf(now.data[chain[m]])[i])
    ensures !grown && NoneDead(Marks(DirSlots(v.data, ch)))
  {
    ZeroSlotDead(cb);
    ScanMiss(now.data, chain, m);
    ScanEnd(now.data, chain);
  }

  lemma ZeroSlotDead(cb: nat)
    requires cb >= 32
    ensures |SlotsOf(Zeros(cb))| > 0 && IsDead(SlotsOf(Zeros(cb))[0])
  {
  }

  lemma SearchGrown(v: Vol, ch: seq<nat>, c: nat, cb: nat)
    requires |v.fat| == |v.data| && |v.fat| < EOC_THRESHOLD && Sized(v.data, cb)
    requires IsChain(v.fat, ch) && Clusters(ch, |v.data|) && NoneDead(Marks(DirSlots(v.data, ch)))
    requires 2 <= c < |v.fat| && v.fat[c] == 0 && FreeList(v.fat) != [] && FreeList(v.fat)[0] == c
    ensures Searching(v, GrownVol(v, ch, c, cb), ch, ch + [c], |ch|, true, cb)
  {
    GrownScan(v, ch, c, cb);
  }

  /** Volume `v` with slot `j` of cluster `c` replaced. */
  ghost function SlotPut(v: Vol, c: nat, j: nat, s: Slot): Vol
    requires c < |v.data| && 32 * j + 32 <= |v.data[c]|
  {
    v.(data := v.data[c := Splice(v.data[c], 32 * j, s)])
  }

  lemma HitAdded(now: Vol, chain: seq<nat>, m: nat, j: nat, s: Slot)
    requires |now.fat| == |now.data| && |now.fat| < EOC_THRESHOLD && IsChain(now.fat, chain) && m < |chain|
    requires Clusters(chain, |now.data|) && j < |SlotsOf(now.data[chain[m]])|
    requires FirstDead(Marks(DirSlots(now.data, chain)), Base(now.data, chain, m) + j)
    ensures 32 * j + 32 <= |now.data[chain[m]]|
    ensures EntryAdded(now, SlotPut(now, chain[m], j, s), chain, s, Base(now.data, chain, m) + j)
  {
    ChainDistinct(now.fat, chain);
    SlotWrite(now.data, chain, m, j, s);
  }

  lemma SearchPlaced(v: Vol, now: Vol, now': Vol, ch: seq<nat>, chain: seq<nat>, m: nat, grown: bool, cb: nat, s: Slot,
                     k: nat)
    requires Searching(v, now, ch, chain, m, grown, cb) && EntryAdded(now, now', chain, s, k)
    ensures EntryPlaced(v, now', ch, s, k, cb)
  {
  }

  /** The link of a chain cluster leads on, except at the end. */
  /** The first dead slot of the cluster the search is at takes the entry. */
  lemma HitPlaced(v: Vol, now: Vol, ch: seq<nat>, chain: seq<nat>, m: nat, grown: bool, cb: nat, s: Slot, j: nat)
    returns (k: nat)
    requires |now.fat| == |now.data| && |now.fat| < EOC_THRESHOLD && Searching(v, now, ch, chain, m, grown, cb)
    requires j < |SlotsOf(now.data[chain[m]])| && IsDead(SlotsOf(now.data[chain[m]])[j])
    requires forall i :: 0 <= i < j ==> !IsDead(SlotsOf(now.data[chain[m]])[i])
    ensures 32 * j + 32 <= |now.data[chain[m]]|
    ensures EntryPlaced(v, SlotPut(now, chain[m], j, s), ch, s, k, cb)
  {
    ScanHit(now.data, chain, m, j);
    HitAdded(now, chain, m, j, s);
    k := Base(now.data, chain, m) + j;
    SearchPlaced(v, now, SlotPut(now, chain[m], j, s), ch, chain, m, grown, cb, s, k);
  }

  lemma LinkAt(fat: seq<nat>, ch: seq<nat>, m: nat)
    requires IsChain(fat, ch) && m < |ch| && |fat| < EOC_THRESHOLD
    ensures if m + 1 < |ch| then fat[ch[m]] == ch[m + 1] && Follows(ch[m + 1]) else fat[ch[m]] >= EOC_THRESHOLD
  {
  }

  lemma LeastFree(fat: seq<nat>, c: nat)
    requires 2 <= c < |fat| && fat[c] == 0 && forall x :: 2 <= x < c ==> fat[x] != 0
    ensures FreeList(fat) != [] && FreeList(fat)[0] == c
  {
    TakeFirstFree(fat, c, 1);
  }

  lemma NoneFree(fat: seq<nat>)
    requires forall x :: 2 <= x < |fat| ==> fat[x] != 0
    ensures FreeList(fat) == []
  {
    if 2 <= |fat| {
      FreeFromSkip(fat, 2, |fat|);
    }
  }

  /** After growth the scan goes on in the new cluster, which is all reusable. */
  lemma GrownScan(v: Vol, ch: seq<nat>, c: nat, cb: nat)
    requires |v.fat| == |v.data| && |v.fat| < EOC_THRESHOLD && Sized(v.data, cb)
    requires IsChain(v.fat, ch) && 2 <= c < |v.fat| && v.fat[c] == 0
    requires Clusters(ch, |v.data|) && NoneDead(Marks(DirSlots(v.data, ch)))
    ensures var v' := GrownVol(v, ch, c, cb);
            && IsChain(v'.fat, ch + [c]) && Clusters(ch + [c], |v'.data|) && LiveUpTo(v'.data, ch + [c], |ch|)
  {
    ChainUsed(v.fat, ch);
    assert c !in ch;
    ChainGrown(v.fat, ch, c);
    var v' := GrownVol(v, ch, c, cb);
    DirSlotsKept(v.data, v'.data, ch);
    DirSlotsConcat(v'.data, ch, [c]);
    assert (ch + [c])[..|ch|] == ch;
    MarksConcat(DirSlots(v'.data, ch), DirSlots(v'.data, [c]));
  }

  // ---- Searching for a name ----

  /** `ms[base..]` starts with the marks of a cluster's slots. */
  ghost predicate MarksFrom(ms: seq<Mark>, base: nat, slots: seq<Slot>) {
    base + |slots| <= |ms| && forall j {:trigger Classify(slots[j])} :: 0 <= j < |slots| ==>
                                ms[base + j] == Classify(slots[j])
  }

  /** What the loop of `delete_dir_entry` does with a slot, for a name other than `.` and `..`. */
  lemma NameAtSlot(s: Slot, name: Str)
    requires Lower(name) != DOT_NAME && Lower(name) != DOT_DOT_NAME
    ensures !IsEnd(s) && !IsSkipped(s) && Lower(NameOf(s)) == Lower(name)
       <==> Classify(s).Live? && Lower(Classify(s).entry.name) == Lower(name)
    ensures IsEnd(s) <==> Classify(s).End?
  {
  }

  /** The marks of one block of a cluster. */
  lemma BlockMarks(ms: seq<Mark>, base: nat, bytes: seq<byte>, sec: nat)
    requires MarksFrom(ms, base, SlotsOf(bytes)) && 512 * sec + 512 <= |bytes|
    ensures MarksFrom(ms, base + 16 * sec, SlotsOf(bytes[512 * sec..512 * sec + 512]))
  {
    var block := bytes[512 * sec..512 * sec + 512];
    assert |SlotsOf(block)| == 16;
    SlotInBlock(bytes, sec, 15);
    forall j | 0 <= j < 16
      ensures ms[base + 16 * sec + j] == Classify(SlotsOf(block)[j])
    {
      SlotInBlock(bytes, sec, j);
      assert ms[base + (16 * sec + j)] == Classify(SlotsOf(bytes)[16 * sec + j]);
    }
  }

  lemma ClusterMarks(data: seq<seq<byte>>, ch: seq<nat>, m: nat)
    requires Clusters(ch, |data|) && m < |ch|
    ensures MarksFrom(Marks(DirSlots(data, ch)), Base(data, ch, m), SlotsOf(data[ch[m]]))
    ensures Base(data, ch, m + 1) == Base(data, ch, m) + |SlotsOf(data[ch[m]])|
  {
    DirSlotsAt(data, ch, m);
    forall j | 0 <= j < |SlotsOf(data[ch[m]])|
      ensures Marks(DirSlots(data, ch))[Base(data, ch, m) + j] == Classify(SlotsOf(data[ch[m]])[j])
    {
      MarkInCluster(data, ch, m, j);
    }
  }

  /** `v'` is `v` with slot `k` of the directory `ch` marked deleted. */
  ghost predicate EntryDeleted(v: Vol, v': Vol, ch: seq<nat>, k: nat) {
    && Clusters(ch, |v.data|) && k < |DirSlots(v.data, ch)|
    && SlotWritten(v.data, v'.data, ch, k, DirSlots(v.data, ch)[k][0 := DELETED]) && v' == v.(data := v'.data)
  }

  lemma DeleteAt(v: Vol, ch: seq<nat>, m: nat, j: nat)
    requires |v.fat| == |v.data| && |v.fat| < EOC_THRESHOLD && IsChain(v.fat, ch) && m < |ch|
    requires Clusters(ch, |v.data|) && j < |SlotsOf(v.data[ch[m]])|
    ensures 32 * j + 32 <= |v.data[ch[m]]|
    ensures EntryDeleted(v, SlotPut(v, ch[m], j, SlotsOf(v.data[ch[m]])[j][0 := DELETED]), ch, Base(v.data, ch, m) + j)
  {
    var s := SlotsOf(v.data[ch[m]])[j];
    DirSlotsAt(v.data, ch, m);
    var slots := DirSlots(v.data, ch);
    assert slots[Base(v.data, ch, m)..Base(v.data, ch, m + 1)][j] == slots[Base(v.data, ch, m) + j];
    ChainDistinct(v.fat, ch);
    SlotWrite(v.data, ch, m, j, s[0 := DELETED]);
  }

  // ---- Blocks and what they stand for ----

  /** `blocks` stand for `v`. The quantifier, with the one geometry it allows, keeps the meaning of the
      blocks folded in proofs that do not look at them. */
  ghost predicate Stands(geo: Geometry, blocks: seq<Sector>, v: Vol) {
    forall g: Geometry {:trigger StandsFor(g, blocks, v)} :: g == geo ==> StandsFor(g, blocks, v)
  }

  ghost predicate StandsFor(g: Geometry, blocks: seq<Sector>, v: Vol) {
    g.WellFormed(|blocks|) && Mirrored(g, blocks) && View(g, blocks) == v
  }

  ghost predicate Whole(g: Geometry, v: Vol) {
    && |v.fat| == |v.data| == g.TotalClusters() && |v.fat| < EOC_THRESHOLD
    && 2 <= g.rootCluster < |v.fat|
    && Sized(v.data, g.ClusterBytes())
  }

  lemma Opened(g: Geometry, blocks: seq<Sector>, v: Vol)
    requires Stands(g, blocks, v)
    ensures g.WellFormed(|blocks|) && Mirrored(g, blocks) && View(g, blocks) == v
  {
    assert StandsFor(g, blocks, v);
  }

  lemma Closed(g: Geometry, blocks: seq<Sector>)
    requires g.WellFormed(|blocks|) && Mirrored(g, blocks)
    ensures Stands(g, blocks, View(g, blocks)) && Whole(g, View(g, blocks))
  {
    var v := View(g, blocks);
    assert Stands(g, blocks, v);
    SizedView(g, blocks);
  }

  /** The whole data area has fewer bytes than a machine word can count. */
  lemma BytesAddressable(g: Geometry, n: nat)
    requires g.WellFormed(n)
    ensures g.TotalClusters() * g.ClusterBytes() < USIZE_MAX
  {
    var t, k := g.TotalClusters(), g.sectorsPerCluster;
    RegionsInOrder(g, n);
    MulMono(t, 3 * (t - 2), k);
    assert 3 * (t - 2) * k == 3 * ((t - 2) * k);
    assert t * k <= 3 * 0x1_0000_0000;
    assert t * (k * 512) == (t * k) * 512;
  }

  lemma SizedView(g: Geometry, blocks: seq<Sector>)
    requires g.WellFormed(|blocks|)
    ensures Sized(View(g, blocks).data, g.ClusterBytes())
  {
    SlotsFit(g.sectorsPerCluster);
  }

  lemma SlotsFit(n: nat)
    ensures n * 512 % 32 == 0
  {
  }

  /** Where the entry of a cluster is read, well below the sentinel block number. */
  lemma EntryInBlock(g: Geometry, blocks: seq<Sector>, v: Vol, c: nat)
    requires Stands(g, blocks, v) && c < g.TotalClusters() == |v.fat|
    ensures var at := g.reservedSectors + c * 4 / 512;
            && at < |blocks| && at < 0xFFFF_FFFF && c * 4 % 512 + 4 <= 512
            && v.fat[c] == Word32(blocks[at], c * 4 % 512) % LINK_RANGE
  {
    Opened(g, blocks, v);
    FatRegion(g, |blocks|, 0, c);
    MulMono(1, g.TotalClusters() - 2, g.sectorsPerCluster);
  }

  /** The blocks of the drive, with the geometry read from its boot sector. */
  class FatVolume {
    const geo: Geometry
    var blocks: seq<Sector>

    constructor (g: Geometry, content: seq<Sector>)
      requires g.WellFormed(|content|) && Mirrored(g, content)
      ensures geo == g && blocks == content && vol == View(g, content) && Ready()
    {
      geo := g;
      blocks := content;
      vol := View(g, content);
      Closed(g, content);
    }

    /** What the blocks stand for. */
    ghost var vol: Vol

    ghost predicate Ready()
      reads this
    {
      Stands(geo, blocks, vol) && Whole(geo, vol)
    }

    /** `next_cluster`: the low 28 bits of the entry in the first FAT copy. */
    method NextCluster(c: nat) returns (next: nat)
      requires Ready() && c < geo.TotalClusters()
      ensures next == vol.fat[c]
    {
      Opened(geo, blocks, vol);
      FatRegion(geo, |blocks|, 0, c);
      var fatOffset := c * 4;
      var fatSector := geo.reservedSectors + fatOffset / 512;
      var inSector := fatOffset % 512;
      var buf := blocks[fatSector];
      next := Word32(buf, inSector) % LINK_RANGE;
    }

    /** `write_fat_entry`: patch the low 28 bits of the entry in every copy. */
    method WriteFatEntry(c: nat, value: u32)
      requires Ready() && c < geo.TotalClusters()
      modifies this
      ensures Ready() && vol == old(vol).(fat := old(vol).fat[c := value % LINK_RANGE])
    {
      Opened(geo, blocks, vol);
      var fatOffset := c * 4;
      var inSector := fatOffset % 512;
      for i := 0 to geo.numFats
        invariant PatchedCopies(geo, old(blocks), blocks, c, value, i)
      {
        FatRegion(geo, |blocks|, i, c);
        var fatSector := geo.reservedSectors + i * geo.sectorsPerFat + fatOffset / 512;
        PatchNext(geo, old(blocks), blocks, c, value, i, fatSector);
        var buf := blocks[fatSector];
        var masked := value % LINK_RANGE + Word32(buf, inSector) / LINK_RANGE * LINK_RANGE;
        blocks := blocks[fatSector := Put32(buf, inSector, masked)];
      }
      FatWrite(geo, old(blocks), blocks, c, value);
      vol := View(geo, blocks);
      Closed(geo, blocks);
    }

    /** `find_free_cluster`: scan the first copy, one cached block at a time, for the least free entry. */
    method FindFreeCluster() returns (r: Result<nat>)
      requires Ready()
      ensures r.Ok? ==> 2 <= r.value < geo.TotalClusters() && vol.fat[r.value] == 0
                        && forall x :: 2 <= x < r.value ==> vol.fat[x] != 0
      ensures r.Err? ==> r.error == Io && forall x :: 2 <= x < geo.TotalClusters() ==> vol.fat[x] != 0
    {
      var buf: Sector := Zeros(512);
      var current := 0xFFFF_FFFF;
      for c := 2 to geo.TotalClusters()
        invariant current != 0xFFFF_FFFF ==> current < |blocks| && buf == blocks[current]
        invariant forall x :: 2 <= x < c ==> vol.fat[x] != 0
      {
        EntryInBlock(geo, blocks, vol, c);
        var fatOffset := c * 4;
        var fatSector := geo.reservedSectors + fatOffset / 512;
        var inSector := fatOffset % 512;
        if fatSector != current {
          buf := blocks[fatSector];
          current := fatSector;
        }
        var raw := Word32(buf, inSector) % LINK_RANGE;
        if raw == 0 {
          return Ok(c);
        }
      }
      r := Err(Io);
    }

    /** `update_fsinfo`: adjust the counters unless FSInfo is unsigned or its count unknown. */
    method UpdateFsInfo(deltaFree: int, lastAlloc: u32)
      requires Ready()
      modifies this
      ensures Ready() && vol == old(vol).(info := InfoAfter(old(vol).info, deltaFree, lastAlloc))
    {
      Opened(geo, blocks, vol);
      RegionsInOrder(geo, |blocks|);
      var buf := blocks[1];
      if Word32(buf, 0) != LEAD_SIGNATURE || Word32(buf, 484) != STRUCT_SIGNATURE {
        return;
      }
      buf := PatchCounters(buf, deltaFree, lastAlloc);
      InfoWrite(geo, blocks, buf);
      blocks := blocks[1 := buf];
      vol := View(geo, blocks);
      Closed(geo, blocks);
    }

    /** The counter updates of a signed FSInfo sector. */
    static method PatchCounters(sector: Sector, deltaFree: int, lastAlloc: u32) returns (buf: Sector)
      requires InfoOf(sector).signed
      ensures InfoOf(buf) == InfoAfter(InfoOf(sector), deltaFree, lastAlloc)
      ensures forall k :: 0 <= k < 512 && !(0x1E8 <= k < 0x1F0) ==> buf[k] == sector[k]
    {
      buf := sector;
      var free := Word32(buf, 0x1E8);
      if free != UNKNOWN_COUNT {
        var moved := free + deltaFree;
        free := (if moved < 0 then 0 else moved) % 0x1_0000_0000;
        WordsApart(buf, 0x1E8, free, 0);
        WordsApart(buf, 0x1E8, free, 484);
        WordsApart(buf, 0x1E8, free, 0x1EC);
        buf := Put32(buf, 0x1E8, free);
      }
      if lastAlloc != 0 {
        WordsApart(buf, 0x1EC, lastAlloc, 0);
        WordsApart(buf, 0x1EC, lastAlloc, 484);
        WordsApart(buf, 0x1EC, lastAlloc, 0x1E8);
        buf := Put32(buf, 0x1EC, lastAlloc);
      }
    }

    /** Read one cluster block by block. */
    method ReadCluster(c: nat) returns (buf: seq<byte>)
      requires Ready() && 2 <= c < geo.TotalClusters()
      ensures buf == vol.data[c]
    {
      Opened(geo, blocks, vol);
      var lba := geo.Lba(c);
      buf := [];
      for sec := 0 to geo.sectorsPerCluster
        invariant 512 * sec <= |vol.data[c]| && buf == vol.data[c][..512 * sec]
      {
        ClusterSector(geo, blocks, c, sec);
        buf := buf + blocks[lba + sec];
      }
    }

    /** `write_cluster`: write one cluster block by block. */
    method WriteCluster(c: nat, bytes: seq<byte>)
      requires Ready() && 2 <= c < geo.TotalClusters() && |bytes| == geo.ClusterBytes()
      modifies this
      ensures Ready() && vol == old(vol).(data := old(vol).data[c := bytes])
    {
      PartlyStart(vol, c, bytes);
      for sec := 0 to geo.sectorsPerCluster
        invariant Ready() && Partly(old(vol), vol, c, sec, bytes)
      {
        var off := 512 * sec;
        PartlyNext(old(vol), vol, c, sec, bytes);
        WriteSector(c, sec, bytes[off..off + 512]);
      }
      PartlyEnd(old(vol), vol, c, geo.sectorsPerCluster, bytes);
    }

    /** `zero_cluster`. */
    method ZeroCluster(c: nat)
      requires Ready() && 2 <= c < geo.TotalClusters()
      modifies this
      ensures Ready() && vol == old(vol).(data := old(vol).data[c := Zeros(geo.ClusterBytes())])
    {
      WriteCluster(c, Zeros(geo.ClusterBytes()));
    }

    /** One round of allocation: mark the least free cluster, zero it, link `prev` to it. */
    method TakeCluster(prev: nat, ghost v: Vol, ghost taken: seq<nat>) returns (r: Result<nat>)
      requires Ready() && AllocState(v, taken) && vol == Allocated(v, taken, geo.ClusterBytes())
      requires prev == (if taken == [] then 0 else taken[|taken| - 1]) && prev < |vol.fat|
               && (taken != [] ==> prev != 0)
      modifies this
      ensures Ready()
      ensures r.Ok? ==>
                2 <= r.value < |vol.fat| && AllocState(v, taken + [r.value])
                && vol == Allocated(v, taken + [r.value], geo.ClusterBytes())
      ensures r.Err? ==> vol == old(vol) && r.error == Io && forall x :: 2 <= x < |vol.fat| ==> vol.fat[x] != 0
    {
      r := FindFreeCluster();
      if r.Ok? {
        var c := r.value;
        AllocNext(v, taken, c, geo.ClusterBytes());
        WriteFatEntry(c, END_OF_CHAIN);
        ZeroCluster(c);
        if prev != 0 {
          WriteFatEntry(prev, c);
        }
      }
    }

    /** The rounds of `allocate_chain`, up to the first one that finds nothing free. */
    method TakeClusters(count: nat) returns (ok: bool, head: nat, last: nat, ghost taken: seq<nat>)
      requires Ready() && count > 0
      modifies this
      ensures Ready() && AllocState(old(vol), taken) && vol == Allocated(old(vol), taken, geo.ClusterBytes())
      ensures ok ==> |taken| == count && head == taken[0] && last == taken[count - 1]
      ensures !ok ==> |taken| < count && forall x :: 2 <= x < |vol.fat| ==> vol.fat[x] != 0
    {
      taken := [];
      AllocStart(vol, geo.ClusterBytes());
      head, last := 0, 0;
      var prev := 0;
      for i := 0 to count
        invariant Ready() && |taken| == i && AllocState(old(vol), taken)
        invariant vol == Allocated(old(vol), taken, geo.ClusterBytes())
        invariant prev == (if i == 0 then 0 else taken[i - 1]) && prev < |vol.fat|
        invariant i > 0 ==> head == taken[0] && prev == last != 0
      {
        var found := TakeCluster(prev, old(vol), taken);
        if found.Err? {
          ok := false;
          return;
        }
        if prev == 0 {
          head := found.value;
        }
        prev := found.value;
        last := found.value;
        taken := taken + [found.value];
      }
      ok := true;
    }

    /** `allocate_chain`: take the `count` least free clusters, zero them and link them. When the
        volume runs out, the clusters taken so far stay marked and FSInfo is not told. */
    method AllocateChain(count: nat) returns (r: Result<nat>)
      requires Ready()
      modifies this
      ensures Ready()
      ensures vol == AllocOutcome(old(vol), count, geo.ClusterBytes())
      ensures r == AllocResult(old(vol).fat, count)
      ensures AllocState(old(vol), Taken(old(vol).fat, count))
    {
      if count == 0 {
        AllocStart(vol, geo.ClusterBytes());
        return Ok(0);
      }
      var ok, head, last, taken := TakeClusters(count);
      if !ok {
        AllocFailed(old(vol), taken, count, geo.ClusterBytes());
        return Err(Io);
      }
      AllocDone(old(vol), taken, geo.ClusterBytes());
      UpdateFsInfo(0 - count, last);
      r := Ok(head);
    }

    /** `free_chain`: clear entries along the links until the links stop, for any in-range table. */
    method FreeChain(start: nat)
      requires Ready() && InRange(vol.fat) && (Follows(start) ==> start < geo.TotalClusters())
      modifies this
      ensures Ready()
      ensures var v, n := old(vol), FreedRounds(old(vol).fat, start);
              vol == v.(fat := Freed(v.fat, start), info := if n > 0 then InfoAfter(v.info, n, 0) else v.info)
    {
      var cluster: nat := start;
      var freed := 0;
      ghost var v := vol;
      while cluster >= 2 && cluster < EOC_THRESHOLD
        invariant Ready() && InRange(vol.fat) && (Follows(cluster) ==> cluster < geo.TotalClusters())
        invariant vol == v.(fat := vol.fat)
        invariant freed >= 0 && freed + FreedRounds(vol.fat, cluster) == FreedRounds(v.fat, start)
        invariant Freed(vol.fat, cluster) == Freed(v.fat, start)
        decreases Used(vol.fat, 0), if Follows(cluster) then 1 else 0
      {
        var next := NextCluster(cluster);
        FreedMeasure(vol.fat, cluster);
        WriteFatEntry(cluster, 0);
        cluster := next;
        freed := freed + 1;
      }
      if freed > 0 {
        UpdateFsInfo(freed, 0);
      }
    }

    /** `read_chain`: whole clusters, until `maxBytes` are there or the chain ends. */
    method ReadChain(start: nat, maxBytes: nat, ghost ch: seq<nat>) returns (out: seq<byte>)
      requires Ready()
      requires if Follows(start) then IsChain(vol.fat, ch) && ch[0] == start else ch == []
      ensures Clusters(ch, |vol.data|) && out <= ChainBytes(vol.data, ch)
      ensures |out| >= maxBytes || out == ChainBytes(vol.data, ch)
    {
      out := [];
      var cluster: nat := start;
      ghost var m := 0;
      ghost var data := vol.data;
      ReadStart(data, ch);
      while cluster >= 2 && cluster < EOC_THRESHOLD
        invariant m <= |ch| && Clusters(ch, |data|) && out == ChainBytes(data, ch[..m])
        invariant if m < |ch| then cluster == ch[m] else !Follows(cluster)
        decreases |ch| - m
      {
        var buf := ReadCluster(cluster);
        out := out + buf;
        ReadNext(data, ch, m);
        if |out| >= maxBytes {
          break;
        }
        assert m + 1 < |ch| ==> vol.fat[ch[m]] == ch[m + 1];
        cluster := NextCluster(cluster);
        m := m + 1;
      }
      ReadEnd(data, ch);
    }

    /** `write_chain`: the bytes, cluster by cluster along the chain, the last one padded. */
    method WriteChain(head: nat, bytes: seq<byte>, ghost ch: seq<nat>)
      requires Ready()
      requires if Follows(head) then IsChain(vol.fat, ch) && ch[0] == head else ch == []
      modifies this
      ensures Ready() && Clusters(ch, |old(vol).data|) && geo.ClusterBytes() > 0
      ensures vol == old(vol).(data := Stored(old(vol).data, ch, bytes, geo.ClusterBytes()))
    {
      var cb := geo.ClusterBytes();
      var cluster: nat := head;
      var offset := 0;
      ghost var m := 0;
      ghost var v := vol;
      assert ch[0..] == ch && bytes[0..] == bytes && vol == v.(data := vol.data);
      while offset < |bytes| && cluster >= 2 && cluster < EOC_THRESHOLD
        invariant Ready() && m <= |ch| && Clusters(ch, |v.data|) && offset <= |bytes|
        invariant if m < |ch| then cluster == ch[m] else !Follows(cluster)
        invariant vol == v.(data := vol.data) && |vol.data| == |v.data|
        invariant Stored(vol.data, ch[m..], bytes[offset..], cb) == Stored(v.data, ch, bytes, cb)
        decreases |ch| - m
      {
        var chunkEnd := if offset + cb < |bytes| then offset + cb else |bytes|;
        var buf := Padded(bytes[offset..chunkEnd], cb);
        StoredStep(vol.data, ch, m, bytes, offset, cb);
        WriteCluster(cluster, buf);
        offset := chunkEnd;
        if offset >= |bytes| {
          break;
        }
        assert m + 1 < |ch| ==> vol.fat[ch[m]] == ch[m + 1];
        cluster := NextCluster(cluster);
        m := m + 1;
      }
    }

    /** One block of a cluster. */
    method ReadSector(c: nat, sec: nat) returns (buf: Sector)
      requires Ready() && 2 <= c < geo.TotalClusters() && sec < geo.sectorsPerCluster
      ensures 512 * sec + 512 <= |vol.data[c]| && buf == vol.data[c][512 * sec..512 * sec + 512]
    {
      Opened(geo, blocks, vol);
      ClusterSector(geo, blocks, c, sec);
      buf := blocks[geo.Lba(c) + sec];
    }

    method WriteSector(c: nat, sec: nat, buf: Sector)
      requires Ready() && 2 <= c < geo.TotalClusters() && sec < geo.sectorsPerCluster
      modifies this
      ensures Ready() && 512 * sec + 512 <= |old(vol).data[c]|
      ensures vol == old(vol).(data := old(vol).data[c := Splice(old(vol).data[c], 512 * sec, buf)])
    {
      Opened(geo, blocks, vol);
      DataWrite(geo, blocks, c, sec, buf);
      blocks := blocks[geo.Lba(c) + sec := buf];
      vol := View(geo, blocks);
      Closed(geo, blocks);
    }

    /** The slot loops of `add_dir_entry` over one cluster: its first reusable slot. */
    method ScanForDead(c: nat) returns (found: bool, sec: nat, k: nat)
      requires Ready() && 2 <= c < geo.TotalClusters()
      ensures found ==> sec < geo.sectorsPerCluster && k < 16
      ensures var slots := SlotsOf(vol.data[c]);
              if found then 16 * sec + k < |slots| && IsDead(slots[16 * sec + k])
                            && forall j :: 0 <= j < 16 * sec + k ==> !IsDead(slots[j])
              else forall j :: 0 <= j < |slots| ==> !IsDead(slots[j])
    {
      ghost var slots := SlotsOf(vol.data[c]);
      assert |slots| == 16 * geo.sectorsPerCluster;
      sec, k := 0, 0;
      while sec < geo.sectorsPerCluster
        invariant sec <= geo.sectorsPerCluster && forall j :: 0 <= j < 16 * sec ==> !IsDead(slots[j])
      {
        var buf := ReadSector(c, sec);
        k := 0;
        while k < 16
          invariant k <= 16 && forall j :: 0 <= j < 16 * sec + k ==> !IsDead(slots[j])
        {
          SlotInBlock(vol.data[c], sec, k);
          var off := k * 32;
          var first := buf[off];
          assert first == slots[16 * sec + k][0];
          if first == 0x00 || first == DELETED {
            found := true;
            return;
          }
          k := k + 1;
        }
        sec := sec + 1;
      }
      found := false;
    }

    /** Patch one slot of one block. */
    method PutSlot(c: nat, sec: nat, k: nat, s: Slot)
      requires Ready() && 2 <= c < geo.TotalClusters() && sec < geo.sectorsPerCluster && k < 16
      modifies this
      ensures Ready() && 32 * (16 * sec + k) + 32 <= |old(vol).data[c]|
      ensures vol == SlotPut(old(vol), c, 16 * sec + k, s)
    {
      var buf := ReadSector(c, sec);
      SpliceInBlock(vol.data[c], sec, k, s);
      WriteSector(c, sec, Splice(buf, 32 * k, s));
    }

    /** The growth branch of `add_dir_entry`. */
    method GrowDir(last: nat, ghost ch: seq<nat>) returns (r: Result<nat>)
      requires Ready() && IsChain(vol.fat, ch) && ch[|ch| - 1] == last
      modifies this
      ensures Ready()
      ensures r.Ok? ==> 2 <= r.value < |old(vol).fat| && old(vol).fat[r.value] == 0
                        && FreeList(old(vol).fat) != [] && r.value == FreeList(old(vol).fat)[0]
                        && vol == GrownVol(old(vol), ch, r.value, geo.ClusterBytes())
      ensures r.Err? ==> r.error == Io && vol == old(vol) && FreeList(vol.fat) == []
    {
      r := FindFreeCluster();
      if r.Ok? {
        LeastFree(vol.fat, r.value);
        WriteFatEntry(r.value, END_OF_CHAIN);
        ZeroCluster(r.value);
        WriteFatEntry(last, r.value);
        UpdateFsInfo(-1, r.value);
      } else {
        NoneFree(vol.fat);
      }
    }

    /** The hit branch of `add_dir_entry`. */
    method PlaceEntry(c: nat, sec: nat, j: nat, slot: Slot,
                      ghost v: Vol, ghost ch: seq<nat>, ghost chain: seq<nat>, ghost m: nat, ghost grown: bool)
      returns (ghost k: nat)
      requires Ready() && Searching(v, vol, ch, chain, m, grown, geo.ClusterBytes()) && chain[m] == c
      requires sec < geo.sectorsPerCluster && j < 16 && 16 * sec + j < |SlotsOf(vol.data[c])|
      requires IsDead(SlotsOf(vol.data[c])[16 * sec + j])
      requires forall i :: 0 <= i < 16 * sec + j ==> !IsDead(SlotsOf(vol.data[c])[i])
      modifies this
      ensures Ready() && EntryPlaced(v, vol, ch, slot, k, geo.ClusterBytes())
    {
      k := HitPlaced(v, vol, ch, chain, m, grown, geo.ClusterBytes(), slot, 16 * sec + j);
      PutSlot(c, sec, j, slot);
    }

    /** `add_dir_entry`: write the entry into the first reusable slot, growing the directory by one
        cluster when there is none. */
    method AddDirEntry(parent: nat, name: Str, attrs: byte, cluster: u32, size: u32, ghost ch: seq<nat>)
      returns (r: Result<()>, ghost slot: Slot, ghost k: nat)
      requires Ready() && IsChain(vol.fat, ch) && ch[0] == parent
      modifies this
      ensures Ready() && Clusters(ch, |old(vol).data|) && Encodes(slot, name, attrs, cluster, size)
      ensures r.Ok? ==> EntryPlaced(old(vol), vol, ch, slot, k, geo.ClusterBytes())
      ensures r.Err? ==>
                r.error == Io && vol == old(vol) && FreeList(vol.fat) == [] && NoneDead(Marks(DirSlots(vol.data, ch)))
    {
      var entry := WriteShortEntry(name, attrs, cluster, size);
      slot := entry;
      r, k := AddSlot(parent, entry, ch);
    }

    /** The search and growth loop of `add_dir_entry`. */
    method AddSlot(parent: nat, slot: Slot, ghost ch: seq<nat>) returns (r: Result<()>, ghost k: nat)
      requires Ready() && IsChain(vol.fat, ch) && ch[0] == parent
      modifies this
      ensures Ready() && Clusters(ch, |old(vol).data|)
      ensures r.Ok? ==> EntryPlaced(old(vol), vol, ch, slot, k, geo.ClusterBytes())
      ensures r.Err? ==>
                r.error == Io && vol == old(vol) && FreeList(vol.fat) == [] && NoneDead(Marks(DirSlots(vol.data, ch)))
    {
      ghost var cb := geo.ClusterBytes();
      ghost var chain: seq<nat>, m: nat, grown := ch, 0, false;
      var chainCluster := parent;
      k := 0;
      SearchStart(vol, ch, cb);
      while true
        invariant Ready() && Searching(old(vol), vol, ch, chain, m, grown, cb) && chainCluster == chain[m]
        decreases !grown, |chain| - m
      {
        var found, sec, j := ScanForDead(chainCluster);
        if found {
          k := PlaceEntry(chainCluster, sec, j, slot, old(vol), ch, chain, m, grown);
          r := Ok(());
          return;
        }
        var next := NextCluster(chainCluster);
        LinkAt(vol.fat, chain, m);
        if next < 2 || next >= EOC_THRESHOLD {
          SearchFull(old(vol), vol, ch, chain, m, grown, cb);
          var g := GrowDir(chainCluster, ch);
          if g.Err? {
            r := Err(g.error);
            return;
          }
          SearchGrown(old(vol), ch, g.value, cb);
          m, chain, grown := |ch|, ch + [g.value], true;
          chainCluster := g.value;
        } else {
          SearchNext(old(vol), vol, ch, chain, m, grown, cb);
          chainCluster := next;
          m := m + 1;
        }
      }
    }

    /** The slot loops of `delete_dir_entry` over one cluster. */
    method ScanForName(c: nat, name: Str, ghost ms: seq<Mark>, ghost base: nat)
      returns (hit: bool, end: bool, sec: nat, k: nat)
      requires Ready() && 2 <= c < geo.TotalClusters() && MarksFrom(ms, base, SlotsOf(vol.data[c]))
      requires Lower(name) != DOT_NAME && Lower(name) != DOT_DOT_NAME
      ensures hit ==> !end && sec < geo.sectorsPerCluster && k < 16 && 16 * sec + k < |SlotsOf(vol.data[c])|
      ensures FindFrom(ms, name, base)
           == if hit then base + (16 * sec + k) else if end then -1
              else FindFrom(ms, name, base + |SlotsOf(vol.data[c])|)
      ensures !hit ==> HasEnd(ms, base) == (end || HasEnd(ms, base + |SlotsOf(vol.data[c])|))
    {
      assert |SlotsOf(vol.data[c])| == 16 * geo.sectorsPerCluster;
      hit, end, sec, k := false, false, 0, 0;
      while sec < geo.sectorsPerCluster
        invariant sec <= geo.sectorsPerCluster && FindFrom(ms, name, base) == FindFrom(ms, name, base + 16 * sec)
        invariant HasEnd(ms, base) == HasEnd(ms, base + 16 * sec) && !hit && !end
      {
        var buf := ReadSector(c, sec);
        BlockMarks(ms, base, vol.data[c], sec);
        hit, end, k := ScanBlock(buf, name, ms, base + 16 * sec);
        if hit || end {
          return;
        }
        sec := sec + 1;
      }
    }

    /** The innermost loop: the slots of one block. */
    static method ScanBlock(buf: Sector, name: Str, ghost ms: seq<Mark>, ghost at: nat)
      returns (hit: bool, end: bool, k: nat)
      requires MarksFrom(ms, at, SlotsOf(buf)) && Lower(name) != DOT_NAME && Lower(name) != DOT_DOT_NAME
      ensures hit ==> !end && k < 16
      ensures FindFrom(ms, name, at) == if hit then at + k else if end then -1 else FindFrom(ms, name, at + 16)
      ensures !hit ==> HasEnd(ms, at) == (end || HasEnd(ms, at + 16))
    {
      hit, end, k := false, false, 0;
      while k < 16
        invariant k <= 16 && !hit && !end
        invariant FindFrom(ms, name, at) == FindFrom(ms, name, at + k) && HasEnd(ms, at) == HasEnd(ms, at + k)
      {
        var chunk := buf[32 * k..32 * k + 32];
        assert SlotsOf(buf)[k] == chunk && ms[at + k] == Classify(chunk);
        hit, end := MatchSlot(chunk, name);
        if hit || end {
          return;
        }
        k := k + 1;
      }
    }

    /** One slot of the search: the entry sought, or the end of the directory. */
    static method MatchSlot(chunk: Slot, name: Str) returns (hit: bool, end: bool)
      requires Lower(name) != DOT_NAME && Lower(name) != DOT_DOT_NAME
      ensures hit <==> Classify(chunk).Live? && Lower(Classify(chunk).entry.name) == Lower(name)
      ensures end <==> Classify(chunk).End?
    {
      NameAtSlot(chunk, name);
      if chunk[0] == 0x00 {
        return false, true;
      }
      if IsSkipped(chunk) {
        return false, false;
      }
      var entryName := DecodeShortName(chunk);
      return Lower(entryName) == Lower(name), false;
    }

    /** The loops of `delete_dir_entry` over the chain, up to the write. */
    method SeekName(parent: nat, name: Str, ghost ch: seq<nat>)
      returns (hit: bool, end: bool, c: nat, sec: nat, k: nat, ghost m: nat)
      requires Ready() && IsChain(vol.fat, ch) && ch[0] == parent && Clusters(ch, |vol.data|)
      requires Lower(name) != DOT_NAME && Lower(name) != DOT_DOT_NAME
      ensures hit ==>
                m < |ch| && ch[m] == c && sec < geo.sectorsPerCluster && k < 16 && 16 * sec + k < |SlotsOf(vol.data[c])|
      ensures Find(Marks(DirSlots(vol.data, ch)), name) == if hit then Base(vol.data, ch, m) + (16 * sec + k) else -1
      ensures !hit ==> end == HasEnd(Marks(DirSlots(vol.data, ch)), 0)
    {
      ghost var ms := Marks(DirSlots(vol.data, ch));
      m := 0;
      c := parent;
      BaseEnd(vol.data, ch);
      while true
        invariant m < |ch| && c == ch[m] && Find(ms, name) == FindFrom(ms, name, Base(vol.data, ch, m))
        invariant HasEnd(ms, 0) == HasEnd(ms, Base(vol.data, ch, m))
        decreases |ch| - m
      {
        ClusterMarks(vol.data, ch, m);
        hit, end, sec, k := ScanForName(c, name, ms, Base(vol.data, ch, m));
        if hit || end {
          return;
        }
        var next := NextCluster(c);
        LinkAt(vol.fat, ch, m);
        if next < 2 || next >= EOC_THRESHOLD {
          return;
        }
        c := next;
        m := m + 1;
      }
    }

    /** `delete_dir_entry`: mark the slot a search finds as deleted. */
    method DeleteDirEntry(parent: nat, name: Str, ghost ch: seq<nat>) returns (r: Result<()>)
      requires Ready() && IsChain(vol.fat, ch) && ch[0] == parent && Clusters(ch, |vol.data|)
      requires Lower(name) != DOT_NAME && Lower(name) != DOT_DOT_NAME
      modifies this
      ensures Ready()
      ensures var ms := Marks(DirSlots(old(vol).data, ch));
              if Find(ms, name) >= 0 then r.Ok? && EntryDeleted(old(vol), vol, ch, Find(ms, name))
              else vol == old(vol) && r == if HasEnd(ms, 0) then Ok(()) else Err(NotFound)
    {
      var hit, end, c, sec, k, m := SeekName(parent, name, ch);
      if hit {
        MarkSlot(c, sec, k, ch, m);
        r := Ok(());
      } else {
        r := if end then Ok(()) else Err(NotFound);
      }
    }

    /** Set the first byte of a slot to 0xE5. */
    method MarkSlot(c: nat, sec: nat, k: nat, ghost ch: seq<nat>, ghost m: nat)
      requires Ready() && IsChain(vol.fat, ch) && m < |ch| && ch[m] == c && Clusters(ch, |vol.data|)
      requires sec < geo.sectorsPerCluster && k < 16 && 16 * sec + k < |SlotsOf(vol.data[c])|
      modifies this
      ensures Ready() && EntryDeleted(old(vol), vol, ch, Base(old(vol).data, ch, m) + (16 * sec + k))
    {
      var chunk := ReadSlotBytes(c, sec, k);
      DeleteAt(vol, ch, m, 16 * sec + k);
      PutSlot(c, sec, k, chunk[0 := DELETED]);
    }

    method ReadSlotBytes(c: nat, sec: nat, k: nat) returns (chunk: Slot)
      requires Ready() && 2 <= c < geo.TotalClusters() && sec < geo.sectorsPerCluster && k < 16
      ensures 16 * sec + k < |SlotsOf(vol.data[c])| && chunk == SlotsOf(vol.data[c])[16 * sec + k]
    {
      var buf := ReadSector(c, sec);
      SlotInBlock(vol.data[c], sec, k);
      chunk := buf[32 * k..32 * k + 32];
    }

    /** `read_dir`: every live entry before the end slot. */
    method ReadDir(cluster: nat, ghost ch: seq<nat>) returns (entries: seq<DirEntry>)
      requires Ready() && IsChain(vol.fat, ch) && ch[0] == cluster
      ensures Clusters(ch, |vol.data|) && entries == EntriesFrom(Marks(DirSlots(vol.data, ch)), 0)
    {
      ChainClusters(vol.fat, ch);
      WholeChainFits(geo, blocks, vol, ch);
      var bytes := ReadChain(cluster, USIZE_MAX, ch);
      SlotsOfChain(vol.data, ch, geo.ClusterBytes());
      entries := CollectEntries(bytes);
    }

    /** `find_in_dir`: the first entry with the name, ignoring case. */
    method FindInDir(cluster: nat, name: Str, ghost ch: seq<nat>) returns (found: Option<DirEntry>)
      requires Ready() && IsChain(vol.fat, ch) && ch[0] == cluster
      ensures Clusters(ch, |vol.data|)
      ensures var ms := Marks(DirSlots(vol.data, ch));
              found == if Find(ms, name) < 0 then None else Some(ms[Find(ms, name)].entry)
    {
      var entries := ReadDir(cluster, ch);
      MatchIsFind(Marks(DirSlots(vol.data, ch)), name, 0);
      found := FindEntry(entries, name);
    }
  }

  /** A whole chain is shorter than the largest machine word. */
  lemma WholeChainFits(g: Geometry, blocks: seq<Sector>, v: Vol, ch: seq<nat>)
    requires Stands(g, blocks, v) && Whole(g, v) && IsChain(v.fat, ch) && Clusters(ch, |v.data|)
    ensures |ChainBytes(v.data, ch)| < USIZE_MAX
  {
    assert g.TotalClusters() * g.ClusterBytes() < USIZE_MAX by {
      Opened(g, blocks, v);
      BytesAddressable(g, |blocks|);
    }
    ChainShort(v.fat, ch);
    ChainBytesLength(v.data, ch, g.ClusterBytes());
    MulMono(|ch|, |v.fat|, g.ClusterBytes());
  }

  /** The chunk loop of `read_dir`. */
  method CollectEntries(bytes: seq<byte>) returns (out: seq<DirEntry>)
    ensures out == EntriesFrom(Marks(SlotsOf(bytes)), 0)
  {
    out := [];
    ghost var ms := Marks(SlotsOf(bytes));
    var i := 0;
    while i < |bytes| / 32
      invariant i <= |bytes| / 32 && out + EntriesFrom(ms, i) == EntriesFrom(ms, 0)
    {
      var mark := ReadChunk(bytes, i);
      match mark {
        case End => break;
        case Live(e) => out := out + [e];
        case _ =>
      }
      i := i + 1;
    }
  }

  /** The `i`-th chunk. */
  method ReadChunk(bytes: seq<byte>, i: nat) returns (mark: Mark)
    requires i < |bytes| / 32
    ensures mark == Marks(SlotsOf(bytes))[i]
  {
    MarkAt(SlotsOf(bytes), i);
    mark := ReadSlot(bytes[32 * i..32 * i + 32]);
  }

  /** What `read_dir` makes of one slot. */
  method ReadSlot(chunk: Slot) returns (mark: Mark)
    ensures mark == Classify(chunk)
  {
    if chunk[0] == 0x00 {
      return End;
    }
    if IsSkipped(chunk) {
      return if chunk[0] == DELETED then Gone else Hidden;
    }
    var name := DecodeShortName(chunk);
    if name == DOT_NAME || name == DOT_DOT_NAME {
      return Hidden;
    }
    var cluster := Word16(chunk, 20) * 0x1_0000 + Word16(chunk, 26);
    var size := Word32(chunk, 28);
    var isDir := chunk[11] / 16 % 2 == 1;
    mark := Live(DirEntry(name, isDir, cluster, size));
  }

  /** `find(|e| e.name.eq_ignore_ascii_case(name))`. */
  method FindEntry(entries: seq<DirEntry>, name: Str) returns (found: Option<DirEntry>)
    ensures found == FirstMatch(entries, name)
  {
    for i := 0 to |entries|
      invariant FirstMatch(entries, name) == FirstMatch(entries[i..], name)
    {
      if Lower(entries[i].name) == Lower(name) {
        return Some(entries[i]);
      }
      assert entries[i..][1..] == entries[i + 1..];
    }
    found := None;
  }

  /** Volume `v` with the first `sec` blocks of cluster `c` replaced from `bytes`. */
  ghost predicate Partly(v: Vol, now: Vol, c: nat, sec: nat, bytes: seq<byte>) {
    && c < |v.data| && |bytes| == |v.data[c]| && 512 * sec <= |bytes|
    && now == v.(data := v.data[c := bytes[..512 * sec] + v.data[c][512 * sec..]])
  }

  lemma PartlyStart(v: Vol, c: nat, bytes: seq<byte>)
    requires c < |v.data| && |bytes| == |v.data[c]|
    ensures Partly(v, v, c, 0, bytes)
  {
    assert bytes[..0] + v.data[c][0..] == v.data[c];
  }

  lemma PartlyNext(v: Vol, now: Vol, c: nat, sec: nat, bytes: seq<byte>)
    requires Partly(v, now, c, sec, bytes) && 512 * sec + 512 <= |bytes|
    ensures |now.data[c]| == |bytes|
    ensures var block := bytes[512 * sec..512 * sec + 512];
            Partly(v, now.(data := now.data[c := Splice(now.data[c], 512 * sec, block)]), c, sec + 1, bytes)
  {
    SpliceNext(bytes, v.data[c], 512 * sec);
  }

  lemma PartlyEnd(v: Vol, now: Vol, c: nat, sec: nat, bytes: seq<byte>)
    requires Partly(v, now, c, sec, bytes) && 512 * sec == |bytes|
    ensures now == v.(data := v.data[c := bytes])
  {
    assert bytes[..|bytes|] + v.data[c][|bytes|..] == bytes;
  }

  lemma FreedMeasure(fat: seq<nat>, c: nat)
    requires InRange(fat) && Follows(c) && c < |fat|
    ensures var cut := fat[c := 0];
            && InRange(cut) && (Follows(fat[c]) ==> fat[c] < |fat|)
            && Freed(fat, c) == Freed(cut, fat[c]) && FreedRounds(fat, c) == 1 + FreedRounds(cut, fat[c])
            && (Used(cut, 0) < Used(fat, 0) || (Used(cut, 0) == Used(fat, 0) && !Follows(fat[c])))
  {
    if fat[c] != 0 {
      UsedClear(fat, c, 0);
    } else {
      assert fat[c := 0] == fat;
    }
  }

  lemma ReadStart(data: seq<seq<byte>>, ch: seq<nat>)
    requires Clusters(ch, |data|)
    ensures ChainBytes(data, ch[..0]) == []
  {
  }

  /** One more cluster of the chain read. */
  lemma ReadNext(data: seq<seq<byte>>, ch: seq<nat>, m: nat)
    requires Clusters(ch, |data|) && m < |ch|
    ensures ChainBytes(data, ch[..m + 1]) == ChainBytes(data, ch[..m]) + data[ch[m]]
    ensures ChainBytes(data, ch[..m + 1]) <= ChainBytes(data, ch)
  {
    assert ch[..m + 1] == ch[..m] + [ch[m]];
    ChainBytesConcat(data, ch[..m], [ch[m]]);
    ChainBytesOne(data, ch[m]);
    ChainBytesPrefix(data, ch, m + 1);
  }

  lemma ChainBytesOne(data: seq<seq<byte>>, c: nat)
    requires 2 <= c < |data|
    ensures ChainBytes(data, [c]) == data[c]
  {
  }

  lemma ChainBytesPrefix(data: seq<seq<byte>>, ch: seq<nat>, m: nat)
    requires Clusters(ch, |data|) && m <= |ch|
    ensures ChainBytes(data, ch[..m]) <= ChainBytes(data, ch)
  {
    assert ch == ch[..m] + ch[m..];
    ChainBytesConcat(data, ch[..m], ch[m..]);
  }

  lemma ReadEnd(data: seq<seq<byte>>, ch: seq<nat>)
    requires Clusters(ch, |data|)
    ensures ChainBytes(data, ch[..|ch|]) == ChainBytes(data, ch)
  {
    assert ch[..|ch|] == ch;
  }

  /** One more cluster of the chain written. */
  lemma StoredStep(data: seq<seq<byte>>, ch: seq<nat>, m: nat, bytes: seq<byte>, offset: nat, cb: nat)
    requires cb > 0 && Clusters(ch, |data|) && m < |ch| && offset < |bytes|
    ensures var end := if offset + cb < |bytes| then offset + cb else |bytes|;
            && Stored(data, ch[m..], bytes[offset..], cb)
               == Stored(data[ch[m] := Padded(bytes[offset..end], cb)], ch[m + 1..], bytes[end..], cb)
            && (end == |bytes| ==>
                Stored(data, ch[m..], bytes[offset..], cb) == data[ch[m] := Padded(bytes[offset..end], cb)])
  {
    var end := if offset + cb < |bytes| then offset + cb else |bytes|;
    var n := end - offset;
    assert ch[m..][0] == ch[m] && ch[m..][1..] == ch[m + 1..];
    assert bytes[offset..][..n] == bytes[offset..end] && bytes[offset..][n..] == bytes[end..];
  }

  lemma SpliceNext(bytes: seq<byte>, was: seq<byte>, off: nat)
    requires |bytes| == |was| && off + 512 <= |bytes|
    ensures Splice(bytes[..off] + was[off..], off, bytes[off..off + 512]) == bytes[..off + 512] + was[off + 512..]
  {
  }
}
