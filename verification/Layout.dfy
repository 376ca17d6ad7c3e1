/** How a FAT32 volume is laid out on 512-byte blocks, and what its blocks mean.

    `View` reads a block sequence as a `Vol`: one link per cluster, the bytes of every data
    cluster, the FSInfo counters and everything that no operation may change. Each lemma about a
    block write says which single part of the `Vol` that write changes. */
module Layout {
  import opened Bytes

  const BLOCK_SIZE: nat := 512
  const EOC_THRESHOLD: nat := 0x0FFF_FFF8
  const END_OF_CHAIN: nat := 0x0FFF_FFFF
  const LINK_RANGE: nat := 0x1000_0000
  const LEAD_SIGNATURE: u32 := 0x4161_5252
  const STRUCT_SIGNATURE: u32 := 0x6141_7272
  const UNKNOWN_COUNT: u32 := 0xFFFF_FFFF

  type Sector = s: seq<byte> | |s| == 512 witness Zeros(512)

  datatype Geometry = Geometry(sectorsPerCluster: nat, reservedSectors: nat, numFats: nat,
                               sectorsPerFat: nat, rootCluster: nat)
  {
    function DataStart(): nat {
      reservedSectors + numFats * sectorsPerFat
    }

    function TotalClusters(): nat {
      sectorsPerFat * 512 / 4
    }

    function ClusterBytes(): nat {
      sectorsPerCluster * 512
    }

    /** First block of a data cluster. */
    function Lba(c: nat): nat
      requires 2 <= c
    {
      DataStart() + (c - 2) * sectorsPerCluster
    }

    /** Block holding the entry of cluster `c` in FAT copy `copy`. */
    function FatBlock(copy: nat, c: nat): nat {
      reservedSectors + copy * sectorsPerFat + c * 4 / 512
    }

    /** A volume of `n` blocks on which every FAT index has its data cluster. */
    ghost predicate WellFormed(n: nat) {
      && 1 <= sectorsPerCluster
      && 2 <= reservedSectors
      && 1 <= numFats
      && 1 <= sectorsPerFat
      && TotalClusters() < EOC_THRESHOLD
      && 2 <= rootCluster < TotalClusters()
      && Lba(TotalClusters()) <= n <= 0x1_0000_0000
    }
  }

  lemma MulMono(a: int, b: int, k: nat)
    requires a <= b
    ensures a * k <= b * k
  {
  }

  lemma DivAtMost(a: nat, n: nat, k: nat)
    requires k > 0 && a <= n * k
    ensures a / k <= n
  {
    var q := a / k;
    assert a == q * k + a % k;
    if q > n {
      MulMono(n + 1, q, k);
    }
  }

  /** Rounding up: enough units, and never more than one for each. */
  lemma CeilDiv(n: nat, k: nat)
    requires k > 0
    ensures (n + k - 1) / k <= n <= (n + k - 1) / k * k
  {
    var a := n + k - 1;
    assert a == a / k * k + a % k;
    if n == 0 {
      assert a < k;
      DivAtMost(0, 0, k);
      assert a / k == 0;
    } else {
      MulMono(1, n, k - 1);
      assert n * (k - 1) == n * k - n;
      DivAtMost(a, n, k);
    }
  }

  lemma MulStep(a: int, k: int)
    ensures (a + 1) * k == a * k + k
  {
  }

  /** Rows of equal width never overlap. */
  lemma RowsDisjoint(i: nat, a: nat, j: nat, b: nat, w: nat)
    requires a < w && b < w
    ensures i * w + a == j * w + b <==> i == j && a == b
  {
    if i < j {
      MulMono(i + 1, j, w);
      MulStep(i, w);
    } else if j < i {
      MulMono(j + 1, i, w);
      MulStep(j, w);
    }
  }

  /** Every data cluster lies between the FAT copies and the end of the disk. */
  lemma ClusterRegion(g: Geometry, n: nat, c: nat)
    requires g.WellFormed(n) && 2 <= c < g.TotalClusters()
    ensures g.DataStart() <= g.Lba(c) && g.Lba(c) + g.sectorsPerCluster <= g.Lba(g.TotalClusters()) <= n
  {
    MulMono(0, c - 2, g.sectorsPerCluster);
    MulMono(c - 2 + 1, g.TotalClusters() - 2, g.sectorsPerCluster);
    MulStep(c - 2, g.sectorsPerCluster);
  }

  /** Distinct clusters have disjoint block ranges. */
  lemma ClustersDisjoint(g: Geometry, n: nat, c: nat, s: nat, d: nat, t: nat)
    requires g.WellFormed(n) && 2 <= c < g.TotalClusters() && 2 <= d < g.TotalClusters()
    requires s < g.sectorsPerCluster && t < g.sectorsPerCluster
    ensures g.Lba(c) + s == g.Lba(d) + t <==> c == d && s == t
  {
    RowsDisjoint(c - 2, s, d - 2, t, g.sectorsPerCluster);
  }

  lemma FatOffset(c: nat, spf: nat)
    requires c < spf * 512 / 4
    ensures c * 4 / 512 < spf && c * 4 % 512 + 4 <= 512
  {
  }

  /** Every FAT entry lies wholly inside one block of its own copy, past the reserved area and
      before the data area, and no two entries share a byte. */
  lemma FatRegion(g: Geometry, n: nat, copy: nat, c: nat)
    requires g.WellFormed(n) && copy < g.numFats && c < g.TotalClusters()
    ensures c * 4 / 512 < g.sectorsPerFat && c * 4 % 512 + 4 <= 512
    ensures g.reservedSectors <= g.FatBlock(copy, c) < g.DataStart() <= n
  {
    FatOffset(c, g.sectorsPerFat);
    MulMono(0, copy, g.sectorsPerFat);
    MulMono(copy + 1, g.numFats, g.sectorsPerFat);
    MulStep(copy, g.sectorsPerFat);
    MulMono(0, g.TotalClusters() - 2, g.sectorsPerCluster);
  }

  lemma EntriesDisjoint(g: Geometry, n: nat, i: nat, c: nat, j: nat, d: nat)
    requires g.WellFormed(n) && i < g.numFats && j < g.numFats
    requires c < g.TotalClusters() && d < g.TotalClusters()
    ensures g.FatBlock(i, c) == g.FatBlock(j, d) <==> i == j && c * 4 / 512 == d * 4 / 512
    ensures c != d && c * 4 / 512 == d * 4 / 512 ==>
              c * 4 % 512 + 4 <= d * 4 % 512 || d * 4 % 512 + 4 <= c * 4 % 512
  {
    FatRegion(g, n, i, c);
    FatRegion(g, n, j, d);
    RowsDisjoint(i, c * 4 / 512, j, d * 4 / 512, g.sectorsPerFat);
  }

  /** The raw 32-bit entry of cluster `c` in FAT copy `copy`. */
  function Raw(g: Geometry, blocks: seq<Sector>, copy: nat, c: nat): u32
    requires g.WellFormed(|blocks|) && copy < g.numFats && c < g.TotalClusters()
  {
    FatRegion(g, |blocks|, copy, c);
    Word32(blocks[g.FatBlock(copy, c)], c * 4 % 512)
  }

  /** No 32-bit computation of the driver overflows on a well-formed volume. A cluster has at most 255
      blocks, since the boot sector gives the number in a byte. */
  lemma NoOverflow(g: Geometry, n: nat, copy: nat, c: nat, sec: nat)
    requires g.WellFormed(n) && g.sectorsPerCluster <= 255
    requires copy < g.numFats && 2 <= c < g.TotalClusters() && sec < g.sectorsPerCluster
    ensures g.sectorsPerFat * 512 < 0x1_0000_0000 && c * 4 < 0x1_0000_0000 && g.sectorsPerCluster * 512 < 0x1_0000_0000
    ensures g.numFats * g.sectorsPerFat <= g.DataStart() < 0x1_0000_0000
    ensures copy * g.sectorsPerFat <= g.FatBlock(copy, c) < 0x1_0000_0000
    ensures (c - 2) * g.sectorsPerCluster <= g.Lba(c) <= g.Lba(c) + sec < 0x1_0000_0000
  {
    FatRegion(g, n, copy, c);
    ClusterRegion(g, n, c);
  }

  /** The concatenation of blocks. */
  function Flat(ss: seq<Sector>): (r: seq<byte>)
    ensures |r| == 512 * |ss|
  {
    if ss == [] then [] else ss[0] + Flat(ss[1..])
  }

  /** Block `k` sits at byte `512 * k` of the concatenation. */
  lemma {:induction false} FlatAt(ss: seq<Sector>, k: nat)
    requires k < |ss|
    ensures Flat(ss)[512 * k..512 * k + 512] == ss[k]
  {
    if k > 0 {
      FlatAt(ss[1..], k - 1);
      var tail := Flat(ss[1..]);
      assert Flat(ss) == ss[0] + tail;
      assert Flat(ss)[512 * k..512 * k + 512] == tail[512 * (k - 1)..512 * (k - 1) + 512];
    }
  }

  lemma SpliceFront(a: seq<byte>, b: seq<byte>, x: seq<byte>)
    requires |x| == |a|
    ensures Splice(a + b, 0, x) == x + b
  {
  }

  lemma SpliceAfter(a: seq<byte>, b: seq<byte>, i: nat, x: seq<byte>)
    requires i + |x| <= |b|
    ensures Splice(a + b, |a| + i, x) == a + Splice(b, i, x)
  {
  }

  /** Replacing a block splices the concatenation. */
  lemma {:induction false} FlatUpdate(ss: seq<Sector>, k: nat, s: Sector)
    requires k < |ss|
    ensures Flat(ss[k := s]) == Splice(Flat(ss), 512 * k, s)
  {
    var tail := Flat(ss[1..]);
    if k == 0 {
      assert ss[0 := s][1..] == ss[1..];
      SpliceFront(ss[0], tail, s);
    } else {
      FlatUpdate(ss[1..], k - 1, s);
      assert ss[k := s][1..] == ss[1..][k - 1 := s];
      SpliceAfter(ss[0], tail, 512 * (k - 1), s);
    }
  }

  datatype FsInfo = FsInfo(signed: bool, free: u32, hint: u32)

  /** What no operation may change: boot sector and reserved area, the fixed part of FSInfo, the top
      four bits of every entry of every FAT copy, and the blocks past the last cluster. */
  datatype Frozen = Frozen(boot: Sector, reserved: seq<Sector>, info: seq<byte>,
                           tops: seq<seq<nat>>, tail: seq<Sector>)

  datatype Vol = Vol(fat: seq<nat>, data: seq<seq<byte>>, info: FsInfo, frozen: Frozen)

  function FatOf(g: Geometry, blocks: seq<Sector>, copy: nat): (r: seq<nat>)
    requires g.WellFormed(|blocks|) && copy < g.numFats
    ensures |r| == g.TotalClusters()
    ensures forall c :: 0 <= c < |r| ==> r[c] == Raw(g, blocks, copy, c) % LINK_RANGE
  {
    seq(g.TotalClusters(), c requires 0 <= c < g.TotalClusters() => Raw(g, blocks, copy, c) % LINK_RANGE)
  }

  function TopsOf(g: Geometry, blocks: seq<Sector>, copy: nat): (r: seq<nat>)
    requires g.WellFormed(|blocks|) && copy < g.numFats
    ensures |r| == g.TotalClusters()
    ensures forall c :: 0 <= c < |r| ==> r[c] == Raw(g, blocks, copy, c) / LINK_RANGE
  {
    seq(g.TotalClusters(), c requires 0 <= c < g.TotalClusters() => Raw(g, blocks, copy, c) / LINK_RANGE)
  }

  function ClusterOf(g: Geometry, blocks: seq<Sector>, c: nat): (r: seq<byte>)
    requires g.WellFormed(|blocks|) && 2 <= c < g.TotalClusters()
    ensures |r| == g.ClusterBytes()
  {
    ClusterRegion(g, |blocks|, c);
    Flat(blocks[g.Lba(c)..g.Lba(c) + g.sectorsPerCluster])
  }

  function DataOf(g: Geometry, blocks: seq<Sector>): (r: seq<seq<byte>>)
    requires g.WellFormed(|blocks|)
    ensures |r| == g.TotalClusters()
    ensures forall c :: 2 <= c < |r| ==> r[c] == ClusterOf(g, blocks, c)
    ensures forall c :: 2 <= c < |r| ==> |r[c]| == g.ClusterBytes()
  {
    seq(g.TotalClusters(), c requires 0 <= c < g.TotalClusters() => if c < 2 then [] else ClusterOf(g, blocks, c))
  }

  function InfoOf(s: Sector): FsInfo {
    FsInfo(Word32(s, 0) == LEAD_SIGNATURE && Word32(s, 484) == STRUCT_SIGNATURE,
           Word32(s, 0x1E8), Word32(s, 0x1EC))
  }

  function FrozenOf(g: Geometry, blocks: seq<Sector>): Frozen
    requires g.WellFormed(|blocks|)
  {
    RegionsInOrder(g, |blocks|);
    Frozen(blocks[0], blocks[2..g.reservedSectors], blocks[1][..0x1E8] + blocks[1][0x1F0..],
           seq(g.numFats, i requires 0 <= i < g.numFats => TopsOf(g, blocks, i)),
           blocks[g.Lba(g.TotalClusters())..])
  }

  /** Boot sector, FSInfo, FAT copies and data area come in this order and do not overlap. */
  lemma RegionsInOrder(g: Geometry, n: nat)
    requires g.WellFormed(n)
    ensures 2 <= g.reservedSectors <= g.DataStart() <= g.Lba(g.TotalClusters()) <= n
  {
  }

  /** The meaning of a volume's blocks. */
  function View(g: Geometry, blocks: seq<Sector>): (v: Vol)
    requires g.WellFormed(|blocks|)
    ensures |v.fat| == |v.data| == g.TotalClusters()
  {
    RegionsInOrder(g, |blocks|);
    Vol(FatOf(g, blocks, 0), DataOf(g, blocks), InfoOf(blocks[1]), FrozenOf(g, blocks))
  }

  /** All FAT copies agree on the low 28 bits of every entry. */
  ghost predicate Mirrored(g: Geometry, blocks: seq<Sector>)
    requires g.WellFormed(|blocks|)
  {
    forall i :: 0 <= i < g.numFats ==> FatOf(g, blocks, i) == FatOf(g, blocks, 0)
  }

  // ---- Writing one block of a data cluster ----

  lemma FatKept(g: Geometry, blocks: seq<Sector>, blocks': seq<Sector>, copy: nat)
    requires g.WellFormed(|blocks|) && |blocks'| == |blocks| && copy < g.numFats
    requires forall k :: g.reservedSectors <= k < g.DataStart() && k < |blocks| ==> blocks'[k] == blocks[k]
    ensures FatOf(g, blocks', copy) == FatOf(g, blocks, copy)
    ensures TopsOf(g, blocks', copy) == TopsOf(g, blocks, copy)
  {
    forall c | 0 <= c < g.TotalClusters()
      ensures Raw(g, blocks', copy, c) == Raw(g, blocks, copy, c)
    {
      FatRegion(g, |blocks|, copy, c);
    }
  }

  lemma DataKept(g: Geometry, blocks: seq<Sector>, blocks': seq<Sector>)
    requires g.WellFormed(|blocks|) && |blocks'| == |blocks|
    requires forall k :: g.DataStart() <= k < |blocks| ==> blocks'[k] == blocks[k]
    ensures DataOf(g, blocks') == DataOf(g, blocks)
  {
    forall c | 2 <= c < g.TotalClusters()
      ensures ClusterOf(g, blocks', c) == ClusterOf(g, blocks, c)
    {
      ClusterRegion(g, |blocks|, c);
      assert blocks'[g.Lba(c)..g.Lba(c) + g.sectorsPerCluster] == blocks[g.Lba(c)..g.Lba(c) + g.sectorsPerCluster];
    }
  }

  lemma TopsKept(g: Geometry, blocks: seq<Sector>, blocks': seq<Sector>)
    requires g.WellFormed(|blocks|) && |blocks'| == |blocks|
    requires forall i :: 0 <= i < g.numFats ==> TopsOf(g, blocks', i) == TopsOf(g, blocks, i)
    ensures FrozenOf(g, blocks').tops == FrozenOf(g, blocks).tops
  {
  }

  /** Writing block `sec` of cluster `c` splices that cluster's bytes and changes nothing else. */
  lemma DataWrite(g: Geometry, blocks: seq<Sector>, c: nat, sec: nat, s: Sector)
    requires g.WellFormed(|blocks|) && 2 <= c < g.TotalClusters() && sec < g.sectorsPerCluster
    ensures g.Lba(c) + sec < |blocks|
    ensures var v := View(g, blocks); var blocks' := blocks[g.Lba(c) + sec := s];
            && 512 * sec + 512 <= |v.data[c]|
            && View(g, blocks') == v.(data := v.data[c := Splice(v.data[c], 512 * sec, s)])
            && (Mirrored(g, blocks) ==> Mirrored(g, blocks'))
  {
    ClusterRegion(g, |blocks|, c);
    RegionsInOrder(g, |blocks|);
    var at := g.Lba(c) + sec;
    var blocks' := blocks[at := s];
    forall i | 0 <= i < g.numFats
      ensures FatOf(g, blocks', i) == FatOf(g, blocks, i) && TopsOf(g, blocks', i) == TopsOf(g, blocks, i)
    {
      FatKept(g, blocks, blocks', i);
    }
    TopsKept(g, blocks, blocks');
    DataWriteBytes(g, blocks, c, sec, s);
    assert blocks'[2..g.reservedSectors] == blocks[2..g.reservedSectors];
    assert blocks'[g.Lba(g.TotalClusters())..] == blocks[g.Lba(g.TotalClusters())..];
  }

  lemma ClusterWritten(g: Geometry, blocks: seq<Sector>, c: nat, sec: nat, s: Sector, d: nat)
    requires g.WellFormed(|blocks|) && 2 <= c < g.TotalClusters() && sec < g.sectorsPerCluster
    requires g.Lba(c) + sec < |blocks| && 2 <= d < g.TotalClusters()
    ensures ClusterOf(g, blocks[g.Lba(c) + sec := s], d)
         == if d == c then Splice(ClusterOf(g, blocks, c), 512 * sec, s) else ClusterOf(g, blocks, d)
  {
    var blocks' := blocks[g.Lba(c) + sec := s];
    ClusterRegion(g, |blocks|, d);
    var mine := blocks[g.Lba(d)..g.Lba(d) + g.sectorsPerCluster];
    var mine' := blocks'[g.Lba(d)..g.Lba(d) + g.sectorsPerCluster];
    if d == c {
      assert mine' == mine[sec := s];
      FlatUpdate(mine, sec, s);
    } else {
      forall t | 0 <= t < g.sectorsPerCluster
        ensures mine'[t] == mine[t]
      {
        ClustersDisjoint(g, |blocks|, c, sec, d, t);
      }
      assert mine' == mine;
    }
  }

  lemma DataWriteBytes(g: Geometry, blocks: seq<Sector>, c: nat, sec: nat, s: Sector)
    requires g.WellFormed(|blocks|) && 2 <= c < g.TotalClusters() && sec < g.sectorsPerCluster
    requires g.Lba(c) + sec < |blocks|
    ensures DataOf(g, blocks[g.Lba(c) + sec := s])
         == DataOf(g, blocks)[c := Splice(ClusterOf(g, blocks, c), 512 * sec, s)]
  {
    forall d | 2 <= d < g.TotalClusters()
      ensures ClusterOf(g, blocks[g.Lba(c) + sec := s], d)
           == if d == c then Splice(ClusterOf(g, blocks, c), 512 * sec, s) else ClusterOf(g, blocks, d)
    {
      ClusterWritten(g, blocks, c, sec, s, d);
    }
  }

  /** Block `sec` of a cluster is its `sec`-th stretch of 512 bytes. */
  lemma ClusterSector(g: Geometry, blocks: seq<Sector>, c: nat, sec: nat)
    requires g.WellFormed(|blocks|) && 2 <= c < g.TotalClusters() && sec < g.sectorsPerCluster
    ensures g.Lba(c) + sec < |blocks| && 512 * sec + 512 <= |View(g, blocks).data[c]|
    ensures View(g, blocks).data[c][512 * sec..512 * sec + 512] == blocks[g.Lba(c) + sec]
  {
    ClusterRegion(g, |blocks|, c);
    FlatAt(blocks[g.Lba(c)..g.Lba(c) + g.sectorsPerCluster], sec);
  }

  // ---- Writing the FSInfo sector ----

  /** Changing only the two counters of the FSInfo sector changes only `info`. */
  lemma InfoWrite(g: Geometry, blocks: seq<Sector>, s: Sector)
    requires g.WellFormed(|blocks|)
    requires |blocks| > 1 && forall k :: 0 <= k < 512 && !(0x1E8 <= k < 0x1F0) ==> s[k] == blocks[1][k]
    ensures View(g, blocks[1 := s]) == View(g, blocks).(info := InfoOf(s))
    ensures Mirrored(g, blocks) ==> Mirrored(g, blocks[1 := s])
  {
    RegionsInOrder(g, |blocks|);
    var blocks' := blocks[1 := s];
    forall i | 0 <= i < g.numFats
      ensures FatOf(g, blocks', i) == FatOf(g, blocks, i) && TopsOf(g, blocks', i) == TopsOf(g, blocks, i)
    {
      FatKept(g, blocks, blocks', i);
    }
    TopsKept(g, blocks, blocks');
    DataKept(g, blocks, blocks');
    assert blocks'[2..g.reservedSectors] == blocks[2..g.reservedSectors];
    assert blocks'[g.Lba(g.TotalClusters())..] == blocks[g.Lba(g.TotalClusters())..];
    assert s[..0x1E8] == blocks[1][..0x1E8] && s[0x1F0..] == blocks[1][0x1F0..];
  }

  // ---- Writing a FAT entry into every copy ----

  /** The block of one FAT copy after its entry for `c` was patched: the low 28 bits become `value`,
      the top four bits stay. */
  function PatchedBlock(s: Sector, c: nat, value: u32): Sector
    requires c * 4 % 512 + 4 <= 512
  {
    Put32(s, c * 4 % 512,
          value % LINK_RANGE + Word32(s, c * 4 % 512) / LINK_RANGE * LINK_RANGE)
  }

  /** The blocks after the first `n` FAT copies were patched. */
  ghost predicate PatchedCopies(g: Geometry, blocks: seq<Sector>, blocks': seq<Sector>, c: nat, value: u32, n: nat)
    requires g.WellFormed(|blocks|) && c < g.TotalClusters()
  {
    FatOffset(c, g.sectorsPerFat);
    && |blocks'| == |blocks|
    && (forall i :: 0 <= i < n <= g.numFats ==>
                    && g.FatBlock(i, c) < |blocks|
                    && blocks'[g.FatBlock(i, c)] == PatchedBlock(blocks[g.FatBlock(i, c)], c, value))
    && (forall k :: 0 <= k < |blocks| && (forall i :: 0 <= i < n ==> k != g.FatBlock(i, c)) ==> blocks'[k] == blocks[k])
  }

  lemma PatchNext(g: Geometry, blocks: seq<Sector>, blocks': seq<Sector>, c: nat, value: u32, n: nat, k: nat)
    requires g.WellFormed(|blocks|) && c < g.TotalClusters() && n < g.numFats
    requires PatchedCopies(g, blocks, blocks', c, value, n)
    requires c * 4 % 512 + 4 <= 512 && k == g.FatBlock(n, c) < |blocks|
    ensures blocks'[k] == blocks[k]
    ensures PatchedCopies(g, blocks, blocks'[k := PatchedBlock(blocks[k], c, value)], c, value, n + 1)
  {
    forall i | 0 <= i < n
      ensures g.FatBlock(i, c) != g.FatBlock(n, c)
    {
      EntriesDisjoint(g, |blocks|, i, c, n, c);
    }
  }

  /** Once every copy is patched, each copy holds `value` at `c` and is otherwise unchanged. */
  lemma PatchedRaw(g: Geometry, blocks: seq<Sector>, blocks': seq<Sector>, c: nat, value: u32, copy: nat, d: nat)
    requires g.WellFormed(|blocks|) && c < g.TotalClusters() && d < g.TotalClusters() && copy < g.numFats
    requires PatchedCopies(g, blocks, blocks', c, value, g.numFats)
    ensures Raw(g, blocks', copy, d) / LINK_RANGE == Raw(g, blocks, copy, d) / LINK_RANGE
    ensures Raw(g, blocks', copy, d) % LINK_RANGE
         == if d == c then value % LINK_RANGE else Raw(g, blocks, copy, d) % LINK_RANGE
  {
    FatRegion(g, |blocks|, copy, c);
    FatRegion(g, |blocks|, copy, d);
    EntriesDisjoint(g, |blocks|, copy, c, copy, d);
    var k := g.FatBlock(copy, d);
    if c * 4 / 512 == d * 4 / 512 {
      assert k == g.FatBlock(copy, c);
      if d != c {
        Word32Local(blocks'[k], blocks[k], d * 4 % 512);
      }
    } else {
      forall i | 0 <= i < g.numFats
        ensures k != g.FatBlock(i, c)
      {
        EntriesDisjoint(g, |blocks|, copy, d, i, c);
      }
    }
  }

  lemma PatchedFat(g: Geometry, blocks: seq<Sector>, blocks': seq<Sector>, c: nat, value: u32, copy: nat)
    requires g.WellFormed(|blocks|) && c < g.TotalClusters() && copy < g.numFats
    requires PatchedCopies(g, blocks, blocks', c, value, g.numFats)
    ensures FatOf(g, blocks', copy) == FatOf(g, blocks, copy)[c := value % LINK_RANGE]
    ensures TopsOf(g, blocks', copy) == TopsOf(g, blocks, copy)
  {
    forall d | 0 <= d < g.TotalClusters()
      ensures Raw(g, blocks', copy, d) / LINK_RANGE == Raw(g, blocks, copy, d) / LINK_RANGE
      ensures Raw(g, blocks', copy, d) % LINK_RANGE
           == if d == c then value % LINK_RANGE else Raw(g, blocks, copy, d) % LINK_RANGE
    {
      PatchedRaw(g, blocks, blocks', c, value, copy, d);
    }
  }

  lemma PatchedElsewhere(g: Geometry, blocks: seq<Sector>, blocks': seq<Sector>, c: nat, value: u32, k: nat)
    requires g.WellFormed(|blocks|) && c < g.TotalClusters() && k < |blocks|
    requires PatchedCopies(g, blocks, blocks', c, value, g.numFats)
    requires k < g.reservedSectors || g.DataStart() <= k
    ensures blocks'[k] == blocks[k]
  {
    forall i | 0 <= i < g.numFats
      ensures k != g.FatBlock(i, c)
    {
      FatRegion(g, |blocks|, i, c);
    }
  }

  /** Patching every copy changes exactly one link, keeps the copies equal and every top nibble. */
  lemma FatWrite(g: Geometry, blocks: seq<Sector>, blocks': seq<Sector>, c: nat, value: u32)
    requires g.WellFormed(|blocks|) && c < g.TotalClusters()
    requires PatchedCopies(g, blocks, blocks', c, value, g.numFats)
    ensures View(g, blocks') == View(g, blocks).(fat := View(g, blocks).fat[c := value % LINK_RANGE])
    ensures Mirrored(g, blocks) ==> Mirrored(g, blocks')
  {
    RegionsInOrder(g, |blocks|);
    forall i | 0 <= i < g.numFats
      ensures FatOf(g, blocks', i) == FatOf(g, blocks, i)[c := value % LINK_RANGE]
      ensures TopsOf(g, blocks', i) == TopsOf(g, blocks, i)
    {
      PatchedFat(g, blocks, blocks', c, value, i);
    }
    forall k | 0 <= k < |blocks| && (k < g.reservedSectors || g.DataStart() <= k)
      ensures blocks'[k] == blocks[k]
    {
      PatchedElsewhere(g, blocks, blocks', c, value, k);
    }
    DataKept(g, blocks, blocks');
    TopsKept(g, blocks, blocks');
    assert blocks'[2..g.reservedSectors] == blocks[2..g.reservedSectors];
    assert blocks'[g.Lba(g.TotalClusters())..] == blocks[g.Lba(g.TotalClusters())..];
  }

  // ---- What the view says of the bytes on the disk, and that it says all ----

  /** Where the link of a cluster lies, said in blocks and bytes: behind the reserved blocks, in every FAT copy,
      128 entries to a block, four bytes to an entry, of which the low 28 bits count. */
  lemma LinkMeans(g: Geometry, blocks: seq<Sector>, copy: nat, c: nat, k: nat, at: nat)
    requires g.WellFormed(|blocks|) && Mirrored(g, blocks) && copy < g.numFats && c < g.sectorsPerFat * 128
    requires k == g.reservedSectors + copy * g.sectorsPerFat + c / 128 && at == c % 128 * 4
    ensures k < |blocks| && c < |View(g, blocks).fat|
    ensures var link, s := View(g, blocks).fat[c], blocks[k];
            && link % 0x100 == s[at] && link / 0x100 % 0x100 == s[at + 1]
            && link / 0x1_0000 % 0x100 == s[at + 2] && link / 0x100_0000 == s[at + 3] % 16
  {
    FatRegion(g, |blocks|, copy, c);
    assert k == g.FatBlock(copy, c) && at == c * 4 % 512;
    assert View(g, blocks).fat[c] == FatOf(g, blocks, copy)[c] == Word32(blocks[k], at) % LINK_RANGE;
    LowBits(blocks[k], at);
  }

  /** A link is the low 28 bits of its entry. */
  lemma LowBits(s: seq<byte>, at: nat)
    requires at + 4 <= |s|
    ensures var link := Word32(s, at) % LINK_RANGE;
            && link % 0x100 == s[at] && link / 0x100 % 0x100 == s[at + 1]
            && link / 0x1_0000 % 0x100 == s[at + 2] && link / 0x100_0000 == s[at + 3] % 16
  {
    var a, b, c, d := s[at] as int, s[at + 1] as int, s[at + 2] as int, s[at + 3] as int;
    LowWord(a + 0x100 * b + 0x1_0000 * c, d);
    var low: seq<byte> := [s[at], s[at + 1], s[at + 2], s[at + 3] % 16];
    assert low[0] == s[at] && low[1] == s[at + 1] && low[2] == s[at + 2] && low[3] == s[at + 3] % 16;
    assert Word32(low, 0) == Word32(s, at) % LINK_RANGE;
    LittleEndian(low, 0);
  }

  lemma LowWord(low: nat, d: nat)
    requires low < 0x100_0000
    ensures (low + 0x100_0000 * d) % LINK_RANGE == low + 0x100_0000 * (d % 16)
  {
    assert low + 0x100_0000 * d == low + 0x100_0000 * (d % 16) + LINK_RANGE * (d / 16);
  }

  /** Where the bytes of a cluster lie: behind all FAT copies, the clusters counted from 2. */
  lemma DataMeans(g: Geometry, blocks: seq<Sector>, c: nat, sec: nat, b: nat, k: nat)
    requires g.WellFormed(|blocks|) && 2 <= c < g.sectorsPerFat * 128 && sec < g.sectorsPerCluster && b < 512
    requires k == g.reservedSectors + g.numFats * g.sectorsPerFat + (c - 2) * g.sectorsPerCluster + sec
    ensures k < |blocks| && c < |View(g, blocks).data| && 512 * sec + b < |View(g, blocks).data[c]|
    ensures View(g, blocks).data[c][512 * sec + b] == blocks[k][b]
  {
    ClusterSector(g, blocks, c, sec);
    var d := View(g, blocks).data[c];
    assert d[512 * sec..512 * sec + 512][b] == d[512 * sec + b];
  }

  /** The FSInfo counters are believed exactly under both signatures. */
  lemma InfoMeans(s: Sector)
    ensures InfoOf(s).signed <==> s[..4] == [0x52, 0x52, 0x61, 0x41] && s[484..488] == [0x72, 0x72, 0x41, 0x61]
    ensures var free := InfoOf(s).free;
            && free % 0x100 == s[488] && free / 0x100 % 0x100 == s[489]
            && free / 0x1_0000 % 0x100 == s[490] && free / 0x100_0000 == s[491]
    ensures var hint := InfoOf(s).hint;
            && hint % 0x100 == s[492] && hint / 0x100 % 0x100 == s[493]
            && hint / 0x1_0000 % 0x100 == s[494] && hint / 0x100_0000 == s[495]
  {
    WordIs(s, 0, 0x4161_5252, [0x52, 0x52, 0x61, 0x41]);
    WordIs(s, 484, 0x6141_7272, [0x72, 0x72, 0x41, 0x61]);
    LittleEndian(s, 488);
    LittleEndian(s, 492);
  }

  lemma WordIs(s: Sector, at: nat, w: u32, bytes: seq<byte>)
    requires at + 4 <= 512 && |bytes| == 4 && Word32(bytes, 0) == w
    ensures Word32(s, at) == w <==> s[at..at + 4] == bytes
  {
    var four := s[at..at + 4];
    assert Word32(four, 0) == Word32(s, at);
    if Word32(s, at) == w {
      SameWord(four, bytes, 0);
    }
  }

  lemma SameWord(s: seq<byte>, t: seq<byte>, at: nat)
    requires at + 4 <= |s| && at + 4 <= |t| && Word32(s, at) == Word32(t, at)
    ensures forall k :: at <= k < at + 4 ==> s[k] == t[k]
  {
    LittleEndian(s, at);
    LittleEndian(t, at);
  }

  lemma SameInfoBlock(g: Geometry, a: seq<Sector>, b: seq<Sector>)
    requires g.WellFormed(|a|) && |b| == |a| > 1 && View(g, a) == View(g, b)
    ensures a[1] == b[1]
  {
    SameWord(a[1], b[1], 0x1E8);
    SameWord(a[1], b[1], 0x1EC);
    var x, y := a[1], b[1];
    var fx, fy := x[..0x1E8] + x[0x1F0..], y[..0x1E8] + y[0x1F0..];
    assert fx == View(g, a).frozen.info && fy == View(g, b).frozen.info;
    forall k | 0 <= k < 512
      ensures x[k] == y[k]
    {
      if k < 0x1E8 {
        assert x[k] == fx[k] && y[k] == fy[k];
      } else if k >= 0x1F0 {
        assert x[k] == fx[k - 8] && y[k] == fy[k - 8];
      }
    }
  }

  lemma SameFatEntry(g: Geometry, a: seq<Sector>, b: seq<Sector>, copy: nat, c: nat)
    requires g.WellFormed(|a|) && |b| == |a| && View(g, a) == View(g, b) && Mirrored(g, a) && Mirrored(g, b)
    requires copy < g.numFats && c < g.TotalClusters()
    ensures Raw(g, a, copy, c) == Raw(g, b, copy, c)
  {
    assert FatOf(g, a, copy)[c] == View(g, a).fat[c] == View(g, b).fat[c] == FatOf(g, b, copy)[c];
    assert View(g, a).frozen.tops[copy] == TopsOf(g, a, copy) && View(g, b).frozen.tops[copy] == TopsOf(g, b, copy);
  }

  /** Byte `x` of block `q` of a FAT copy belongs to this entry. */
  lemma EntryOfByte(spf: nat, q: nat, x: nat, c: nat)
    requires q < spf && x < 512 && c == 128 * q + x / 4
    ensures c < spf * 512 / 4 && c * 4 / 512 == q && c * 4 % 512 <= x < c * 4 % 512 + 4
  {
  }

  lemma SameFatByte(g: Geometry, a: seq<Sector>, b: seq<Sector>, copy: nat, k: nat, x: nat, c: nat)
    requires g.WellFormed(|a|) && |b| == |a| && View(g, a) == View(g, b) && Mirrored(g, a) && Mirrored(g, b)
    requires copy < g.numFats && c < g.TotalClusters() && g.FatBlock(copy, c) == k < |a|
    requires c * 4 % 512 <= x < c * 4 % 512 + 4 <= 512
    ensures a[k][x] == b[k][x]
  {
    SameFatEntry(g, a, b, copy, c);
    SameWord(a[k], b[k], c * 4 % 512);
  }

  lemma SameFatBlock(g: Geometry, a: seq<Sector>, b: seq<Sector>, copy: nat, q: nat, k: nat)
    requires g.WellFormed(|a|) && |b| == |a| && View(g, a) == View(g, b) && Mirrored(g, a) && Mirrored(g, b)
    requires copy < g.numFats && q < g.sectorsPerFat && k == g.reservedSectors + copy * g.sectorsPerFat + q < |a|
    ensures a[k] == b[k]
  {
    forall x | 0 <= x < 512
      ensures a[k][x] == b[k][x]
    {
      var c := 128 * q + x / 4;
      EntryOfByte(g.sectorsPerFat, q, x, c);
      FatRegion(g, |a|, copy, c);
      SameFatByte(g, a, b, copy, k, x, c);
    }
  }

  lemma SameDataBlock(g: Geometry, a: seq<Sector>, b: seq<Sector>, c: nat, sec: nat)
    requires g.WellFormed(|a|) && |b| == |a| && View(g, a) == View(g, b)
    requires 2 <= c < g.TotalClusters() && sec < g.sectorsPerCluster
    ensures g.Lba(c) + sec < |a| && a[g.Lba(c) + sec] == b[g.Lba(c) + sec]
  {
    ClusterSector(g, a, c, sec);
    ClusterSector(g, b, c, sec);
  }

  /** A number splits into a row and a place in it. */
  lemma RowOf(x: nat, w: nat, rows: nat) returns (i: nat, j: nat)
    requires w > 0 && x < rows * w
    ensures i < rows && j < w && x == i * w + j
  {
    i, j := x / w, x % w;
    if i >= rows {
      MulMono(rows, i, w);
    }
  }

  /** The view says everything: mirrored volumes that look the same hold the same blocks. */
  lemma ViewDetermines(g: Geometry, a: seq<Sector>, b: seq<Sector>)
    requires g.WellFormed(|a|) && |b| == |a| && View(g, a) == View(g, b) && Mirrored(g, a) && Mirrored(g, b)
    ensures a == b
  {
    RegionsInOrder(g, |a|);
    forall k | 0 <= k < |a|
      ensures a[k] == b[k]
    {
      SameBlock(g, a, b, k);
    }
  }

  lemma SameBlock(g: Geometry, a: seq<Sector>, b: seq<Sector>, k: nat)
    requires g.WellFormed(|a|) && |b| == |a| && View(g, a) == View(g, b) && Mirrored(g, a) && Mirrored(g, b)
    requires k < |a|
    ensures a[k] == b[k]
  {
    RegionsInOrder(g, |a|);
    var last := g.Lba(g.TotalClusters());
    if k == 1 {
      SameInfoBlock(g, a, b);
    } else if k < g.reservedSectors {
      SameReserved(g, a, b, k);
    } else if k < g.DataStart() {
      var copy, q := RowOf(k - g.reservedSectors, g.sectorsPerFat, g.numFats);
      SameFatBlock(g, a, b, copy, q, k);
    } else if k < last {
      var c, sec := RowOf(k - g.DataStart(), g.sectorsPerCluster, g.TotalClusters() - 2);
      SameDataBlock(g, a, b, c + 2, sec);
    } else {
      assert View(g, a).frozen.tail == a[last..] && View(g, b).frozen.tail == b[last..];
      assert a[k] == a[last..][k - last] && b[k] == b[last..][k - last];
    }
  }

  lemma SameReserved(g: Geometry, a: seq<Sector>, b: seq<Sector>, k: nat)
    requires g.WellFormed(|a|) && |b| == |a| && View(g, a) == View(g, b)
    requires k != 1 && k < g.reservedSectors <= |a|
    ensures a[k] == b[k]
  {
    if k == 0 {
      assert View(g, a).frozen.boot == a[0] && View(g, b).frozen.boot == b[0];
    } else {
      assert View(g, a).frozen.reserved == a[2..g.reservedSectors];
      assert View(g, b).frozen.reserved == b[2..g.reservedSectors];
      assert a[k] == a[2..g.reservedSectors][k - 2] && b[k] == b[2..g.reservedSectors][k - 2];
    }
  }
}
