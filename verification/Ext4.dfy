/** Size of the ext4 filesystem that kubelet sees on the managed data volume. */
module Ext4 {
  import opened Base
  import opened SparseSuper

  const GIB: int := 1024 * 1024 * 1024
  const EXTENT: int := 4 * 1024 * 1024
  const BLOCK: int := 4096
  const BLOCKS_PER_GROUP: int := 32768
  const GROUPS_PER_DESCRIPTOR: int := 64
  const INODE_BLOCKS_PER_GROUP: int := 512
  const MAX_RESERVED_GDT_BLOCKS: int := 1024
  const METADATA: int := 4 * 1024 * 1024
  const DEFAULT_VOLUME_GIB: int := 100
  const MAX_VOLUME_GIB: int := 858993459

  function AlignDown(v: int, unit: int): int {
    if v <= 0 || unit <= 0 then 0 else (v / unit) * unit
  }

  function CeilDiv(a: int, b: int): int
    requires 0 < b
  {
    if a <= 0 then 0 else GoDiv(Wrap64(a + b - 1), b)
  }

  function KubernetesLVSize(managed: int): int {
    if managed <= 0 then 0
    else AlignDown(GoDiv(Wrap64(AlignDown(managed, EXTENT) * 10), 100), EXTENT)
  }

  function ReservedGDTBlocks(blockCount: int, descriptorBlocks: int): int {
    if blockCount <= 0 then 0 else
    var maxBlocks := if blockCount < 0xffffffff / 1024 then blockCount * 1024 else 0xffffffff;
    var reserved := CeilDiv(CeilDiv(maxBlocks, BLOCKS_PER_GROUP), GROUPS_PER_DESCRIPTOR) - descriptorBlocks;
    if reserved < 0 then 0 else if reserved < MAX_RESERVED_GDT_BLOCKS then reserved else MAX_RESERVED_GDT_BLOCKS
  }

  function JournalBlocks(blockCount: int): int {
    if blockCount < 2048 then 0
    else if blockCount < 32768 then 1024
    else if blockCount < 256 * 1024 then 4096
    else if blockCount < 512 * 1024 then 8192
    else if blockCount < 4096 * 1024 then 16384
    else if blockCount < 8192 * 1024 then 32768
    else if blockCount < 16384 * 1024 then 65536
    else if blockCount < 32768 * 1024 then 131072
    else 262144
  }

  function GroupCount(blockCount: int): int {
    CeilDiv(blockCount, BLOCKS_PER_GROUP)
  }

  function DescriptorBlocks(blockCount: int): int {
    CeilDiv(GroupCount(blockCount), GROUPS_PER_DESCRIPTOR)
  }

  function OverheadBlocks(blockCount: int): int {
    var descriptors := DescriptorBlocks(blockCount);
    Wrap64(GroupCount(blockCount) * (2 + INODE_BLOCKS_PER_GROUP)
           + Copies(GroupCount(blockCount)) * (1 + descriptors + ReservedGDTBlocks(blockCount, descriptors))
           + JournalBlocks(blockCount))
  }

  function FilesystemSize(device: int): int {
    if device <= 0 || device / BLOCK == 0 then 0
    else Wrap64(device - Wrap64(OverheadBlocks(device / BLOCK) * BLOCK))
  }

  function ManagedLVSize(sizeGiB: int): int {
    Wrap64(Wrap64(sizeGiB * GIB) - METADATA)
  }

  datatype BlockDevice = NoDevice | Device(volumeSize: int)

  function VolumeGiB(k8s: BlockDevice): int {
    if k8s.Device? && 0 < k8s.volumeSize then k8s.volumeSize else DEFAULT_VOLUME_GIB
  }

  function EphemeralStorage(k8s: BlockDevice): int {
    FilesystemSize(KubernetesLVSize(ManagedLVSize(VolumeGiB(k8s))))
  }

  // ---------- the same sizes counted in 4 MiB extents ----------

  /** Extents of the kubernetes logical volume for a disk of `s` GiB. */
  function Extents(s: int): int
    requires 1 <= s
  {
    (256 * s - 1) / 10
  }

  lemma ManagedLVInExtents(s: int)
    requires 1 <= s <= MAX_INT32
    ensures ManagedLVSize(s) == (256 * s - 1) * EXTENT
  {
  }

  lemma AlignMultiple(n: int)
    requires 0 <= n
    ensures AlignDown(n * EXTENT, EXTENT) == n * EXTENT
  {
  }

  /** The kubernetes volume is one tenth of the managed one, in whole extents, as long as the
      multiplication by 10 does not wrap. */
  lemma KubernetesLVInExtents(s: int)
    requires 1 <= s <= MAX_VOLUME_GIB
    ensures KubernetesLVSize(ManagedLVSize(s)) == Extents(s) * EXTENT
    ensures 25 <= Extents(s)
  {
    ManagedLVInExtents(s);
    var n := 256 * s - 1;
    AlignMultiple(n);
    assert GoDiv(n * EXTENT * 10, 100) == n * EXTENT / 10;
    assert n * EXTENT / 10 / EXTENT == n / 10;
  }

  /** Overhead of a filesystem of `x` extents, 1024 blocks each, without any wrap-around. */
  function Groups(x: int): int { (x + 31) / 32 }
  function Descriptors(x: int): int { (Groups(x) + 63) / 64 }

  function Reserved(x: int): int {
    var r := (if x <= 4095 then (x + 1) / 2 else 2048) - Descriptors(x);
    if r < 0 then 0 else if r < 1024 then r else 1024
  }

  /** Blocks of one backup: the superblock and the descriptor table with its reserve. */
  function BackupCost(x: int): int { 1 + Descriptors(x) + Reserved(x) }

  function Overhead(x: int): int {
    Groups(x) * 514 + Copies(Groups(x)) * BackupCost(x) + JournalBlocks(1024 * x)
  }

  lemma OverheadParts(x: int)
    requires 25 <= x <= 0xE_0000_0000
    ensures GroupCount(1024 * x) == Groups(x)
    ensures DescriptorBlocks(1024 * x) == Descriptors(x)
    ensures ReservedGDTBlocks(1024 * x, Descriptors(x)) == Reserved(x)
  {
  }

  lemma CopiesAtMost(n: int)
    ensures n <= 3486784401 ==> 0 <= Copies(n) <= 59
    ensures n <= 1953125 ==> Copies(n) <= 30
  {
    KnownPowers();
    PowSum(3, 1, 19); PowSum(3, 1, 13);
    PowSum(5, 1, 8); PowSum(7, 1, 7);
    if n <= 3486784401 {
      PowBaseMonotone(3, 5, 19);
      PowBaseMonotone(3, 7, 19);
      CountBound(3, 3, n, 19);
      CountBound(5, 5, n, 19);
      CountBound(7, 7, n, 19);
    }
    if n <= 1953125 {
      CountBound(3, 3, n, 13);
      CountBound(5, 5, n, 8);
      CountBound(7, 7, n, 7);
    }
  }

  lemma ProductBound(c: int, m: int, bound: int)
    requires 0 <= c <= bound && 0 <= m
    ensures 0 <= c * m <= bound * m
  {
  }

  /** Metadata never eats a whole volume, nor an unbounded part of a large one. */
  lemma OverheadLeavesRoom(x: int)
    requires 25 <= x <= 0xE_0000_0000
    ensures 0 < Overhead(x) < 1024 * x
    ensures 8192 <= x ==> Overhead(x) <= 512 * x
  {
    var g, m := Groups(x), BackupCost(x);
    CopiesAtMost(g);
    if x < 32 {
      assert g == 1;
      assert Copies(1) == 2;
    } else {
      ProductBound(Copies(g), m, 59);
      if x < 256 {
        assert Copies(g) <= 5 by { SmallGroups(g); }
        ProductBound(Copies(g), m, 5);
      }
    }
  }

  lemma SmallGroups(g: int)
    requires 1 <= g <= 8
    ensures Copies(g) <= 5
  {
    KnownPowers();
    CountBound(3, 3, g, 1);
    CountBound(5, 5, g, 1);
    CountBound(7, 7, g, 1);
    assert Pow(3, 1) == 3 && Pow(5, 1) == 5 && Pow(7, 1) == 7;
  }

  lemma OverheadInExtents(x: int)
    requires 25 <= x <= 0xE_0000_0000
    ensures OverheadBlocks(1024 * x) == Overhead(x)
  {
    OverheadParts(x);
    OverheadLeavesRoom(x);
  }

  lemma FilesystemOfBlocks(device: int, b: int, overhead: int)
    requires device == b * BLOCK && 0 < overhead < b <= 0x4_0000_0000_0000 && OverheadBlocks(b) == overhead
    ensures FilesystemSize(device) == (b - overhead) * BLOCK
    ensures 0 < FilesystemSize(device) < device
  {
    assert device / BLOCK == b;
  }

  lemma FilesystemInExtents(x: int)
    requires 25 <= x <= 0xE_0000_0000
    ensures FilesystemSize(x * EXTENT) == (1024 * x - Overhead(x)) * BLOCK
    ensures 0 < FilesystemSize(x * EXTENT) < x * EXTENT
  {
    OverheadInExtents(x);
    OverheadLeavesRoom(x);
    FilesystemOfBlocks(x * EXTENT, 1024 * x, Overhead(x));
  }

  // ---------- results ----------

  /** Every intermediate `int64` value of the computation for a disk of `s` GiB is exact. */
  predicate StepsFit(s: int) {
    var managed := ManagedLVSize(s);
    var k := KubernetesLVSize(managed);
    var b := k / BLOCK;
    var g, d := GroupCount(b), DescriptorBlocks(b);
    var perBackup := 1 + d + ReservedGDTBlocks(b, d);
    var overhead := g * 514 + Copies(g) * perBackup + JournalBlocks(b);
    && Fits64(s * GIB) && Fits64(s * GIB - METADATA)
    && Fits64(AlignDown(managed, EXTENT) * 10)
    && Fits64(b + BLOCKS_PER_GROUP - 1) && Fits64(g + GROUPS_PER_DESCRIPTOR - 1)
    && Fits64(g * 514) && Fits64(Copies(g) * perBackup) && Fits64(overhead)
    && Fits64(overhead * BLOCK) && Fits64(k - overhead * BLOCK)
  }

  lemma EarlyStepsFit(s: int)
    requires 1 <= s <= MAX_INT32
    ensures ManagedLVSize(s) == (256 * s - 1) * EXTENT
    ensures Fits64(s * GIB) && Fits64(s * GIB - METADATA)
    ensures Fits64(AlignDown(ManagedLVSize(s), EXTENT) * 10) <==> s <= MAX_VOLUME_GIB
  {
  }

  /** 858,993,459 GiB is the exact limit, set by the multiplication by 10. */
  lemma NoStepWraps(s: int)
    requires 1 <= s <= MAX_INT32
    ensures StepsFit(s) <==> s <= MAX_VOLUME_GIB
  {
    EarlyStepsFit(s);
    if s <= MAX_VOLUME_GIB {
      KubernetesLVInExtents(s);
      LaterStepsFit(Extents(s));
    }
  }

  lemma LaterStepsFit(x: int)
    requires 25 <= x <= 0xE_0000_0000
    ensures var k := x * EXTENT;
            var b := k / BLOCK;
            var g, d := GroupCount(b), DescriptorBlocks(b);
            var perBackup := 1 + d + ReservedGDTBlocks(b, d);
            var overhead := g * 514 + Copies(g) * perBackup + JournalBlocks(b);
            && Fits64(b + BLOCKS_PER_GROUP - 1) && Fits64(g + GROUPS_PER_DESCRIPTOR - 1)
            && Fits64(g * 514) && Fits64(Copies(g) * perBackup) && Fits64(overhead)
            && Fits64(overhead * BLOCK) && Fits64(k - overhead * BLOCK)
  {
    assert x * EXTENT / BLOCK == 1024 * x;
    OverheadParts(x);
    OverheadLeavesRoom(x);
    CopiesAtMost(Groups(x));
    ProductBound(Copies(Groups(x)), BackupCost(x), 59);
    SizesFit(x, Groups(x), Copies(Groups(x)) * BackupCost(x), Overhead(x));
  }

  lemma SizesFit(x: int, g: int, backups: int, overhead: int)
    requires 25 <= x <= 0xE_0000_0000 && 0 <= g <= x && 0 <= backups <= 59 * (1024 + x)
    requires 0 <= overhead <= 1024 * x
    ensures Fits64(1024 * x + BLOCKS_PER_GROUP - 1) && Fits64(g + GROUPS_PER_DESCRIPTOR - 1)
    ensures Fits64(g * 514) && Fits64(backups) && Fits64(overhead)
    ensures Fits64(overhead * BLOCK) && Fits64(x * EXTENT - overhead * BLOCK)
  {
  }

  /** What the computation reports when no step wraps. */
  function ExactStorage(s: int): int
    requires 1 <= s
  {
    (1024 * Extents(s) - Overhead(Extents(s))) * BLOCK
  }

  /** The reported storage is positive, smaller than the kubernetes volume, which is at most one
      tenth of the managed one, for every disk within the limit and for a defaulted one. */
  lemma StorageWithinVolume(k8s: BlockDevice)
    requires VolumeGiB(k8s) <= MAX_VOLUME_GIB
    ensures var managed := ManagedLVSize(VolumeGiB(k8s));
            0 < EphemeralStorage(k8s) < KubernetesLVSize(managed) <= managed / 10
    ensures EphemeralStorage(k8s) == ExactStorage(VolumeGiB(k8s))
  {
    var s := VolumeGiB(k8s);
    var x, k := Extents(s), KubernetesLVSize(ManagedLVSize(s));
    assert k == x * EXTENT && 25 <= x by { KubernetesLVInExtents(s); }
    assert k <= ManagedLVSize(s) / 10 by { TenthOfManaged(s); }
    FilesystemInExtents(x);
    var size := FilesystemSize(x * EXTENT);
    assert EphemeralStorage(k8s) == size;
  }

  lemma TenthOfManaged(s: int)
    requires 1 <= s <= MAX_VOLUME_GIB
    ensures Extents(s) * EXTENT <= ManagedLVSize(s) / 10
  {
  }

  lemma PartsBounded(b: int)
    requires 0 < b <= 0x100_0000_0000_0000 / BLOCK
    ensures var g := GroupCount(b);
            && 1 <= g <= 0x2000_0000
            && 1 <= 1 + DescriptorBlocks(b) + ReservedGDTBlocks(b, DescriptorBlocks(b)) <= 1 + g + 1024
  {
  }

  lemma FilesystemAtMostDevice(device: int)
    requires 0 <= device <= 0x100_0000_0000_0000
    ensures FilesystemSize(device) <= device
  {
    var b := device / BLOCK;
    if 0 < b {
      var g := GroupCount(b);
      var m := 1 + DescriptorBlocks(b) + ReservedGDTBlocks(b, DescriptorBlocks(b));
      PartsBounded(b);
      CopiesAtMost(g);
      ProductBound(Copies(g), m, 59);
      assert 0 <= OverheadBlocks(b) <= 0x1000_0000_0000;
      assert FilesystemSize(device) == Wrap64(device - Wrap64(OverheadBlocks(b) * BLOCK));
    }
  }

  /** For disks past the limit the product by 10 wraps and the reported size is below the true
      one; up to 1,717,986,918 GiB it is zero. The result is exact only within the limit. */
  lemma StorageExactIff(s: int)
    requires 1 <= s <= MAX_INT32
    ensures EphemeralStorage(Device(s)) == ExactStorage(s) <==> s <= MAX_VOLUME_GIB
    ensures MAX_VOLUME_GIB < s <= 1717986918 ==> EphemeralStorage(Device(s)) == 0
  {
    if s <= MAX_VOLUME_GIB {
      StorageWithinVolume(Device(s));
    } else {
      WrappedVolume(s);
      FilesystemAtMostDevice(KubernetesLVSize(ManagedLVSize(s)));
      OverheadLeavesRoom(Extents(s));
    }
  }

  lemma WrappedVolume(s: int)
    requires MAX_VOLUME_GIB < s <= MAX_INT32
    ensures s <= 1717986918 ==> KubernetesLVSize(ManagedLVSize(s)) == 0
    ensures 0 <= KubernetesLVSize(ManagedLVSize(s)) < Extents(s) * 512 * BLOCK
    ensures KubernetesLVSize(ManagedLVSize(s)) <= 0x100_0000_0000_0000
  {
  }

  // ---------- the reported number, spelled out ----------

  /** Smallest number of units of `unit` that hold `n`. */
  predicate RoundsUp(q: int, n: int, unit: int) {
    (q - 1) * unit < n <= q * unit
  }

  /** The journal for a disk of `s` GiB, in blocks. */
  predicate JournalIs(s: int, journal: int) {
    || (s == 1 && journal == 1024)
    || (2 <= s <= 10 && journal == 4096)
    || (11 <= s <= 20 && journal == 8192)
    || (21 <= s <= 160 && journal == 16384)
    || (161 <= s <= 320 && journal == 32768)
    || (321 <= s <= 640 && journal == 65536)
    || (641 <= s <= 1280 && journal == 131072)
    || (1281 <= s && journal == 262144)
  }

  /** Blocks set aside for growing the descriptor table of a filesystem of `blocks` blocks: room for 1024
      times the size, at most 2 to the 32 less 1 blocks, and at most 1024. */
  ghost predicate ReserveIs(blocks: int, descriptors: int, reserve: int) {
    exists groups, tables ::
      && RoundsUp(groups, if blocks < 4194303 then 1024 * blocks else 4294967295, 32768)
      && RoundsUp(tables, groups, 64)
      && reserve == if tables <= descriptors then 0
                    else if tables < descriptors + 1024 then tables - descriptors else 1024
  }

  /** Extents of the kubernetes volume (a tenth of the disk's 4 MiB extents but one), block groups, blocks of
      one descriptor table, their reserve and the journal. */
  ghost predicate PartsAre(s: int, extents: int, groups: int, descriptors: int, reserve: int, journal: int) {
    && 10 * extents <= 256 * s - 1 < 10 * extents + 10
    && RoundsUp(groups, 1024 * extents, 32768) && RoundsUp(descriptors, groups, 64)
    && ReserveIs(1024 * extents, descriptors, reserve) && JournalIs(s, journal)
  }

  /** What the parts leave: each group takes 514 blocks and each backup a superblock and a table. A one-group
      filesystem is charged a second superblock that it does not have. */
  ghost function BytesLeft(extents: int, groups: int, descriptors: int, reserve: int, journal: int): int {
    var backups := |BackupGroups(groups)| + if groups == 1 then 1 else 0;
    4096 * (1024 * extents - 514 * groups - backups * (1 + descriptors + reserve) - journal)
  }

  /** The storage of a disk of `s` GiB, from the sizes of its parts. */
  ghost predicate StorageIs(s: int, bytes: int) {
    exists extents, groups, descriptors, reserve, journal ::
      && PartsAre(s, extents, groups, descriptors, reserve, journal)
      && bytes == BytesLeft(extents, groups, descriptors, reserve, journal)
  }

  lemma JournalOfSize(s: int)
    requires 1 <= s <= MAX_VOLUME_GIB
    ensures JournalIs(s, JournalBlocks(1024 * Extents(s)))
  {
  }

  lemma CopiesSpelledOut(n: int)
    requires 1 <= n
    ensures Copies(n) == |BackupGroups(n)| + if n == 1 then 1 else 0
  {
    CopiesCountBackupGroups(n);
    if n == 1 {
      assert BackupGroups(1) == {0};
    }
  }

  lemma ReserveOfSize(x: int)
    requires 25 <= x <= 0xE_0000_0000
    ensures ReserveIs(1024 * x, Descriptors(x), Reserved(x))
  {
    var groups := if x <= 4095 then 32 * x else 131072;
    var tables := if x <= 4095 then (x + 1) / 2 else 2048;
    assert RoundsUp(groups, if 1024 * x < 4194303 then 1024 * (1024 * x) else 4294967295, 32768);
    assert RoundsUp(tables, groups, 64);
  }

  lemma RoundsUpUnique(q: int, q': int, n: int, unit: int)
    requires 0 < unit && RoundsUp(q, n, unit) && RoundsUp(q', n, unit)
    ensures q == q'
  {
    if q < q' {
      ProductMonotone(q, q' - 1, unit);
    } else if q' < q {
      ProductMonotone(q', q - 1, unit);
    }
  }

  lemma ReserveUnique(blocks: int, descriptors: int, r: int, r': int)
    requires ReserveIs(blocks, descriptors, r) && ReserveIs(blocks, descriptors, r')
    ensures r == r'
  {
    var most := if blocks < 4194303 then 1024 * blocks else 4294967295;
    var g, t :| RoundsUp(g, most, 32768) && RoundsUp(t, g, 64)
             && r == if t <= descriptors then 0 else if t < descriptors + 1024 then t - descriptors else 1024;
    var g', t' :| RoundsUp(g', most, 32768) && RoundsUp(t', g', 64)
               && r' == if t' <= descriptors then 0 else if t' < descriptors + 1024 then t' - descriptors else 1024;
    RoundsUpUnique(g, g', most, 32768);
    RoundsUpUnique(t, t', g, 64);
  }

  lemma PartsOfSize(s: int)
    requires 1 <= s <= MAX_VOLUME_GIB
    ensures var x := Extents(s);
            PartsAre(s, x, Groups(x), Descriptors(x), Reserved(x), JournalBlocks(1024 * x))
  {
    JournalOfSize(s);
    ReserveOfSize(Extents(s));
  }

  lemma PartsUnique(s: int, x: int, g: int, d: int, r: int, j: int)
    requires 1 <= s <= MAX_VOLUME_GIB && PartsAre(s, x, g, d, r, j)
    ensures x == Extents(s) && g == Groups(x) && d == Descriptors(x) && r == Reserved(x)
    ensures j == JournalBlocks(1024 * x)
  {
    PartsOfSize(s);
    RoundsUpUnique(g, Groups(x), 1024 * x, 32768);
    RoundsUpUnique(d, Descriptors(x), g, 64);
    ReserveUnique(1024 * x, d, r, Reserved(x));
  }

  lemma BytesOfSize(s: int)
    requires 1 <= s
    ensures var x := Extents(s);
            ExactStorage(s) == BytesLeft(x, Groups(x), Descriptors(x), Reserved(x), JournalBlocks(1024 * x))
  {
    CopiesSpelledOut(Groups(Extents(s)));
  }

  /** Within the limit the reported storage is the number that the sizes of the parts give. */
  lemma StorageMeaning(s: int, bytes: int)
    requires 1 <= s <= MAX_VOLUME_GIB
    ensures EphemeralStorage(Device(s)) == bytes <==> StorageIs(s, bytes)
  {
    StorageWithinVolume(Device(s));
    BytesOfSize(s);
    PartsOfSize(s);
    if StorageIs(s, bytes) {
      var x, g, d, r, j :| PartsAre(s, x, g, d, r, j) && bytes == BytesLeft(x, g, d, r, j);
      PartsUnique(s, x, g, d, r, j);
    }
  }

  /** A disk of the default size, and so a class without one, reports 10,459,828,224 bytes. */
  lemma DefaultStorage(k8s: BlockDevice)
    requires k8s == NoDevice || k8s.volumeSize <= 0 || k8s.volumeSize == 100
    ensures EphemeralStorage(k8s) == 10459828224
  {
    StorageWithinVolume(k8s);
    assert VolumeGiB(k8s) == 100 && Extents(100) == 2559;
    DefaultOverhead();
  }

  lemma DefaultOverhead()
    ensures Overhead(2559) == 66747
  {
    assert Groups(2559) == 80 && BackupCost(2559) == 1027;
    EightyGroups();
  }

  lemma EightyGroups()
    ensures Copies(80) == 9
  {
    assert CountFrom(3, 27, 80) == 1 && CountFrom(3, 3, 80) == 3;
    assert CountFrom(5, 25, 80) == 1 && CountFrom(5, 5, 80) == 2;
    assert CountFrom(7, 49, 80) == 1 && CountFrom(7, 7, 80) == 2;
  }

  // ---------- growth ----------

  /** A power of 3, 5 or 7 below 5 to the 9 is at most 3 to the 13. */
  lemma LastPowerBelow(b: nat, g: nat)
    requires b in {3, 5, 7} && IsPower(b, g) && g < 1953125
    ensures g <= 1594323
  {
    var k: nat :| 1 <= k && Pow(b, k) == g;
    KnownPowers();
    if b == 3 {
      if 14 <= k { PowMonotone(3, 14, k); } else { PowMonotone(3, k, 13); }
    } else if b == 5 {
      if 9 <= k { PowMonotone(5, 9, k); } else { PowMonotone(5, k, 8); }
    } else {
      if 8 <= k { PowMonotone(7, 8, k); } else { PowMonotone(7, k, 7); }
    }
  }

  /** The backups of one more group cost at most one descriptor table. */
  lemma BackupGrowth(g: int, g': int)
    requires 1 <= g <= g' <= g + 1 && g' <= 1953125
    ensures Copies(g) <= Copies(g') <= Copies(g) + 1
    ensures Copies(g) < Copies(g') ==> g' <= 1594324
  {
    CopiesAtMost(g);
    if g == 1 {
      assert Copies(1) == 2 && Copies(2) == 2;
    } else if g' == g + 1 {
      CopiesGrowth(g);
      if HoldsSuper(g) {
        var b :| b in {3, 5, 7} && IsPower(b, g);
        LastPowerBelow(b, g);
      }
    }
  }

  lemma CostGrowth(c: int, c': int, m: int, m': int)
    requires 0 <= c <= c' <= c + 1 && c <= 30
    requires 0 <= m && 0 <= m'
    ensures m <= m' ==> c * m <= c' * m'
    ensures m' <= m + 14 ==> c' * m' - c * m <= (if c' == c then 0 else m') + 420
    ensures m' <= m + 1 ==> c' * m' - c * m <= (if c' == c then 0 else m') + 30
  {
  }

  predicate CrossesJournalTier(x: int, y: int) {
    x < 8192 <= y || x < 16384 <= y || x < 32768 <= y
  }

  lemma BackupCostGrowth(x: int, y: int)
    requires 25 <= x && 25 <= y - x <= 26
    ensures 0 <= BackupCost(x) && 0 <= BackupCost(y)
    ensures x <= 4095 ==> BackupCost(y) <= BackupCost(x) + 14 && BackupCost(y) <= 1100
    ensures 4095 < x ==> BackupCost(y) <= BackupCost(x) + 1
    ensures BackupCost(y) <= 1 + Descriptors(y) + 1024
    ensures 2048 <= Descriptors(y) ==> BackupCost(y) == 1 + Descriptors(y)
    ensures 4095 < x <= 32768 ==> BackupCost(x) <= BackupCost(y) <= 1100
  {
  }

  lemma JournalGrowth(x: int, y: int)
    requires 25 <= x && 25 <= y - x <= 26
    ensures var d := JournalBlocks(1024 * y) - JournalBlocks(1024 * x);
            && (if CrossesJournalTier(x, y) then 32768 <= d else 0 <= d <= 16384)
            && (4096 <= x && !CrossesJournalTier(x, y) ==> d == 0)
  {
  }

  lemma GrowthInExtents(x: int, y: int)
    requires 25 <= x && 25 <= y - x <= 26 && Groups(y) <= 1953125
    ensures 1024 * x - Overhead(x) < 1024 * y - Overhead(y) <==> !CrossesJournalTier(x, y)
  {
    var g, g' := Groups(x), Groups(y);
    var c, c', m, m' := Copies(g), Copies(g'), BackupCost(x), BackupCost(y);
    BackupGrowth(g, g');
    BackupCostGrowth(x, y);
    JournalGrowth(x, y);
    CopiesAtMost(g);
    CostGrowth(c, c', m, m');
    assert Overhead(y) - Overhead(x)
        == (g' - g) * 514 + (c' * m' - c * m) + (JournalBlocks(1024 * y) - JournalBlocks(1024 * x));
  }

  /** The step from `x` to `y` extents adds a block group right after a group that holds a backup, in
      a filesystem whose descriptor table outgrows the space gained. */
  ghost predicate AddsCostlyBackup(x: int, y: int) {
    Groups(x) < Groups(y) && HoldsSuper(Groups(x)) && 1953125 <= Groups(x)
  }

  /** From 5 to the 9 groups on, a backup's descriptor table is larger than the space gained. */
  lemma LargeGrowth(x: int, y: int)
    requires 25 <= x && 25 <= y - x <= 26 && 1953125 <= Groups(x) && y <= 0xE_0000_0000
    ensures 1024 * x - Overhead(x) < 1024 * y - Overhead(y) <==> !AddsCostlyBackup(x, y)
    ensures !CrossesJournalTier(x, y)
  {
    var g, g' := Groups(x), Groups(y);
    CopiesAtMost(g);
    CopiesGrowth(g);
    assert g <= g' <= g + 1;
    LargeTables(x, y);
    LargeCost(Copies(g), Copies(g'), BackupCost(x), BackupCost(y));
    OverheadGained(x, y);
  }

  lemma OverheadGained(x: int, y: int)
    requires JournalBlocks(1024 * x) == JournalBlocks(1024 * y)
    ensures Overhead(y) - Overhead(x)
         == (Groups(y) - Groups(x)) * 514 + (Copies(Groups(y)) * BackupCost(y) - Copies(Groups(x)) * BackupCost(x))
  {
  }

  lemma LargeTables(x: int, y: int)
    requires 25 <= y - x <= 26 && 1953125 <= Groups(x)
    ensures 30519 <= BackupCost(x) <= BackupCost(y) <= BackupCost(x) + 1
    ensures JournalBlocks(1024 * x) == JournalBlocks(1024 * y)
  {
  }

  lemma LargeCost(c: int, c': int, m: int, m': int)
    requires 0 <= c <= 59 && c <= c' <= c + 1 && 0 <= m <= m' <= m + 1
    ensures c' == c ==> 0 <= c' * m' - c * m <= 59
    ensures c' == c + 1 ==> m' <= c' * m' - c * m
  {
    assert c * m' == c * m + c * (m' - m);
    assert (c + 1) * m' == c * m' + m';
  }

  /** Over the whole exact range, one more GiB gives strictly more storage except on two kinds of
      steps: the three that enter a larger journal tier (8192, 16384 and 32768 times 1024 blocks),
      and those that add a block group after a backup group, from group 5 to the 9 on. */
  lemma StorageGrowsIff(s: int)
    requires 1 <= s < MAX_VOLUME_GIB
    ensures EphemeralStorage(Device(s)) < EphemeralStorage(Device(s + 1))
       <==> s !in {320, 640, 1280} && !AddsCostlyBackup(Extents(s), Extents(s + 1))
    ensures s in {320, 640, 1280} <==> CrossesJournalTier(Extents(s), Extents(s + 1))
  {
    var x, y := Extents(s), Extents(s + 1);
    StorageWithinVolume(Device(s));
    StorageWithinVolume(Device(s + 1));
    if Groups(x) < 1953125 {
      GrowthInExtents(x, y);
    } else {
      LargeGrowth(x, y);
    }
  }

  /** The first step of the second kind: group 5 to the 9 holds a backup. */
  lemma StorageFirstShrinksAt(s: int)
    requires 1 <= s <= 2441406
    ensures AddsCostlyBackup(Extents(s), Extents(s + 1)) <==> s == 2441406
  {
    if s == 2441406 {
      KnownPowers();
      assert IsPower(5, 1953125) by { assert Pow(5, 9) == 1953125; }
    }
  }
}
