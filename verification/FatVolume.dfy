/** The FAT12 volume: boot sector, regions, cluster addresses and the packed table. */
module FatVolume {
  import opened Bytes

  /** The mapped volume. */
  type Disk = seq<Byte>

  /** sizeof(FatBS) and sizeof(DirectoryEntry). */
  const BOOT_SECTOR_SIZE := 90
  const ENTRY_SIZE := 32

  datatype BootSector = BootSector(
    bytesPerSector: nat,
    sectorsPerCluster: nat,
    reservedSectorCount: nat,
    tableCount: nat,
    rootEntryCount: nat,
    totalSectors16: nat,
    tableSize16: nat)

  function ReadBootSector(d: Disk): BootSector
    requires |d| >= BOOT_SECTOR_SIZE
  {
    BootSector(Le16(d, 11), d[13], Le16(d, 14), d[16], Le16(d, 17), Le16(d, 19), Le16(d, 22))
  }

  datatype FatType = Unknown | Fat12 | Fat16 | Fat32

  /** The variables fat_init computes. */
  datatype Layout = Layout(
    fatStart: nat,
    fatSectors: nat,
    rootStart: nat,
    rootSectors: nat,
    dataStart: nat,
    clusters: int,
    fatType: FatType)

  function LayoutOf(bs: BootSector): Layout
    requires bs.bytesPerSector > 0 && bs.sectorsPerCluster > 0
  {
    var fatSectors := bs.tableSize16 * bs.tableCount;
    var rootStart := bs.reservedSectorCount + fatSectors;
    var rootSectors := (ENTRY_SIZE * bs.rootEntryCount + bs.bytesPerSector - 1) / bs.bytesPerSector;
    var dataStart := rootStart + rootSectors;
    QuotientBelow(U32(bs.totalSectors16 - dataStart), bs.sectorsPerCluster);
    var clusters := Int32(U32(bs.totalSectors16 - dataStart) / bs.sectorsPerCluster);
    Layout(bs.reservedSectorCount, fatSectors, rootStart, rootSectors, dataStart, clusters,
           if clusters <= 4085 then Fat12 else if clusters <= 65525 then Fat16 else Fat32)
  }

  lemma QuotientBelow(x: nat, y: nat)
    requires y > 0
    ensures 0 <= x / y <= x
  {
    var q := x / y;
    assert q * y <= x;
    if q > 0 {
      MulMono(1, y, q);
    }
  }

  /** fat_init and the variables it sets. */
  class Driver {
    const buffer: Disk

    var fatType: FatType
    var fatStartSector: nat
    var fatSectors: nat
    var rootDirStartSector: nat
    var rootDirSectors: nat
    var dataStartSector: nat

    constructor (buffer: Disk)
      ensures this.buffer == buffer
    {
      this.buffer := buffer;
      fatType := Unknown;
      fatStartSector, fatSectors, rootDirStartSector, rootDirSectors, dataStartSector := 0, 0, 0, 0, 0;
    }

    ghost predicate Mounts(l: Layout)
      reads this
    {
      && fatStartSector == l.fatStart && fatSectors == l.fatSectors
      && rootDirStartSector == l.rootStart && rootDirSectors == l.rootSectors
      && dataStartSector == l.dataStart && fatType == l.fatType
    }

    method Init()
      requires |buffer| >= BOOT_SECTOR_SIZE
      requires var bs := ReadBootSector(buffer); bs.bytesPerSector > 0 && bs.sectorsPerCluster > 0
      modifies this
      ensures Mounts(LayoutOf(ReadBootSector(buffer)))
    {
      var bs := ReadBootSector(buffer);
      fatStartSector := bs.reservedSectorCount;
      fatSectors := bs.tableSize16 * bs.tableCount;
      rootDirStartSector := fatStartSector + fatSectors;
      rootDirSectors := (ENTRY_SIZE * bs.rootEntryCount + bs.bytesPerSector - 1) / bs.bytesPerSector;
      dataStartSector := rootDirStartSector + rootDirSectors;
      QuotientBelow(U32(bs.totalSectors16 - dataStartSector), bs.sectorsPerCluster);
      var clusters := Int32(U32(bs.totalSectors16 - dataStartSector) / bs.sectorsPerCluster);
      if clusters <= 4085 {
        fatType := Fat12;
      } else if clusters <= 65525 {
        fatType := Fat16;
      } else {
        fatType := Fat32;
      }
    }
  }

  /** The type by cluster count, as the standard has it. */
  function StandardType(clusters: int): FatType {
    if clusters < 4085 then Fat12 else if clusters < 65525 then Fat16 else Fat32
  }

  /** fat_init counts a volume of 4085 clusters as FAT12 and one of 65525 as FAT16;
    * on every other count it agrees with the standard.
    */
  lemma TypeIsStandardIff(bs: BootSector)
    requires bs.bytesPerSector > 0 && bs.sectorsPerCluster > 0
    ensures var l := LayoutOf(bs);
      l.fatType == StandardType(l.clusters) <==> l.clusters != 4085 && l.clusters != 65525
  {}

  /** A boot sector whose regions need more sectors than the volume has: the difference
    * wraps, so that the volume is mounted as FAT12 with one sector to a cluster, and as
    * FAT32 with more.
    */
  lemma TypeOfOverfullVolume(bs: BootSector)
    requires 0 < bs.bytesPerSector < 0x1_0000 && 0 < bs.sectorsPerCluster < 0x100
    requires bs.reservedSectorCount < 0x1_0000 && bs.tableCount < 0x100
    requires bs.rootEntryCount < 0x1_0000 && bs.tableSize16 < 0x1_0000
    requires bs.totalSectors16 < LayoutOf(bs).dataStart
    ensures LayoutOf(bs).fatType == if bs.sectorsPerCluster == 1 then Fat12 else Fat32
  {
    MulMono(bs.tableCount, 0xFF, bs.tableSize16);
    QuotientBelow(ENTRY_SIZE * bs.rootEntryCount + bs.bytesPerSector - 1, bs.bytesPerSector);
    var missing := bs.totalSectors16 - LayoutOf(bs).dataStart;
    assert U32(missing) == missing + 0x1_0000_0000;
    if bs.sectorsPerCluster > 1 {
      QuotientOfWrapped(U32(missing), bs.sectorsPerCluster);
    }
  }

  lemma QuotientOfWrapped(x: nat, y: nat)
    requires 0x8000_0000 <= x < 0x1_0000_0000 && 2 <= y < 0x100
    ensures 65525 < x / y < 0x8000_0000
  {
    RoundDown(x, y);
    MulMono(2, y, x / y);
    if x / y <= 65525 {
      MulMono(x / y + 1, 65526, y);
    }
  }

  // ------------------------------------------------------------------ regions

  /** A FAT12 boot sector whose volume has room for the regions it describes, and a
    * table with an entry for every cluster.
    */
  ghost predicate ValidBoot(bs: BootSector) {
    && bs.bytesPerSector in {512, 1024, 2048, 4096}
    && bs.sectorsPerCluster in {1, 2, 4, 8, 16, 32, 64, 128}
    && bs.reservedSectorCount >= 1 && bs.tableCount >= 1
    && bs.totalSectors16 < 0x1_0000
    && LayoutOf(bs).dataStart <= bs.totalSectors16
    && 0 <= LayoutOf(bs).clusters < 4085
    && 3 * (LayoutOf(bs).clusters + 2) <= 2 * bs.tableSize16 * bs.bytesPerSector
  }

  /** The regions follow each other without gaps; the root region holds all its
    * entries and less than one sector more; the data region holds the clusters and
    * less than one cluster more, and ends with the volume.
    */
  lemma RegionsAreContiguous(bs: BootSector)
    requires ValidBoot(bs)
    ensures var l := LayoutOf(bs);
      && 0 < l.fatStart == bs.reservedSectorCount && l.fatSectors == bs.tableCount * bs.tableSize16
      && l.fatStart + l.fatSectors == l.rootStart
      && l.rootStart + l.rootSectors == l.dataStart
      && 32 * bs.rootEntryCount <= l.rootSectors * bs.bytesPerSector
             < 32 * bs.rootEntryCount + bs.bytesPerSector
      && 0 <= l.clusters
      && l.dataStart + l.clusters * bs.sectorsPerCluster <= bs.totalSectors16
             < l.dataStart + (l.clusters + 1) * bs.sectorsPerCluster
  {
    TablesFollow(bs);
    RootFits(bs);
    ClustersFit(bs);
    hide LayoutOf;
  }

  lemma TablesFollow(bs: BootSector)
    requires bs.bytesPerSector > 0 && bs.sectorsPerCluster > 0
    ensures var l := LayoutOf(bs);
      && l.fatStart == bs.reservedSectorCount && l.fatSectors == bs.tableCount * bs.tableSize16
      && l.fatStart + l.fatSectors == l.rootStart && l.rootStart + l.rootSectors == l.dataStart
  {}

  lemma RootFits(bs: BootSector)
    requires bs.bytesPerSector > 0 && bs.sectorsPerCluster > 0
    ensures 32 * bs.rootEntryCount <= LayoutOf(bs).rootSectors * bs.bytesPerSector
            < 32 * bs.rootEntryCount + bs.bytesPerSector
  {
    RoundUp(32 * bs.rootEntryCount, bs.bytesPerSector);
  }

  lemma ClustersFit(bs: BootSector)
    requires ValidBoot(bs)
    ensures var l := LayoutOf(bs);
      l.dataStart + l.clusters * bs.sectorsPerCluster <= bs.totalSectors16
        < l.dataStart + (l.clusters + 1) * bs.sectorsPerCluster
  {
    var rest := bs.totalSectors16 - LayoutOf(bs).dataStart;
    QuotientBelow(rest, bs.sectorsPerCluster);
    assert LayoutOf(bs).clusters == rest / bs.sectorsPerCluster;
    hide LayoutOf, ValidBoot;
    RoundDown(rest, bs.sectorsPerCluster);
  }

  lemma RoundUp(x: nat, y: nat)
    requires y > 0
    ensures x <= (x + y - 1) / y * y < x + y
  {
    RoundDown(x + y - 1, y);
  }

  lemma RoundDown(x: nat, y: nat)
    requires y > 0
    ensures x / y * y <= x < (x / y + 1) * y
  {}

  ghost predicate Mounted(d: Disk) {
    && |d| >= BOOT_SECTOR_SIZE
    && var bs := ReadBootSector(d);
       ValidBoot(bs) && |d| == bs.totalSectors16 * bs.bytesPerSector
  }

  function ClusterSize(bs: BootSector): nat {
    bs.sectorsPerCluster * bs.bytesPerSector
  }

  /** fat_get_cluster_addr, in unsigned 32-bit arithmetic. */
  function ClusterAddr(bs: BootSector, cluster: int): (a: nat)
    requires bs.bytesPerSector > 0 && bs.sectorsPerCluster > 0
  {
    U32(U32(LayoutOf(bs).dataStart + (cluster - 2) * bs.sectorsPerCluster) * bs.bytesPerSector)
  }

  ghost predicate InData(bs: BootSector, cluster: int)
    requires bs.bytesPerSector > 0 && bs.sectorsPerCluster > 0
  {
    2 <= cluster < LayoutOf(bs).clusters + 2
  }

  lemma MulMono(a: int, b: int, c: int)
    requires a <= b && 0 <= c
    ensures a * c <= b * c
  {}

  /** There are such volumes: one sector each for boot, table, root and data. */
  lemma SmallestVolume() returns (d: Disk)
    ensures Mounted(d) && InData(ReadBootSector(d), 2)
  {
    var head: Disk := seq(64, i => if i == 12 then 2 else if i in {13, 14, 16, 22} then 1
                                   else if i == 17 then 16 else if i == 19 then 4 else 0);
    d := head + seq(1984, _ => 0);
  }

  /** A cluster lies wholly inside the data region, hence inside the volume. */
  lemma ClusterIsInVolume(bs: BootSector, cluster: int)
    requires ValidBoot(bs) && InData(bs, cluster)
    ensures var l := LayoutOf(bs);
      && ClusterAddr(bs, cluster)
         == (l.dataStart + (cluster - 2) * bs.sectorsPerCluster) * bs.bytesPerSector
      && l.dataStart * bs.bytesPerSector <= ClusterAddr(bs, cluster)
      && ClusterAddr(bs, cluster) + ClusterSize(bs) <= bs.totalSectors16 * bs.bytesPerSector
  {
    var l := LayoutOf(bs);
    RegionsAreContiguous(bs);
    SectorsOfCluster(l.dataStart, cluster, bs.sectorsPerCluster, l.clusters, bs.totalSectors16);
    var sector := l.dataStart + (cluster - 2) * bs.sectorsPerCluster;
    BytesOfSectors(l.dataStart, sector, bs.sectorsPerCluster, bs.totalSectors16, bs.bytesPerSector);
  }

  lemma SectorsOfCluster(start: nat, cluster: int, n: nat, clusters: int, total: nat)
    requires 2 <= cluster < clusters + 2 && start + clusters * n <= total
    ensures start <= start + (cluster - 2) * n
    ensures start + (cluster - 2) * n + n <= total
  {
    MulMono(0, cluster - 2, n);
    MulMono(cluster - 1, clusters, n);
    assert (cluster - 1) * n == (cluster - 2) * n + n;
  }

  lemma BytesOfSectors(start: nat, sector: nat, n: nat, total: nat, bytes: nat)
    requires start <= sector && sector + n <= total < 0x1_0000 && bytes <= 4096
    ensures start * bytes <= sector * bytes < 0x1_0000_0000
    ensures sector * bytes + n * bytes <= total * bytes
  {
    MulMono(start, sector, bytes);
    MulMono(sector + n, total, bytes);
    assert (sector + n) * bytes == sector * bytes + n * bytes;
    MulMono(sector, 0x1_0000, bytes);
  }

  /** The byte ranges of distinct clusters do not meet. */
  lemma ClustersAreDisjoint(bs: BootSector, a: int, b: int)
    requires ValidBoot(bs) && InData(bs, a) && InData(bs, b) && a < b
    ensures ClusterAddr(bs, a) + ClusterSize(bs) <= ClusterAddr(bs, b)
  {
    ClusterIsInVolume(bs, a);
    ClusterIsInVolume(bs, b);
    NextClusterBytes(LayoutOf(bs).dataStart, a, b, bs.sectorsPerCluster, bs.bytesPerSector);
  }

  lemma NextClusterBytes(s: nat, a: int, b: int, n: nat, bytes: nat)
    requires a < b
    ensures (s + (a - 2) * n) * bytes + n * bytes <= (s + (b - 2) * n) * bytes
  {
    MulMono(a - 1, b - 2, n);
    assert (a - 1) * n == (a - 2) * n + n;
    MulMono(s + (a - 2) * n + n, s + (b - 2) * n, bytes);
    assert (s + (a - 2) * n + n) * bytes == (s + (a - 2) * n) * bytes + n * bytes;
  }
}
