/** Volumes as the standard has them written, byte after byte: what the driver reads
  * from them is what was written.
  */
module FatFormat {
  import opened Bytes
  import opened FatVolume
  import opened FatTable
  import opened FatChains
  import opened FatDirectory

  // -------------------------------------------------------------- boot sector

  ghost predicate Writable(bs: BootSector) {
    && bs.bytesPerSector < 0x1_0000 && bs.sectorsPerCluster < 0x100
    && bs.reservedSectorCount < 0x1_0000 && bs.tableCount < 0x100
    && bs.rootEntryCount < 0x1_0000 && bs.totalSectors16 < 0x1_0000 && bs.tableSize16 < 0x1_0000
  }

  /** A boot sector, in the order of its fields: a jump, the name of the maker, the
    * parameters with the medium among them, and the rest.
    */
  ghost function BootSectorBytes(bs: BootSector, jump: seq<Byte>, maker: seq<Byte>, medium: Byte, rest: Disk): Disk
    requires Writable(bs)
  {
    jump + maker + Word(bs.bytesPerSector) + [bs.sectorsPerCluster] + Word(bs.reservedSectorCount)
    + [bs.tableCount] + Word(bs.rootEntryCount) + Word(bs.totalSectors16) + [medium]
    + Word(bs.tableSize16) + rest
  }

  lemma BootSectorComesBack(bs: BootSector, jump: seq<Byte>, maker: seq<Byte>, medium: Byte, rest: Disk)
    requires Writable(bs) && |jump| == 3 && |maker| == 8 && |rest| >= 66
    ensures var d := BootSectorBytes(bs, jump, maker, medium, rest);
      |d| == 24 + |rest| && ReadBootSector(d) == bs
  {
    var d := BootSectorBytes(bs, jump, maker, medium, rest);
    assert d[11..13] == Word(bs.bytesPerSector) && d[14..16] == Word(bs.reservedSectorCount);
    assert d[17..19] == Word(bs.rootEntryCount) && d[19..21] == Word(bs.totalSectors16);
    assert d[22..24] == Word(bs.tableSize16);
    WordComesBack(d, 11, bs.bytesPerSector);
    WordComesBack(d, 14, bs.reservedSectorCount);
    WordComesBack(d, 17, bs.rootEntryCount);
    WordComesBack(d, 19, bs.totalSectors16);
    WordComesBack(d, 22, bs.tableSize16);
  }

  // -------------------------------------------------------- directory entries

  ghost predicate WritableEntry(e: DirEntry) {
    && |e.name| == 11
    && e.creationTime < 0x1_0000 && e.creationDate < 0x1_0000 && e.accessDate < 0x1_0000
    && e.writeTime < 0x1_0000 && e.writeDate < 0x1_0000 && e.startingCluster < 0x1_0000
    && e.fileSize < 0x1_0000_0000
  }

  /** An entry, in the order of its fields; no code reads two of them. */
  ghost function EntryBytes(e: DirEntry, reserved: Byte, ignored: nat): (bytes: Disk)
    requires WritableEntry(e) && ignored < 0x1_0000
    ensures |bytes| == 32
  {
    e.name + [e.attributes, reserved, e.creationTenths]
    + Word(e.creationTime) + Word(e.creationDate) + Word(e.accessDate) + Word(ignored)
    + Word(e.writeTime) + Word(e.writeDate) + Word(e.startingCluster) + DoubleWord(e.fileSize)
  }

  lemma EntryFields(e: DirEntry, reserved: Byte, ignored: nat)
    requires WritableEntry(e) && ignored < 0x1_0000
    ensures var b := EntryBytes(e, reserved, ignored);
      && b[..11] == e.name && b[11] == e.attributes && b[13] == e.creationTenths
      && b[14..16] == Word(e.creationTime) && b[16..18] == Word(e.creationDate)
      && b[18..20] == Word(e.accessDate) && b[22..24] == Word(e.writeTime) && b[24..26] == Word(e.writeDate)
      && b[26..28] == Word(e.startingCluster) && b[28..32] == DoubleWord(e.fileSize)
  {
    hide Word, DoubleWord;
  }

  lemma EntryComesBack(d: Disk, at: nat, e: DirEntry, reserved: Byte, ignored: nat)
    requires WritableEntry(e) && ignored < 0x1_0000
    requires at + 32 <= |d| && d[at..at + 32] == EntryBytes(e, reserved, ignored)
    ensures ReadEntry(d, at) == e
  {
    var b := EntryBytes(e, reserved, ignored);
    EntryFields(e, reserved, ignored);
    hide EntryBytes, Word, DoubleWord, Le16, Le32;
    assert forall i | 0 <= i < 32 :: d[at + i] == b[i];
    assert d[at..at + 11] == b[..11] && d[at + 14..at + 16] == b[14..16] && d[at + 16..at + 18] == b[16..18];
    assert d[at + 18..at + 20] == b[18..20] && d[at + 22..at + 24] == b[22..24];
    assert d[at + 24..at + 26] == b[24..26] && d[at + 26..at + 28] == b[26..28];
    assert d[at + 28..at + 32] == b[28..32];
    WordComesBack(d, at + 14, e.creationTime);
    WordComesBack(d, at + 16, e.creationDate);
    WordComesBack(d, at + 18, e.accessDate);
    WordComesBack(d, at + 22, e.writeTime);
    WordComesBack(d, at + 24, e.writeDate);
    WordComesBack(d, at + 26, e.startingCluster);
    DoubleWordComesBack(d, at + 28, e.fileSize);
  }

  /** Entries one behind another. */
  ghost function TableBytes(es: seq<DirEntry>, reserved: Byte, ignored: nat): (bytes: Disk)
    requires ignored < 0x1_0000 && forall e | e in es :: WritableEntry(e)
    ensures |bytes| == 32 * |es|
  {
    if es == [] then [] else EntryBytes(es[0], reserved, ignored) + TableBytes(es[1..], reserved, ignored)
  }

  lemma {:induction false} EntryInTable(es: seq<DirEntry>, reserved: Byte, ignored: nat, i: nat)
    requires ignored < 0x1_0000 && (forall e | e in es :: WritableEntry(e)) && i < |es|
    ensures TableBytes(es, reserved, ignored)[32 * i..32 * i + 32] == EntryBytes(es[i], reserved, ignored)
    decreases i
  {
    var (head, tail) := (EntryBytes(es[0], reserved, ignored), TableBytes(es[1..], reserved, ignored));
    assert TableBytes(es, reserved, ignored) == head + tail;
    if i > 0 {
      EntryInTable(es[1..], reserved, ignored, i - 1);
      assert (head + tail)[32 * i..32 * i + 32] == tail[32 * (i - 1)..32 * (i - 1) + 32];
    }
  }

  /** A walk of a table that was written from entries, none of them unused or deleted, and
    * that is full or followed by an unused or deleted one, hands out exactly these.
    */
  lemma DirectoryComesBack(es: seq<DirEntry>, reserved: Byte, ignored: nat, rest: Disk, n: nat)
    requires ignored < 0x1_0000
    requires forall e | e in es :: WritableEntry(e) && e.name[0] != 0x00 && e.name[0] != 0xE5
    requires |es| <= n && 32 * n <= 32 * |es| + |rest| && (|es| < n ==> rest[0] == 0x00 || rest[0] == 0xE5)
    ensures LiveEntries(TableBytes(es, reserved, ignored) + rest, n) == es
  {
    var bytes := TableBytes(es, reserved, ignored) + rest;
    forall i | 0 <= i < |es| ensures ReadEntry(bytes, 32 * i) == es[i] && bytes[32 * i] == es[i].name[0] {
      ReadFromTable(es, reserved, ignored, rest, i);
    }
    hide ReadEntry, EntryBytes, TableBytes, WritableEntry;
    assert |es| < n ==> bytes[32 * |es|] == rest[0];
    ReadUpToStop(bytes, es, n, 0);
  }

  lemma {:induction false} ReadUpToStop(bytes: Disk, es: seq<DirEntry>, n: nat, i: nat)
    requires i <= |es| <= n && 32 * n <= |bytes|
    requires forall i | 0 <= i < |es| :: ReadEntry(bytes, 32 * i) == es[i] && bytes[32 * i] !in {0x00, 0xE5}
    requires |es| < n ==> bytes[32 * |es|] in {0x00, 0xE5}
    ensures LiveFrom(bytes, n, i) == es[i..]
    decreases |es| - i
  {
    hide ReadEntry;
    if i < |es| {
      assert ReadEntry(bytes, 32 * i) == es[i];
      ReadUpToStop(bytes, es, n, i + 1);
    }
  }

  lemma ReadFromTable(es: seq<DirEntry>, reserved: Byte, ignored: nat, rest: Disk, i: nat)
    requires ignored < 0x1_0000 && (forall e | e in es :: WritableEntry(e)) && i < |es|
    ensures var bytes := TableBytes(es, reserved, ignored) + rest;
      ReadEntry(bytes, 32 * i) == es[i] && bytes[32 * i] == es[i].name[0]
  {
    var (table, bytes) := (TableBytes(es, reserved, ignored), TableBytes(es, reserved, ignored) + rest);
    EntryInTable(es, reserved, ignored, i);
    hide TableBytes, EntryBytes;
    assert 32 * i + 32 <= |table|;
    assert bytes[32 * i..32 * i + 32] == table[32 * i..32 * i + 32];
    EntryComesBack(bytes, 32 * i, es[i], reserved, ignored);
    assert ReadEntry(bytes, 32 * i).name == bytes[32 * i..32 * i + 11];
  }

  // ------------------------------------------------------------------- places

  /** The root directory's bytes lie behind the reserved sectors and all tables, in as many
    * whole sectors as its entries take.
    */
  lemma RootIsBehindTables(d: Disk)
    requires Mounted(d)
    ensures var (root, at) := (RootData(d), (Le16(d, 14) + d[16] * Le16(d, 22)) * Le16(d, 11));
      && at >= 0 && at + |root| <= |d| && root == d[at..at + |root|]
      && 32 * Le16(d, 17) <= |root| < 32 * Le16(d, 17) + Le16(d, 11)
  {
    var bs := ReadBootSector(d);
    var l := LayoutOf(bs);
    RegionsAreContiguous(bs);
    RootIsInVolume(d);
    assert (l.rootStart + l.rootSectors) * bs.bytesPerSector
        == l.rootStart * bs.bytesPerSector + l.rootSectors * bs.bytesPerSector;
  }

  /** The clusters follow it, the first of them having number 2. */
  lemma ClusterIsBehindRoot(d: Disk, c: nat)
    requires Usable(d, c)
    ensures var root := (Le16(d, 14) + d[16] * Le16(d, 22)) * Le16(d, 11);
      var at := root + |RootData(d)| + (c - 2) * (d[13] * Le16(d, 11));
      && at >= 0 && |ClusterData(d, c)| == d[13] * Le16(d, 11)
      && at + |ClusterData(d, c)| <= |d| && ClusterData(d, c) == d[at..at + |ClusterData(d, c)|]
  {
    var bs := ReadBootSector(d);
    var l := LayoutOf(bs);
    ClusterIsInVolume(bs, c);
    RootIsBehindTables(d);
    RootEndsWithData(d);
    AddressOf(l.dataStart, c - 2, bs.sectorsPerCluster, bs.bytesPerSector);
    hide LayoutOf, ClusterAddr, ValidBoot, RootData;
  }

  lemma RootEndsWithData(d: Disk)
    requires Mounted(d)
    ensures var (bs, l) := (ReadBootSector(d), LayoutOf(ReadBootSector(d)));
      && l.rootStart * bs.bytesPerSector + |RootData(d)| == l.dataStart * bs.bytesPerSector
      && l.rootStart == Le16(d, 14) + d[16] * Le16(d, 22)
  {
    RootIsInVolume(d);
    RegionsAreContiguous(ReadBootSector(d));
  }

  lemma AddressOf(start: nat, k: nat, n: nat, bytes: nat)
    ensures (start + k * n) * bytes == start * bytes + k * (n * bytes)
  {
    assert k * n * bytes == k * (n * bytes);
  }
}
