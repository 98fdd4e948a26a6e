/** The packed 12-bit allocation table. */
module FatTable {
  import opened Bytes
  import opened FatVolume

  /** The offset of the bytes that hold entry c, which shares its middle byte with
    * its neighbour.
    */
  function PairOffset(c: nat): nat {
    c / 2 * 3
  }

  /** The end of the bytes that entry c is read from. */
  function EntryEnd(c: nat): nat {
    PairOffset(c) + (if c % 2 == 0 then 2 else 3)
  }

  /** fat_get_fat, on the bytes of a table. The source's masks and shifts by whole
    * nibbles are remainders and quotients by 16 here.
    */
  function EntryOf(table: Disk, c: nat): (value: nat)
    requires EntryEnd(c) <= |table|
    ensures value < 0x1000
  {
    var p := PairOffset(c);
    if c % 2 == 0 then table[p] as int + table[p + 1] as int % 16 * 0x100
    else table[p + 2] as int * 16 + table[p + 1] as int / 16
  }

  /** The standard's rule: the little-endian word at offset c + c/2, its upper twelve
    * bits when c is odd and its lower twelve when it is even.
    */
  lemma EntryIsStandard(table: Disk, c: nat)
    requires EntryEnd(c) <= |table|
    ensures c + c / 2 + 2 <= |table|
    ensures EntryOf(table, c) ==
            var word := Le16(table, c + c / 2);
            if c % 2 == 1 then word / 16 else word % 0x1000
  {
    var at := c + c / 2;
    assert at == PairOffset(c) + c % 2;
    BitsOfWord(table[at], table[at + 1]);
  }

  lemma BitsOfWord(low: Byte, high: Byte)
    ensures (low as int + 0x100 * high as int) / 16 == high as int * 16 + low as int / 16
    ensures (low as int + 0x100 * high as int) % 0x1000 == low as int + high as int % 16 * 0x100
  {
    var (l, h) := (low as int, high as int);
    var (q, r) := (l / 16, l % 16);
    assert l + 0x100 * h == 16 * (h * 16 + q) + r;
    var (p, t) := (h / 16, h % 16);
    assert l + 0x100 * h == 0x1000 * p + (l + t * 0x100);
  }

  type Word12 = v: int | 0 <= v < 0x1000

  /** Two values in three bytes; a last odd one is paired with zero. */
  function Pack(values: seq<Word12>): (table: Disk)
    ensures |table| == 3 * ((|values| + 1) / 2)
  {
    if values == [] then []
    else
      var second := if |values| > 1 then values[1] else 0;
      [values[0] as int % 0x100,
       values[0] as int / 0x100 + second as int % 16 * 16,
       second as int / 16]
      + Pack(values[if |values| > 1 then 2 else 1..])
  }

  lemma EntryBehindPair(head: Disk, rest: Disk, i: nat)
    requires |head| == 3 && EntryEnd(i) <= |rest|
    ensures EntryEnd(i + 2) == EntryEnd(i) + 3
    ensures EntryOf(head + rest, i + 2) == EntryOf(rest, i)
  {
    assert PairOffset(i + 2) == PairOffset(i) + 3;
  }

  /** Reading entry i of a packed table gives value i. */
  lemma {:induction false} EntryUnpacks(values: seq<Word12>, i: nat)
    requires i < |values|
    ensures EntryEnd(i) <= |Pack(values)|
    ensures EntryOf(Pack(values), i) == values[i]
    decreases |values|
  {
    if i >= 2 {
      var (head, rest) := (Pack(values)[..3], Pack(values[2..]));
      assert Pack(values) == head + rest;
      EntryUnpacks(values[2..], i - 2);
      EntryBehindPair(head, rest, i - 2);
    }
  }

  /** The offset of the first table. */
  function TableStart(bs: BootSector): nat {
    MulMono(0, bs.reservedSectorCount, bs.bytesPerSector);
    bs.reservedSectorCount * bs.bytesPerSector
  }

  /** fat_get_fat on a mounted volume. */
  function FatGet(d: Disk, c: nat): (value: nat)
    requires |d| >= BOOT_SECTOR_SIZE
    requires TableStart(ReadBootSector(d)) + EntryEnd(c) <= |d|
    ensures value < 0x1000
  {
    EntryOf(d[TableStart(ReadBootSector(d))..], c)
  }

  /** The standard's rule again, on the bytes of the volume: the table begins behind the
    * reserved sectors.
    */
  lemma EntryOnDisk(d: Disk, c: nat)
    requires |d| >= 90 && TableStart(ReadBootSector(d)) + EntryEnd(c) <= |d|
    ensures Le16(d, 14) * Le16(d, 11) + c + c / 2 + 2 <= |d|
    ensures FatGet(d, c) ==
            var word := Le16(d, Le16(d, 14) * Le16(d, 11) + c + c / 2);
            if c % 2 == 1 then word / 16 else word % 0x1000
  {
    EntryIsStandard(d[TableStart(ReadBootSector(d))..], c);
  }

  /** The table of a mounted volume has an entry for every data cluster. */
  lemma EntryIsInTable(d: Disk, c: nat)
    requires Mounted(d) && InData(ReadBootSector(d), c)
    ensures var bs := ReadBootSector(d);
            TableStart(bs) + EntryEnd(c)
              <= LayoutOf(bs).rootStart * bs.bytesPerSector <= |d|
  {
    var bs := ReadBootSector(d);
    var l := LayoutOf(bs);
    RegionsAreContiguous(bs);
    MulMono(1, bs.tableCount, bs.tableSize16);
    MulMono(l.fatStart + bs.tableSize16, l.rootStart, bs.bytesPerSector);
    MulMono(l.rootStart, bs.totalSectors16, bs.bytesPerSector);
    TableHasEntry(l.fatStart, bs.tableSize16, bs.bytesPerSector, l.clusters, c);
  }

  lemma TableHasEntry(start: nat, sectors: nat, bytes: nat, clusters: nat, c: nat)
    requires 3 * (clusters + 2) <= 2 * sectors * bytes && c < clusters + 2
    ensures start * bytes + EntryEnd(c) <= (start + sectors) * bytes
  {
    var size := sectors * bytes;
    assert 2 * sectors * bytes == 2 * size;
    assert (start + sectors) * bytes == start * bytes + size;
  }
}
