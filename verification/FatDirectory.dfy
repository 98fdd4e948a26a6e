/** Directory walks: which entries they hand to a callback, and the lookup of a name
  * by such a callback.
  */
module FatDirectory {
  import opened Bytes
  import opened Wrappers
  import opened FatTable
  import opened FatVolume
  import opened FatChains

  const NAME_SIZE := 11

  /** A directory entry but for the two fields that no code reads. */
  datatype DirEntry = DirEntry(
    name: seq<Byte>,
    attributes: Byte,
    creationTenths: Byte,
    creationTime: nat,
    creationDate: nat,
    accessDate: nat,
    writeTime: nat,
    writeDate: nat,
    startingCluster: nat,
    fileSize: nat)

  function ReadEntry(bytes: Disk, at: nat): (e: DirEntry)
    requires at + ENTRY_SIZE <= |bytes|
    ensures |e.name| == NAME_SIZE
  {
    DirEntry(bytes[at..at + 11], bytes[at + 11], bytes[at + 13], Le16(bytes, at + 14), Le16(bytes, at + 16),
             Le16(bytes, at + 18), Le16(bytes, at + 22), Le16(bytes, at + 24), Le16(bytes, at + 26),
             Le32(bytes, at + 28))
  }

  /** The first byte of an entry that is unused (0x00) or deleted (0xE5). */
  predicate Stops(first: Byte) {
    first == 0x00 || first == 0xE5
  }

  /** The entries of a table of n, up to the first that is unused or deleted. */
  function LiveEntries(bytes: Disk, n: nat): (es: seq<DirEntry>)
    requires n * ENTRY_SIZE <= |bytes|
    ensures |es| <= n
    ensures forall i | 0 <= i < |es| ::
              es[i] == ReadEntry(bytes, i * 32) && bytes[i * 32] != 0x00 && bytes[i * 32] != 0xE5
    ensures |es| < n ==> bytes[|es| * 32] == 0x00 || bytes[|es| * 32] == 0xE5
  {
    LiveFrom(bytes, n, 0)
  }

  function LiveFrom(bytes: Disk, n: nat, i: nat): (es: seq<DirEntry>)
    requires i <= n && n * ENTRY_SIZE <= |bytes|
    ensures i + |es| <= n
    ensures forall j | i <= j < i + |es| ::
              es[j - i] == ReadEntry(bytes, j * ENTRY_SIZE) && !Stops(bytes[j * ENTRY_SIZE])
    ensures i + |es| < n ==> Stops(bytes[(i + |es|) * ENTRY_SIZE])
    decreases n - i
  {
    if i == n || Stops(bytes[i * ENTRY_SIZE]) then []
    else [ReadEntry(bytes, i * ENTRY_SIZE)] + LiveFrom(bytes, n, i + 1)
  }

  /** The bytes of the root directory region. */
  function RootData(d: Disk): (bytes: Disk)
    requires Mounted(d)
    ensures ReadBootSector(d).rootEntryCount * ENTRY_SIZE <= |bytes|
  {
    var bs := ReadBootSector(d);
    RootIsInVolume(d);
    d[LayoutOf(bs).rootStart * bs.bytesPerSector..LayoutOf(bs).dataStart * bs.bytesPerSector]
  }

  lemma RootIsInVolume(d: Disk)
    requires Mounted(d)
    ensures var (bs, l) := (ReadBootSector(d), LayoutOf(ReadBootSector(d)));
      && l.rootStart * bs.bytesPerSector + bs.rootEntryCount * ENTRY_SIZE
         <= l.dataStart * bs.bytesPerSector <= |d|
  {
    var bs := ReadBootSector(d);
    var l := LayoutOf(bs);
    RegionsAreContiguous(bs);
    assert (l.rootStart + l.rootSectors) * bs.bytesPerSector
        == l.rootStart * bs.bytesPerSector + l.rootSectors * bs.bytesPerSector;
    MulMono(l.dataStart, bs.totalSectors16, bs.bytesPerSector);
  }

  function EntriesPerCluster(d: Disk): (n: nat)
    requires |d| >= BOOT_SECTOR_SIZE
    ensures n * 32 <= ClusterSize(ReadBootSector(d)) < n * 32 + 32
  {
    ClusterSize(ReadBootSector(d)) / ENTRY_SIZE
  }

  function ClusterEntries(d: Disk, c: nat): seq<DirEntry>
    requires Usable(d, c)
  {
    LiveEntries(ClusterData(d, c), EntriesPerCluster(d))
  }

  /** The live entries of the clusters of a walk, one cluster after another. */
  ghost function WalkEntries(d: Disk, c: nat, p: seq<nat>): seq<DirEntry>
    requires IsWalk(d, c, p)
    decreases |p|
  {
    if p == [] then [] else ClusterEntries(d, c) + WalkEntries(d, Next(d, c), p[1..])
  }

  /** The directories the walk can be asked for: the root (as cluster 0), or one
    * whose chain ends.
    */
  ghost predicate IsDirectory(d: Disk, cluster: nat) {
    Mounted(d) && (cluster == 0 || Ends(d, cluster))
  }

  /** The entries a walk of the directory at a cluster hands to its callback. */
  ghost function Visited(d: Disk, cluster: nat): seq<DirEntry>
    requires IsDirectory(d, cluster)
  {
    if cluster == 0 then LiveEntries(RootData(d), ReadBootSector(d).rootEntryCount)
    else WalkEntries(d, cluster, ChainOf(d, cluster))
  }

  function Fold<A>(callback: (DirEntry, A) -> A, es: seq<DirEntry>, p: A): A
    decreases |es|
  {
    if es == [] then p else Fold(callback, es[1..], callback(es[0], p))
  }

  lemma {:induction false} FoldSplits<A>(callback: (DirEntry, A) -> A, a: seq<DirEntry>, b: seq<DirEntry>, p: A)
    ensures Fold(callback, a + b, p) == Fold(callback, b, Fold(callback, a, p))
    decreases |a|
  {
    if a == [] {
      assert a + b == b;
    } else {
      assert (a + b)[1..] == a[1..] + b;
      FoldSplits(callback, a[1..], b, callback(a[0], p));
    }
  }

  /** The loop over the entries of one table. */
  method IterateTable<A>(bytes: Disk, n: nat, callback: (DirEntry, A) -> A, p: A) returns (q: A)
    requires n * ENTRY_SIZE <= |bytes|
    ensures q == Fold(callback, LiveEntries(bytes, n), p)
  {
    q := p;
    var i := 0;
    while i < n && !Stops(bytes[i * ENTRY_SIZE])
      invariant 0 <= i <= n
      invariant Fold(callback, LiveEntries(bytes, n), p) == Fold(callback, LiveFrom(bytes, n, i), q)
    {
      q := callback(ReadEntry(bytes, i * ENTRY_SIZE), q);
      assert LiveFrom(bytes, n, i)[1..] == LiveFrom(bytes, n, i + 1);
      i := i + 1;
    }
  }

  /** iterate_dir and iterate_rootdir: the callback sees exactly the visited entries,
    * in order. What ends the walk is that there are ever fewer unvisited clusters.
    */
  method IterateDir<A>(d: Disk, start: nat, callback: (DirEntry, A) -> A, p: A) returns (q: A)
    requires IsDirectory(d, start)
    ensures q == Fold(callback, Visited(d, start), p)
  {
    if start == 0 {
      q := IterateTable(RootData(d), ReadBootSector(d).rootEntryCount, callback, p);
      return;
    }
    q := p;
    var cluster: nat := start;
    while cluster < STOP
      invariant Ends(d, cluster)
      invariant Fold(callback, Visited(d, start), p)
             == Fold(callback, WalkEntries(d, cluster, ChainOf(d, cluster)), q)
      decreases |ChainOf(d, cluster)|
    {
      ChainStep(d, cluster);
      var nextCluster := Next(d, cluster);
      ghost var (es, rest) := (ClusterEntries(d, cluster), WalkEntries(d, nextCluster, ChainOf(d, nextCluster)));
      assert ChainOf(d, cluster)[1..] == ChainOf(d, nextCluster);
      FoldSplits(callback, es, rest, q);
      q := IterateTable(ClusterData(d, cluster), EntriesPerCluster(d), callback, q);
      cluster := nextCluster;
    }
    ChainStep(d, cluster);
  }

  /** A volume of 4000 one-sector clusters whose table holds end marks only. */
  function LargeVolume(): (d: Disk)
    ensures |d| == 4014 * 512
  {
    var head: Disk := seq(64, i => if i == 12 then 2 else if i in {13, 14, 16} then 1 else if i == 17 then 16
                                   else if i == 19 then 0xAE else if i == 20 then 0x0F
                                   else if i == 22 then 12 else 0);
    head + seq(4014 * 512 - 64, _ => 0xFF)
  }

  lemma LargeVolumeIsMounted()
    ensures Mounted(LargeVolume()) && InData(ReadBootSector(LargeVolume()), STOP)
    ensures TableStart(ReadBootSector(LargeVolume())) == 512
  {
    assert ReadBootSector(LargeVolume()) == BootSector(512, 1, 1, 1, 16, 4014, 12);
    hide LargeVolume, ReadBootSector;
  }

  /** There the directory at cluster 0xF00, a chain of one cluster by the standard, has
    * entries, and the walk visits none of them.
    */
  lemma DirectoryIsCutShort(d: Disk)
    requires d == LargeVolume()
    ensures IsStandardChain(d, STOP, [STOP]) && IsDirectory(d, STOP)
    ensures ClusterEntries(d, STOP) != [] && Visited(d, STOP) == []
  {
    LargeVolumeIsMounted();
    hide Mounted;
    assert EntryOf(d[512..], STOP) == 0xFFF;
    assert Next(d, STOP) == 0xFFF;
    assert [STOP][1..] == [];
    WalkCoversChainIff(d, STOP, [STOP]);
    ChainStep(d, STOP);
    var bs := ReadBootSector(d);
    ClusterIsInVolume(bs, STOP);
    assert ClusterData(d, STOP)[0] == 0xFF;
  }

  // ------------------------------------------------------------ name lookup

  /** What the search for a name carries from entry to entry. */
  datatype Search = Search(entry: DirEntry, found: bool)

  /** _callback_find_entry */
  function FindEntry(e: DirEntry, arg: Search): Search {
    if arg.entry.name == e.name then Search(e, true) else arg
  }

  /** The last of the entries with this name. */
  function LastMatch(es: seq<DirEntry>, name: seq<Byte>): (m: Option<DirEntry>)
    ensures m.Some? ==> exists i | 0 <= i < |es| ::
              es[i] == m.value && es[i].name == name && forall j | i < j < |es| :: es[j].name != name
    ensures m.None? ==> forall e | e in es :: e.name != name
  {
    if es == [] then None
    else if es[|es| - 1].name == name then Some(es[|es| - 1])
    else
      assert es == es[..|es| - 1] + [es[|es| - 1]];
      LastMatch(es[..|es| - 1], name)
  }

  /** Searching with the callback finds the last entry with the name, and leaves the
    * buffer alone when there is none.
    */
  lemma {:induction false} SearchFindsLastMatch(es: seq<DirEntry>, arg: Search)
    ensures var m := LastMatch(es, arg.entry.name);
      Fold(FindEntry, es, arg) == if m.Some? then Search(m.value, true) else arg
    decreases |es|
  {
    if es != [] {
      var (front, last) := (es[..|es| - 1], es[|es| - 1]);
      assert es == front + [last];
      FoldSplits(FindEntry, front, [last], arg);
      SearchFindsLastMatch(front, arg);
      assert Fold(FindEntry, [last], Fold(FindEntry, front, arg)) == FindEntry(last, Fold(FindEntry, front, arg));
    }
  }
}
