/** Reading a file in chunks of 1024 bytes. */
module FatFiles {
  import opened Bytes
  import opened FatVolume
  import opened FatChains
  import opened FatNames

  /** The chunk that is copied from each cluster, whatever the cluster size. */
  const CHUNK := 1024

  function Chunks(size: nat): nat {
    (size + CHUNK - 1) / CHUNK
  }

  /** A whole chunk can be read at each of the first n clusters from c on. */
  ghost predicate Readable(d: Disk, c: nat, n: nat)
    decreases n
  {
    n == 0 || (
      && Usable(d, c)
      && ClusterAddr(ReadBootSector(d), c) + CHUNK <= |d|
      && (n > 1 ==> Readable(d, Next(d, c), n - 1)))
  }

  function ChunkAt(d: Disk, c: nat): (bytes: Disk)
    requires Readable(d, c, 1)
    ensures |bytes| == CHUNK
  {
    d[ClusterAddr(ReadBootSector(d), c)..ClusterAddr(ReadBootSector(d), c) + CHUNK]
  }

  ghost function Clusters(d: Disk, c: nat, n: nat): seq<nat>
    requires Readable(d, c, n)
    decreases n
  {
    if n == 0 then [] else if n == 1 then [c] else [c] + Clusters(d, Next(d, c), n - 1)
  }

  /** The chunks at the first n clusters from c on. */
  ghost function Contents(d: Disk, c: nat, n: nat): (bytes: Disk)
    requires Readable(d, c, n)
    ensures |bytes| == n * CHUNK
    decreases n
  {
    if n == 0 then []
    else if n == 1 then ChunkAt(d, c)
    else ChunkAt(d, c) + Contents(d, Next(d, c), n - 1)
  }

  /** The first bytes of those chunks. */
  ghost function FirstBytes(d: Disk, c: nat, size: nat): Disk
    requires Readable(d, c, Chunks(size))
  {
    Contents(d, c, Chunks(size))[..size]
  }

  function Flatten(chunks: seq<seq<Byte>>): seq<Byte> {
    if chunks == [] then [] else Flatten(chunks[..|chunks| - 1]) + chunks[|chunks| - 1]
  }

  /** What printing the chunks as strings puts out. */
  function Printed(chunks: seq<seq<Byte>>): seq<Byte> {
    if chunks == [] then [] else Printed(chunks[..|chunks| - 1]) + CString(chunks[|chunks| - 1])
  }

  lemma FlattenAppends(chunks: seq<seq<Byte>>, chunk: seq<Byte>)
    ensures Flatten(chunks + [chunk]) == Flatten(chunks) + chunk
    ensures Printed(chunks + [chunk]) == Printed(chunks) + CString(chunk)
  {
    assert (chunks + [chunk])[..|chunks|] == chunks;
  }

  /** cat_file_for_cluster: the chunks it copies make up the first size bytes, and it
    * copies one from each of as many clusters as these take, never from one more.
    */
  method CatFile(d: Disk, start: nat, size: nat) returns (chunks: seq<seq<Byte>>, ghost read: seq<nat>)
    requires Readable(d, start, Chunks(size))
    ensures |chunks| == |read| == Chunks(size)
    ensures 1024 * (|chunks| - 1) < size <= 1024 * |chunks|
    ensures read == Clusters(d, start, Chunks(size))
    ensures Flatten(chunks) == FirstBytes(d, start, size)
  {
    chunks, read := [], [];
    var cluster: nat := start;
    var fileSize: nat := size;
    hide FirstBytes, Clusters, Readable, Usable, Flatten, Printed, CString, ChunkAt, Chunks;
    NoChunk(d, cluster);
    while fileSize > 0
      invariant fileSize <= size
      invariant |chunks| == |read| == Chunks(size) - Chunks(fileSize)
      invariant Readable(d, cluster, Chunks(fileSize))
      invariant Clusters(d, start, Chunks(size)) == read + Clusters(d, cluster, Chunks(fileSize))
      invariant FirstBytes(d, start, size) == Flatten(chunks) + FirstBytes(d, cluster, fileSize)
      decreases fileSize
    {
      read := read + [cluster];
      if fileSize >= CHUNK {
        FullChunk(d, cluster, fileSize);
        var chunk := ChunkAt(d, cluster);
        FlattenAppends(chunks, chunk);
        chunks := chunks + [chunk];
        fileSize := fileSize - CHUNK;
        cluster := Next(d, cluster);
      } else {
        LastChunk(d, cluster, fileSize);
        var chunk := ChunkAt(d, cluster)[..fileSize];
        FlattenAppends(chunks, chunk);
        chunks := chunks + [chunk];
        fileSize := 0;
      }
    }
    NoChunk(d, cluster);
    ChunksCover(size);
  }

  lemma ChunksCover(size: nat)
    ensures 1024 * (Chunks(size) - 1) < size <= 1024 * Chunks(size)
  {}

  lemma LastChunk(d: Disk, c: nat, size: nat)
    requires 0 < size < CHUNK && Readable(d, c, Chunks(size))
    ensures Chunks(size) == 1 && Chunks(0) == 0 && Usable(d, c) && Readable(d, c, 1) && Readable(d, c, 0)
    ensures Clusters(d, c, 1) == [c] + Clusters(d, c, 0)
    ensures FirstBytes(d, c, size) == ChunkAt(d, c)[..size] + FirstBytes(d, c, 0)
  {}

  lemma NoChunk(d: Disk, c: nat)
    ensures Chunks(0) == 0 && Readable(d, c, 0) && Clusters(d, c, 0) == [] && FirstBytes(d, c, 0) == []
    ensures Flatten([]) == []
  {}

  lemma FullChunk(d: Disk, c: nat, size: nat)
    requires size >= CHUNK && Readable(d, c, Chunks(size))
    ensures var n := Chunks(size - CHUNK);
      && Chunks(size) == n + 1
      && Usable(d, c) && Readable(d, c, 1) && Readable(d, Next(d, c), n)
      && Clusters(d, c, n + 1) == [c] + Clusters(d, Next(d, c), n)
      && FirstBytes(d, c, size) == ChunkAt(d, c) + FirstBytes(d, Next(d, c), size - CHUNK)
  {
    hide Usable, ClusterAddr, Next, ChunkAt;
    var n := Chunks(size - CHUNK);
    assert Chunks(size) == n + 1;
    if n == 0 {
      assert size == CHUNK;
    } else {
      assert Contents(d, c, n + 1) == ChunkAt(d, c) + Contents(d, Next(d, c), n);
    }
  }

  // ------------------------------------------------------- files on a chain

  /** The bytes of the clusters of a chain. Reading a file has no stop of its own, so
    * chains are those of the standard here, whatever their clusters.
    */
  ghost function ChainData(d: Disk, c: nat, chain: seq<nat>): Disk
    requires IsStandardChain(d, c, chain)
    decreases |chain|
  {
    if chain == [] then [] else ClusterData(d, c) + ChainData(d, Next(d, c), chain[1..])
  }

  lemma ChunkIsCluster(d: Disk, c: nat)
    requires Usable(d, c) && ClusterSize(ReadBootSector(d)) == 1024
    ensures Readable(d, c, 1) && ClusterData(d, c) == ChunkAt(d, c)
  {
    ClusterIsInVolume(ReadBootSector(d), c);
  }

  /** On a volume with 1024-byte clusters, a file whose chain has enough clusters can
    * be read; what is copied is the beginning of its chain's data, taken from the
    * first clusters of the chain, none of them an end mark.
    */
  lemma {:induction false} FileIsBeginningOfChain(d: Disk, c: nat, chain: seq<nat>, n: nat)
    requires IsStandardChain(d, c, chain) && n <= |chain|
    requires n > 0 ==> |d| >= 90 && ClusterSize(ReadBootSector(d)) == 1024
    ensures Readable(d, c, n)
    ensures Clusters(d, c, n) == chain[..n]
    ensures forall x | x in Clusters(d, c, n) :: x < 0xFF8
    ensures n * 1024 <= |ChainData(d, c, chain)|
    ensures Contents(d, c, n) == ChainData(d, c, chain)[..n * 1024]
    decreases n
  {
    if n > 0 {
      ChunkIsCluster(d, c);
      hide ClusterAddr, ClusterData, ChunkAt;
      FileIsBeginningOfChain(d, Next(d, c), chain[1..], n - 1);
      assert chain[..n] == [c] + chain[1..][..n - 1];
      var (head, rest) := (ClusterData(d, c), ChainData(d, Next(d, c), chain[1..]));
      assert (head + rest)[..n * CHUNK] == head + rest[..(n - 1) * CHUNK];
    }
  }

  /** So the bytes copied for a file are the first size bytes of its chain, and no
    * cluster is read for an end mark.
    */
  lemma FileIsCopied(d: Disk, c: nat, chain: seq<nat>, size: nat)
    requires IsStandardChain(d, c, chain) && (size + 1023) / 1024 <= |chain|
    requires size > 0 ==> |d| >= 90 && ClusterSize(ReadBootSector(d)) == 1024
    ensures Readable(d, c, Chunks(size))
    ensures Clusters(d, c, Chunks(size)) == chain[..(size + 1023) / 1024]
    ensures forall x | x in Clusters(d, c, Chunks(size)) :: x < 0xFF8
    ensures size <= |ChainData(d, c, chain)|
    ensures FirstBytes(d, c, size) == ChainData(d, c, chain)[..size]
  {
    var n := Chunks(size);
    FileIsBeginningOfChain(d, c, chain, n);
    assert size <= n * CHUNK;
    var data := ChainData(d, c, chain);
    assert data[..n * CHUNK][..size] == data[..size];
  }

  // ---------------------------------------------------------------- printing

  lemma {:induction false} PrintedIsShorter(chunks: seq<seq<Byte>>)
    ensures |Printed(chunks)| <= |Flatten(chunks)|
    ensures 0 !in Printed(chunks)
    ensures |Printed(chunks)| == |Flatten(chunks)| ==> Printed(chunks) == Flatten(chunks)
    decreases |chunks|
  {
    if chunks != [] {
      PrintedIsShorter(chunks[..|chunks| - 1]);
    }
  }

  /** Chunks are printed as strings, which end at a zero; so the file is put out whole
    * exactly when it has none.
    */
  lemma {:induction false} PrintedWholeIff(chunks: seq<seq<Byte>>)
    ensures Printed(chunks) == Flatten(chunks) <==> 0 !in Flatten(chunks)
    decreases |chunks|
  {
    PrintedIsShorter(chunks);
    if chunks != [] {
      var last := chunks[|chunks| - 1];
      PrintedWholeIff(chunks[..|chunks| - 1]);
      if 0 !in Flatten(chunks) {
        assert forall x | x in last :: x in Flatten(chunks);
        assert forall x | x in Flatten(chunks[..|chunks| - 1]) :: x in Flatten(chunks);
        assert CString(last) == last;
      }
    }
  }
}
