/** Cluster chains: following the table from a cluster until a value of 0xF00 or
  * more, as the directory walk does.
  */
module FatChains {
  import opened Counting
  import opened FatVolume
  import opened FatTable

  /** The walks stop at this value and above. */
  const STOP := 0xF00

  ghost predicate Usable(d: Disk, c: nat) {
    Mounted(d) && InData(ReadBootSector(d), c)
  }

  function Next(d: Disk, c: nat): (n: nat)
    requires Usable(d, c)
    ensures n < 0x1000
  {
    EntryIsInTable(d, c);
    FatGet(d, c)
  }

  /** The bytes of a cluster. */
  function ClusterData(d: Disk, c: nat): (bytes: Disk)
    requires Usable(d, c)
    ensures |bytes| == ClusterSize(ReadBootSector(d))
  {
    var bs := ReadBootSector(d);
    ClusterIsInVolume(bs, c);
    d[ClusterAddr(bs, c)..ClusterAddr(bs, c) + ClusterSize(bs)]
  }

  /** p is the beginning of the walk from c: usable clusters, each following the
    * one before.
    */
  ghost predicate IsWalk(d: Disk, c: nat, p: seq<nat>)
    decreases |p|
  {
    p == [] || (c < STOP && p[0] == c && Usable(d, c) && IsWalk(d, Next(d, c), p[1..]))
  }

  /** Where the walk stands after p. */
  function After(d: Disk, c: nat, p: seq<nat>): nat
    requires IsWalk(d, c, p)
    decreases |p|
  {
    if p == [] then c else After(d, Next(d, c), p[1..])
  }

  /** The whole walk from c: it ends at a value that stops it. */
  ghost predicate IsChain(d: Disk, c: nat, chain: seq<nat>) {
    IsWalk(d, c, chain) && After(d, c, chain) >= STOP
  }

  /** The walk from c comes to an end. */
  ghost predicate Ends(d: Disk, c: nat) {
    exists chain: seq<nat> :: IsChain(d, c, chain)
  }

  ghost function ChainOf(d: Disk, c: nat): (chain: seq<nat>)
    requires Ends(d, c)
    ensures IsChain(d, c, chain)
  {
    var chain: seq<nat> :| IsChain(d, c, chain);
    chain
  }

  /** Walks from one cluster are prefixes of its chain. */
  lemma {:induction false} WalkIsPrefix(d: Disk, c: nat, p: seq<nat>, chain: seq<nat>)
    requires IsWalk(d, c, p) && IsChain(d, c, chain)
    ensures p <= chain
    decreases |p|
  {
    if p != [] {
      WalkIsPrefix(d, Next(d, c), p[1..], chain[1..]);
      assert p == [c] + p[1..] && chain == [c] + chain[1..];
    }
  }

  lemma ChainIsUnique(d: Disk, c: nat, a: seq<nat>, b: seq<nat>)
    requires IsChain(d, c, a) && IsChain(d, c, b)
    ensures a == b
  {
    WalkIsPrefix(d, c, a, b);
    WalkIsPrefix(d, c, b, a);
  }

  /** The chain of a cluster is the cluster and the chain of the next. */
  lemma ChainStep(d: Disk, c: nat)
    requires Ends(d, c)
    ensures c >= STOP ==> ChainOf(d, c) == []
    ensures c < STOP ==> Usable(d, c) && Ends(d, Next(d, c)) && ChainOf(d, c) == [c] + ChainOf(d, Next(d, c))
  {
    var chain := ChainOf(d, c);
    if c < STOP {
      assert IsChain(d, Next(d, c), chain[1..]);
      ChainIsUnique(d, Next(d, c), chain[1..], ChainOf(d, Next(d, c)));
      assert chain == [c] + chain[1..];
    }
  }

  // ---------------------------------------------------------------- cycles

  lemma {:induction false} WalkFromLater(d: Disk, c: nat, p: seq<nat>, i: nat)
    requires IsWalk(d, c, p) && i < |p|
    ensures IsWalk(d, p[i], p[i..])
    ensures After(d, p[i], p[i..]) == After(d, c, p)
    ensures p[i] < STOP
    decreases i
  {
    if i > 0 {
      WalkFromLater(d, Next(d, c), p[1..], i - 1);
      assert p[1..][i - 1..] == p[i..];
    }
  }

  /** A chain visits no cluster twice. */
  lemma ChainIsDistinct(d: Disk, c: nat, chain: seq<nat>)
    requires IsChain(d, c, chain)
    ensures Distinct(chain)
  {
    forall i, j | 0 <= i < j < |chain|
      ensures chain[i] != chain[j]
    {
      WalkFromLater(d, c, chain, i);
      WalkFromLater(d, c, chain, j);
      if chain[i] == chain[j] {
        ChainIsUnique(d, chain[i], chain[i..], chain[j..]);
      }
    }
  }

  /** The walk never leaves the data clusters before it stops. */
  ghost predicate StaysInData(d: Disk, c: nat) {
    forall p: seq<nat> | IsWalk(d, c, p) :: After(d, c, p) >= STOP || Usable(d, After(d, c, p))
  }

  ghost predicate Acyclic(d: Disk, c: nat) {
    forall p: seq<nat> | IsWalk(d, c, p) :: Distinct(p)
  }

  lemma {:induction false} WalkGrows(d: Disk, c: nat, p: seq<nat>)
    requires IsWalk(d, c, p) && After(d, c, p) < STOP && Usable(d, After(d, c, p))
    ensures IsWalk(d, c, p + [After(d, c, p)])
    decreases |p|
  {
    if p == [] {
      assert ([] + [c])[1..] == [];
    } else {
      WalkGrows(d, Next(d, c), p[1..]);
      assert (p + [After(d, c, p)])[1..] == p[1..] + [After(d, c, p)];
    }
  }

  lemma {:induction false} WalkBelowStop(d: Disk, c: nat, p: seq<nat>)
    requires IsWalk(d, c, p)
    ensures forall i | 0 <= i < |p| :: p[i] < STOP
    decreases |p|
  {
    if p != [] {
      WalkBelowStop(d, Next(d, c), p[1..]);
      assert p == [c] + p[1..];
    }
  }

  /** A walk without repetition can only go on as long as there are unvisited
    * clusters.
    */
  lemma {:induction false} AcyclicWalkEnds(d: Disk, c: nat, p: seq<nat>)
    requires StaysInData(d, c) && Acyclic(d, c) && IsWalk(d, c, p)
    ensures Ends(d, c)
    ensures |p| <= STOP
    decreases STOP - |p|
  {
    WalkBelowStop(d, c, p);
    DistinctBelow(p, STOP);
    if After(d, c, p) >= STOP {
      assert IsChain(d, c, p);
    } else {
      WalkGrows(d, c, p);
      WalkBelowStop(d, c, p + [After(d, c, p)]);
      DistinctBelow(p + [After(d, c, p)], STOP);
      AcyclicWalkEnds(d, c, p + [After(d, c, p)]);
    }
  }

  /** The walk from a cluster ends exactly when it stays in the data region and
    * never comes back to a cluster.
    */
  lemma EndsIffAcyclic(d: Disk, c: nat)
    ensures Ends(d, c) <==> StaysInData(d, c) && Acyclic(d, c)
  {
    if StaysInData(d, c) && Acyclic(d, c) {
      AcyclicWalkEnds(d, c, []);
    }
    if Ends(d, c) {
      var chain := ChainOf(d, c);
      ChainIsDistinct(d, c, chain);
      forall p: seq<nat> | IsWalk(d, c, p)
        ensures Distinct(p) && (After(d, c, p) >= STOP || Usable(d, After(d, c, p)))
      {
        WalkIsPrefix(d, c, p, chain);
        AfterPrefix(d, c, p, chain);
      }
    }
  }

  lemma {:induction false} AfterPrefix(d: Disk, c: nat, p: seq<nat>, chain: seq<nat>)
    requires IsWalk(d, c, p) && IsChain(d, c, chain) && p <= chain
    ensures if |p| == |chain| then After(d, c, p) >= STOP
            else After(d, c, p) == chain[|p|] && Usable(d, After(d, c, p))
    decreases |p|
  {
    if p != [] {
      AfterPrefix(d, Next(d, c), p[1..], chain[1..]);
    }
  }

  // ------------------------------------------------- chains of the standard

  /** A chain as the standard has it: it goes on until an end-of-chain mark, a value of
    * 0xFF8 or more.
    */
  ghost predicate IsStandardChain(d: Disk, c: nat, chain: seq<nat>)
    decreases |chain|
  {
    if c >= 0xFF8 then chain == []
    else chain != [] && chain[0] == c && Usable(d, c) && IsStandardChain(d, Next(d, c), chain[1..])
  }

  /** The walk covers the beginning of a standard chain, up to its first cluster of
    * 0xF00 or more; so it covers the chain exactly when there is no such cluster.
    */
  lemma {:induction false} WalkCoversChainIff(d: Disk, c: nat, chain: seq<nat>)
    requires IsStandardChain(d, c, chain)
    ensures Ends(d, c) && ChainOf(d, c) <= chain
    ensures ChainOf(d, c) == chain <==> forall i | 0 <= i < |chain| :: chain[i] < 0xF00
    ensures |ChainOf(d, c)| < |chain| ==> chain[|ChainOf(d, c)|] >= 0xF00
    decreases |chain|
  {
    if c >= STOP {
      assert IsChain(d, c, []);
      ChainStep(d, c);
    } else {
      WalkCoversChainIff(d, Next(d, c), chain[1..]);
      assert ([c] + ChainOf(d, Next(d, c)))[1..] == ChainOf(d, Next(d, c));
      assert IsChain(d, c, [c] + ChainOf(d, Next(d, c)));
      ChainStep(d, c);
      assert chain == [c] + chain[1..];
    }
  }
}
