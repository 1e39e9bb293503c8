/**
  Cluster chains in a FAT: what a chain is, how a set of chains partitions the FAT, and
  how claiming, linking, adopting and freeing clusters move that partition.  The methods
  at the end are the driver's own walks over the FAT.
*/
module FatChains {
  import opened Common
  import opened FatDisk

  /** Values that mark a cluster as unusable rather than as part of a chain. */
  predicate Reserved(v: int) {
    v == 1 || 0xFFF0 <= v < EOC_MIN
  }

  ghost predicate NoDup(s: seq<U16>) {
    forall i, j :: 0 <= i < j < |s| ==> s[i] != s[j]
  }

  /** ch is a complete chain of f: distinct clusters, each pointing to the next, the last
      one carrying an end mark.  The empty sequence is the chain of an empty file. */
  ghost predicate IsChain(f: seq<U16>, ch: seq<U16>) {
    && NoDup(ch)
    && (forall i :: 0 <= i < |ch| ==> 2 <= ch[i] < |f|)
    && (forall i :: 0 <= i < |ch| - 1 ==> f[ch[i]] == ch[i + 1])
    && (|ch| > 0 ==> f[ch[|ch| - 1]] >= EOC_MIN)
  }

  lemma ChainFrame(f: seq<U16>, f2: seq<U16>, ch: seq<U16>)
    requires IsChain(f, ch) && |f2| == |f|
    requires forall i :: 0 <= i < |ch| ==> f2[ch[i]] == f[ch[i]]
    ensures IsChain(f2, ch)
  {
  }

  lemma ChainLink(f: seq<U16>, ch: seq<U16>, i: nat)
    requires |f| <= EOC_MIN && IsChain(f, ch) && i < |ch|
    ensures if i + 1 < |ch| then f[ch[i]] == ch[i + 1] && 2 <= f[ch[i]] < |f| else f[ch[i]] >= EOC_MIN
  {
  }

  // ------------------------------------------------------------- partitions of the FAT

  ghost predicate Owned<K(!new)>(chains: map<K, seq<U16>>, x: int) {
    exists k :: k in chains && x in chains[k]
  }

  ghost predicate Disjoint<K(!new)>(chains: map<K, seq<U16>>) {
    forall j, k, x :: j in chains && k in chains && x in chains[j] && x in chains[k] ==> j == k
  }

  /** Cluster x is in use: neither free nor reserved. */
  predicate Used(f: seq<U16>, x: int) {
    2 <= x < |f| && f[x] != 0 && !Reserved(f[x])
  }

  /** The chains are chains of f, share no cluster, and together with the lost clusters
      hold exactly the clusters in use. */
  ghost predicate Partition<K(!new)>(f: seq<U16>, chains: map<K, seq<U16>>, lost: set<U16>) {
    && |f| <= 0xFFF0
    && (forall k :: k in chains ==> IsChain(f, chains[k]))
    && Disjoint(chains)
    && (forall x: U16 :: Used(f, x) <==> Owned(chains, x) || x in lost)
    && (forall x: U16 :: x in lost ==> !Owned(chains, x))
  }

  /** Claiming a free cluster makes it a lost one-cluster chain. */
  lemma ClaimPartition<K(!new)>(f: seq<U16>, chains: map<K, seq<U16>>, lost: set<U16>, n: U16)
    requires Partition(f, chains, lost) && 2 <= n < |f| && f[n] == 0
    ensures Partition(f[n := EOC], chains, lost + {n})
    ensures n !in lost && !Owned(chains, n)
  {
    var f2 := f[n := EOC];
    assert !Used(f, n);
    assert !Owned(chains, n);
    forall k | k in chains ensures IsChain(f2, chains[k]) {
      assert n !in chains[k];
      ChainFrame(f, f2, chains[k]);
    }
    forall x: U16 ensures Used(f2, x) <==> Owned(chains, x) || x in lost + {n} {
      if x != n { assert Used(f2, x) <==> Used(f, x); }
    }
  }

  ghost function After(ch: seq<U16>, j: int): (r: set<U16>)
    ensures forall x :: x in r <==> exists i :: j < i < |ch| && 0 <= i && ch[i] == x
  {
    set i | 0 <= i < |ch| && j < i :: ch[i]
  }

  lemma RelinkOwned<K(!new)>(chains: map<K, seq<U16>>, k: K, j: nat, n: U16, x: U16)
    requires Disjoint(chains) && k in chains && j < |chains[k]| && NoDup(chains[k]) && !Owned(chains, n)
    ensures Owned(chains[k := chains[k][..j + 1] + [n]], x)
       <==> x == n || (Owned(chains, x) && x !in After(chains[k], j))
  {
    var ch := chains[k];
    var chains2 := chains[k := ch[..j + 1] + [n]];
    RelinkMembers(ch, j, n, x);
    assert x in After(ch, j) ==> x in ch;
    if Owned(chains2, x) {
      var m :| m in chains2 && x in chains2[m];
      if m != k {
        assert m in chains && x in chains[m];
      } else if x != n {
        assert k in chains && x in chains[k];
      }
    }
    if x == n {
      assert k in chains2 && x in chains2[k];
    } else if Owned(chains, x) && x !in After(ch, j) {
      var m :| m in chains && x in chains[m];
      assert m in chains2 && x in chains2[m];
    }
  }

  lemma RelinkDisjoint<K(!new)>(chains: map<K, seq<U16>>, k: K, j: nat, n: U16)
    requires Disjoint(chains) && k in chains && j < |chains[k]| && !Owned(chains, n)
    ensures Disjoint(chains[k := chains[k][..j + 1] + [n]])
  {
    var chains2 := chains[k := chains[k][..j + 1] + [n]];
    forall p, q, x | p in chains2 && q in chains2 && x in chains2[p] && x in chains2[q] ensures p == q {
      if x != n {
        assert p in chains && x in chains[p];
        assert q in chains && x in chains[q];
      }
    }
  }

  /** Linking a lost end-of-chain cluster behind position j of chain k drops the rest of
      that chain: its clusters become lost. */
  lemma RelinkPartition<K(!new)>(f: seq<U16>, chains: map<K, seq<U16>>, lost: set<U16>, k: K, j: nat, n: U16)
    requires Partition(f, chains, lost) && k in chains && j < |chains[k]|
    requires n in lost && f[n] >= EOC_MIN
    ensures var ch := chains[k];
            Partition(f[ch[j] := n], chains[k := ch[..j + 1] + [n]], lost - {n} + After(ch, j))
  {
    var ch := chains[k];
    var f2 := f[ch[j] := n];
    var ch2 := ch[..j + 1] + [n];
    var chains2 := chains[k := ch2];
    var lost2 := lost - {n} + After(ch, j);
    assert Used(f, n) && !Owned(chains, n);
    assert n !in ch;
    assert IsChain(f2, ch2);
    forall m | m in chains2 ensures IsChain(f2, chains2[m]) {
      if m != k {
        assert ch[j] in chains[k] && ch[j] !in chains[m];
        ChainFrame(f, f2, chains[m]);
      }
    }
    RelinkDisjoint(chains, k, j, n);
    forall x: U16
      ensures Used(f2, x) <==> Owned(chains2, x) || x in lost2
      ensures x in lost2 ==> !Owned(chains2, x)
    {
      RelinkOwned(chains, k, j, n, x);
      if x == ch[j] { assert Used(f, x); }
      assert Used(f2, x) <==> Used(f, x);
      if x in After(ch, j) { assert x in chains[k]; assert Owned(chains, x); }
    }
  }

  lemma RelinkMembers(ch: seq<U16>, j: nat, n: U16, x: U16)
    requires j < |ch| && NoDup(ch) && n !in ch
    ensures x in ch[..j + 1] + [n] <==> x == n || (x in ch && x !in After(ch, j))
  {
    var ch2 := ch[..j + 1] + [n];
    assert ch2[j + 1] == n;
    if x in ch && x !in After(ch, j) {
      var i :| 0 <= i < |ch| && ch[i] == x;
      assert ch2[i] == x;
    }
  }

  /** A lost end-of-chain cluster becomes the whole chain of k, which had none. */
  lemma AdoptPartition<K(!new)>(f: seq<U16>, chains: map<K, seq<U16>>, lost: set<U16>, k: K, n: U16)
    requires Partition(f, chains, lost) && (k in chains ==> chains[k] == [])
    requires n in lost && f[n] >= EOC_MIN
    ensures Partition(f, chains[k := [n]], lost - {n})
  {
    var chains2 := chains[k := [n]];
    assert Used(f, n) && !Owned(chains, n);
    forall x: U16 ensures Owned(chains2, x) <==> x == n || Owned(chains, x) {
      if Owned(chains, x) {
        var m :| m in chains && x in chains[m];
        assert m in chains2 && x in chains2[m];
      }
      if x == n { assert k in chains2 && x in chains2[k]; }
    }
  }

  /** Giving k an empty chain changes nothing. */
  lemma EmptyPartition<K(!new)>(f: seq<U16>, chains: map<K, seq<U16>>, lost: set<U16>, k: K)
    requires Partition(f, chains, lost) && k !in chains
    ensures Partition(f, chains[k := []], lost)
  {
    var chains2 := chains[k := []];
    forall x: U16 ensures Owned(chains2, x) <==> Owned(chains, x) {
      if Owned(chains, x) {
        var m :| m in chains && x in chains[m];
        assert m in chains2 && x in chains2[m];
      }
    }
  }

  /** f with the given clusters marked free. */
  ghost function Zeroed(f: seq<U16>, z: set<U16>): (f2: seq<U16>)
    ensures |f2| == |f|
    ensures forall x :: 0 <= x < |f| ==> f2[x] == if x in z then 0 else f[x]
  {
    seq(|f|, x requires 0 <= x < |f| => if x in z then 0 else f[x])
  }

  /** Freeing the chain of k. */
  lemma FreePartition<K(!new)>(f: seq<U16>, chains: map<K, seq<U16>>, lost: set<U16>, k: K)
    requires Partition(f, chains, lost) && k in chains
    ensures Partition(Zeroed(f, set x | x in chains[k]), chains[k := []], lost)
  {
    var z := set x | x in chains[k];
    var f2 := Zeroed(f, z);
    var chains2 := chains[k := []];
    forall m | m in chains2 ensures IsChain(f2, chains2[m]) {
      if m != k { ChainFrame(f, f2, chains[m]); }
    }
    forall x: U16 ensures Owned(chains2, x) <==> Owned(chains, x) && x !in z {
      if Owned(chains, x) && x !in z {
        var m :| m in chains && x in chains[m];
        assert m in chains2 && x in chains2[m];
      }
      if Owned(chains2, x) {
        var m :| m in chains2 && x in chains2[m];
        assert m in chains && x in chains[m];
      }
    }
    forall x: U16 ensures Used(f2, x) <==> Owned(chains2, x) || x in lost {
      if x in z { assert Owned(chains, x); }
    }
  }

  /** Giving back a lost cluster. */
  lemma ReleasePartition<K(!new)>(f: seq<U16>, chains: map<K, seq<U16>>, lost: set<U16>, n: U16)
    requires Partition(f, chains, lost) && n in lost
    ensures 2 <= n < |f| && Partition(f[n := 0], chains, lost - {n})
  {
    assert Used(f, n) && !Owned(chains, n);
    var f2 := f[n := 0];
    forall m | m in chains ensures IsChain(f2, chains[m]) {
      assert n !in chains[m];
      ChainFrame(f, f2, chains[m]);
    }
    forall x: U16 ensures Used(f2, x) <==> Owned(chains, x) || x in lost - {n} {
      if x != n { assert Used(f2, x) <==> Used(f, x); }
    }
  }

  // ----------------------------------------------------------------------- conservation

  ghost function FreeSet(f: seq<U16>): set<int> {
    set x | 2 <= x < |f| && f[x] == 0
  }

  ghost function ReservedSet(f: seq<U16>): set<int> {
    set x | 2 <= x < |f| && f[x] != 0 && Reserved(f[x])
  }

  ghost function ChainedSet<K(!new)>(chains: map<K, seq<U16>>): set<int> {
    set k, x | k in chains && x in chains[k] :: x
  }

  ghost function LostSet(lost: set<U16>): (r: set<int>)
  {
    set x | x in lost :: x
  }

  /** Reserved entries are the same ones, with the same marks. */
  ghost predicate ReservedKept(f: seq<U16>, f2: seq<U16>) {
    && |f2| == |f|
    && forall x :: 2 <= x < |f| ==> (Reserved(f2[x]) <==> Reserved(f[x])) && (Reserved(f[x]) ==> f2[x] == f[x])
  }

  lemma ReservedTrans(f: seq<U16>, f2: seq<U16>, f3: seq<U16>)
    requires ReservedKept(f, f2) && ReservedKept(f2, f3)
    ensures ReservedKept(f, f3)
  {
    hide Reserved;
  }

  lemma ReservedSame(f: seq<U16>, f2: seq<U16>)
    requires ReservedKept(f, f2)
    ensures ReservedSet(f2) == ReservedSet(f)
  {
  }

  /** Claiming a free cluster, and linking or releasing a cluster in use. */
  lemma ReservedUpdate(f: seq<U16>, x: U16, v: U16)
    requires x < |f| && !Reserved(f[x]) && !Reserved(v)
    ensures ReservedKept(f, f[x := v])
  {
  }

  lemma ReservedZeroed(f: seq<U16>, freed: set<U16>)
    requires forall x: U16 :: x in freed && x < |f| ==> !Reserved(f[x])
    ensures ReservedKept(f, Zeroed(f, freed))
  {
  }

  /** No entry of a chain is reserved. */
  lemma ChainNotReserved(f: seq<U16>, ch: seq<U16>, i: nat)
    requires |f| <= 0xFFF0 && IsChain(f, ch) && i < |ch|
    ensures !Reserved(f[ch[i]]) && !Reserved(ch[i])
  {
    ChainLink(f, ch, i);
  }

  /** Free, chained, lost and reserved clusters always add up to the whole data area. */
  lemma Conservation<K(!new)>(f: seq<U16>, chains: map<K, seq<U16>>, lost: set<U16>)
    requires |f| >= 2 && Partition(f, chains, lost)
    ensures |FreeSet(f)| + |ChainedSet(chains)| + |LostSet(lost)| + |ReservedSet(f)| == |f| - 2
  {
    InUse(f, chains, lost);
    UnionCard(ChainedSet(chains), LostSet(lost));
    CountUp(f, ChainedSet(chains) + LostSet(lost));
  }

  lemma InUse<K(!new)>(f: seq<U16>, chains: map<K, seq<U16>>, lost: set<U16>)
    requires Partition(f, chains, lost)
    ensures ChainedSet(chains) !! LostSet(lost)
    ensures forall x: int :: x in ChainedSet(chains) + LostSet(lost) <==> Used(f, x)
  {
    forall x: U16 ensures x in ChainedSet(chains) <==> Owned(chains, x) {
      if Owned(chains, x) {
        var k :| k in chains && x in chains[k];
        assert x in ChainedSet(chains);
      }
    }
    forall x: int ensures x in ChainedSet(chains) + LostSet(lost) <==> Used(f, x) {
      if x in ChainedSet(chains) + LostSet(lost) || Used(f, x) {
        var y: U16 := x;
        assert Used(f, y) <==> Owned(chains, y) || y in lost;
      }
    }
  }

  lemma CountUp(f: seq<U16>, used: set<int>)
    requires |f| >= 2 && forall x: int :: x in used <==> Used(f, x)
    ensures |FreeSet(f)| + |used| + |ReservedSet(f)| == |f| - 2
  {
    var free, res := FreeSet(f), ReservedSet(f);
    UnionCard(free, res);
    UnionCard(free + res, used);
    assert Interval(2, |f|) == free + res + used;
  }

  /** A chain is no longer than the data area. */
  lemma ChainFits(f: seq<U16>, ch: seq<U16>)
    requires |f| >= 2 && IsChain(f, ch)
    ensures |ch| <= |f| - 2
  {
    var members := set i | 0 <= i < |ch| :: ch[i] as int;
    assert |members| == |ch| by { DistinctCard(ch); }
    assert members <= Interval(2, |f|);
    SubsetCard(members, Interval(2, |f|));
  }

  lemma {:induction false} DistinctCard(s: seq<U16>)
    requires NoDup(s)
    ensures |set i | 0 <= i < |s| :: s[i] as int| == |s|
    decreases |s|
  {
    if s != [] {
      var n := |s| - 1;
      var rest := s[..n];
      DistinctCard(rest);
      var all, most := set i | 0 <= i < |s| :: s[i] as int, set i | 0 <= i < |rest| :: rest[i] as int;
      assert all == most + {s[n] as int};
    }
  }

  // -------------------------------------------------------------------- walks on the FAT

  /** x is the k-th cluster met when following f from start. */
  ghost predicate ReachedIn(f: seq<U16>, start: int, x: int, k: nat)
    decreases k
  {
    && InChainRange(start) && start < |f|
    && if k == 0 then x == start else ReachedIn(f, f[start], x, k - 1)
  }

  ghost predicate Reaches(f: seq<U16>, start: int, x: int) {
    exists k: nat :: ReachedIn(f, start, x, k)
  }

  /** Following f from start never leaves the FAT: what is met is below 2, an end mark, or a
      cluster of this FAT. */
  ghost predicate InRangeFrom(f: seq<U16>, start: int) {
    && (InChainRange(start) ==> start < |f|)
    && forall x :: Reaches(f, start, x) && 0 <= x < |f| && InChainRange(f[x]) ==> f[x] < |f|
  }

  ghost predicate ClosedUnder(f: seq<U16>, z: set<U16>, extra: int) {
    forall x :: x in z ==> x < |f| && (f[x] in z || f[x] == extra || !InChainRange(f[x]))
  }

  lemma ReachedStep(f: seq<U16>, start: int, x: int, k: nat)
    requires ReachedIn(f, start, x, k) && 0 <= x < |f| && InChainRange(f[x]) && f[x] < |f|
    ensures ReachedIn(f, start, f[x], k + 1)
    decreases k
  {
    if k > 0 {
      ReachedStep(f, f[start], x, k - 1);
    } else {
      assert ReachedIn(f, f[start], f[x], 0);
    }
  }

  lemma ReachedInClosed(f: seq<U16>, z: set<U16>, start: int, x: int, k: nat)
    requires ClosedUnder(f, z, -1) && ReachedIn(f, start, x, k) && start in z
    ensures x in z
    decreases k
  {
    if k > 0 {
      ReachedInClosed(f, z, f[start], x, k - 1);
    }
  }

  ghost function NonzeroSet(f: seq<U16>): set<int> {
    set x | 0 <= x < |f| && f[x] != 0
  }

  lemma ZeroedStep(f: seq<U16>, z: set<U16>, c: U16)
    requires c < |f|
    ensures Zeroed(f, z)[c := 0] == Zeroed(f, z + {c})
  {
  }

  lemma FreeStart(f: seq<U16>, first: U16)
    requires InRangeFrom(f, first)
    ensures ClosedUnder(f, {}, if InChainRange(first) then first else -1)
    ensures InChainRange(first) ==> first < |f| && Reaches(f, first, first)
  {
    if InChainRange(first) { assert ReachedIn(f, first, first, 0); }
  }

  lemma FreedAll(f: seq<U16>, first: U16, freed: set<U16>)
    requires ClosedUnder(f, freed, -1) && (first in freed || !InChainRange(first))
    ensures forall x: U16 :: Reaches(f, first, x) ==> x in freed
  {
    forall x: U16 | Reaches(f, first, x) ensures x in freed {
      var k: nat :| ReachedIn(f, first, x, k);
      ReachedInClosed(f, freed, first, x, k);
    }
  }

  lemma FreedMirrored(g: Geometry, d: Image, d2: Image, freed: set<U16>)
    requires g.Fits(d) && g.Fits(d2)
    requires forall k :: 0 <= k < g.numFats ==> FatCopy(g, d2, k) == Zeroed(FatCopy(g, d, k), freed)
    ensures Mirrored(g, d) ==> Mirrored(g, d2)
  {
    hide FatCopy, Zeroed;
  }

  /** One round of fat_free_chain: either the cluster was in use and its count drops, or it
      had been freed before and the walk stops. */
  lemma FreeStep(f0: seq<U16>, first: int, cluster: U16, freed: set<U16>)
    requires InRangeFrom(f0, first) && InChainRange(cluster) && cluster < |f0|
    requires Reaches(f0, first, cluster) && ClosedUnder(f0, freed, cluster)
    ensures var f1 := Zeroed(f0, freed);
            var next := f1[cluster];
            && (InChainRange(next) ==> next < |f0| && Reaches(f0, first, next))
            && ClosedUnder(f0, freed + {cluster}, if InChainRange(next) then next else -1)
            && (if next == 0 then f1[cluster := 0] == f1 else NonzeroSet(f1[cluster := 0]) < NonzeroSet(f1))
  {
    var f1 := Zeroed(f0, freed);
    var next := f1[cluster];
    if InChainRange(next) {
      var k: nat :| ReachedIn(f0, first, cluster, k);
      ReachedStep(f0, first, cluster, k);
    }
    if next != 0 {
      assert cluster in NonzeroSet(f1) && cluster !in NonzeroSet(f1[cluster := 0]);
    }
  }

  /** fat_free_chain: terminates on every such FAT, cyclic ones included, and zeroes in
      every copy exactly the clusters that copy 0 reaches from the start. */
  method FreeChain(g: Geometry, disk: Disk, first: U16) returns (ghost freed: set<U16>)
    requires g.Fits(disk.sectors) && InRangeFrom(Fat(g, disk.sectors), first)
    modifies disk
    ensures g.Fits(disk.sectors) && OnlyFatChanged(g, old(disk.sectors), disk.sectors)
    ensures forall x: U16 :: x in freed <==> Reaches(Fat(g, old(disk.sectors)), first, x)
    ensures forall k :: 0 <= k < g.numFats ==>
      FatCopy(g, disk.sectors, k) == Zeroed(FatCopy(g, old(disk.sectors), k), freed)
    ensures Mirrored(g, old(disk.sectors)) ==> Mirrored(g, disk.sectors)
  {
    hide ClosedUnder, Reaches, InRangeFrom, NonzeroSet, NextCluster, FatCopy, Zeroed, Mirrored;
    ghost var d0 := disk.sectors;
    ghost var f0 := Fat(g, d0);
    var cluster := first;
    freed := {};
    FreeStart(f0, first);
    while InChainRange(cluster)
      invariant g.Fits(disk.sectors) && OnlyFatChanged(g, d0, disk.sectors)
      invariant InChainRange(cluster) ==> cluster < g.Entries() && Reaches(f0, first, cluster)
      invariant forall x :: x in freed ==> Reaches(f0, first, x)
      invariant first in freed || first == cluster
      invariant ClosedUnder(f0, freed, if InChainRange(cluster) then cluster else -1)
      invariant forall k :: 0 <= k < g.numFats ==>
        FatCopy(g, disk.sectors, k) == Zeroed(FatCopy(g, d0, k), freed)
      decreases NonzeroSet(Fat(g, disk.sectors)), InChainRange(cluster)
    {
      ghost var d1 := disk.sectors;
      NextIsFatEntry(g, d1, cluster);
      var next := NextCluster(g, disk.sectors, cluster);
      SetClusterEntry(g, disk, cluster, 0);
      FreeStep(f0, first, cluster, freed);
      forall k | 0 <= k < g.numFats
        ensures FatCopy(g, disk.sectors, k) == Zeroed(FatCopy(g, d0, k), freed + {cluster})
      {
        ZeroedStep(FatCopy(g, d0, k), freed, cluster);
      }
      freed := freed + {cluster};
      cluster := next;
    }
    FreedAll(f0, first, freed);
    FreedMirrored(g, d0, disk.sectors, freed);
  }

  /** From the head of a chain exactly the clusters of the chain are reached. */
  lemma ChainReach(f: seq<U16>, ch: seq<U16>, x: U16)
    requires |f| <= EOC_MIN && IsChain(f, ch) && |ch| > 0
    ensures Reaches(f, ch[0], x) <==> x in ch
  {
    if x in ch {
      var i :| 0 <= i < |ch| && ch[i] == x;
      var j := 0;
      assert ReachedIn(f, ch[0], ch[0], 0);
      while j < i
        invariant 0 <= j <= i && ReachedIn(f, ch[0], ch[j], j)
      {
        ChainLink(f, ch, j);
        ReachedStep(f, ch[0], ch[j], j);
        j := j + 1;
      }
    }
    if Reaches(f, ch[0], x) {
      var z := set y | y in ch;
      forall y | y in z ensures y < |f| && (f[y] in z || !InChainRange(f[y])) {
        var i :| 0 <= i < |ch| && ch[i] == y;
        ChainLink(f, ch, i);
      }
      var k: nat :| ReachedIn(f, ch[0], x, k);
      ReachedInClosed(f, z, ch[0], x, k);
    }
  }

  /** fat_alloc_cluster: claims the least free cluster in every FAT copy, or returns 0 when
      no cluster is free. */
  method AllocCluster(g: Geometry, disk: Disk) returns (result: U16)
    requires g.Fits(disk.sectors)
    modifies disk
    ensures g.Fits(disk.sectors) && OnlyFatChanged(g, old(disk.sectors), disk.sectors)
    ensures result == 0 <==> FreeSet(Fat(g, old(disk.sectors))) == {}
    ensures result == 0 ==> disk.sectors == old(disk.sectors)
    ensures result != 0 ==>
      && g.IsCluster(result) && result in FreeSet(Fat(g, old(disk.sectors)))
      && (forall x :: x in FreeSet(Fat(g, old(disk.sectors))) ==> result <= x)
      && (forall k :: 0 <= k < g.numFats ==>
            FatCopy(g, disk.sectors, k) == FatCopy(g, old(disk.sectors), k)[result := EOC])
      && Fat(g, disk.sectors) == Fat(g, old(disk.sectors))[result := EOC]
    ensures Mirrored(g, old(disk.sectors)) ==> Mirrored(g, disk.sectors)
  {
    hide Mirrored;
    result := LeastFree(g, disk);
    if result != 0 {
      SetClusterEntry(g, disk, result, EOC);
    }
  }

  /** Its search: the FAT sector read last is kept in a buffer. */
  method LeastFree(g: Geometry, disk: Disk) returns (result: U16)
    requires g.Fits(disk.sectors)
    ensures result == 0 <==> FreeSet(Fat(g, disk.sectors)) == {}
    ensures result != 0 ==> g.IsCluster(result) && result in FreeSet(Fat(g, disk.sectors))
    ensures result != 0 ==> forall x :: x in FreeSet(Fat(g, disk.sectors)) ==> result <= x
  {
    hide Mirrored;
    var totalEntries := g.fatSize * (512 / 2);
    var sectorBuf: Sector := seq(512, i => 0);
    var loadedSector := 0xFFFF_FFFF;
    FatSectorsOnDisk(g, disk.sectors);

    var cluster := 2;
    while cluster < totalEntries
      invariant 2 <= cluster <= totalEntries
      invariant loadedSector == 0xFFFF_FFFF
        || (loadedSector < |disk.sectors| && sectorBuf == disk.sectors[loadedSector])
      invariant forall x :: 2 <= x < cluster ==> Fat(g, disk.sectors)[x] != 0
    {
      var fatOffset := cluster * 2;
      var sector := g.fatStart + fatOffset / 512;
      var offsetInSector := fatOffset % 512;
      assert sector == g.FatLba(0, cluster / 256);
      if sector != loadedSector {
        sectorBuf := disk.sectors[sector];
        loadedSector := sector;
      }
      assert Fat(g, disk.sectors)[cluster] == FatWord(g, disk.sectors, 0, cluster);
      if WordAt(sectorBuf, offsetInSector / 2) == 0 {
        assert cluster in FreeSet(Fat(g, disk.sectors));
        return cluster;
      }
      cluster := cluster + 1;
    }
    return 0;
  }

  /** fat_find_last_cluster on a chain: its last cluster, or 0 for the empty chain. */
  method FindLastCluster(g: Geometry, disk: Disk, first: U16, ghost ch: seq<U16>) returns (last: U16)
    requires g.Fits(disk.sectors) && IsChain(Fat(g, disk.sectors), ch)
    requires if ch == [] then !InChainRange(first) else first == ch[0]
    ensures last == if ch == [] then 0 else ch[|ch| - 1]
  {
    if !InChainRange(first) {
      return 0;
    }
    var cluster := first;
    ghost var i := 0;
    NextIsFatEntry(g, disk.sectors, cluster);
    ChainLink(Fat(g, disk.sectors), ch, 0);
    var next := NextCluster(g, disk.sectors, cluster);
    while InChainRange(next)
      invariant 0 <= i < |ch| && cluster == ch[i] && next == Fat(g, disk.sectors)[ch[i]]
      invariant if InChainRange(next) then i + 1 < |ch| && next == ch[i + 1] else i + 1 == |ch|
      decreases |ch| - i
    {
      cluster := next;
      i := i + 1;
      NextIsFatEntry(g, disk.sectors, cluster);
      ChainLink(Fat(g, disk.sectors), ch, i);
      next := NextCluster(g, disk.sectors, cluster);
    }
    return cluster;
  }

  lemma ChainInRange(f: seq<U16>, ch: seq<U16>)
    requires |f| <= EOC_MIN && IsChain(f, ch) && |ch| > 0
    ensures InRangeFrom(f, ch[0])
  {
    forall x | Reaches(f, ch[0], x) && 0 <= x < |f| && InChainRange(f[x]) ensures f[x] < |f| {
      ChainReach(f, ch, x);
      var i :| 0 <= i < |ch| && ch[i] == x;
      ChainLink(f, ch, i);
    }
  }
}
