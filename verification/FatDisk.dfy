/**
  The disk below the FAT16 driver: 512-byte sectors, little-endian 16-bit words inside a
  sector, and the volume geometry that places the FAT copies, the root directory and the
  data clusters.  Everything above this file speaks about a FAT as a sequence of 16-bit
  entries (`Fat`, `FatCopy`) and about a cluster as a sequence of bytes (`ClusterByte`).
*/
module FatDisk {
  import opened Common

  type Sector = s: seq<Byte> | |s| == 512 witness seq(512, i => 0)
  type Image = seq<Sector>

  const EOC: U16 := 0xFFFF
  const EOC_MIN: U16 := 0xFFF8

  /** What the driver accepts as a cluster number while it walks a chain. */
  predicate InChainRange(c: int) {
    2 <= c < EOC_MIN
  }

  function WordAt(s: Sector, k: int): (w: U16)
    requires 0 <= k < 256
  {
    var lo: int, hi: int := s[2 * k], s[2 * k + 1];
    lo + 256 * hi
  }

  function PutWord(s: Sector, k: int, v: U16): (r: Sector)
    requires 0 <= k < 256
    ensures forall j :: 0 <= j < 256 ==> WordAt(r, j) == if j == k then v else WordAt(s, j)
  {
    s[2 * k := v % 256][2 * k + 1 := v / 256]
  }

  /** The volume layout that fat_init computes from the boot sector. */
  datatype Geometry = Geometry(
    fatStart: nat, fatSize: nat, numFats: nat,
    rootStart: nat, rootSectors: nat, dataStart: nat, spc: nat)
  {
    /** The driver's assumptions on the layout: consecutive areas, a boot sector in front,
        and few enough FAT entries that none of them looks like an end mark. */
    predicate Valid() {
      && 1 <= fatStart < 0x1_0000 && 1 <= fatSize <= 255 && 1 <= numFats && 1 <= spc <= 128
      && rootStart == fatStart + numFats * fatSize
      && dataStart == rootStart + rootSectors
    }

    function Entries(): nat {
      fatSize * 256
    }

    function ClusterSize(): nat {
      spc * 512
    }

    /** LBA of sector s of FAT copy k. */
    function FatLba(k: int, s: int): (lba: nat)
      requires Valid() && 0 <= k < numFats && 0 <= s < fatSize
      ensures fatStart <= lba < rootStart
    {
      RowBound(numFats, fatSize, k, s);
      fatStart + k * fatSize + s
    }

    /** LBA of the first sector of cluster c. */
    function ClusterLba(c: int): (lba: nat)
      requires 2 <= c
      ensures dataStart <= lba
    {
      dataStart + (c - 2) * spc
    }

    /** Every FAT entry from 2 on names a cluster that lies on the disk. */
    predicate Fits(d: Image) {
      Valid() && dataStart + (Entries() - 2) * spc <= |d|
    }

    predicate IsCluster(c: int) {
      2 <= c < Entries()
    }
  }

  /** Row k of a table with rows of the given size ends inside the first n rows. */
  lemma RowBound(n: nat, size: nat, k: int, s: int)
    requires 0 <= k < n && 0 <= s < size
    ensures 0 <= k * size + s < n * size
  {
    assert (k + 1) * size <= n * size;
  }

  lemma FatLbaInjective(g: Geometry, k1: int, s1: int, k2: int, s2: int)
    requires g.Valid()
    requires 0 <= k1 < g.numFats && 0 <= s1 < g.fatSize
    requires 0 <= k2 < g.numFats && 0 <= s2 < g.fatSize
    requires g.FatLba(k1, s1) == g.FatLba(k2, s2)
    ensures k1 == k2 && s1 == s2
  {
    if k1 < k2 {
      RowBound(k2, g.fatSize, k1, s1);
    } else if k2 < k1 {
      RowBound(k1, g.fatSize, k2, s2);
    }
  }

  /** Clusters occupy disjoint runs of sectors, all on the disk. */
  lemma ClusterSectors(g: Geometry, d: Image, c: int, s: int)
    requires g.Fits(d) && g.IsCluster(c) && 0 <= s < g.spc
    ensures g.dataStart <= g.ClusterLba(c) + s < |d|
  {
    Multiply(c - 1, g.Entries() - 2, g.spc);
    OneRowMore(c - 2, g.spc);
  }

  lemma OneRowMore(n: nat, size: nat)
    ensures (n + 1) * size == n * size + size
  {
  }

  lemma ClusterSectorInjective(g: Geometry, c1: int, s1: int, c2: int, s2: int)
    requires 2 <= c1 && 2 <= c2 && 0 <= s1 < g.spc && 0 <= s2 < g.spc
    requires g.ClusterLba(c1) + s1 == g.ClusterLba(c2) + s2
    ensures c1 == c2 && s1 == s2
  {
    if c1 < c2 {
      RowBound(c2 - 2, g.spc, c1 - 2, s1);
    } else if c2 < c1 {
      RowBound(c1 - 2, g.spc, c2 - 2, s2);
    }
  }

  /** Entry c of FAT copy k. */
  function FatWord(g: Geometry, d: Image, k: int, c: int): (w: U16)
    requires g.Fits(d) && 0 <= k < g.numFats && 0 <= c < g.Entries()
  {
    FatSectorsOnDisk(g, d);
    WordAt(d[g.FatLba(k, c / 256)], c % 256)
  }

  lemma FatSectorsOnDisk(g: Geometry, d: Image)
    requires g.Fits(d)
    ensures g.rootStart <= g.dataStart <= |d|
  {
    NonNegative(g.Entries() - 2, g.spc);
  }

  lemma NonNegative(a: nat, b: nat)
    ensures 0 <= a * b
  {
  }

  function FatCopy(g: Geometry, d: Image, k: int): (f: seq<U16>)
    requires g.Fits(d) && 0 <= k < g.numFats
    ensures |f| == g.Entries()
    ensures forall c :: 0 <= c < g.Entries() ==> f[c] == FatWord(g, d, k, c)
  {
    seq(g.Entries(), c requires 0 <= c < g.Entries() => FatWord(g, d, k, c))
  }

  /** The FAT the driver reads: copy 0. */
  function Fat(g: Geometry, d: Image): (f: seq<U16>)
    requires g.Fits(d)
    ensures |f| == g.Entries()
  {
    FatCopy(g, d, 0)
  }

  /** All FAT copies hold the same entries. */
  ghost predicate Mirrored(g: Geometry, d: Image)
    requires g.Fits(d)
  {
    forall k :: 0 <= k < g.numFats ==> FatCopy(g, d, k) == Fat(g, d)
  }

  /** Byte i of cluster c. */
  function ClusterByte(g: Geometry, d: Image, c: int, i: int): (b: Byte)
    requires g.Fits(d) && g.IsCluster(c) && 0 <= i < g.ClusterSize()
  {
    ClusterSectors(g, d, c, i / 512);
    d[g.ClusterLba(c) + i / 512][i % 512]
  }

  /** d2 differs from d at most inside the FAT area. */
  ghost predicate OnlyFatChanged(g: Geometry, d: Image, d2: Image) {
    && |d2| == |d|
    && forall lba :: 0 <= lba < |d| && !(g.fatStart <= lba < g.rootStart) ==> d2[lba] == d[lba]
  }

  lemma FatUnchanged(g: Geometry, d: Image, d2: Image)
    requires g.Fits(d) && |d2| == |d|
    requires forall lba :: g.fatStart <= lba < g.rootStart && lba < |d| ==> d2[lba] == d[lba]
    ensures g.Fits(d2) && Fat(g, d2) == Fat(g, d)
    ensures Mirrored(g, d2) == Mirrored(g, d)
  {
    FatSectorsOnDisk(g, d);
    forall k | 0 <= k < g.numFats ensures FatCopy(g, d2, k) == FatCopy(g, d, k) {
      forall c | 0 <= c < g.Entries() ensures FatWord(g, d2, k, c) == FatWord(g, d, k, c) {}
    }
  }

  lemma ClusterUnchanged(g: Geometry, d: Image, d2: Image, c: int, i: int)
    requires g.Fits(d) && OnlyFatChanged(g, d, d2) && g.IsCluster(c) && 0 <= i < g.ClusterSize()
    ensures ClusterByte(g, d2, c, i) == ClusterByte(g, d, c, i)
  {
    ClusterSectors(g, d, c, i / 512);
  }

  /** The disk as the driver's ata_read_sector and ata_write_sector see it. */
  class Disk {
    var sectors: Image
  }

  // ---------------------------------------------------------------- writing FAT entries

  /** The FAT copies below k have entry c set to v; the others are as in d. */
  ghost predicate CopiesSet(g: Geometry, d: Image, d2: Image, c: int, v: U16, k: int)
    requires g.Fits(d) && g.Fits(d2)
  {
    forall j :: 0 <= j < g.numFats ==>
      FatCopy(g, d2, j) == if j < k && 0 <= c < g.Entries() then FatCopy(g, d, j)[c := v] else FatCopy(g, d, j)
  }

  lemma PutWordInCopy(g: Geometry, d: Image, k: int, c: int, v: U16, d2: Image)
    requires g.Fits(d) && 0 <= k < g.numFats && 0 <= c < g.Entries()
    requires (FatSectorsOnDisk(g, d); d2 == d[g.FatLba(k, c / 256) := PutWord(d[g.FatLba(k, c / 256)], c % 256, v)])
    ensures g.Fits(d2) && OnlyFatChanged(g, d, d2)
    ensures forall j :: 0 <= j < g.numFats ==>
      FatCopy(g, d2, j) == if j == k then FatCopy(g, d, j)[c := v] else FatCopy(g, d, j)
  {
    FatSectorsOnDisk(g, d);
    forall j | 0 <= j < g.numFats
      ensures FatCopy(g, d2, j) == if j == k then FatCopy(g, d, j)[c := v] else FatCopy(g, d, j)
    {
      forall x | 0 <= x < g.Entries()
        ensures FatWord(g, d2, j, x) == if j == k && x == c then v else FatWord(g, d, j, x)
      {
        if g.FatLba(j, x / 256) == g.FatLba(k, c / 256) {
          FatLbaInjective(g, j, x / 256, k, c / 256);
        }
      }
    }
  }

  /** fat_set_cluster_entry: one read-modify-write per FAT copy. */
  method SetClusterEntry(g: Geometry, disk: Disk, cluster: U16, value: U16)
    requires g.Fits(disk.sectors) && g.IsCluster(cluster)
    modifies disk
    ensures g.Fits(disk.sectors) && OnlyFatChanged(g, old(disk.sectors), disk.sectors)
    ensures forall k :: 0 <= k < g.numFats ==>
      FatCopy(g, disk.sectors, k) == FatCopy(g, old(disk.sectors), k)[cluster := value]
    ensures Fat(g, disk.sectors) == Fat(g, old(disk.sectors))[cluster := value]
    ensures Mirrored(g, old(disk.sectors)) ==> Mirrored(g, disk.sectors)
  {
    var fatOffset := cluster * 2;
    var sectorOffset := fatOffset / 512;
    var offsetInSector := fatOffset % 512;
    FatSectorsOnDisk(g, disk.sectors);
    ghost var d0 := disk.sectors;
    var copy := 0;
    while copy < g.numFats
      invariant 0 <= copy <= g.numFats
      invariant g.Fits(disk.sectors) && OnlyFatChanged(g, d0, disk.sectors)
      invariant CopiesSet(g, d0, disk.sectors, cluster, value, copy)
    {
      ghost var d1 := disk.sectors;
      var sector := g.FatLba(copy, sectorOffset);
      var sectorBuf := disk.sectors[sector];
      disk.sectors := disk.sectors[sector := PutWord(sectorBuf, offsetInSector / 2, value)];
      PutWordInCopy(g, d1, copy, cluster, value, disk.sectors);
      copy := copy + 1;
    }
  }

  /** fat_get_next_cluster; a sector past the end of the disk is a read error. */
  function NextCluster(g: Geometry, d: Image, cluster: U16): (next: U16) {
    var fatOffset := cluster * 2;
    var fatSector := g.fatStart + fatOffset / 512;
    if fatSector < |d| then WordAt(d[fatSector], fatOffset % 512 / 2) else EOC
  }

  lemma NextIsFatEntry(g: Geometry, d: Image, c: U16)
    requires g.Fits(d) && c < g.Entries()
    ensures NextCluster(g, d, c) == Fat(g, d)[c]
  {
    FatSectorsOnDisk(g, d);
    assert c * 2 / 512 == c / 256 && c * 2 % 512 / 2 == c % 256;
    assert Fat(g, d)[c] == FatWord(g, d, 0, c);
    assert g.FatLba(0, c / 256) == g.fatStart + c / 256;
  }
}
