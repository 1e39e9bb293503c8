/**
  Writing files.  fat_write grows a chain one cluster at a time, overwrites parts of
  sectors and keeps the directory entry up to date.  Its contract covers every position of
  the cursor: when a write runs over the end of a cluster that is not the last one, the
  rest of the old chain is dropped and its clusters are lost.
*/
module FatWrite {
  import opened Common
  import opened FatDisk
  import opened FatChains
  import opened FatRead

  /** A directory slot: a sector and one of its sixteen 32-byte entries. */
  datatype Loc = Loc(lba: nat, idx: nat)

  function EntryFirst(s: Sector, idx: int): (c: U16)
    requires 0 <= idx < 16
  {
    WordAt(s, 16 * idx + 13)
  }

  function EntrySize(s: Sector, idx: int): (n: nat)
    requires 0 <= idx < 16
    ensures n < 0x1_0000_0000
  {
    WordAt(s, 16 * idx + 14) + 0x1_0000 * WordAt(s, 16 * idx + 15)
  }

  function PutFirst(s: Sector, idx: int, c: U16): (r: Sector)
    requires 0 <= idx < 16
    ensures EntryFirst(r, idx) == c && EntrySize(r, idx) == EntrySize(s, idx)
    ensures OnlyLinksChanged(s, r, idx)
  {
    PutWord(s, 16 * idx + 13, c)
  }

  function PutSize(s: Sector, idx: int, n: nat): (r: Sector)
    requires 0 <= idx < 16 && n < 0x1_0000_0000
    ensures EntrySize(r, idx) == n && EntryFirst(r, idx) == EntryFirst(s, idx)
    ensures OnlyLinksChanged(s, r, idx)
  {
    PutWord(PutWord(s, 16 * idx + 14, n % 0x1_0000), 16 * idx + 15, n / 0x1_0000)
  }

  /** Two versions of a sector that differ at most in the first-cluster and size fields of
      one entry. */
  ghost predicate OnlyLinksChanged(s: Sector, r: Sector, idx: int) {
    forall b :: 0 <= b < 512 && !(32 * idx + 26 <= b < 32 * idx + 32) ==> r[b] == s[b]
  }

  predicate Inside(g: Geometry, c: int, lba: int) {
    2 <= c && g.ClusterLba(c) <= lba < g.ClusterLba(c) + g.spc
  }

  /** Where a directory sector lives: in the root directory (home 0) or in a cluster. */
  predicate HomeOf(g: Geometry, home: int, lba: int) {
    if home == 0 then g.rootStart <= lba < g.dataStart else g.IsCluster(home) && Inside(g, home, lba)
  }

  lemma HomeOnDisk(g: Geometry, d: Image, home: int, lba: int)
    requires g.Fits(d) && HomeOf(g, home, lba)
    ensures g.rootStart <= lba < |d|
  {
    FatSectorsOnDisk(g, d);
    if home != 0 {
      ClusterSectors(g, d, home, lba - g.ClusterLba(home));
    }
  }

  lemma InsideOnlyOne(g: Geometry, c1: int, c2: int, lba: int)
    requires Inside(g, c1, lba) && Inside(g, c2, lba)
    ensures c1 == c2
  {
    ClusterSectorInjective(g, c1, lba - g.ClusterLba(c1), c2, lba - g.ClusterLba(c2));
  }

  // ------------------------------------------------------------ what one sector write does

  /** A sector outside the FAT area changes no FAT entry and only the cluster it lies in. */
  lemma SectorFrame(g: Geometry, d: Image, lba: int, buf: Sector)
    requires g.Fits(d) && g.rootStart <= lba < |d|
    ensures var d2 := d[lba := buf];
            && g.Fits(d2) && Fat(g, d2) == Fat(g, d) && Mirrored(g, d2) == Mirrored(g, d)
            && forall c :: g.IsCluster(c) && !Inside(g, c, lba) ==> ClusterBytes(g, d2, c) == ClusterBytes(g, d, c)
  {
    var d2 := d[lba := buf];
    FatUnchanged(g, d, d2);
    forall c | g.IsCluster(c) && !Inside(g, c, lba) ensures ClusterBytes(g, d2, c) == ClusterBytes(g, d, c) {
      forall i | 0 <= i < g.ClusterSize() ensures ClusterByte(g, d2, c, i) == ClusterByte(g, d, c, i) {
        ClusterSectors(g, d, c, i / 512);
      }
    }
  }

  lemma FatFrame(g: Geometry, d: Image, d2: Image)
    requires g.Fits(d) && g.Fits(d2) && OnlyFatChanged(g, d, d2)
    ensures forall c :: g.IsCluster(c) ==> ClusterBytes(g, d2, c) == ClusterBytes(g, d, c)
  {
    forall c | g.IsCluster(c) ensures ClusterBytes(g, d2, c) == ClusterBytes(g, d, c) {
      forall i | 0 <= i < g.ClusterSize() ensures ClusterByte(g, d2, c, i) == ClusterByte(g, d, c, i) {
        ClusterUnchanged(g, d, d2, c, i);
      }
    }
  }

  function Splice<T>(s: seq<T>, at: nat, data: seq<T>): (r: seq<T>)
    requires at + |data| <= |s|
    ensures |r| == |s|
  {
    s[..at] + data + s[at + |data|..]
  }

  /** Overwriting part of a sector splices the bytes into its cluster. */
  lemma PatchCluster(g: Geometry, d: Image, c: int, coff: nat, data: seq<Byte>)
    requires g.Fits(d) && g.IsCluster(c) && coff < g.ClusterSize() && coff % 512 + |data| <= 512
    ensures var lba := g.ClusterLba(c) + coff / 512;
            && g.rootStart <= lba < |d| && Inside(g, c, lba) && coff + |data| <= g.ClusterSize()
            && var d2 := d[lba := Splice(d[lba], coff % 512, data)];
               g.Fits(d2) && ClusterBytes(g, d2, c) == Splice(ClusterBytes(g, d, c), coff, data)
  {
    ClusterSectors(g, d, c, coff / 512);
    var lba := g.ClusterLba(c) + coff / 512;
    var d2 := d[lba := Splice(d[lba], coff % 512, data)];
    forall i | 0 <= i < g.ClusterSize()
      ensures ClusterByte(g, d2, c, i) == Splice(ClusterBytes(g, d, c), coff, data)[i]
    {
      ClusterSectors(g, d, c, i / 512);
      assert ClusterBytes(g, d, c)[i] == ClusterByte(g, d, c, i);
    }
  }

  /** A splice into one cluster is a splice into the bytes of its chain. */
  lemma PatchChain(g: Geometry, d: Image, d2: Image, ch: seq<U16>, j: nat, coff: nat, data: seq<Byte>,
                   at: nat)
    requires at == j * g.ClusterSize() + coff
    requires g.Fits(d) && g.Fits(d2) && AllClusters(g, ch) && j < |ch| && coff + |data| <= g.ClusterSize()
    requires ClusterBytes(g, d2, ch[j]) == Splice(ClusterBytes(g, d, ch[j]), coff, data)
    requires forall i :: 0 <= i < |ch| && i != j ==> ClusterBytes(g, d2, ch[i]) == ClusterBytes(g, d, ch[i])
    ensures at + |data| <= |ChainBytes(g, d, ch)| && ChainBytes(g, d2, ch) == Splice(ChainBytes(g, d, ch), at, data)
  {
    hide ClusterBytes, Splice;
    var before, own, after := ChainBytes(g, d, ch[..j]), ClusterBytes(g, d, ch[j]), ChainBytes(g, d, ch[j + 1..]);
    ChainBytesAround(g, d, ch, j);
    assert ChainBytes(g, d2, ch) == before + Splice(own, coff, data) + after by {
      ChainBytesFrame(g, d, d2, ch[..j]);
      ChainBytesFrame(g, d, d2, ch[j + 1..]);
      ChainBytesAround(g, d2, ch, j);
    }
    ChainBytesLength(g, d, ch[..j]);
    SpliceMiddle(before, own, after, coff, data);
  }

  lemma ChainBytesAround(g: Geometry, d: Image, ch: seq<U16>, j: nat)
    requires g.Fits(d) && AllClusters(g, ch) && j < |ch|
    ensures ChainBytes(g, d, ch)
      == ChainBytes(g, d, ch[..j]) + ClusterBytes(g, d, ch[j]) + ChainBytes(g, d, ch[j + 1..])
  {
    assert ch == ch[..j] + ch[j..];
    ChainBytesConcat(g, d, ch[..j], ch[j..]);
    ChainBytesSplit(g, d, ch, j);
    Assoc(ChainBytes(g, d, ch[..j]), ClusterBytes(g, d, ch[j]), ChainBytes(g, d, ch[j + 1..]));
  }

  lemma SpliceMiddle<T>(a: seq<T>, m: seq<T>, b: seq<T>, at: nat, data: seq<T>)
    requires at + |data| <= |m|
    ensures a + Splice(m, at, data) + b == Splice(a + m + b, |a| + at, data)
  {
  }

  // ----------------------------------------------------------------------- growing a chain

  /** A volume on which the file with directory slot loc can be written: the chains
      partition the FAT and the slot's sector is no part of the file. */
  ghost predicate Ready(g: Geometry, d: Image, chains: map<Loc, seq<U16>>, lost: set<U16>, loc: Loc, home: int) {
    && g.Fits(d) && Mirrored(g, d) && Partition(Fat(g, d), chains, lost)
    && loc in chains && loc.idx < 16 && HomeOf(g, home, loc.lba)
    && home !in chains[loc] && (home != 0 ==> Used(Fat(g, d), home))
  }

  /** The directory slot holds this first cluster. */
  ghost predicate SlotFirst(g: Geometry, d: Image, loc: Loc, ch: seq<U16>) {
    loc.lba < |d| && loc.idx < 16 && EntryFirst(d[loc.lba], loc.idx) == Head(ch)
  }

  /** Outside the FAT area nothing changed but the link fields of one directory slot. */
  ghost predicate OnlySlotAndFat(g: Geometry, d: Image, d2: Image, loc: Loc) {
    && |d2| == |d| && loc.lba < |d|
    && (forall l :: 0 <= l < |d| && !(g.fatStart <= l < g.rootStart) && l != loc.lba ==> d2[l] == d[l])
    && OnlyLinksChanged(d[loc.lba], d2[loc.lba], loc.idx)
  }

  ghost predicate SameClusters(g: Geometry, d: Image, d2: Image, except: int) {
    && g.Fits(d) && g.Fits(d2)
    && forall c :: g.IsCluster(c) && c != except ==> ClusterBytes(g, d2, c) == ClusterBytes(g, d, c)
  }

  /** The descriptor belongs to this slot and chain. */
  predicate OpenOn(f: OpenFile, loc: Loc, ch: seq<U16>) {
    && f.dirSector == loc.lba && f.dirOffset == loc.idx
    && f.firstCluster == if ch == [] then 0 else ch[0]
  }

  lemma HomeApart(g: Geometry, home: int, lba: int, c: int, l: int)
    requires HomeOf(g, home, lba) && Inside(g, c, l) && c != home
    ensures l != lba
  {
    if l == lba && home != 0 {
      InsideOnlyOne(g, home, c, l);
    }
  }

  lemma InsideHome(g: Geometry, home: int, lba: int, c: int)
    requires HomeOf(g, home, lba) && Inside(g, c, lba)
    ensures c == home
  {
    if home != 0 {
      InsideOnlyOne(g, home, c, lba);
    }
  }

  lemma HomeFrame(g: Geometry, d: Image, home: int, lba: int, buf: Sector)
    requires g.Fits(d) && HomeOf(g, home, lba)
    ensures g.rootStart <= lba < |d|
    ensures var d2 := d[lba := buf];
            && Fat(g, d2) == Fat(g, d) && Mirrored(g, d2) == Mirrored(g, d) && SameClusters(g, d, d2, home)
  {
    HomeOnDisk(g, d, home, lba);
    SectorFrame(g, d, lba, buf);
    forall c | g.IsCluster(c) && c != home ensures !Inside(g, c, lba) {
      if Inside(g, c, lba) { HomeApart(g, home, lba, c, lba); }
    }
  }

  /** The first allocation of a file: claim a cluster and record it in the directory slot. */
  method GrowFirst(g: Geometry, disk: Disk, f: OpenFile, ghost chains: map<Loc, seq<U16>>, ghost lost: set<U16>,
                   ghost loc: Loc, ghost home: int)
    returns (n: U16)
    requires Ready(g, disk.sectors, chains, lost, loc, home) && chains[loc] == [] && OpenOn(f, loc, [])
    modifies disk
    ensures n == 0 <==> FreeSet(Fat(g, old(disk.sectors))) == {}
    ensures n == 0 ==> disk.sectors == old(disk.sectors)
    ensures n != 0 ==>
      && g.IsCluster(n) && Fat(g, old(disk.sectors))[n] == 0 && n != home
      && Ready(g, disk.sectors, chains[loc := [n]], lost, loc, home)
      && OnlySlotAndFat(g, old(disk.sectors), disk.sectors, loc) && SlotFirst(g, disk.sectors, loc, [n])
      && SameClusters(g, old(disk.sectors), disk.sectors, home)
      && ReservedKept(Fat(g, old(disk.sectors)), Fat(g, disk.sectors))
  {
    ghost var d0 := disk.sectors;
    HomeOnDisk(g, d0, home, loc.lba);
    n := AllocCluster(g, disk);
    if n == 0 {
      return;
    }
    ghost var d1 := disk.sectors;
    ClaimPartition(Fat(g, d0), chains, lost, n);
    AdoptPartition(Fat(g, d1), chains, lost + {n}, loc, n);
    assert lost + {n} - {n} == lost;
    FatFrame(g, d0, d1);
    ReservedUpdate(Fat(g, d0), n, EOC);
    hide ReservedKept;
    var sectorBuf := disk.sectors[f.dirSector];
    disk.sectors := disk.sectors[f.dirSector := PutFirst(sectorBuf, f.dirOffset, n)];
    HomeFrame(g, d1, home, loc.lba, disk.sectors[loc.lba]);
  }

  /** A full cluster: claim a new one and make the current cluster point to it. */
  method GrowNext(g: Geometry, disk: Disk, f: OpenFile, ghost chains: map<Loc, seq<U16>>, ghost lost: set<U16>,
                  ghost loc: Loc, ghost home: int, ghost j: nat)
    returns (n: U16)
    requires Ready(g, disk.sectors, chains, lost, loc, home) && j < |chains[loc]| && f.currentCluster == chains[loc][j]
    modifies disk
    ensures n == 0 <==> FreeSet(Fat(g, old(disk.sectors))) == {}
    ensures n == 0 ==> disk.sectors == old(disk.sectors)
    ensures n != 0 ==>
      && g.IsCluster(n) && Fat(g, old(disk.sectors))[n] == 0 && n != home
      && Ready(g, disk.sectors, chains[loc := chains[loc][..j + 1] + [n]], lost + After(chains[loc], j), loc, home)
      && OnlyFatChanged(g, old(disk.sectors), disk.sectors)
      && ReservedKept(Fat(g, old(disk.sectors)), Fat(g, disk.sectors))
  {
    ghost var d0, ch := disk.sectors, chains[loc];
    n := AllocCluster(g, disk);
    if n == 0 {
      return;
    }
    ghost var d1 := disk.sectors;
    ClaimPartition(Fat(g, d0), chains, lost, n);
    RelinkPartition(Fat(g, d1), chains, lost + {n}, loc, j, n);
    assert lost + {n} - {n} + After(ch, j) == lost + After(ch, j);
    RelinkReserved(Fat(g, d0), ch, j, n);
    hide ReservedKept;
    SetClusterEntry(g, disk, f.currentCluster, n);
  }

  lemma RelinkReserved(f: seq<U16>, ch: seq<U16>, j: nat, n: U16)
    requires |f| <= 0xFFF0 && IsChain(f, ch) && j < |ch| && 2 <= n < |f| && f[n] == 0
    ensures ReservedKept(f, f[n := EOC][ch[j] := n])
  {
    ChainNotReserved(f, ch, j);
    ReservedUpdate(f, n, EOC);
    ReservedUpdate(f[n := EOC], ch[j], n);
    ReservedTrans(f, f[n := EOC], f[n := EOC][ch[j] := n]);
  }

  // ------------------------------------------------------------------------ the write loop

  /** How far a write has come.  It started at byte off, in cluster j0 of chain ch0, and has
      written done; grown says that it has left that cluster for newly claimed ones. */
  ghost predicate Progress(g: Geometry, d0: Image, ch0: seq<U16>, j0: int, off: nat, done: seq<Byte>,
                           d: Image, ch: seq<U16>, j: int, grown: bool)
  {
    && g.Fits(d0) && g.Fits(d) && AllClusters(g, ch0) && AllClusters(g, ch) && -1 <= j0 < |ch0|
    && (if grown then j0 + 1 < |ch| && ch[..j0 + 1] == ch0[..j0 + 1] && j == |ch| - 1 else ch == ch0 && j == j0)
    && var b0, b := ChainBytes(g, d0, ch0), ChainBytes(g, d, ch);
       && off <= |b0| && off + |done| <= |b|
       && b[..off + |done|] == b0[..off] + done
       && (!grown ==> |b| == |b0| && b[off + |done|..] == b0[off + |done|..])
  }

  /** One sector write inside cluster j of a chain. */
  lemma PatchFile(g: Geometry, d: Image, ch: seq<U16>, j: nat, coff: nat, chunk: seq<Byte>, lba: nat, at: nat,
                  d2: Image)
    requires g.Fits(d) && AllClusters(g, ch) && NoDup(ch)
    requires j < |ch| && coff < g.ClusterSize() && coff % 512 + |chunk| <= 512
    requires lba == g.ClusterLba(ch[j]) + coff / 512 && lba < |d|
    requires d2 == d[lba := Splice(d[lba], coff % 512, chunk)] && at == j * g.ClusterSize() + coff
    ensures g.rootStart <= lba && Inside(g, ch[j], lba) && g.Fits(d2) && coff + |chunk| <= g.ClusterSize()
    ensures Fat(g, d2) == Fat(g, d) && Mirrored(g, d2) == Mirrored(g, d)
    ensures at + |chunk| <= |ChainBytes(g, d, ch)| && ChainBytes(g, d2, ch) == Splice(ChainBytes(g, d, ch), at, chunk)
  {
    hide Fat, Mirrored, ChainBytes, ClusterBytes, Splice;
    PatchCluster(g, d, ch[j], coff, chunk);
    SectorFrame(g, d, lba, d2[lba]);
    forall i | 0 <= i < |ch| && i != j ensures ClusterBytes(g, d2, ch[i]) == ClusterBytes(g, d, ch[i]) {
      if Inside(g, ch[i], lba) { InsideOnlyOne(g, ch[i], ch[j], lba); }
    }
    PatchChain(g, d, d2, ch, j, coff, chunk, at);
  }

  lemma PartProgress(g: Geometry, d0: Image, ch0: seq<U16>, j0: int, off: nat, done: seq<Byte>,
                     d: Image, ch: seq<U16>, j: int, grown: bool, d2: Image, chunk: seq<Byte>)
    requires Progress(g, d0, ch0, j0, off, done, d, ch, j, grown)
    requires off + |done| + |chunk| <= |ChainBytes(g, d, ch)|
    requires g.Fits(d2) && ChainBytes(g, d2, ch) == Splice(ChainBytes(g, d, ch), off + |done|, chunk)
    ensures Progress(g, d0, ch0, j0, off, done + chunk, d2, ch, j, grown)
  {
    SpliceEnds(ChainBytes(g, d, ch), off + |done|, chunk);
    Assoc(ChainBytes(g, d0, ch0)[..off], done, chunk);
    if !grown {
      SliceShift(ChainBytes(g, d, ch), ChainBytes(g, d0, ch0), off + |done|, |chunk|);
    }
  }

  lemma SpliceEnds<T>(s: seq<T>, at: nat, data: seq<T>)
    requires at + |data| <= |s|
    ensures Splice(s, at, data)[..at + |data|] == s[..at] + data
    ensures Splice(s, at, data)[at + |data|..] == s[at + |data|..]
  {
  }

  lemma SliceJoin<T>(s: seq<T>, at: nat, n: nat)
    requires at + n <= |s|
    ensures s[..at] + s[at..at + n] == s[..at + n]
  {
  }

  lemma SliceShift<T>(s: seq<T>, t: seq<T>, at: nat, n: nat)
    requires at + n <= |s| && at + n <= |t| && s[at..] == t[at..]
    ensures s[at + n..] == t[at + n..]
  {
    assert s[at + n..] == s[at..][n..] && t[at + n..] == t[at..][n..];
  }

  lemma GrowProgress(g: Geometry, d0: Image, ch0: seq<U16>, j0: int, off: nat, done: seq<Byte>,
                     d: Image, ch: seq<U16>, j: int, grown: bool, d2: Image, n: U16, home: int)
    requires Progress(g, d0, ch0, j0, off, done, d, ch, j, grown)
    requires off + |done| == (j + 1) * g.ClusterSize()
    requires SameClusters(g, d, d2, home) && home !in ch && g.IsCluster(n) && n != home
    ensures Progress(g, d0, ch0, j0, off, done, d2, ch[..j + 1] + [n], j + 1, true)
  {
    var kept := ch[..j + 1];
    assert ch == kept + ch[j + 1..];
    ChainBytesConcat(g, d, kept, ch[j + 1..]);
    ChainBytesLength(g, d, kept);
    forall i | 0 <= i < |kept|
      ensures ClusterBytes(g, d2, kept[i]) == ClusterBytes(g, d, kept[i]) { assert kept[i] == ch[i]; }
    ChainBytesFrame(g, d, d2, kept);
    ChainBytesConcat(g, d2, kept, [n]);
    var b, b2 := ChainBytes(g, d, ch), ChainBytes(g, d2, kept + [n]);
    assert b[..off + |done|] == ChainBytes(g, d, kept) == b2[..off + |done|];
    assert (kept + [n])[..j0 + 1] == ch0[..j0 + 1];
  }

  /** The copy into the sector buffer. */
  method PatchSector(sector: Sector, at: nat, src: seq<Byte>) returns (r: Sector)
    requires at + |src| <= 512
    ensures r == Splice(sector, at, src)
  {
    r := sector;
    var i := 0;
    while i < |src|
      invariant 0 <= i <= |src|
      invariant r == Splice(sector, at, src[..i])
    {
      r := r[at + i := src[i]];
      i := i + 1;
    }
    assert src[..i] == src;
  }

  /** The read-modify-write of one sector in fat_write's loop. */
  method WritePart(g: Geometry, disk: Disk, f: OpenFile, data: seq<Byte>) returns (f2: OpenFile, n: nat)
    requires g.Fits(disk.sectors) && g.IsCluster(f.currentCluster) && f.clusterOffset < g.ClusterSize() && data != []
    modifies disk
    ensures 0 < n == Min(512 - f.clusterOffset % 512, |data|)
    ensures var lba := g.ClusterLba(f.currentCluster) + f.clusterOffset / 512;
            && lba < |old(disk.sectors)|
            && disk.sectors == old(disk.sectors)[lba :=
              Splice(old(disk.sectors)[lba], f.clusterOffset % 512, data[..n])]
    ensures f2 == f.(fileOffset := f.fileOffset + n, clusterOffset := f.clusterOffset + n, fileSize := f2.fileSize)
    ensures f2.fileSize == if f.fileOffset + n > f.fileSize then f.fileOffset + n else f.fileSize
  {
    var sectorInCluster := f.clusterOffset / 512;
    var offsetInSector := f.clusterOffset % 512;
    var clusterLba := g.ClusterLba(f.currentCluster);
    ClusterSectors(g, disk.sectors, f.currentCluster, sectorInCluster);
    var availableInSector := 512 - offsetInSector;
    n := if availableInSector < |data| then availableInSector else |data|;
    var sectorBuf := PatchSector(disk.sectors[clusterLba + sectorInCluster], offsetInSector, data[..n]);
    disk.sectors := disk.sectors[clusterLba + sectorInCluster := sectorBuf];
    f2 := f.(fileOffset := f.fileOffset + n, clusterOffset := f.clusterOffset + n);
    if f2.fileOffset > f2.fileSize {
      f2 := f2.(fileSize := f2.fileOffset);
    }
  }

  /** Outside the FAT area only the clusters lo..hi of the chain and the link fields of the
      file's directory slot differ. */
  ghost predicate FileFrame(g: Geometry, d: Image, d2: Image, loc: Loc, ch: seq<U16>, lo: int, hi: int) {
    && |d2| == |d| && loc.lba < |d|
    && OnlyLinksChanged(d[loc.lba], d2[loc.lba], loc.idx)
    && forall l :: 0 <= l < |d| && !(g.fatStart <= l < g.rootStart) && l != loc.lba && !InFile(g, ch, lo, hi, l) ==>
         d2[l] == d[l]
  }

  ghost predicate InFile(g: Geometry, ch: seq<U16>, lo: int, hi: int, l: int) {
    exists i :: 0 <= i < |ch| && lo <= i <= hi && Inside(g, ch[i], l)
  }

  lemma FrameGrow(g: Geometry, d0: Image, d: Image, d2: Image, loc: Loc, ch: seq<U16>, lo: int, j: int, n: U16)
    requires FileFrame(g, d0, d, loc, ch, lo, j) && OnlySlotAndFat(g, d, d2, loc) && -1 <= lo <= j < |ch|
    ensures FileFrame(g, d0, d2, loc, ch[..j + 1] + [n], lo, j + 1)
  {
    var ch2 := ch[..j + 1] + [n];
    forall l | InFile(g, ch, lo, j, l) ensures InFile(g, ch2, lo, j + 1, l) {
      var i :| 0 <= i < |ch| && lo <= i <= j && Inside(g, ch[i], l);
      assert ch2[i] == ch[i];
    }
  }

  lemma FramePart(g: Geometry, d0: Image, d: Image, loc: Loc, ch: seq<U16>, lo: int, j: nat, lba: nat, buf: Sector)
    requires FileFrame(g, d0, d, loc, ch, lo, j) && lo <= j < |ch| && lba < |d| && Inside(g, ch[j], lba)
    requires lba != loc.lba
    ensures FileFrame(g, d0, d[lba := buf], loc, ch, lo, j)
  {
  }

  /** A cursor that cannot go on in its cluster has none, or stands at the end of cluster j. */
  lemma GrowCases(g: Geometry, d: Image, f: OpenFile, chains: map<Loc, seq<U16>>, lost: set<U16>, loc: Loc, home: int,
                  j: int)
    requires Ready(g, d, chains, lost, loc, home) && OpenOn(f, loc, chains[loc]) && CursorOn(g, f, chains[loc], j)
    ensures loc in chains && (f.currentCluster == 0 <==> chains[loc] == [])
    ensures f.currentCluster == 0 ==> j == -1 && f.firstCluster == 0
    ensures f.currentCluster != 0 ==> 0 <= j < |chains[loc]| && f.currentCluster == chains[loc][j]
  {
    hide Mirrored, Used;
    if chains[loc] != [] {
      assert IsChain(Fat(g, d), chains[loc]);
      assert chains[loc][j] >= 2;
    }
  }

  lemma FirstGrown(g: Geometry, f: OpenFile, lost: set<U16>, loc: Loc, n: U16, f2: OpenFile)
    requires OpenOn(f, loc, []) && CursorOn(g, f, [], -1)
    requires f2 == f.(currentCluster := n, clusterOffset := 0, firstCluster := n)
    ensures [][..0] + [n] == [n] && lost + After([], -1) == lost
    ensures OpenOn(f2, loc, [n]) && CursorOn(g, f2, [n], 0)
  {
  }

  lemma NextGrown(g: Geometry, d0: Image, d: Image, chains: map<Loc, seq<U16>>, lost: set<U16>, loc: Loc, home: int,
                  j: nat, n: U16)
    requires Ready(g, d0, chains, lost, loc, home) && SlotFirst(g, d0, loc, chains[loc])
    requires j < |chains[loc]| && OnlyFatChanged(g, d0, d)
    requires Ready(g, d, chains[loc := chains[loc][..j + 1] + [n]], lost + After(chains[loc], j), loc, home)
    ensures OnlySlotAndFat(g, d0, d, loc) && SlotFirst(g, d, loc, chains[loc][..j + 1] + [n])
    ensures SameClusters(g, d0, d, home)
  {
    hide Mirrored, Partition, Used, Fat, ClusterBytes;
    HomeOnDisk(g, d0, home, loc.lba);
    FatFrame(g, d0, d);
  }

  lemma NextCursor(g: Geometry, f: OpenFile, loc: Loc, ch: seq<U16>, j: nat, n: U16, f2: OpenFile)
    requires OpenOn(f, loc, ch) && j < |ch| && CursorOn(g, f, ch, j) && f.clusterOffset >= g.ClusterSize()
    requires f2 == f.(currentCluster := n, clusterOffset := 0)
    ensures OpenOn(f2, loc, ch[..j + 1] + [n]) && CursorOn(g, f2, ch[..j + 1] + [n], j + 1)
  {
    ChainBytesFull(g, j + 1);
  }

  /** The two allocation branches of fat_write's loop. */
  method Grow(g: Geometry, disk: Disk, f: OpenFile, ghost chains: map<Loc, seq<U16>>, ghost lost: set<U16>,
              ghost loc: Loc, ghost home: int, ghost j: int)
    returns (ok: bool, f2: OpenFile, ghost ch2: seq<U16>)
    requires Ready(g, disk.sectors, chains, lost, loc, home) && OpenOn(f, loc, chains[loc])
    requires CursorOn(g, f, chains[loc], j) && SlotFirst(g, disk.sectors, loc, chains[loc])
    requires chains[loc] == [] || f.clusterOffset >= g.ClusterSize()
    modifies disk
    ensures ok <==> FreeSet(Fat(g, old(disk.sectors))) != {}
    ensures !ok ==> f2 == f && ch2 == chains[loc] && disk.sectors == old(disk.sectors)
    ensures ok ==>
      var n := f2.currentCluster;
      && g.IsCluster(n) && n != home && ch2 == chains[loc][..j + 1] + [n]
      && Ready(g, disk.sectors, chains[loc := ch2], lost + After(chains[loc], j), loc, home)
      && OnlySlotAndFat(g, old(disk.sectors), disk.sectors, loc) && SlotFirst(g, disk.sectors, loc, ch2)
      && SameClusters(g, old(disk.sectors), disk.sectors, home)
      && ReservedKept(Fat(g, old(disk.sectors)), Fat(g, disk.sectors))
      && OpenOn(f2, loc, ch2) && CursorOn(g, f2, ch2, j + 1) && f2.clusterOffset == 0
      && f2 == f.(currentCluster := n, clusterOffset := 0, firstCluster := f2.firstCluster)
  {
    hide *;
    GrowCases(g, disk.sectors, f, chains, lost, loc, home, j);
    ghost var d0, ch := disk.sectors, chains[loc];
    f2 := f;
    ch2 := ch;
    if f.currentCluster == 0 {
      var newCluster := GrowFirst(g, disk, f, chains, lost, loc, home);
      if newCluster == 0 {
        return false, f2, ch2;
      }
      f2 := f2.(currentCluster := newCluster, clusterOffset := 0);
      if f2.firstCluster == 0 {
        f2 := f2.(firstCluster := newCluster);
      }
      ch2 := ch[..j + 1] + [newCluster];
      FirstGrown(g, f, lost, loc, newCluster, f2);
    } else {
      var newCluster := GrowNext(g, disk, f, chains, lost, loc, home, j);
      if newCluster == 0 {
        return false, f2, ch2;
      }
      f2 := f2.(currentCluster := newCluster, clusterOffset := 0);
      ch2 := ch[..j + 1] + [newCluster];
      NextGrown(g, d0, disk.sectors, chains, lost, loc, home, j, newCluster);
      NextCursor(g, f, loc, ch, j, newCluster, f2);
    }
    ok := true;
  }

  /** The clusters lost once the write has left cluster j0 of chain ch0. */
  ghost function LostAfter(lost: set<U16>, ch0: seq<U16>, j0: int, grown: bool): set<U16> {
    if grown then lost + After(ch0, j0) else lost
  }

  /** Bytes left in the cluster of the cursor. */
  function Room(g: Geometry, f: OpenFile): int {
    if f.currentCluster == 0 then 0 else g.ClusterSize() - f.clusterOffset
  }

  /** Everything that holds between two rounds of fat_write's loop. */
  ghost predicate WriteInv(g: Geometry, d0: Image, d: Image, chains: map<Loc, seq<U16>>, lost: set<U16>, loc: Loc,
                           home: int,
                           f0: OpenFile, f: OpenFile, j0: int, ch: seq<U16>, j: int, done: seq<Byte>, grown: bool)
    requires loc in chains
  {
    && -1 <= j0 <= j < |ch| && (if grown then j == |ch| - 1 else ch == chains[loc] && j == j0)
    && Ready(g, d, chains[loc := ch], LostAfter(lost, chains[loc], j0, grown), loc, home)
    && Progress(g, d0, chains[loc], j0, f0.fileOffset, done, d, ch, j, grown)
    && SlotFirst(g, d, loc, ch) && OpenOn(f, loc, ch) && CursorOn(g, f, ch, j)
    && FileFrame(g, d0, d, loc, ch, j0, j) && ReservedKept(Fat(g, d0), Fat(g, d))
    && f.fileOffset == f0.fileOffset + |done|
    && f.fileSize == (if f.fileOffset > f0.fileSize then f.fileOffset else f0.fileSize)
    && f == f0.(currentCluster := f.currentCluster, clusterOffset := f.clusterOffset, firstCluster := f.firstCluster,
                fileOffset := f.fileOffset, fileSize := f.fileSize)
    && (!grown ==> Fat(g, d) == Fat(g, d0) && |done| <= Room(g, f0) && Room(g, f) == Room(g, f0) - |done|)
    && (grown ==> |done| >= Room(g, f0) && FreeSet(Fat(g, d0)) != {})
  }

  lemma ReadyChain(g: Geometry, d: Image, chains: map<Loc, seq<U16>>, lost: set<U16>, loc: Loc, home: int)
    requires Ready(g, d, chains, lost, loc, home)
    ensures IsChain(Fat(g, d), chains[loc]) && AllClusters(g, chains[loc]) && NoDup(chains[loc])
  {
  }

  lemma ProgressStart(g: Geometry, d: Image, ch: seq<U16>, j: int, f: OpenFile)
    requires g.Fits(d) && AllClusters(g, ch) && CursorOn(g, f, ch, j)
    ensures Progress(g, d, ch, j, f.fileOffset, [], d, ch, j, false)
  {
    ChainBytesLength(g, d, ch);
    if ch != [] { ChainBytesFrom(g, d, ch, j, f.clusterOffset); }
    assert ChainBytes(g, d, ch)[..f.fileOffset] + [] == ChainBytes(g, d, ch)[..f.fileOffset];
  }

  lemma WriteStart(g: Geometry, d: Image, chains: map<Loc, seq<U16>>, lost: set<U16>, loc: Loc, home: int, f: OpenFile,
                   j: int)
    requires Ready(g, d, chains, lost, loc, home) && OpenOn(f, loc, chains[loc])
    requires CursorOn(g, f, chains[loc], j) && SlotFirst(g, d, loc, chains[loc]) && f.fileOffset <= f.fileSize
    ensures WriteInv(g, d, d, chains, lost, loc, home, f, f, j, chains[loc], j, [], false)
  {
    hide Partition, Mirrored, IsChain, NoDup, AllClusters, Progress;
    var ch := chains[loc];
    assert chains[loc := ch] == chains;
    HomeOnDisk(g, d, home, loc.lba);
    ReadyChain(g, d, chains, lost, loc, home);
    ProgressStart(g, d, ch, j, f);
  }

  lemma ProgressFits(g: Geometry, d0: Image, ch0: seq<U16>, j0: int, off: nat, done: seq<Byte>, d: Image, ch: seq<U16>,
                     j: int, grown: bool)
    requires Progress(g, d0, ch0, j0, off, done, d, ch, j, grown)
    ensures g.Fits(d0) && g.Fits(d)
  {
  }

  lemma GrowKeeps(g: Geometry, d0: Image, d: Image, d2: Image, chains: map<Loc, seq<U16>>, lost: set<U16>, loc: Loc,
                  home: int,
                  f0: OpenFile, f: OpenFile, f2: OpenFile, j0: int, ch: seq<U16>, j: int, done: seq<Byte>, grown: bool)
    requires loc in chains && WriteInv(g, d0, d, chains, lost, loc, home, f0, f, j0, ch, j, done, grown)
    requires f.currentCluster == 0 || f.clusterOffset >= g.ClusterSize()
    requires FreeSet(Fat(g, d)) != {} && g.IsCluster(f2.currentCluster) && f2.currentCluster != home
    requires var ch2 := ch[..j + 1] + [f2.currentCluster];
             && Ready(g, d2, chains[loc := ch][loc := ch2], LostAfter(lost, chains[loc], j0, grown) + After(ch, j),
               loc, home)
             && OnlySlotAndFat(g, d, d2, loc) && SlotFirst(g, d2, loc, ch2) && SameClusters(g, d, d2, home)
             && ReservedKept(Fat(g, d), Fat(g, d2))
             && OpenOn(f2, loc, ch2) && CursorOn(g, f2, ch2, j + 1) && f2.clusterOffset == 0
             && f2 == f.(currentCluster := f2.currentCluster, clusterOffset := 0, firstCluster := f2.firstCluster)
    ensures WriteInv(g, d0, d2, chains, lost, loc, home, f0, f2, j0, ch[..j + 1] + [f2.currentCluster], j + 1, done,
      true)
  {
    hide Partition, Mirrored, Progress, FileFrame, OnlySlotAndFat, SameClusters, SlotFirst, Fat, ReservedKept;
    ProgressFits(g, d0, chains[loc], j0, f0.fileOffset, done, d, ch, j, grown);
    ReservedTrans(Fat(g, d0), Fat(g, d), Fat(g, d2));
    var ch2 := ch[..j + 1] + [f2.currentCluster];
    assert chains[loc := ch][loc := ch2] == chains[loc := ch2];
    assert LostAfter(lost, chains[loc], j0, grown) + After(ch, j) == LostAfter(lost, chains[loc], j0, true);
    if ch != [] { ChainBytesFull(g, j + 1); }
    GrowProgress(g, d0, chains[loc], j0, f0.fileOffset, done, d, ch, j, grown, d2, f2.currentCluster, home);
    FrameGrow(g, d0, d, d2, loc, ch, j0, j, f2.currentCluster);
  }

  lemma CursorMoves(g: Geometry, f: OpenFile, ch: seq<U16>, j: int, f2: OpenFile, n: nat)
    requires CursorOn(g, f, ch, j) && f.currentCluster != 0
    requires f2 == f.(fileOffset := f.fileOffset + n, clusterOffset := f.clusterOffset + n, fileSize := f2.fileSize)
    ensures 0 <= j < |ch| && f.currentCluster == ch[j] && f.fileOffset == j * g.ClusterSize() + f.clusterOffset
    ensures f2.clusterOffset <= g.ClusterSize() ==> CursorOn(g, f2, ch, j)
    ensures Room(g, f2) == Room(g, f) - n && Room(g, f) == g.ClusterSize() - f.clusterOffset
  {
  }

  lemma PartKeeps(g: Geometry, d0: Image, d: Image, d2: Image, chains: map<Loc, seq<U16>>, lost: set<U16>, loc: Loc,
                  home: int,
                  f0: OpenFile, f: OpenFile, f2: OpenFile, j0: int, ch: seq<U16>, j: int, done: seq<Byte>, grown: bool,
                    chunk: seq<Byte>)
    requires loc in chains && WriteInv(g, d0, d, chains, lost, loc, home, f0, f, j0, ch, j, done, grown)
    requires f.currentCluster != 0 && f.clusterOffset < g.ClusterSize() && f.clusterOffset % 512 + |chunk| <= 512
    requires var lba := g.ClusterLba(f.currentCluster) + f.clusterOffset / 512;
             lba < |d| && d2 == d[lba := Splice(d[lba], f.clusterOffset % 512, chunk)]
    requires f2 == f.(fileOffset := f.fileOffset + |chunk|, clusterOffset := f.clusterOffset + |chunk|,
                      fileSize := f2.fileSize)
    requires f2.fileSize == if f.fileOffset + |chunk| > f.fileSize then f.fileOffset + |chunk| else f.fileSize
    ensures WriteInv(g, d0, d2, chains, lost, loc, home, f0, f2, j0, ch, j, done + chunk, grown)
  {
    hide *;
    WriteParts(g, d0, d, chains, lost, loc, home, f0, f, j0, ch, j, done, grown);
    CursorMoves(g, f, ch, j, f2, |chunk|);
    var lost2 := LostAfter(lost, chains[loc], j0, grown);
    ReadyChain(g, d, chains[loc := ch], lost2, loc, home);
    ClusterAt(g, ch, j);
    var lba := g.ClusterLba(f.currentCluster) + f.clusterOffset / 512;
    PatchFile(g, d, ch, j, f.clusterOffset, chunk, lba, f.fileOffset, d2);
    PartProgress(g, d0, chains[loc], j0, f0.fileOffset, done, d, ch, j, grown, d2, chunk);
    NotHome(g, d, chains[loc := ch], lost2, loc, home, j);
    HomeApart(g, home, loc.lba, ch[j], lba);
    FramePart(g, d0, d, loc, ch, j0, j, lba, d2[lba]);
    ReadyStays(g, d, d2, chains[loc := ch], lost2, loc, home);
    SlotStays(g, d, lba, d2[lba], loc, ch);
    PartIntro(g, d0, d, d2, chains, lost, loc, home, f0, f, f2, j0, ch, j, done, grown, chunk);
  }

  lemma WriteParts(g: Geometry, d0: Image, d: Image, chains: map<Loc, seq<U16>>, lost: set<U16>, loc: Loc, home: int,
                   f0: OpenFile, f: OpenFile, j0: int, ch: seq<U16>, j: int, done: seq<Byte>, grown: bool)
    requires loc in chains && WriteInv(g, d0, d, chains, lost, loc, home, f0, f, j0, ch, j, done, grown)
    ensures -1 <= j0 <= j < |ch| && Ready(g, d, chains[loc := ch], LostAfter(lost, chains[loc], j0, grown), loc, home)
    ensures Progress(g, d0, chains[loc], j0, f0.fileOffset, done, d, ch, j, grown) && SlotFirst(g, d, loc, ch)
    ensures CursorOn(g, f, ch, j) && FileFrame(g, d0, d, loc, ch, j0, j) && f.fileOffset == f0.fileOffset + |done|
    ensures g.Fits(d)
  {
    hide Partition, Mirrored, Progress, FileFrame, Fat, CursorOn, LostAfter, ReservedKept, FreeSet, Room;
  }

  lemma ClusterAt(g: Geometry, ch: seq<U16>, j: nat)
    requires AllClusters(g, ch) && j < |ch|
    ensures ch[j] >= 2
  {
  }

  lemma NotHome(g: Geometry, d: Image, chains: map<Loc, seq<U16>>, lost: set<U16>, loc: Loc, home: int, j: nat)
    requires Ready(g, d, chains, lost, loc, home) && j < |chains[loc]|
    ensures chains[loc][j] != home && HomeOf(g, home, loc.lba)
  {
    hide Partition, Mirrored, Fat, HomeOf;
  }

  lemma ReadyStays(g: Geometry, d: Image, d2: Image, chains: map<Loc, seq<U16>>, lost: set<U16>, loc: Loc, home: int)
    requires Ready(g, d, chains, lost, loc, home) && g.Fits(d) && g.Fits(d2)
    requires Fat(g, d2) == Fat(g, d) && Mirrored(g, d2) == Mirrored(g, d)
    ensures Ready(g, d2, chains, lost, loc, home)
  {
    hide Partition, Mirrored, Fat, HomeOf;
  }

  lemma SlotStays(g: Geometry, d: Image, lba: nat, buf: Sector, loc: Loc, ch: seq<U16>)
    requires SlotFirst(g, d, loc, ch) && lba < |d| && lba != loc.lba
    ensures SlotFirst(g, d[lba := buf], loc, ch)
  {
    hide EntryFirst;
  }

  lemma PartIntro(g: Geometry, d0: Image, d: Image, d2: Image, chains: map<Loc, seq<U16>>, lost: set<U16>, loc: Loc,
                  home: int, f0: OpenFile, f: OpenFile, f2: OpenFile, j0: int, ch: seq<U16>, j: int, done: seq<Byte>,
                  grown: bool, chunk: seq<Byte>)
    requires loc in chains && WriteInv(g, d0, d, chains, lost, loc, home, f0, f, j0, ch, j, done, grown)
    requires Ready(g, d2, chains[loc := ch], LostAfter(lost, chains[loc], j0, grown), loc, home)
    requires Progress(g, d0, chains[loc], j0, f0.fileOffset, done + chunk, d2, ch, j, grown)
    requires SlotFirst(g, d2, loc, ch) && CursorOn(g, f2, ch, j) && FileFrame(g, d0, d2, loc, ch, j0, j)
    requires g.Fits(d) && g.Fits(d2) && Fat(g, d2) == Fat(g, d) && Room(g, f2) == Room(g, f) - |chunk|
    requires f.clusterOffset + |chunk| <= g.ClusterSize() && Room(g, f) == g.ClusterSize() - f.clusterOffset
    requires f2 == f.(fileOffset := f.fileOffset + |chunk|, clusterOffset := f.clusterOffset + |chunk|,
                      fileSize := f2.fileSize)
    requires f2.fileSize == if f.fileOffset + |chunk| > f.fileSize then f.fileOffset + |chunk| else f.fileSize
    ensures WriteInv(g, d0, d2, chains, lost, loc, home, f0, f2, j0, ch, j, done + chunk, grown)
  {
    hide Partition, Mirrored, Progress, FileFrame, Fat, SlotFirst, FreeSet, LostAfter, ReservedKept, CursorOn, Room,
         HomeOf, Ready;
  }

  /** fat_write's loop. */
  method WriteLoop(g: Geometry, disk: Disk, f0: OpenFile, data: seq<Byte>,
                   ghost chains: map<Loc, seq<U16>>, ghost lost: set<U16>, ghost loc: Loc, ghost home: int,
                     ghost j0: int)
    returns (f: OpenFile, w: nat, ghost ch: seq<U16>, ghost j: int, ghost grown: bool)
    requires Ready(g, disk.sectors, chains, lost, loc, home) && OpenOn(f0, loc, chains[loc])
    requires CursorOn(g, f0, chains[loc], j0) && SlotFirst(g, disk.sectors, loc, chains[loc])
    requires f0.fileOffset <= f0.fileSize
    modifies disk
    ensures w <= |data|
    ensures WriteInv(g, old(disk.sectors), disk.sectors, chains, lost, loc, home, f0, f, j0, ch, j, data[..w], grown)
    ensures w < |data| ==> FreeSet(Fat(g, disk.sectors)) == {}
    ensures grown <==> |data| > Room(g, f0) && FreeSet(Fat(g, old(disk.sectors))) != {}
    ensures grown ==> f.clusterOffset > 0
  {
    hide WriteInv, Ready, OpenOn, CursorOn, SlotFirst, OnlySlotAndFat, SameClusters, Fat, FreeSet, Splice, LostAfter,
         ReservedKept;
    ghost var d0 := disk.sectors;
    InChains(g, d0, chains, lost, loc, home);
    f, w, ch, j, grown := f0, 0, chains[loc], j0, false;
    WriteStart(g, d0, chains, lost, loc, home, f0, j0);
    while w < |data|
      invariant 0 <= w <= |data|
      invariant WriteInv(g, d0, disk.sectors, chains, lost, loc, home, f0, f, j0, ch, j, data[..w], grown)
      invariant grown ==> |data| > Room(g, f0) && f.clusterOffset > 0
      decreases |data| - w
    {
      WriteFacts(g, d0, disk.sectors, chains, lost, loc, home, f0, f, j0, ch, j, data[..w], grown);
      if f.currentCluster == 0 || f.clusterOffset >= g.spc * 512 {
        ghost var d1, f1, ch1 := disk.sectors, f, ch;
        var ok;
        ok, f, ch := Grow(g, disk, f, chains[loc := ch], LostAfter(lost, chains[loc], j0, grown), loc, home, j);
        if !ok {
          return;
        }
        GrowKeeps(g, d0, d1, disk.sectors, chains, lost, loc, home, f0, f1, f, j0, ch1, j, data[..w], grown);
        j, grown := j + 1, true;
        WriteFacts(g, d0, disk.sectors, chains, lost, loc, home, f0, f, j0, ch, j, data[..w], grown);
      }
      ghost var d1, f1 := disk.sectors, f;
      var n;
      f, n := WritePart(g, disk, f, data[w..]);
      SliceTwice(data, w, n);
      SliceJoin(data, w, n);
      PartKeeps(g, d0, d1, disk.sectors, chains, lost, loc, home, f0, f1, f, j0, ch, j, data[..w], grown,
                data[w..w + n]);
      w := w + n;
    }
    WriteFacts(g, d0, disk.sectors, chains, lost, loc, home, f0, f, j0, ch, j, data[..w], grown);
  }

  lemma InChains(g: Geometry, d: Image, chains: map<Loc, seq<U16>>, lost: set<U16>, loc: Loc, home: int)
    requires Ready(g, d, chains, lost, loc, home)
    ensures loc in chains && 0 < g.ClusterSize()
  {
  }

  /** What fat_write's loop needs to know of its state. */
  lemma WriteFacts(g: Geometry, d0: Image, d: Image, chains: map<Loc, seq<U16>>, lost: set<U16>, loc: Loc, home: int,
                   f0: OpenFile, f: OpenFile, j0: int, ch: seq<U16>, j: int, done: seq<Byte>, grown: bool)
    requires loc in chains && WriteInv(g, d0, d, chains, lost, loc, home, f0, f, j0, ch, j, done, grown)
    ensures Ready(g, d, chains[loc := ch], LostAfter(lost, chains[loc], j0, grown), loc, home) && OpenOn(f, loc, ch)
    ensures CursorOn(g, f, ch, j) && SlotFirst(g, d, loc, ch) && -1 <= j < |ch| && g.Fits(d0) && g.Fits(d)
    ensures f.currentCluster == 0 <==> ch == []
    ensures ch != [] ==> g.IsCluster(f.currentCluster)
    ensures !grown ==> Fat(g, d) == Fat(g, d0) && |done| <= Room(g, f0) && Room(g, f) == Room(g, f0) - |done|
    ensures grown ==> |done| >= Room(g, f0) && FreeSet(Fat(g, d0)) != {}
  {
    ReadyChain(g, d, chains[loc := ch], LostAfter(lost, chains[loc], j0, grown), loc, home);
    hide Partition, Mirrored, FileFrame, Fat, IsChain, NoDup, LostAfter, ChainBytes, ReservedKept;
  }

  // ------------------------------------------------------------------------------ fat_write

  lemma SizeFits(g: Geometry, d: Image, ch: seq<U16>)
    requires g.Fits(d) && IsChain(Fat(g, d), ch)
    ensures |ch| * g.ClusterSize() < 0x1_0000_0000
  {
    ChainFits(Fat(g, d), ch);
    Product(|ch|, 0xFEFE, g.ClusterSize(), 0x1_0000);
  }

  lemma Product(a: nat, a1: nat, b: nat, b1: nat)
    requires a <= a1 && b <= b1
    ensures a * b <= a1 * b1
  {
    assert a * b <= a1 * b;
    assert a1 * b <= a1 * b1;
  }

  /** Storing the size touches only the directory slot. */
  lemma StoreSize(g: Geometry, d0: Image, d: Image, chains: map<Loc, seq<U16>>, lost: set<U16>, loc: Loc, home: int,
                  f0: OpenFile, f: OpenFile, j0: int, ch: seq<U16>, j: int, done: seq<Byte>, grown: bool, size: nat)
    requires loc in chains && WriteInv(g, d0, d, chains, lost, loc, home, f0, f, j0, ch, j, done, grown)
    requires size < 0x1_0000_0000
    ensures g.rootStart <= loc.lba < |d|
    ensures var d2 := d[loc.lba := PutSize(d[loc.lba], loc.idx, size)];
            && WriteInv(g, d0, d2, chains, lost, loc, home, f0, f, j0, ch, j, done, grown)
            && EntrySize(d2[loc.lba], loc.idx) == size
  {
    hide Partition, Mirrored, Fat, IsChain, NoDup, HomeOf, Used, Progress, FileFrame, ReservedKept;
    HomeOnDisk(g, d, home, loc.lba);
    var d2 := d[loc.lba := PutSize(d[loc.lba], loc.idx, size)];
    HomeFrame(g, d, home, loc.lba, d2[loc.lba]);
    ReadyChain(g, d, chains[loc := ch], LostAfter(lost, chains[loc], j0, grown), loc, home);
    ChainBytesFrame(g, d, d2, ch);
    ProgressFrame(g, d0, chains[loc], j0, f0.fileOffset, done, d, ch, j, grown, d2);
    FrameSlot(g, d0, d, loc, ch, j0, j, d2[loc.lba]);
  }

  lemma ProgressFrame(g: Geometry, d0: Image, ch0: seq<U16>, j0: int, off: nat, done: seq<Byte>,
                      d: Image, ch: seq<U16>, j: int, grown: bool, d2: Image)
    requires Progress(g, d0, ch0, j0, off, done, d, ch, j, grown)
    requires g.Fits(d2) && ChainBytes(g, d2, ch) == ChainBytes(g, d, ch)
    ensures Progress(g, d0, ch0, j0, off, done, d2, ch, j, grown)
  {
  }

  lemma FrameSlot(g: Geometry, d0: Image, d: Image, loc: Loc, ch: seq<U16>, lo: int, hi: int, buf: Sector)
    requires FileFrame(g, d0, d, loc, ch, lo, hi) && OnlyLinksChanged(d[loc.lba], buf, loc.idx)
    ensures FileFrame(g, d0, d[loc.lba := buf], loc, ch, lo, hi)
  {
  }

  predicate WritableFd(files: seq<OpenFile>, fd: int) {
    ValidFd(files, fd) && files[fd - FAT_FD_BASE].writable
  }

  /** fat_write. */
  method Write(g: Geometry, disk: Disk, files: array<OpenFile>, fd: int, data: seq<Byte>,
               ghost chains: map<Loc, seq<U16>>, ghost lost: set<U16>, ghost loc: Loc, ghost home: int, ghost j0: int)
    returns (r: int, ghost ch: seq<U16>, ghost j: int, ghost grown: bool)
    requires files.Length == MAX_OPEN_FILES
    requires WritableFd(files[..], fd) ==>
      var f := files[fd - FAT_FD_BASE];
      && Ready(g, disk.sectors, chains, lost, loc, home) && OpenOn(f, loc, chains[loc])
      && CursorOn(g, f, chains[loc], j0) && SlotFirst(g, disk.sectors, loc, chains[loc])
      && f.fileOffset <= f.fileSize < 0x1_0000_0000
    modifies disk, files
    ensures !WritableFd(old(files[..]), fd) ==>
      r == -1 && disk.sectors == old(disk.sectors) && files[..] == old(files[..])
    ensures WritableFd(old(files[..]), fd) ==>
      var i := fd - FAT_FD_BASE;
      && 0 <= r <= |data|
      && WriteInv(g, old(disk.sectors), disk.sectors, chains, lost, loc, home, old(files[i]), files[i], j0, ch, j,
        data[..r], grown)
      && EntrySize(disk.sectors[loc.lba], loc.idx) == files[i].fileSize
      && (r < |data| ==> FreeSet(Fat(g, disk.sectors)) == {})
      && (grown <==> |data| > Room(g, old(files[i])) && FreeSet(Fat(g, old(disk.sectors))) != {})
      && (grown ==> files[i].clusterOffset > 0)
      && files[..] == old(files[..])[i := files[i]]
  {
    var index := fd - FAT_FD_BASE;
    ch, j, grown := [], -1, false;
    if index < 0 || index >= MAX_OPEN_FILES || !files[index].inUse || !files[index].writable {
      return -1, ch, j, grown;
    }
    hide Partition, Mirrored, Fat, IsChain, NoDup, Progress, FileFrame;
    ghost var d0, f0 := disk.sectors, files[index];
    var f, w;
    f, w, ch, j, grown := WriteLoop(g, disk, files[index], data, chains, lost, loc, home, j0);
    files[index] := f;
    WrittenSize(g, d0, disk.sectors, chains, lost, loc, home, f0, f, j0, ch, j, data[..w], grown);
    StoreSize(g, d0, disk.sectors, chains, lost, loc, home, f0, f, j0, ch, j, data[..w], grown, f.fileSize);
    SizeOnlyInSlot(g, disk.sectors, home, loc, f.fileSize);
    var sectorBuf := disk.sectors[f.dirSector];
    disk.sectors := disk.sectors[f.dirSector := PutSize(sectorBuf, f.dirOffset, f.fileSize)];
    r := w;
  }

  lemma SizeOnlyInSlot(g: Geometry, d: Image, home: int, loc: Loc, size: nat)
    requires g.Fits(d) && HomeOf(g, home, loc.lba) && loc.idx < 16 && size < 0x1_0000_0000
    ensures loc.lba < |d|
    ensures var d2 := d[loc.lba := PutSize(d[loc.lba], loc.idx, size)];
            g.Fits(d2) && Fat(g, d2) == Fat(g, d)
  {
    HomeOnDisk(g, d, home, loc.lba);
    HomeFrame(g, d, home, loc.lba, PutSize(d[loc.lba], loc.idx, size));
  }

  /** The file size stays a 32-bit number. */
  lemma WrittenSize(g: Geometry, d0: Image, d: Image, chains: map<Loc, seq<U16>>, lost: set<U16>, loc: Loc, home: int,
                    f0: OpenFile, f: OpenFile, j0: int, ch: seq<U16>, j: int, done: seq<Byte>, grown: bool)
    requires loc in chains && WriteInv(g, d0, d, chains, lost, loc, home, f0, f, j0, ch, j, done, grown)
    requires f0.fileSize < 0x1_0000_0000
    ensures f.fileSize < 0x1_0000_0000
  {
    hide Partition, Mirrored, Fat, IsChain, NoDup, FileFrame;
    ReadyChain(g, d, chains[loc := ch], LostAfter(lost, chains[loc], j0, grown), loc, home);
    SizeFits(g, d, ch);
    ChainBytesLength(g, d, ch);
  }

  // --------------------------------------------------------- what a write means for the file

  /** Content with data written over it from position at on, growing at the end if needed. */
  function Overwrite(content: seq<Byte>, at: nat, data: seq<Byte>): (r: seq<Byte>)
    requires at <= |content|
    ensures at == |content| ==> r == content + data
  {
    content[..at] + data + if at + |data| < |content| then content[at + |data|..] else []
  }

  lemma WriteTight(g: Geometry, d0: Image, d: Image, chains: map<Loc, seq<U16>>, lost: set<U16>, loc: Loc, home: int,
                   f0: OpenFile, f: OpenFile, j0: int, ch: seq<U16>, j: int, done: seq<Byte>, grown: bool)
    requires loc in chains && WriteInv(g, d0, d, chains, lost, loc, home, f0, f, j0, ch, j, done, grown)
    requires CursorOn(g, f0, chains[loc], j0) && f0.fileOffset <= f0.fileSize && Tight(g, chains[loc], f0.fileSize)
    requires grown ==> f.clusterOffset > 0
    requires !grown || j0 == |chains[loc]| - 1
    ensures Tight(g, ch, f.fileSize)
    ensures grown ==> f.fileSize == f.fileOffset >= f0.fileSize
  {
    hide Partition, Mirrored, Fat, FileFrame, HomeOf, Ready;
    var ch0, size := chains[loc], g.ClusterSize();
    ChainBytesLength(g, d, ch);
    if grown {
      assert |ch0| <= |ch| - 1;
      Product(|ch0|, |ch| - 1, size, size);
      assert f.fileOffset == (|ch| - 1) * size + f.clusterOffset;
    }
  }

  /** A write that stays in its cluster or starts in the last one overwrites exactly the
      reported bytes of the content, growing it at the end, and keeps the chain tight. */
  lemma WriteContent(g: Geometry, d0: Image, d: Image, chains: map<Loc, seq<U16>>, lost: set<U16>, loc: Loc, home: int,
                     f0: OpenFile, f: OpenFile, j0: int, ch: seq<U16>, j: int, done: seq<Byte>, grown: bool)
    requires loc in chains && WriteInv(g, d0, d, chains, lost, loc, home, f0, f, j0, ch, j, done, grown)
    requires CursorOn(g, f0, chains[loc], j0) && f0.fileOffset <= f0.fileSize && Tight(g, chains[loc], f0.fileSize)
    requires grown ==> f.clusterOffset > 0
    requires !grown || j0 == |chains[loc]| - 1
    ensures g.Fits(d0) && AllClusters(g, chains[loc]) && g.Fits(d) && AllClusters(g, ch)
    ensures Tight(g, ch, f.fileSize)
    ensures Content(g, d, ch, f.fileSize) == Overwrite(Content(g, d0, chains[loc], f0.fileSize), f0.fileOffset, done)
  {
    hide Partition, Mirrored, Fat, FileFrame, HomeOf, Ready, SlotFirst, OpenOn, ChainBytes, Overwrite, Tight, Room,
         ReservedKept;
    WriteTight(g, d0, d, chains, lost, loc, home, f0, f, j0, ch, j, done, grown);
    var b0, b, off := ChainBytes(g, d0, chains[loc]), ChainBytes(g, d, ch), f0.fileOffset;
    ChainBytesLength(g, d0, chains[loc]);
    ChainBytesLength(g, d, ch);
    TightSize(g, chains[loc], f0.fileSize);
    TightSize(g, ch, f.fileSize);
    Overwritten(b0, b, off, done, f0.fileSize, f.fileSize);
  }

  lemma TightSize(g: Geometry, ch: seq<U16>, size: nat)
    requires Tight(g, ch, size)
    ensures size <= |ch| * g.ClusterSize()
  {
  }

  /** Two runs of bytes that agree before the data, and behind it if anything is left there. */
  lemma Overwritten(b0: seq<Byte>, b: seq<Byte>, off: nat, done: seq<Byte>, size0: nat, size: nat)
    requires off <= size0 <= |b0| && size <= |b| && size == if off + |done| > size0 then off + |done| else size0
    requires b[..off + |done|] == b0[..off] + done
    requires off + |done| < size0 ==> |b| == |b0| && b[off + |done|..] == b0[off + |done|..]
    ensures b[..size] == Overwrite(b0[..size0], off, done)
  {
    var end := off + |done|;
    assert b0[..size0][..off] == b0[..off];
    if end < size0 {
      assert b[..size] == b[..end] + b[end..size];
      assert b[end..size] == b[end..][..size - end] && b0[end..size] == b0[end..][..size - end];
      assert b0[..size0][end..] == b0[end..size0];
    } else {
      assert b[..size] == b0[..off] + done;
    }
  }

  /** A write loses clusters exactly when it leaves a cluster that is not the last one. */
  lemma LostExactly(f: seq<U16>, chains: map<Loc, seq<U16>>, lost: set<U16>, loc: Loc, j0: int, grown: bool)
    requires Partition(f, chains, lost) && loc in chains && -1 <= j0 < |chains[loc]|
    ensures LostAfter(lost, chains[loc], j0, grown) == lost <==> !grown || j0 == |chains[loc]| - 1
  {
    var ch := chains[loc];
    if grown && j0 < |ch| - 1 {
      assert ch[j0 + 1] in After(ch, j0);
      assert Owned(chains, ch[j0 + 1]);
    }
  }
}
