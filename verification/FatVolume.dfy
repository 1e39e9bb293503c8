/**
  The mounted volume and its calls: path resolution, opening for writing, writing, reading
  whole files, making directories and closing descriptors.
*/
module FatVolume {
  import opened Common
  import opened FatDisk
  import opened FatChains
  import opened FatRead
  import opened FatWrite
  import opened FatDirs
  import opened FatCatalog

  // -------------------------------------------------------------------- files by their slot

  ghost predicate IsFile(d: Image, cat: Catalog, loc: Loc) {
    loc in cat && LocOnDisk(d, loc) && !IsDirectory(SlotAt(d, loc))
  }

  ghost predicate TightFile(g: Geometry, d: Image, cat: Catalog, loc: Loc) {
    IsFile(d, cat, loc) && AllClusters(g, cat[loc]) && Tight(g, cat[loc], EntrySize(d[loc.lba], loc.idx))
  }

  /** The content of the file with directory slot loc. */
  ghost function FileBytes(g: Geometry, d: Image, cat: Catalog, loc: Loc): (s: seq<Byte>)
    requires g.Fits(d) && TightFile(g, d, cat, loc)
  {
    Content(g, d, cat[loc], EntrySize(d[loc.lba], loc.idx))
  }

  /** Every file outside the given set is still there, with the same content, and the reserved
      clusters are still marked. */
  ghost predicate FilesKept(g: Geometry, d: Image, cat: Catalog, d2: Image, cat2: Catalog, except: set<Loc>) {
    && g.Fits(d) && g.Fits(d2) && ReservedKept(Fat(g, d), Fat(g, d2))
    && forall at :: TightFile(g, d, cat, at) && at !in except ==>
      TightFile(g, d2, cat2, at) && cat2[at] == cat[at] && FileBytes(g, d2, cat2, at) == FileBytes(g, d, cat, at)
  }

  lemma FileKept(g: Geometry, d: Image, cat: Catalog, d2: Image, cat2: Catalog, at: Loc)
    requires g.Fits(d) && g.Fits(d2) && TightFile(g, d, cat, at)
    requires at in cat2 && cat2[at] == cat[at] && LocOnDisk(d2, at) && SlotAt(d2, at) == SlotAt(d, at)
    requires forall i :: 0 <= i < |cat[at]| ==> ClusterBytes(g, d2, cat[at][i]) == ClusterBytes(g, d, cat[at][i])
    ensures TightFile(g, d2, cat2, at) && FileBytes(g, d2, cat2, at) == FileBytes(g, d, cat, at)
  {
    LinksInSlot(d[at.lba], d2[at.lba], at.idx);
    ChainBytesFrame(g, d, d2, cat[at]);
  }

  lemma ClusterKept(g: Geometry, d: Image, d2: Image, c: int)
    requires g.Fits(d) && g.Fits(d2) && |d2| == |d| && g.IsCluster(c)
    requires forall l :: Inside(g, c, l) && 0 <= l < |d| ==> d2[l] == d[l]
    ensures ClusterBytes(g, d2, c) == ClusterBytes(g, d, c)
  {
    forall i | 0 <= i < g.ClusterSize() ensures ClusterByte(g, d2, c, i) == ClusterByte(g, d, c, i) {
      ClusterSectors(g, d, c, i / 512);
      assert Inside(g, c, g.ClusterLba(c) + i / 512);
    }
  }

  /** The directory sector of an entry: its home is no cluster of a file. */
  lemma EntryHome(g: Geometry, d: Image, cat: Catalog, lost: set<U16>, loc: Loc) returns (home: int)
    requires WellFormed(g, d, cat, lost) && loc in cat
    ensures LocOnDisk(d, loc) && HomeOf(g, home, loc.lba) && (home != 0 ==> Used(Fat(g, d), home))
    ensures forall at :: IsFile(d, cat, at) ==> home !in cat[at]
  {
    assert EntryOk(g, d, cat, loc);
    var dir :| IsDir(d, cat, dir) && loc.lba in LbasOf(g, cat, dir);
    home := LbaHome(g, d, cat, lost, dir, loc.lba);
    forall at | IsFile(d, cat, at) ensures home !in cat[at] {
      assert at != loc ==> AllClusters(g, cat[at]);
      assert dir.Sub? ==> dir.loc != at;
    }
  }

  // ------------------------------------------------------------- what fat_write does to it all

  /** Directory sectors other than the file's own slot are untouched by a write. */
  lemma WriteKeepsDirs(g: Geometry, d: Image, cat: Catalog, lost: set<U16>, d2: Image, ch2: seq<U16>, lost2: set<U16>,
                       loc: Loc, lo: int, hi: int)
    requires WellFormed(g, d, cat, lost) && IsFile(d, cat, loc)
    requires Base(g, d2, cat[loc := ch2], lost2) && FileFrame(g, d, d2, loc, ch2, lo, hi)
    ensures DirSectorsKept(g, d, d2, cat, loc)
  {
    hide Mirrored, Fat, DirOk, EntryOk, LbasOf, IsChain;
    forall dir, l | IsDir(d, cat, dir) && l in LbasOf(g, cat, dir) && l != loc.lba && l < |d| ensures d2[l] == d[l] {
      var home := LbaHome(g, d, cat, lost, dir, l);
      NotInFile(g, ch2, lo, hi, l, home, cat[loc := ch2], loc, dir);
    }
  }

  lemma NotInFile(g: Geometry, ch2: seq<U16>, lo: int, hi: int, l: nat, home: int, cat2: Catalog, loc: Loc, dir: DirRef)
    requires loc in cat2 && cat2[loc] == ch2 && AllClusters(g, ch2) && Disjoint(cat2) && HomeOf(g, home, l)
    requires dir != Sub(loc) && (home == 0 <==> dir.Root?) && (dir.Sub? ==> dir.loc in cat2 && home in cat2[dir.loc])
    ensures !InFile(g, ch2, lo, hi, l)
  {
    forall i | 0 <= i < |ch2| && Inside(g, ch2[i], l) ensures ch2[i] == home {
      InsideHome(g, home, l, ch2[i]);
    }
    HomeNotInChain(g, home, cat2, loc, dir);
  }

  lemma HomeNotInChain(g: Geometry, home: int, cat2: Catalog, loc: Loc, dir: DirRef)
    requires loc in cat2 && AllClusters(g, cat2[loc]) && Disjoint(cat2)
    requires dir != Sub(loc) && (home == 0 <==> dir.Root?) && (dir.Sub? ==> dir.loc in cat2 && home in cat2[dir.loc])
    ensures home !in cat2[loc]
  {
  }

  /** Other files' clusters are untouched by a write. */
  lemma WriteKeepsFiles(g: Geometry, d: Image, cat: Catalog, lost: set<U16>, d2: Image, ch2: seq<U16>, lost2: set<U16>,
                        loc: Loc, home: int, lo: int, hi: int, at: Loc, c: U16)
    requires Base(g, d, cat, lost) && Base(g, d2, cat[loc := ch2], lost2) && FileFrame(g, d, d2, loc, ch2, lo, hi)
    requires loc in cat && at in cat && at != loc && c in cat[at] && HomeOf(g, home, loc.lba) && home != c
    ensures ClusterBytes(g, d2, c) == ClusterBytes(g, d, c)
  {
    hide Mirrored, Fat, IsChain;
    FatSectorsOnDisk(g, d);
    forall l | Inside(g, c, l) && 0 <= l < |d| ensures d2[l] == d[l] {
      HomeApart(g, home, loc.lba, c, l);
      NotInFile(g, ch2, lo, hi, l, c, cat[loc := ch2], loc, Sub(at));
    }
    ClusterKept(g, d, d2, c);
  }

  /** Whatever fat_write did, the volume is well formed with the new chain, every other file
      keeps its content and every directory its names. */
  lemma WriteOnVolume(g: Geometry, d: Image, cat: Catalog, lost: set<U16>, loc: Loc, home: int, d2: Image,
                      f0: OpenFile, f: OpenFile, j0: int, ch2: seq<U16>, j: int, done: seq<Byte>, grown: bool)
    requires WellFormed(g, d, cat, lost) && IsFile(d, cat, loc) && HomeOf(g, home, loc.lba)
    requires forall at :: IsFile(d, cat, at) ==> home !in cat[at]
    requires WriteInv(g, d, d2, cat, lost, loc, home, f0, f, j0, ch2, j, done, grown)
    ensures WellFormed(g, d2, cat[loc := ch2], LostAfter(lost, cat[loc], j0, grown))
    ensures SameDirectories(g, d, cat, d2, cat[loc := ch2]) && FilesKept(g, d, cat, d2, cat[loc := ch2], {loc})
    ensures IsFile(d2, cat[loc := ch2], loc)
  {
    var lost2, cat2 := LostAfter(lost, cat[loc], j0, grown), cat[loc := ch2];
    hide Partition, Mirrored, Fat, DirOk, EntryOk, Progress, FileFrame, SameDirectories, FilesKept, WellFormed,
         DirSectorsKept, ReservedKept;
    WellFormedBase(g, d, cat, lost);
    BaseFromPartition(g, d2, cat2, lost2);
    WriteKeepsDirs(g, d, cat, lost, d2, ch2, lost2, loc, j0, j);
    UpdateFile(g, d, cat, lost, d2, ch2, lost2, loc);
    SameDirKind(g, d, cat, d2, cat2, loc);
    WriteKeepsOthers(g, d, cat, lost, d2, ch2, lost2, loc, home, j0, j);
  }

  lemma WellFormedBase(g: Geometry, d: Image, cat: Catalog, lost: set<U16>)
    requires WellFormed(g, d, cat, lost)
    ensures Base(g, d, cat, lost)
  {
  }

  lemma WriteKeepsOthers(g: Geometry, d: Image, cat: Catalog, lost: set<U16>, d2: Image, ch2: seq<U16>, lost2: set<U16>,
                         loc: Loc, home: int, lo: int, hi: int)
    requires Base(g, d, cat, lost) && Base(g, d2, cat[loc := ch2], lost2) && FileFrame(g, d, d2, loc, ch2, lo, hi)
    requires ReservedKept(Fat(g, d), Fat(g, d2))
    requires loc in cat && HomeOf(g, home, loc.lba) && forall at :: IsFile(d, cat, at) ==> home !in cat[at]
    requires forall at :: at in cat ==>
      LocOnDisk(d, at) && LocOnDisk(d2, at) && (at != loc ==> SlotAt(d2, at) == SlotAt(d, at))
    ensures FilesKept(g, d, cat, d2, cat[loc := ch2], {loc})
  {
    hide Partition, Mirrored, Fat, FileFrame, Content, HomeOf, ReservedKept;
    var cat2 := cat[loc := ch2];
    forall at | TightFile(g, d, cat, at) && at != loc
      ensures TightFile(g, d2, cat2, at) && FileBytes(g, d2, cat2, at) == FileBytes(g, d, cat, at)
    {
      forall i | 0 <= i < |cat[at]| ensures ClusterBytes(g, d2, cat[at][i]) == ClusterBytes(g, d, cat[at][i]) {
        WriteKeepsFiles(g, d, cat, lost, d2, ch2, lost2, loc, home, lo, hi, at, cat[at][i]);
      }
      FileKept(g, d, cat, d2, cat2, at);
    }
  }

  lemma SameDirKind(g: Geometry, d: Image, cat: Catalog, d2: Image, cat2: Catalog, loc: Loc)
    requires SameDirectories(g, d, cat, d2, cat2) && IsFile(d, cat, loc) && loc in cat2 && LocOnDisk(d2, loc)
    ensures IsFile(d2, cat2, loc)
  {
    assert IsDir(d2, cat2, Sub(loc)) <==> IsDir(d, cat, Sub(loc));
  }

  // -------------------------------------------------------------------------------- paths

  const MAX_COMPONENT := 48

  /** Position of the first slash, or the length. */
  function SlashAt(path: seq<Byte>): (k: nat)
    ensures k <= |path| && SLASH !in path[..k] && (k < |path| ==> path[k] == SLASH)
  {
    if path == [] || path[0] == SLASH then 0
    else
      var k := SlashAt(path[1..]);
      assert path[..k + 1] == [path[0]] + path[1..][..k];
      k + 1
  }

  /** The next component, cut to the driver's buffer. */
  function Component(path: seq<Byte>): (c: seq<Byte>) {
    path[..Min(SlashAt(path), MAX_COMPONENT - 1)]
  }

  function AfterComponent(path: seq<Byte>): (r: seq<Byte>)
    ensures SlashAt(path) > 0 ==> |r| < |path|
  {
    if SlashAt(path) < |path| then path[SlashAt(path) + 1..] else []
  }

  lemma SlashIs(path: seq<Byte>, i: nat)
    requires i <= SlashAt(path) && (i == |path| || path[i] == SLASH)
    ensures i == SlashAt(path)
  {
    assert forall j :: 0 <= j < SlashAt(path) ==> path[j] in path[..SlashAt(path)];
  }

  /** fat_next_path_component. */
  method NextPathComponent(path: seq<Byte>) returns (len: nat, component: seq<Byte>, rest: seq<Byte>)
    ensures len == SlashAt(path) && component == Component(path) && rest == AfterComponent(path)
  {
    len := 0;
    while len < |path| && path[len] != SLASH
      invariant 0 <= len <= SlashAt(path)
    {
      len := len + 1;
    }
    SlashIs(path, len);
    component := path[..if len < MAX_COMPONENT - 1 then len else MAX_COMPONENT - 1];
    rest := if len < |path| then path[len + 1..] else path[len..];
  }

  /** Where a path leads: the directory that should hold its last component, and that
      component.  Every component before it must name a directory. */
  ghost function Resolve(g: Geometry, d: Image, cat: Catalog, dir: DirRef,
                         path: seq<Byte>): (r: Option<(DirRef, seq<Byte>)>)
    requires g.Fits(d) && CatClusters(g, cat)
    decreases |path|
  {
    if SlashAt(path) == 0 then None
    else if AfterComponent(path) == [] then Some((dir, Component(path)))
    else
      var found := Find(g, d, cat, dir, Component(path));
      if found.Some? && IsDir(d, cat, Sub(found.value)) then Resolve(g, d, cat, Sub(found.value), AfterComponent(path))
      else None
  }

  /** The slot that a name has in a directory. */
  ghost function Find(g: Geometry, d: Image, cat: Catalog, dir: DirRef, name: seq<Byte>): (r: Option<Loc>)
    requires g.Fits(d) && CatClusters(g, cat)
  {
    var i := Lookup(SlotsOf(g, d, cat, dir), name);
    if i == -1 then None else Some(SlotLoc(LbasOf(g, cat, dir), i))
  }

  lemma {:induction false} SlashBehind(c: seq<Byte>, rest: seq<Byte>)
    requires SLASH !in c
    ensures SlashAt(c) == |c| && SlashAt(c + [SLASH] + rest) == |c|
    decreases |c|
  {
    if c != [] {
      SlashBehind(c[1..], rest);
      assert (c + [SLASH] + rest)[1..] == c[1..] + [SLASH] + rest;
    }
  }

  /** Paths, a component at a time: the last one stays a name, with or without a slash behind it; any
      other must be a directory, in which the rest is resolved.  Of a component only 47 bytes are
      looked at, and an empty one is refused. */
  lemma PathStep(g: Geometry, d: Image, cat: Catalog, dir: DirRef, c: seq<Byte>, rest: seq<Byte>)
    requires g.Fits(d) && CatClusters(g, cat) && SLASH !in c
    ensures var name := if |c| <= 47 then c else c[..47];
            var found := Find(g, d, cat, dir, name);
            && (c == [] ==> Resolve(g, d, cat, dir, c + [SLASH] + rest) == None == Resolve(g, d, cat, dir, c))
            && (c != [] ==> Resolve(g, d, cat, dir, c) == Some((dir, name)) == Resolve(g, d, cat, dir, c + [SLASH]))
            && (c != [] && rest != [] ==>
                  Resolve(g, d, cat, dir, c + [SLASH] + rest)
                  == if found.Some? && IsDir(d, cat, Sub(found.value)) then Resolve(g, d, cat, Sub(found.value), rest)
                     else None)
  {
    hide Find, IsDir, CatClusters;
    SlashBehind(c, rest);
    SlashBehind(c, []);
    assert c + [SLASH] + [] == c + [SLASH];
    var p := c + [SLASH] + rest;
    assert p[|c| + 1..] == rest && p[..|c|] == c && c[..|c|] == c;
    assert |c| > 47 ==> p[..47] == c[..47] == (c + [SLASH])[..47];
    assert (c + [SLASH])[..|c|] == c;
  }

  /** A new entry of dir would be found under name. */
  ghost predicate Overtakes(g: Geometry, d: Image, cat: Catalog, dir: DirRef, name: seq<Byte>)
    requires g.Fits(d) && CatClusters(g, cat)
  {
    Overtaken(SlotsOf(g, d, cat, dir), name)
  }

  /** What is found is in the catalog; dot entries are never found. */
  lemma FoundInCatalog(g: Geometry, d: Image, cat: Catalog, lost: set<U16>, dir: DirRef, name: seq<Byte>)
    requires WellFormed(g, d, cat, lost) && IsDir(d, cat, dir)
    ensures Find(g, d, cat, dir, name).Some? ==> Find(g, d, cat, dir, name).value in cat
  {
    var slots := SlotsOf(g, d, cat, dir);
    var i := Lookup(slots, name);
    assert DirOk(g, d, cat, dir);
    if i != -1 {
      ScanHow(slots, name, 0, LfnReset());
      Name83NoDot(name);
      assert slots[i][0] == ShortName(slots[i])[0];
    }
  }

  /** A directory as the driver passes it around: a root flag and a first cluster. */
  ghost predicate Handle(cat: Catalog, dir: DirRef, isRoot: bool, first: U16) {
    && isRoot == dir.Root?
    && (dir.Sub? ==> dir.loc in cat && cat[dir.loc] != [] && first == cat[dir.loc][0])
  }

  lemma HandleChain(g: Geometry, d: Image, cat: Catalog, lost: set<U16>, dir: DirRef, isRoot: bool, first: U16)
    requires Base(g, d, cat, lost) && Handle(cat, dir, isRoot, first)
    ensures AllClusters(g, ChainOf(cat, dir))
    ensures !isRoot ==>
      IsChain(Fat(g, d), ChainOf(cat, dir)) && |ChainOf(cat, dir)| > 0 && ChainOf(cat, dir)[0] == first
  {
  }

  /** fat_find_entry_in_dir on a well-formed volume. */
  method FindEntry(g: Geometry, disk: Disk, isRoot: bool, first: U16, name: seq<Byte>, ghost cat: Catalog,
                   ghost lost: set<U16>, ghost dir: DirRef)
    returns (found: bool, lba: nat, idx: nat)
    requires WellFormed(g, disk.sectors, cat, lost) && IsDir(disk.sectors, cat, dir) && Handle(cat, dir, isRoot, first)
    ensures Find(g, disk.sectors, cat, dir, name) == if found then Some(Loc(lba, idx)) else None
    ensures found ==> Loc(lba, idx) in cat && LocOnDisk(disk.sectors, Loc(lba, idx))
  {
    FoundInCatalog(g, disk.sectors, cat, lost, dir, name);
    WellFormedBase(g, disk.sectors, cat, lost);
    HandleChain(g, disk.sectors, cat, lost, dir, isRoot, first);
    found, lba, idx := FindEntryInDir(g, disk, isRoot, first, name, ChainOf(cat, dir));
    if found {
      EntryFacts(g, disk.sectors, cat, lost, Loc(lba, idx));
    }
  }

  /** fat_resolve_parent. */
  method ResolveParent(g: Geometry, disk: Disk, path: seq<Byte>, ghost cat: Catalog, ghost lost: set<U16>)
    returns (ok: bool, isRoot: bool, first: U16, name: seq<Byte>, ghost dir: DirRef)
    requires WellFormed(g, disk.sectors, cat, lost)
    ensures ok <==> Resolve(g, disk.sectors, cat, Root, path).Some?
    ensures ok ==> Resolve(g, disk.sectors, cat, Root, path) == Some((dir, name))
    ensures ok ==> IsDir(disk.sectors, cat, dir) && Handle(cat, dir, isRoot, first) && name != []
  {
    WellFormedBase(g, disk.sectors, cat, lost);
    isRoot, first, name, dir := true, 0, [], Root;
    var p := path;
    while true
      invariant IsDir(disk.sectors, cat, dir) && Handle(cat, dir, isRoot, first)
      invariant Resolve(g, disk.sectors, cat, dir, p) == Resolve(g, disk.sectors, cat, Root, path)
      decreases |p|
    {
      hide Base, WellFormed, Find, Handle, IsDir, LocOnDisk;
      var len, component, rest := NextPathComponent(p);
      if len == 0 {
        return false, isRoot, first, name, dir;
      }
      if rest == [] {
        return true, isRoot, first, component, dir;
      }
      var found, lba, idx := FindEntry(g, disk, isRoot, first, component, cat, lost, dir);
      if !found {
        return false, isRoot, first, name, dir;
      }
      OnDiskLoc(disk.sectors, Loc(lba, idx));
      var isDirectory, head := ReadDirEntry(disk, lba, idx);
      SubHandle(g, disk.sectors, cat, lost, Loc(lba, idx));
      if !isDirectory {
        return false, isRoot, first, name, dir;
      }
      isRoot, first, dir := false, head, Sub(Loc(lba, idx));
      p := rest;
    }
  }

  lemma OnDiskLoc(d: Image, loc: Loc)
    requires LocOnDisk(d, loc)
    ensures loc.lba < |d| && loc.idx < 16
  {
  }

  /** The attribute and first cluster of a directory entry. */
  method ReadDirEntry(disk: Disk, lba: nat, idx: nat) returns (isDirectory: bool, first: U16)
    requires LocOnDisk(disk.sectors, Loc(lba, idx))
    ensures isDirectory == IsDirectory(SlotAt(disk.sectors, Loc(lba, idx)))
    ensures first == EntryFirst(disk.sectors[lba], idx)
  {
    isDirectory := IsDirectory(SlotIn(disk.sectors[lba], idx));
    first := EntryFirst(disk.sectors[lba], idx);
  }

  lemma SubHandle(g: Geometry, d: Image, cat: Catalog, lost: set<U16>, loc: Loc)
    requires WellFormed(g, d, cat, lost) && loc in cat && LocOnDisk(d, loc)
    ensures IsDirectory(SlotAt(d, loc)) <==> IsDir(d, cat, Sub(loc))
    ensures IsDirectory(SlotAt(d, loc)) ==> Handle(cat, Sub(loc), false, EntryFirst(d[loc.lba], loc.idx))
  {
    assert EntryOk(g, d, cat, loc);
  }

  // ------------------------------------------------------------- finding room in a directory

  /** Writing zeros over a whole cluster. */
  method ZeroCluster(g: Geometry, disk: Disk, c: U16, from: nat)
    requires g.Fits(disk.sectors) && g.IsCluster(c) && from <= g.spc
    modifies disk
    ensures |disk.sectors| == |old(disk.sectors)|
    ensures forall l :: 0 <= l < |disk.sectors| ==>
      disk.sectors[l] == if g.ClusterLba(c) + from <= l < g.ClusterLba(c) + g.spc then ZeroSector()
        else old(disk.sectors[l])
  {
    var s := from;
    while s < g.spc
      invariant from <= s <= g.spc && |disk.sectors| == |old(disk.sectors)|
      invariant forall l :: 0 <= l < |disk.sectors| ==>
        disk.sectors[l] == if g.ClusterLba(c) + from <= l < g.ClusterLba(c) + s then ZeroSector()
          else old(disk.sectors[l])
    {
      ClusterSectors(g, disk.sectors, c, s);
      disk.sectors := disk.sectors[g.ClusterLba(c) + s := ZeroSector()];
      s := s + 1;
    }
  }

  /** Only sectors of cluster n differ. */
  ghost predicate OnlyCluster(g: Geometry, d: Image, d2: Image, n: U16) {
    |d2| == |d| && forall l :: 0 <= l < |d| && !Inside(g, n, l) ==> d2[l] == d[l]
  }

  /** Scribbling over a cluster that no entry owns disturbs neither the FAT nor any directory or file. */
  lemma LostClusterFrame(g: Geometry, d: Image, cat: Catalog, lost: set<U16>, d2: Image, n: U16)
    requires WellFormed(g, d, cat, lost) && n in lost && OnlyCluster(g, d, d2, n)
    ensures WellFormed(g, d2, cat, lost) && SameTree(g, d, d2, cat) && FilesKept(g, d, cat, d2, cat, {})
    ensures Fat(g, d2) == Fat(g, d)
  {
    hide Mirrored, DirOk, EntryOk, IsShort, Content, IsChain;
    FatSectorsOnDisk(g, d);
    FatUnchanged(g, d, d2);
    BaseFromPartition(g, d2, cat, lost);
    assert DirSectorsSame(g, d, d2, cat) by { LostMissesDirs(g, d, cat, lost, d2, n); }
    UntouchedDirectories(g, d, cat, lost, d2, lost);
    LostMissesFiles(g, d, cat, lost, d2, n);
  }

  lemma LostMissesDirs(g: Geometry, d: Image, cat: Catalog, lost: set<U16>, d2: Image, n: U16)
    requires Base(g, d, cat, lost) && n in lost && OnlyCluster(g, d, d2, n)
    ensures DirSectorsSame(g, d, d2, cat)
  {
    hide Mirrored, Fat, LbasOf, IsChain;
    forall dir, l | IsDir(d, cat, dir) && l in LbasOf(g, cat, dir) && l < |d| ensures d2[l] == d[l] {
      var home := LbaHome(g, d, cat, lost, dir, l);
      assert Inside(g, n, l) ==> n == home by { if Inside(g, n, l) { InsideHome(g, home, l, n); } }
      assert !Owned(cat, n);
    }
  }

  lemma LostMissesFiles(g: Geometry, d: Image, cat: Catalog, lost: set<U16>, d2: Image, n: U16)
    requires Base(g, d, cat, lost) && g.Fits(d2) && n in lost && OnlyCluster(g, d, d2, n) && SameTree(g, d, d2, cat)
    requires Fat(g, d2) == Fat(g, d)
    ensures FilesKept(g, d, cat, d2, cat, {})
  {
    hide Mirrored, Fat, Content, IsChain;
    forall at | TightFile(g, d, cat, at)
      ensures TightFile(g, d2, cat, at) && FileBytes(g, d2, cat, at) == FileBytes(g, d, cat, at)
    {
      assert !Owned(cat, n);
      forall i | 0 <= i < |cat[at]| ensures ClusterBytes(g, d2, cat[at][i]) == ClusterBytes(g, d, cat[at][i]) {
        OtherCluster(g, d, d2, n, cat[at][i]);
      }
      FileKept(g, d, cat, d2, cat, at);
    }
  }

  lemma OtherCluster(g: Geometry, d: Image, d2: Image, n: U16, c: U16)
    requires g.Fits(d) && g.Fits(d2) && OnlyCluster(g, d, d2, n) && g.IsCluster(c) && c != n
    ensures ClusterBytes(g, d2, c) == ClusterBytes(g, d, c)
  {
    forall l | Inside(g, c, l) && 0 <= l < |d| ensures d2[l] == d[l] {
      assert Inside(g, n, l) ==> n == c by { if Inside(g, n, l) { InsideOnlyOne(g, n, c, l); } }
    }
    ClusterKept(g, d, d2, c);
  }

  /** A change inside the FAT area disturbs neither directories nor file contents. */
  lemma FatOnlyFrame(g: Geometry, d: Image, cat: Catalog, lost: set<U16>, d2: Image, lost2: set<U16>)
    requires WellFormed(g, d, cat, lost) && g.Fits(d2) && Mirrored(g, d2) && Partition(Fat(g, d2), cat, lost2)
    requires OnlyFatChanged(g, d, d2)
    requires ReservedKept(Fat(g, d), Fat(g, d2))
    ensures WellFormed(g, d2, cat, lost2) && SameTree(g, d, d2, cat) && FilesKept(g, d, cat, d2, cat, {})
  {
    hide Mirrored, Fat, Partition, DirOk, EntryOk, Content, IsShort, SameTree, ReservedKept;
    BaseFromPartition(g, d2, cat, lost2);
    FatOnlyMissesDirs(g, d, cat, lost, d2);
    UntouchedDirectories(g, d, cat, lost, d2, lost2);
    FatFrame(g, d, d2);
    FatOnlyFiles(g, d, cat, d2);
  }

  lemma FatOnlyFiles(g: Geometry, d: Image, cat: Catalog, d2: Image)
    requires SameTree(g, d, d2, cat) && ReservedKept(Fat(g, d), Fat(g, d2))
    requires forall c :: g.IsCluster(c) ==> ClusterBytes(g, d2, c) == ClusterBytes(g, d, c)
    ensures FilesKept(g, d, cat, d2, cat, {})
  {
    hide Content, Fat, ReservedKept;
    forall at | TightFile(g, d, cat, at)
      ensures TightFile(g, d2, cat, at) && FileBytes(g, d2, cat, at) == FileBytes(g, d, cat, at)
    {
      FileKept(g, d, cat, d2, cat, at);
    }
  }

  /** The same directories; every lookup in them has the same answer and stands in the same
      order to the first free slot. */
  ghost predicate SameNames(g: Geometry, d: Image, cat: Catalog, d2: Image, cat2: Catalog) {
    && g.Fits(d) && g.Fits(d2) && CatClusters(g, cat) && CatClusters(g, cat2)
    && (forall x :: IsDir(d2, cat2, x) <==> IsDir(d, cat, x))
    && (forall x, name :: IsDir(d, cat, x) ==> Find(g, d2, cat2, x, name) == Find(g, d, cat, x, name))
    && (forall x, name :: IsDir(d, cat, x) ==> (Overtakes(g, d2, cat2, x, name) <==> Overtakes(g, d, cat, x, name)))
  }

  lemma SameNamesFromDirectories(g: Geometry, d: Image, cat: Catalog, d2: Image, cat2: Catalog)
    requires SameDirectories(g, d, cat, d2, cat2)
    ensures SameNames(g, d, cat, d2, cat2)
  {
    hide Similar, Scan, SlotLoc;
    forall x, name | IsDir(d, cat, x)
      ensures Find(g, d2, cat2, x, name) == Find(g, d, cat, x, name)
      ensures Overtakes(g, d2, cat2, x, name) == Overtakes(g, d, cat, x, name)
    {
      SimilarScan(SlotsOf(g, d, cat, x), SlotsOf(g, d2, cat2, x), name, 0, LfnReset());
      SimilarDirectory(SlotsOf(g, d, cat, x), SlotsOf(g, d2, cat2, x));
    }
  }

  lemma SameNamesFromTree(g: Geometry, d: Image, cat: Catalog, d2: Image)
    requires SameTree(g, d, d2, cat)
    ensures SameNames(g, d, cat, d2, cat)
  {
    hide Lookup, SlotLoc, Overtaken;
  }

  lemma SameNamesTrans(g: Geometry, d: Image, cat: Catalog, d2: Image, cat2: Catalog, d3: Image, cat3: Catalog)
    requires SameNames(g, d, cat, d2, cat2) && SameNames(g, d2, cat2, d3, cat3)
    ensures SameNames(g, d, cat, d3, cat3)
  {
    hide Find, IsDir, CatClusters, Overtakes;
  }

  lemma FilesKeptTrans(g: Geometry, d: Image, cat: Catalog, d2: Image, cat2: Catalog, d3: Image, cat3: Catalog,
                       except: set<Loc>)
    requires FilesKept(g, d, cat, d2, cat2, except) && FilesKept(g, d2, cat2, d3, cat3, except)
    ensures FilesKept(g, d, cat, d3, cat3, except)
  {
    hide TightFile, FileBytes, ReservedKept, Fat;
    ReservedTrans(Fat(g, d), Fat(g, d2), Fat(g, d3));
  }

  lemma FilesKeptMore(g: Geometry, d: Image, cat: Catalog, d2: Image, cat2: Catalog, except: set<Loc>)
    requires FilesKept(g, d, cat, d2, cat2, {})
    ensures FilesKept(g, d, cat, d2, cat2, except)
  {
    hide TightFile, FileBytes, ReservedKept, Fat;
  }

  /** Paths lead where they led before. */
  lemma {:induction false} ResolveSame(g: Geometry, d: Image, cat: Catalog, d2: Image, cat2: Catalog, dir: DirRef,
                                       path: seq<Byte>)
    requires SameNames(g, d, cat, d2, cat2) && IsDir(d, cat, dir)
    ensures Resolve(g, d2, cat2, dir, path) == Resolve(g, d, cat, dir, path)
    decreases |path|
  {
    hide Find, IsDir, SlashAt, CatClusters, Overtakes;
    if SlashAt(path) > 0 && AfterComponent(path) != [] {
      var found := Find(g, d, cat, dir, Component(path));
      assert Find(g, d2, cat2, dir, Component(path)) == found;
      if found.Some? && IsDir(d, cat, Sub(found.value)) {
        ResolveSame(g, d, cat, d2, cat2, Sub(found.value), AfterComponent(path));
      }
    }
  }

  lemma GrownNames(g: Geometry, d: Image, cat: Catalog, lost: set<U16>, d2: Image, lost2: set<U16>, p: Loc, n: U16)
    requires WellFormed(g, d, cat, lost) && IsDir(d, cat, Sub(p)) && GrownBy(g, d, cat, d2, lost2, p, n)
    requires SameTree(g, d, d2, cat)
    ensures SameNames(g, d, cat, d2, cat[p := cat[p] + [n]])
  {
    hide Partition, Mirrored, Fat, EntryOk, DirOk, Scan, Slots, WellFormed, Overtaken;
    var cat2 := cat[p := cat[p] + [n]];
    var more := GrownSlots(g, d, cat, lost, d2, lost2, p, n);
    forall x, name | IsDir(d, cat, x)
      ensures Find(g, d2, cat2, x, name) == Find(g, d, cat, x, name)
      ensures Overtakes(g, d2, cat2, x, name) == Overtakes(g, d, cat, x, name)
    {
      if x == Sub(p) {
        GrownDirectory(SlotsOf(g, d, cat, x), more, name);
      } else {
        assert LbasOf(g, cat2, x) == LbasOf(g, cat, x);
      }
    }
  }

  /** The lost clusters still hold their bytes and their FAT entries. */
  ghost predicate LostKept(g: Geometry, d: Image, d2: Image, lost: set<U16>) {
    && g.Fits(d) && g.Fits(d2) && |d2| == |d|
    && (forall c, l :: c in lost && Inside(g, c, l) && 0 <= l < |d| ==> d2[l] == d[l])
    && (forall c :: c in lost && c < g.Entries() ==> Fat(g, d2)[c] == Fat(g, d)[c])
  }

  lemma LostKeptTrans(g: Geometry, d: Image, d2: Image, d3: Image, lost: set<U16>)
    requires LostKept(g, d, d2, lost) && LostKept(g, d2, d3, lost)
    ensures LostKept(g, d, d3, lost)
  {
    hide Fat, Inside;
  }

  lemma LostKeptByFat(g: Geometry, d: Image, d2: Image, lost: set<U16>, x: U16, v: U16)
    requires g.Fits(d) && g.Fits(d2) && OnlyFatChanged(g, d, d2) && x < g.Entries() && x !in lost
    requires Fat(g, d2) == Fat(g, d)[x := v]
    ensures LostKept(g, d, d2, lost)
  {
    FatSectorsOnDisk(g, d);
  }

  lemma LostKeptByCluster(g: Geometry, d: Image, d2: Image, lost: set<U16>, n: U16)
    requires g.Fits(d) && g.Fits(d2) && OnlyCluster(g, d, d2, n) && n !in lost && Fat(g, d2) == Fat(g, d)
    ensures LostKept(g, d, d2, lost)
  {
    hide Fat;
    forall c, l | c in lost && Inside(g, c, l) && 0 <= l < |d| ensures d2[l] == d[l] {
      assert Inside(g, n, l) ==> n == c by { if Inside(g, n, l) { InsideOnlyOne(g, n, c, l); } }
    }
  }

  /** Claiming a cluster on a well-formed volume: until something links it, it is lost. */
  method ClaimCluster(g: Geometry, disk: Disk, ghost cat: Catalog, ghost lost: set<U16>) returns (n: U16)
    requires WellFormed(g, disk.sectors, cat, lost)
    modifies disk
    ensures n == 0 <==> FreeSet(Fat(g, old(disk.sectors))) == {}
    ensures n == 0 ==> disk.sectors == old(disk.sectors)
    ensures n != 0 ==>
      && g.IsCluster(n) && n !in lost && WellFormed(g, disk.sectors, cat, lost + {n})
      && n in FreeSet(Fat(g, old(disk.sectors))) && Fat(g, disk.sectors) == Fat(g, old(disk.sectors))[n := EOC]
      && SameTree(g, old(disk.sectors), disk.sectors, cat)
      && FilesKept(g, old(disk.sectors), cat, disk.sectors, cat, {})
      && LostKept(g, old(disk.sectors), disk.sectors, lost)
  {
    ghost var d0 := disk.sectors;
    n := AllocCluster(g, disk);
    if n != 0 {
      ClaimPartition(Fat(g, d0), cat, lost, n);
      LostKeptByFat(g, d0, disk.sectors, lost, n, EOC);
      ReservedUpdate(Fat(g, d0), n, EOC);
      hide LostKept, EntryOk, DirOk, SameTree, FilesKept, Fat, Mirrored, OnlyFatChanged, ReservedKept;
      FatOnlyFrame(g, d0, cat, lost, disk.sectors, lost + {n});
    }
  }

  method ZeroLostCluster(g: Geometry, disk: Disk, n: U16, ghost cat: Catalog, ghost lost: set<U16>)
    requires WellFormed(g, disk.sectors, cat, lost) && n in lost && g.IsCluster(n)
    modifies disk
    ensures WellFormed(g, disk.sectors, cat, lost) && Fat(g, disk.sectors) == Fat(g, old(disk.sectors))
    ensures SameTree(g, old(disk.sectors), disk.sectors, cat)
    ensures FilesKept(g, old(disk.sectors), cat, disk.sectors, cat, {})
    ensures forall l :: Inside(g, n, l) && 0 <= l < |disk.sectors| ==> disk.sectors[l] == ZeroSector()
    ensures LostKept(g, old(disk.sectors), disk.sectors, lost - {n})
  {
    ghost var d0 := disk.sectors;
    ZeroCluster(g, disk, n, 0);
    hide EntryOk, DirOk, SameTree, FilesKept, Fat, Mirrored, Partition;
    LostClusterFrame(g, d0, cat, lost, disk.sectors, n);
    LostKeptByCluster(g, d0, disk.sectors, lost - {n}, n);
  }

  /** The extension branch of fat_alloc_dir_entry_in_dir: claim a cluster, zero it, link it. */
  method ExtendDir(g: Geometry, disk: Disk, first: U16, ghost cat: Catalog, ghost lost: set<U16>, ghost p: Loc)
    returns (n: U16, ghost more: seq<Slot>)
    requires WellFormed(g, disk.sectors, cat, lost) && IsDir(disk.sectors, cat, Sub(p))
    requires Handle(cat, Sub(p), false, first)
    modifies disk
    ensures n == 0 <==> FreeSet(Fat(g, old(disk.sectors))) == {}
    ensures n == 0 ==> disk.sectors == old(disk.sectors)
    ensures n != 0 ==>
      && g.IsCluster(n)
      && WellFormed(g, disk.sectors, cat[p := cat[p] + [n]], lost)
      && SameNames(g, old(disk.sectors), cat, disk.sectors, cat[p := cat[p] + [n]])
      && FilesKept(g, old(disk.sectors), cat, disk.sectors, cat[p := cat[p] + [n]], {})
      && LbasOf(g, cat[p := cat[p] + [n]], Sub(p)) == LbasOf(g, cat, Sub(p)) + ClusterLbas(g, n)
      && SlotsOf(g, disk.sectors, cat[p := cat[p] + [n]], Sub(p)) == SlotsOf(g, old(disk.sectors), cat, Sub(p)) + more
      && AllEnd(more) && |more| == 16 * g.spc && LostKept(g, old(disk.sectors), disk.sectors, lost)
  {
    hide *;
    ghost var d0 := disk.sectors;
    more := [];
    WellFormedBase(g, d0, cat, lost);
    DirInCatalog(d0, cat, p);
    HandleChain(g, d0, cat, lost, Sub(p), false, first);
    LastReady(g, d0, cat, lost, p, first);
    var last := FindLastCluster(g, disk, first, cat[p]);
    n := ClaimCluster(g, disk, cat, lost);
    if n == 0 {
      return;
    }
    ghost var d1 := disk.sectors;
    FreeInRange(Fat(g, d0), n);
    ZeroLostCluster(g, disk, n, cat, lost + {n});
    ghost var d2 := disk.sectors;
    WellFormedBase(g, d2, cat, lost + {n});
    LastIsCluster(g, d2, cat, lost + {n}, p);
    SetClusterEntry(g, disk, last, n);
    more := LinkedDir(g, d0, cat, lost, d1, d2, disk.sectors, p, n);
  }

  lemma LastReady(g: Geometry, d: Image, cat: Catalog, lost: set<U16>, p: Loc, first: U16)
    requires Base(g, d, cat, lost) && p in cat && Handle(cat, Sub(p), false, first)
    ensures g.Fits(d) && IsChain(Fat(g, d), cat[p]) && cat[p] != [] && cat[p][0] == first
  {
    hide Fat, Mirrored;
  }

  lemma FreeInRange(f: seq<U16>, n: U16)
    requires n in FreeSet(f)
    ensures n < |f|
  {
  }

  lemma DirInCatalog(d: Image, cat: Catalog, p: Loc)
    requires IsDir(d, cat, Sub(p))
    ensures p in cat
  {
  }

  lemma LastNotLost(g: Geometry, d: Image, cat: Catalog, lost: set<U16>, p: Loc)
    requires Base(g, d, cat, lost) && p in cat && cat[p] != []
    ensures cat[p][|cat[p]| - 1] !in lost && cat[p][|cat[p]| - 1] < g.Entries()
  {
    assert Owned(cat, cat[p][|cat[p]| - 1]);
  }

  lemma LastIsCluster(g: Geometry, d: Image, cat: Catalog, lost: set<U16>, p: Loc)
    requires Base(g, d, cat, lost) && p in cat && cat[p] != []
    ensures g.Fits(d) && Mirrored(g, d) && g.IsCluster(cat[p][|cat[p]| - 1])
  {
  }

  lemma LinkedDir(g: Geometry, d0: Image, cat: Catalog, lost: set<U16>, d1: Image, d2: Image, d3: Image, p: Loc, n: U16)
    returns (more: seq<Slot>)
    requires WellFormed(g, d0, cat, lost) && IsDir(d0, cat, Sub(p)) && cat[p] != [] && n !in lost
    requires SameTree(g, d0, d1, cat) && FilesKept(g, d0, cat, d1, cat, {})
    requires WellFormed(g, d2, cat, lost + {n}) && SameTree(g, d1, d2, cat) && FilesKept(g, d1, cat, d2, cat, {})
    requires g.IsCluster(n) && Fat(g, d2)[n] == EOC
    requires (forall l :: Inside(g, n, l) && 0 <= l < |d2| ==> d2[l] == ZeroSector())
    requires g.Fits(d3) && Mirrored(g, d3) && OnlyFatChanged(g, d2, d3)
    requires g.IsCluster(cat[p][|cat[p]| - 1]) && Fat(g, d3) == Fat(g, d2)[cat[p][|cat[p]| - 1] := n]
    requires LostKept(g, d0, d1, lost) && LostKept(g, d1, d2, lost + {n} - {n})
    ensures LostKept(g, d0, d3, lost)
    ensures var cat2 := cat[p := cat[p] + [n]];
            && WellFormed(g, d3, cat2, lost) && SameNames(g, d0, cat, d3, cat2) && FilesKept(g, d0, cat, d3, cat2, {})
            && LbasOf(g, cat2, Sub(p)) == LbasOf(g, cat, Sub(p)) + ClusterLbas(g, n)
            && SlotsOf(g, d3, cat2, Sub(p)) == SlotsOf(g, d0, cat, Sub(p)) + more
            && AllEnd(more) && |more| == 16 * g.spc
  {
    var cat2 := cat[p := cat[p] + [n]];
    SameTreeSlots(g, d0, d1, cat, Sub(p));
    SameTreeSlots(g, d1, d2, cat, Sub(p));
    LinkedLost(g, d0, cat, lost, d1, d2, d3, p, n);
    hide LostKept;
    LinkPartition(g, d2, cat, lost, d3, p, n);
    LinkGrows(g, d2, cat, lost, d3, p, n);
    hide Partition, Mirrored, WellFormed, Fat, EntryOk, DirOk, SameTree, FilesKept, SameNames, IsDir, SlotsOf, LbasOf,
         GrownBy;
    GrowDirectory(g, d2, cat, lost + {n}, d3, lost, p, n);
    more := GrownSlots(g, d2, cat, lost + {n}, d3, lost, p, n);
    GrownNames(g, d2, cat, lost + {n}, d3, lost, p, n);
    SameNamesFromTree(g, d0, cat, d1);
    SameNamesFromTree(g, d1, cat, d2);
    SameNamesTrans(g, d0, cat, d1, cat, d2, cat);
    SameNamesTrans(g, d0, cat, d2, cat, d3, cat2);
    LinkReserved(g, d2, cat, lost + {n}, p, n);
    GrownFiles(g, d2, cat, d3, p, n);
    FilesKeptTrans(g, d0, cat, d1, cat, d2, cat, {});
    FilesKeptTrans(g, d0, cat, d2, cat, d3, cat2, {});
  }

  lemma LinkedLost(g: Geometry, d0: Image, cat: Catalog, lost: set<U16>, d1: Image, d2: Image, d3: Image, p: Loc,
                   n: U16)
    requires Base(g, d0, cat, lost) && p in cat && cat[p] != [] && n !in lost && g.Fits(d2)
    requires g.Fits(d3) && OnlyFatChanged(g, d2, d3)
    requires g.IsCluster(cat[p][|cat[p]| - 1]) && Fat(g, d3) == Fat(g, d2)[cat[p][|cat[p]| - 1] := n]
    requires LostKept(g, d0, d1, lost) && LostKept(g, d1, d2, lost + {n} - {n})
    ensures LostKept(g, d0, d3, lost)
  {
    assert lost + {n} - {n} == lost;
    LastNotLost(g, d0, cat, lost, p);
    hide LostKept, Fat, Base, OnlyFatChanged;
    LostKeptByFat(g, d2, d3, lost, cat[p][|cat[p]| - 1], n);
    LostKeptTrans(g, d0, d1, d2, lost);
    LostKeptTrans(g, d0, d2, d3, lost);
  }

  lemma SameTreeSlots(g: Geometry, d: Image, d2: Image, cat: Catalog, x: DirRef)
    requires SameTree(g, d, d2, cat) && IsDir(d, cat, x)
    ensures IsDir(d2, cat, x) && SlotsOf(g, d2, cat, x) == SlotsOf(g, d, cat, x)
  {
  }

  lemma LinkPartition(g: Geometry, d2: Image, cat: Catalog, lost: set<U16>, d3: Image, p: Loc, n: U16)
    requires Base(g, d2, cat, lost + {n}) && p in cat && cat[p] != [] && n !in lost && g.IsCluster(n)
    requires Fat(g, d2)[n] == EOC
    requires g.Fits(d3) && Mirrored(g, d3) && g.IsCluster(cat[p][|cat[p]| - 1])
    requires Fat(g, d3) == Fat(g, d2)[cat[p][|cat[p]| - 1] := n]
    ensures Base(g, d3, cat[p := cat[p] + [n]], lost)
  {
    var j := |cat[p]| - 1;
    RelinkPartition(Fat(g, d2), cat, lost + {n}, p, j, n);
    assert cat[p][..j + 1] == cat[p];
    assert lost + {n} - {n} + After(cat[p], j) == lost;
    BaseFromPartition(g, d3, cat[p := cat[p] + [n]], lost);
  }

  lemma LinkGrows(g: Geometry, d2: Image, cat: Catalog, lost: set<U16>, d3: Image, p: Loc, n: U16)
    requires Base(g, d2, cat, lost + {n}) && p in cat && g.IsCluster(n)
    requires (forall l :: Inside(g, n, l) && 0 <= l < |d2| ==> d2[l] == ZeroSector())
    requires Base(g, d3, cat[p := cat[p] + [n]], lost) && OnlyFatChanged(g, d2, d3)
    ensures GrownBy(g, d2, cat, d3, lost, p, n)
    ensures forall c :: g.IsCluster(c) ==> ClusterBytes(g, d3, c) == ClusterBytes(g, d2, c)
  {
    hide Partition, Mirrored, Fat, LbasOf;
    FatOnlyMissesDirs(g, d2, cat, lost + {n}, d3);
    FatSectorsOnDisk(g, d2);
    FatFrame(g, d2, d3);
  }

  lemma LinkReserved(g: Geometry, d: Image, cat: Catalog, lost: set<U16>, p: Loc, n: U16)
    requires WellFormed(g, d, cat, lost) && p in cat && cat[p] != [] && g.IsCluster(n)
    ensures g.Fits(d) && cat[p][|cat[p]| - 1] < g.Entries()
    ensures ReservedKept(Fat(g, d), Fat(g, d)[cat[p][|cat[p]| - 1] := n])
  {
    hide EntryOk, DirOk, Mirrored, Fat;
    ChainNotReserved(Fat(g, d), cat[p], |cat[p]| - 1);
    ReservedUpdate(Fat(g, d), cat[p][|cat[p]| - 1], n);
  }

  lemma GrownFiles(g: Geometry, d: Image, cat: Catalog, d2: Image, p: Loc, n: U16)
    requires SameTree(g, d, d2, cat) && IsDir(d, cat, Sub(p)) && ReservedKept(Fat(g, d), Fat(g, d2))
    requires forall c :: g.IsCluster(c) ==> ClusterBytes(g, d2, c) == ClusterBytes(g, d, c)
    ensures FilesKept(g, d, cat, d2, cat[p := cat[p] + [n]], {})
  {
    hide Content, Fat, ReservedKept;
    forall at | TightFile(g, d, cat, at)
      ensures TightFile(g, d2, cat[p := cat[p] + [n]], at)
      ensures FileBytes(g, d2, cat[p := cat[p] + [n]], at) == FileBytes(g, d, cat, at)
    {
      FileKept(g, d, cat, d2, cat[p := cat[p] + [n]], at);
    }
  }
}
