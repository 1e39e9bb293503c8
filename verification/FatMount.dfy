/**
  The mounted volume as its callers see it: the disk, the table of open files, and the
  calls fat_open_write, fat_write, fat_mkdir and fat_read_file.
*/
module FatMount {
  import opened Common
  import opened FatDisk
  import opened FatChains
  import opened FatRead
  import opened FatWrite
  import opened FatDirs
  import opened FatCatalog
  import opened FatVolume
  import opened FatOps

  datatype Mode = Create | Truncate | Append | Modify

  // -------------------------------------------------------------------- open descriptors

  function SlotOf(f: OpenFile): (loc: Loc) {
    Loc(f.dirSector, f.dirOffset)
  }

  lemma SlotIs(f: OpenFile)
    ensures SlotOf(f) == Loc(f.dirSector, f.dirOffset)
  {
  }

  predicate Writing(f: OpenFile) {
    f.inUse && f.writable
  }

  /** A write descriptor agrees with the file it writes. */
  ghost predicate FdOk(g: Geometry, d: Image, cat: Catalog, f: OpenFile) {
    && g.Fits(d) && TightFile(g, d, cat, SlotOf(f)) && OpenOn(f, SlotOf(f), cat[SlotOf(f)])
    && f.fileSize == EntrySize(d[SlotOf(f).lba], SlotOf(f).idx) && f.fileOffset <= f.fileSize
    && exists j :: CursorOn(g, f, cat[SlotOf(f)], j)
  }

  /** Every write descriptor agrees with its file, and no file has two of them. */
  ghost predicate FdsOk(g: Geometry, d: Image, cat: Catalog, files: seq<OpenFile>) {
    && (forall i :: 0 <= i < |files| && Writing(files[i]) ==> FdOk(g, d, cat, files[i]))
    && (forall i, j :: 0 <= i < j < |files| && Writing(files[i]) && Writing(files[j]) ==>
          SlotOf(files[i]) != SlotOf(files[j]))
  }

  lemma FdKept(g: Geometry, d: Image, cat: Catalog, d2: Image, cat2: Catalog, except: set<Loc>, f: OpenFile)
    requires FdOk(g, d, cat, f) && FilesKept(g, d, cat, d2, cat2, except) && SlotOf(f) !in except
    ensures FdOk(g, d2, cat2, f)
  {
    var loc := SlotOf(f);
    assert |FileBytes(g, d2, cat2, loc)| == |FileBytes(g, d, cat, loc)|;
  }

  // ---------------------------------------------------------------- where appending starts

  lemma ModIs(x: nat, q: nat, m: nat, r: nat)
    requires m > 0 && x == q * m + r && r < m
    ensures x % m == r
  {
    var a, b := x / m, x % m;
    assert x == a * m + b;
    if a < q {
      RowBound(q, m, a, b);
    } else if q < a {
      RowBound(a, m, q, r);
    }
  }

  /** The offset in the last cluster at which an append continues. */
  function AppendOffset(g: Geometry, size: nat): (r: nat)
    requires 0 < g.ClusterSize()
  {
    if size % g.ClusterSize() == 0 && size > 0 then g.ClusterSize() else size % g.ClusterSize()
  }

  lemma AppendCursor(g: Geometry, ch: seq<U16>, size: nat)
    requires 0 < g.ClusterSize() && Tight(g, ch, size) && ch != []
    ensures AppendOffset(g, size) <= g.ClusterSize()
    ensures size == (|ch| - 1) * g.ClusterSize() + AppendOffset(g, size)
  {
    var m, r := g.ClusterSize(), size - (|ch| - 1) * g.ClusterSize();
    if r < m {
      ModIs(size, |ch| - 1, m, r);
    } else {
      ModIs(size, |ch|, m, 0);
    }
  }

  // --------------------------------------------------------------------- opening to write

  /** The volume after fat_open_write got as far as the descriptor table. */
  ghost predicate Opened(g: Geometry, d: Image, cat: Catalog, d2: Image, cat2: Catalog, dir: DirRef, name: seq<Byte>,
                         mode: Mode, loc: Loc)
    requires g.Fits(d) && CatClusters(g, cat) && g.Fits(d2) && CatClusters(g, cat2)
  {
    && TightFile(g, d2, cat2, loc) && Find(g, d2, cat2, dir, name) == Some(loc)
    && match Find(g, d, cat, dir, name)
       case None => OneMore(g, d, cat, d2, cat2, dir, name, loc, false) && FileBytes(g, d2, cat2, loc) == []
       case Some(at) =>
         && at == loc && mode != Create && TightFile(g, d, cat, loc)
         && SameNames(g, d, cat, d2, cat2) && FilesKept(g, d, cat, d2, cat2, {loc})
         && FileBytes(g, d2, cat2, loc) == if mode == Truncate then [] else FileBytes(g, d, cat, loc)
  }

  /** The descriptor that fat_open_write hands out. */
  ghost predicate Starts(g: Geometry, d: Image, cat: Catalog, f: OpenFile, mode: Mode, loc: Loc) {
    && FdOk(g, d, cat, f) && SlotOf(f) == loc && f.inUse && f.writable
    && f.fileOffset == if mode == Modify then 0 else f.fileSize
  }

  lemma EmptyStart(g: Geometry, d: Image, cat: Catalog, loc: Loc, f: OpenFile, mode: Mode)
    requires g.Fits(d) && TightFile(g, d, cat, loc) && cat[loc] == [] && EntrySize(d[loc.lba], loc.idx) == 0
    requires f.inUse && f.writable && SlotOf(f) == loc && f.fileSize == f.fileOffset == f.clusterOffset == 0
    requires f.currentCluster == f.firstCluster == 0
    ensures Starts(g, d, cat, f, mode, loc)
  {
    assert CursorOn(g, f, cat[loc], -1);
  }

  lemma ExistingStart(g: Geometry, d: Image, cat: Catalog, lost: set<U16>, loc: Loc, f: OpenFile, mode: Mode)
    requires WellFormed(g, d, cat, lost) && TightFile(g, d, cat, loc) && (mode == Append || mode == Modify)
    requires f.inUse && f.writable && SlotOf(f) == loc && f.fileSize == EntrySize(d[loc.lba], loc.idx)
    requires f.firstCluster == Head(cat[loc])
    requires mode == Append ==>
      && f.fileOffset == f.fileSize && f.currentCluster == (if cat[loc] == [] then 0 else cat[loc][|cat[loc]| - 1])
      && f.clusterOffset == if cat[loc] == [] then 0 else AppendOffset(g, f.fileSize)
    requires mode == Modify ==> f.fileOffset == f.clusterOffset == 0 && f.currentCluster == Head(cat[loc])
    ensures Starts(g, d, cat, f, mode, loc)
  {
    hide Partition, Mirrored, Fat, EntryOk, DirOk;
    var ch := cat[loc];
    if mode == Append && ch != [] {
      AppendCursor(g, ch, f.fileSize);
      assert CursorOn(g, f, ch, |ch| - 1);
    } else if ch != [] {
      assert CursorOn(g, f, ch, 0);
    } else {
      assert CursorOn(g, f, ch, -1);
    }
  }

  /** fat_open_write up to the descriptor table.  It refuses a path that does not resolve, a
      directory, an existing file in create mode, and a directory without room; then nothing
      has changed. */
  method OpenEntry(g: Geometry, disk: Disk, path: seq<Byte>, mode: Mode, owner: int, ghost cat: Catalog,
                   ghost lost: set<U16>)
    returns (ok: bool, f: OpenFile, ghost cat2: Catalog, ghost dir: DirRef, ghost name: seq<Byte>)
    requires WellFormed(g, disk.sectors, cat, lost) && FilesTight(g, disk.sectors, cat)
    requires StorablePath(g, disk.sectors, cat, path)
    modifies disk
    ensures WellFormed(g, disk.sectors, cat2, lost) && FilesTight(g, disk.sectors, cat2)
    ensures g.Fits(old(disk.sectors)) && CatClusters(g, cat) && g.Fits(disk.sectors) && CatClusters(g, cat2)
    ensures !ok ==> disk.sectors == old(disk.sectors) && cat2 == cat
    ensures !ok <==> Refused(g, old(disk.sectors), cat, path, mode)
    ensures ok ==>
      && Resolve(g, old(disk.sectors), cat, Root, path) == Some((dir, name))
      && Opened(g, old(disk.sectors), cat, disk.sectors, cat2, dir, name, mode, SlotOf(f))
      && Starts(g, disk.sectors, cat2, f, mode, SlotOf(f)) && f.owner == owner
  {
    ghost var d0 := disk.sectors;
    WellFormedBase(g, d0, cat, lost);
    cat2, dir, name := cat, Root, [];
    f := OpenFile(true, 0, 0, 0, 0, 0, true, 0, 0, owner);
    assert g.Fits(d0) && CatClusters(g, cat);
    hide *;
    var resolved, isRoot, first, nm;
    resolved, isRoot, first, nm, dir := ResolveParent(g, disk, path, cat, lost);
    name := nm;
    RefusedIs(g, d0, cat, path, mode, resolved, dir, name);
    if !resolved {
      return false, f, cat, dir, name;
    }
    var exists_, lba, idx := FindEntry(g, disk, isRoot, first, nm, cat, lost, dir);
    ok, f, cat2 := OpenFound(g, disk, isRoot, first, nm, exists_, lba, idx, mode, owner, cat, lost, dir);
  }

  /** When fat_open_write gives up before the descriptor table. */
  ghost predicate Refused(g: Geometry, d: Image, cat: Catalog, path: seq<Byte>, mode: Mode)
    requires g.Fits(d) && CatClusters(g, cat)
  {
    var where := Resolve(g, d, cat, Root, path);
    where.None? || RefusedIn(g, d, cat, where.value.0, where.value.1, mode)
  }

  ghost predicate RefusedIn(g: Geometry, d: Image, cat: Catalog, dir: DirRef, name: seq<Byte>, mode: Mode)
    requires g.Fits(d) && CatClusters(g, cat)
  {
    match Find(g, d, cat, dir, name)
    case Some(loc) => mode == Create || IsDir(d, cat, Sub(loc))
    case None => DirFull(g, d, cat, dir) && (dir.Root? || FreeSet(Fat(g, d)) == {})
  }

  lemma RefusedIs(g: Geometry, d: Image, cat: Catalog, path: seq<Byte>, mode: Mode, resolved: bool, dir: DirRef,
                  name: seq<Byte>)
    requires g.Fits(d) && CatClusters(g, cat)
    requires resolved <==> Resolve(g, d, cat, Root, path).Some?
    requires resolved ==> Resolve(g, d, cat, Root, path) == Some((dir, name))
    requires StorablePath(g, d, cat, path)
    ensures Refused(g, d, cat, path, mode) <==> !resolved || RefusedIn(g, d, cat, dir, name, mode)
    ensures resolved ==> Storable(name)
  {
  }

  /** fat_open_write once the lookup is done. */
  method OpenFound(g: Geometry, disk: Disk, isRoot: bool, first: U16, name: seq<Byte>, found: bool, lba0: nat,
                   idx0: nat, mode: Mode, owner: int,
                   ghost cat: Catalog, ghost lost: set<U16>, ghost dir: DirRef)
    returns (ok: bool, f: OpenFile, ghost cat2: Catalog)
    requires WellFormed(g, disk.sectors, cat, lost) && FilesTight(g, disk.sectors, cat) && g.Fits(disk.sectors)
    requires CatClusters(g, cat)
    requires IsDir(disk.sectors, cat, dir) && Handle(cat, dir, isRoot, first) && Storable(name)
    requires Find(g, disk.sectors, cat, dir, name) == if found then Some(Loc(lba0, idx0)) else None
    requires found ==> Loc(lba0, idx0) in cat && LocOnDisk(disk.sectors, Loc(lba0, idx0))
    modifies disk
    ensures WellFormed(g, disk.sectors, cat2, lost) && FilesTight(g, disk.sectors, cat2)
    ensures g.Fits(disk.sectors) && CatClusters(g, cat2)
    ensures !ok ==> disk.sectors == old(disk.sectors) && cat2 == cat
    ensures !ok <==> RefusedIn(g, old(disk.sectors), cat, dir, name, mode)
    ensures ok ==>
      && Opened(g, old(disk.sectors), cat, disk.sectors, cat2, dir, name, mode, SlotOf(f))
      && Starts(g, disk.sectors, cat2, f, mode, SlotOf(f)) && f.owner == owner
  {
    ghost var d0 := disk.sectors;
    f := OpenFile(true, 0, 0, 0, 0, 0, true, lba0, idx0, owner);
    hide *;
    if found {
      ok, f, cat2 := OpenExisting(g, disk, lba0, idx0, mode, owner, name, cat, lost, dir);
    } else {
      var lba, idx;
      ok, lba, idx, cat2 := AllocDirEntry(g, disk, isRoot, first, cat, lost, dir);
      RefusedNew(g, d0, cat, dir, name, mode, isRoot, first);
      if !ok {
        FitsAgain(g, d0, cat, lost);
        return false, f, cat;
      }
      RoomForFile(g, d0, disk.sectors, cat, cat2, lost, dir, name);
      ghost var d1, cat1 := disk.sectors, cat2;
      CreateFile(g, disk, lba, idx, name, cat1, lost, dir);
      cat2 := cat1[Loc(lba, idx) := []];
      f := OpenFile(true, 0, 0, 0, 0, 0, true, lba, idx, owner);
      CreatedOpened(g, d0, cat, d1, cat1, disk.sectors, lost, dir, name, mode, f);
    }
  }

  lemma FitsAgain(g: Geometry, d: Image, cat: Catalog, lost: set<U16>)
    requires WellFormed(g, d, cat, lost)
    ensures g.Fits(d) && CatClusters(g, cat)
  {
  }

  lemma RefusedNew(g: Geometry, d: Image, cat: Catalog, dir: DirRef, name: seq<Byte>, mode: Mode, isRoot: bool,
                   first: U16)
    requires g.Fits(d) && CatClusters(g, cat) && Find(g, d, cat, dir, name) == None && Handle(cat, dir, isRoot, first)
    ensures RefusedIn(g, d, cat, dir, name, mode) <==> DirFull(g, d, cat, dir) && (isRoot || FreeSet(Fat(g, d)) == {})
  {
  }

  /** Tight files stay tight when they are kept and no other file appears. */
  lemma TightKept(g: Geometry, d: Image, cat: Catalog, d2: Image, cat2: Catalog, except: set<Loc>)
    requires FilesTight(g, d, cat) && CatClusters(g, cat) && FilesKept(g, d, cat, d2, cat2, except)
    requires forall at :: IsFile(d2, cat2, at) && at !in except ==> IsFile(d, cat, at)
    requires forall at :: at in except && IsFile(d2, cat2, at) ==> TightFile(g, d2, cat2, at)
    ensures FilesTight(g, d2, cat2)
  {
    hide FileBytes;
    forall at | at in cat2 && LocOnDisk(d2, at) && !IsDirectory(SlotAt(d2, at))
      ensures Tight(g, cat2[at], EntrySize(d2[at.lba], at.idx)) {
      assert IsFile(d2, cat2, at);
      if at !in except {
        assert IsFile(d, cat, at);
        assert TightFile(g, d, cat, at);
      }
    }
  }

  lemma SameFiles(g: Geometry, d: Image, cat: Catalog, lost: set<U16>, d2: Image, cat2: Catalog, at: Loc)
    requires WellFormed(g, d, cat, lost) && SameNames(g, d, cat, d2, cat2) && cat2.Keys <= cat.Keys
    requires IsFile(d2, cat2, at)
    ensures IsFile(d, cat, at)
  {
    EntryFacts(g, d, cat, lost, at);
    assert IsDir(d2, cat2, Sub(at)) <==> IsDir(d, cat, Sub(at));
  }

  lemma RoomForFile(g: Geometry, d: Image, d1: Image, cat: Catalog, cat1: Catalog, lost: set<U16>, dir: DirRef,
                    name: seq<Byte>)
    requires WellFormed(g, d, cat, lost) && FilesTight(g, d, cat) && IsDir(d, cat, dir) && g.Fits(d)
    requires CatClusters(g, cat)
    requires Find(g, d, cat, dir, name) == None
    requires SameNames(g, d, cat, d1, cat1) && FilesKept(g, d, cat, d1, cat1, {}) && OnlyDirChain(cat, cat1, dir)
    ensures g.Fits(d1) && CatClusters(g, cat1) && Find(g, d1, cat1, dir, name) == None && FilesTight(g, d1, cat1)
    ensures cat1.Keys == cat.Keys
  {
    forall at | IsFile(d1, cat1, at) && at !in {} ensures IsFile(d, cat, at) {
      SameFiles(g, d, cat, lost, d1, cat1, at);
    }
    hide IsFile, IsDir, Find, WellFormed;
    TightKept(g, d, cat, d1, cat1, {});
  }

  lemma CreatedOpened(g: Geometry, d: Image, cat: Catalog, d1: Image, cat1: Catalog, d2: Image, lost: set<U16>,
                      dir: DirRef, name: seq<Byte>, mode: Mode, f: OpenFile)
    requires g.Fits(d) && CatClusters(g, cat) && Find(g, d, cat, dir, name) == None
    requires SameNames(g, d, cat, d1, cat1) && FilesKept(g, d, cat, d1, cat1, {}) && cat1.Keys == cat.Keys
    requires FilesTight(g, d1, cat1)
    requires WellFormed(g, d1, cat1, lost)
    requires var loc := SlotOf(f);
             && EntryAdded(g, d1, cat1, d2, cat1[loc := []], lost, dir, name, loc, false)
             && TightFile(g, d2, cat1[loc := []], loc) && FileBytes(g, d2, cat1[loc := []], loc) == []
    requires f.inUse && f.writable && f.fileSize == f.fileOffset == f.clusterOffset == 0
    requires f.currentCluster == f.firstCluster == 0
    ensures var loc, cat2 := SlotOf(f), cat1[SlotOf(f) := []];
            && g.Fits(d2) && CatClusters(g, cat2) && WellFormed(g, d2, cat2, lost) && FilesTight(g, d2, cat2)
            && Opened(g, d, cat, d2, cat2, dir, name, mode, loc) && Starts(g, d2, cat2, f, mode, loc)
  {
    var loc, cat2 := SlotOf(f), cat1[SlotOf(f) := []];
    AddedTight(g, d1, cat1, d2, cat2, lost, dir, name, loc);
    hide WellFormed, FilesTight, NameAdded, SameNames, FilesKept, Find, FileBytes, Starts, CursorOn;
    OneMoreAfter(g, d, cat, d1, cat1, d2, cat2, lost, dir, name, loc, false);
    FitsAgain(g, d2, cat2, lost);
    EmptyStart(g, d2, cat2, loc, f, mode);
    FoundNew(g, d, cat, d2, cat2, dir, name, loc);
  }

  lemma FoundNew(g: Geometry, d: Image, cat: Catalog, d2: Image, cat2: Catalog, dir: DirRef, name: seq<Byte>, loc: Loc)
    requires OneMore(g, d, cat, d2, cat2, dir, name, loc, false)
    ensures Find(g, d2, cat2, dir, name) == Some(loc)
  {
  }

  lemma AddedTight(g: Geometry, d1: Image, cat1: Catalog, d2: Image, cat2: Catalog, lost: set<U16>, dir: DirRef,
                   name: seq<Byte>, loc: Loc)
    requires WellFormed(g, d1, cat1, lost) && FilesTight(g, d1, cat1) && cat2 == cat1[loc := []]
    requires EntryAdded(g, d1, cat1, d2, cat2, lost, dir, name, loc, false) && TightFile(g, d2, cat2, loc)
    ensures FilesTight(g, d2, cat2)
  {
    hide Partition, Mirrored, Fat, EntryOk, DirOk, Find;
    forall at | IsFile(d2, cat2, at) && at !in {loc} ensures IsFile(d1, cat1, at) {
      EntryFacts(g, d1, cat1, lost, at);
      assert IsDir(d2, cat2, Sub(at)) <==> IsDir(d1, cat1, Sub(at));
    }
    FilesKeptMore(g, d1, cat1, d2, cat2, {loc});
    hide IsFile, WellFormed, NameAdded;
    TightKept(g, d1, cat1, d2, cat2, {loc});
  }

  /** fat_open_write on an entry that exists. */
  method OpenExisting(g: Geometry, disk: Disk, lba: nat, idx: nat, mode: Mode, owner: int, ghost name: seq<Byte>,
                      ghost cat: Catalog, ghost lost: set<U16>, ghost dir: DirRef)
    returns (ok: bool, f: OpenFile, ghost cat2: Catalog)
    requires WellFormed(g, disk.sectors, cat, lost) && FilesTight(g, disk.sectors, cat) && g.Fits(disk.sectors)
    requires CatClusters(g, cat)
    requires IsDir(disk.sectors, cat, dir) && Find(g, disk.sectors, cat, dir, name) == Some(Loc(lba, idx))
    requires Loc(lba, idx) in cat && LocOnDisk(disk.sectors, Loc(lba, idx))
    modifies disk
    ensures WellFormed(g, disk.sectors, cat2, lost) && FilesTight(g, disk.sectors, cat2)
    ensures g.Fits(disk.sectors) && CatClusters(g, cat2)
    ensures !ok ==> disk.sectors == old(disk.sectors) && cat2 == cat
    ensures !ok <==> RefusedIn(g, old(disk.sectors), cat, dir, name, mode)
    ensures ok ==>
      && Opened(g, old(disk.sectors), cat, disk.sectors, cat2, dir, name, mode, SlotOf(f))
      && Starts(g, disk.sectors, cat2, f, mode, SlotOf(f)) && f.owner == owner
  {
    hide *;
    ghost var d0, loc := disk.sectors, Loc(lba, idx);
    cat2 := cat;
    f := OpenFile(true, 0, 0, 0, 0, 0, true, lba, idx, owner);
    OnDiskLoc(d0, loc);
    SubHandle(g, d0, cat, lost, loc);
    RefusedOld(g, d0, cat, dir, name, mode, loc);
    ExistingFile(g, d0, cat, lost, loc);
    var isDirectory, head := ReadDirEntry(disk, lba, idx);
    if isDirectory || mode == Create {
      return false, f, cat;
    }
    if mode == Truncate {
      TruncateFile(g, disk, lba, idx, cat, lost);
      cat2 := cat[loc := []];
      SlotIs(f);
      TruncatedOpened(g, d0, cat, disk.sectors, lost, dir, name, f);
    } else {
      var size := EntrySize(disk.sectors[lba], idx);
      var cur, off, coff := head, 0, 0;
      if mode == Append {
        off := size;
        cur := 0;
        if head != 0 {
          cur := FindLastCluster(g, disk, head, cat[loc]);
          coff := AppendOffset(g, size);
        }
      }
      f := OpenFile(true, size, cur, head, coff, off, true, lba, idx, owner);
      SlotIs(f);
      ExistingOpened(g, d0, cat, lost, dir, name, mode, f);
    }
    ok := true;
  }

  lemma RefusedOld(g: Geometry, d: Image, cat: Catalog, dir: DirRef, name: seq<Byte>, mode: Mode, loc: Loc)
    requires g.Fits(d) && CatClusters(g, cat) && Find(g, d, cat, dir, name) == Some(loc)
    ensures RefusedIn(g, d, cat, dir, name, mode) <==> mode == Create || IsDir(d, cat, Sub(loc))
  {
  }

  lemma ExistingFile(g: Geometry, d: Image, cat: Catalog, lost: set<U16>, loc: Loc)
    requires WellFormed(g, d, cat, lost) && FilesTight(g, d, cat) && loc in cat && LocOnDisk(d, loc)
    ensures !IsDirectory(SlotAt(d, loc)) ==> IsFile(d, cat, loc) && TightFile(g, d, cat, loc)
    ensures EntryFirst(d[loc.lba], loc.idx) == Head(cat[loc]) && IsChain(Fat(g, d), cat[loc]) && 0 < g.ClusterSize()
    ensures Head(cat[loc]) == 0 <==> cat[loc] == []
    ensures Head(cat[loc]) != 0 ==> Head(cat[loc]) == cat[loc][0]
  {
    assert EntryOk(g, d, cat, loc);
    assert IsChain(Fat(g, d), cat[loc]);
  }

  lemma TruncatedOpened(g: Geometry, d: Image, cat: Catalog, d2: Image, lost: set<U16>, dir: DirRef, name: seq<Byte>,
                        f: OpenFile)
    requires WellFormed(g, d, cat, lost) && g.Fits(d) && CatClusters(g, cat) && FilesTight(g, d, cat)
    requires IsDir(d, cat, dir)
    requires Find(g, d, cat, dir, name) == Some(SlotOf(f)) && TightFile(g, d, cat, SlotOf(f))
    requires var loc := SlotOf(f);
             && WellFormed(g, d2, cat[loc := []], lost) && SameNames(g, d, cat, d2, cat[loc := []])
             && FilesKept(g, d, cat, d2, cat[loc := []], {loc})
             && TightFile(g, d2, cat[loc := []], loc) && FileBytes(g, d2, cat[loc := []], loc) == []
             && EntrySize(d2[loc.lba], loc.idx) == 0
    requires f.inUse && f.writable && f.fileSize == f.fileOffset == f.clusterOffset == 0
    requires f.currentCluster == f.firstCluster == 0
    ensures var loc, cat2 := SlotOf(f), cat[SlotOf(f) := []];
            && g.Fits(d2) && CatClusters(g, cat2) && FilesTight(g, d2, cat2)
            && Opened(g, d, cat, d2, cat2, dir, name, Truncate, loc) && Starts(g, d2, cat2, f, Truncate, loc)
  {
    var loc, cat2 := SlotOf(f), cat[SlotOf(f) := []];
    FoundStill(g, d, cat, lost, d2, cat2, dir, name);
    hide *;
    SameTight(g, d, cat, lost, d2, cat2, loc);
    EmptyStart(g, d2, cat2, loc, f, Truncate);
    OpenedIs(g, d, cat, d2, cat2, dir, name, Truncate, loc);
  }

  lemma FoundStill(g: Geometry, d: Image, cat: Catalog, lost: set<U16>, d2: Image, cat2: Catalog, dir: DirRef,
                   name: seq<Byte>)
    requires WellFormed(g, d, cat, lost) && g.Fits(d) && CatClusters(g, cat) && IsDir(d, cat, dir)
    requires SameNames(g, d, cat, d2, cat2)
    ensures g.Fits(d2) && CatClusters(g, cat2) && Find(g, d2, cat2, dir, name) == Find(g, d, cat, dir, name)
  {
    hide WellFormed;
  }

  lemma SameTight(g: Geometry, d: Image, cat: Catalog, lost: set<U16>, d2: Image, cat2: Catalog, loc: Loc)
    requires WellFormed(g, d, cat, lost) && FilesTight(g, d, cat) && CatClusters(g, cat)
    requires SameNames(g, d, cat, d2, cat2) && cat2.Keys <= cat.Keys
    requires FilesKept(g, d, cat, d2, cat2, {loc}) && TightFile(g, d2, cat2, loc)
    ensures FilesTight(g, d2, cat2)
  {
    hide *;
    forall at | IsFile(d2, cat2, at) && at !in {loc} ensures IsFile(d, cat, at) {
      SameFiles(g, d, cat, lost, d2, cat2, at);
    }
    TightKept(g, d, cat, d2, cat2, {loc});
  }

  lemma OpenedIs(g: Geometry, d: Image, cat: Catalog, d2: Image, cat2: Catalog, dir: DirRef, name: seq<Byte>,
                 mode: Mode, loc: Loc)
    requires g.Fits(d) && CatClusters(g, cat) && g.Fits(d2) && CatClusters(g, cat2) && mode != Create
    requires Find(g, d, cat, dir, name) == Some(loc) && Find(g, d2, cat2, dir, name) == Some(loc)
    requires TightFile(g, d, cat, loc)
    requires SameNames(g, d, cat, d2, cat2) && FilesKept(g, d, cat, d2, cat2, {loc})
    requires TightFile(g, d2, cat2, loc)
    requires FileBytes(g, d2, cat2, loc) == if mode == Truncate then [] else FileBytes(g, d, cat, loc)
    ensures Opened(g, d, cat, d2, cat2, dir, name, mode, loc)
  {
    hide SameNames, FilesKept, Find, FileBytes, TightFile;
  }

  lemma ExistingOpened(g: Geometry, d: Image, cat: Catalog, lost: set<U16>, dir: DirRef, name: seq<Byte>, mode: Mode,
                       f: OpenFile)
    requires WellFormed(g, d, cat, lost) && g.Fits(d) && CatClusters(g, cat) && (mode == Append || mode == Modify)
    requires Find(g, d, cat, dir, name) == Some(SlotOf(f)) && TightFile(g, d, cat, SlotOf(f))
    requires f.inUse && f.writable && f.fileSize == EntrySize(d[SlotOf(f).lba], SlotOf(f).idx)
    requires f.firstCluster == Head(cat[SlotOf(f)])
    requires mode == Append ==>
      && f.fileOffset == f.fileSize
      && f.currentCluster == (if cat[SlotOf(f)] == [] then 0 else cat[SlotOf(f)][|cat[SlotOf(f)]| - 1])
      && f.clusterOffset == if cat[SlotOf(f)] == [] then 0 else AppendOffset(g, f.fileSize)
    requires mode == Modify ==> f.fileOffset == f.clusterOffset == 0 && f.currentCluster == Head(cat[SlotOf(f)])
    ensures Opened(g, d, cat, d, cat, dir, name, mode, SlotOf(f)) && Starts(g, d, cat, f, mode, SlotOf(f))
  {
    hide *;
    KeptItself(g, d, cat, lost, dir);
    FilesKeptMore(g, d, cat, d, cat, {SlotOf(f)});
    ExistingStart(g, d, cat, lost, SlotOf(f), f, mode);
    OpenedIs(g, d, cat, d, cat, dir, name, mode, SlotOf(f));
  }
}
