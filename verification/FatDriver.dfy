/**
  The mounted FAT16 volume: the disk, the table of open files, and the driver's calls.
  Each call is proved to be one step of the relation in FatRuns.
*/
module FatDriver {
  import opened Common
  import opened FatDisk
  import opened FatChains
  import opened FatRead
  import opened FatWrite
  import opened FatDirs
  import opened FatCatalog
  import opened FatVolume
  import opened FatOps
  import opened FatMount
  import opened FatRuns

  // --------------------------------------------------------------- the descriptor table

  lemma FdsKept(g: Geometry, d: Image, cat: Catalog, d2: Image, cat2: Catalog, except: set<Loc>, files: seq<OpenFile>)
    requires FdsOk(g, d, cat, files) && FilesKept(g, d, cat, d2, cat2, except)
    requires forall k :: 0 <= k < |files| && Writing(files[k]) ==> SlotOf(files[k]) !in except
    ensures FdsOk(g, d2, cat2, files)
  {
    hide FdOk, FilesKept;
    forall k | 0 <= k < |files| && Writing(files[k]) ensures FdOk(g, d2, cat2, files[k]) {
      FdKept(g, d, cat, d2, cat2, except, files[k]);
    }
  }

  lemma FdsChange(g: Geometry, d: Image, cat: Catalog, files: seq<OpenFile>, i: nat, f: OpenFile)
    requires i < |files| && FdsOk(g, d, cat, files[i := files[i].(inUse := false)])
    requires Writing(f) ==> FdOk(g, d, cat, f)
    requires Writing(f) ==>
      forall k :: 0 <= k < |files| && k != i && Writing(files[k]) ==> SlotOf(files[k]) != SlotOf(f)
    ensures FdsOk(g, d, cat, files[i := f])
  {
    hide FdOk;
    var closed, now := files[i := files[i].(inUse := false)], files[i := f];
    assert forall k :: 0 <= k < |files| && k != i ==> closed[k] == files[k] == now[k];
  }

  lemma FdsClose(g: Geometry, d: Image, cat: Catalog, files: seq<OpenFile>, now: seq<OpenFile>)
    requires FdsOk(g, d, cat, files) && |now| == |files|
    requires forall k :: 0 <= k < |files| ==> now[k] == files[k] || !now[k].inUse
    ensures FdsOk(g, d, cat, now)
  {
    hide FdOk;
  }

  method FindSlot(files: array<OpenFile>) returns (i: nat)
    ensures i == FreeFd(files[..])
  {
    i := 0;
    while i < files.Length && files[i].inUse
      invariant 0 <= i <= files.Length
      invariant FreeFd(files[..]) == i + FreeFd(files[i..])
    {
      assert files[i..][1..] == files[i + 1..];
      i := i + 1;
    }
  }

  // ------------------------------------------------------------------------- opening

  lemma NobodyWrites(g: Geometry, v: Vol, dir: DirRef, name: seq<Byte>, mode: Mode, v2: Vol, loc: Loc)
    requires Sound(g, v) && g.Fits(v2.d) && CatClusters(g, v2.cat)
    requires Opened(g, v.d, v.cat, v2.d, v2.cat, dir, name, mode, loc)
    requires Find(g, v.d, v.cat, dir, name).Some? ==> !OpenForWriting(v, Find(g, v.d, v.cat, dir, name).value)
    ensures !OpenForWriting(v, loc)
  {
    hide WellFormed, FilesTight, Find, FilesKept, NameAdded, SameNames, FileBytes, Tight, CursorOn;
  }

  lemma OpenSound(g: Geometry, v: Vol, dir: DirRef, name: seq<Byte>, mode: Mode, d2: Image, cat2: Catalog, loc: Loc)
    requires Sound(g, v) && g.Fits(d2) && CatClusters(g, cat2) && WellFormed(g, d2, cat2, v.lost)
    requires FilesTight(g, d2, cat2)
    requires Opened(g, v.d, v.cat, d2, cat2, dir, name, mode, loc) && !OpenForWriting(v, loc)
    ensures Sound(g, Vol(d2, cat2, v.lost, v.files))
  {
    hide WellFormed, FilesTight, Find, FilesKept, NameAdded, SameNames, FileBytes, TightFile, FdsOk;
    if Find(g, v.d, v.cat, dir, name).None? {
      FdsKept(g, v.d, v.cat, d2, cat2, {}, v.files);
    } else {
      FdsKept(g, v.d, v.cat, d2, cat2, {loc}, v.files);
    }
  }

  lemma OpenSoundFd(g: Geometry, v: Vol, i: nat, f: OpenFile, mode: Mode)
    requires Sound(g, v) && i < |v.files| && !v.files[i].inUse && !OpenForWriting(v, SlotOf(f))
    requires Starts(g, v.d, v.cat, f, mode, SlotOf(f))
    ensures Sound(g, v.(files := v.files[i := f]))
  {
    hide WellFormed, FilesTight, FdsOk, FdOk;
    assert v.files[i := v.files[i].(inUse := false)] == v.files;
    FdsChange(g, v.d, v.cat, v.files, i, f);
  }

  lemma SoundFacts(g: Geometry, v: Vol)
    requires Sound(g, v)
    ensures g.Fits(v.d) && CatClusters(g, v.cat) && |v.files| == MAX_OPEN_FILES
    ensures WellFormed(g, v.d, v.cat, v.lost) && FilesTight(g, v.d, v.cat) && FdsOk(g, v.d, v.cat, v.files)
  {
  }

  lemma OpenRefused(g: Geometry, v: Vol, path: seq<Byte>, mode: Mode, owner: int)
    requires Sound(g, v) && Refused(g, v.d, v.cat, path, mode)
    ensures Step(g, v, DidOpen(path, mode, owner, -1), v)
  {
    hide WellFormed, FilesTight, FdsOk, Refused;
  }

  /** The whole effect of fat_open_write that got past its checks. */
  lemma OpenIsStep(g: Geometry, v: Vol, path: seq<Byte>, mode: Mode, owner: int, v2: Vol, dir: DirRef, name: seq<Byte>,
                   f: OpenFile, fd: int)
    requires Sound(g, v) && !Refused(g, v.d, v.cat, path, mode)
    requires Resolve(g, v.d, v.cat, Root, path) == Some((dir, name))
    requires g.Fits(v2.d) && CatClusters(g, v2.cat) && WellFormed(g, v2.d, v2.cat, v.lost)
    requires FilesTight(g, v2.d, v2.cat) && v2.lost == v.lost
    requires Opened(g, v.d, v.cat, v2.d, v2.cat, dir, name, mode, SlotOf(f))
    requires Starts(g, v2.d, v2.cat, f, mode, SlotOf(f)) && f.owner == owner
    requires Find(g, v.d, v.cat, dir, name).Some? ==> !OpenForWriting(v, Find(g, v.d, v.cat, dir, name).value)
    requires var i := FreeFd(v.files);
             if i < |v.files| then v2.files == v.files[i := f] && fd == FAT_FD_BASE + i
             else v2.files == v.files && fd == -1
    ensures Step(g, v, DidOpen(path, mode, owner, fd), v2)
  {
    hide WellFormed, FilesTight, FdsOk, Refused, Resolve, Opened, Starts, Find, OpenForWriting;
    NobodyWrites(g, v, dir, name, mode, v2, SlotOf(f));
    OpenSound(g, v, dir, name, mode, v2.d, v2.cat, SlotOf(f));
    var i, mid := FreeFd(v.files), Vol(v2.d, v2.cat, v.lost, v.files);
    SameTable(v, mid, SlotOf(f));
    if i < |v.files| {
      OpenSoundFd(g, mid, i, f, mode);
      assert mid.(files := mid.files[i := f]) == v2;
    } else {
      assert mid == v2;
    }
    OpenedFind(g, v, v2, dir, name, mode, SlotOf(f));
  }

  lemma SameTable(v: Vol, v2: Vol, loc: Loc)
    requires v2.files == v.files
    ensures OpenForWriting(v2, loc) == OpenForWriting(v, loc)
  {
  }

  lemma OpenedFind(g: Geometry, v: Vol, v2: Vol, dir: DirRef, name: seq<Byte>, mode: Mode, loc: Loc)
    requires g.Fits(v.d) && CatClusters(g, v.cat) && g.Fits(v2.d) && CatClusters(g, v2.cat)
    requires Opened(g, v.d, v.cat, v2.d, v2.cat, dir, name, mode, loc)
    ensures Find(g, v2.d, v2.cat, dir, name) == Some(loc)
  {
    hide Find, FilesKept, NameAdded, SameNames, FileBytes, TightFile;
  }

  // ------------------------------------------------------------------------- writing

  /** The cursor is in the last cluster of the file, or the file has none. */
  predicate AtLast(f: OpenFile, ch: seq<U16>) {
    ch == [] || f.currentCluster == ch[|ch| - 1]
  }

  /** The write stays inside the current cluster, or continues the chain at its end, or finds
      the disk full: it does not cut a chain in two. */
  ghost predicate InPlace(g: Geometry, v: Vol, fd: int, data: seq<Byte>)
    requires g.Fits(v.d)
  {
    WritableFd(v.files, fd) ==>
      var f := v.files[fd - FAT_FD_BASE];
      |data| <= Room(g, f) || FreeSet(Fat(g, v.d)) == {} || (SlotOf(f) in v.cat && AtLast(f, v.cat[SlotOf(f)]))
  }

  lemma AtLastIs(g: Geometry, f: OpenFile, ch: seq<U16>, j: int)
    requires CursorOn(g, f, ch, j) && NoDup(ch)
    ensures AtLast(f, ch) <==> j == |ch| - 1
  {
  }

  /** What fat_write finds at hand when it starts. */
  ghost predicate ReadyAt(g: Geometry, v: Vol, i: nat, home: int, j0: int)
    requires i < |v.files|
  {
    var f, loc := v.files[i], SlotOf(v.files[i]);
    && Ready(g, v.d, v.cat, v.lost, loc, home) && OpenOn(f, loc, v.cat[loc]) && CursorOn(g, f, v.cat[loc], j0)
    && SlotFirst(g, v.d, loc, v.cat[loc]) && f.fileOffset <= f.fileSize < 0x1_0000_0000
    && TightFile(g, v.d, v.cat, loc) && f.fileSize == EntrySize(v.d[loc.lba], loc.idx)
    && (forall at :: IsFile(v.d, v.cat, at) ==> home !in v.cat[at])
  }

  lemma GetReady(g: Geometry, v: Vol, i: nat) returns (home: int, j0: int)
    requires Sound(g, v) && i < |v.files| && Writing(v.files[i])
    ensures ReadyAt(g, v, i, home, j0)
  {
    hide DirOk, FilesTight, Partition, Mirrored, Fat;
    var f, loc := v.files[i], SlotOf(v.files[i]);
    assert FdOk(g, v.d, v.cat, f);
    home := EntryHome(g, v.d, v.cat, v.lost, loc);
    j0 :| CursorOn(g, f, v.cat[loc], j0);
    assert EntryOk(g, v.d, v.cat, loc);
  }

  /** What a write in place leaves in the file. */
  lemma WrittenBytes(g: Geometry, v: Vol, i: nat, home: int, j0: int, d2: Image, f2: OpenFile, ch: seq<U16>, j: int,
                     done: seq<Byte>, grown: bool)
    requires i < |v.files| && ReadyAt(g, v, i, home, j0)
    requires var f, loc := v.files[i], SlotOf(v.files[i]);
             && WriteInv(g, v.d, d2, v.cat, v.lost, loc, home, f, f2, j0, ch, j, done, grown)
             && EntrySize(d2[loc.lba], loc.idx) == f2.fileSize && (grown ==> f2.clusterOffset > 0)
             && IsFile(d2, v.cat[loc := ch], loc)
    requires !grown || j0 == |v.cat[SlotOf(v.files[i])]| - 1
    ensures var f, loc, v2 :=
      v.files[i], SlotOf(v.files[i]), Vol(d2, v.cat[SlotOf(v.files[i]) := ch], v.lost, v.files[i := f2]);
            && f.fileOffset <= |BytesAt(g, v, loc)|
            && BytesAt(g, v2, loc) == Overwrite(BytesAt(g, v, loc), f.fileOffset, done)
            && TightFile(g, d2, v2.cat, loc) && FdOk(g, d2, v2.cat, f2) && SlotOf(f2) == loc
            && Writing(f2) == Writing(f) && f2.owner == f.owner && f2.fileOffset == f.fileOffset + |done|
  {
    hide Ready, Progress, FileFrame, Content, Tight, Overwrite, Room, Fat;
    var f, loc := v.files[i], SlotOf(v.files[i]);
    WriteContent(g, v.d, d2, v.cat, v.lost, loc, home, f, f2, j0, ch, j, done, grown);
  }

  /** fat_write keeps the volume well formed, every name, and every other file. */
  lemma WriteKeepsForm(g: Geometry, v: Vol, i: nat, loc: Loc, home: int, j0: int, d2: Image, f2: OpenFile, ch: seq<U16>,
                       j: int, done: seq<Byte>, grown: bool)
    requires WellFormed(g, v.d, v.cat, v.lost) && i < |v.files| && loc == SlotOf(v.files[i])
    requires ReadyAt(g, v, i, home, j0)
    requires loc in v.cat && WriteInv(g, v.d, d2, v.cat, v.lost, loc, home, v.files[i], f2, j0, ch, j, done, grown)
    ensures WellFormed(g, d2, v.cat[loc := ch], LostAfter(v.lost, v.cat[loc], j0, grown))
    ensures IsFile(d2, v.cat[loc := ch], loc)
    ensures SameNames(g, v.d, v.cat, d2, v.cat[loc := ch]) && FilesKept(g, v.d, v.cat, d2, v.cat[loc := ch], {loc})
  {
    hide *;
    ReadyHome(g, v, i, home, j0);
    WriteOnVolume(g, v.d, v.cat, v.lost, loc, home, d2, v.files[i], f2, j0, ch, j, done, grown);
    SameNamesFromDirectories(g, v.d, v.cat, d2, v.cat[loc := ch]);
  }

  /** A descriptor at the end of its file always writes in place, so create, truncate and
      append never lose a cluster. */
  lemma AppendsInPlace(g: Geometry, v: Vol, fd: int, data: seq<Byte>)
    requires Sound(g, v) && WritableFd(v.files, fd)
    requires v.files[fd - FAT_FD_BASE].fileOffset == v.files[fd - FAT_FD_BASE].fileSize
    ensures InPlace(g, v, fd, data)
  {
    hide WellFormed, FilesTight, Fat, FreeSet, Room;
    var f, loc := v.files[fd - FAT_FD_BASE], SlotOf(v.files[fd - FAT_FD_BASE]);
    assert FdOk(g, v.d, v.cat, f);
    var j :| CursorOn(g, f, v.cat[loc], j);
    EndIsLast(g, f, v.cat[loc], j);
  }

  lemma EndIsLast(g: Geometry, f: OpenFile, ch: seq<U16>, j: int)
    requires g.Valid() && CursorOn(g, f, ch, j) && Tight(g, ch, f.fileSize) && f.fileOffset == f.fileSize
    ensures AtLast(f, ch)
  {
    if ch != [] && j < |ch| - 1 {
      Multiply(j + 1, |ch| - 1, g.ClusterSize());
    }
  }

  lemma ReadyHome(g: Geometry, v: Vol, i: nat, home: int, j0: int)
    requires i < |v.files| && ReadyAt(g, v, i, home, j0)
    ensures IsFile(v.d, v.cat, SlotOf(v.files[i])) && HomeOf(g, home, SlotOf(v.files[i]).lba)
    ensures forall at :: IsFile(v.d, v.cat, at) ==> home !in v.cat[at]
  {
  }

  /** A write loses clusters exactly when it is not in place. */
  lemma LosesExactly(g: Geometry, v: Vol, fd: int, data: seq<Byte>, home: int, j0: int, grown: bool)
    requires g.Fits(v.d) && WritableFd(v.files, fd) && ReadyAt(g, v, fd - FAT_FD_BASE, home, j0)
    requires grown <==> |data| > Room(g, v.files[fd - FAT_FD_BASE]) && FreeSet(Fat(g, v.d)) != {}
    ensures var loc := SlotOf(v.files[fd - FAT_FD_BASE]);
            && loc in v.cat && -1 <= j0 < |v.cat[loc]|
            && (LostAfter(v.lost, v.cat[loc], j0, grown) == v.lost <==> InPlace(g, v, fd, data))
            && (InPlace(g, v, fd, data) <==> !grown || j0 == |v.cat[loc]| - 1)
  {
    hide LostAfter, OpenOn, SlotFirst, TightFile, Fat, FreeSet, Mirrored, IsFile, Room;
    var f, loc := v.files[fd - FAT_FD_BASE], SlotOf(v.files[fd - FAT_FD_BASE]);
    CursorInRange(g, f, v.cat[loc], j0);
    LostExactly(Fat(g, v.d), v.cat, v.lost, loc, j0, grown);
    assert IsChain(Fat(g, v.d), v.cat[loc]);
    AtLastIs(g, f, v.cat[loc], j0);
  }

  lemma CursorInRange(g: Geometry, f: OpenFile, ch: seq<U16>, j: int)
    requires CursorOn(g, f, ch, j)
    ensures -1 <= j < |ch|
  {
  }

  /** fat_write in place is a step of the volume. */
  lemma WriteIsStep(g: Geometry, v: Vol, i: nat, loc: Loc, data: seq<Byte>, r: nat, home: int, j0: int, v2: Vol,
                    f2: OpenFile, ch: seq<U16>, j: int, grown: bool)
    requires Sound(g, v) && i < |v.files| && Writing(v.files[i]) && loc == SlotOf(v.files[i]) && loc in v.cat
    requires ReadyAt(g, v, i, home, j0) && r <= |data| && v2 == Vol(v2.d, v.cat[loc := ch], v.lost, v.files[i := f2])
    requires WriteInv(g, v.d, v2.d, v.cat, v.lost, loc, home, v.files[i], f2, j0, ch, j, data[..r], grown)
    requires LocOnDisk(v2.d, loc) && EntrySize(v2.d[loc.lba], loc.idx) == f2.fileSize
    requires (grown ==> f2.clusterOffset > 0)
    requires !grown || j0 == |v.cat[loc]| - 1
    requires WellFormed(g, v2.d, v2.cat, v2.lost) && SameNames(g, v.d, v.cat, v2.d, v2.cat)
    requires FilesKept(g, v.d, v.cat, v2.d, v2.cat, {loc}) && IsFile(v2.d, v2.cat, loc)
    requires g.Fits(v2.d) && CatClusters(g, v2.cat) && (r < |data| ==> FreeSet(Fat(g, v2.d)) == {})
    ensures Sound(g, v2) && Step(g, v, DidWrite(FAT_FD_BASE + i, data, r), v2)
  {
    hide WellFormed, FilesTight, FdsOk, FdOk, ReadyAt, WriteInv, SameNames, FilesKept, BytesAt, Overwrite, TightFile,
         FreeSet, Fat, IsFile;
    WrittenBytes(g, v, i, home, j0, v2.d, f2, ch, j, data[..r], grown);
    SameTight(g, v.d, v.cat, v.lost, v2.d, v2.cat, loc);
    WriteFds(g, v, i, v2.d, v2.cat, f2);
  }

  lemma ReadyIs(g: Geometry, v: Vol, i: nat, home: int, j0: int)
    requires i < |v.files| && ReadyAt(g, v, i, home, j0)
    ensures var f, loc := v.files[i], SlotOf(v.files[i]);
            && Ready(g, v.d, v.cat, v.lost, loc, home) && OpenOn(f, loc, v.cat[loc]) && CursorOn(g, f, v.cat[loc], j0)
            && SlotFirst(g, v.d, loc, v.cat[loc]) && f.fileOffset <= f.fileSize < 0x1_0000_0000
  {
  }

  lemma FileOnDisk(d: Image, cat: Catalog, loc: Loc)
    requires IsFile(d, cat, loc)
    ensures LocOnDisk(d, loc)
  {
  }

  lemma WriteFds(g: Geometry, v: Vol, i: nat, d2: Image, cat2: Catalog, f2: OpenFile)
    requires FdsOk(g, v.d, v.cat, v.files) && i < |v.files| && Writing(v.files[i])
    requires FilesKept(g, v.d, v.cat, d2, cat2, {SlotOf(v.files[i])}) && FdOk(g, d2, cat2, f2)
    requires SlotOf(f2) == SlotOf(v.files[i])
    ensures FdsOk(g, d2, cat2, v.files[i := f2])
  {
    var closed := v.files[i := v.files[i].(inUse := false)];
    assert forall k :: 0 <= k < |v.files| && k != i && Writing(v.files[k]) ==> SlotOf(v.files[k]) != SlotOf(v.files[i]);
    hide FdOk, FilesKept;
    FdsClose(g, v.d, v.cat, v.files, closed);
    FdsKept(g, v.d, v.cat, d2, cat2, {SlotOf(v.files[i])}, closed);
    FdsChange(g, d2, cat2, v.files, i, f2);
  }

  /** The slot of the file that a write on fd goes to. */
  ghost function WrittenSlots(v: Vol, fd: int): (s: set<Loc>) {
    if WritableFd(v.files, fd) then {SlotOf(v.files[fd - FAT_FD_BASE])} else {}
  }

  lemma AllKept(g: Geometry, v: Vol)
    requires Sound(g, v)
    ensures SameNames(g, v.d, v.cat, v.d, v.cat) && FilesKept(g, v.d, v.cat, v.d, v.cat, {})
  {
    hide FileBytes, TightFile, Fat, ReservedKept;
    ReservedRefl(Fat(g, v.d));
    SameItself(g, v);
  }

  lemma WriteRefused(g: Geometry, v: Vol, fd: int, data: seq<Byte>)
    requires Sound(g, v) && !WritableFd(v.files, fd)
    ensures Step(g, v, DidWrite(fd, data, -1), v)
  {
    hide WellFormed, FilesTight, FdsOk;
  }

  // ------------------------------------------------------------ seeking and closing

  /** fat_seek leaves a write descriptor on its file, at the offset asked for. */
  lemma SeekFd(g: Geometry, v: Vol, i: nat, offset: nat)
    requires Sound(g, v) && i < |v.files| && offset <= v.files[i].fileSize
    requires 0 < g.ClusterSize()
    ensures var (cluster, rest) := SeekWalk(g, v.d, v.files[i].firstCluster, offset);
            Writing(v.files[i]) ==> FdOk(g, v.d, v.cat,
              v.files[i].(currentCluster := cluster, clusterOffset := rest, fileOffset := offset))
  {
    hide DirOk, FilesTight, Mirrored, Fat, SeekWalk;
    var f, loc := v.files[i], SlotOf(v.files[i]);
    if Writing(f) {
      assert FdOk(g, v.d, v.cat, f);
      var (cluster, rest) := SeekWalk(g, v.d, f.firstCluster, offset);
      var f2 := f.(currentCluster := cluster, clusterOffset := rest, fileOffset := offset);
      if v.cat[loc] == [] {
        SeekNowhere(g, v.d, f.firstCluster);
        assert CursorOn(g, f2, [], -1);
      } else {
        var j := SeekOnChain(g, v.d, v.cat[loc], 0, offset);
        assert CursorOn(g, f2, v.cat[loc], j);
      }
    }
  }

  lemma SeekNowhere(g: Geometry, d: Image, cluster: U16)
    requires 0 < g.ClusterSize()
    ensures SeekWalk(g, d, cluster, 0) == (cluster, 0)
  {
  }

  lemma SeekIsStep(g: Geometry, v: Vol, fd: int, offset: nat, v2: Vol)
    requires Sound(g, v) && ValidFd(v.files, fd) && offset <= v.files[fd - FAT_FD_BASE].fileSize && 0 < g.ClusterSize()
    requires var (cluster, rest) := SeekWalk(g, v.d, v.files[fd - FAT_FD_BASE].firstCluster, offset);
             v2 == v.(files := v.files[fd - FAT_FD_BASE :=
               v.files[fd - FAT_FD_BASE].(currentCluster := cluster, clusterOffset := rest, fileOffset := offset)])
    ensures Step(g, v, DidSeek(fd, offset, 0), v2)
  {
    hide WellFormed, FilesTight, FdsOk, FdOk, SeekWalk;
    var i := fd - FAT_FD_BASE;
    var f := v2.files[i];
    SeekFd(g, v, i, offset);
    FdsClose(g, v.d, v.cat, v.files, v.files[i := v.files[i].(inUse := false)]);
    if Writing(v.files[i]) {
      OneWriterEach(g, v, i);
    }
    FdsChange(g, v.d, v.cat, v.files, i, f);
  }

  lemma SeekRefused(g: Geometry, v: Vol, fd: int, offset: nat)
    requires Sound(g, v) && !(ValidFd(v.files, fd) && offset <= v.files[fd - FAT_FD_BASE].fileSize)
    ensures Step(g, v, DidSeek(fd, offset, -1), v)
  {
    hide WellFormed, FilesTight, FdsOk;
  }

  lemma CloseIsStep(g: Geometry, v: Vol, e: Event, v2: Vol)
    requires Sound(g, v) && v2.lost == v.lost
    requires (e.DidClose? && CloseStep(v, e.fd, e.r, v2)) || (e.DidCloseAll? && CloseAllStep(v, e.owner, v2))
    ensures Step(g, v, e, v2)
  {
    hide WellFormed, FilesTight, FdsOk;
    FdsClose(g, v.d, v.cat, v.files, v2.files);
  }

  // ---------------------------------------------------------------------- directories

  lemma MkdirIsStep(g: Geometry, v: Vol, path: seq<Byte>, r: int, v2: Vol, loc: Loc)
    requires Sound(g, v) && v2.files == v.files && v2.lost == v.lost && WellFormed(g, v2.d, v2.cat, v2.lost)
    requires var where := Resolve(g, v.d, v.cat, Root, path);
             && (r == -1 || r == 0)
             && (r == -1 <==>
                   || where.None? || Find(g, v.d, v.cat, where.value.0, where.value.1).Some?
                   || MkdirHasNoRoom(g, v.d, v.cat, where.value.0))
             && (r == -1 ==> v2.cat == v.cat && Quiet(g, v.d, v.cat, v2.d, v2.cat))
             && (r == 0 ==>
                   && OneMore(g, v.d, v.cat, v2.d, v2.cat, where.value.0, where.value.1, loc, true)
                   && v2.cat.Keys == v.cat.Keys + {loc})
    ensures Step(g, v, DidMkdir(path, r), v2)
  {
    hide WellFormed, FilesTight, FdsOk, Resolve, Find, MkdirHasNoRoom, SameNames, NameAdded, FilesKept;
    FitsAgain(g, v2.d, v2.cat, v2.lost);
    FdsKept(g, v.d, v.cat, v2.d, v2.cat, {}, v.files);
    if r == -1 {
      QuietTight(g, v, v2);
    } else {
      var where := Resolve(g, v.d, v.cat, Root, path).value;
      DirAddedTight(g, v, v2, where.0, where.1, loc);
    }
  }

  lemma QuietTight(g: Geometry, v: Vol, v2: Vol)
    requires WellFormed(g, v.d, v.cat, v.lost) && FilesTight(g, v.d, v.cat) && v2.cat == v.cat && CatClusters(g, v.cat)
    requires Quiet(g, v.d, v.cat, v2.d, v2.cat)
    ensures FilesTight(g, v2.d, v2.cat)
  {
    hide WellFormed, FilesTight, SameNames, FilesKept, IsFile, TightFile;
    forall at | IsFile(v2.d, v2.cat, at) && at !in {} ensures IsFile(v.d, v.cat, at) {
      SameFiles(g, v.d, v.cat, v.lost, v2.d, v2.cat, at);
    }
    TightKept(g, v.d, v.cat, v2.d, v2.cat, {});
  }

  lemma DirAddedTight(g: Geometry, v: Vol, v2: Vol, dir: DirRef, name: seq<Byte>, loc: Loc)
    requires WellFormed(g, v.d, v.cat, v.lost) && FilesTight(g, v.d, v.cat) && CatClusters(g, v.cat)
    requires OneMore(g, v.d, v.cat, v2.d, v2.cat, dir, name, loc, true) && v2.cat.Keys == v.cat.Keys + {loc}
    ensures FilesTight(g, v2.d, v2.cat)
  {
    hide WellFormed, FilesTight, FilesKept, TightFile, Find, EntryOk;
    forall at | IsFile(v2.d, v2.cat, at) && at !in {} ensures IsFile(v.d, v.cat, at) {
      EntryFacts(g, v.d, v.cat, v.lost, at);
      assert IsDir(v2.d, v2.cat, Sub(at)) <==> IsDir(v.d, v.cat, Sub(at));
    }
    hide IsFile, NameAdded;
    TightKept(g, v.d, v.cat, v2.d, v2.cat, {});
  }

  // -------------------------------------------------------------------------- reading

  /** Following a tight file's chain from its head gives the file's bytes. */
  lemma StreamIsFile(g: Geometry, v: Vol, loc: Loc)
    requires Sound(g, v) && TightFile(g, v.d, v.cat, loc) && 0 < g.ClusterSize()
    ensures Stream(g, v.d, EntryFirst(v.d[loc.lba], loc.idx), 0, EntrySize(v.d[loc.lba], loc.idx))
      == FileBytes(g, v.d, v.cat, loc)
  {
    var ch, size := v.cat[loc], EntrySize(v.d[loc.lba], loc.idx);
    assert EntryOk(g, v.d, v.cat, loc) && IsChain(Fat(g, v.d), ch);
    hide WellFormed, FilesTight, FdsOk, EntryOk, Fat;
    if ch != [] {
      ChainBytesLength(g, v.d, ch);
      assert ch[0..] == ch;
      StreamOnChain(g, v.d, ch, 0, 0, size);
    }
  }

  /** What fat_find_entry leads fat_read_file to return. */
  lemma ReadIs(g: Geometry, v: Vol, path: seq<Byte>, loc: Loc, size: nat)
    requires Sound(g, v) && Target(g, v, path) == Some(loc) && loc in v.cat && LocOnDisk(v.d, loc)
    ensures if IsDirectory(SlotAt(v.d, loc)) || EntrySize(v.d[loc.lba], loc.idx) > size
      then ReadResult(g, v, path, size) == None
            else TightFile(g, v.d, v.cat, loc) && ReadResult(g, v, path, size) == Some(FileBytes(g, v.d, v.cat, loc))
  {
    hide WellFormed, FdsOk, Target;
    ExistingFile(g, v.d, v.cat, v.lost, loc);
  }

  class Volume {
    const g: Geometry
    const disk: Disk
    const files: array<OpenFile>
    ghost var cat: Catalog
    ghost var lost: set<U16>

    ghost function State(): (v: Vol)
      reads this, disk, files
    {
      Vol(disk.sectors, cat, lost, files[..])
    }

    ghost predicate Valid()
      reads this, disk, files
    {
      Sound(g, State())
    }

    /** fat_init: a volume whose disk is well formed, with no file open. */
    constructor (g: Geometry, disk: Disk, ghost cat: Catalog, ghost lost: set<U16>)
      requires g.Fits(disk.sectors) && CatClusters(g, cat) && WellFormed(g, disk.sectors, cat, lost)
      requires FilesTight(g, disk.sectors, cat)
      ensures Valid() && this.disk == disk && this.g == g && this.cat == cat && this.lost == lost && fresh(files)
      ensures forall k :: 0 <= k < |State().files| ==> !State().files[k].inUse
    {
      this.g, this.disk, this.cat, this.lost := g, disk, cat, lost;
      files := new OpenFile[MAX_OPEN_FILES](_ => OpenFile(false, 0, 0, 0, 0, 0, false, 0, 0, 0));
    }

    /** fat_open_write. */
    method OpenWrite(path: seq<Byte>, mode: Mode, owner: int) returns (fd: int)
      requires Valid() && StorablePath(g, disk.sectors, cat, path)
      requires Target(g, State(), path).Some? ==> !OpenForWriting(State(), Target(g, State(), path).value)
      modifies this, disk, files
      ensures Valid() && Step(g, old(State()), DidOpen(path, mode, owner, fd), State())
    {
      hide Sound, WellFormed, FilesTight, Refused, Resolve, Find, Opened, Starts, Step, OpenForWriting, CatClusters,
           StorablePath;
      ghost var v := State();
      SoundFacts(g, v);
      var ok, f;
      ghost var cat2, dir, name;
      ok, f, cat2, dir, name := OpenEntry(g, disk, path, mode, owner, cat, lost);
      if !ok {
        OpenRefused(g, v, path, mode, owner);
        assert State() == v;
        return -1;
      }
      cat := cat2;
      var i := FindSlot(files);
      if i < files.Length {
        files[i] := f;
        fd := FAT_FD_BASE + i;
        assert files[..] == v.files[i := f];
      } else {
        fd := -1;
      }
      OpenIsStep(g, v, path, mode, owner, State(), dir, name, f, fd);
      StepSound(g, v, DidOpen(path, mode, owner, fd), State());
    }

    /** fat_write.  Whatever it does, it keeps the volume well formed, every name, and every file
        but its own; clusters are lost exactly when it is not in place, and in place it is a step. */
    method Write(fd: int, data: seq<Byte>) returns (r: int)
      requires Valid()
      modifies this, disk, files
      ensures WellFormed(g, disk.sectors, cat, lost) && g.Fits(old(disk.sectors))
      ensures SameNames(g, old(disk.sectors), old(cat), disk.sectors, cat)
      ensures FilesKept(g, old(disk.sectors), old(cat), disk.sectors, cat, WrittenSlots(old(State()), fd))
      ensures lost == old(lost) <==> InPlace(g, old(State()), fd, data)
      ensures InPlace(g, old(State()), fd, data) ==> Valid() && Step(g, old(State()), DidWrite(fd, data, r), State())
    {
      hide Sound, WellFormed, FilesTight, FdsOk, Step, ReadyAt, WriteInv, CatClusters, SameNames, FilesKept, IsFile,
           FreeSet, Fat;
      ghost var v := State();
      SoundFacts(g, v);
      if FAT_FD_BASE <= fd < FAT_FD_BASE + MAX_OPEN_FILES && files[fd - FAT_FD_BASE].inUse
        && files[fd - FAT_FD_BASE].writable {
        ghost var i := fd - FAT_FD_BASE;
        ghost var loc := SlotOf(v.files[i]);
        ghost var home, j0 := GetReady(g, v, i);
        ReadyIs(g, v, i, home, j0);
        ghost var ch, j, grown;
        r, ch, j, grown := FatWrite.Write(g, disk, files, fd, data, cat, lost, loc, home, j0);
        WriteKeepsForm(g, v, i, loc, home, j0, disk.sectors, files[i], ch, j, data[..r], grown);
        LosesExactly(g, v, fd, data, home, j0, grown);
        cat, lost := cat[loc := ch], LostAfter(lost, cat[loc], j0, grown);
        FitsAgain(g, disk.sectors, cat, lost);
        if InPlace(g, v, fd, data) {
          FileOnDisk(disk.sectors, cat, loc);
          WriteIsStep(g, v, i, loc, data, r, home, j0, State(), files[i], ch, j, grown);
        }
      } else {
        r := -1;
        WriteRefused(g, v, fd, data);
        AllKept(g, v);
      }
    }

    /** fat_seek. */
    method Seek(fd: int, offset: nat) returns (r: int)
      requires Valid()
      modifies files
      ensures Valid() && Step(g, old(State()), DidSeek(fd, offset, r), State())
    {
      hide Sound, WellFormed, FilesTight, FdsOk, Step, SeekWalk;
      ghost var v := State();
      SoundFacts(g, v);
      r := FatRead.Seek(g, disk, files, fd, offset);
      if r == 0 {
        SeekIsStep(g, v, fd, offset, State());
      } else {
        SeekRefused(g, v, fd, offset);
        assert State() == v;
      }
      StepSound(g, v, DidSeek(fd, offset, r), State());
    }

    /** fat_close. */
    method Close(fd: int) returns (r: int)
      requires Valid()
      modifies files
      ensures Valid() && Step(g, old(State()), DidClose(fd, r), State())
    {
      hide Sound, WellFormed, FilesTight, FdsOk, Step;
      ghost var v := State();
      SoundFacts(g, v);
      if FAT_FD_BASE <= fd < FAT_FD_BASE + MAX_OPEN_FILES && files[fd - FAT_FD_BASE].inUse {
        files[fd - FAT_FD_BASE] := files[fd - FAT_FD_BASE].(inUse := false);
        r := 0;
      } else {
        r := -1;
      }
      CloseIsStep(g, v, DidClose(fd, r), State());
      StepSound(g, v, DidClose(fd, r), State());
    }

    /** fat_close_all_for_task. */
    method CloseAllForTask(owner: int)
      requires Valid()
      modifies files
      ensures Valid() && Step(g, old(State()), DidCloseAll(owner), State())
      ensures forall k :: 0 <= k < |State().files| && State().files[k].inUse ==> State().files[k].owner != owner
    {
      hide Sound, WellFormed, FilesTight, FdsOk, Step;
      ghost var v := State();
      SoundFacts(g, v);
      var i := 0;
      while i < files.Length
        invariant 0 <= i <= files.Length == |v.files|
        invariant forall k :: 0 <= k < i ==>
          files[k] == if v.files[k].inUse && v.files[k].owner == owner then v.files[k].(inUse := false) else v.files[k]
        invariant forall k :: i <= k < files.Length ==> files[k] == v.files[k]
        invariant disk.sectors == v.d && cat == v.cat && lost == v.lost
      {
        if files[i].inUse && files[i].owner == owner {
          files[i] := files[i].(inUse := false);
        }
        i := i + 1;
      }
      CloseIsStep(g, v, DidCloseAll(owner), State());
      StepSound(g, v, DidCloseAll(owner), State());
    }

    /** fat_mkdir. */
    method Mkdir(path: seq<Byte>) returns (r: int)
      requires Valid() && StorablePath(g, disk.sectors, cat, path)
      modifies this, disk
      ensures Valid() && Step(g, old(State()), DidMkdir(path, r), State())
    {
      hide Sound, WellFormed, FilesTight, FdsOk, Step, Resolve, Find, MkdirHasNoRoom, Quiet, OneMore, CatClusters,
           IsDir, Handle;
      ghost var v := State();
      SoundFacts(g, v);
      QuietItself(g, v.d, v.cat, v.lost);
      r := -1;
      ghost var loc := Loc(0, 0);
      var resolved, isRoot, first, name;
      ghost var dir;
      resolved, isRoot, first, name, dir := ResolveParent(g, disk, path, cat, lost);
      if resolved {
        var found, lba, idx := FindEntry(g, disk, isRoot, first, name, cat, lost, dir);
        if !found {
          var ok;
          ghost var cat2;
          ok, cat2, loc := MakeDirIn(g, disk, isRoot, first, name, cat, lost, dir);
          cat := cat2;
          r := if ok then 0 else -1;
        }
      }
      MkdirIsStep(g, v, path, r, State(), loc);
      StepSound(g, v, DidMkdir(path, r), State());
    }

    /** fat_read_file. */
    method ReadFile(path: seq<Byte>, buffer: array<Byte>) returns (r: int)
      requires Valid()
      modifies buffer
      ensures Valid() && State() == old(State())
      ensures ReadResult(g, State(), path, buffer.Length) == None ==> r == -1 && buffer[..] == old(buffer[..])
      ensures ReadResult(g, State(), path, buffer.Length).Some? ==>
        0 <= r <= buffer.Length && buffer[..r] == ReadResult(g, State(), path, buffer.Length).value
          && buffer[r..] == old(buffer[r..])
    {
      hide Sound, WellFormed, FilesTight, FdsOk, Resolve, Find, CatClusters, IsDir, Handle, Stream, FileBytes,
           TightFile;
      ghost var v := State();
      SoundFacts(g, v);
      r := -1;
      var resolved, isRoot, first, name;
      ghost var dir;
      resolved, isRoot, first, name, dir := ResolveParent(g, disk, path, cat, lost);
      if resolved {
        var found, lba, idx := FindEntry(g, disk, isRoot, first, name, cat, lost, dir);
        if found {
          ReadIs(g, v, path, Loc(lba, idx), buffer.Length);
          var isDirectory, head := ReadDirEntry(disk, lba, idx);
          var size := EntrySize(disk.sectors[lba], idx);
          if !isDirectory && size <= buffer.Length {
            StreamIsFile(g, v, Loc(lba, idx));
            r := ReadWhole(g, disk, head, size, buffer);
          }
        }
      }
    }
  }
}
