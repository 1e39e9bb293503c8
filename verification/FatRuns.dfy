/**
  Whole runs of the file system: any sequence of opens, writes, seeks, directory creations
  and closes, by any tasks, seen through the step relation that the driver's calls obey.
*/
module FatRuns {
  import opened Common
  import opened FatDisk
  import opened FatChains
  import opened FatRead
  import opened FatWrite
  import opened FatDirs
  import opened FatCatalog
  import opened FatVolume
  import opened FatOps
  import opened FatMount

  /** The state between two calls: the disk, the table of open files, and what the entries of
      the directory tree own. */
  datatype Vol = Vol(d: Image, cat: Catalog, lost: set<U16>, files: seq<OpenFile>)

  /** What every call keeps. */
  ghost predicate Sound(g: Geometry, v: Vol) {
    && |v.files| == MAX_OPEN_FILES && g.Fits(v.d) && CatClusters(g, v.cat)
    && WellFormed(g, v.d, v.cat, v.lost) && FilesTight(g, v.d, v.cat) && FdsOk(g, v.d, v.cat, v.files)
  }

  /** The calls with their results. */
  datatype Event =
    | DidOpen(path: seq<Byte>, mode: Mode, owner: int, fd: int)
    | DidWrite(fd: int, data: seq<Byte>, r: int)
    | DidSeek(fd: int, offset: nat, r: int)
    | DidMkdir(path: seq<Byte>, r: int)
    | DidClose(fd: int, r: int)
    | DidCloseAll(owner: int)

  // ------------------------------------------------------------------------ paths and files

  /** The entry a path leads to from a directory. */
  ghost function Leads(g: Geometry, d: Image, cat: Catalog, from: DirRef, path: seq<Byte>): (r: Option<Loc>)
    requires g.Fits(d) && CatClusters(g, cat)
  {
    match Resolve(g, d, cat, from, path)
    case None => None
    case Some(p) => Find(g, d, cat, p.0, p.1)
  }

  /** The entry a path leads to. */
  ghost function Target(g: Geometry, v: Vol, path: seq<Byte>): (r: Option<Loc>)
    requires g.Fits(v.d) && CatClusters(g, v.cat)
  {
    Leads(g, v.d, v.cat, Root, path)
  }

  /** What fat_read_file has to return for a buffer of the given size. */
  ghost function ReadResult(g: Geometry, v: Vol, path: seq<Byte>, size: nat): (r: Option<seq<Byte>>)
    requires Sound(g, v)
  {
    match Target(g, v, path)
    case None => None
    case Some(loc) =>
      if TightFile(g, v.d, v.cat, loc) && |FileBytes(g, v.d, v.cat, loc)| <= size
        then Some(FileBytes(g, v.d, v.cat, loc)) else None
  }

  /** The bytes of the file at an entry; nothing if there is no file. */
  ghost function BytesAt(g: Geometry, v: Vol, at: Loc): (s: seq<Byte>) {
    if g.Fits(v.d) && TightFile(g, v.d, v.cat, at) then FileBytes(g, v.d, v.cat, at) else []
  }

  ghost predicate OpenForWriting(v: Vol, loc: Loc) {
    exists k :: 0 <= k < |v.files| && Writing(v.files[k]) && SlotOf(v.files[k]) == loc
  }

  // --------------------------------------------------------------------- the step relation

  function FreeFd(files: seq<OpenFile>): (i: nat)
    ensures i <= |files| && (i < |files| ==> !files[i].inUse)
    ensures forall k :: 0 <= k < i ==> files[k].inUse
  {
    if files == [] || !files[0].inUse then 0 else 1 + FreeFd(files[1..])
  }

  ghost predicate OpenStep(g: Geometry, v: Vol, path: seq<Byte>, mode: Mode, owner: int, fd: int, v2: Vol)
    requires Sound(g, v) && Sound(g, v2)
  {
    if Refused(g, v.d, v.cat, path, mode) then fd == -1 && v2 == v
    else
      var where, i := Resolve(g, v.d, v.cat, Root, path).value, FreeFd(v.files);
      && Find(g, v2.d, v2.cat, where.0, where.1).Some?
      && var loc := Find(g, v2.d, v2.cat, where.0, where.1).value;
         && Opened(g, v.d, v.cat, v2.d, v2.cat, where.0, where.1, mode, loc) && !OpenForWriting(v, loc)
         && if i == MAX_OPEN_FILES then fd == -1 && v2.files == v.files
            else fd == FAT_FD_BASE + i && v2.files == v.files[i := v2.files[i]]
                 && Starts(g, v2.d, v2.cat, v2.files[i], mode, loc) && v2.files[i].owner == owner
  }

  ghost predicate WriteStep(g: Geometry, v: Vol, fd: int, data: seq<Byte>, r: int, v2: Vol)
    requires g.Fits(v2.d) && |v2.files| == |v.files|
  {
    if !WritableFd(v.files, fd) then r == -1 && v2 == v
    else
      var i := fd - FAT_FD_BASE;
      var f, f2 := v.files[i], v2.files[i];
      var before := BytesAt(g, v, SlotOf(f));
      && 0 <= r <= |data| && (r < |data| ==> FreeSet(Fat(g, v2.d)) == {})
      && SameNames(g, v.d, v.cat, v2.d, v2.cat) && FilesKept(g, v.d, v.cat, v2.d, v2.cat, {SlotOf(f)})
      && v2.files == v.files[i := f2] && Writing(f2) && SlotOf(f2) == SlotOf(f) && f2.owner == f.owner
      && f.fileOffset <= |before| && f2.fileOffset == f.fileOffset + r
      && BytesAt(g, v2, SlotOf(f)) == Overwrite(before, f.fileOffset, data[..r])
  }

  ghost predicate SeekStep(g: Geometry, v: Vol, fd: int, offset: nat, r: int, v2: Vol)
    requires Sound(g, v)
  {
    && v2.d == v.d && v2.cat == v.cat
    && (r == 0 <==> ValidFd(v.files, fd) && offset <= v.files[fd - FAT_FD_BASE].fileSize)
    && (r != 0 ==> r == -1 && v2 == v)
    && (r == 0 ==>
          var i := fd - FAT_FD_BASE;
          && |v2.files| == |v.files| && v2.files == v.files[i := v2.files[i]]
          && v2.files[i] == v.files[i].(currentCluster := v2.files[i].currentCluster,
                                        clusterOffset := v2.files[i].clusterOffset, fileOffset := offset))
  }

  ghost predicate MkdirStep(g: Geometry, v: Vol, path: seq<Byte>, r: int, v2: Vol)
    requires Sound(g, v)
  {
    var where := Resolve(g, v.d, v.cat, Root, path);
    && v2.files == v.files
    && (r == -1 <==>
          || where.None? || Find(g, v.d, v.cat, where.value.0, where.value.1).Some?
          || MkdirHasNoRoom(g, v.d, v.cat, where.value.0))
    && (r == -1 ==> v2.cat == v.cat && Quiet(g, v.d, v.cat, v2.d, v2.cat))
    && (r != -1 ==>
          r == 0 && exists loc :: OneMore(g, v.d, v.cat, v2.d, v2.cat, where.value.0, where.value.1, loc, true))
  }

  predicate CloseStep(v: Vol, fd: int, r: int, v2: Vol) {
    && v2.d == v.d && v2.cat == v.cat
    && (if ValidFd(v.files, fd)
      then r == 0 && v2.files == v.files[fd - FAT_FD_BASE := v.files[fd - FAT_FD_BASE].(inUse := false)]
        else r == -1 && v2.files == v.files)
  }

  predicate CloseAllStep(v: Vol, owner: int, v2: Vol) {
    && v2.d == v.d && v2.cat == v.cat && |v2.files| == |v.files|
    && forall k :: 0 <= k < |v.files| ==>
         v2.files[k] == if v.files[k].inUse && v.files[k].owner == owner then v.files[k].(inUse := false)
           else v.files[k]
  }

  ghost predicate Step(g: Geometry, v: Vol, e: Event, v2: Vol) {
    && Sound(g, v) && Sound(g, v2) && v2.lost == v.lost
    && match e
       case DidOpen(path, mode, owner, fd) => OpenStep(g, v, path, mode, owner, fd, v2)
       case DidWrite(fd, data, r) => WriteStep(g, v, fd, data, r, v2)
       case DidSeek(fd, offset, r) => SeekStep(g, v, fd, offset, r, v2)
       case DidMkdir(path, r) => MkdirStep(g, v, path, r, v2)
       case DidClose(fd, r) => CloseStep(v, fd, r, v2)
       case DidCloseAll(owner) => CloseAllStep(v, owner, v2)
  }

  ghost predicate Run(g: Geometry, vs: seq<Vol>, es: seq<Event>) {
    && |vs| == |es| + 1
    && forall i :: 0 <= i < |es| ==> Step(g, vs[i], es[i], vs[i + 1])
  }

  // ------------------------------------------------------------- one descriptor's history

  /** The event gives slot i back. */
  predicate Releases(v: Vol, e: Event, i: nat)
    requires i < |v.files|
  {
    match e
    case DidClose(fd, _) => fd == FAT_FD_BASE + i
    case DidCloseAll(owner) => v.files[i].owner == owner
    case _ => false
  }

  /** A file and a position, as the calls on one descriptor should change them. */
  datatype Tape = Tape(content: seq<Byte>, at: nat)

  function Replay(t: Tape, e: Event, fd: int): Tape {
    match e
    case DidWrite(fd2, data, r) =>
      if fd2 == fd && 0 <= r <= |data| && t.at <= |t.content|
        then Tape(Overwrite(t.content, t.at, data[..r]), t.at + r) else t
    case DidSeek(fd2, offset, r) => if fd2 == fd && r == 0 then t.(at := offset) else t
    case _ => t
  }

  function ReplayAll(t: Tape, es: seq<Event>, fd: int): Tape {
    if es == [] then t else Replay(ReplayAll(t, es[..|es| - 1], fd), es[|es| - 1], fd)
  }

  ghost function TapeOf(g: Geometry, v: Vol, i: nat): Tape
    requires i < |v.files|
  {
    Tape(BytesAt(g, v, SlotOf(v.files[i])), v.files[i].fileOffset)
  }

  lemma OneKept(g: Geometry, v: Vol, v2: Vol, except: set<Loc>, at: Loc)
    requires FilesKept(g, v.d, v.cat, v2.d, v2.cat, except) && TightFile(g, v.d, v.cat, at) && at !in except
    ensures TightFile(g, v2.d, v2.cat, at) && BytesAt(g, v2, at) == BytesAt(g, v, at)
  {
  }

  /** Opening a file leaves every file alone that it does not create or empty. */
  lemma OpenKeeps(g: Geometry, v: Vol, path: seq<Byte>, mode: Mode, owner: int, fd: int, v2: Vol, at: Loc)
    requires Sound(g, v) && Sound(g, v2) && OpenStep(g, v, path, mode, owner, fd, v2) && TightFile(g, v.d, v.cat, at)
    requires !(mode == Truncate && Target(g, v, path) == Some(at))
    ensures TightFile(g, v2.d, v2.cat, at) && BytesAt(g, v2, at) == BytesAt(g, v, at)
  {
    hide WellFormed, FilesTight, FdsOk, TightFile, FileBytes, SameNames, NameAdded, Resolve, Find, FilesKept, Starts,
         RefusedIn;
    if !Refused(g, v.d, v.cat, path, mode) {
      var where := Resolve(g, v.d, v.cat, Root, path).value;
      var loc := Find(g, v2.d, v2.cat, where.0, where.1).value;
      if Find(g, v.d, v.cat, where.0, where.1).None? {
        OneKept(g, v, v2, {}, at);
      } else if at != loc {
        OneKept(g, v, v2, {loc}, at);
      }
    }
  }

  /** The files an event may change: the one it writes, or the one it empties. */
  ghost predicate Touches(g: Geometry, v: Vol, e: Event, at: Loc)
    requires Sound(g, v)
  {
    match e
    case DidOpen(path, mode, _, _) => mode == Truncate && Target(g, v, path) == Some(at)
    case DidWrite(fd, _, _) => WritableFd(v.files, fd) && SlotOf(v.files[fd - FAT_FD_BASE]) == at
    case _ => false
  }

  lemma StepKeepsFile(g: Geometry, v: Vol, e: Event, v2: Vol, at: Loc)
    requires Step(g, v, e, v2) && TightFile(g, v.d, v.cat, at) && !Touches(g, v, e, at)
    ensures TightFile(g, v2.d, v2.cat, at) && BytesAt(g, v2, at) == BytesAt(g, v, at)
  {
    hide WellFormed, FilesTight, FdsOk, TightFile, FileBytes, SameNames, NameAdded, Resolve, Find, FilesKept, OpenStep,
         Overwrite, MkdirHasNoRoom;
    match e
    case DidOpen(path, mode, owner, fd) =>
      OpenKeeps(g, v, path, mode, owner, fd, v2, at);
    case DidWrite(fd, data, r) =>
      if WritableFd(v.files, fd) {
        OneKept(g, v, v2, {SlotOf(v.files[fd - FAT_FD_BASE])}, at);
      }
    case DidMkdir(path, r) =>
      OneKept(g, v, v2, {}, at);
    case _ =>
  }

  lemma WritingIsTight(g: Geometry, v: Vol, i: nat)
    requires Sound(g, v) && i < MAX_OPEN_FILES && Writing(v.files[i])
    ensures TightFile(g, v.d, v.cat, SlotOf(v.files[i]))
    ensures v.files[i].fileOffset <= v.files[i].fileSize == |FileBytes(g, v.d, v.cat, SlotOf(v.files[i]))|
  {
    assert FdOk(g, v.d, v.cat, v.files[i]);
  }

  lemma OneWriterEach(g: Geometry, v: Vol, i: nat)
    requires Sound(g, v) && i < MAX_OPEN_FILES && Writing(v.files[i])
    ensures forall k :: 0 <= k < MAX_OPEN_FILES && k != i && Writing(v.files[k]) ==>
      SlotOf(v.files[k]) != SlotOf(v.files[i])
  {
    hide WellFormed, FilesTight, FdOk;
  }

  /** A table entry in use is changed only through its own descriptor. */
  lemma StepTable(g: Geometry, v: Vol, e: Event, v2: Vol, i: nat)
    requires Step(g, v, e, v2) && i < MAX_OPEN_FILES && Writing(v.files[i]) && !Releases(v, e, i)
    requires !(e.DidWrite? || e.DidSeek?) || e.fd != FAT_FD_BASE + i
    ensures v2.files[i] == v.files[i]
  {
    assert |v.files| == MAX_OPEN_FILES;
    hide Step, Sound;
    match e
    case DidOpen(path, mode, owner, fd) => OpenTable(g, v, path, mode, owner, fd, v2);
    case DidWrite(fd, data, r) => WriteTable(g, v, fd, data, r, v2);
    case DidSeek(fd, offset, r) => SeekTable(g, v, fd, offset, r, v2);
    case _ => OtherTable(g, v, e, v2, i);
  }

  lemma OpenTable(g: Geometry, v: Vol, path: seq<Byte>, mode: Mode, owner: int, fd: int, v2: Vol)
    requires Step(g, v, DidOpen(path, mode, owner, fd), v2)
    ensures |v.files| == |v2.files| == MAX_OPEN_FILES
    ensures forall k :: 0 <= k < MAX_OPEN_FILES && v.files[k].inUse ==> v2.files[k] == v.files[k]
  {
    hide WellFormed, FilesTight, FdsOk, Refused, Resolve, Find, Opened, Starts;
    assert Sound(g, v) && Sound(g, v2) && OpenStep(g, v, path, mode, owner, fd, v2);
  }

  lemma WriteTable(g: Geometry, v: Vol, fd: int, data: seq<Byte>, r: int, v2: Vol)
    requires Step(g, v, DidWrite(fd, data, r), v2)
    ensures |v.files| == |v2.files| == MAX_OPEN_FILES
    ensures forall k :: 0 <= k < MAX_OPEN_FILES && k != fd - FAT_FD_BASE ==> v2.files[k] == v.files[k]
  {
    hide WellFormed, FilesTight, FdsOk, SameNames, FilesKept, BytesAt, Overwrite, Fat;
  }

  lemma SeekTable(g: Geometry, v: Vol, fd: int, offset: nat, r: int, v2: Vol)
    requires Step(g, v, DidSeek(fd, offset, r), v2)
    ensures |v.files| == |v2.files| == MAX_OPEN_FILES
    ensures forall k :: 0 <= k < MAX_OPEN_FILES && k != fd - FAT_FD_BASE ==> v2.files[k] == v.files[k]
  {
    hide WellFormed, FilesTight, FdsOk;
  }

  lemma OtherTable(g: Geometry, v: Vol, e: Event, v2: Vol, i: nat)
    requires Step(g, v, e, v2) && (e.DidMkdir? || e.DidClose? || e.DidCloseAll?)
    requires i < |v.files| && !Releases(v, e, i)
    ensures |v.files| == |v2.files| == MAX_OPEN_FILES && v2.files[i] == v.files[i]
  {
    hide WellFormed, FilesTight, FdsOk, Resolve, Find, MkdirHasNoRoom, Quiet, OneMore;
  }

  /** One call moves an open file exactly as its tape says: the calls on its own descriptor
      overwrite and seek, and no other call touches it. */
  lemma StepPlays(g: Geometry, v: Vol, e: Event, v2: Vol, i: nat)
    requires Step(g, v, e, v2) && i < MAX_OPEN_FILES && Writing(v.files[i]) && !Releases(v, e, i)
    ensures Writing(v2.files[i]) && SlotOf(v2.files[i]) == SlotOf(v.files[i]) && v2.files[i].owner == v.files[i].owner
    ensures TapeOf(g, v2, i) == Replay(TapeOf(g, v, i), e, FAT_FD_BASE + i)
  {
    if (e.DidWrite? || e.DidSeek?) && e.fd == FAT_FD_BASE + i {
      OwnCallPlays(g, v, e, v2, i);
    } else {
      OtherCallPlays(g, v, e, v2, i);
    }
  }

  lemma OwnCallPlays(g: Geometry, v: Vol, e: Event, v2: Vol, i: nat)
    requires Step(g, v, e, v2) && i < MAX_OPEN_FILES && Writing(v.files[i]) && (e.DidWrite? || e.DidSeek?)
    requires e.fd == FAT_FD_BASE + i
    ensures Writing(v2.files[i]) && SlotOf(v2.files[i]) == SlotOf(v.files[i]) && v2.files[i].owner == v.files[i].owner
    ensures TapeOf(g, v2, i) == Replay(TapeOf(g, v, i), e, FAT_FD_BASE + i)
  {
    hide Step, Sound, BytesAt, Overwrite;
    StepSound(g, v, e, v2);
    if e.DidWrite? {
      OwnWrite(g, v, e.data, e.r, v2, i);
    } else {
      OwnSeek(g, v, e.offset, e.r, v2, i);
    }
  }

  lemma OwnWrite(g: Geometry, v: Vol, data: seq<Byte>, r: int, v2: Vol, i: nat)
    requires i < MAX_OPEN_FILES && Step(g, v, DidWrite(FAT_FD_BASE + i, data, r), v2) && Writing(v.files[i])
    ensures 0 <= r <= |data| && Writing(v2.files[i]) && SlotOf(v2.files[i]) == SlotOf(v.files[i])
    ensures v2.files[i].owner == v.files[i].owner
    ensures v.files[i].fileOffset <= |TapeOf(g, v, i).content|
    ensures TapeOf(g, v2, i)
      == Tape(Overwrite(TapeOf(g, v, i).content, v.files[i].fileOffset, data[..r]), v.files[i].fileOffset + r)
  {
    hide WellFormed, FilesTight, FdsOk, BytesAt, SameNames, FilesKept, Overwrite, Fat;
  }

  lemma OwnSeek(g: Geometry, v: Vol, offset: nat, r: int, v2: Vol, i: nat)
    requires i < MAX_OPEN_FILES && Step(g, v, DidSeek(FAT_FD_BASE + i, offset, r), v2) && Writing(v.files[i])
    ensures Writing(v2.files[i]) && SlotOf(v2.files[i]) == SlotOf(v.files[i]) && v2.files[i].owner == v.files[i].owner
    ensures TapeOf(g, v2, i) == if r == 0 then TapeOf(g, v, i).(at := offset) else TapeOf(g, v, i)
  {
    hide WellFormed, FilesTight, FdsOk, TightFile, FileBytes;
  }

  lemma OtherCallPlays(g: Geometry, v: Vol, e: Event, v2: Vol, i: nat)
    requires Step(g, v, e, v2) && i < MAX_OPEN_FILES && Writing(v.files[i]) && !Releases(v, e, i)
    requires !(e.DidWrite? || e.DidSeek?) || e.fd != FAT_FD_BASE + i
    ensures v2.files[i] == v.files[i] && TapeOf(g, v2, i) == TapeOf(g, v, i)
    ensures Replay(TapeOf(g, v, i), e, FAT_FD_BASE + i) == TapeOf(g, v, i)
  {
    StepTable(g, v, e, v2, i);
    WritingIsTight(g, v, i);
    NotTouched(g, v, e, v2, i);
    StepKeepsFile(g, v, e, v2, SlotOf(v.files[i]));
    hide WellFormed, FilesTight, FdsOk, TightFile, BytesAt, Step;
  }

  lemma NotTouched(g: Geometry, v: Vol, e: Event, v2: Vol, i: nat)
    requires Step(g, v, e, v2) && i < MAX_OPEN_FILES && Writing(v.files[i])
    requires !e.DidWrite? || e.fd != FAT_FD_BASE + i
    ensures !Touches(g, v, e, SlotOf(v.files[i]))
  {
    hide Step, Sound, Target, TightFile, FileBytes, OpenForWriting, FdsOk;
    StepSound(g, v, e, v2);
    WritingIsTight(g, v, i);
    OneWriterEach(g, v, i);
    OpenHere(v, i);
    if e.DidOpen? {
      EmptiesNoOpenFile(g, v, e.path, e.mode, e.owner, e.fd, v2, SlotOf(v.files[i]));
    }
  }

  lemma OpenHere(v: Vol, i: nat)
    requires i < |v.files| && Writing(v.files[i])
    ensures OpenForWriting(v, SlotOf(v.files[i]))
  {
  }

  lemma EmptiesNoOpenFile(g: Geometry, v: Vol, path: seq<Byte>, mode: Mode, owner: int, fd: int, v2: Vol, at: Loc)
    requires Step(g, v, DidOpen(path, mode, owner, fd), v2) && TightFile(g, v.d, v.cat, at) && OpenForWriting(v, at)
    ensures mode == Truncate ==> Target(g, v, path) != Some(at)
  {
    hide WellFormed, FilesTight, FdsOk, Resolve, Find, FilesKept, NameAdded, SameNames, FileBytes, Starts,
         OpenForWriting, Tight;
  }

  // ------------------------------------------------------------------------ over whole runs

  ghost predicate HeldThroughout(vs: seq<Vol>, es: seq<Event>, i: nat)
    requires |vs| == |es| + 1
  {
    forall k :: 0 <= k < |es| ==> i < |vs[k].files| && !Releases(vs[k], es[k], i)
  }

  lemma RunLength(g: Geometry, vs: seq<Vol>, es: seq<Event>)
    requires Run(g, vs, es)
    ensures |vs| == |es| + 1
  {
    hide Step;
  }

  lemma RunShorter(g: Geometry, vs: seq<Vol>, es: seq<Event>)
    requires Run(g, vs, es) && es != []
    ensures Run(g, vs[..|es|], es[..|es| - 1]) && Step(g, vs[|es| - 1], es[|es| - 1], vs[|es|])
  {
    hide Step;
    assert forall k :: 0 <= k < |es| - 1 ==> Step(g, vs[k], es[k], vs[k + 1]);
  }

  /** A file that stays open for writing holds, after any run, exactly what replaying the
      calls on its own descriptor gives, whatever the other calls of the run are. */
  lemma {:induction false} RunPlays(g: Geometry, vs: seq<Vol>, es: seq<Event>, i: nat)
    requires Run(g, vs, es) && i < MAX_OPEN_FILES && HeldThroughout(vs, es, i)
    requires Sound(g, vs[0]) && Writing(vs[0].files[i])
    ensures Sound(g, vs[|es|]) && Writing(vs[|es|].files[i]) && SlotOf(vs[|es|].files[i]) == SlotOf(vs[0].files[i])
    ensures TapeOf(g, vs[|es|], i) == ReplayAll(TapeOf(g, vs[0], i), es, FAT_FD_BASE + i)
    decreases |es|
  {
    hide Step, Sound, TapeOf, Replay, Run, Releases, HeldThroughout;
    RunLength(g, vs, es);
    if es != [] {
      var n := |es| - 1;
      RunShorter(g, vs, es);
      StepSound(g, vs[n], es[n], vs[n + 1]);
      HeldShorter(vs, es, i);
      var us := vs[..n + 1];
      assert us[0] == vs[0] && us[n] == vs[n];
      RunPlays(g, us, es[..n], i);
      StepPlays(g, vs[n], es[n], vs[n + 1], i);
    }
  }

  lemma HeldShorter(vs: seq<Vol>, es: seq<Event>, i: nat)
    requires |vs| == |es| + 1 && es != [] && HeldThroughout(vs, es, i)
    ensures HeldThroughout(vs[..|es|], es[..|es| - 1], i) && i < |vs[|es| - 1].files|
    ensures !Releases(vs[|es| - 1], es[|es| - 1], i)
  {
    hide Releases;
  }

  lemma StepSound(g: Geometry, v: Vol, e: Event, v2: Vol)
    requires Step(g, v, e, v2)
    ensures Sound(g, v) && Sound(g, v2) && |v.files| == |v2.files| == MAX_OPEN_FILES && v2.lost == v.lost
  {
  }

  /** The bytes that the writes on a descriptor reported as written, in order. */
  function Reported(es: seq<Event>, fd: int): (s: seq<Byte>) {
    if es == [] then []
    else
      var e := es[|es| - 1];
      Reported(es[..|es| - 1], fd) + if e.DidWrite? && e.fd == fd && 0 <= e.r <= |e.data| then e.data[..e.r] else []
  }

  predicate NeverSeeks(es: seq<Event>, fd: int) {
    forall k :: 0 <= k < |es| && es[k].DidSeek? ==> es[k].fd != fd
  }

  /** A descriptor at the end of its file that never seeks appends what it reports. */
  lemma {:induction false} ReplayAppends(t: Tape, es: seq<Event>, fd: int)
    requires t.at == |t.content| && NeverSeeks(es, fd)
    ensures var t2 := ReplayAll(t, es, fd); t2.content == t.content + Reported(es, fd) && t2.at == |t2.content|
    decreases |es|
  {
    if es != [] {
      var e, less := es[|es| - 1], es[..|es| - 1];
      assert forall k :: 0 <= k < |less| ==> less[k] == es[k];
      ReplayAppends(t, less, fd);
      var t1 := ReplayAll(t, less, fd);
      if e.DidWrite? && e.fd == fd && 0 <= e.r <= |e.data| {
        assert Overwrite(t1.content, t1.at, e.data[..e.r]) == t1.content + e.data[..e.r];
        assert (t.content + Reported(less, fd)) + e.data[..e.r] == t.content + (Reported(less, fd) + e.data[..e.r]);
      }
    }
  }

  /** No event of the run writes or empties the file. */
  ghost predicate NeverTouched(g: Geometry, vs: seq<Vol>, es: seq<Event>, at: Loc)
    requires |vs| == |es| + 1
  {
    forall k :: 0 <= k < |es| ==> Sound(g, vs[k]) && !Touches(g, vs[k], es[k], at)
  }

  lemma UntouchedShorter(g: Geometry, vs: seq<Vol>, es: seq<Event>, at: Loc)
    requires |vs| == |es| + 1 && es != [] && NeverTouched(g, vs, es, at)
    ensures NeverTouched(g, vs[..|es|], es[..|es| - 1], at) && Sound(g, vs[|es| - 1])
    ensures !Touches(g, vs[|es| - 1], es[|es| - 1], at)
  {
    hide Sound, Touches;
    assert forall k :: 0 <= k < |es| - 1 ==> vs[..|es|][k] == vs[k] && es[..|es| - 1][k] == es[k];
  }

  /** Files that no event touches keep their bytes over the whole run. */
  lemma {:induction false} RunKeepsFile(g: Geometry, vs: seq<Vol>, es: seq<Event>, at: Loc)
    requires Run(g, vs, es) && NeverTouched(g, vs, es, at) && Sound(g, vs[0]) && TightFile(g, vs[0].d, vs[0].cat, at)
    ensures Sound(g, vs[|es|]) && TightFile(g, vs[|es|].d, vs[|es|].cat, at)
    ensures BytesAt(g, vs[|es|], at) == BytesAt(g, vs[0], at)
    decreases |es|
  {
    hide Step, Sound, BytesAt, TightFile, Touches, Run, NeverTouched;
    RunLength(g, vs, es);
    if es != [] {
      var n := |es| - 1;
      RunShorter(g, vs, es);
      StepSound(g, vs[n], es[n], vs[n + 1]);
      UntouchedShorter(g, vs, es, at);
      var us := vs[..n + 1];
      assert us[0] == vs[0] && us[n] == vs[n];
      RunKeepsFile(g, us, es[..n], at);
      StepKeepsFile(g, vs[n], es[n], vs[n + 1], at);
    }
  }

  // --------------------------------------------------------------- paths over whole runs

  /** The lookups made to follow a path: a directory and the name looked for in it. */
  ghost function Walk(g: Geometry, d: Image, cat: Catalog, from: DirRef, path: seq<Byte>): (w: seq<(DirRef, seq<Byte>)>)
    requires g.Fits(d) && CatClusters(g, cat)
    decreases |path|
  {
    if SlashAt(path) == 0 then []
    else if AfterComponent(path) == [] then [(from, Component(path))]
    else
      var found := Find(g, d, cat, from, Component(path));
      [(from, Component(path))]
      + if found.Some? && IsDir(d, cat, Sub(found.value)) then Walk(g, d, cat, Sub(found.value), AfterComponent(path))
        else []
  }

  /** The last lookup is the one that the path resolves to. */
  lemma {:induction false} WalkLast(g: Geometry, d: Image, cat: Catalog, from: DirRef, path: seq<Byte>)
    requires g.Fits(d) && CatClusters(g, cat) && Resolve(g, d, cat, from, path).Some?
    ensures var w := Walk(g, d, cat, from, path); w != [] && w[|w| - 1] == Resolve(g, d, cat, from, path).value
    decreases |path|
  {
    hide Find, IsDir, SlashAt, Component, AfterComponent;
    if AfterComponent(path) != [] {
      WalkLast(g, d, cat, Sub(Find(g, d, cat, from, Component(path)).value), AfterComponent(path));
    }
  }

  /** A lookup that a new entry of that name cannot answer: another directory, or another
      name in the 8.3 form that the driver stores. */
  ghost predicate Apart(lookup: (DirRef, seq<Byte>), dir: DirRef, name: seq<Byte>) {
    lookup.0 != dir || Name83(lookup.1) != Name83(name)
  }

  ghost predicate EarlierApart(w: seq<(DirRef, seq<Byte>)>, dir: DirRef, name: seq<Byte>) {
    forall k :: 0 <= k < |w| - 1 ==> Apart(w[k], dir, name)
  }

  lemma EarlierApartCons(l: (DirRef, seq<Byte>), w: seq<(DirRef, seq<Byte>)>, dir: DirRef, name: seq<Byte>)
    requires EarlierApart([l] + w, dir, name) && w != []
    ensures Apart(l, dir, name) && EarlierApart(w, dir, name)
  {
    hide Apart;
    assert ([l] + w)[0] == l;
    assert forall k :: 0 <= k < |w| ==> w[k] == ([l] + w)[k + 1];
  }

  /** A new entry leaves a path that already led somewhere as it was, unless one of the
      path's earlier lookups has the new entry's stored name. */
  lemma {:induction false} WalkKept(g: Geometry, d: Image, cat: Catalog, d2: Image, cat2: Catalog,
                                    dir: DirRef, name: seq<Byte>, loc: Loc, isDirectory: bool, from: DirRef,
                                      path: seq<Byte>)
    requires NameAdded(g, d, cat, d2, cat2, dir, name, loc, isDirectory) && IsDir(d, cat, from)
    requires Resolve(g, d, cat, from, path).Some?
    requires EarlierApart(Walk(g, d, cat, from, path), dir, name)
    ensures Resolve(g, d2, cat2, from, path) == Resolve(g, d, cat, from, path)
    decreases |path|
  {
    if AfterComponent(path) != [] {
      var at, c := Find(g, d, cat, from, Component(path)).value, Component(path);
      var rest := Walk(g, d, cat, Sub(at), AfterComponent(path));
      assert Walk(g, d, cat, from, path) == [(from, c)] + rest && rest != [];
      EarlierApartCons((from, c), rest, dir, name);
      LookupKept(g, d, cat, d2, cat2, dir, name, loc, isDirectory, from, c);
      hide NameAdded, IsDir, Find, Apart, Walk, EarlierApart;
      WalkKept(g, d, cat, d2, cat2, dir, name, loc, isDirectory, Sub(at), AfterComponent(path));
    }
  }

  lemma LookupKept(g: Geometry, d: Image, cat: Catalog, d2: Image, cat2: Catalog,
                   dir: DirRef, name: seq<Byte>, loc: Loc, isDirectory: bool, from: DirRef, c: seq<Byte>)
    requires NameAdded(g, d, cat, d2, cat2, dir, name, loc, isDirectory) && IsDir(d, cat, from)
    requires Apart((from, c), dir, name)
    ensures Find(g, d2, cat2, from, c) == Find(g, d, cat, from, c)
    ensures Find(g, d, cat, from, c).Some? && IsDir(d, cat, Sub(Find(g, d, cat, from, c).value)) ==>
              IsDir(d2, cat2, Sub(Find(g, d, cat, from, c).value))
  {
    hide Find, IsDir, Name83;
  }

  /** A lookup that an entry called name, new in dir, would answer in place of what answers it
      now: the same directory, the same stored name, and nothing found before the free slot. */
  ghost predicate Taken(g: Geometry, d: Image, cat: Catalog, lookup: (DirRef, seq<Byte>), dir: DirRef, name: seq<Byte>)
    requires g.Fits(d) && CatClusters(g, cat)
  {
    lookup.0 == dir && Name83(lookup.1) == Name83(name) && Overtakes(g, d, cat, dir, lookup.1)
  }

  ghost predicate SomeTaken(g: Geometry, d: Image, cat: Catalog, w: seq<(DirRef, seq<Byte>)>, dir: DirRef,
                            name: seq<Byte>)
    requires g.Fits(d) && CatClusters(g, cat)
  {
    exists k :: 0 <= k < |w| && Taken(g, d, cat, w[k], dir, name)
  }

  lemma SomeTakenCons(g: Geometry, d: Image, cat: Catalog, l: (DirRef, seq<Byte>), w: seq<(DirRef, seq<Byte>)>,
                      dir: DirRef, name: seq<Byte>)
    requires g.Fits(d) && CatClusters(g, cat)
    ensures SomeTaken(g, d, cat, [l] + w, dir, name) <==>
      Taken(g, d, cat, l, dir, name) || SomeTaken(g, d, cat, w, dir, name)
  {
    hide Taken;
    assert ([l] + w)[0] == l && forall k :: 0 <= k < |w| ==> ([l] + w)[k + 1] == w[k];
    if SomeTaken(g, d, cat, [l] + w, dir, name) {
      var k :| 0 <= k <= |w| && Taken(g, d, cat, ([l] + w)[k], dir, name);
      assert k > 0 ==> w[k - 1] == ([l] + w)[k];
    }
  }

  lemma LookupAfterAdd(g: Geometry, d: Image, cat: Catalog, d2: Image, cat2: Catalog,
                       dir: DirRef, name: seq<Byte>, loc: Loc, isDirectory: bool, from: DirRef, c: seq<Byte>)
    requires NameAdded(g, d, cat, d2, cat2, dir, name, loc, isDirectory) && IsDir(d, cat, from)
    ensures Find(g, d2, cat2, from, c) == if Taken(g, d, cat, (from, c), dir, name) then Some(loc)
      else Find(g, d, cat, from, c)
  {
    hide Find, IsDir, Name83, Overtakes;
  }

  lemma NowhereFromEmpty(g: Geometry, d: Image, cat: Catalog, dir: DirRef, path: seq<Byte>)
    requires NoNames(g, d, cat, dir)
    ensures Leads(g, d, cat, dir, path) == None
  {
    hide Find;
  }

  /** A new entry and a path: where none of the path's lookups is taken, the path leads where
      it led; where one is, it leads to the new entry or nowhere. */
  lemma {:induction false} LeadsAfterAdd(g: Geometry, d: Image, cat: Catalog, lost: set<U16>, d2: Image, cat2: Catalog,
                                         dir: DirRef, name: seq<Byte>, loc: Loc, isDirectory: bool, from: DirRef,
                                           path: seq<Byte>)
    requires WellFormed(g, d, cat, lost) && OneMore(g, d, cat, d2, cat2, dir, name, loc, isDirectory)
    requires IsDir(d, cat, from)
    ensures g.Fits(d) && CatClusters(g, cat) && g.Fits(d2) && CatClusters(g, cat2)
    ensures var l2 := Leads(g, d2, cat2, from, path);
            if SomeTaken(g, d, cat, Walk(g, d, cat, from, path), dir, name) then l2 == None || l2 == Some(loc)
            else l2 == Leads(g, d, cat, from, path)
    decreases |path|
  {
    hide *;
    AddedFits(g, d, cat, lost, d2, cat2, dir, name, loc, isDirectory);
    LeadsOnce(g, d, cat, from, path);
    LeadsOnce(g, d2, cat2, from, path);
    if SlashAt(path) == 0 {
      NoneTaken(g, d, cat, dir, name);
    } else {
      var c, rest, w := Component(path), AfterComponent(path), NextWalk(g, d, cat, from, path);
      LookupAfterAdd(g, d, cat, d2, cat2, dir, name, loc, isDirectory, from, c);
      DirsAfterAdd(g, d, cat, lost, d2, cat2, dir, name, loc, isDirectory, from, c);
      SomeTakenCons(g, d, cat, (from, c), w, dir, name);
      var found := Find(g, d, cat, from, c);
      if rest != [] && Taken(g, d, cat, (from, c), dir, name) {
        if IsDir(d2, cat2, Sub(loc)) { NowhereFromEmpty(g, d2, cat2, Sub(loc), rest); }
      } else if rest != [] && found.Some? && IsDir(d, cat, Sub(found.value)) {
        ShorterPath(path);
        LeadsAfterAdd(g, d, cat, lost, d2, cat2, dir, name, loc, isDirectory, Sub(found.value), rest);
      } else {
        NoneTaken(g, d, cat, dir, name);
      }
    }
  }

  lemma ShorterPath(path: seq<Byte>)
    ensures SlashAt(path) > 0 ==> |AfterComponent(path)| < |path|
  {
  }

  lemma NoneTaken(g: Geometry, d: Image, cat: Catalog, dir: DirRef, name: seq<Byte>)
    requires g.Fits(d) && CatClusters(g, cat)
    ensures !SomeTaken(g, d, cat, [], dir, name)
  {
  }

  /** The walk behind the first component. */
  ghost function NextWalk(g: Geometry, d: Image, cat: Catalog, from: DirRef,
                          path: seq<Byte>): (w: seq<(DirRef, seq<Byte>)>)
    requires g.Fits(d) && CatClusters(g, cat)
  {
    var found := Find(g, d, cat, from, Component(path));
    if AfterComponent(path) != [] && found.Some? && IsDir(d, cat, Sub(found.value))
      then Walk(g, d, cat, Sub(found.value), AfterComponent(path)) else []
  }

  /** One step along a path. */
  lemma LeadsOnce(g: Geometry, d: Image, cat: Catalog, from: DirRef, path: seq<Byte>)
    requires g.Fits(d) && CatClusters(g, cat)
    ensures var c, rest := Component(path), AfterComponent(path);
            var found := Find(g, d, cat, from, c);
            && (SlashAt(path) == 0 ==> Leads(g, d, cat, from, path) == None && Walk(g, d, cat, from, path) == [])
            && (SlashAt(path) > 0 ==> Walk(g, d, cat, from, path) == [(from, c)] + NextWalk(g, d, cat, from, path))
            && (SlashAt(path) > 0 && rest == [] ==>
                  Leads(g, d, cat, from, path) == found && NextWalk(g, d, cat, from, path) == [])
            && (SlashAt(path) > 0 && rest != [] ==>
                  if found.Some? && IsDir(d, cat, Sub(found.value)) then
                    && Leads(g, d, cat, from, path) == Leads(g, d, cat, Sub(found.value), rest)
                    && NextWalk(g, d, cat, from, path) == Walk(g, d, cat, Sub(found.value), rest)
                  else Leads(g, d, cat, from, path) == None && NextWalk(g, d, cat, from, path) == [])
  {
    hide Find, IsDir;
  }

  lemma AddedFits(g: Geometry, d: Image, cat: Catalog, lost: set<U16>, d2: Image, cat2: Catalog,
                  dir: DirRef, name: seq<Byte>, loc: Loc, isDirectory: bool)
    requires WellFormed(g, d, cat, lost) && OneMore(g, d, cat, d2, cat2, dir, name, loc, isDirectory)
    ensures g.Fits(d) && CatClusters(g, cat) && g.Fits(d2) && CatClusters(g, cat2)
    ensures NameAdded(g, d, cat, d2, cat2, dir, name, loc, isDirectory)
  {
  }

  lemma DirsAfterAdd(g: Geometry, d: Image, cat: Catalog, lost: set<U16>, d2: Image, cat2: Catalog,
                     dir: DirRef, name: seq<Byte>, loc: Loc, isDirectory: bool, from: DirRef, c: seq<Byte>)
    requires WellFormed(g, d, cat, lost) && OneMore(g, d, cat, d2, cat2, dir, name, loc, isDirectory)
    requires IsDir(d, cat, from)
    requires g.Fits(d) && CatClusters(g, cat)
    ensures var found := Find(g, d, cat, from, c);
            found.Some? ==>
              && found.value != loc
              && (IsDir(d2, cat2, Sub(found.value)) <==> IsDir(d, cat, Sub(found.value)))
    ensures IsDir(d2, cat2, Sub(loc)) ==> NoNames(g, d2, cat2, Sub(loc))
  {
    FoundInCatalog(g, d, cat, lost, from, c);
    hide WellFormed, Find, NoNames;
  }

  /** The directory and name of the entry that a call is about to add, if any. */
  ghost function NewName(g: Geometry, v: Vol, e: Event): (r: Option<(DirRef, seq<Byte>)>)
    requires Sound(g, v)
  {
    if e.DidOpen? && !Refused(g, v.d, v.cat, e.path, e.mode) && Target(g, v, e.path).None?
      then Resolve(g, v.d, v.cat, Root, e.path)
    else if e.DidMkdir? && CanMkdir(g, v, e.path) then Resolve(g, v.d, v.cat, Root, e.path)
    else None
  }

  ghost predicate CanMkdir(g: Geometry, v: Vol, path: seq<Byte>)
    requires Sound(g, v)
  {
    && Resolve(g, v.d, v.cat, Root, path).Some? && Target(g, v, path).None?
    && !MkdirHasNoRoom(g, v.d, v.cat, Resolve(g, v.d, v.cat, Root, path).value.0)
  }

  /** The call adds an entry that takes one of the lookups of the path q. */
  ghost predicate Takes(g: Geometry, v: Vol, e: Event, q: seq<Byte>)
    requires Sound(g, v)
  {
    match NewName(g, v, e)
    case None => false
    case Some(p) => SomeTaken(g, v.d, v.cat, Walk(g, v.d, v.cat, Root, q), p.0, p.1)
  }

  lemma SameItself(g: Geometry, v: Vol)
    requires Sound(g, v)
    ensures SameNames(g, v.d, v.cat, v.d, v.cat)
  {
  }

  lemma OpenNames(g: Geometry, v: Vol, path: seq<Byte>, mode: Mode, owner: int, fd: int, v2: Vol)
    requires Step(g, v, DidOpen(path, mode, owner, fd), v2)
    ensures match NewName(g, v, DidOpen(path, mode, owner, fd))
            case None => SameNames(g, v.d, v.cat, v2.d, v2.cat)
            case Some(p) => exists loc :: OneMore(g, v.d, v.cat, v2.d, v2.cat, p.0, p.1, loc, false)
  {
    hide WellFormed, FilesTight, FdsOk, TightFile, FileBytes, SameNames, OneMore, Resolve, Find, FilesKept, Starts,
         RefusedIn;
    SameItself(g, v);
  }

  lemma MkdirNames(g: Geometry, v: Vol, path: seq<Byte>, r: int, v2: Vol)
    requires Step(g, v, DidMkdir(path, r), v2)
    ensures match NewName(g, v, DidMkdir(path, r))
            case None => SameNames(g, v.d, v.cat, v2.d, v2.cat)
            case Some(p) => exists loc :: OneMore(g, v.d, v.cat, v2.d, v2.cat, p.0, p.1, loc, true)
  {
    hide WellFormed, FilesTight, FdsOk, SameNames, OneMore, Resolve, Find, FilesKept, MkdirHasNoRoom;
  }

  /** Every call either keeps all names or adds the one entry it was about to add. */
  lemma StepNames(g: Geometry, v: Vol, e: Event, v2: Vol)
    requires Step(g, v, e, v2)
    ensures match NewName(g, v, e)
            case None => SameNames(g, v.d, v.cat, v2.d, v2.cat)
            case Some(p) => exists loc, isDirectory :: OneMore(g, v.d, v.cat, v2.d, v2.cat, p.0, p.1, loc, isDirectory)
  {
    hide WellFormed, FilesTight, FdsOk, SameNames, OneMore, Resolve, Find, FilesKept, OpenStep, MkdirStep, BytesAt,
         Overwrite;
    match e
    case DidOpen(path, mode, owner, fd) => OpenNames(g, v, path, mode, owner, fd, v2);
    case DidMkdir(path, r) => MkdirNames(g, v, path, r, v2);
    case _ => SameItself(g, v);
  }

  lemma {:induction false} ResolvedIsDir(g: Geometry, d: Image, cat: Catalog, from: DirRef, path: seq<Byte>)
    requires g.Fits(d) && CatClusters(g, cat) && IsDir(d, cat, from) && Resolve(g, d, cat, from, path).Some?
    ensures IsDir(d, cat, Resolve(g, d, cat, from, path).value.0)
    decreases |path|
  {
    if AfterComponent(path) != [] {
      hide Find;
      ResolvedIsDir(g, d, cat, Sub(Find(g, d, cat, from, Component(path)).value), AfterComponent(path));
    }
  }

  lemma TargetSame(g: Geometry, v: Vol, v2: Vol, q: seq<Byte>)
    requires g.Fits(v.d) && CatClusters(g, v.cat) && g.Fits(v2.d) && CatClusters(g, v2.cat)
    requires SameNames(g, v.d, v.cat, v2.d, v2.cat)
    ensures Target(g, v2, q) == Target(g, v, q)
  {
    ResolveSame(g, v.d, v.cat, v2.d, v2.cat, Root, q);
    if Resolve(g, v.d, v.cat, Root, q).Some? {
      ResolvedIsDir(g, v.d, v.cat, Root, q);
    }
    hide Resolve, Find, IsDir;
  }

  lemma TargetInCatalog(g: Geometry, v: Vol, q: seq<Byte>)
    requires Sound(g, v)
    ensures Target(g, v, q).Some? ==> Target(g, v, q).value in v.cat
  {
    var p := Resolve(g, v.d, v.cat, Root, q);
    if p.Some? {
      ResolvedIsDir(g, v.d, v.cat, Root, q);
      FoundInCatalog(g, v.d, v.cat, v.lost, p.value.0, p.value.1);
    }
  }

  /** What a call does to any path: nothing, unless the call takes one of its lookups; then the
      path leads to the new entry or nowhere. */
  lemma StepTarget(g: Geometry, v: Vol, e: Event, v2: Vol, q: seq<Byte>)
    requires Step(g, v, e, v2)
    ensures !Takes(g, v, e, q) ==> Target(g, v2, q) == Target(g, v, q)
    ensures Takes(g, v, e, q) ==> Target(g, v2, q).None? || Target(g, v2, q).value !in v.cat
  {
    StepSound(g, v, e, v2);
    StepNames(g, v, e, v2);
    hide Step, WellFormed, FilesTight, FdsOk, SameNames, NameAdded, FilesKept, Resolve, Find, Walk, SomeTaken, NewName,
         NoNames;
    match NewName(g, v, e)
    case None => TargetSame(g, v, v2, q);
    case Some(p) =>
      var loc, isDirectory :| OneMore(g, v.d, v.cat, v2.d, v2.cat, p.0, p.1, loc, isDirectory);
      LeadsAfterAdd(g, v.d, v.cat, v.lost, v2.d, v2.cat, p.0, p.1, loc, isDirectory, Root, q);
  }

  /** A path that leads to an entry goes on leading there exactly when the call takes none of
      its lookups. */
  lemma StepKeepsTarget(g: Geometry, v: Vol, e: Event, v2: Vol, q: seq<Byte>)
    requires Step(g, v, e, v2) && Target(g, v, q).Some?
    ensures Target(g, v2, q) == Target(g, v, q) <==> !Takes(g, v, e, q)
  {
    hide Target, Takes, OpenStep, WriteStep, MkdirStep, WellFormed, FilesTight, FdsOk;
    StepTarget(g, v, e, v2, q);
    TargetInCatalog(g, v, q);
  }

  /** No call removes an entry. */
  lemma StepKeepsEntry(g: Geometry, v: Vol, e: Event, v2: Vol, at: Loc)
    requires Step(g, v, e, v2) && at in v.cat
    ensures at in v2.cat
  {
    EntryFacts(g, v.d, v.cat, v.lost, at);
    if IsDirectory(SlotAt(v.d, at)) {
      DirKept(g, v, e, v2, at);
    } else {
      FileStays(g, v, e, v2, at);
    }
  }

  lemma DirKept(g: Geometry, v: Vol, e: Event, v2: Vol, at: Loc)
    requires Step(g, v, e, v2) && at in v.cat && LocOnDisk(v.d, at) && IsDirectory(SlotAt(v.d, at))
    ensures at in v2.cat
  {
    SubHandle(g, v.d, v.cat, v.lost, at);
    StepNames(g, v, e, v2);
    hide Step, Sound, NewName, Find, Overtakes, Overtaking, NoNames, FilesKept;
    assert IsDir(v.d, v.cat, Sub(at));
    match NewName(g, v, e)
    case None => assert IsDir(v2.d, v2.cat, Sub(at));
    case Some(p) =>
      var loc, isDirectory :| OneMore(g, v.d, v.cat, v2.d, v2.cat, p.0, p.1, loc, isDirectory);
      assert IsDir(v2.d, v2.cat, Sub(at));
  }

  lemma FileStays(g: Geometry, v: Vol, e: Event, v2: Vol, at: Loc)
    requires Step(g, v, e, v2) && IsFile(v.d, v.cat, at)
    ensures at in v2.cat
  {
    hide WellFormed, FileBytes, SameNames, NameAdded, Resolve, Find, Starts, RefusedIn, Overwrite,
         MkdirHasNoRoom, Fat, ReservedKept, BytesAt, Tight, NoNames, IsDirectory;
    assert TightFile(g, v.d, v.cat, at);
    match e
    case DidOpen(path, mode, owner, fd) =>
      assert Refused(g, v.d, v.cat, path, mode) ==> v2 == v;
    case DidWrite(fd, data, r) =>
      if WritableFd(v.files, fd) { assert FdOk(g, v2.d, v2.cat, v2.files[fd - FAT_FD_BASE]); }
    case _ =>
  }

  /** No call of the run takes a lookup of the path from its entry. */
  ghost predicate NeverTaken(g: Geometry, vs: seq<Vol>, es: seq<Event>, q: seq<Byte>)
    requires |vs| == |es| + 1
  {
    forall k :: 0 <= k < |es| ==> Sound(g, vs[k]) && !Takes(g, vs[k], es[k], q)
  }

  lemma NoCallTakes(g: Geometry, vs: seq<Vol>, es: seq<Event>, q: seq<Byte>)
    requires |vs| == |es| + 1 && es == []
    ensures NeverTaken(g, vs, es, q)
  {
  }

  lemma NeverTakenLast(g: Geometry, vs: seq<Vol>, es: seq<Event>, q: seq<Byte>)
    requires |vs| == |es| + 1 && es != [] && Sound(g, vs[|es| - 1])
    ensures var n := |es| - 1;
            NeverTaken(g, vs, es, q) <==> NeverTaken(g, vs[..n + 1], es[..n], q) && !Takes(g, vs[n], es[n], q)
  {
    hide Sound, Takes;
    var n := |es| - 1;
    assert forall k :: 0 <= k < n ==> vs[..n + 1][k] == vs[k] && es[..n][k] == es[k];
  }

  /** Over a whole run a path leads to the entry it led to at the start exactly when no call
      took one of its lookups: once taken, the entry never comes back under that path. */
  lemma {:induction false} RunKeepsTarget(g: Geometry, vs: seq<Vol>, es: seq<Event>, q: seq<Byte>)
    requires Run(g, vs, es) && Sound(g, vs[0]) && Target(g, vs[0], q).Some?
    ensures Sound(g, vs[|es|]) && Target(g, vs[0], q).value in vs[|es|].cat
    ensures Target(g, vs[|es|], q) == Target(g, vs[0], q) <==> NeverTaken(g, vs, es, q)
    decreases |es|
  {
    hide Step, Sound, Run, Target, Takes, NeverTaken;
    RunLength(g, vs, es);
    SoundFits(g, vs[0]);
    if es == [] {
      TargetInCatalog(g, vs[0], q);
      NoCallTakes(g, vs, es, q);
    } else {
      var n := |es| - 1;
      RunShorter(g, vs, es);
      StepSound(g, vs[n], es[n], vs[n + 1]);
      SoundFits(g, vs[n]);
      SoundFits(g, vs[n + 1]);
      var us := vs[..n + 1];
      assert us[0] == vs[0] && us[n] == vs[n];
      RunKeepsTarget(g, us, es[..n], q);
      NeverTakenLast(g, vs, es, q);
      StepTarget(g, vs[n], es[n], vs[n + 1], q);
      StepKeepsEntry(g, vs[n], es[n], vs[n + 1], Target(g, vs[0], q).value);
    }
  }

  lemma SoundFits(g: Geometry, v: Vol)
    requires Sound(g, v)
    ensures g.Fits(v.d) && CatClusters(g, v.cat)
  {
  }

  // -------------------------------------------------------- what is written is what is read

  /** The bytes a file holds right after it was opened for writing. */
  ghost function StartingBytes(g: Geometry, v: Vol, path: seq<Byte>, mode: Mode): (s: seq<Byte>)
    requires Sound(g, v)
  {
    match Target(g, v, path)
    case None => []
    case Some(at) => if mode == Truncate then [] else BytesAt(g, v, at)
  }

  /** Each lookup of a walk but the last finds the directory of the next one. */
  ghost predicate Descends(g: Geometry, d: Image, cat: Catalog, w: seq<(DirRef, seq<Byte>)>)
    requires g.Fits(d) && CatClusters(g, cat)
  {
    forall k :: 0 <= k < |w| - 1 ==>
      Find(g, d, cat, w[k].0, w[k].1).Some? && w[k + 1].0 == Sub(Find(g, d, cat, w[k].0, w[k].1).value)
  }

  lemma {:induction false} WalkDescends(g: Geometry, d: Image, cat: Catalog, from: DirRef, path: seq<Byte>)
    requires g.Fits(d) && CatClusters(g, cat) && IsDir(d, cat, from)
    ensures var w := Walk(g, d, cat, from, path); Descends(g, d, cat, w) && (w != [] ==> w[0].0 == from)
    decreases |path|
  {
    hide *;
    LeadsOnce(g, d, cat, from, path);
    var c, rest, w := Component(path), NextWalk(g, d, cat, from, path), Walk(g, d, cat, from, path);
    var found := Find(g, d, cat, from, c);
    if SlashAt(path) > 0 && AfterComponent(path) != [] && found.Some? && IsDir(d, cat, Sub(found.value)) {
      ShorterPath(path);
      WalkDescends(g, d, cat, Sub(found.value), AfterComponent(path));
      DescendsCons(g, d, cat, (from, c), rest);
    } else {
      DescendsShort(g, d, cat, w);
    }
  }

  lemma DescendsCons(g: Geometry, d: Image, cat: Catalog, l: (DirRef, seq<Byte>), rest: seq<(DirRef, seq<Byte>)>)
    requires g.Fits(d) && CatClusters(g, cat) && Descends(g, d, cat, rest) && Find(g, d, cat, l.0, l.1).Some?
    requires rest != [] ==> rest[0].0 == Sub(Find(g, d, cat, l.0, l.1).value)
    ensures Descends(g, d, cat, [l] + rest) && ([l] + rest)[0] == l
  {
    hide Find;
    var w := [l] + rest;
    forall k | 0 <= k < |w| - 1
      ensures Find(g, d, cat, w[k].0, w[k].1).Some? && w[k + 1].0 == Sub(Find(g, d, cat, w[k].0, w[k].1).value)
    {
      if k > 0 { assert w[k] == rest[k - 1] && w[k + 1] == rest[k - 1 + 1]; }
    }
  }

  lemma DescendsShort(g: Geometry, d: Image, cat: Catalog, w: seq<(DirRef, seq<Byte>)>)
    requires g.Fits(d) && CatClusters(g, cat) && |w| <= 1
    ensures Descends(g, d, cat, w)
  {
  }

  /** An entry is found in one directory only. */
  lemma FoundInOne(g: Geometry, d: Image, cat: Catalog, lost: set<U16>, a: (DirRef, seq<Byte>), b: (DirRef, seq<Byte>))
    requires WellFormed(g, d, cat, lost) && g.Fits(d) && CatClusters(g, cat)
    requires Find(g, d, cat, a.0, a.1).Some? && Find(g, d, cat, b.0, b.1) == Find(g, d, cat, a.0, a.1)
    ensures a.0 == b.0
  {
    var la, lb := LbasOf(g, cat, a.0), LbasOf(g, cat, b.0);
    hide DirOk, EntryOk, Lookup, LbasOf;
    LocInLbas(la, Lookup(SlotsOf(g, d, cat, a.0), a.1));
    LocInLbas(lb, Lookup(SlotsOf(g, d, cat, b.0), b.1));
    DirsApart(g, d, cat, lost, a.0, b.0, Find(g, d, cat, a.0, a.1).value.lba);
  }

  /** The directories on a walk from the root are all different. */
  lemma {:induction false} WalkDistinct(g: Geometry, d: Image, cat: Catalog, lost: set<U16>,
                                        w: seq<(DirRef, seq<Byte>)>, i: nat, j: nat)
    requires WellFormed(g, d, cat, lost) && g.Fits(d) && CatClusters(g, cat) && Descends(g, d, cat, w) && i < j < |w|
    requires w[0].0 == Root
    ensures w[i].0 != w[j].0
    decreases i
  {
    hide WellFormed, Find, IsDir;
    var h := j - 1;
    assert Find(g, d, cat, w[h].0, w[h].1).Some?;
    if i > 0 {
      var k := i - 1;
      assert Find(g, d, cat, w[k].0, w[k].1).Some?;
      WalkDistinct(g, d, cat, lost, w, i - 1, j - 1);
      if w[i].0 == w[j].0 {
        FoundInOne(g, d, cat, lost, w[i - 1], w[j - 1]);
      }
    }
  }

  lemma OpenedTarget(g: Geometry, v: Vol, path: seq<Byte>, mode: Mode, owner: int, fd: int, v2: Vol)
    requires Step(g, v, DidOpen(path, mode, owner, fd), v2) && !Refused(g, v.d, v.cat, path, mode)
    ensures var p := Resolve(g, v.d, v.cat, Root, path);
            p.Some? && Target(g, v2, path) == Find(g, v2.d, v2.cat, p.value.0, p.value.1)
  {
    hide WellFormed, FilesTight, FdsOk, TightFile, FileBytes, SameNames, NameAdded, Resolve, Find, FilesKept, Starts,
         RefusedIn, Walk, EarlierApart;
    var p := Resolve(g, v.d, v.cat, Root, path).value;
    if Find(g, v.d, v.cat, p.0, p.1).None? {
      var loc := Find(g, v2.d, v2.cat, p.0, p.1).value;
      LastApart(g, v, path);
      WalkKept(g, v.d, v.cat, v2.d, v2.cat, p.0, p.1, loc, false, Root, path);
    } else {
      ResolveSame(g, v.d, v.cat, v2.d, v2.cat, Root, path);
    }
  }

  /** A path never passes through the directory that holds its last component. */
  lemma LastApart(g: Geometry, v: Vol, path: seq<Byte>)
    requires Sound(g, v) && Resolve(g, v.d, v.cat, Root, path).Some?
    ensures var p := Resolve(g, v.d, v.cat, Root, path).value; EarlierApart(Walk(g, v.d, v.cat, Root, path), p.0, p.1)
  {
    hide WellFormed, FilesTight, FdsOk, Walk, Resolve, Name83, Find;
    var w := Walk(g, v.d, v.cat, Root, path);
    WalkLast(g, v.d, v.cat, Root, path);
    WalkDescends(g, v.d, v.cat, Root, path);
    forall k | 0 <= k < |w| - 1 ensures Apart(w[k], w[|w| - 1].0, w[|w| - 1].1) {
      WalkDistinct(g, v.d, v.cat, v.lost, w, k, |w| - 1);
    }
  }

  lemma OpenedBytes(g: Geometry, v: Vol, path: seq<Byte>, mode: Mode, owner: int, i: nat, v2: Vol)
    requires Step(g, v, DidOpen(path, mode, owner, FAT_FD_BASE + i), v2)
    ensures i < MAX_OPEN_FILES == |v2.files| && !Refused(g, v.d, v.cat, path, mode) && Writing(v2.files[i])
    ensures var p := Resolve(g, v.d, v.cat, Root, path).value;
      Find(g, v2.d, v2.cat, p.0, p.1) == Some(SlotOf(v2.files[i]))
    ensures BytesAt(g, v2, SlotOf(v2.files[i])) == StartingBytes(g, v, path, mode)
    ensures v2.files[i].fileOffset == if mode == Modify then 0 else v2.files[i].fileSize
  {
    hide WellFormed, FilesTight, FdsOk, TightFile, FileBytes, SameNames, NameAdded, Resolve, Find, FilesKept, FdOk,
         RefusedIn;
  }

  /** Open a path to create, truncate or append, and let any calls follow that neither close nor
      seek this descriptor.  The file then holds what it held before, unless it was emptied,
      followed by exactly the bytes that the writes reported; the path still leads to it
      exactly when no call took one of its lookups, and reading the path then gives those bytes. */
  lemma WrittenIsRead(g: Geometry, vs: seq<Vol>, es: seq<Event>, path: seq<Byte>, mode: Mode, owner: int, i: nat,
                      size: nat)
    requires Run(g, vs, es) && es != [] && es[0] == DidOpen(path, mode, owner, FAT_FD_BASE + i) && mode != Modify
    requires Sound(g, vs[0])
    requires i < MAX_OPEN_FILES && HeldThroughout(vs[1..], es[1..], i) && NeverSeeks(es[1..], FAT_FD_BASE + i)
    ensures Sound(g, vs[1]) && Sound(g, vs[|es|])
    ensures var bytes, at :=
      StartingBytes(g, vs[0], path, mode) + Reported(es[1..], FAT_FD_BASE + i), SlotOf(vs[1].files[i]);
            && BytesAt(g, vs[|es|], at) == bytes
            && (Target(g, vs[|es|], path) == Some(at) <==> NeverTaken(g, vs[1..], es[1..], path))
            && (NeverTaken(g, vs[1..], es[1..], path) ==>
                  ReadResult(g, vs[|es|], path, size) == if |bytes| <= size then Some(bytes) else None)
  {
    var us, fs, fd := vs[1..], es[1..], FAT_FD_BASE + i;
    RunTail(g, vs, es);
    assert us[|fs|] == vs[|es|];
    OpenedBytes(g, vs[0], path, mode, owner, i, vs[1]);
    OpenedTarget(g, vs[0], path, mode, owner, fd, vs[1]);
    WritingIsTight(g, us[0], i);
    assert TapeOf(g, us[0], i).at == |TapeOf(g, us[0], i).content|;
    hide Step, Run, Refused, Resolve, Find, TightFile, HeldThroughout, NeverSeeks, NeverTaken, ReplayAll, Reported;
    RunPlays(g, us, fs, i);
    ReplayAppends(TapeOf(g, us[0], i), fs, fd);
    RunKeepsTarget(g, us, fs, path);
    WritingIsTight(g, us[|fs|], i);
  }

  lemma RunTail(g: Geometry, vs: seq<Vol>, es: seq<Event>)
    requires Run(g, vs, es) && es != []
    ensures Step(g, vs[0], es[0], vs[1]) && Run(g, vs[1..], es[1..]) && Sound(g, vs[1])
  {
    hide Sound;
    forall k | 0 <= k < |es| - 1 ensures Step(g, vs[1..][k], es[1..][k], vs[1..][k + 1]) {
      assert Step(g, vs[k + 1], es[k + 1], vs[k + 1 + 1]);
    }
  }

  /** Every call leaves the reserved clusters as they are. */
  lemma StepKeepsReserved(g: Geometry, v: Vol, e: Event, v2: Vol)
    requires Step(g, v, e, v2)
    ensures g.Fits(v.d) && g.Fits(v2.d) && ReservedKept(Fat(g, v.d), Fat(g, v2.d))
  {
    hide WellFormed, FilesTight, FdsOk, TightFile, FileBytes, SameNames, NameAdded, Resolve, Find, Starts, RefusedIn,
      Overwrite,
         MkdirHasNoRoom, Fat, ReservedKept, BytesAt;
    ReservedRefl(Fat(g, v.d));
    match e
    case DidOpen(path, mode, owner, fd) =>
      assert Refused(g, v.d, v.cat, path, mode) ==> v2 == v;
    case _ =>
  }

  lemma ReservedRefl(f: seq<U16>)
    ensures ReservedKept(f, f)
  {
  }

  /** In every state of a run, free and chained clusters together are as many as at the
      start: none leaks, none is counted twice, and no mark of a bad cluster is cleared. */
  lemma {:induction false} RunConserves(g: Geometry, vs: seq<Vol>, es: seq<Event>)
    requires Run(g, vs, es) && Sound(g, vs[0])
    ensures Sound(g, vs[|es|]) && vs[|es|].lost == vs[0].lost && ReservedKept(Fat(g, vs[0].d), Fat(g, vs[|es|].d))
    ensures |FreeSet(Fat(g, vs[|es|].d))| + |ChainedSet(vs[|es|].cat)|
      == |FreeSet(Fat(g, vs[0].d))| + |ChainedSet(vs[0].cat)|
    decreases |es|
  {
    hide Step, Sound, Run, FreeSet, ChainedSet, ReservedSet, ReservedKept, Fat;
    RunLength(g, vs, es);
    SoundFits(g, vs[0]);
    if es == [] {
      ReservedRefl(Fat(g, vs[0].d));
    } else {
      var n := |es| - 1;
      RunShorter(g, vs, es);
      StepSound(g, vs[n], es[n], vs[n + 1]);
      var us := vs[..n + 1];
      assert us[0] == vs[0] && us[n] == vs[n];
      RunConserves(g, us, es[..n]);
      StepKeepsReserved(g, vs[n], es[n], vs[n + 1]);
      ReservedTrans(Fat(g, vs[0].d), Fat(g, vs[n].d), Fat(g, vs[n + 1].d));
      ReservedSame(Fat(g, vs[n].d), Fat(g, vs[n + 1].d));
      ClustersAddUp(g, vs[n]);
      ClustersAddUp(g, vs[n + 1]);
    }
  }

  lemma ClustersAddUp(g: Geometry, v: Vol)
    requires Sound(g, v)
    ensures var f := Fat(g, v.d);
      |FreeSet(f)| + |ChainedSet(v.cat)| + |LostSet(v.lost)| + |ReservedSet(f)| == g.Entries() - 2
  {
    assert Partition(Fat(g, v.d), v.cat, v.lost);
    Conservation(Fat(g, v.d), v.cat, v.lost);
  }
}
