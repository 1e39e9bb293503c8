/**
  Opening, creating, truncating and making directories: the calls that change the tree of
  names, and what they leave as it was.
*/
module FatOps {
  import opened Common
  import opened FatDisk
  import opened FatChains
  import opened FatRead
  import opened FatWrite
  import opened FatDirs
  import opened FatCatalog
  import opened FatVolume

  /** A directory has a free slot, and this is its first one. */
  ghost predicate FreeSlotAt(g: Geometry, d: Image, cat: Catalog, dir: DirRef, loc: Loc) {
    && g.Fits(d) && CatClusters(g, cat) && IsDir(d, cat, dir)
    && var slots := SlotsOf(g, d, cat, dir);
       FirstFree(slots) < |slots| && loc == SlotLoc(LbasOf(g, cat, dir), FirstFree(slots))
  }

  ghost predicate DirFull(g: Geometry, d: Image, cat: Catalog, dir: DirRef) {
    && g.Fits(d) && CatClusters(g, cat)
    && FirstFree(SlotsOf(g, d, cat, dir)) == |SlotsOf(g, d, cat, dir)|
  }

  /** The same entries with the same chains, except that the directory may have grown. */
  ghost predicate OnlyDirChain(cat: Catalog, cat2: Catalog, dir: DirRef) {
    cat2.Keys == cat.Keys && forall at :: at in cat && Sub(at) != dir ==> cat2[at] == cat[at]
  }

  /** fat_alloc_dir_entry_in_dir: fails only when the directory is full and cannot grow. */
  method AllocDirEntry(g: Geometry, disk: Disk, isRoot: bool, first: U16, ghost cat: Catalog, ghost lost: set<U16>,
                       ghost dir: DirRef)
    returns (ok: bool, lba: nat, idx: nat, ghost cat2: Catalog)
    requires WellFormed(g, disk.sectors, cat, lost) && IsDir(disk.sectors, cat, dir) && Handle(cat, dir, isRoot, first)
    modifies disk
    ensures WellFormed(g, disk.sectors, cat2, lost)
    ensures SameNames(g, old(disk.sectors), cat, disk.sectors, cat2)
    ensures FilesKept(g, old(disk.sectors), cat, disk.sectors, cat2, {})
    ensures ok ==> FreeSlotAt(g, disk.sectors, cat2, dir, Loc(lba, idx))
    ensures !ok <==> DirFull(g, old(disk.sectors), cat, dir) && (isRoot || FreeSet(Fat(g, old(disk.sectors))) == {})
    ensures !ok ==> disk.sectors == old(disk.sectors) && cat2 == cat
    ensures LostKept(g, old(disk.sectors), disk.sectors, lost)
    ensures OnlyDirChain(cat, cat2, dir)
  {
    ghost var d0 := disk.sectors;
    cat2 := cat;
    WellFormedBase(g, d0, cat, lost);
    BaseFacts(g, d0, cat, lost, dir, isRoot, first);
    KeptItself(g, d0, cat, lost, dir);
    hide *;
    ok, lba, idx := FindFreeIn(g, disk, isRoot, first, cat, lost, dir);
    if ok {
      return;
    }
    if isRoot {
      return;
    }
    var n;
    ghost var more;
    n, more := ExtendDirOf(g, disk, first, cat, lost, dir);
    if n == 0 {
      return false, 0, 0, cat;
    }
    cat2 := cat[dir.loc := cat[dir.loc] + [n]];
    ok, lba, idx := true, g.ClusterLba(n), 0;
    ExtendedSlot(g, d0, disk.sectors, cat, lost, dir, n, more);
  }

  lemma BaseFacts(g: Geometry, d: Image, cat: Catalog, lost: set<U16>, dir: DirRef, isRoot: bool, first: U16)
    requires Base(g, d, cat, lost) && Handle(cat, dir, isRoot, first)
    ensures g.Fits(d) && CatClusters(g, cat)
    ensures !isRoot ==> Handle(cat, dir, false, first)
  {
  }

  method FindFreeIn(g: Geometry, disk: Disk, isRoot: bool, first: U16, ghost cat: Catalog, ghost lost: set<U16>,
                    ghost dir: DirRef)
    returns (ok: bool, lba: nat, idx: nat)
    requires Base(g, disk.sectors, cat, lost) && IsDir(disk.sectors, cat, dir) && Handle(cat, dir, isRoot, first)
    ensures ok ==> FreeSlotAt(g, disk.sectors, cat, dir, Loc(lba, idx))
    ensures !ok <==> DirFull(g, disk.sectors, cat, dir)
  {
    HandleChain(g, disk.sectors, cat, lost, dir, isRoot, first);
    ok, lba, idx := FindFreeSlot(g, disk, isRoot, first, ChainOf(cat, dir));
  }

  lemma KeptItself(g: Geometry, d: Image, cat: Catalog, lost: set<U16>, dir: DirRef)
    requires g.Fits(d) && CatClusters(g, cat)
    ensures OnlyDirChain(cat, cat, dir)
    ensures SameNames(g, d, cat, d, cat) && FilesKept(g, d, cat, d, cat, {}) && LostKept(g, d, d, lost)
  {
  }

  method ExtendDirOf(g: Geometry, disk: Disk, first: U16, ghost cat: Catalog, ghost lost: set<U16>, ghost dir: DirRef)
    returns (n: U16, ghost more: seq<Slot>)
    requires WellFormed(g, disk.sectors, cat, lost) && IsDir(disk.sectors, cat, dir) && Handle(cat, dir, false, first)
    modifies disk
    ensures dir.Sub? && dir.loc in cat
    ensures n == 0 <==> FreeSet(Fat(g, old(disk.sectors))) == {}
    ensures n == 0 ==> disk.sectors == old(disk.sectors)
    ensures n != 0 ==>
      && g.IsCluster(n) && 2 <= n
      && WellFormed(g, disk.sectors, cat[dir.loc := cat[dir.loc] + [n]], lost)
      && SameNames(g, old(disk.sectors), cat, disk.sectors, cat[dir.loc := cat[dir.loc] + [n]])
      && FilesKept(g, old(disk.sectors), cat, disk.sectors, cat[dir.loc := cat[dir.loc] + [n]], {})
      && LbasOf(g, cat[dir.loc := cat[dir.loc] + [n]], dir) == LbasOf(g, cat, dir) + ClusterLbas(g, n)
      && SlotsOf(g, disk.sectors, cat[dir.loc := cat[dir.loc] + [n]], dir)
        == SlotsOf(g, old(disk.sectors), cat, dir) + more
      && AllEnd(more) && |more| == 16 * g.spc && LostKept(g, old(disk.sectors), disk.sectors, lost)
  {
    assert dir == Sub(dir.loc);
    n, more := ExtendDir(g, disk, first, cat, lost, dir.loc);
  }

  lemma ExtendedSlot(g: Geometry, d: Image, d2: Image, cat: Catalog, lost: set<U16>, dir: DirRef, n: U16,
                     more: seq<Slot>)
    requires Base(g, d, cat, lost) && IsDir(d, cat, dir) && dir.Sub? && dir.loc in cat && DirFull(g, d, cat, dir)
    requires g.IsCluster(n)
    requires SameNames(g, d, cat, d2, cat[dir.loc := cat[dir.loc] + [n]])
    requires LbasOf(g, cat[dir.loc := cat[dir.loc] + [n]], dir) == LbasOf(g, cat, dir) + ClusterLbas(g, n)
    requires SlotsOf(g, d2, cat[dir.loc := cat[dir.loc] + [n]], dir) == SlotsOf(g, d, cat, dir) + more
    requires AllEnd(more) && |more| == 16 * g.spc
    ensures FreeSlotAt(g, d2, cat[dir.loc := cat[dir.loc] + [n]], dir, Loc(g.ClusterLba(n), 0))
    ensures OnlyDirChain(cat, cat[dir.loc := cat[dir.loc] + [n]], dir)
  {
    hide Partition, Mirrored, Fat, LbasOf, SlotsOf, Find;
    var cat2 := cat[dir.loc := cat[dir.loc] + [n]];
    var slots, lbas := SlotsOf(g, d, cat, dir), LbasOf(g, cat, dir);
    GrownDirectory(slots, more, []);
    assert IsDir(d2, cat2, dir);
    assert (lbas + ClusterLbas(g, n))[|lbas|] == g.ClusterLba(n);
    assert |slots| / 16 == |lbas| && |slots| % 16 == 0;
  }

  // ----------------------------------------------------------------------- writing a new entry

  /** The 32 bytes the driver stores for a new file or directory. */
  function NewSlot(name: seq<Byte>, attr: Byte, first: U16): (e: Slot)
    ensures ShortName(e) == Name83(name) && e[11] == attr && e[0] == Name83(name)[0]
    ensures e[26] == first % 256 && e[27] == first / 256 && e[28] == e[29] == e[30] == e[31] == 0
  {
    Name83(name) + [attr] + seq(14, i => 0) + [first % 256, first / 256] + [0, 0, 0, 0]
  }

  lemma NewSlotLinks(s: Sector, idx: nat, name: seq<Byte>, attr: Byte, first: U16)
    requires idx < 16
    ensures var s2 := PutSlot(s, idx, NewSlot(name, attr, first));
            EntryFirst(s2, idx) == first && EntrySize(s2, idx) == 0
  {
    var e := NewSlot(name, attr, first);
    var s2 := PutSlot(s, idx, e);
    assert forall b :: 0 <= b < 32 ==> SlotIn(s2, idx)[b] == s2[32 * idx + b];
    assert SlotIn(s2, idx) == e;
  }

  /** The names after an entry called name was added at loc in dir. */
  ghost predicate NameAdded(g: Geometry, d: Image, cat: Catalog, d2: Image, cat2: Catalog, dir: DirRef, name: seq<Byte>,
                            loc: Loc, isDirectory: bool) {
    && g.Fits(d) && g.Fits(d2) && CatClusters(g, cat) && CatClusters(g, cat2) && IsDir(d, cat, dir)
    && (forall x :: IsDir(d2, cat2, x) <==> IsDir(d, cat, x) || (x == Sub(loc) && isDirectory))
    && (forall x, nm :: IsDir(d, cat, x) && (x != dir || Name83(nm) != Name83(name)) ==>
          Find(g, d2, cat2, x, nm) == Find(g, d, cat, x, nm))
    && (forall nm :: Name83(nm) == Name83(name) ==> Find(g, d2, cat2, dir, nm) == Overtaking(g, d, cat, dir, nm, loc))
    && Find(g, d2, cat2, dir, name) == Some(loc)
  }

  /** What nm finds in dir once an entry with its 8.3 name stands at loc, the first free slot. */
  ghost function Overtaking(g: Geometry, d: Image, cat: Catalog, dir: DirRef, nm: seq<Byte>, loc: Loc): (r: Option<Loc>)
    requires g.Fits(d) && CatClusters(g, cat)
  {
    if Overtakes(g, d, cat, dir, nm) then Some(loc) else Find(g, d, cat, dir, nm)
  }

  /** Nothing is found in dir. */
  ghost predicate NoNames(g: Geometry, d: Image, cat: Catalog, dir: DirRef) {
    g.Fits(d) && CatClusters(g, cat) && forall nm :: Find(g, d, cat, dir, nm) == None
  }

  lemma AddedNames(g: Geometry, d: Image, cat: Catalog, lost: set<U16>, dir: DirRef, name: seq<Byte>, p: nat, e: Slot,
                   d2: Image, ch2: seq<U16>, lost2: set<U16>, loc: Loc, cat2: Catalog)
    requires Addable(g, d, cat, lost, dir, name, p, e) && Added(g, d, cat, dir, p, e, d2, ch2, lost2)
    requires loc == SlotLoc(LbasOf(g, cat, dir), p) && cat2 == cat[loc := ch2]
    ensures NameAdded(g, d, cat, d2, cat2, dir, name, loc, IsDirectory(e))
  {
    AddableFits(g, d, cat, lost, dir, name, p, e);
    hide *;
    AddedDirKinds(g, d, cat, lost, dir, name, p, e, d2, ch2, lost2, loc, cat2);
    AddedFinds(g, d, cat, lost, dir, name, p, e, d2, ch2, lost2, loc, cat2);
    NameAddedIntro(g, d, cat, d2, cat2, dir, name, loc, IsDirectory(e));
  }

  lemma AddableFits(g: Geometry, d: Image, cat: Catalog, lost: set<U16>, dir: DirRef, name: seq<Byte>, p: nat, e: Slot)
    requires Addable(g, d, cat, lost, dir, name, p, e)
    ensures g.Fits(d) && CatClusters(g, cat) && IsDir(d, cat, dir)
  {
  }

  lemma NameAddedIntro(g: Geometry, d: Image, cat: Catalog, d2: Image, cat2: Catalog, dir: DirRef, name: seq<Byte>,
                       loc: Loc, isDirectory: bool)
    requires g.Fits(d) && g.Fits(d2) && CatClusters(g, cat) && CatClusters(g, cat2) && IsDir(d, cat, dir)
    requires forall x :: IsDir(d2, cat2, x) <==> IsDir(d, cat, x) || (x == Sub(loc) && isDirectory)
    requires forall x, nm :: IsDir(d, cat, x) && (x != dir || Name83(nm) != Name83(name)) ==>
      Find(g, d2, cat2, x, nm) == Find(g, d, cat, x, nm)
    requires forall nm :: Name83(nm) == Name83(name) ==>
      Find(g, d2, cat2, dir, nm) == Overtaking(g, d, cat, dir, nm, loc)
    requires Find(g, d2, cat2, dir, name) == Some(loc)
    ensures NameAdded(g, d, cat, d2, cat2, dir, name, loc, isDirectory)
  {
    hide Find, IsDir, Name83, Overtaking;
  }

  lemma AddedFinds(g: Geometry, d: Image, cat: Catalog, lost: set<U16>, dir: DirRef, name: seq<Byte>, p: nat, e: Slot,
                   d2: Image, ch2: seq<U16>, lost2: set<U16>, loc: Loc, cat2: Catalog)
    requires Addable(g, d, cat, lost, dir, name, p, e) && Added(g, d, cat, dir, p, e, d2, ch2, lost2)
    requires loc == SlotLoc(LbasOf(g, cat, dir), p) && cat2 == cat[loc := ch2]
    ensures g.Fits(d2) && CatClusters(g, cat2) && Find(g, d2, cat2, dir, name) == Some(loc)
    ensures forall x, nm :: IsDir(d, cat, x) && (x != dir || Name83(nm) != Name83(name)) ==>
      Find(g, d2, cat2, x, nm) == Find(g, d, cat, x, nm)
    ensures forall nm :: Name83(nm) == Name83(name) ==>
      Find(g, d2, cat2, dir, nm) == Overtaking(g, d, cat, dir, nm, loc)
  {
    AddableFits(g, d, cat, lost, dir, name, p, e);
    AddedFind(g, d, cat, lost, dir, name, p, e, d2, ch2, lost2, dir, name);
    assert g.Fits(d2) && CatClusters(g, cat2);
    hide *;
    forall x, nm | IsDir(d, cat, x) && (x != dir || Name83(nm) != Name83(name))
      ensures Find(g, d2, cat2, x, nm) == Find(g, d, cat, x, nm) {
      AddedFind(g, d, cat, lost, dir, name, p, e, d2, ch2, lost2, x, nm);
    }
    forall nm | Name83(nm) == Name83(name) ensures Find(g, d2, cat2, dir, nm) == Overtaking(g, d, cat, dir, nm, loc) {
      AddedFind(g, d, cat, lost, dir, name, p, e, d2, ch2, lost2, dir, nm);
    }
  }

  lemma AddedDirKinds(g: Geometry, d: Image, cat: Catalog, lost: set<U16>, dir: DirRef, name: seq<Byte>, p: nat,
                      e: Slot,
                      d2: Image, ch2: seq<U16>, lost2: set<U16>, loc: Loc, cat2: Catalog)
    requires Addable(g, d, cat, lost, dir, name, p, e) && Added(g, d, cat, dir, p, e, d2, ch2, lost2)
    requires loc == SlotLoc(LbasOf(g, cat, dir), p) && cat2 == cat[loc := ch2]
    ensures forall x :: IsDir(d2, cat2, x) <==> IsDir(d, cat, x) || (x == Sub(loc) && IsDirectory(e))
  {
    hide *;
    forall x ensures IsDir(d2, cat2, x) <==> IsDir(d, cat, x) || (x == Sub(loc) && IsDirectory(e)) {
      AddedDirs(g, d, cat, lost, dir, name, p, e, d2, ch2, lost2, x);
    }
  }

  lemma AddedFind(g: Geometry, d: Image, cat: Catalog, lost: set<U16>, dir: DirRef, name: seq<Byte>, p: nat, e: Slot,
                  d2: Image, ch2: seq<U16>, lost2: set<U16>, x: DirRef, nm: seq<Byte>)
    requires Addable(g, d, cat, lost, dir, name, p, e) && Added(g, d, cat, dir, p, e, d2, ch2, lost2)
    requires IsDir(d, cat, x)
    ensures var loc := SlotLoc(LbasOf(g, cat, dir), p);
            && (x != dir || Name83(nm) != Name83(name) ==>
                  Find(g, d2, cat[loc := ch2], x, nm) == Find(g, d, cat, x, nm))
            && (x == dir && Name83(nm) == Name83(name) ==>
                  Find(g, d2, cat[loc := ch2], x, nm) == Overtaking(g, d, cat, x, nm, loc))
            && (x == dir && nm == name ==> Find(g, d2, cat[loc := ch2], x, nm) == Some(loc))
  {
    AddedDirs(g, d, cat, lost, dir, name, p, e, d2, ch2, lost2, x);
    AddedLookup(g, d, cat, lost, dir, name, p, e, nm);
    NotYetDir(g, d, cat, lost, dir, p, x);
    FindIs(g, d, cat, x, nm);
    FindIs(g, d2, cat[SlotLoc(LbasOf(g, cat, dir), p) := ch2], x, nm);
    OvertakingIs(g, d, cat, x, nm, SlotLoc(LbasOf(g, cat, dir), p));
    hide *;
  }

  lemma FindIs(g: Geometry, d: Image, cat: Catalog, x: DirRef, nm: seq<Byte>)
    requires g.Fits(d) && CatClusters(g, cat)
    ensures var i := Lookup(SlotsOf(g, d, cat, x), nm);
            Find(g, d, cat, x, nm) == if i == -1 then None else Some(SlotLoc(LbasOf(g, cat, x), i))
  {
  }

  lemma OvertakingIs(g: Geometry, d: Image, cat: Catalog, x: DirRef, nm: seq<Byte>, loc: Loc)
    requires g.Fits(d) && CatClusters(g, cat)
    ensures Overtaking(g, d, cat, x, nm, loc) ==
            if Overtaken(SlotsOf(g, d, cat, x), nm) then Some(loc) else Find(g, d, cat, x, nm)
    ensures Lookup(SlotsOf(g, d, cat, x), nm) == -1 ==> Overtaken(SlotsOf(g, d, cat, x), nm)
  {
  }

  lemma NotYetDir(g: Geometry, d: Image, cat: Catalog, lost: set<U16>, dir: DirRef, p: nat, x: DirRef)
    requires WellFormed(g, d, cat, lost) && p < |SlotsOf(g, d, cat, dir)| && IsFree(SlotsOf(g, d, cat, dir)[p])
    requires IsDir(d, cat, x)
    ensures x != Sub(SlotLoc(LbasOf(g, cat, dir), p))
  {
    AddedIsNew(g, d, cat, lost, dir, p);
  }

  lemma AddedLookup(g: Geometry, d: Image, cat: Catalog, lost: set<U16>, dir: DirRef, name: seq<Byte>, p: nat, e: Slot,
                    nm: seq<Byte>)
    requires Addable(g, d, cat, lost, dir, name, p, e)
    ensures Name83(nm) != Name83(name) ==>
      Lookup(SlotsOf(g, d, cat, dir)[p := e], nm) == Lookup(SlotsOf(g, d, cat, dir), nm)
    ensures var slots := SlotsOf(g, d, cat, dir);
            Name83(nm) == Name83(name) ==> Lookup(slots[p := e], nm) == if Overtaken(slots, nm) then p
              else Lookup(slots, nm)
    ensures Lookup(SlotsOf(g, d, cat, dir)[p := e], name) == p
  {
    hide Partition, Mirrored, Fat, EntryOk, Lookup, SlotLoc, IsShort, Name83, LbasOf, SlotsOf, Overtaken;
    assert DirOk(g, d, cat, dir);
    CreatedIsFound(SlotsOf(g, d, cat, dir), name, e);
    if Name83(nm) != Name83(name) {
      CreatedIsLocal(SlotsOf(g, d, cat, dir), nm, e);
    } else {
      CreatedOvertakes(SlotsOf(g, d, cat, dir), nm, e);
    }
  }

  lemma AddedFiles(g: Geometry, d: Image, cat: Catalog, lost: set<U16>, dir: DirRef, name: seq<Byte>, p: nat, e: Slot,
                   d2: Image, ch2: seq<U16>, lost2: set<U16>)
    requires Addable(g, d, cat, lost, dir, name, p, e) && Added(g, d, cat, dir, p, e, d2, ch2, lost2)
    ensures var loc := SlotLoc(LbasOf(g, cat, dir), p);
            FilesKept(g, d, cat, d2, cat[loc := ch2], {})
  {
    var loc := SlotLoc(LbasOf(g, cat, dir), p);
    AddedFits(g, d, cat, lost, dir, name, p, e, d2, ch2, lost2);
    hide *;
    forall at | TightFile(g, d, cat, at) ensures FileIsKept(g, d, cat, d2, cat[loc := ch2], at) {
      AddedFile(g, d, cat, lost, dir, name, p, e, d2, ch2, lost2, at);
    }
    FilesKeptIntro(g, d, cat, d2, cat[loc := ch2]);
  }

  lemma AddedFits(g: Geometry, d: Image, cat: Catalog, lost: set<U16>, dir: DirRef, name: seq<Byte>, p: nat, e: Slot,
                  d2: Image, ch2: seq<U16>, lost2: set<U16>)
    requires Addable(g, d, cat, lost, dir, name, p, e) && Added(g, d, cat, dir, p, e, d2, ch2, lost2)
    ensures g.Fits(d) && g.Fits(d2) && ReservedKept(Fat(g, d), Fat(g, d2))
  {
    hide Mirrored, Fat, IsChain, EntryOk, DirOk, SlotLoc, Slots, IsShort, ShortName, Name83, LbasOf, Lookup, FirstFree;
    var loc := SlotLoc(LbasOf(g, cat, dir), p);
    LocInLbas(LbasOf(g, cat, dir), p);
    var home := LbaHome(g, d, cat, lost, dir, loc.lba);
    HomeFrame(g, d, home, loc.lba, d2[loc.lba]);
  }

  ghost predicate FileIsKept(g: Geometry, d: Image, cat: Catalog, d2: Image, cat2: Catalog, at: Loc) {
    && g.Fits(d) && g.Fits(d2) && TightFile(g, d, cat, at) && TightFile(g, d2, cat2, at)
    && cat2[at] == cat[at] && FileBytes(g, d2, cat2, at) == FileBytes(g, d, cat, at)
  }

  lemma FilesKeptIntro(g: Geometry, d: Image, cat: Catalog, d2: Image, cat2: Catalog)
    requires g.Fits(d) && g.Fits(d2) && ReservedKept(Fat(g, d), Fat(g, d2))
    requires forall at :: TightFile(g, d, cat, at) ==> FileIsKept(g, d, cat, d2, cat2, at)
    ensures FilesKept(g, d, cat, d2, cat2, {})
  {
    hide TightFile, FileBytes, Fat, ReservedKept;
  }

  lemma AddedFile(g: Geometry, d: Image, cat: Catalog, lost: set<U16>, dir: DirRef, name: seq<Byte>, p: nat, e: Slot,
                  d2: Image, ch2: seq<U16>, lost2: set<U16>, at: Loc)
    requires Addable(g, d, cat, lost, dir, name, p, e) && Added(g, d, cat, dir, p, e, d2, ch2, lost2)
    requires TightFile(g, d, cat, at)
    ensures FileIsKept(g, d, cat, d2, cat[SlotLoc(LbasOf(g, cat, dir), p) := ch2], at)
  {
    hide Mirrored, Fat, IsChain, EntryOk, DirOk, SlotLoc, Slots, IsShort, ShortName, Name83, LbasOf, Content, Lookup;
    var loc := SlotLoc(LbasOf(g, cat, dir), p);
    AddedIsNew(g, d, cat, lost, dir, p);
    assert loc.lba in LbasOf(g, cat, dir) by { LocInLbas(LbasOf(g, cat, dir), p); }
    var home := LbaHome(g, d, cat, lost, dir, loc.lba);
    HomeFrame(g, d, home, loc.lba, d2[loc.lba]);
    AddedEntryKept(g, d, cat, lost, dir, name, p, e, d2, ch2, lost2, at);
    assert home !in cat[at] by { assert dir.Sub? ==> dir.loc != at; }
    FileKept(g, d, cat, d2, cat[loc := ch2], at);
  }

  lemma LocInLbas(lbas: seq<nat>, p: nat)
    requires p < 16 * |lbas|
    ensures SlotLoc(lbas, p).lba in lbas
  {
  }

  /** A C string that the driver can store and find again. */
  predicate Storable(name: seq<Byte>) {
    name != [] && 0 !in name && name[0] != DELETED
  }

  lemma NewSlotIsShort(name: seq<Byte>, attr: Byte, first: U16)
    requires Storable(name) && attr / 8 % 2 == 0
    ensures IsShort(NewSlot(name, attr, first))
  {
    Name83First(name);
  }

  /** Everything about a new entry once its chain is accounted for. */
  ghost predicate EntryAdded(g: Geometry, d: Image, cat: Catalog, d2: Image, cat2: Catalog, lost2: set<U16>,
                             dir: DirRef, name: seq<Byte>, loc: Loc, isDirectory: bool) {
    && loc !in cat && loc in cat2 && WellFormed(g, d2, cat2, lost2) && LocOnDisk(d2, loc)
    && EntrySize(d2[loc.lba], loc.idx) == 0
    && IsDirectory(SlotAt(d2, loc)) == isDirectory
    && NameAdded(g, d, cat, d2, cat2, dir, name, loc, isDirectory) && FilesKept(g, d, cat, d2, cat2, {})
    && (isDirectory ==> NoNames(g, d2, cat2, Sub(loc)))
  }

  lemma AddOnVolume(g: Geometry, d: Image, cat: Catalog, lost: set<U16>, dir: DirRef, name: seq<Byte>, loc: Loc,
                    attr: Byte, first: U16,
                    d2: Image, ch2: seq<U16>, lost2: set<U16>)
    requires WellFormed(g, d, cat, lost) && FreeSlotAt(g, d, cat, dir, loc) && Find(g, d, cat, dir, name) == None
    requires Storable(name) && attr / 8 % 2 == 0 && Head(ch2) == first
    requires LocOnDisk(d, loc) && d2 == d[loc.lba := PutSlot(d[loc.lba], loc.idx, NewSlot(name, attr, first))]
    requires Base(g, d2, cat[loc := ch2], lost2)
    requires attr / 16 % 2 == 1 ==>
      ch2 != [] && DirOk(g, d2, cat[loc := ch2], Sub(loc)) && NoNames(g, d2, cat[loc := ch2], Sub(loc))
    ensures EntryAdded(g, d, cat, d2, cat[loc := ch2], lost2, dir, name, loc, attr / 16 % 2 == 1)
  {
    hide *;
    NewIsFree(g, d, cat, dir, loc);
    var p, e := FirstFree(SlotsOf(g, d, cat, dir)), NewSlot(name, attr, first);
    OnDiskLoc(d, loc);
    KindIs(e);
    NewSlotLinks(d[loc.lba], loc.idx, name, attr, first);
    NewIsAddable(g, d, cat, lost, dir, name, loc, attr, first);
    NewIsAdded(g, d, cat, dir, loc, p, e, d2, ch2, lost2);
    AddedIsNew(g, d, cat, lost, dir, p);
    AddEntry(g, d, cat, lost, dir, name, p, e, d2, ch2, lost2);
    AddedNames(g, d, cat, lost, dir, name, p, e, d2, ch2, lost2, loc, cat[loc := ch2]);
    AddedFiles(g, d, cat, lost, dir, name, p, e, d2, ch2, lost2);
    IntroEntryAdded(g, d, cat, d2, cat[loc := ch2], lost2, dir, name, loc, e);
  }

  lemma KindIs(e: Slot)
    ensures IsDirectory(e) <==> e[11] / 16 % 2 == 1
  {
  }

  lemma NewIsFree(g: Geometry, d: Image, cat: Catalog, dir: DirRef, loc: Loc)
    requires FreeSlotAt(g, d, cat, dir, loc)
    ensures g.Fits(d) && CatClusters(g, cat)
    ensures var slots := SlotsOf(g, d, cat, dir);
            FirstFree(slots) < |slots| && IsFree(slots[FirstFree(slots)])
              && loc == SlotLoc(LbasOf(g, cat, dir), FirstFree(slots))
  {
    hide SlotsOf, LbasOf, SlotLoc;
  }

  lemma NewIsAddable(g: Geometry, d: Image, cat: Catalog, lost: set<U16>, dir: DirRef, name: seq<Byte>, loc: Loc,
                     attr: Byte, first: U16)
    requires WellFormed(g, d, cat, lost) && FreeSlotAt(g, d, cat, dir, loc) && Find(g, d, cat, dir, name) == None
    requires Storable(name) && attr / 8 % 2 == 0
    ensures Addable(g, d, cat, lost, dir, name, FirstFree(SlotsOf(g, d, cat, dir)), NewSlot(name, attr, first))
  {
    NewSlotIsShort(name, attr, first);
    FindIs(g, d, cat, dir, name);
    hide Partition, Mirrored, Fat, EntryOk, DirOk, Find, Lookup, IsShort, Name83, Slots;
  }

  lemma NewIsAdded(g: Geometry, d: Image, cat: Catalog, dir: DirRef, loc: Loc, p: nat, e: Slot, d2: Image,
                   ch2: seq<U16>, lost2: set<U16>)
    requires FreeSlotAt(g, d, cat, dir, loc) && p == FirstFree(SlotsOf(g, d, cat, dir)) && LocOnDisk(d, loc)
    requires d2 == d[loc.lba := PutSlot(d[loc.lba], loc.idx, e)]
    requires Base(g, d2, cat[loc := ch2], lost2) && EntryFirst(d2[loc.lba], loc.idx) == Head(ch2)
    requires IsDirectory(e) ==> ch2 != [] && DirOk(g, d2, cat[loc := ch2], Sub(loc))
    ensures Added(g, d, cat, dir, p, e, d2, ch2, lost2)
    ensures LocOnDisk(d2, loc) && SlotAt(d2, loc) == e
  {
    hide Partition, Mirrored, Fat, Lookup, Slots, Tidy, UniqueNames;
  }

  lemma IntroEntryAdded(g: Geometry, d: Image, cat: Catalog, d2: Image, cat2: Catalog, lost2: set<U16>, dir: DirRef,
                        name: seq<Byte>, loc: Loc, e: Slot)
    requires loc !in cat && loc in cat2 && WellFormed(g, d2, cat2, lost2) && LocOnDisk(d2, loc)
    requires EntrySize(d2[loc.lba], loc.idx) == 0
    requires SlotAt(d2, loc) == e && NameAdded(g, d, cat, d2, cat2, dir, name, loc, IsDirectory(e))
    requires FilesKept(g, d, cat, d2, cat2, {})
    requires IsDirectory(e) ==> NoNames(g, d2, cat2, Sub(loc))
    ensures EntryAdded(g, d, cat, d2, cat2, lost2, dir, name, loc, IsDirectory(e))
  {
  }

  // ---------------------------------------------------------------------- creating a file

  /** A directory slot is written: neither the FAT nor its copies change. */
  lemma SlotWriteFrame(g: Geometry, d: Image, cat: Catalog, lost: set<U16>, dir: DirRef, loc: Loc, buf: Sector)
    requires Base(g, d, cat, lost) && FreeSlotAt(g, d, cat, dir, loc)
    ensures LocOnDisk(d, loc)
    ensures var d2 := d[loc.lba := buf];
            g.Fits(d2) && Fat(g, d2) == Fat(g, d) && Mirrored(g, d2)
  {
    hide Partition, Fat, LbasOf, Mirrored, SlotsOf;
    var p := FirstFree(SlotsOf(g, d, cat, dir));
    LocInLbas(LbasOf(g, cat, dir), p);
    var home := LbaHome(g, d, cat, lost, dir, loc.lba);
    HomeFrame(g, d, home, loc.lba, buf);
  }

  lemma EmptyFile(g: Geometry, d: Image, cat: Catalog, loc: Loc)
    requires g.Fits(d) && IsFile(d, cat, loc) && cat[loc] == [] && EntrySize(d[loc.lba], loc.idx) == 0
    ensures TightFile(g, d, cat, loc) && FileBytes(g, d, cat, loc) == []
  {
  }

  /** The creation branch of fat_open_write: an empty file in a free slot. */
  method CreateFile(g: Geometry, disk: Disk, lba: nat, idx: nat, name: seq<Byte>, ghost cat: Catalog,
                    ghost lost: set<U16>, ghost dir: DirRef)
    requires WellFormed(g, disk.sectors, cat, lost) && FreeSlotAt(g, disk.sectors, cat, dir, Loc(lba, idx))
    requires Find(g, disk.sectors, cat, dir, name) == None && Storable(name)
    modifies disk
    ensures EntryAdded(g, old(disk.sectors), cat, disk.sectors, cat[Loc(lba, idx) := []], lost, dir, name,
      Loc(lba, idx), false)
    ensures TightFile(g, disk.sectors, cat[Loc(lba, idx) := []], Loc(lba, idx))
    ensures FileBytes(g, disk.sectors, cat[Loc(lba, idx) := []], Loc(lba, idx)) == []
  {
    ghost var d0, loc := disk.sectors, Loc(lba, idx);
    var e := NewSlot(name, 0, 0);
    CreateBase(g, d0, cat, lost, dir, loc, e);
    disk.sectors := disk.sectors[lba := PutSlot(disk.sectors[lba], idx, e)];
    AddOnVolume(g, d0, cat, lost, dir, name, loc, 0, 0, disk.sectors, [], lost);
    hide WellFormed, NameAdded, FilesKept, Find, FreeSlotAt;
    EmptyFile(g, disk.sectors, cat[loc := []], loc);
  }

  lemma CreateBase(g: Geometry, d: Image, cat: Catalog, lost: set<U16>, dir: DirRef, loc: Loc, e: Slot)
    requires WellFormed(g, d, cat, lost) && FreeSlotAt(g, d, cat, dir, loc)
    ensures LocOnDisk(d, loc)
    ensures Base(g, d[loc.lba := PutSlot(d[loc.lba], loc.idx, e)], cat[loc := []], lost)
  {
    AddedIsNew(g, d, cat, lost, dir, FirstFree(SlotsOf(g, d, cat, dir)));
    SlotOnDisk(g, d, cat, lost, dir, loc);
    SlotWriteFrame(g, d, cat, lost, dir, loc, PutSlot(d[loc.lba], loc.idx, e));
    EmptyPartition(Fat(g, d), cat, lost, loc);
    hide Partition, Fat, Mirrored, EntryOk, DirOk, FreeSlotAt;
    BaseFromPartition(g, d[loc.lba := PutSlot(d[loc.lba], loc.idx, e)], cat[loc := []], lost);
  }

  lemma SlotOnDisk(g: Geometry, d: Image, cat: Catalog, lost: set<U16>, dir: DirRef, loc: Loc)
    requires Base(g, d, cat, lost) && FreeSlotAt(g, d, cat, dir, loc)
    ensures LocOnDisk(d, loc)
  {
    LbasOnDisk(g, d, cat, dir);
  }

  // -------------------------------------------------------------------- truncating a file

  /** The truncation branch of fat_open_write: the chain goes back to the FAT and the entry
      becomes empty; every other file and every name stays. */
  method TruncateFile(g: Geometry, disk: Disk, lba: nat, idx: nat, ghost cat: Catalog, ghost lost: set<U16>)
    requires WellFormed(g, disk.sectors, cat, lost) && IsFile(disk.sectors, cat, Loc(lba, idx))
    modifies disk
    ensures WellFormed(g, disk.sectors, cat[Loc(lba, idx) := []], lost)
    ensures SameNames(g, old(disk.sectors), cat, disk.sectors, cat[Loc(lba, idx) := []])
    ensures FilesKept(g, old(disk.sectors), cat, disk.sectors, cat[Loc(lba, idx) := []], {Loc(lba, idx)})
    ensures TightFile(g, disk.sectors, cat[Loc(lba, idx) := []], Loc(lba, idx))
    ensures FileBytes(g, disk.sectors, cat[Loc(lba, idx) := []], Loc(lba, idx)) == []
    ensures EntrySize(disk.sectors[lba], idx) == 0
  {
    ghost var d0, loc := disk.sectors, Loc(lba, idx);
    EntryFacts(g, d0, cat, lost, loc);
    WellFormedBase(g, d0, cat, lost);
    var sectorBuf := disk.sectors[lba];
    var first := EntryFirst(sectorBuf, idx);
    TruncatePre(g, d0, cat, lost, loc);
    if first != 0 {
      ghost var freed := FreeChain(g, disk, first);
      FreedChain(g, d0, cat, lost, disk.sectors, loc, freed);
    } else {
      NothingToFree(g, d0, cat, lost, loc);
    }
    hide *;
    ghost var d1 := disk.sectors;
    var cleared := PutSize(PutFirst(sectorBuf, idx, 0), idx, 0);
    disk.sectors := disk.sectors[lba := cleared];
    TruncateOnVolume(g, d0, cat, lost, d1, disk.sectors, loc);
  }

  lemma TruncatePre(g: Geometry, d: Image, cat: Catalog, lost: set<U16>, loc: Loc)
    requires WellFormed(g, d, cat, lost) && loc in cat && LocOnDisk(d, loc)
    ensures g.Fits(d) && EntryFirst(d[loc.lba], loc.idx) == Head(cat[loc])
    ensures Head(cat[loc]) != 0 ==> InRangeFrom(Fat(g, d), Head(cat[loc]))
  {
    assert EntryOk(g, d, cat, loc);
    if cat[loc] != [] { ChainInRange(Fat(g, d), cat[loc]); }
  }

  /** The state between freeing the chain and clearing the entry. */
  ghost predicate ChainFreed(g: Geometry, d: Image, cat: Catalog, lost: set<U16>, d1: Image, loc: Loc) {
    && g.Fits(d) && g.Fits(d1) && OnlyFatChanged(g, d, d1) && Mirrored(g, d1) && loc in cat
    && Partition(Fat(g, d1), cat[loc := []], lost) && ReservedKept(Fat(g, d), Fat(g, d1))
  }

  lemma FreedChain(g: Geometry, d: Image, cat: Catalog, lost: set<U16>, d1: Image, loc: Loc, freed: set<U16>)
    requires Base(g, d, cat, lost) && loc in cat && cat[loc] != [] && g.Fits(d1) && OnlyFatChanged(g, d, d1)
    requires Mirrored(g, d1)
    requires forall x: U16 :: x in freed <==> Reaches(Fat(g, d), cat[loc][0], x)
    requires forall k :: 0 <= k < g.numFats ==> FatCopy(g, d1, k) == Zeroed(FatCopy(g, d, k), freed)
    ensures ChainFreed(g, d, cat, lost, d1, loc)
  {
    forall x: U16 ensures x in freed <==> x in cat[loc] {
      ChainReach(Fat(g, d), cat[loc], x);
    }
    assert freed == set x | x in cat[loc];
    FreePartition(Fat(g, d), cat, lost, loc);
    forall x: U16 | x in freed ensures !Reserved(Fat(g, d)[x]) {
      var i :| 0 <= i < |cat[loc]| && cat[loc][i] == x;
      ChainNotReserved(Fat(g, d), cat[loc], i);
    }
    ReservedZeroed(Fat(g, d), freed);
    hide ReservedKept;
    assert Fat(g, d1) == Zeroed(Fat(g, d), freed);
  }

  lemma NothingToFree(g: Geometry, d: Image, cat: Catalog, lost: set<U16>, loc: Loc)
    requires Base(g, d, cat, lost) && loc in cat && Head(cat[loc]) == 0
    ensures ChainFreed(g, d, cat, lost, d, loc)
  {
    assert IsChain(Fat(g, d), cat[loc]);
    assert cat[loc := []] == cat;
  }

  lemma TruncateOnVolume(g: Geometry, d: Image, cat: Catalog, lost: set<U16>, d1: Image, d2: Image, loc: Loc)
    requires WellFormed(g, d, cat, lost) && IsFile(d, cat, loc) && ChainFreed(g, d, cat, lost, d1, loc)
    requires |d1| == |d| && d2 == d1[loc.lba := PutSize(PutFirst(d[loc.lba], loc.idx, 0), loc.idx, 0)]
    ensures WellFormed(g, d2, cat[loc := []], lost) && SameNames(g, d, cat, d2, cat[loc := []])
    ensures FilesKept(g, d, cat, d2, cat[loc := []], {loc})
    ensures TightFile(g, d2, cat[loc := []], loc) && FileBytes(g, d2, cat[loc := []], loc) == []
    ensures LocOnDisk(d2, loc) && EntrySize(d2[loc.lba], loc.idx) == 0
  {
    var home := EntryHome(g, d, cat, lost, loc);
    ClearedEntry(g, d, cat, lost, d1, d2, loc, home);
    hide *;
    UpdateFile(g, d, cat, lost, d2, [], lost, loc);
    SameNamesFromDirectories(g, d, cat, d2, cat[loc := []]);
    SameDirKind(g, d, cat, d2, cat[loc := []], loc);
    EmptyFile(g, d2, cat[loc := []], loc);
    TruncateFiles(g, d, cat, d2, loc, home);
  }

  lemma ClearedEntry(g: Geometry, d: Image, cat: Catalog, lost: set<U16>, d1: Image, d2: Image, loc: Loc, home: int)
    requires WellFormed(g, d, cat, lost) && IsFile(d, cat, loc) && ChainFreed(g, d, cat, lost, d1, loc)
    requires HomeOf(g, home, loc.lba)
    requires |d1| == |d| && d2 == d1[loc.lba := PutSize(PutFirst(d[loc.lba], loc.idx, 0), loc.idx, 0)]
    ensures Base(g, d2, cat[loc := []], lost) && DirSectorsKept(g, d, d2, cat, loc) && SlotFirst(g, d2, loc, [])
    ensures SameClusters(g, d, d2, home) && g.Fits(d) && ReservedKept(Fat(g, d), Fat(g, d2))
    ensures CatClusters(g, cat[loc := []]) && loc in cat[loc := []] && cat[loc := []][loc] == []
    ensures LocOnDisk(d2, loc) && EntrySize(d2[loc.lba], loc.idx) == 0 && g.Fits(d2)
  {
    hide Partition, Fat, Mirrored, EntryOk, DirOk, LbasOf, PutSize, PutFirst, HomeOf, ClusterBytes, ReservedKept;
    HomeOnDisk(g, d, home, loc.lba);
    assert d1[loc.lba] == d[loc.lba];
    HomeFrame(g, d1, home, loc.lba, d2[loc.lba]);
    FatFrame(g, d, d1);
    BaseFromPartition(g, d2, cat[loc := []], lost);
    forall dir, l | IsDir(d, cat, dir) && l in LbasOf(g, cat, dir) && l != loc.lba && l < |d| ensures d2[l] == d[l] {
      LbasOnDisk(g, d, cat, dir);
    }
  }

  lemma TruncateFiles(g: Geometry, d: Image, cat: Catalog, d2: Image, loc: Loc, home: int)
    requires SameClusters(g, d, d2, home) && g.Fits(d) && g.Fits(d2) && ReservedKept(Fat(g, d), Fat(g, d2))
    requires CatClusters(g, cat) && forall at :: IsFile(d, cat, at) ==> home !in cat[at]
    requires forall at :: at in cat ==>
      LocOnDisk(d, at) && LocOnDisk(d2, at) && (at != loc ==> SlotAt(d2, at) == SlotAt(d, at))
    ensures FilesKept(g, d, cat, d2, cat[loc := []], {loc})
  {
    hide Content, Fat, ReservedKept;
    forall at | TightFile(g, d, cat, at) && at != loc
      ensures TightFile(g, d2, cat[loc := []], at) && FileBytes(g, d2, cat[loc := []], at) == FileBytes(g, d, cat, at)
    {
      FileKept(g, d, cat, d2, cat[loc := []], at);
    }
  }

  // ------------------------------------------------------------------ making a directory

  const ATTR_DIRECTORY: Byte := 0x10

  function DotSlot(dots: nat, first: U16): (e: Slot)
    requires 1 <= dots <= 2
    ensures e[11] == ATTR_DIRECTORY && forall i :: 0 <= i < 11 ==> e[i] == if i < dots then DOT else SPACE
    ensures e[26] == first % 256 && e[27] == first / 256 && e[28] == e[29] == e[30] == e[31] == 0
  {
    seq(11, i => if i < dots then DOT else SPACE) + [ATTR_DIRECTORY] + seq(14, i => 0) + [first % 256, first / 256]
      + [0, 0, 0, 0]
  }

  /** The first sector of a new directory: "." and "..", then nothing. */
  function DotSector(own: U16, parent: U16): (s: Sector)
    ensures SlotIn(s, 0) == DotSlot(1, own) && SlotIn(s, 1) == DotSlot(2, parent)
    ensures forall k :: 2 <= k < 16 ==> IsEnd(SlotIn(s, k))
  {
    PutSlot(PutSlot(ZeroSector(), 0, DotSlot(1, own)), 1, DotSlot(2, parent))
  }

  /** Cluster n holds a new, empty directory. */
  ghost predicate EmptyDirIn(g: Geometry, d: Image, n: U16, parent: U16) {
    && g.Fits(d) && g.IsCluster(n)
    && forall l :: Inside(g, n, l) && 0 <= l < |d| ==>
         d[l] == if l == g.ClusterLba(n) then DotSector(n, parent) else ZeroSector()
  }

  /** Filling the new directory's cluster. */
  method InitDir(g: Geometry, disk: Disk, n: U16, parent: U16, ghost cat: Catalog, ghost lost: set<U16>)
    requires WellFormed(g, disk.sectors, cat, lost) && n in lost && g.IsCluster(n)
    modifies disk
    ensures WellFormed(g, disk.sectors, cat, lost) && Fat(g, disk.sectors) == Fat(g, old(disk.sectors))
    ensures SameTree(g, old(disk.sectors), disk.sectors, cat)
    ensures FilesKept(g, old(disk.sectors), cat, disk.sectors, cat, {})
    ensures EmptyDirIn(g, disk.sectors, n, parent)
  {
    ghost var d0 := disk.sectors;
    ClusterSectors(g, disk.sectors, n, 0);
    FatSectorsOnDisk(g, disk.sectors);
    disk.sectors := disk.sectors[g.ClusterLba(n) := DotSector(n, parent)];
    ZeroCluster(g, disk, n, 1);
    hide WellFormed, SameTree, FilesKept, Fat, DotSector, ZeroSector;
    LostClusterFrame(g, d0, cat, lost, disk.sectors, n);
  }

  /** The slots of a new directory are tidy, and all of its entries are dot entries. */
  lemma EmptyDirSlots(slots: seq<Slot>, own: U16, parent: U16)
    requires |slots| >= 16 && slots[0] == DotSlot(1, own) && slots[1] == DotSlot(2, parent)
    requires forall i :: 2 <= i < |slots| ==> IsEnd(slots[i])
    ensures Tidy(slots) && UniqueNames(slots)
    ensures forall i :: 0 <= i < |slots| && IsShort(slots[i]) ==> IsDotEntry(slots, i)
    ensures forall nm :: Lookup(slots, nm) == -1
  {
    assert ShortName(slots[0])[1] != ShortName(slots[1])[1];
    assert forall k :: 0 <= k < |slots| ==> ShortName(slots[k])[0] == slots[k][0];
    forall nm ensures Lookup(slots, nm) == -1 {
      ScanHow(slots, nm, 0, LfnReset());
      Name83NoDot(nm);
    }
  }

  lemma NewDirOk(g: Geometry, d: Image, cat: Catalog, loc: Loc, n: U16, parent: U16)
    requires g.Fits(d) && CatClusters(g, cat) && loc in cat && cat[loc] == [n] && EmptyDirIn(g, d, n, parent)
    ensures DirOk(g, d, cat, Sub(loc)) && NoNames(g, d, cat, Sub(loc))
  {
    hide DotSlot, ChainLbas, Lookup, DotSector, ZeroSector, Tidy, UniqueNames, SlotIn;
    var lbas := LbasOf(g, cat, Sub(loc));
    OneClusterLbas(g, n);
    LbasOnDisk(g, d, cat, Sub(loc));
    var slots := SlotsOf(g, d, cat, Sub(loc));
    forall i | 0 <= i < |slots|
      ensures slots[i] == SlotIn(if i < 16 then DotSector(n, parent) else ZeroSector(), i % 16)
    {
      SectorSlots(d, lbas, i / 16, i % 16);
      assert Inside(g, n, lbas[i / 16]);
    }
    DirSlotKinds(n, parent);
    EmptyDirSlots(slots, n, parent);
  }

  lemma OneClusterLbas(g: Geometry, n: U16)
    requires g.IsCluster(n)
    ensures ChainLbas(g, [n]) == ClusterLbas(g, n)
  {
  }

  lemma DirSlotKinds(own: U16, parent: U16)
    ensures SlotIn(DotSector(own, parent), 0) == DotSlot(1, own)
    ensures SlotIn(DotSector(own, parent), 1) == DotSlot(2, parent)
    ensures forall k :: 2 <= k < 16 ==> IsEnd(SlotIn(DotSector(own, parent), k))
    ensures forall k :: 0 <= k < 16 ==> IsEnd(SlotIn(ZeroSector(), k))
  {
    hide DotSlot, DotSector;
  }

  lemma MkdirOnVolume(g: Geometry, d: Image, cat: Catalog, lost: set<U16>, dir: DirRef, name: seq<Byte>, loc: Loc,
                      n: U16, parent: U16, d2: Image)
    requires WellFormed(g, d, cat, lost + {n}) && FreeSlotAt(g, d, cat, dir, loc) && Find(g, d, cat, dir, name) == None
    requires Storable(name) && n !in lost && EmptyDirIn(g, d, n, parent) && Fat(g, d)[n] == EOC
    requires LocOnDisk(d, loc) && d2 == d[loc.lba := PutSlot(d[loc.lba], loc.idx, NewSlot(name, ATTR_DIRECTORY, n))]
    ensures EntryAdded(g, d, cat, d2, cat[loc := [n]], lost, dir, name, loc, true) && EmptyDirIn(g, d2, n, parent)
  {
    hide *;
    MkdirBase(g, d, cat, lost, dir, loc, n, parent, NewSlot(name, ATTR_DIRECTORY, n), d2);
    HeadOfOne(n);
    NewDirOk(g, d2, cat[loc := [n]], loc, n, parent);
    AddOnVolume(g, d, cat, lost + {n}, dir, name, loc, ATTR_DIRECTORY, n, d2, [n], lost);
  }

  lemma HeadOfOne(n: U16)
    ensures Head([n]) == n && ATTR_DIRECTORY == 16
  {
  }

  lemma MkdirBase(g: Geometry, d: Image, cat: Catalog, lost: set<U16>, dir: DirRef, loc: Loc, n: U16, parent: U16,
                  e: Slot, d2: Image)
    requires WellFormed(g, d, cat, lost + {n}) && FreeSlotAt(g, d, cat, dir, loc)
    requires n !in lost && EmptyDirIn(g, d, n, parent) && Fat(g, d)[n] == EOC
    requires LocOnDisk(d, loc) && d2 == d[loc.lba := PutSlot(d[loc.lba], loc.idx, e)]
    ensures Base(g, d2, cat[loc := [n]], lost) && EmptyDirIn(g, d2, n, parent)
    ensures g.Fits(d2) && CatClusters(g, cat[loc := [n]])
  {
    hide Partition, Fat, Mirrored, EntryOk, DirOk, WellFormed, SlotsOf, LbasOf, FirstFree, PutSlot;
    WellFormedBase(g, d, cat, lost + {n});
    SlotWriteFrame(g, d, cat, lost + {n}, dir, loc, d2[loc.lba]);
    AddedIsNew(g, d, cat, lost + {n}, dir, FirstFree(SlotsOf(g, d, cat, dir)));
    AdoptPartition(Fat(g, d), cat, lost + {n}, loc, n);
    assert lost + {n} - {n} == lost;
    SlotNotInLost(g, d, cat, lost + {n}, dir, loc, n);
    hide FreeSlotAt;
    BaseFromPartition(g, d2, cat[loc := [n]], lost);
  }

  lemma SlotNotInLost(g: Geometry, d: Image, cat: Catalog, lost: set<U16>, dir: DirRef, loc: Loc, n: U16)
    requires Base(g, d, cat, lost) && FreeSlotAt(g, d, cat, dir, loc) && n in lost
    ensures !Inside(g, n, loc.lba)
  {
    hide Mirrored, Fat, LbasOf, SlotsOf, IsChain;
    LocInLbas(LbasOf(g, cat, dir), FirstFree(SlotsOf(g, d, cat, dir)));
    var home := LbaHome(g, d, cat, lost, dir, loc.lba);
    assert Inside(g, n, loc.lba) ==> n == home by { if Inside(g, n, loc.lba) { InsideHome(g, home, loc.lba, n); } }
    assert !Owned(cat, n);
  }

  /** Names and file contents are the same. */
  ghost predicate Quiet(g: Geometry, d: Image, cat: Catalog, d2: Image, cat2: Catalog) {
    SameNames(g, d, cat, d2, cat2) && FilesKept(g, d, cat, d2, cat2, {})
  }

  lemma QuietTrans(g: Geometry, d: Image, cat: Catalog, d2: Image, cat2: Catalog, d3: Image, cat3: Catalog)
    requires Quiet(g, d, cat, d2, cat2) && Quiet(g, d2, cat2, d3, cat3)
    ensures Quiet(g, d, cat, d3, cat3)
  {
    hide SameNames, FilesKept;
    SameNamesTrans(g, d, cat, d2, cat2, d3, cat3);
    FilesKeptTrans(g, d, cat, d2, cat2, d3, cat3, {});
  }

  lemma QuietTree(g: Geometry, d: Image, d2: Image, cat: Catalog)
    requires SameTree(g, d, d2, cat) && FilesKept(g, d, cat, d2, cat, {})
    ensures Quiet(g, d, cat, d2, cat)
  {
    hide SameTree, FilesKept, SameNames;
    SameNamesFromTree(g, d, cat, d2);
  }

  /** An entry called name was added at loc in dir, and every file kept its content. */
  ghost predicate OneMore(g: Geometry, d: Image, cat: Catalog, d2: Image, cat2: Catalog, dir: DirRef, name: seq<Byte>,
                          loc: Loc, isDirectory: bool) {
    && loc !in cat && loc in cat2 && LocOnDisk(d2, loc) && IsDirectory(SlotAt(d2, loc)) == isDirectory
    && NameAdded(g, d, cat, d2, cat2, dir, name, loc, isDirectory) && FilesKept(g, d, cat, d2, cat2, {})
    && (isDirectory ==> NoNames(g, d2, cat2, Sub(loc)))
  }

  lemma NameAddedAfter(g: Geometry, d: Image, cat: Catalog, d1: Image, cat1: Catalog, d2: Image, cat2: Catalog,
                       dir: DirRef, name: seq<Byte>, loc: Loc, isDirectory: bool)
    requires SameNames(g, d, cat, d1, cat1) && NameAdded(g, d1, cat1, d2, cat2, dir, name, loc, isDirectory)
    ensures NameAdded(g, d, cat, d2, cat2, dir, name, loc, isDirectory)
  {
    hide Find, IsDir, CatClusters, Name83, Overtakes;
  }

  lemma OneMoreAfter(g: Geometry, d: Image, cat: Catalog, d1: Image, cat1: Catalog, d2: Image, cat2: Catalog,
                     lost2: set<U16>,
                     dir: DirRef, name: seq<Byte>, loc: Loc, isDirectory: bool)
    requires Quiet(g, d, cat, d1, cat1) && cat1.Keys == cat.Keys
    requires EntryAdded(g, d1, cat1, d2, cat2, lost2, dir, name, loc, isDirectory)
    ensures WellFormed(g, d2, cat2, lost2) && OneMore(g, d, cat, d2, cat2, dir, name, loc, isDirectory)
  {
    hide NameAdded, FilesKept, SameNames, WellFormed;
    NameAddedAfter(g, d, cat, d1, cat1, d2, cat2, dir, name, loc, isDirectory);
    FilesKeptTrans(g, d, cat, d1, cat1, d2, cat2, {});
  }

  /** Giving a claimed cluster back. */
  method ReleaseCluster(g: Geometry, disk: Disk, n: U16, ghost cat: Catalog, ghost lost: set<U16>)
    requires WellFormed(g, disk.sectors, cat, lost) && n in lost
    modifies disk
    ensures WellFormed(g, disk.sectors, cat, lost - {n}) && Quiet(g, old(disk.sectors), cat, disk.sectors, cat)
  {
    ghost var d0 := disk.sectors;
    ReleasePartition(Fat(g, d0), cat, lost, n);
    ReservedUpdate(Fat(g, d0), n, 0);
    SetClusterEntry(g, disk, n, 0);
    hide WellFormed, Partition, Fat, Quiet, OnlyFatChanged, ReservedKept;
    FatOnlyFrame(g, d0, cat, lost, disk.sectors, lost - {n});
    QuietTree(g, d0, disk.sectors, cat);
  }

  lemma EmptyDirKept(g: Geometry, d: Image, d2: Image, n: U16, parent: U16, lost: set<U16>)
    requires EmptyDirIn(g, d, n, parent) && LostKept(g, d, d2, lost) && n in lost && Fat(g, d)[n] == EOC
    ensures EmptyDirIn(g, d2, n, parent) && Fat(g, d2)[n] == EOC
  {
    hide Fat, DotSector, ZeroSector;
  }

  /** The name a path asks for can be stored. */
  ghost predicate StorablePath(g: Geometry, d: Image, cat: Catalog, path: seq<Byte>)
    requires g.Fits(d) && CatClusters(g, cat)
  {
    Resolve(g, d, cat, Root, path).Some? ==> Storable(Resolve(g, d, cat, Root, path).value.1)
  }

  /** No cluster is free, or the parent is full and cannot get a second one. */
  ghost predicate MkdirHasNoRoom(g: Geometry, d: Image, cat: Catalog, dir: DirRef)
    requires g.Fits(d)
  {
    || FreeSet(Fat(g, d)) == {}
    || (DirFull(g, d, cat, dir) && (dir.Root? || exists n :: FreeSet(Fat(g, d)) == {n}))
  }

  lemma RoomForDir(g: Geometry, d0: Image, d2: Image, cat: Catalog, dir: DirRef, n: U16)
    requires g.Fits(d0) && g.Fits(d2) && n in FreeSet(Fat(g, d0)) && Fat(g, d2) == Fat(g, d0)[n := EOC]
    requires DirFull(g, d2, cat, dir) <==> DirFull(g, d0, cat, dir)
    ensures MkdirHasNoRoom(g, d0, cat, dir) <==> DirFull(g, d2, cat, dir) && (dir.Root? || FreeSet(Fat(g, d2)) == {})
  {
    hide DirFull, Fat;
    var f0, f2 := FreeSet(Fat(g, d0)), FreeSet(Fat(g, d2));
    assert f2 == f0 - {n};
    if f2 == {} { assert f0 == {n as int}; }
  }

  lemma SameFullness(g: Geometry, d: Image, d2: Image, cat: Catalog, dir: DirRef)
    requires SameTree(g, d, d2, cat) && IsDir(d, cat, dir)
    ensures DirFull(g, d2, cat, dir) <==> DirFull(g, d, cat, dir)
  {
  }

  /** The part of fat_mkdir behind the lookup: a filled cluster and an entry that names it.
      It fails only when the disk or the parent directory is full, and then leaves names,
      files and free clusters as they were. */
  method MakeDirIn(g: Geometry, disk: Disk, isRoot: bool, first: U16, name: seq<Byte>, ghost cat: Catalog,
                   ghost lost: set<U16>, ghost dir: DirRef)
    returns (ok: bool, ghost cat2: Catalog, ghost loc: Loc)
    requires WellFormed(g, disk.sectors, cat, lost) && IsDir(disk.sectors, cat, dir) && Handle(cat, dir, isRoot, first)
    requires Find(g, disk.sectors, cat, dir, name) == None && Storable(name)
    modifies disk
    ensures WellFormed(g, disk.sectors, cat2, lost)
    ensures !ok <==> MkdirHasNoRoom(g, old(disk.sectors), cat, dir)
    ensures !ok ==> cat2 == cat && Quiet(g, old(disk.sectors), cat, disk.sectors, cat)
    ensures ok ==>
      OneMore(g, old(disk.sectors), cat, disk.sectors, cat2, dir, name, loc, true) && cat2.Keys == cat.Keys + {loc}
    ensures ok ==>
      loc in cat2 && |cat2[loc]| == 1 && EmptyDirIn(g, disk.sectors, cat2[loc][0], if isRoot then 0 else first)
  {
    ghost var d0 := disk.sectors;
    loc, cat2 := Loc(0, 0), cat;
    QuietItself(g, d0, cat, lost);
    MkdirFacts(g, d0, cat, dir, isRoot, first);
    hide *;
    var n := ClaimCluster(g, disk, cat, lost);
    if n == 0 {
      return false, cat, loc;
    }
    ghost var d1 := disk.sectors;
    InitDir(g, disk, n, if isRoot then 0 else first, cat, lost + {n});
    ghost var d2 := disk.sectors;
    ClaimedAndFilled(g, d0, d1, d2, cat, dir, name, n);
    var found, lba, idx;
    found, lba, idx, cat2 := AllocDirEntry(g, disk, isRoot, first, cat, lost + {n}, dir);
    if !found {
      ReleaseCluster(g, disk, n, cat, lost + {n});
      ReleasedAgain(lost, n);
      QuietTrans(g, d0, cat, d2, cat, disk.sectors, cat);
      return false, cat, loc;
    }
    loc := Loc(lba, idx);
    ghost var d3 := disk.sectors;
    KeysWith(cat, cat2, dir, loc, n);
    RoomFound(g, d0, d2, d3, cat, cat2, lost, dir, name, n, if isRoot then 0 else first, loc);
    var sectorBuf := disk.sectors[lba];
    disk.sectors := disk.sectors[lba := PutSlot(sectorBuf, idx, NewSlot(name, ATTR_DIRECTORY, n))];
    MkdirOnVolume(g, d3, cat2, lost, dir, name, loc, n, if isRoot then 0 else first, disk.sectors);
    OneMoreAfter(g, d0, cat, d3, cat2, disk.sectors, cat2[loc := [n]], lost, dir, name, loc, true);
    return true, cat2[loc := [n]], loc;
  }

  lemma KeysWith(cat: Catalog, cat2: Catalog, dir: DirRef, loc: Loc, n: U16)
    requires OnlyDirChain(cat, cat2, dir)
    ensures cat2[loc := [n]].Keys == cat.Keys + {loc}
  {
  }

  lemma MkdirFacts(g: Geometry, d: Image, cat: Catalog, dir: DirRef, isRoot: bool, first: U16)
    requires g.Fits(d) && Handle(cat, dir, isRoot, first)
    ensures FreeSet(Fat(g, d)) == {} ==> MkdirHasNoRoom(g, d, cat, dir)
    ensures isRoot == dir.Root?
  {
  }

  lemma QuietItself(g: Geometry, d: Image, cat: Catalog, lost: set<U16>)
    requires WellFormed(g, d, cat, lost)
    ensures Quiet(g, d, cat, d, cat)
  {
    KeptItself(g, d, cat, lost, Root);
  }

  lemma ReleasedAgain(lost: set<U16>, n: U16)
    requires n !in lost
    ensures lost + {n} - {n} == lost
  {
  }

  lemma ClaimedAndFilled(g: Geometry, d0: Image, d1: Image, d2: Image, cat: Catalog, dir: DirRef, name: seq<Byte>,
                         n: U16)
    requires SameTree(g, d0, d1, cat) && FilesKept(g, d0, cat, d1, cat, {})
    requires SameTree(g, d1, d2, cat) && FilesKept(g, d1, cat, d2, cat, {})
    requires IsDir(d0, cat, dir) && Find(g, d0, cat, dir, name) == None
    requires n in FreeSet(Fat(g, d0)) && Fat(g, d1) == Fat(g, d0)[n := EOC] && Fat(g, d2) == Fat(g, d1)
    ensures Quiet(g, d0, cat, d2, cat) && IsDir(d2, cat, dir) && Find(g, d2, cat, dir, name) == None
    ensures MkdirHasNoRoom(g, d0, cat, dir) <==> DirFull(g, d2, cat, dir) && (dir.Root? || FreeSet(Fat(g, d2)) == {})
    ensures Fat(g, d2)[n] == EOC
  {
    SameFullness(g, d0, d1, cat, dir);
    SameTreeSlots(g, d0, d1, cat, dir);
    SameFullness(g, d1, d2, cat, dir);
    RoomForDir(g, d0, d2, cat, dir, n);
    hide MkdirHasNoRoom, DirFull, Fat, FreeSet;
    hide SameTree, FilesKept, Find, IsDir, CatClusters;
    QuietTree(g, d0, d1, cat);
    QuietTree(g, d1, d2, cat);
    QuietTrans(g, d0, cat, d1, cat, d2, cat);
  }

  lemma RoomFound(g: Geometry, d0: Image, d2: Image, d3: Image, cat: Catalog, cat2: Catalog, lost: set<U16>,
                  dir: DirRef, name: seq<Byte>,
                  n: U16, parent: U16, loc: Loc)
    requires Quiet(g, d0, cat, d2, cat) && IsDir(d2, cat, dir) && Find(g, d2, cat, dir, name) == None
    requires SameNames(g, d2, cat, d3, cat2) && FilesKept(g, d2, cat, d3, cat2, {}) && OnlyDirChain(cat, cat2, dir)
    requires WellFormed(g, d3, cat2, lost + {n}) && FreeSlotAt(g, d3, cat2, dir, loc)
    requires EmptyDirIn(g, d2, n, parent) && LostKept(g, d2, d3, lost + {n}) && Fat(g, d2)[n] == EOC
    ensures Quiet(g, d0, cat, d3, cat2) && Find(g, d3, cat2, dir, name) == None && cat2.Keys == cat.Keys
    ensures EmptyDirIn(g, d3, n, parent) && Fat(g, d3)[n] == EOC && LocOnDisk(d3, loc)
    ensures loc.lba < |d3| && loc.idx < 16
  {
    WellFormedBase(g, d3, cat2, lost + {n});
    SlotOnDisk(g, d3, cat2, lost + {n}, dir, loc);
    EmptyDirKept(g, d2, d3, n, parent, lost + {n});
    hide Base, FilesKept, Find, IsDir, CatClusters, LostKept, WellFormed, EmptyDirIn, FreeSlotAt, Fat;
    QuietTrans(g, d0, cat, d2, cat, d3, cat2);
  }
}
