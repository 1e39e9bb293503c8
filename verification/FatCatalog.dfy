/**
  The whole volume: a catalog that gives every directory entry its cluster chain, the
  well-formedness of a volume with that catalog, and the four ways the driver changes it:
  updating a file's links, adding an entry, growing a directory, and claiming or giving
  back a cluster.
*/
module FatCatalog {
  import opened Common
  import opened FatDisk
  import opened FatChains
  import opened FatRead
  import opened FatWrite
  import opened FatDirs

  type Catalog = map<Loc, seq<U16>>

  /** The root directory, or the directory whose entry is at loc. */
  datatype DirRef = Root | Sub(loc: Loc)

  predicate LocOnDisk(d: Image, loc: Loc) {
    loc.lba < |d| && loc.idx < 16
  }

  function SlotAt(d: Image, loc: Loc): (e: Slot)
    requires LocOnDisk(d, loc)
  {
    SlotIn(d[loc.lba], loc.idx)
  }

  ghost predicate IsDir(d: Image, cat: Catalog, dir: DirRef) {
    dir.Root? || (dir.loc in cat && LocOnDisk(d, dir.loc) && IsDirectory(SlotAt(d, dir.loc)))
  }

  ghost predicate CatClusters(g: Geometry, cat: Catalog) {
    forall loc :: loc in cat ==> AllClusters(g, cat[loc])
  }

  ghost function ChainOf(cat: Catalog, dir: DirRef): (ch: seq<U16>) {
    if dir.Sub? && dir.loc in cat then cat[dir.loc] else []
  }

  ghost function LbasOf(g: Geometry, cat: Catalog, dir: DirRef): (lbas: seq<nat>)
    requires CatClusters(g, cat)
  {
    DirLbas(g, dir.Root?, ChainOf(cat, dir))
  }

  ghost predicate Base(g: Geometry, d: Image, cat: Catalog, lost: set<U16>) {
    g.Fits(d) && Mirrored(g, d) && Partition(Fat(g, d), cat, lost) && CatClusters(g, cat)
  }

  lemma BaseFromPartition(g: Geometry, d: Image, cat: Catalog, lost: set<U16>)
    requires g.Fits(d) && Mirrored(g, d) && Partition(Fat(g, d), cat, lost)
    ensures Base(g, d, cat, lost)
  {
    forall loc | loc in cat ensures AllClusters(g, cat[loc]) {
      assert IsChain(Fat(g, d), cat[loc]);
    }
  }

  lemma LbasOnDisk(g: Geometry, d: Image, cat: Catalog, dir: DirRef)
    requires g.Fits(d) && CatClusters(g, cat)
    ensures OnDisk(d, LbasOf(g, cat, dir))
    ensures forall l :: l in LbasOf(g, cat, dir) ==> g.rootStart <= l < |d|
  {
    DirLbasOnDisk(g, d, dir.Root?, ChainOf(cat, dir));
  }

  ghost function SlotsOf(g: Geometry, d: Image, cat: Catalog, dir: DirRef): (slots: seq<Slot>)
    requires g.Fits(d) && CatClusters(g, cat)
    ensures |slots| == 16 * |LbasOf(g, cat, dir)|
  {
    LbasOnDisk(g, d, cat, dir);
    Slots(d, LbasOf(g, cat, dir))
  }

  /** An entry of the catalog: a short entry that is no dot entry, carries the head of its
      chain and stands in some directory; a directory has at least one cluster. */
  ghost predicate EntryOk(g: Geometry, d: Image, cat: Catalog, loc: Loc)
    requires CatClusters(g, cat) && loc in cat
  {
    && LocOnDisk(d, loc) && IsShort(SlotAt(d, loc)) && SlotAt(d, loc)[0] != DOT
    && EntryFirst(d[loc.lba], loc.idx) == Head(cat[loc])
    && (IsDirectory(SlotAt(d, loc)) ==> cat[loc] != [])
    && exists dir :: IsDir(d, cat, dir) && loc.lba in LbasOf(g, cat, dir)
  }

  /** A dot entry, which no lookup can find. */
  predicate IsDotEntry(slots: seq<Slot>, i: int)
    requires 0 <= i < |slots|
  {
    slots[i][0] == DOT && (i == 0 || !IsLong(slots[i - 1]))
  }

  /** A directory: tidy, with unique 8.3 names, and every short entry is in the catalog
      unless it is a dot entry. */
  ghost predicate DirOk(g: Geometry, d: Image, cat: Catalog, dir: DirRef)
    requires g.Fits(d) && CatClusters(g, cat)
  {
    var slots := SlotsOf(g, d, cat, dir);
    && Tidy(slots) && UniqueNames(slots)
    && forall i :: 0 <= i < |slots| && IsShort(slots[i]) ==>
         SlotLoc(LbasOf(g, cat, dir), i) in cat || IsDotEntry(slots, i)
  }

  /** A well-formed volume.  Clusters that are in use but belong to no entry are in lost. */
  ghost predicate WellFormed(g: Geometry, d: Image, cat: Catalog, lost: set<U16>) {
    && Base(g, d, cat, lost)
    && (forall loc :: loc in cat ==> EntryOk(g, d, cat, loc))
    && (forall dir :: IsDir(d, cat, dir) ==> DirOk(g, d, cat, dir))
  }

  /** Every file has just the clusters its size needs. */
  ghost predicate FilesTight(g: Geometry, d: Image, cat: Catalog) {
    forall loc :: loc in cat && LocOnDisk(d, loc) && !IsDirectory(SlotAt(d, loc)) ==>
      Tight(g, cat[loc], EntrySize(d[loc.lba], loc.idx))
  }

  // -------------------------------------------------------------- where directories live

  /** A directory sector is a root sector or lies in a cluster of the directory's chain. */
  lemma LbaHome(g: Geometry, d: Image, cat: Catalog, lost: set<U16>, dir: DirRef, l: nat) returns (home: int)
    requires Base(g, d, cat, lost) && l in LbasOf(g, cat, dir)
    ensures HomeOf(g, home, l) && g.rootStart <= l < |d|
    ensures home == 0 <==> dir.Root?
    ensures dir.Sub? ==> dir.loc in cat && home in cat[dir.loc] && Used(Fat(g, d), home)
  {
    LbasOnDisk(g, d, cat, dir);
    if dir.Root? {
      home := 0;
    } else {
      ChainLbasIn(g, ChainOf(cat, dir), l);
      var i :| 0 <= i < |ChainOf(cat, dir)| && Inside(g, ChainOf(cat, dir)[i], l);
      home := ChainOf(cat, dir)[i];
      assert Owned(cat, home);
    }
  }

  /** Different directories share no sector. */
  lemma DirsApart(g: Geometry, d: Image, cat: Catalog, lost: set<U16>, dir: DirRef, dir2: DirRef, l: nat)
    requires Base(g, d, cat, lost) && l in LbasOf(g, cat, dir) && l in LbasOf(g, cat, dir2)
    ensures dir == dir2
  {
    var h1 := LbaHome(g, d, cat, lost, dir, l);
    var h2 := LbaHome(g, d, cat, lost, dir2, l);
    if h1 != 0 && h2 != 0 {
      InsideOnlyOne(g, h1, h2, l);
    } else if h1 != h2 {
      HomeApart(g, if h1 == 0 then h1 else h2, l, if h1 == 0 then h2 else h1, l);
    }
  }

  lemma LbasDistinct(g: Geometry, d: Image, cat: Catalog, lost: set<U16>, dir: DirRef, i: nat, j: nat)
    requires Base(g, d, cat, lost) && i < |LbasOf(g, cat, dir)| && j < |LbasOf(g, cat, dir)|
    requires LbasOf(g, cat, dir)[i] == LbasOf(g, cat, dir)[j]
    ensures i == j
  {
    if dir.Sub? && i != j {
      assert dir.loc in cat;
      assert IsChain(Fat(g, d), cat[dir.loc]);
      ChainLbasDistinct(g, cat[dir.loc], if i < j then i else j, if i < j then j else i);
    }
  }

  // ------------------------------------------------------------------- updating a file

  /** d2 is d with other link fields in slot loc, as far as directory sectors go. */
  ghost predicate DirSectorsKept(g: Geometry, d: Image, d2: Image, cat: Catalog, loc: Loc)
    requires CatClusters(g, cat)
  {
    && |d2| == |d| && LocOnDisk(d, loc) && OnlyLinksChanged(d[loc.lba], d2[loc.lba], loc.idx)
    && forall dir, l :: IsDir(d, cat, dir) && l in LbasOf(g, cat, dir) && l != loc.lba && l < |d| ==> d2[l] == d[l]
  }

  /** Slots of kept directory sectors keep everything but the links of loc. */
  lemma SlotKept(g: Geometry, d: Image, d2: Image, cat: Catalog, loc: Loc, dir: DirRef, at: Loc)
    requires g.Fits(d) && CatClusters(g, cat) && DirSectorsKept(g, d, d2, cat, loc)
    requires IsDir(d, cat, dir) && at.lba in LbasOf(g, cat, dir) && at.idx < 16
    ensures LocOnDisk(d, at) && LocOnDisk(d2, at)
    ensures SameButLinks(SlotAt(d, at), SlotAt(d2, at)) && (at != loc ==> SlotAt(d2, at) == SlotAt(d, at))
    ensures at != loc ==>
      && EntryFirst(d2[at.lba], at.idx) == EntryFirst(d[at.lba], at.idx)
      && EntrySize(d2[at.lba], at.idx) == EntrySize(d[at.lba], at.idx)
  {
    hide LbasOf, OnlyLinksChanged, SlotIn, EntryFirst, EntrySize;
    LbasOnDisk(g, d, cat, dir);
    if at.lba == loc.lba {
      LinksOfSlot(d[at.lba], d2[at.lba], loc.idx, at.idx);
    } else {
      LinksOfSlot(d[at.lba], d[at.lba], loc.idx, at.idx);
    }
  }

  lemma LinksOfSlot(s: Sector, s2: Sector, idx: nat, k: nat)
    requires idx < 16 && k < 16 && (s2 == s || OnlyLinksChanged(s, s2, idx))
    ensures SameButLinks(SlotIn(s, k), SlotIn(s2, k))
    ensures k != idx ==>
      SlotIn(s2, k) == SlotIn(s, k) && EntryFirst(s2, k) == EntryFirst(s, k) && EntrySize(s2, k) == EntrySize(s, k)
  {
    assert forall b :: 0 <= b < 32 ==> SlotIn(s, k)[b] == s[32 * k + b] && SlotIn(s2, k)[b] == s2[32 * k + b];
  }

  lemma SlotsKept(g: Geometry, d: Image, d2: Image, cat: Catalog, cat2: Catalog, loc: Loc, dir: DirRef)
    requires g.Fits(d) && g.Fits(d2) && CatClusters(g, cat) && CatClusters(g, cat2)
    requires DirSectorsKept(g, d, d2, cat, loc) && IsDir(d, cat, dir) && ChainOf(cat2, dir) == ChainOf(cat, dir)
    requires IsShort(SlotAt(d, loc))
    ensures LbasOf(g, cat2, dir) == LbasOf(g, cat, dir)
    ensures Similar(SlotsOf(g, d, cat, dir), SlotsOf(g, d2, cat2, dir))
  {
    var lbas := LbasOf(g, cat, dir);
    var s, s2 := SlotsOf(g, d, cat, dir), SlotsOf(g, d2, cat2, dir);
    forall i | 0 <= i < |s| ensures SameButLinks(s[i], s2[i]) && (s2[i] == s[i] || IsShort(s[i])) {
      var at := Loc(lbas[i / 16], i % 16);
      assert at.lba in lbas;
      SlotKept(g, d, d2, cat, loc, dir, at);
    }
  }

  /** The same directories before and after, with similar slots. */
  ghost predicate SameDirectories(g: Geometry, d: Image, cat: Catalog, d2: Image, cat2: Catalog) {
    && g.Fits(d) && g.Fits(d2) && CatClusters(g, cat) && CatClusters(g, cat2)
    && (forall dir :: IsDir(d2, cat2, dir) <==> IsDir(d, cat, dir))
    && (forall dir :: IsDir(d, cat, dir) ==>
          LbasOf(g, cat2, dir) == LbasOf(g, cat, dir) && Similar(SlotsOf(g, d, cat, dir), SlotsOf(g, d2, cat2, dir)))
  }

  lemma UpdateDirectories(g: Geometry, d: Image, cat: Catalog, lost: set<U16>, d2: Image, ch2: seq<U16>,
                          lost2: set<U16>, loc: Loc)
    requires WellFormed(g, d, cat, lost) && loc in cat && !IsDirectory(SlotAt(d, loc))
    requires Base(g, d2, cat[loc := ch2], lost2) && DirSectorsKept(g, d, d2, cat, loc)
    ensures SameDirectories(g, d, cat, d2, cat[loc := ch2])
  {
    hide Partition, Mirrored, Fat, DirOk, DirSectorsKept, Similar, IsShort, Slots, LbasOf;
    assert EntryOk(g, d, cat, loc);
    forall dir ensures IsDir(d2, cat[loc := ch2], dir) <==> IsDir(d, cat, dir) {
      if dir.Sub? && dir.loc in cat {
        assert EntryOk(g, d, cat, dir.loc);
        KeptIsDir(g, d, cat, d2, ch2, loc, dir);
      }
    }
    forall dir | IsDir(d, cat, dir)
      ensures LbasOf(g, cat[loc := ch2], dir) == LbasOf(g, cat, dir)
      ensures Similar(SlotsOf(g, d, cat, dir), SlotsOf(g, d2, cat[loc := ch2], dir))
    {
      SlotsKept(g, d, d2, cat, cat[loc := ch2], loc, dir);
    }
  }

  lemma KeptIsDir(g: Geometry, d: Image, cat: Catalog, d2: Image, ch2: seq<U16>, loc: Loc, dir: DirRef)
    requires g.Fits(d) && CatClusters(g, cat) && DirSectorsKept(g, d, d2, cat, loc)
    requires dir.Sub? && dir.loc in cat && EntryOk(g, d, cat, dir.loc)
    ensures IsDir(d2, cat[loc := ch2], dir) <==> IsDir(d, cat, dir)
  {
    var home :| IsDir(d, cat, home) && dir.loc.lba in LbasOf(g, cat, home);
    SlotKept(g, d, d2, cat, loc, home, dir.loc);
    SameName(SlotAt(d, dir.loc), SlotAt(d2, dir.loc));
  }

  lemma SameDirOk(g: Geometry, d: Image, cat: Catalog, d2: Image, cat2: Catalog, dir: DirRef)
    requires SameDirectories(g, d, cat, d2, cat2) && IsDir(d, cat, dir) && DirOk(g, d, cat, dir)
    requires forall l :: l in cat ==> l in cat2
    ensures DirOk(g, d2, cat2, dir)
  {
    var s, s2 := SlotsOf(g, d, cat, dir), SlotsOf(g, d2, cat2, dir);
    SimilarDirectory(s, s2);
    forall i | 0 <= i < |s2| && IsShort(s2[i]) ensures SlotLoc(LbasOf(g, cat2, dir), i) in cat2 || IsDotEntry(s2, i) {
      SameName(s[i], s2[i]);
      if i > 0 { SameName(s[i - 1], s2[i - 1]); }
    }
  }

  lemma EntryFacts(g: Geometry, d: Image, cat: Catalog, lost: set<U16>, at: Loc)
    requires WellFormed(g, d, cat, lost) && at in cat
    ensures LocOnDisk(d, at) && EntryOk(g, d, cat, at) && IsShort(SlotAt(d, at))
  {
  }

  lemma EntryKept(g: Geometry, d: Image, cat: Catalog, d2: Image, ch2: seq<U16>, loc: Loc, at: Loc)
    requires CatClusters(g, cat) && at in cat && EntryOk(g, d, cat, at) && loc in cat && LocOnDisk(d, loc)
    requires !IsDirectory(SlotAt(d, loc))
    requires SameDirectories(g, d, cat, d2, cat[loc := ch2]) && DirSectorsKept(g, d, d2, cat, loc)
    requires SlotFirst(g, d2, loc, ch2)
    ensures LocOnDisk(d2, at) && EntryOk(g, d2, cat[loc := ch2], at) && (at != loc ==> SlotAt(d2, at) == SlotAt(d, at))
  {
    hide DirSectorsKept, Similar;
    var home :| IsDir(d, cat, home) && at.lba in LbasOf(g, cat, home);
    SlotKept(g, d, d2, cat, loc, home, at);
    SameName(SlotAt(d, at), SlotAt(d2, at));
    assert IsDir(d2, cat[loc := ch2], home) && at.lba in LbasOf(g, cat[loc := ch2], home);
  }

  lemma EntriesKept(g: Geometry, d: Image, cat: Catalog, lost: set<U16>, d2: Image, ch2: seq<U16>, loc: Loc)
    requires WellFormed(g, d, cat, lost) && loc in cat && !IsDirectory(SlotAt(d, loc))
    requires SameDirectories(g, d, cat, d2, cat[loc := ch2]) && DirSectorsKept(g, d, d2, cat, loc)
    requires SlotFirst(g, d2, loc, ch2)
    ensures forall at :: at in cat ==>
      LocOnDisk(d, at) && LocOnDisk(d2, at) && (at != loc ==> SlotAt(d2, at) == SlotAt(d, at))
    ensures forall at :: at in cat ==> EntryOk(g, d2, cat[loc := ch2], at)
  {
    EntryFacts(g, d, cat, lost, loc);
    hide Partition, Mirrored, Fat, DirOk, DirSectorsKept, EntryOk, Similar;
    forall at | at in cat
      ensures LocOnDisk(d, at) && LocOnDisk(d2, at) && EntryOk(g, d2, cat[loc := ch2], at)
      ensures at != loc ==> SlotAt(d2, at) == SlotAt(d, at)
    {
      EntryFacts(g, d, cat, lost, at);
      EntryKept(g, d, cat, d2, ch2, loc, at);
    }
  }

  lemma SameDirsOk(g: Geometry, d: Image, cat: Catalog, d2: Image, cat2: Catalog)
    requires SameDirectories(g, d, cat, d2, cat2)
    requires forall dir :: IsDir(d, cat, dir) ==> DirOk(g, d, cat, dir)
    requires forall l :: l in cat ==> l in cat2
    ensures forall dir :: IsDir(d2, cat2, dir) ==> DirOk(g, d2, cat2, dir)
  {
    hide DirOk;
    forall dir | IsDir(d2, cat2, dir) ensures DirOk(g, d2, cat2, dir) {
      SameDirOk(g, d, cat, d2, cat2, dir);
    }
  }

  /** Giving a file another chain, with its directory slot updated to match, keeps the volume
      well formed and every lookup the same. */
  lemma UpdateFile(g: Geometry, d: Image, cat: Catalog, lost: set<U16>, d2: Image, ch2: seq<U16>, lost2: set<U16>,
                   loc: Loc)
    requires WellFormed(g, d, cat, lost) && loc in cat && !IsDirectory(SlotAt(d, loc))
    requires Base(g, d2, cat[loc := ch2], lost2) && DirSectorsKept(g, d, d2, cat, loc) && SlotFirst(g, d2, loc, ch2)
    ensures WellFormed(g, d2, cat[loc := ch2], lost2) && SameDirectories(g, d, cat, d2, cat[loc := ch2])
    ensures forall at :: at in cat ==>
      LocOnDisk(d, at) && LocOnDisk(d2, at) && (at != loc ==> SlotAt(d2, at) == SlotAt(d, at))
  {
    hide Partition, Mirrored, Fat, DirOk, SameDirectories, DirSectorsKept, EntryOk, IsDir;
    UpdateDirectories(g, d, cat, lost, d2, ch2, lost2, loc);
    EntriesKept(g, d, cat, lost, d2, ch2, loc);
    SameDirsOk(g, d, cat, d2, cat[loc := ch2]);
  }

  // ------------------------------------------------- changes that miss every directory

  /** No directory sector changed. */
  ghost predicate DirSectorsSame(g: Geometry, d: Image, d2: Image, cat: Catalog)
    requires CatClusters(g, cat)
  {
    |d2| == |d| && forall dir, l :: IsDir(d, cat, dir) && l in LbasOf(g, cat, dir) && l < |d| ==> d2[l] == d[l]
  }

  /** The same directories with the same slots, and the same entries. */
  ghost predicate SameTree(g: Geometry, d: Image, d2: Image, cat: Catalog) {
    && g.Fits(d) && g.Fits(d2) && CatClusters(g, cat)
    && (forall dir :: IsDir(d2, cat, dir) <==> IsDir(d, cat, dir))
    && (forall dir :: IsDir(d, cat, dir) ==> SlotsOf(g, d2, cat, dir) == SlotsOf(g, d, cat, dir))
    && (forall at :: at in cat ==> LocOnDisk(d, at) && LocOnDisk(d2, at) && d2[at.lba] == d[at.lba])
  }

  lemma UntouchedTree(g: Geometry, d: Image, cat: Catalog, lost: set<U16>, d2: Image)
    requires WellFormed(g, d, cat, lost) && g.Fits(d2) && DirSectorsSame(g, d, d2, cat)
    ensures SameTree(g, d, d2, cat)
  {
    hide Partition, Mirrored, Fat, DirOk, IsShort, Slots, LbasOf;
    forall at | at in cat ensures LocOnDisk(d, at) && LocOnDisk(d2, at) && d2[at.lba] == d[at.lba] {
      assert EntryOk(g, d, cat, at);
    }
    forall dir | IsDir(d, cat, dir) ensures SlotsOf(g, d2, cat, dir) == SlotsOf(g, d, cat, dir) {
      var lbas := LbasOf(g, cat, dir);
      LbasOnDisk(g, d, cat, dir);
      LbasOnDisk(g, d2, cat, dir);
      forall i | 0 <= i < |lbas| ensures d2[lbas[i]] == d[lbas[i]] { assert lbas[i] in lbas; }
      SlotsSame(d, d2, lbas);
    }
  }

  /** A change that misses every directory sector keeps the volume well formed. */
  lemma UntouchedDirectories(g: Geometry, d: Image, cat: Catalog, lost: set<U16>, d2: Image, lost2: set<U16>)
    requires WellFormed(g, d, cat, lost) && Base(g, d2, cat, lost2) && DirSectorsSame(g, d, d2, cat)
    ensures WellFormed(g, d2, cat, lost2) && SameTree(g, d, d2, cat)
  {
    hide Partition, Mirrored, Fat, IsShort, Tidy, UniqueNames;
    UntouchedTree(g, d, cat, lost, d2);
    forall at | at in cat ensures EntryOk(g, d2, cat, at) {
      assert EntryOk(g, d, cat, at);
      var home :| IsDir(d, cat, home) && at.lba in LbasOf(g, cat, home);
      assert IsDir(d2, cat, home);
    }
  }

  lemma FatOnlyMissesDirs(g: Geometry, d: Image, cat: Catalog, lost: set<U16>, d2: Image)
    requires Base(g, d, cat, lost) && OnlyFatChanged(g, d, d2)
    ensures DirSectorsSame(g, d, d2, cat)
  {
    forall dir, l | IsDir(d, cat, dir) && l in LbasOf(g, cat, dir) && l < |d| ensures d2[l] == d[l] {
      LbasOnDisk(g, d, cat, dir);
    }
  }

  // ---------------------------------------------------------------------- adding an entry

  /** Writing slot p of a directory changes that slot of that directory and no other. */
  lemma PutInDirectory(g: Geometry, d: Image, cat: Catalog, lost: set<U16>, dir: DirRef, p: nat, e: Slot, d2: Image,
                       other: DirRef)
    requires Base(g, d, cat, lost) && p < |SlotsOf(g, d, cat, dir)|
    requires var loc := SlotLoc(LbasOf(g, cat, dir), p);
             LocOnDisk(d, loc) && d2 == d[loc.lba := PutSlot(d[loc.lba], loc.idx, e)]
    ensures g.Fits(d2)
    ensures SlotsOf(g, d2, cat, other) == if other == dir then SlotsOf(g, d, cat, dir)[p := e]
      else SlotsOf(g, d, cat, other)
  {
    hide Partition, Mirrored, Fat, LbasOf;
    var loc, lbas := SlotLoc(LbasOf(g, cat, dir), p), LbasOf(g, cat, other);
    LbasOnDisk(g, d, cat, other);
    forall i | 0 <= i < |lbas| && lbas[i] == loc.lba ensures other == dir && i == p / 16 {
      assert lbas[i] in lbas && loc.lba in LbasOf(g, cat, dir);
      DirsApart(g, d, cat, lost, other, dir, loc.lba);
      LbasDistinct(g, d, cat, lost, dir, i, p / 16);
    }
    if other != dir {
      SlotsSame(d, d2, lbas);
    } else {
      PutInSlots(d, lbas, p, e);
    }
  }

  lemma PutInSlots(d: Image, lbas: seq<nat>, p: nat, e: Slot)
    requires OnDisk(d, lbas) && p < 16 * |lbas|
    requires forall i :: 0 <= i < |lbas| && lbas[i] == lbas[p / 16] ==> i == p / 16
    ensures var lba := lbas[p / 16];
            var d2 := d[lba := PutSlot(d[lba], p % 16, e)];
            OnDisk(d2, lbas) && Slots(d2, lbas) == Slots(d, lbas)[p := e]
  {
    var lba := lbas[p / 16];
    var d2 := d[lba := PutSlot(d[lba], p % 16, e)];
    forall i | 0 <= i < 16 * |lbas| ensures Slots(d2, lbas)[i] == Slots(d, lbas)[p := e][i] {
      if lbas[i / 16] == lba && i != p { assert i % 16 != p % 16; }
    }
  }

  /** What a new entry needs: a free slot in a directory that has no such name yet. */
  ghost predicate Addable(g: Geometry, d: Image, cat: Catalog, lost: set<U16>, dir: DirRef, name: seq<Byte>, p: nat,
                          e: Slot) {
    && WellFormed(g, d, cat, lost) && IsDir(d, cat, dir)
    && p == FirstFree(SlotsOf(g, d, cat, dir)) < |SlotsOf(g, d, cat, dir)|
    && Lookup(SlotsOf(g, d, cat, dir), name) == -1
    && IsShort(e) && ShortName(e) == Name83(name)
  }

  /** The volume after the entry has been written; ch2 is its chain. */
  ghost predicate Added(g: Geometry, d: Image, cat: Catalog, dir: DirRef, p: nat, e: Slot, d2: Image, ch2: seq<U16>,
                        lost2: set<U16>) {
    && g.Fits(d) && CatClusters(g, cat) && p < |SlotsOf(g, d, cat, dir)|
    && var loc := SlotLoc(LbasOf(g, cat, dir), p);
       && LocOnDisk(d, loc) && d2 == d[loc.lba := PutSlot(d[loc.lba], loc.idx, e)]
       && Base(g, d2, cat[loc := ch2], lost2) && SlotFirst(g, d2, loc, ch2)
       && (IsDirectory(e) ==> ch2 != [] && DirOk(g, d2, cat[loc := ch2], Sub(loc)))
  }

  lemma AddedIsNew(g: Geometry, d: Image, cat: Catalog, lost: set<U16>, dir: DirRef, p: nat)
    requires WellFormed(g, d, cat, lost) && p < |SlotsOf(g, d, cat, dir)| && IsFree(SlotsOf(g, d, cat, dir)[p])
    ensures SlotLoc(LbasOf(g, cat, dir), p) !in cat
  {
    var loc := SlotLoc(LbasOf(g, cat, dir), p);
    LbasOnDisk(g, d, cat, dir);
    SectorSlots(d, LbasOf(g, cat, dir), p / 16, p % 16);
    assert forall at :: at in cat ==> IsShort(SlotAt(d, at)) by {
      forall at | at in cat ensures LocOnDisk(d, at) && IsShort(SlotAt(d, at)) { EntryFacts(g, d, cat, lost, at); }
    }
  }

  lemma AddedEntryKept(g: Geometry, d: Image, cat: Catalog, lost: set<U16>, dir: DirRef, name: seq<Byte>, p: nat,
                       e: Slot,
                       d2: Image, ch2: seq<U16>, lost2: set<U16>, at: Loc)
    requires Addable(g, d, cat, lost, dir, name, p, e) && Added(g, d, cat, dir, p, e, d2, ch2, lost2) && at in cat
    ensures at != SlotLoc(LbasOf(g, cat, dir), p) && LocOnDisk(d, at) && LocOnDisk(d2, at)
    ensures SlotAt(d2, at) == SlotAt(d, at)
    ensures EntryFirst(d2[at.lba], at.idx) == EntryFirst(d[at.lba], at.idx)
    ensures EntrySize(d2[at.lba], at.idx) == EntrySize(d[at.lba], at.idx)
  {
    hide WellFormed, EntryOk, DirOk, Partition, Mirrored, Fat, LbasOf, SlotsOf, SlotLoc, IsShort, Lookup, FirstFree,
         PutSlot, SlotIn;
    FirstFreeIsFree(g, d, cat, lost, dir, name, p, e);
    AddedIsNew(g, d, cat, lost, dir, p);
    EntryFacts(g, d, cat, lost, at);
    PutElsewhere(d, SlotLoc(LbasOf(g, cat, dir), p), e, at);
    LinksInSlot(d[at.lba], d2[at.lba], at.idx);
  }

  lemma FirstFreeIsFree(g: Geometry, d: Image, cat: Catalog, lost: set<U16>, dir: DirRef, name: seq<Byte>, p: nat,
                        e: Slot)
    requires Addable(g, d, cat, lost, dir, name, p, e)
    ensures p < |SlotsOf(g, d, cat, dir)| && IsFree(SlotsOf(g, d, cat, dir)[p])
  {
    hide WellFormed, SlotsOf, Lookup, IsShort, Name83;
  }

  /** Writing one entry leaves every other entry alone. */
  lemma PutElsewhere(d: Image, loc: Loc, e: Slot, at: Loc)
    requires LocOnDisk(d, loc) && LocOnDisk(d, at) && at != loc
    ensures SlotAt(d[loc.lba := PutSlot(d[loc.lba], loc.idx, e)], at) == SlotAt(d, at)
  {
    if at.lba == loc.lba {
      var s := d[loc.lba];
      assert forall b :: 0 <= b < 32 ==> SlotIn(PutSlot(s, loc.idx, e), at.idx)[b] == SlotIn(s, at.idx)[b];
    }
  }

  lemma LinksInSlot(s: Sector, s2: Sector, idx: nat)
    requires idx < 16 && SlotIn(s2, idx) == SlotIn(s, idx)
    ensures EntryFirst(s2, idx) == EntryFirst(s, idx) && EntrySize(s2, idx) == EntrySize(s, idx)
  {
    assert forall b :: 0 <= b < 32 ==> SlotIn(s, idx)[b] == s[32 * idx + b] && SlotIn(s2, idx)[b] == s2[32 * idx + b];
  }

  /** The directories after adding an entry: the old ones, plus the new one if it is a directory. */
  lemma AddedDirs(g: Geometry, d: Image, cat: Catalog, lost: set<U16>, dir: DirRef, name: seq<Byte>, p: nat, e: Slot,
                  d2: Image, ch2: seq<U16>, lost2: set<U16>, x: DirRef)
    requires Addable(g, d, cat, lost, dir, name, p, e) && Added(g, d, cat, dir, p, e, d2, ch2, lost2)
    ensures var loc := SlotLoc(LbasOf(g, cat, dir), p);
            && (IsDir(d2, cat[loc := ch2], x) <==> IsDir(d, cat, x) || (x == Sub(loc) && IsDirectory(e)))
            && (x != Sub(loc) ==> LbasOf(g, cat[loc := ch2], x) == LbasOf(g, cat, x))
            && (x != Sub(loc) ==> SlotsOf(g, d2, cat[loc := ch2], x)
                                  == if x == dir then SlotsOf(g, d, cat, dir)[p := e] else SlotsOf(g, d, cat, x))
  {
    hide Partition, Mirrored, Fat, DirOk, EntryOk, IsShort, Lookup;
    var loc := SlotLoc(LbasOf(g, cat, dir), p);
    AddedIsNew(g, d, cat, lost, dir, p);
    PutInDirectory(g, d, cat, lost, dir, p, e, d2, x);
    if x.Sub? && x.loc in cat {
      AddedEntryKept(g, d, cat, lost, dir, name, p, e, d2, ch2, lost2, x.loc);
    }
  }

  lemma AddedDirOk(slots: seq<Slot>, lbas: seq<nat>, cat: Catalog, cat2: Catalog, name: seq<Byte>, p: nat, e: Slot)
    requires |slots| == 16 * |lbas| && Tidy(slots) && UniqueNames(slots) && Lookup(slots, name) == -1
    requires p == FirstFree(slots) < |slots| && IsShort(e) && ShortName(e) == Name83(name)
    requires forall i :: 0 <= i < |slots| && IsShort(slots[i]) ==> SlotLoc(lbas, i) in cat || IsDotEntry(slots, i)
    requires (forall l :: l in cat ==> l in cat2) && SlotLoc(lbas, p) in cat2
    ensures Tidy(slots[p := e]) && UniqueNames(slots[p := e])
    ensures forall i :: 0 <= i < |slots| && IsShort(slots[p := e][i]) ==>
      SlotLoc(lbas, i) in cat2 || IsDotEntry(slots[p := e], i)
  {
    CreatedKeepsOrder(slots, name, e);
    hide Tidy, UniqueNames, Lookup, ShortName, SlotLoc;
    forall i | 0 <= i < |slots| && IsShort(slots[p := e][i])
      ensures SlotLoc(lbas, i) in cat2 || IsDotEntry(slots[p := e], i) {
    }
  }

  /** A new entry in a free slot keeps the volume well formed, is found at its slot, and no
      lookup of a name with another 8.3 form changes. */
  lemma AddEntry(g: Geometry, d: Image, cat: Catalog, lost: set<U16>, dir: DirRef, name: seq<Byte>, p: nat, e: Slot,
                 d2: Image, ch2: seq<U16>, lost2: set<U16>)
    requires Addable(g, d, cat, lost, dir, name, p, e) && Added(g, d, cat, dir, p, e, d2, ch2, lost2)
    ensures WellFormed(g, d2, cat[SlotLoc(LbasOf(g, cat, dir), p) := ch2], lost2)
  {
    hide Partition, Mirrored, Fat, EntryOk, Tidy, UniqueNames, Lookup, IsDotEntry;
    var loc := SlotLoc(LbasOf(g, cat, dir), p);
    var cat2 := cat[loc := ch2];
    forall at | at in cat2 ensures EntryOk(g, d2, cat2, at) {
      AddedEntryOk(g, d, cat, lost, dir, name, p, e, d2, ch2, lost2, at);
    }
    forall x | IsDir(d2, cat2, x) ensures DirOk(g, d2, cat2, x) {
      AddedDirs(g, d, cat, lost, dir, name, p, e, d2, ch2, lost2, x);
      if x == dir && x != Sub(loc) {
        AddedDirOk(SlotsOf(g, d, cat, dir), LbasOf(g, cat, dir), cat, cat2, name, p, e);
      }
    }
  }

  lemma AddedEntryOk(g: Geometry, d: Image, cat: Catalog, lost: set<U16>, dir: DirRef, name: seq<Byte>, p: nat, e: Slot,
                     d2: Image, ch2: seq<U16>, lost2: set<U16>, at: Loc)
    requires Addable(g, d, cat, lost, dir, name, p, e) && Added(g, d, cat, dir, p, e, d2, ch2, lost2)
    requires at in cat || at == SlotLoc(LbasOf(g, cat, dir), p)
    ensures EntryOk(g, d2, cat[SlotLoc(LbasOf(g, cat, dir), p) := ch2], at)
  {
    AddedIsNew(g, d, cat, lost, dir, p);
    if at in cat {
      OldEntryOk(g, d, cat, lost, dir, name, p, e, d2, ch2, lost2, at);
    } else {
      NewEntryOk(g, d, cat, lost, dir, name, p, e, d2, ch2, lost2);
    }
  }

  lemma OldEntryOk(g: Geometry, d: Image, cat: Catalog, lost: set<U16>, dir: DirRef, name: seq<Byte>, p: nat, e: Slot,
                   d2: Image, ch2: seq<U16>, lost2: set<U16>, at: Loc)
    requires Addable(g, d, cat, lost, dir, name, p, e) && Added(g, d, cat, dir, p, e, d2, ch2, lost2) && at in cat
    ensures EntryOk(g, d2, cat[SlotLoc(LbasOf(g, cat, dir), p) := ch2], at)
  {
    hide Partition, Mirrored, Fat, DirOk, Lookup, Slots, FirstFree, Name83, IsShort, PutSlot, SlotIn, SlotsOf, LbasOf,
         SlotLoc, IsDirectory, SlotFirst, EntryFirst;
    var cat2 := cat[SlotLoc(LbasOf(g, cat, dir), p) := ch2];
    FirstFreeIsFree(g, d, cat, lost, dir, name, p, e);
    AddedEntryKept(g, d, cat, lost, dir, name, p, e, d2, ch2, lost2, at);
    assert EntryOk(g, d, cat, at);
    var home :| IsDir(d, cat, home) && at.lba in LbasOf(g, cat, home);
    AddedIsNew(g, d, cat, lost, dir, p);
    AddedDirs(g, d, cat, lost, dir, name, p, e, d2, ch2, lost2, home);
    assert IsDir(d2, cat2, home) && at.lba in LbasOf(g, cat2, home);
  }

  lemma NewEntryOk(g: Geometry, d: Image, cat: Catalog, lost: set<U16>, dir: DirRef, name: seq<Byte>, p: nat, e: Slot,
                   d2: Image, ch2: seq<U16>, lost2: set<U16>)
    requires Addable(g, d, cat, lost, dir, name, p, e) && Added(g, d, cat, dir, p, e, d2, ch2, lost2)
    ensures EntryOk(g, d2, cat[SlotLoc(LbasOf(g, cat, dir), p) := ch2], SlotLoc(LbasOf(g, cat, dir), p))
  {
    hide Partition, Mirrored, Fat, DirOk, Lookup, EntryOk, Slots, FirstFree;
    var loc := SlotLoc(LbasOf(g, cat, dir), p);
    var cat2 := cat[loc := ch2];
    AddedIsNew(g, d, cat, lost, dir, p);
    AddedDirs(g, d, cat, lost, dir, name, p, e, d2, ch2, lost2, dir);
    Name83NoDot(name);
    assert e[0] == ShortName(e)[0];
    assert IsDir(d2, cat2, dir) && loc.lba in LbasOf(g, cat2, dir);
    IntroduceEntryOk(g, d2, cat2, loc, dir, e);
  }

  lemma IntroduceEntryOk(g: Geometry, d: Image, cat: Catalog, loc: Loc, dir: DirRef, e: Slot)
    requires CatClusters(g, cat) && loc in cat && LocOnDisk(d, loc) && SlotAt(d, loc) == e && IsShort(e) && e[0] != DOT
    requires EntryFirst(d[loc.lba], loc.idx) == Head(cat[loc]) && (IsDirectory(e) ==> cat[loc] != [])
    requires IsDir(d, cat, dir) && loc.lba in LbasOf(g, cat, dir)
    ensures EntryOk(g, d, cat, loc)
  {
  }

  // ------------------------------------------------------------------ growing a directory

  /** d2 is d with directory p extended by the zeroed cluster n. */
  ghost predicate GrownBy(g: Geometry, d: Image, cat: Catalog, d2: Image, lost2: set<U16>, p: Loc, n: U16) {
    && CatClusters(g, cat) && p in cat && g.IsCluster(n)
    && Base(g, d2, cat[p := cat[p] + [n]], lost2) && DirSectorsSame(g, d, d2, cat)
    && forall l :: Inside(g, n, l) && 0 <= l < |d2| ==> d2[l] == ZeroSector()
  }

  lemma GrownSlots(g: Geometry, d: Image, cat: Catalog, lost: set<U16>, d2: Image, lost2: set<U16>, p: Loc, n: U16)
    returns (more: seq<Slot>)
    requires WellFormed(g, d, cat, lost) && IsDir(d, cat, Sub(p)) && GrownBy(g, d, cat, d2, lost2, p, n)
    ensures var cat2 := cat[p := cat[p] + [n]];
            && LbasOf(g, cat2, Sub(p)) == LbasOf(g, cat, Sub(p)) + ClusterLbas(g, n)
            && SlotsOf(g, d2, cat2, Sub(p)) == SlotsOf(g, d, cat, Sub(p)) + more
            && AllEnd(more) && |more| == 16 * g.spc
  {
    hide Partition, Mirrored, Fat, DirOk, EntryOk, Slots;
    var cat2 := cat[p := cat[p] + [n]];
    var lbas, added := LbasOf(g, cat, Sub(p)), ClusterLbas(g, n);
    ChainLbasConcat(g, cat[p], [n]);
    assert ChainLbas(g, [n]) == added;
    UntouchedTree(g, d, cat, lost, d2);
    LbasOnDisk(g, d2, cat, Sub(p));
    forall i | 0 <= i < |added| ensures added[i] < |d2| && d2[added[i]] == ZeroSector() {
      ClusterSectors(g, d2, n, i);
      assert Inside(g, n, added[i]);
    }
    ZeroSlots(d2, added);
    SlotsConcat(d2, lbas, added);
    more := Slots(d2, added);
  }

  /** Extending a directory by a zeroed cluster keeps the volume well formed. */
  lemma GrowDirectory(g: Geometry, d: Image, cat: Catalog, lost: set<U16>, d2: Image, lost2: set<U16>, p: Loc, n: U16)
    requires WellFormed(g, d, cat, lost) && IsDir(d, cat, Sub(p)) && GrownBy(g, d, cat, d2, lost2, p, n)
    ensures WellFormed(g, d2, cat[p := cat[p] + [n]], lost2)
    ensures SameTree(g, d, d2, cat)
  {
    hide Partition, Mirrored, Fat, EntryOk, Slots;
    var cat2 := cat[p := cat[p] + [n]];
    UntouchedTree(g, d, cat, lost, d2);
    var more := GrownSlots(g, d, cat, lost, d2, lost2, p, n);
    forall at | at in cat2 ensures EntryOk(g, d2, cat2, at) {
      GrownEntryOk(g, d, cat, d2, p, n, at);
    }
    forall x | IsDir(d2, cat2, x) ensures DirOk(g, d2, cat2, x) {
      assert IsDir(d, cat, x);
      assert DirOk(g, d, cat, x);
      if x == Sub(p) {
        GrownDirOk(SlotsOf(g, d, cat, x), more, LbasOf(g, cat, x), ClusterLbas(g, n), cat, cat2);
      }
    }
  }

  lemma GrownEntryOk(g: Geometry, d: Image, cat: Catalog, d2: Image, p: Loc, n: U16, at: Loc)
    requires SameTree(g, d, d2, cat) && at in cat && EntryOk(g, d, cat, at) && p in cat && g.IsCluster(n)
    requires CatClusters(g, cat[p := cat[p] + [n]]) && IsDir(d, cat, Sub(p))
    ensures EntryOk(g, d2, cat[p := cat[p] + [n]], at)
  {
    hide Slots, IsShort;
    var cat2 := cat[p := cat[p] + [n]];
    var home :| IsDir(d, cat, home) && at.lba in LbasOf(g, cat, home);
    if home == Sub(p) { ChainLbasConcat(g, cat[p], [n]); }
    assert IsDir(d2, cat2, home) && at.lba in LbasOf(g, cat2, home);
  }

  lemma GrownDirOk(slots: seq<Slot>, more: seq<Slot>, lbas: seq<nat>, added: seq<nat>, cat: Catalog, cat2: Catalog)
    requires |slots| == 16 * |lbas| && |more| == 16 * |added| && AllEnd(more) && Tidy(slots) && UniqueNames(slots)
    requires forall i :: 0 <= i < |slots| && IsShort(slots[i]) ==> SlotLoc(lbas, i) in cat || IsDotEntry(slots, i)
    requires forall l :: l in cat ==> l in cat2
    ensures Tidy(slots + more) && UniqueNames(slots + more)
    ensures forall i :: 0 <= i < |slots + more| && IsShort((slots + more)[i]) ==>
      SlotLoc(lbas + added, i) in cat2 || IsDotEntry(slots + more, i)
  {
    GrownDirectory(slots, more, []);
    hide Tidy, UniqueNames, Lookup;
    forall i | 0 <= i < |slots + more| && IsShort((slots + more)[i])
      ensures SlotLoc(lbas + added, i) in cat2 || IsDotEntry(slots + more, i)
    {
      assert forall k :: |slots| <= k < |slots + more| ==> (slots + more)[k] == more[k - |slots|];
      assert SlotLoc(lbas + added, i) == SlotLoc(lbas, i);
    }
  }
}
