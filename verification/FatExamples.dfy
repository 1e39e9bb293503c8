/**
  Volumes that meet the driver's invariant: a freshly formatted one, and one with a file of two
  clusters that is open for modification at its start.  On the second a write of more than one
  cluster is not in place.
*/
module FatExamples {
  import opened Common
  import opened FatDisk
  import opened FatChains
  import opened FatRead
  import opened FatWrite
  import opened FatDirs
  import opened FatNames
  import opened FatCatalog
  import opened FatVolume
  import opened FatOps
  import opened FatMount
  import opened FatRuns
  import opened FatDriver

  // ------------------------------------------------------------------ a formatted volume

  /** Equal FAT copies without a chain, and a root directory without an entry. */
  ghost predicate Formatted(g: Geometry, d: Image) {
    && g.Fits(d) && Mirrored(g, d) && (forall c :: 2 <= c < g.Entries() ==> Fat(g, d)[c] == 0)
    && AllEnd(RootSlots(g, d))
  }

  ghost function RootSlots(g: Geometry, d: Image): (slots: seq<Slot>)
    requires g.Fits(d)
    ensures |slots| == 16 * g.rootSectors
  {
    SlotsOf(g, d, map[], Root)
  }

  /** Nobody has a file open for writing. */
  predicate NoWriter(files: seq<OpenFile>) {
    |files| == MAX_OPEN_FILES && forall i :: 0 <= i < |files| ==> !Writing(files[i])
  }

  lemma FormattedIsSound(g: Geometry, d: Image, files: seq<OpenFile>)
    requires Formatted(g, d) && NoWriter(files)
    ensures Sound(g, Vol(d, map[], {}, files))
  {
    var cat: Catalog := map[];
    assert g.fatSize * 256 <= 255 * 256;
    assert Partition(Fat(g, d), cat, {});
    assert DirOk(g, d, cat, Root);
  }

  // ------------------------------------------------------------- a file of two clusters

  /** Clusters 2 and 3 hold the only file, whose entry is the first of the root directory. */
  ghost predicate HoldsTwo(g: Geometry, d: Image) {
    && g.Fits(d) && Mirrored(g, d) && g.rootSectors > 0 && g.rootStart < |d|
    && Fat(g, d)[2] == 3 && Fat(g, d)[3] == EOC && (forall c :: 4 <= c < g.Entries() ==> Fat(g, d)[c] == 0)
    && var slots := RootSlots(g, d);
       && IsShort(slots[0]) && !IsDirectory(slots[0]) && slots[0][0] != DOT && AllEnd(slots[1..])
       && EntryFirst(d[g.rootStart], 0) == 2 && EntrySize(d[g.rootStart], 0) == 2 * g.ClusterSize()
  }

  function TwoCatalog(g: Geometry): (cat: Catalog) {
    map[Loc(g.rootStart, 0) := [2, 3]]
  }

  /** Slot 0 of the table modifies the file from its start; the others are closed. */
  function TwoFiles(g: Geometry): (files: seq<OpenFile>)
    ensures |files| == MAX_OPEN_FILES
  {
    seq(MAX_OPEN_FILES, i => OpenFile(i == 0, 2 * g.ClusterSize(), 2, 2, 0, 0, true, g.rootStart, 0, 0))
  }

  function TwoVolume(g: Geometry, d: Image): (v: Vol) {
    Vol(d, TwoCatalog(g), {}, TwoFiles(g))
  }

  lemma TwoPartition(g: Geometry, d: Image)
    requires HoldsTwo(g, d)
    ensures Base(g, d, TwoCatalog(g), {})
  {
    hide Fat, Mirrored, AllEnd, RootSlots;
    var f, loc := Fat(g, d), Loc(g.rootStart, 0);
    var cat := TwoCatalog(g);
    assert IsChain(f, [2, 3]);
    forall x: U16 ensures Used(f, x) <==> Owned(cat, x) {
      assert x in cat[loc] <==> x == 2 || x == 3;
      assert Owned(cat, x) <==> x in cat[loc];
    }
  }

  lemma TwoDirectories(g: Geometry, d: Image, dir: DirRef)
    requires HoldsTwo(g, d) && Base(g, d, TwoCatalog(g), {}) && IsDir(d, TwoCatalog(g), dir)
    ensures DirOk(g, d, TwoCatalog(g), dir)
  {
    TwoEntry(g, d);
    TwoRoot(g, d);
    OneEntry(RootSlots(g, d));
    hide Fat, Mirrored, Partition, Tidy, UniqueNames, SlotsOf, RootSlots, IsShort, SlotLoc, LbasOf, Base, EntryOk;
    assert dir == Root;
  }

  lemma TwoRoot(g: Geometry, d: Image)
    requires HoldsTwo(g, d) && CatClusters(g, TwoCatalog(g))
    ensures SlotsOf(g, d, TwoCatalog(g), Root) == RootSlots(g, d)
    ensures SlotLoc(LbasOf(g, TwoCatalog(g), Root), 0) == Loc(g.rootStart, 0)
  {
    hide Fat, Mirrored, AllEnd;
  }

  lemma OneEntry(slots: seq<Slot>)
    requires slots != [] && IsShort(slots[0]) && AllEnd(slots[1..])
    ensures Tidy(slots) && UniqueNames(slots) && forall i :: 0 <= i < |slots| && IsShort(slots[i]) ==> i == 0
  {
    forall i | 1 <= i < |slots| ensures IsEnd(slots[i]) {
      assert slots[i] == slots[1..][i - 1];
    }
  }

  lemma TwoEntry(g: Geometry, d: Image)
    requires HoldsTwo(g, d) && CatClusters(g, TwoCatalog(g))
    ensures EntryOk(g, d, TwoCatalog(g), Loc(g.rootStart, 0)) && SlotAt(d, Loc(g.rootStart, 0)) == RootSlots(g, d)[0]
  {
    hide Fat, Mirrored, AllEnd;
    var lbas := LbasOf(g, TwoCatalog(g), Root);
    assert IsDir(d, TwoCatalog(g), Root) && lbas[0] == g.rootStart;
  }

  lemma TwoFacts(g: Geometry, d: Image)
    requires HoldsTwo(g, d)
    ensures g.Fits(d) && g.rootStart < |d| && !IsDirectory(RootSlots(g, d)[0])
    ensures EntryFirst(d[g.rootStart], 0) == 2 && EntrySize(d[g.rootStart], 0) == 2 * g.ClusterSize()
  {
    hide Fat, Mirrored, AllEnd;
  }

  /** Every such volume meets the driver's invariant, with the descriptor open. */
  lemma TwoIsSound(g: Geometry, d: Image)
    requires HoldsTwo(g, d)
    ensures Sound(g, TwoVolume(g, d)) && WritableFd(TwoFiles(g), FAT_FD_BASE)
    ensures Starts(g, d, TwoCatalog(g), TwoFiles(g)[0], Modify, Loc(g.rootStart, 0))
  {
    hide Fat, Mirrored, AllEnd, RootSlots, Partition, DirOk, IsShort, IsDir, HoldsTwo;
    TwoPartition(g, d);
    TwoEntry(g, d);
    TwoFacts(g, d);
    forall dir | IsDir(d, TwoCatalog(g), dir) ensures DirOk(g, d, TwoCatalog(g), dir) {
      TwoDirectories(g, d, dir);
    }
    var f := TwoFiles(g)[0];
    assert CursorOn(g, f, [2, 3], 0);
    assert FdOk(g, d, TwoCatalog(g), f);
  }

  /** Writing more than one cluster through it, while a cluster is free, is not in place: the
      write cuts the chain behind cluster 2. */
  lemma TwoLoses(g: Geometry, d: Image, data: seq<Byte>)
    requires HoldsTwo(g, d)
    ensures InPlace(g, TwoVolume(g, d), FAT_FD_BASE, data) <==> |data| <= g.ClusterSize()
  {
    TwoIsSound(g, d);
    assert 4 in FreeSet(Fat(g, d));
    hide Fat, Mirrored, AllEnd, RootSlots, Sound;
  }

  // ---------------------------------------------------------------------- both exist

  const SMALL := Geometry(1, 1, 1, 2, 1, 3, 1)

  lemma SmallFits(d: Image)
    requires |d| == 257
    ensures SMALL.Fits(d) && Mirrored(SMALL, d) && SMALL.Entries() == 256
  {
    hide FatCopy;
  }

  lemma SmallFat(d: Image, c: nat)
    requires |d| == 257 && SMALL.Fits(d) && c < 256
    ensures SMALL.Entries() == 256 && Fat(SMALL, d)[c] == WordAt(d[1], c)
  {
    hide WordAt;
    assert c / 256 == 0 && c % 256 == c;
  }

  lemma SmallRoot(d: Image, i: nat)
    requires |d| == 257 && SMALL.Fits(d) && i < 16
    ensures RootSlots(SMALL, d)[i] == SlotIn(d[2], i)
  {
    hide SlotIn;
    assert LbasOf(SMALL, map[], Root) == [2];
    SectorSlots(d, [2], 0, i);
  }

  lemma SmallIs(d: Image)
    requires |d| == 257
    ensures SMALL.Fits(d) && Mirrored(SMALL, d) && SMALL.Entries() == 256
    ensures forall c :: 0 <= c < 256 ==> Fat(SMALL, d)[c] == WordAt(d[1], c)
    ensures forall i :: 0 <= i < 16 ==> RootSlots(SMALL, d)[i] == SlotIn(d[2], i)
  {
    SmallFits(d);
    hide Fat, WordAt, Mirrored, RootSlots, SlotIn;
    forall c | 0 <= c < 256 ensures Fat(SMALL, d)[c] == WordAt(d[1], c) {
      SmallFat(d, c);
    }
    forall i | 0 <= i < 16 ensures RootSlots(SMALL, d)[i] == SlotIn(d[2], i) {
      SmallRoot(d, i);
    }
  }

  /** 257 sectors of zeros are a formatted volume. */
  lemma ZerosAreFormatted()
    ensures Formatted(SMALL, seq(257, i => ZeroSector()))
  {
    SmallIs(seq(257, i => ZeroSector()));
  }

  function TwoEntrySlot(): (e: Slot)
    ensures IsShort(e) && !IsDirectory(e) && e[0] == 65 && forall k :: 1 <= k < 11 ==> e[k] == SPACE
    ensures e[26] == 2 && e[27] == e[28] == e[30] == e[31] == 0 && e[29] == 4
  {
    [65] + seq(10, i => SPACE) + seq(15, i => 0) + [2, 0, 0, 4, 0, 0]
  }

  function Filled(b: Byte): (s: Sector)
    ensures forall k :: 0 <= k < 512 ==> s[k] == b
  {
    seq(512, i => b)
  }

  /** The volume of a file "A" of 1024 bytes in clusters 2 and 3, byte by byte: the FAT in sector 1,
      the root directory in sector 2, the letters a and b in sectors 3 and 4. */
  function TwoImage(): (d: Image)
    ensures |d| == 257 && d[3] == Filled(97) && d[4] == Filled(98)
  {
    var fat: Sector := [0, 0, 0, 0, 3, 0, 0xFF, 0xFF] + seq(504, i => 0);
    var root: Sector := TwoEntrySlot() + seq(480, i => 0);
    seq(257, i => ZeroSector())[1 := fat][2 := root][3 := Filled(97)][4 := Filled(98)]
  }

  lemma SmallEnds(d: Image, n: nat)
    requires |d| == 257 && n <= 16 && forall k :: n <= k < 16 ==> IsEnd(SlotIn(d[2], k))
    ensures SMALL.Fits(d) && |RootSlots(SMALL, d)| == 16 && AllEnd(RootSlots(SMALL, d)[n..])
  {
    SmallIs(d);
    hide Fat, SlotIn, RootSlots, Mirrored, WordAt, IsEnd;
    assert |RootSlots(SMALL, d)| == 16;
    forall i | 0 <= i < 16 - n ensures IsEnd(RootSlots(SMALL, d)[n..][i]) {
      assert RootSlots(SMALL, d)[n + i] == SlotIn(d[2], n + i);
    }
  }

  lemma TwoImageFat()
    ensures SMALL.Fits(TwoImage()) && Fat(SMALL, TwoImage())[2] == 3 && Fat(SMALL, TwoImage())[3] == EOC
    ensures forall c :: 4 <= c < 256 ==> Fat(SMALL, TwoImage())[c] == 0
  {
    SmallIs(TwoImage());
    hide Fat, RootSlots, SlotIn, Mirrored, TwoEntrySlot;
  }

  lemma TwoImageSlots()
    ensures var s := TwoImage()[2];
            && SlotIn(s, 0) == TwoEntrySlot() && (forall k :: 1 <= k < 16 ==> IsEnd(SlotIn(s, k)))
            && EntryFirst(s, 0) == 2 && EntrySize(s, 0) == 1024
  {
    hide TwoEntrySlot;
    var s := TwoImage()[2];
    assert SlotIn(s, 0) == TwoEntrySlot();
    assert forall b :: 0 <= b < 32 ==> SlotIn(s, 0)[b] == s[b];
  }

  lemma TwoImageHolds()
    ensures HoldsTwo(SMALL, TwoImage())
  {
    SmallIs(TwoImage());
    TwoImageFat();
    TwoImageSlots();
    SmallEnds(TwoImage(), 1);
    hide Fat, TwoImage, TwoEntrySlot, SlotIn, RootSlots, Mirrored, EntryFirst, EntrySize, WordAt, AllEnd, IsEnd,
         IsShort, IsDirectory, Geometry.Fits;
  }

  /** So a write of 513 bytes through a descriptor opened to modify a file loses a cluster. */
  lemma ModifyLosesCluster(data: seq<Byte>)
    requires |data| > 512
    ensures Sound(SMALL, TwoVolume(SMALL, TwoImage()))
    ensures Starts(SMALL, TwoImage(), TwoCatalog(SMALL), TwoFiles(SMALL)[0], Modify, Loc(2, 0))
    ensures !InPlace(SMALL, TwoVolume(SMALL, TwoImage()), FAT_FD_BASE, data)
  {
    TwoImageHolds();
    hide HoldsTwo, TwoImage;
    TwoIsSound(SMALL, TwoImage());
    TwoLoses(SMALL, TwoImage(), data);
  }

  lemma TwoFound()
    ensures var v := TwoVolume(SMALL, TwoImage());
            && SMALL.Fits(v.d) && CatClusters(SMALL, v.cat) && Target(SMALL, v, [97]) == Some(Loc(2, 0))
  {
    TwoImageHolds();
    TwoPartition(SMALL, TwoImage());
    TwoImageSlots();
    SmallIs(TwoImage());
    SmallEnds(TwoImage(), 1);
    hide HoldsTwo, TwoImage, Fat, RootSlots, Mirrored, WordAt, SlotIn, TwoEntrySlot, AllEnd, IsEnd;
    FoundAsA(RootSlots(SMALL, TwoImage()));
    TwoPath(SMALL, TwoImage(), [97]);
  }

  lemma FoundAsA(slots: seq<Slot>)
    requires slots != [] && slots[0] == TwoEntrySlot()
    ensures Lookup(slots, [97]) == 0
  {
    hide TwoEntrySlot, Lookup;
    assert Capital(97, slots[0][0]) && [97][..1] == [97];
    StoredIsFound(slots, [97], 1, 0);
  }

  lemma TwoPath(g: Geometry, d: Image, name: seq<Byte>)
    requires HoldsTwo(g, d) && Base(g, d, TwoCatalog(g), {}) && SLASH !in name && 0 < |name| <= 47
    requires Lookup(RootSlots(g, d), name) == 0
    ensures Target(g, TwoVolume(g, d), name) == Some(Loc(g.rootStart, 0))
  {
    TwoRoot(g, d);
    hide HoldsTwo, RootSlots, SlotLoc, LbasOf, SlotsOf, Lookup, Resolve;
    PathStep(g, d, TwoCatalog(g), Root, name, []);
  }

  /** End to end: the path "a" of this volume reads as 512 letters a and 512 letters b. */
  lemma TwoReads(size: nat)
    requires size >= 1024
    ensures var v := TwoVolume(SMALL, TwoImage());
            Sound(SMALL, v) && ReadResult(SMALL, v, [97], size) == Some(Filled(97) + Filled(98))
  {
    hide *;
    TwoImageHolds();
    TwoIsSound(SMALL, TwoImage());
    TwoFound();
    TwoBytes();
    TwoSizes();
    ReadsBoth(SMALL, TwoImage(), [97], Filled(97) + Filled(98), size);
  }

  lemma TwoSizes()
    ensures Loc(2, 0) == Loc(SMALL.rootStart, 0) && |Filled(97) + Filled(98)| == 1024
  {
  }

  lemma ReadsBoth(g: Geometry, d: Image, path: seq<Byte>, bytes: seq<Byte>, size: nat)
    requires HoldsTwo(g, d) && Sound(g, TwoVolume(g, d))
    requires Target(g, TwoVolume(g, d), path) == Some(Loc(g.rootStart, 0))
    requires AllClusters(g, [2, 3]) && ChainBytes(g, d, [2, 3]) == bytes && |bytes| <= size
    ensures ReadResult(g, TwoVolume(g, d), path, size) == Some(bytes)
  {
    TwoFacts(g, d);
    TwoIsFile(g, d);
    ChainBytesLength(g, d, [2, 3]);
    hide HoldsTwo, Fat, RootSlots, Mirrored, Target, Sound, ChainBytes, IsFile;
    var v, loc := TwoVolume(g, d), Loc(g.rootStart, 0);
    assert v.cat[loc] == [2, 3] && |bytes| == 2 * g.ClusterSize() && Tight(g, [2, 3], 2 * g.ClusterSize());
    assert TightFile(g, v.d, v.cat, loc) && bytes[..|bytes|] == bytes;
    assert FileBytes(g, v.d, v.cat, loc) == bytes;
  }

  lemma TwoIsFile(g: Geometry, d: Image)
    requires HoldsTwo(g, d)
    ensures IsFile(d, TwoCatalog(g), Loc(g.rootStart, 0))
  {
    TwoPartition(g, d);
    TwoEntry(g, d);
    TwoFacts(g, d);
    hide HoldsTwo, Fat, RootSlots, Mirrored, EntryOk;
  }

  lemma TwoBytes()
    ensures SMALL.Fits(TwoImage()) && AllClusters(SMALL, [2, 3])
    ensures ChainBytes(SMALL, TwoImage(), [2, 3]) == Filled(97) + Filled(98)
  {
    var d := TwoImage();
    SmallFits(d);
    hide TwoImage, Filled;
    assert ClusterBytes(SMALL, d, 2) == Filled(97);
    assert ClusterBytes(SMALL, d, 3) == Filled(98);
    assert [2, 3][1..] == [3] && ChainBytes(SMALL, d, [3]) == Filled(98);
  }

  // ------------------------------------------------- a path that a new file takes over

  /** The root directory has a deleted slot and an empty file with the long name `text`. */
  ghost predicate HoldsLong(g: Geometry, d: Image, text: seq<Byte>) {
    && g.Fits(d) && Mirrored(g, d) && g.rootSectors > 0 && g.rootStart < |d|
    && (forall c :: 2 <= c < g.Entries() ==> Fat(g, d)[c] == 0) && SLASH !in text
    && var slots := RootSlots(g, d);
       && LongNamed(slots, text) && AllEnd(slots[3..]) && !IsDirectory(slots[2]) && slots[2][0] != DOT
       && EntryFirst(d[g.rootStart], 2) == 0 && EntrySize(d[g.rootStart], 2) == 0
  }

  function LongCatalog(g: Geometry): (cat: Catalog) {
    map[Loc(g.rootStart, 2) := []]
  }

  lemma LongPartition(g: Geometry, d: Image, text: seq<Byte>)
    requires HoldsLong(g, d, text)
    ensures Base(g, d, LongCatalog(g), {})
  {
    hide Fat, Mirrored, AllEnd, RootSlots, LongNamed;
    assert g.fatSize * 256 <= 255 * 256;
    assert Partition(Fat(g, d), LongCatalog(g), {});
  }

  lemma LongRoot(g: Geometry, d: Image, text: seq<Byte>)
    requires HoldsLong(g, d, text) && CatClusters(g, LongCatalog(g))
    ensures SlotsOf(g, d, LongCatalog(g), Root) == RootSlots(g, d)
    ensures SlotLoc(LbasOf(g, LongCatalog(g), Root), 2) == Loc(g.rootStart, 2)
    ensures EntryOk(g, d, LongCatalog(g), Loc(g.rootStart, 2)) && SlotAt(d, Loc(g.rootStart, 2)) == RootSlots(g, d)[2]
  {
    hide Fat, Mirrored, AllEnd, LongGroup, NameChecksum, Name83;
    var lbas := LbasOf(g, LongCatalog(g), Root);
    assert IsDir(d, LongCatalog(g), Root) && lbas[0] == g.rootStart;
  }

  lemma LongSlots(slots: seq<Slot>, text: seq<Byte>)
    requires LongNamed(slots, text) && AllEnd(slots[3..])
    ensures Tidy(slots) && UniqueNames(slots) && forall i :: 0 <= i < |slots| && IsShort(slots[i]) ==> i == 2
  {
    hide LongGroup, LongSlot, NameChecksum, Name83, ShortName;
    OneLongSlot(text, NameChecksum(ShortName(slots[2])));
    assert slots[1] == slots[1..2][0];
    forall i | 3 <= i < |slots| ensures IsEnd(slots[i]) {
      assert slots[i] == slots[3..][i - 3];
    }
    ThreeKinds(slots);
  }

  lemma ThreeKinds(slots: seq<Slot>)
    requires |slots| >= 3 && slots[0][0] == DELETED && IsLong(slots[1]) && IsShort(slots[2])
    requires forall i :: 3 <= i < |slots| ==> IsEnd(slots[i])
    ensures Tidy(slots) && UniqueNames(slots) && forall i :: 0 <= i < |slots| && IsShort(slots[i]) ==> i == 2
  {
    hide ShortName;
    assert forall i :: 0 <= i < |slots| && i != 2 ==> !IsShort(slots[i]);
  }

  lemma LongFacts(g: Geometry, d: Image, text: seq<Byte>)
    requires HoldsLong(g, d, text)
    ensures g.Fits(d) && g.rootStart < |d| && LongNamed(RootSlots(g, d), text) && AllEnd(RootSlots(g, d)[3..])
    ensures !IsDirectory(RootSlots(g, d)[2]) && EntrySize(d[g.rootStart], 2) == 0 && SLASH !in text
  {
    hide Fat, Mirrored, AllEnd, LongNamed;
  }

  /** Every such volume meets the driver's invariant. */
  lemma LongIsSound(g: Geometry, d: Image, text: seq<Byte>, files: seq<OpenFile>)
    requires HoldsLong(g, d, text) && NoWriter(files)
    ensures Sound(g, Vol(d, LongCatalog(g), {}, files))
  {
    hide Fat, Mirrored, AllEnd, RootSlots, Partition, IsShort, HoldsLong, LongNamed, Tidy, UniqueNames, EntryOk,
         SlotsOf, LbasOf;
    LongPartition(g, d, text);
    LongRoot(g, d, text);
    LongFacts(g, d, text);
    LongSlots(RootSlots(g, d), text);
    assert forall dir :: IsDir(d, LongCatalog(g), dir) ==> dir == Root;
    assert DirOk(g, d, LongCatalog(g), Root);
  }

  /** A path of one component leads into the root directory. */
  lemma OneComponent(g: Geometry, d: Image, cat: Catalog, path: seq<Byte>)
    requires g.Fits(d) && CatClusters(g, cat) && SLASH !in path && 0 < |path| < 48
    ensures Resolve(g, d, cat, Root, path) == Some((Root, path)) && Walk(g, d, cat, Root, path) == [(Root, path)]
  {
    WholeComponent(path);
    hide SlashAt, Find, Component, AfterComponent;
  }

  lemma WholeComponent(path: seq<Byte>)
    requires SLASH !in path && 0 < |path| < 48
    ensures SlashAt(path) > 0 && Component(path) == path && AfterComponent(path) == []
  {
    assert forall k :: 0 <= k < |path| ==> path[k] != SLASH;
    assert SlashAt(path) == |path|;
    hide SlashAt;
  }

  /** On every such volume, creating a file whose name agrees with the long name in its first
      eight characters takes the path from the old file. */
  lemma LongTaken(g: Geometry, d: Image, text: seq<Byte>, other: seq<Byte>, files: seq<OpenFile>, owner: int, fd: int)
    requires HoldsLong(g, d, text) && NoWriter(files) && DOT !in other && SLASH !in other && 8 <= |other| < 48
    requires other[..8] == text[..8] && !EqualIgnoringCase(other, text)
    ensures var v := Vol(d, LongCatalog(g), {}, files);
            && Sound(g, v) && Target(g, v, text) == Some(Loc(g.rootStart, 2))
            && Takes(g, v, DidOpen(other, Create, owner, fd), text)
  {
    hide *;
    LongFacts(g, d, text);
    var cat, slots := LongCatalog(g), RootSlots(g, d);
    LongIsSound(g, d, text, files);
    SoundFits(g, Vol(d, cat, {}, files));
    LongRoot(g, d, text);
    LongLookups(slots, text, other);
    OneComponent(g, d, cat, text);
    OneComponent(g, d, cat, other);
    LongBoth(g, d, cat, text, other, slots);
    LongTakes(g, Vol(d, cat, {}, files), text, other, owner, fd);
  }

  lemma LongLookups(slots: seq<Slot>, text: seq<Byte>, other: seq<Byte>)
    requires LongNamed(slots, text) && DOT !in other && |other| >= 8 && other[..8] == text[..8]
    requires !EqualIgnoringCase(other, text)
    ensures Lookup(slots, text) == 2 && Lookup(slots, other) == -1 && FirstFree(slots) == 0 && 8 < |text| < 13
    ensures Overtaken(slots, text) && Name83(text) == Name83(other)
  {
    Same83(text, other);
    FoundByLongName(slots, text, text);
    FoundByLongName(slots, text, other);
    hide Lookup, Name83, LongGroup;
  }

  lemma LongBoth(g: Geometry, d: Image, cat: Catalog, text: seq<Byte>, other: seq<Byte>, slots: seq<Slot>)
    requires g.Fits(d) && CatClusters(g, cat) && SlotsOf(g, d, cat, Root) == slots && |slots| > 2
    requires Lookup(slots, text) == 2 && Lookup(slots, other) == -1 && FirstFree(slots) == 0 && Overtaken(slots, text)
    requires SlotLoc(LbasOf(g, cat, Root), 2) == Loc(g.rootStart, 2)
    ensures Find(g, d, cat, Root, text) == Some(Loc(g.rootStart, 2)) && Find(g, d, cat, Root, other) == None
    ensures Overtakes(g, d, cat, Root, text) && !DirFull(g, d, cat, Root)
  {
    hide Lookup, FirstFree, SlotsOf, LbasOf, SlotLoc, Overtaken;
  }

  lemma LongTakes(g: Geometry, v: Vol, text: seq<Byte>, other: seq<Byte>, owner: int, fd: int)
    requires Sound(g, v) && g.Fits(v.d) && CatClusters(g, v.cat) && Name83(text) == Name83(other)
    requires Resolve(g, v.d, v.cat, Root, text) == Some((Root, text))
    requires Walk(g, v.d, v.cat, Root, text) == [(Root, text)]
    requires Resolve(g, v.d, v.cat, Root, other) == Some((Root, other)) && Find(g, v.d, v.cat, Root, other) == None
    requires Find(g, v.d, v.cat, Root, text) == Some(Loc(g.rootStart, 2)) && Overtakes(g, v.d, v.cat, Root, text)
    requires !DirFull(g, v.d, v.cat, Root)
    ensures Target(g, v, text) == Some(Loc(g.rootStart, 2)) && Takes(g, v, DidOpen(other, Create, owner, fd), text)
  {
    hide Resolve, Walk, Find, Overtakes, Name83, DirFull, Sound;
    assert !Refused(g, v.d, v.cat, other, Create);
    assert Taken(g, v.d, v.cat, [(Root, text)][0], Root, other);
  }

  function DeletedSlot(): (e: Slot)
    ensures e[0] == DELETED
  {
    [DELETED] + seq(31, i => 0)
  }

  /** The short entry "LONGNA~1" of an empty file. */
  function ShortSlot(): (e: Slot)
    ensures IsShort(e) && !IsDirectory(e) && e[0] == 76 && ShortName(e)[6] == 126
    ensures e[26] == e[27] == e[28] == e[29] == e[30] == e[31] == 0
  {
    [76, 79, 78, 71, 78, 65, 126, 49] + seq(3, i => SPACE) + seq(21, i => 0)
  }

  /** The volume of the one file "longname1", behind a deleted slot. */
  function LongImage(): (d: Image)
    ensures |d| == 257
  {
    var long := LongSlot(LONGNAME1, NameChecksum(ShortName(ShortSlot())), 1, true);
    var root := PutSlot(PutSlot(PutSlot(ZeroSector(), 0, DeletedSlot()), 1, long), 2, ShortSlot());
    seq(257, i => ZeroSector())[2 := root]
  }

  lemma ZeroWord(c: nat)
    requires c < 256
    ensures WordAt(ZeroSector(), c) == 0
  {
  }

  lemma LongImageSlots()
    ensures var s := LongImage()[2];
            && SlotIn(s, 0) == DeletedSlot() && SlotIn(s, 2) == ShortSlot()
            && SlotIn(s, 1) == LongSlot(LONGNAME1, NameChecksum(ShortName(ShortSlot())), 1, true)
            && (forall k :: 3 <= k < 16 ==> IsEnd(SlotIn(s, k))) && EntryFirst(s, 2) == 0 && EntrySize(s, 2) == 0
  {
    hide LongSlot, NameChecksum, DeletedSlot, ShortSlot, PutSlot;
    var s := LongImage()[2];
    assert SlotIn(s, 2) == ShortSlot();
    assert forall b :: 0 <= b < 32 ==> SlotIn(s, 2)[b] == s[64 + b];
  }

  lemma LongImageFat()
    ensures SMALL.Fits(LongImage()) && forall c :: 0 <= c < 256 ==> Fat(SMALL, LongImage())[c] == 0
  {
    SmallIs(LongImage());
    hide Fat, WordAt, RootSlots, SlotIn, Mirrored;
    forall c | 0 <= c < 256 ensures Fat(SMALL, LongImage())[c] == 0 {
      ZeroWord(c);
    }
  }

  lemma LongImageRoot()
    ensures SMALL.Fits(LongImage())
    ensures var slots := RootSlots(SMALL, LongImage());
            |slots| == 16 && LongNamed(slots, LONGNAME1) && AllEnd(slots[3..]) && slots[2] == ShortSlot()
    ensures EntryFirst(LongImage()[2], 2) == 0 && EntrySize(LongImage()[2], 2) == 0 && SLASH !in LONGNAME1
  {
    SmallIs(LongImage());
    LongImageSlots();
    SmallEnds(LongImage(), 3);
    hide Fat, LongImage, RootSlots, LongSlot, NameChecksum, SlotIn, WordAt, EntryFirst, EntrySize, LongNamed,
         ShortName, Mirrored, Geometry.Fits;
    LongName2();
    OneLongSlot(LONGNAME1, NameChecksum(ShortName(ShortSlot())));
    LongName1(RootSlots(SMALL, LongImage()));
  }

  lemma LongImageHolds()
    ensures HoldsLong(SMALL, LongImage(), LONGNAME1)
  {
    SmallIs(LongImage());
    LongImageFat();
    LongImageRoot();
    hide Fat, LongImage, RootSlots, LongSlot, NameChecksum, SlotIn, WordAt, EntryFirst, EntrySize, LongNamed,
         ShortName, IsDirectory, AllEnd, Mirrored, ShortSlot, Geometry.Fits, IsEnd, IsShort, DeletedSlot;
  }

  /** So creating "longname2" there takes the path "longname1" from its file. */
  lemma LongNameTaken(files: seq<OpenFile>, owner: int, fd: int)
    requires NoWriter(files)
    ensures var v := Vol(LongImage(), LongCatalog(SMALL), {}, files);
            && Sound(SMALL, v) && Target(SMALL, v, LONGNAME1) == Some(Loc(2, 2))
            && Takes(SMALL, v, DidOpen(LONGNAME2, Create, owner, fd), LONGNAME1)
  {
    hide HoldsLong, LongImage, Takes, Sound, Target, LongCatalog, NoWriter, EqualIgnoringCase;
    LongImageHolds();
    LongName2();
    LongTaken(SMALL, LongImage(), LONGNAME1, LONGNAME2, files, owner, fd);
  }
}
