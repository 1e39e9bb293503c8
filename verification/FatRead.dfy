/**
  Reading files.  `Stream` is what a cursor yields on an arbitrary disk image, however
  broken its chains are; fat_read and fat_read_file are proved against it.  On a real
  chain a stream is a slice of the bytes stored in the chain's clusters (`ChainBytes`).
*/
module FatRead {
  import opened Common
  import opened FatDisk
  import opened FatChains

  const FAT_FD_BASE := 3

  /** One slot of the driver's open file table. */
  datatype OpenFile = OpenFile(
    inUse: bool, fileSize: nat, currentCluster: U16, firstCluster: U16,
    clusterOffset: nat, fileOffset: nat, writable: bool,
    dirSector: nat, dirOffset: nat, owner: int)

  predicate ValidFd(files: seq<OpenFile>, fd: int) {
    && |files| == MAX_OPEN_FILES
    && FAT_FD_BASE <= fd < FAT_FD_BASE + MAX_OPEN_FILES
    && files[fd - FAT_FD_BASE].inUse
  }

  function Min(a: int, b: int): int {
    if a < b then a else b
  }

  lemma Assoc<T>(a: seq<T>, b: seq<T>, c: seq<T>)
    ensures a + b + c == a + (b + c)
  {
  }

  lemma SliceTwice<T>(s: seq<T>, from: nat, n: nat)
    requires from + n <= |s|
    ensures s[from..from + n] == s[from..][..n] == s[..from + n][from..]
  {
  }

  lemma SliceAcross<T>(a: seq<T>, b: seq<T>, from: nat, k: nat, n: nat)
    requires from + k <= |a| && k <= n && from + n <= |a| + |b|
    ensures (a + b)[from..from + n] == a[from..from + k] + (a + b)[from + k..from + n]
    ensures from + k == |a| ==> (a + b)[from + k..from + n] == b[..n - k]
  {
  }

  // ------------------------------------------------------------------------- streams

  /** The bytes that follow a cursor: at most rem of them, stopping early at an end mark,
      at a number that is no cluster, or at a sector that cannot be read. */
  function Stream(g: Geometry, d: Image, cur: U16, coff: nat, rem: nat): (s: seq<Byte>)
    requires coff < g.ClusterSize()
    ensures |s| <= rem
    decreases rem, 0
  {
    if rem == 0 || !InChainRange(cur) || g.ClusterLba(cur) + coff / 512 >= |d| then []
    else
      var k := Min(512 - coff % 512, rem);
      d[g.ClusterLba(cur) + coff / 512][coff % 512..coff % 512 + k] + StreamAfter(g, d, cur, coff + k, rem - k)
  }

  /** The stream of a cursor whose offset may have just reached the end of its cluster. */
  function StreamAfter(g: Geometry, d: Image, cur: U16, coff: nat, rem: nat): (s: seq<Byte>)
    requires 0 < g.ClusterSize()
    ensures |s| <= rem
    decreases rem, 1
  {
    if coff >= g.ClusterSize() then Stream(g, d, NextCluster(g, d, cur), 0, rem) else Stream(g, d, cur, coff, rem)
  }

  lemma NothingLeft(g: Geometry, d: Image, cur: U16, coff: nat)
    requires 0 < g.ClusterSize()
    ensures StreamAfter(g, d, cur, coff, 0) == []
  {
  }

  lemma SameSector(g: Geometry, coff: nat, t: nat)
    requires coff < g.ClusterSize() && coff % 512 + t < 512
    ensures coff + t < g.ClusterSize() && (coff + t) / 512 == coff / 512 && (coff + t) % 512 == coff % 512 + t
  {
  }

  /** Any part of the bytes left in the current sector can be taken first. */
  lemma StreamSplit(g: Geometry, d: Image, cur: U16, coff: nat, rem: nat, t: nat)
    requires coff < g.ClusterSize() && InChainRange(cur) && g.ClusterLba(cur) + coff / 512 < |d|
    requires 0 < t <= rem && t <= 512 - coff % 512
    ensures Stream(g, d, cur, coff, rem)
         == d[g.ClusterLba(cur) + coff / 512][coff % 512..coff % 512 + t] + StreamAfter(g, d, cur, coff + t, rem - t)
  {
    var k := Min(512 - coff % 512, rem);
    if t < k {
      SameSector(g, coff, t);
      var sec := d[g.ClusterLba(cur) + coff / 512];
      assert sec[coff % 512..coff % 512 + k] == sec[coff % 512..coff % 512 + t] + sec[coff % 512 + t..coff % 512 + k];
    }
  }

  /** The cursor is inside a cluster, or nothing is left to read. */
  predicate CursorOk(g: Geometry, f: OpenFile) {
    f.clusterOffset < g.ClusterSize() || f.fileSize <= f.fileOffset
  }

  /** Where an open file stands: what is left of its stream. */
  ghost function Remaining(g: Geometry, d: Image, f: OpenFile): (s: seq<Byte>)
    requires CursorOk(g, f)
  {
    if f.fileOffset < f.fileSize
    then Stream(g, d, f.currentCluster, f.clusterOffset, f.fileSize - f.fileOffset)
    else []
  }

  /** The cursor after t more bytes of the current sector. */
  function Advance(g: Geometry, d: Image, f: OpenFile, t: nat): (f2: OpenFile) {
    var moved := f.(fileOffset := f.fileOffset + t, clusterOffset := f.clusterOffset + t);
    if moved.clusterOffset >= g.ClusterSize()
    then moved.(currentCluster := NextCluster(g, d, f.currentCluster), clusterOffset := 0)
    else moved
  }

  lemma AdvanceRemaining(g: Geometry, d: Image, f: OpenFile, t: nat)
    requires f.clusterOffset < g.ClusterSize() && InChainRange(f.currentCluster)
    requires g.ClusterLba(f.currentCluster) + f.clusterOffset / 512 < |d|
    requires 0 < t <= f.fileSize - f.fileOffset && t <= 512 - f.clusterOffset % 512
    ensures var o := f.clusterOffset % 512;
            Remaining(g, d, f)
            == d[g.ClusterLba(f.currentCluster) + f.clusterOffset / 512][o..o + t]
              + Remaining(g, d, Advance(g, d, f, t))
  {
    hide Stream;
    StreamSplit(g, d, f.currentCluster, f.clusterOffset, f.fileSize - f.fileOffset, t);
    var next := if f.clusterOffset + t >= g.ClusterSize() then NextCluster(g, d, f.currentCluster) else 0;
    StreamEnds(g, d, next, 0);
    if f.clusterOffset + t < g.ClusterSize() {
      StreamOfNothing(g, d, f.currentCluster, f.clusterOffset + t);
    }
  }

  lemma StreamOfNothing(g: Geometry, d: Image, cluster: U16, coff: nat)
    requires coff < g.ClusterSize()
    ensures Stream(g, d, cluster, coff, 0) == []
  {
  }

  /** The effect of one read call: it takes the next bytes off the stream. */
  ghost predicate TookFromStream(g: Geometry, d: Image, f: OpenFile, f2: OpenFile, len: nat, out: seq<Byte>) {
    && CursorOk(g, f) && CursorOk(g, f2)
    && |out| == Min(len, |Remaining(g, d, f)|)
    && out + Remaining(g, d, f2) == Remaining(g, d, f)
    && f2 == f.(currentCluster := f2.currentCluster, clusterOffset := f2.clusterOffset,
                fileOffset := f.fileOffset + |out|)
  }

  /** The copy loops of the driver. */
  method CopyOver(buffer: array<Byte>, at: nat, src: seq<Byte>)
    requires at + |src| <= buffer.Length
    modifies buffer
    ensures buffer[..at + |src|] == old(buffer[..at]) + src
    ensures buffer[at + |src|..] == old(buffer[at + |src|..])
  {
    var i := 0;
    while i < |src|
      invariant 0 <= i <= |src|
      invariant buffer[..at] == old(buffer[..at]) && buffer[at..at + i] == src[..i]
      invariant buffer[at + i..] == old(buffer[at + i..])
    {
      buffer[at + i] := src[i];
      i := i + 1;
    }
  }

  /** The sector under the cursor can be read. */
  predicate Readable(g: Geometry, d: Image, f: OpenFile) {
    InChainRange(f.currentCluster) && g.ClusterLba(f.currentCluster) + f.clusterOffset / 512 < |d|
  }

  /** The next k bytes of the sector under the cursor. */
  function SectorPart(g: Geometry, d: Image, f: OpenFile, k: nat): (s: seq<Byte>)
    requires Readable(g, d, f) && f.clusterOffset % 512 + k <= 512
    ensures |s| == k
  {
    d[g.ClusterLba(f.currentCluster) + f.clusterOffset / 512][f.clusterOffset % 512..f.clusterOffset % 512 + k]
  }

  /** How much one round of fat_read takes. */
  function Portion(f: OpenFile, want: nat): (k: nat)
    requires f.fileOffset < f.fileSize && 0 < want
    ensures 0 < k <= want && k <= 512 - f.clusterOffset % 512 && k <= f.fileSize - f.fileOffset
  {
    Min(Min(512 - f.clusterOffset % 512, f.fileSize - f.fileOffset), want)
  }

  /** The effect of a read call on a cursor at or behind the end of its cluster: it takes one
      portion from the sector there, whoever owns it, and goes on at the next cluster. */
  ghost predicate TookBehind(g: Geometry, d: Image, f: OpenFile, f2: OpenFile, len: nat, out: seq<Byte>)
    requires f.fileOffset < f.fileSize
  {
    if len == 0 || !Readable(g, d, f) then out == [] && f2 == f
    else
      var k := Portion(f, len);
      && k <= |out| && out[..k] == SectorPart(g, d, f, k)
      && TookFromStream(g, d, Advance(g, d, f, k), f2, len - k, out[k..])
  }

  /** One round of fat_read's loop: the bytes of the current sector that are wanted and
      in the file, and the cursor behind them.  It fails only on an unreadable sector. */
  method ReadPart(g: Geometry, disk: Disk, f: OpenFile, want: nat) returns (ok: bool, f2: OpenFile, chunk: seq<Byte>)
    requires 0 < want && f.fileOffset < f.fileSize && InChainRange(f.currentCluster)
    ensures ok <==> Readable(g, disk.sectors, f)
    ensures !ok ==> f2 == f && chunk == []
    ensures ok ==>
      chunk == SectorPart(g, disk.sectors, f, Portion(f, want)) && f2 == Advance(g, disk.sectors, f, Portion(f, want))
  {
    var clusterSize := g.spc * 512;
    var sectorInCluster := f.clusterOffset / 512;
    var offsetInSector := f.clusterOffset % 512;
    var clusterLba := g.ClusterLba(f.currentCluster);
    if clusterLba + sectorInCluster >= |disk.sectors| {
      return false, f, [];
    }
    var sectorBuf := disk.sectors[clusterLba + sectorInCluster];
    var toCopy := 512 - offsetInSector;
    if f.fileSize - f.fileOffset < toCopy {
      toCopy := f.fileSize - f.fileOffset;
    }
    if want < toCopy {
      toCopy := want;
    }
    f2 := f.(fileOffset := f.fileOffset + toCopy, clusterOffset := f.clusterOffset + toCopy);
    if f2.clusterOffset >= clusterSize {
      f2 := f2.(currentCluster := NextCluster(g, disk.sectors, f.currentCluster), clusterOffset := 0);
    }
    return true, f2, sectorBuf[offsetInSector..offsetInSector + toCopy];
  }

  /** A round on a good cursor takes the next bytes of the stream. */
  lemma PartOfStream(g: Geometry, d: Image, f: OpenFile, want: nat)
    requires f.clusterOffset < g.ClusterSize() && 0 < want && f.fileOffset < f.fileSize
    requires InChainRange(f.currentCluster)
    ensures !Readable(g, d, f) ==> Remaining(g, d, f) == []
    ensures Readable(g, d, f) ==>
      var f2 := Advance(g, d, f, Portion(f, want));
      f2.clusterOffset < g.ClusterSize()
        && Remaining(g, d, f) == SectorPart(g, d, f, Portion(f, want)) + Remaining(g, d, f2)
  {
    if Readable(g, d, f) {
      hide Stream, Remaining;
      AdvanceRemaining(g, d, f, Portion(f, want));
    }
  }

  /** What fat_read's loop keeps. */
  ghost predicate ReadInv(g: Geometry, d: Image, f0: OpenFile, f: OpenFile, len: nat, r: nat, out: seq<Byte>) {
    && r <= len && |out| == r
    && if CursorOk(g, f0) then CursorOk(g, f) && TookFromStream(g, d, f0, f, r, out)
       else if r == 0 then f == f0
       else
         && CursorOk(g, f) && Readable(g, d, f0) && Portion(f0, len) <= r
         && out[..Portion(f0, len)] == SectorPart(g, d, f0, Portion(f0, len))
         && TookFromStream(g, d, Advance(g, d, f0, Portion(f0, len)), f, r - Portion(f0, len), out[Portion(f0, len)..])
  }

  lemma ReadMore(g: Geometry, d: Image, f0: OpenFile, f: OpenFile, f2: OpenFile, len: nat, r: nat, out: seq<Byte>,
                 chunk: seq<Byte>)
    requires g.Valid() && ReadInv(g, d, f0, f, len, r, out) && r < len && f.fileOffset < f.fileSize && Readable(g, d, f)
    requires chunk == SectorPart(g, d, f, Portion(f, len - r)) && f2 == Advance(g, d, f, Portion(f, len - r))
    ensures ReadInv(g, d, f0, f2, len, r + |chunk|, out + chunk)
  {
    hide Stream, Remaining, TookFromStream;
    if CursorOk(g, f) {
      PartOfStream(g, d, f, len - r);
      if CursorOk(g, f0) {
        TookMore(g, d, f0, f, f2, r, out, chunk);
      } else {
        var k := Portion(f0, len);
        assert (out + chunk)[..k] == out[..k] && (out + chunk)[k..] == out[k..] + chunk;
        TookMore(g, d, Advance(g, d, f0, k), f, f2, r - k, out[k..], chunk);
      }
    } else {
      assert out + chunk == chunk && chunk[|chunk|..] == [] && chunk[..|chunk|] == chunk;
      TookStart(g, d, f2);
    }
  }

  lemma ReadDone(g: Geometry, d: Image, f0: OpenFile, f: OpenFile, len: nat, r: nat, out: seq<Byte>)
    requires ReadInv(g, d, f0, f, len, r, out) && (r == len || f.fileOffset >= f.fileSize || !Readable(g, d, f))
    ensures Took(g, d, f0, f, len, out)
  {
    hide Stream, TookFromStream;
    if r < len && (CursorOk(g, f0) || r > 0) {
      NoneRemains(g, d, f);
      if CursorOk(g, f0) {
        TookAll(g, d, f0, f, r, len, out);
      } else {
        var k := Portion(f0, len);
        TookAll(g, d, Advance(g, d, f0, k), f, r - k, len - k, out[k..]);
      }
    }
  }

  /** The effect of one read call on any cursor. */
  ghost predicate Took(g: Geometry, d: Image, f: OpenFile, f2: OpenFile, len: nat, out: seq<Byte>) {
    if CursorOk(g, f) then TookFromStream(g, d, f, f2, len, out) else TookBehind(g, d, f, f2, len, out)
  }

  /** fat_read's loop, on the descriptor it was given. */
  method ReadLoop(g: Geometry, disk: Disk, f0: OpenFile, buffer: array<Byte>, len: nat) returns (f: OpenFile, r: nat)
    requires g.Valid() && len <= buffer.Length
    modifies buffer
    ensures r <= len && Took(g, disk.sectors, f0, f, len, buffer[..r]) && buffer[r..] == old(buffer[r..])
  {
    hide Stream, Took, TookFromStream, Remaining, ReadInv, CursorOk, Readable, Advance, SectorPart;
    ghost var buf0 := buffer[..];
    f, r := f0, 0;
    ReadNothing(g, disk.sectors, f0, len);
    assert buffer[..0] == [];
    while r < len && f.fileOffset < f.fileSize && InChainRange(f.currentCluster)
      invariant 0 <= r <= len
      invariant ReadInv(g, disk.sectors, f0, f, len, r, buffer[..r])
      invariant buffer[r..] == buf0[r..]
      decreases len - r
    {
      var ok, f2, chunk := ReadPart(g, disk, f, len - r);
      if !ok {
        ReadDone(g, disk.sectors, f0, f, len, r, buffer[..r]);
        return;
      }
      ReadMore(g, disk.sectors, f0, f, f2, len, r, buffer[..r], chunk);
      CopyOver(buffer, r, chunk);
      f, r := f2, r + |chunk|;
    }
    NotReadable(g, disk.sectors, f);
    ReadDone(g, disk.sectors, f0, f, len, r, buffer[..r]);
  }

  lemma ReadNothing(g: Geometry, d: Image, f: OpenFile, len: nat)
    ensures ReadInv(g, d, f, f, len, 0, [])
  {
    hide Stream;
    if CursorOk(g, f) { TookStart(g, d, f); }
  }

  lemma NotReadable(g: Geometry, d: Image, f: OpenFile)
    ensures !InChainRange(f.currentCluster) ==> !Readable(g, d, f)
  {
  }

  /** fat_read. */
  method Read(g: Geometry, disk: Disk, files: array<OpenFile>, fd: int, buffer: array<Byte>, len: nat) returns (r: int)
    requires g.Valid() && files.Length == MAX_OPEN_FILES && len <= buffer.Length
    modifies files, buffer
    ensures !ValidFd(old(files[..]), fd) ==> r == -1 && files[..] == old(files[..]) && buffer[..] == old(buffer[..])
    ensures ValidFd(old(files[..]), fd) ==>
      var i := fd - FAT_FD_BASE;
      && 0 <= r <= len
      && Took(g, disk.sectors, old(files[i]), files[i], len, buffer[..r])
      && files[..] == old(files[..])[i := files[i]]
      && buffer[r..] == old(buffer[r..])
  {
    hide Stream, Took, TookFromStream, Remaining;
    var index := fd - FAT_FD_BASE;
    if index < 0 || index >= MAX_OPEN_FILES || !files[index].inUse {
      return -1;
    }
    var f;
    f, r := ReadLoop(g, disk, files[index], buffer, len);
    files[index] := f;
  }

  lemma TookStart(g: Geometry, d: Image, f: OpenFile)
    requires CursorOk(g, f)
    ensures TookFromStream(g, d, f, f, 0, [])
  {
    assert [] + Remaining(g, d, f) == Remaining(g, d, f);
  }

  lemma TookMore(g: Geometry, d: Image, f0: OpenFile, f: OpenFile, f2: OpenFile, n: nat, out: seq<Byte>,
                 chunk: seq<Byte>)
    requires TookFromStream(g, d, f0, f, n, out) && CursorOk(g, f) && CursorOk(g, f2) && |out| == n
    requires Remaining(g, d, f) == chunk + Remaining(g, d, f2)
    requires f2 == f.(currentCluster := f2.currentCluster, clusterOffset := f2.clusterOffset,
                      fileOffset := f.fileOffset + |chunk|)
    ensures TookFromStream(g, d, f0, f2, n + |chunk|, out + chunk)
  {
    hide Remaining;
    Assoc(out, chunk, Remaining(g, d, f2));
  }

  lemma TookAll(g: Geometry, d: Image, f0: OpenFile, f: OpenFile, n: nat, len: nat, out: seq<Byte>)
    requires TookFromStream(g, d, f0, f, n, out) && CursorOk(g, f) && Remaining(g, d, f) == [] && |out| == n <= len
    ensures TookFromStream(g, d, f0, f, len, out)
  {
    hide Remaining;
    assert out + [] == out;
  }

  lemma NoneRemains(g: Geometry, d: Image, f: OpenFile)
    requires CursorOk(g, f) && (f.fileOffset >= f.fileSize || !Readable(g, d, f))
    ensures Remaining(g, d, f) == []
  {
  }

  /** The inner loop of fat_read_file: the sectors of one cluster, as far as the file goes. */
  method ReadCluster(g: Geometry, disk: Disk, cluster: U16, want: nat) returns (ok: bool, chunk: seq<Byte>)
    requires g.Valid() && InChainRange(cluster) && 0 < want
    ensures |chunk| <= want
    ensures !ok ==> chunk == Stream(g, disk.sectors, cluster, 0, want)
    ensures ok ==> 0 < |chunk|
    ensures ok ==>
      Stream(g, disk.sectors, cluster, 0, want)
      == chunk + Stream(g, disk.sectors, NextCluster(g, disk.sectors, cluster), 0, want - |chunk|)
  {
    hide Stream, StreamAfter;
    var clusterLba := g.ClusterLba(cluster);
    ghost var d, all := disk.sectors, Stream(g, disk.sectors, cluster, 0, want);
    chunk := [];
    var s := 0;
    StreamFrom(g, d, cluster, 0, want);
    assert [] + all == all;
    while s < g.spc && |chunk| < want
      invariant 0 <= s <= g.spc && |chunk| <= want && (s > 0 ==> |chunk| > 0)
      invariant chunk + StreamAfter(g, d, cluster, s * 512, want - |chunk|) == all
    {
      StreamFrom(g, d, cluster, s * 512, want - |chunk|);
      if clusterLba + s >= |disk.sectors| {
        return false, chunk;
      }
      var toCopy := Min(want - |chunk|, 512);
      var part := disk.sectors[clusterLba + s][..toCopy];
      NextSector(g, d, cluster, s, want - |chunk|, toCopy, part);
      Assoc(chunk, part, StreamAfter(g, d, cluster, (s + 1) * 512, want - |chunk| - toCopy));
      chunk := chunk + part;
      s := s + 1;
    }
    ClusterDone(g, d, cluster, s, want - |chunk|);
    return true, chunk;
  }

  lemma StreamFrom(g: Geometry, d: Image, cluster: U16, coff: nat, rem: nat)
    requires coff < g.ClusterSize()
    ensures StreamAfter(g, d, cluster, coff, rem) == Stream(g, d, cluster, coff, rem)
    ensures InChainRange(cluster) && g.ClusterLba(cluster) + coff / 512 >= |d| ==>
      Stream(g, d, cluster, coff, rem) == []
  {
  }

  /** A whole sector, or what is left of the file, comes off the stream. */
  lemma NextSector(g: Geometry, d: Image, cluster: U16, s: nat, rem: nat, t: nat, part: seq<Byte>)
    requires g.Valid() && InChainRange(cluster) && s < g.spc && g.ClusterLba(cluster) + s < |d| && rem > 0
    requires t == Min(rem, 512) && part == d[g.ClusterLba(cluster) + s][..t]
    ensures Stream(g, d, cluster, s * 512, rem) == part + StreamAfter(g, d, cluster, (s + 1) * 512, rem - t)
  {
    hide Stream, StreamAfter;
    StreamSplit(g, d, cluster, s * 512, rem, t);
    if t < 512 {
      NothingLeft(g, d, cluster, s * 512 + t);
      NothingLeft(g, d, cluster, (s + 1) * 512);
    }
  }

  lemma ClusterDone(g: Geometry, d: Image, cluster: U16, s: nat, rem: nat)
    requires g.Valid() && s <= g.spc && (s == g.spc || rem == 0)
    ensures StreamAfter(g, d, cluster, s * 512, rem) == Stream(g, d, NextCluster(g, d, cluster), 0, rem)
  {
    if rem == 0 {
      NothingLeft(g, d, cluster, s * 512);
    }
  }

  /** The body of fat_read_file once the directory entry is known. */
  method ReadWhole(g: Geometry, disk: Disk, first: U16, fileSize: nat, buffer: array<Byte>) returns (r: nat)
    requires g.Valid() && fileSize <= buffer.Length
    modifies buffer
    ensures r <= fileSize && buffer[..r] == Stream(g, disk.sectors, first, 0, fileSize)
    ensures buffer[r..] == old(buffer[r..])
  {
    hide Stream, StreamAfter, NextCluster, InChainRange;
    ghost var all, buf0 := Stream(g, disk.sectors, first, 0, fileSize), buffer[..];
    var bytesRead := 0;
    var cluster := first;
    assert buffer[..0] + all == all;
    while InChainRange(cluster) && bytesRead < fileSize
      invariant 0 <= bytesRead <= fileSize
      invariant buffer[..bytesRead] + Stream(g, disk.sectors, cluster, 0, fileSize - bytesRead) == all
      invariant buffer[bytesRead..] == buf0[bytesRead..]
      decreases fileSize - bytesRead
    {
      var ok, chunk := ReadCluster(g, disk, cluster, fileSize - bytesRead);
      ghost var rest := Stream(g, disk.sectors, NextCluster(g, disk.sectors, cluster), 0,
        fileSize - bytesRead - |chunk|);
      ghost var front := buffer[..bytesRead];
      Assoc(front, chunk, rest);
      CopyOver(buffer, bytesRead, chunk);
      RestKept(buf0, bytesRead, |chunk|);
      bytesRead := bytesRead + |chunk|;
      assert buffer[..bytesRead] == front + chunk;
      if !ok {
        assert all == front + chunk;
        return bytesRead;
      }
      assert all == buffer[..bytesRead] + rest;
      cluster := NextCluster(g, disk.sectors, cluster);
    }
    StreamEnds(g, disk.sectors, cluster, fileSize - bytesRead);
    assert buffer[..bytesRead] + [] == buffer[..bytesRead];
    return bytesRead;
  }

  lemma RestKept<T>(s: seq<T>, at: nat, n: nat)
    requires at + n <= |s|
    ensures s[at..][n..] == s[at + n..]
  {
  }

  lemma StreamEnds(g: Geometry, d: Image, cluster: U16, rem: nat)
    requires 0 < g.ClusterSize() && (!InChainRange(cluster) || rem == 0)
    ensures Stream(g, d, cluster, 0, rem) == []
  {
  }

  // ------------------------------------------------------------------ reading in pieces

  function Concat(parts: seq<seq<Byte>>): seq<Byte> {
    if parts == [] then [] else Concat(parts[..|parts| - 1]) + parts[|parts| - 1]
  }

  /** A run of read calls on one descriptor: call i takes it from fs[i] to fs[i + 1]. */
  ghost predicate ReadRun(g: Geometry, d: Image, fs: seq<OpenFile>, lens: seq<nat>, outs: seq<seq<Byte>>) {
    && |fs| == |lens| + 1 && |outs| == |lens|
    && forall i :: 0 <= i < |lens| ==> TookFromStream(g, d, fs[i], fs[i + 1], lens[i], outs[i])
  }

  lemma {:induction false} RunConserves(g: Geometry, d: Image, fs: seq<OpenFile>, lens: seq<nat>, outs: seq<seq<Byte>>)
    requires ReadRun(g, d, fs, lens, outs)
    requires CursorOk(g, fs[0])
    ensures CursorOk(g, fs[|lens|])
    ensures Concat(outs) + Remaining(g, d, fs[|lens|]) == Remaining(g, d, fs[0])
    ensures (forall i :: 0 <= i < |outs| ==> outs[i] != []) ==> |outs| <= |Concat(outs)|
    decreases |lens|
  {
    var n := |lens|;
    if n > 0 {
      RunConserves(g, d, fs[..n], lens[..n - 1], outs[..n - 1]);
      assert TookFromStream(g, d, fs[n - 1], fs[n], lens[n - 1], outs[n - 1]);
      Assoc(Concat(outs[..n - 1]), outs[n - 1], Remaining(g, d, fs[n]));
    }
  }

  /** On every image: reading a freshly opened file in positive pieces until a read returns
      nothing yields exactly the bytes fat_read_file copies. */
  lemma ChunkedReadsAreWholeFile(g: Geometry, d: Image, fs: seq<OpenFile>, lens: seq<nat>, outs: seq<seq<Byte>>)
    requires g.Valid() && ReadRun(g, d, fs, lens, outs) && |lens| > 0
    requires fs[0].clusterOffset == 0 && fs[0].fileOffset == 0 && fs[0].currentCluster == fs[0].firstCluster
    requires lens[|lens| - 1] > 0 && outs[|outs| - 1] == []
    ensures Concat(outs) == Stream(g, d, fs[0].firstCluster, 0, fs[0].fileSize)
  {
    hide Stream, Concat;
    RunConserves(g, d, fs, lens, outs);
    var n := |lens|;
    assert TookFromStream(g, d, fs[n - 1], fs[n], lens[n - 1], outs[n - 1]);
    TookNothing(g, d, fs[n - 1], fs[n], lens[n - 1]);
    assert Concat(outs) + [] == Concat(outs);
    WholeStream(g, d, fs[0]);
  }

  /** A read of nothing leaves nothing. */
  lemma TookNothing(g: Geometry, d: Image, f: OpenFile, f2: OpenFile, n: nat)
    requires n > 0 && CursorOk(g, f) && CursorOk(g, f2) && TookFromStream(g, d, f, f2, n, [])
    ensures Remaining(g, d, f2) == []
  {
    hide Stream;
    assert [] + Remaining(g, d, f2) == Remaining(g, d, f2);
  }

  lemma WholeStream(g: Geometry, d: Image, f: OpenFile)
    requires g.Valid() && f.clusterOffset == 0 && f.fileOffset == 0 && f.currentCluster == f.firstCluster
    ensures Remaining(g, d, f) == Stream(g, d, f.firstCluster, 0, f.fileSize)
  {
  }

  /** On every image a file of size n gives at most n non-empty reads, so a read of nothing
      comes after at most n + 1 calls. */
  lemma ReadsRunDry(g: Geometry, d: Image, fs: seq<OpenFile>, lens: seq<nat>, outs: seq<seq<Byte>>)
    requires g.Valid() && ReadRun(g, d, fs, lens, outs)
    requires CursorOk(g, fs[0]) && fs[0].fileOffset <= fs[0].fileSize
    requires |lens| > fs[0].fileSize - fs[0].fileOffset
    ensures exists i :: 0 <= i < |outs| && outs[i] == []
  {
    RunConserves(g, d, fs, lens, outs);
  }

  // ------------------------------------------------------------- the bytes of a chain

  function ClusterBytes(g: Geometry, d: Image, c: int): (s: seq<Byte>)
    requires g.Fits(d) && g.IsCluster(c)
    ensures |s| == g.ClusterSize()
    ensures forall i :: 0 <= i < g.ClusterSize() ==> s[i] == ClusterByte(g, d, c, i)
  {
    seq(g.ClusterSize(), i requires 0 <= i < g.ClusterSize() => ClusterByte(g, d, c, i))
  }

  predicate AllClusters(g: Geometry, ch: seq<U16>) {
    forall i :: 0 <= i < |ch| ==> g.IsCluster(ch[i])
  }

  /** The bytes stored in the clusters of a chain, in chain order. */
  function ChainBytes(g: Geometry, d: Image, ch: seq<U16>): (s: seq<Byte>)
    requires g.Fits(d) && AllClusters(g, ch)
  {
    if ch == [] then [] else ClusterBytes(g, d, ch[0]) + ChainBytes(g, d, ch[1..])
  }

  lemma {:induction false} ChainBytesLength(g: Geometry, d: Image, ch: seq<U16>)
    requires g.Fits(d) && AllClusters(g, ch)
    ensures |ChainBytes(g, d, ch)| == |ch| * g.ClusterSize()
    decreases |ch|
  {
    if ch != [] {
      ChainBytesLength(g, d, ch[1..]);
      assert |ch| * g.ClusterSize() == g.ClusterSize() + (|ch| - 1) * g.ClusterSize();
    }
  }

  lemma {:induction false} ChainBytesConcat(g: Geometry, d: Image, a: seq<U16>, b: seq<U16>)
    requires g.Fits(d) && AllClusters(g, a) && AllClusters(g, b)
    ensures AllClusters(g, a + b)
    ensures ChainBytes(g, d, a + b) == ChainBytes(g, d, a) + ChainBytes(g, d, b)
    decreases |a|
  {
    if a == [] {
      assert a + b == b;
    } else {
      assert (a + b)[1..] == a[1..] + b;
      ChainBytesConcat(g, d, a[1..], b);
      Assoc(ClusterBytes(g, d, a[0]), ChainBytes(g, d, a[1..]), ChainBytes(g, d, b));
    }
  }

  lemma {:induction false} ChainBytesFrame(g: Geometry, d: Image, d2: Image, ch: seq<U16>)
    requires g.Fits(d) && g.Fits(d2) && AllClusters(g, ch)
    requires forall i :: 0 <= i < |ch| ==> ClusterBytes(g, d2, ch[i]) == ClusterBytes(g, d, ch[i])
    ensures ChainBytes(g, d2, ch) == ChainBytes(g, d, ch)
    decreases |ch|
  {
    if ch != [] {
      assert ClusterBytes(g, d2, ch[0]) == ClusterBytes(g, d, ch[0]);
      forall i | 0 <= i < |ch[1..]| ensures ClusterBytes(g, d2, ch[1..][i]) == ClusterBytes(g, d, ch[1..][i]) {
        assert ch[1..][i] == ch[i + 1];
      }
      ChainBytesFrame(g, d, d2, ch[1..]);
    }
  }

  /** Part of a sector is a slice of its cluster. */
  lemma SectorSlice(g: Geometry, d: Image, c: U16, coff: nat, k: nat)
    requires g.Fits(d) && g.IsCluster(c) && coff < g.ClusterSize() && coff % 512 + k <= 512
    requires coff + k <= g.ClusterSize()
    ensures g.ClusterLba(c) + coff / 512 < |d|
    ensures d[g.ClusterLba(c) + coff / 512][coff % 512..coff % 512 + k] == ClusterBytes(g, d, c)[coff..coff + k]
  {
    ClusterSectors(g, d, c, coff / 512);
    var part := d[g.ClusterLba(c) + coff / 512][coff % 512..coff % 512 + k];
    forall i | 0 <= i < k ensures part[i] == ClusterByte(g, d, c, coff + i) {
      assert (coff + i) / 512 == coff / 512 && (coff + i) % 512 == coff % 512 + i;
    }
  }

  lemma ChainBytesSplit(g: Geometry, d: Image, ch: seq<U16>, j: nat)
    requires g.Fits(d) && AllClusters(g, ch) && j < |ch|
    ensures ChainBytes(g, d, ch[j..]) == ClusterBytes(g, d, ch[j]) + ChainBytes(g, d, ch[j + 1..])
  {
    assert ch[j..][1..] == ch[j + 1..];
  }

  lemma StreamInCluster(g: Geometry, d: Image, c: U16, coff: nat, rem: nat, k: nat)
    requires g.Fits(d) && g.IsCluster(c) && coff < g.ClusterSize() && 0 < rem && k == Min(512 - coff % 512, rem)
    ensures coff + k <= g.ClusterSize()
    ensures Stream(g, d, c, coff, rem)
      == ClusterBytes(g, d, c)[coff..coff + k] + StreamAfter(g, d, c, coff + k, rem - k)
  {
    SectorSlice(g, d, c, coff, k);
  }

  /** On a chain the stream of a cursor is the slice of the chain's bytes behind it, up to the
      end of the chain where the chain is too short. */
  lemma {:induction false} StreamOnChain(g: Geometry, d: Image, ch: seq<U16>, j: nat, coff: nat, rem: nat)
    requires g.Fits(d) && AllClusters(g, ch) && IsChain(Fat(g, d), ch) && j < |ch| && coff < g.ClusterSize()
    ensures coff < |ChainBytes(g, d, ch[j..])|
    ensures Stream(g, d, ch[j], coff, rem)
      == ChainBytes(g, d, ch[j..])[coff..Min(coff + rem, |ChainBytes(g, d, ch[j..])|)]
    decreases rem
  {
    hide Stream, StreamAfter, ChainBytes, ClusterBytes, Fat;
    ChainBytesSplit(g, d, ch, j);
    var own, rest := ClusterBytes(g, d, ch[j]), ChainBytes(g, d, ch[j + 1..]);
    if rem == 0 {
      StreamOfNothing(g, d, ch[j], coff);
    } else {
      var k, n := Min(512 - coff % 512, rem), Min(rem, |own + rest| - coff);
      StreamInCluster(g, d, ch[j], coff, rem, k);
      SliceAcross(own, rest, coff, k, n);
      if coff + k < |own| {
        StreamFrom(g, d, ch[j], coff + k, rem - k);
        StreamOnChain(g, d, ch, j, coff + k, rem - k);
      } else {
        NextIsFatEntry(g, d, ch[j]);
        ChainLink(Fat(g, d), ch, j);
        StreamNext(g, d, ch[j], coff + k, rem - k);
        if j + 1 < |ch| {
          StreamOnChain(g, d, ch, j + 1, 0, rem - k);
        } else {
          NoBytes(g, d, ch[j + 1..]);
          StreamEnds(g, d, NextCluster(g, d, ch[j]), rem - k);
        }
      }
    }
  }

  lemma NoBytes(g: Geometry, d: Image, ch: seq<U16>)
    requires g.Fits(d) && ch == []
    ensures ChainBytes(g, d, ch) == []
  {
  }

  lemma StreamNext(g: Geometry, d: Image, cluster: U16, coff: nat, rem: nat)
    requires 0 < g.ClusterSize() <= coff
    ensures StreamAfter(g, d, cluster, coff, rem) == Stream(g, d, NextCluster(g, d, cluster), 0, rem)
  {
  }

  // ------------------------------------------------------------------------------ seek

  /** Where fat_seek ends when it walks from a cluster: the cluster and the offset in it.
      At the end of the chain it stops on the last cluster, marked full. */
  function SeekWalk(g: Geometry, d: Image, cluster: U16, remaining: nat): (r: (U16, nat))
    requires 0 < g.ClusterSize()
    decreases remaining
  {
    if remaining < g.ClusterSize() then (cluster, remaining)
    else
      var next := NextCluster(g, d, cluster);
      if !InChainRange(next) then (cluster, g.ClusterSize()) else SeekWalk(g, d, next, remaining - g.ClusterSize())
  }

  /** fat_seek. */
  method Seek(g: Geometry, disk: Disk, files: array<OpenFile>, fd: int, offset: nat) returns (r: int)
    requires g.Valid() && files.Length == MAX_OPEN_FILES
    modifies files
    ensures r == 0 <==> ValidFd(old(files[..]), fd) && offset <= old(files[..])[fd - FAT_FD_BASE].fileSize
    ensures r != 0 ==> r == -1 && files[..] == old(files[..])
    ensures r == 0 ==>
      var i := fd - FAT_FD_BASE;
      var (cluster, rest) := SeekWalk(g, disk.sectors, old(files[i]).firstCluster, offset);
      files[..] == old(files[..])[i :=
        old(files[i]).(currentCluster := cluster, clusterOffset := rest, fileOffset := offset)]
  {
    var index := fd - FAT_FD_BASE;
    if index < 0 || index >= MAX_OPEN_FILES || !files[index].inUse {
      return -1;
    }
    var f := files[index];
    if offset > f.fileSize {
      return -1;
    }
    var clusterSize := g.spc * 512;
    var cluster := f.firstCluster;
    var remaining := offset;
    ghost var goal := SeekWalk(g, disk.sectors, cluster, remaining);
    while remaining >= clusterSize
      invariant 0 <= remaining
      invariant SeekWalk(g, disk.sectors, cluster, remaining) == goal
    {
      var next := NextCluster(g, disk.sectors, cluster);
      if !InChainRange(next) {
        remaining := clusterSize;
        break;
      }
      cluster := next;
      remaining := remaining - clusterSize;
    }
    assert goal == (cluster, remaining);
    files[index] := f.(currentCluster := cluster, clusterOffset := remaining, fileOffset := offset);
    return 0;
  }

  /** The chain has just enough clusters for a file of this size. */
  predicate Tight(g: Geometry, ch: seq<U16>, size: nat) {
    if ch == [] then size == 0
    else (|ch| - 1) * g.ClusterSize() < size <= |ch| * g.ClusterSize()
  }

  /** The content of a file: the first size bytes of its chain. */
  function Content(g: Geometry, d: Image, ch: seq<U16>, size: nat): (s: seq<Byte>)
    requires g.Fits(d) && AllClusters(g, ch) && Tight(g, ch, size)
    ensures |s| == size
  {
    ChainBytesLength(g, d, ch);
    ChainBytes(g, d, ch)[..size]
  }

  /** The cursor stands in cluster j of the chain; j is -1 for a file without clusters. */
  predicate CursorOn(g: Geometry, f: OpenFile, ch: seq<U16>, j: int) {
    if ch == [] then f.currentCluster == 0 && f.fileOffset == 0 && f.clusterOffset == 0 && j == -1
    else
      && 0 <= j < |ch| && f.currentCluster == ch[j]
      && f.clusterOffset <= g.ClusterSize() && f.fileOffset == j * g.ClusterSize() + f.clusterOffset
  }

  /** On a chain fat_seek finds the cluster that holds the offset; an offset at the end of
      a full last cluster stays on that cluster. */
  lemma {:induction false} SeekOnChain(g: Geometry, d: Image, ch: seq<U16>, i: nat, remaining: nat) returns (j: nat)
    requires g.Fits(d) && IsChain(Fat(g, d), ch) && i < |ch|
    requires remaining <= (|ch| - i) * g.ClusterSize()
    ensures i <= j < |ch|
    ensures var (cluster, rest) := SeekWalk(g, d, ch[i], remaining);
            && cluster == ch[j] && i * g.ClusterSize() + remaining == j * g.ClusterSize() + rest
            && (rest < g.ClusterSize() || (rest == g.ClusterSize() && j == |ch| - 1))
    decreases remaining
  {
    j := i;
    if remaining >= g.ClusterSize() {
      NextIsFatEntry(g, d, ch[i]);
      ChainLink(Fat(g, d), ch, i);
      ChainBytesFull(g, |ch| - i);
      ChainBytesFull(g, i + 1);
      if i + 1 < |ch| {
        j := SeekOnChain(g, d, ch, i + 1, remaining - g.ClusterSize());
      }
    }
  }

  ghost function Head(ch: seq<U16>): U16 {
    if ch == [] then 0 else ch[0]
  }

  /** The bytes of a chain from position p of cluster j on. */
  lemma ChainBytesFrom(g: Geometry, d: Image, ch: seq<U16>, j: nat, p: nat)
    requires g.Fits(d) && AllClusters(g, ch) && j < |ch| && p <= g.ClusterSize()
    ensures |ChainBytes(g, d, ch[j..])| == |ChainBytes(g, d, ch)| - j * g.ClusterSize() >= p
    ensures ChainBytes(g, d, ch[j..])[p..] == ChainBytes(g, d, ch)[j * g.ClusterSize() + p..]
  {
    assert ch[..j] + ch[j..] == ch;
    ChainBytesConcat(g, d, ch[..j], ch[j..]);
    ChainBytesLength(g, d, ch[..j]);
    ChainBytesSplit(g, d, ch, j);
  }

  /** Behind the end of a chain fat_seek stops on its last cluster, marked full. */
  lemma {:induction false} SeekPastChain(g: Geometry, d: Image, ch: seq<U16>, i: nat, remaining: nat)
    requires g.Fits(d) && IsChain(Fat(g, d), ch) && i < |ch| && remaining >= (|ch| - i) * g.ClusterSize()
    ensures SeekWalk(g, d, ch[i], remaining) == (ch[|ch| - 1], g.ClusterSize())
    decreases |ch| - i
  {
    SeekStep(g, d, ch, i, remaining);
    hide *;
    if i + 1 < |ch| {
      SeekPastChain(g, d, ch, i + 1, remaining - g.ClusterSize());
    }
  }

  lemma SeekStep(g: Geometry, d: Image, ch: seq<U16>, i: nat, remaining: nat)
    requires g.Fits(d) && IsChain(Fat(g, d), ch) && i < |ch| && remaining >= (|ch| - i) * g.ClusterSize()
    ensures remaining >= g.ClusterSize()
    ensures i + 1 == |ch| ==> SeekWalk(g, d, ch[i], remaining) == (ch[i], g.ClusterSize())
    ensures i + 1 < |ch| ==>
      && SeekWalk(g, d, ch[i], remaining) == SeekWalk(g, d, ch[i + 1], remaining - g.ClusterSize())
      && remaining - g.ClusterSize() >= (|ch| - (i + 1)) * g.ClusterSize()
  {
    hide Fat;
    OneFewer(|ch| - i, g.ClusterSize(), remaining);
    LastOrNext(g, d, ch, i);
    hide IsChain, NextCluster;
    assert |ch| - i - 1 == |ch| - (i + 1);
  }

  lemma OneFewer(n: nat, m: nat, r: nat)
    requires n > 0 && r >= n * m
    ensures r >= m && r - m >= (n - 1) * m
  {
    assert (n - 1) * m + m == n * m;
  }

  lemma LastOrNext(g: Geometry, d: Image, ch: seq<U16>, i: nat)
    requires g.Fits(d) && IsChain(Fat(g, d), ch) && i < |ch|
    ensures if i + 1 < |ch| then NextCluster(g, d, ch[i]) == ch[i + 1] && InChainRange(ch[i + 1])
      else !InChainRange(NextCluster(g, d, ch[i]))
  {
    NextIsFatEntry(g, d, ch[i]);
    ChainLink(Fat(g, d), ch, i);
  }

  /** The stored part of a file: as many of its bytes as its chain has room for. */
  function Stored(g: Geometry, d: Image, ch: seq<U16>, size: nat): (s: seq<Byte>)
    requires g.Fits(d) && AllClusters(g, ch)
    ensures |s| == Min(size, |ch| * g.ClusterSize())
  {
    ChainBytesLength(g, d, ch);
    ChainBytes(g, d, ch)[..Min(size, |ch| * g.ClusterSize())]
  }

  /** A cursor inside a cluster of a chain has the rest of what is stored before it. */
  lemma CursorRemaining(g: Geometry, d: Image, ch: seq<U16>, f: OpenFile, j: nat)
    requires g.Fits(d) && IsChain(Fat(g, d), ch) && AllClusters(g, ch)
    requires j < |ch| && CursorOn(g, f, ch, j) && f.clusterOffset < g.ClusterSize() && f.fileOffset <= f.fileSize
    ensures f.fileOffset <= |Stored(g, d, ch, f.fileSize)|
    ensures Remaining(g, d, f) == Stored(g, d, ch, f.fileSize)[f.fileOffset..]
  {
    hide Stream, ChainBytes, Fat;
    var left, all := f.fileSize - f.fileOffset, ChainBytes(g, d, ch);
    ChainBytesLength(g, d, ch);
    ChainBytesFrom(g, d, ch, j, f.clusterOffset);
    StreamOnChain(g, d, ch, j, f.clusterOffset, left);
    var n := Min(left, |all| - f.fileOffset);
    SliceTwice(ChainBytes(g, d, ch[j..]), f.clusterOffset, n);
    SliceTwice(all, f.fileOffset, n);
  }

  /** The cursor that fat_seek leaves. */
  ghost predicate Sought(g: Geometry, d: Image, f: OpenFile, o: nat, f1: OpenFile) {
    0 < g.ClusterSize() && o <= f.fileSize &&
    var (cluster, rest) := SeekWalk(g, d, f.firstCluster, o);
    f1 == f.(currentCluster := cluster, clusterOffset := rest, fileOffset := o)
  }

  /** After fat_seek(o) on a chain, long enough for the file or not, the cursor is good exactly
      when the chain reaches past o or o is the end of the file; then exactly the stored bytes
      from o on are left to read. */
  lemma SeekRemaining(g: Geometry, d: Image, ch: seq<U16>, f: OpenFile, o: nat, f1: OpenFile)
    requires g.Fits(d) && IsChain(Fat(g, d), ch) && AllClusters(g, ch) && ch != [] && f.firstCluster == ch[0]
    requires Sought(g, d, f, o, f1)
    ensures CursorOk(g, f1) <==> o < |ch| * g.ClusterSize() || o == f.fileSize
    ensures CursorOk(g, f1) && o < |ch| * g.ClusterSize() ==> Remaining(g, d, f1) == Stored(g, d, ch, f.fileSize)[o..]
    ensures o >= |ch| * g.ClusterSize() ==> f1.currentCluster == ch[|ch| - 1] && f1.clusterOffset == g.ClusterSize()
  {
    if o < |ch| * g.ClusterSize() {
      var j := SeekOnChain(g, d, ch, 0, o);
      ChainBytesFull(g, |ch|);
      CursorRemaining(g, d, ch, f1, j);
    } else {
      SeekPastChain(g, d, ch, 0, o);
    }
  }

  lemma ChainBytesFull(g: Geometry, n: nat)
    requires n > 0
    ensures (n - 1) * g.ClusterSize() + g.ClusterSize() == n * g.ClusterSize()
  {
  }

  /** fat_seek(o) followed by fat_read(n) on any complete chain whose clusters reach past o: the
      stored bytes from o to the smaller of o + n and what is stored. */
  lemma SeekThenReadStored(g: Geometry, d: Image, ch: seq<U16>, f: OpenFile, o: nat, f1: OpenFile, n: nat, f2: OpenFile,
                           out: seq<Byte>)
    requires g.Fits(d) && IsChain(Fat(g, d), ch) && AllClusters(g, ch) && ch != [] && f.firstCluster == ch[0]
    requires Sought(g, d, f, o, f1) && Took(g, d, f1, f2, n, out) && o < |ch| * g.ClusterSize()
    ensures o <= |Stored(g, d, ch, f.fileSize)|
    ensures out == Stored(g, d, ch, f.fileSize)[o..Min(o + n, |Stored(g, d, ch, f.fileSize)|)]
  {
    hide *;
    SeekRemaining(g, d, ch, f, o, f1);
    TookIs(g, d, f1, f2, n, out);
    StoredReaches(g, d, ch, f, o, f1);
    MinIs(n, |Stored(g, d, ch, f.fileSize)| - o);
    MinIs(o + n, |Stored(g, d, ch, f.fileSize)|);
    SliceTwice(Stored(g, d, ch, f.fileSize), o, |out|);
  }

  lemma MinIs(a: int, b: int)
    ensures Min(a, b) == if a < b then a else b
  {
  }

  lemma TookIs(g: Geometry, d: Image, f: OpenFile, f2: OpenFile, n: nat, out: seq<Byte>)
    requires Took(g, d, f, f2, n, out) && CursorOk(g, f)
    ensures |out| == Min(n, |Remaining(g, d, f)|) && out == Remaining(g, d, f)[..|out|]
  {
    hide Remaining;
  }

  lemma StoredReaches(g: Geometry, d: Image, ch: seq<U16>, f: OpenFile, o: nat, f1: OpenFile)
    requires g.Fits(d) && AllClusters(g, ch) && Sought(g, d, f, o, f1) && o < |ch| * g.ClusterSize()
    ensures o <= |Stored(g, d, ch, f.fileSize)|
  {
  }

  /** Otherwise, short of the end of the file, the read gives the first bytes of the sector
      behind the chain's last cluster, whoever owns that sector, and no more. */
  lemma SeekThenReadBehind(g: Geometry, d: Image, ch: seq<U16>, f: OpenFile, o: nat, f1: OpenFile, n: nat, f2: OpenFile,
                           out: seq<Byte>)
    requires g.Fits(d) && IsChain(Fat(g, d), ch) && AllClusters(g, ch) && ch != [] && f.firstCluster == ch[0]
    requires Sought(g, d, f, o, f1) && Took(g, d, f1, f2, n, out) && |ch| * g.ClusterSize() <= o < f.fileSize
    ensures var lba, k := g.ClusterLba(ch[|ch| - 1]) + g.spc, Min(Min(512, f.fileSize - o), n);
            out == if lba < |d| then d[lba][..k] else []
    ensures g.IsCluster(ch[|ch| - 1] + 1) ==>
      out == ClusterBytes(g, d, ch[|ch| - 1] + 1)[..Min(Min(512, f.fileSize - o), n)]
  {
    hide *;
    SeekRemaining(g, d, ch, f, o, f1);
    SoughtIs(g, d, f, o, f1);
    BehindEnds(g, d, ch, f1, if n > 0 then Portion(f1, n) else 0);
    LastIsCluster(g, ch);
    BehindOut(g, d, f1, f2, n, out);
    MinIs(512, f.fileSize - o);
    MinIs(Min(512, f.fileSize - o), n);
    var next: int := ch[|ch| - 1] as int + 1;
    if g.IsCluster(next) {
      FirstSector(g, d, ch[|ch| - 1], Min(Min(512, f.fileSize - o), n));
    }
  }

  lemma LastIsCluster(g: Geometry, ch: seq<U16>)
    requires AllClusters(g, ch) && ch != []
    ensures g.IsCluster(ch[|ch| - 1])
  {
  }

  lemma SoughtIs(g: Geometry, d: Image, f: OpenFile, o: nat, f1: OpenFile)
    requires Sought(g, d, f, o, f1)
    ensures f1.fileSize == f.fileSize && f1.fileOffset == o
  {
    hide SeekWalk;
  }

  lemma BehindOut(g: Geometry, d: Image, f: OpenFile, f2: OpenFile, n: nat, out: seq<Byte>)
    requires g.Valid() && f.fileOffset < f.fileSize && f.clusterOffset == g.ClusterSize() && Took(g, d, f, f2, n, out)
    requires InChainRange(f.currentCluster)
    requires n > 0 ==>
      CursorOk(g, Advance(g, d, f, Portion(f, n))) && Remaining(g, d, Advance(g, d, f, Portion(f, n))) == []
    ensures var lba, k := g.ClusterLba(f.currentCluster) + g.spc, Min(Min(512, f.fileSize - f.fileOffset), n);
            out == if lba < |d| then d[lba][..k] else []
  {
    hide Stream, Remaining, NextCluster;
    assert g.ClusterSize() / 512 == g.spc && g.ClusterSize() % 512 == 0;
    if n > 0 && Readable(g, d, f) {
      var k := Portion(f, n);
      assert out == out[..k] + out[k..];
    }
  }

  lemma BehindEnds(g: Geometry, d: Image, ch: seq<U16>, f: OpenFile, k: nat)
    requires g.Fits(d) && IsChain(Fat(g, d), ch) && ch != [] && f.currentCluster == ch[|ch| - 1]
    requires f.clusterOffset == g.ClusterSize()
    ensures CursorOk(g, Advance(g, d, f, k)) && Remaining(g, d, Advance(g, d, f, k)) == []
    ensures g.Valid() && InChainRange(f.currentCluster)
  {
    LastOrNext(g, d, ch, |ch| - 1);
    hide Stream, IsChain, Fat;
    NoneRemains(g, d, Advance(g, d, f, k));
  }

  lemma FirstSector(g: Geometry, d: Image, c: U16, k: nat)
    requires g.Fits(d) && g.IsCluster(c) && g.IsCluster(c + 1) && k <= 512
    ensures g.ClusterLba(c) + g.spc < |d| && k <= g.ClusterSize()
    ensures d[g.ClusterLba(c) + g.spc][..k] == ClusterBytes(g, d, c + 1)[..k]
  {
    SectorSlice(g, d, c + 1, 0, k);
    assert g.ClusterLba(c + 1) == g.ClusterLba(c) + g.spc;
  }

  /** fat_seek(o) followed by fat_read(n) on a well-formed file reads content[o..min(o+n,size)]. */
  lemma SeekThenRead(g: Geometry, d: Image, ch: seq<U16>, f: OpenFile, o: nat, f1: OpenFile, n: nat, f2: OpenFile,
                     out: seq<Byte>)
    requires g.Fits(d) && IsChain(Fat(g, d), ch) && AllClusters(g, ch) && Tight(g, ch, f.fileSize)
    requires f.firstCluster == Head(ch) && Sought(g, d, f, o, f1) && Took(g, d, f1, f2, n, out)
    ensures out == Content(g, d, ch, f.fileSize)[o..Min(o + n, f.fileSize)]
  {
    hide Stream, SeekWalk, IsChain, Fat, ChainBytes;
    if ch != [] && o < |ch| * g.ClusterSize() {
      SeekThenReadStored(g, d, ch, f, o, f1, n, f2, out);
    } else {
      NoneRemains(g, d, f1);
    }
  }
}
