/**
  The first-fit heap of the kernel and its twin in the user library.  The list of blocks is
  a sequence that tiles the heap's region; the headers in memory represent it.
*/
module Heap {
  import opened Common

  const HEADER := 16
  const ALIGNMENT := 8
  const MIN_SPLIT := 16

  datatype Block = Block(size: nat, free: bool)

  /** Rounding a request up to a multiple of eight, in 32 bits. */
  function AlignUp(size: nat): (r: nat)
    requires size < TWO_32
    ensures r % ALIGNMENT == 0
  {
    (size + 7) % TWO_32 / ALIGNMENT * ALIGNMENT
  }

  /** A request is rounded up, not down to nothing, exactly when it is at most 2^32 - 8. */
  lemma AlignUpEnough(size: nat)
    requires size < TWO_32
    ensures AlignUp(size) >= size <==> size <= TWO_32 - 8
    ensures size <= TWO_32 - 8 ==> AlignUp(size) < size + 8
  {
  }

  // ---------------------------------------------------------------------- lists of blocks

  /** How far block k is from the start of the region. */
  function Offset(bs: seq<Block>, k: nat): (r: nat)
    requires k <= |bs|
  {
    if k == 0 then 0 else Offset(bs, k - 1) + HEADER + bs[k - 1].size
  }

  predicate NoFreePair(bs: seq<Block>) {
    forall k :: 0 <= k < |bs| - 1 ==> !(bs[k].free && bs[k + 1].free)
  }

  /** The blocks tile the region exactly, and no two neighbours are both free. */
  predicate Tiles(bs: seq<Block>, total: nat) {
    bs != [] && Offset(bs, |bs|) == total && NoFreePair(bs)
  }

  predicate Fits(b: Block, size: nat) {
    b.free && b.size >= size
  }

  /** The first block a request fits in; the number of blocks if there is none. */
  function FirstFit(bs: seq<Block>, size: nat): (k: nat)
    ensures k <= |bs| && (k < |bs| ==> Fits(bs[k], size))
    ensures forall j :: 0 <= j < k ==> !Fits(bs[j], size)
  {
    if bs == [] || Fits(bs[0], size) then 0 else 1 + FirstFit(bs[1..], size)
  }

  /** Cutting block k so that its first part holds size bytes. */
  function Cut(bs: seq<Block>, k: nat, size: nat): (r: seq<Block>)
    requires k < |bs| && size + HEADER <= bs[k].size
    ensures |r| == |bs| + 1
  {
    bs[..k] + [Block(size, bs[k].free), Block(bs[k].size - size - HEADER, true)] + bs[k + 1..]
  }

  /** Joining block k with the one after it. */
  function Join(bs: seq<Block>, k: nat): (r: seq<Block>)
    requires k + 1 < |bs|
    ensures |r| == |bs| - 1
  {
    bs[..k] + [Block(bs[k].size + HEADER + bs[k + 1].size, bs[k].free)] + bs[k + 2..]
  }

  predicate Splits(b: Block, size: nat) {
    b.size >= size + HEADER + MIN_SPLIT
  }

  /** The list after block k is handed out for size bytes. */
  function Taken(bs: seq<Block>, k: nat, size: nat): (r: seq<Block>)
    requires k < |bs| && Fits(bs[k], size)
  {
    var cs := if Splits(bs[k], size) then Cut(bs, k, size) else bs;
    cs[k := cs[k].(free := false)]
  }

  /** The list after block k is given back, and the place of the block it is then part of. */
  function Freed(bs: seq<Block>, k: nat): (r: seq<Block>)
    requires k < |bs|
  {
    var bs1 := bs[k := bs[k].(free := true)];
    var bs2 := if k + 1 < |bs1| && bs1[k + 1].free then Join(bs1, k) else bs1;
    if k > 0 && bs2[k - 1].free then Join(bs2, k - 1) else bs2
  }

  // ---------------------------------------------------------------------------- offsets

  lemma {:induction false} OffsetPrefix(bs: seq<Block>, cs: seq<Block>, k: nat)
    requires k <= |bs| && k <= |cs| && forall j :: 0 <= j < k ==> bs[j].size == cs[j].size
    ensures Offset(bs, k) == Offset(cs, k)
    decreases k
  {
    if k > 0 {
      OffsetPrefix(bs, cs, k - 1);
    }
  }

  lemma {:induction false} OffsetGrows(bs: seq<Block>, j: nat, k: nat)
    requires j < k <= |bs|
    ensures Offset(bs, j) + HEADER + bs[j].size <= Offset(bs, k)
    decreases k
  {
    if j < k - 1 {
      OffsetGrows(bs, j, k - 1);
    }
  }

  /** Cutting a block moves no block but the new one. */
  lemma {:induction false} CutOffsets(bs: seq<Block>, k: nat, size: nat, j: nat)
    requires k < |bs| && size + HEADER <= bs[k].size && j <= |bs|
    ensures var cs := Cut(bs, k, size);
            && (if j <= k then Offset(cs, j) == Offset(bs, j) else Offset(cs, j + 1) == Offset(bs, j))
            && Offset(cs, k + 1) == Offset(bs, k) + HEADER + size
    decreases j
  {
    var cs := Cut(bs, k, size);
    OffsetPrefix(bs, cs, k);
    if j > k + 1 {
      CutOffsets(bs, k, size, j - 1);
      assert cs[j] == bs[j - 1];
    } else if j <= k {
      OffsetPrefix(bs, cs, j);
    }
  }

  /** Joining undoes cutting, so it moves no block either. */
  lemma JoinIsUncut(bs: seq<Block>, k: nat)
    requires k + 1 < |bs| && bs[k + 1].free
    ensures var js := Join(bs, k); bs[k].size + HEADER <= js[k].size && Cut(js, k, bs[k].size) == bs
  {
  }

  lemma JoinOffsets(bs: seq<Block>, k: nat, j: nat)
    requires k + 1 < |bs| && bs[k + 1].free && j < |bs|
    ensures var js := Join(bs, k); Offset(js, j) == if j <= k then Offset(bs, j) else Offset(bs, j + 1)
  {
    JoinIsUncut(bs, k);
    CutOffsets(Join(bs, k), k, bs[k].size, j);
  }

  // ------------------------------------------------------------- what the operations keep

  lemma TakenTiles(bs: seq<Block>, total: nat, k: nat, size: nat)
    requires Tiles(bs, total) && k < |bs| && Fits(bs[k], size)
    ensures var cs := Taken(bs, k, size);
      Tiles(cs, total) && !cs[k].free && cs[k].size >= size && Offset(cs, k) == Offset(bs, k)
  {
    var cs := Taken(bs, k, size);
    if Splits(bs[k], size) {
      var ds := Cut(bs, k, size);
      CutOffsets(bs, k, size, |bs|);
      CutOffsets(bs, k, size, k);
      OffsetPrefix(ds, cs, |ds|);
      OffsetPrefix(ds, cs, k);
      TakenPairs(bs, k, size);
    } else {
      OffsetPrefix(bs, cs, |bs|);
      OffsetPrefix(bs, cs, k);
    }
  }

  lemma TakenPairs(bs: seq<Block>, k: nat, size: nat)
    requires NoFreePair(bs) && k < |bs| && Fits(bs[k], size) && Splits(bs[k], size)
    ensures NoFreePair(Taken(bs, k, size))
  {
    var cs := Taken(bs, k, size);
    forall j | 0 <= j < |cs| - 1 ensures !(cs[j].free && cs[j + 1].free) {
      if j < k - 1 {
        assert cs[j] == bs[j] && cs[j + 1] == bs[j + 1];
      } else if j == k + 1 {
        assert cs[j + 1] == bs[k + 1];
      } else if j > k + 1 {
        assert cs[j] == bs[j - 1] && cs[j + 1] == bs[j];
      }
    }
  }

  /** Giving back a block that was just taken restores the list exactly. */
  lemma FreedAfterTaken(bs: seq<Block>, k: nat, size: nat)
    requires NoFreePair(bs) && k < |bs| && Fits(bs[k], size)
    ensures Freed(Taken(bs, k, size), k) == bs
  {
    var cs := Taken(bs, k, size);
    var cs1 := cs[k := cs[k].(free := true)];
    if k > 0 {
      assert !bs[k - 1].free && cs[k - 1] == bs[k - 1];
    }
    if Splits(bs[k], size) {
      assert cs1 == Cut(bs, k, size);
      assert Join(cs1, k) == bs;
    } else {
      assert cs1 == bs;
      assert k + 1 < |bs| ==> !bs[k + 1].free;
    }
  }

  /** Block k may have free neighbours; no others are next to each other. */
  predicate FreePairsAt(bs: seq<Block>, k: nat) {
    forall j :: 0 <= j < |bs| - 1 && j != k && j + 1 != k ==> !(bs[j].free && bs[j + 1].free)
  }

  /** The same, with a free neighbour only before block k. */
  predicate FreePairBefore(bs: seq<Block>, k: nat) {
    forall j :: 0 <= j < |bs| - 1 && j + 1 != k ==> !(bs[j].free && bs[j + 1].free)
  }

  lemma FreedTiles(bs: seq<Block>, total: nat, k: nat)
    requires Tiles(bs, total) && k < |bs| && !bs[k].free
    ensures Tiles(Freed(bs, k), total)
  {
    hide Offset, Join, FreePairsAt, FreePairBefore, NoFreePair;
    var bs1 := bs[k := bs[k].(free := true)];
    OffsetPrefix(bs, bs1, |bs|);
    FreedPairs(bs, k);
    JoinedRight(bs1, total, k);
    var bs2 := if k + 1 < |bs1| && bs1[k + 1].free then Join(bs1, k) else bs1;
    if k > 0 && bs2[k - 1].free {
      JoinOffsets(bs2, k - 1, |bs2| - 1);
      JoinedLeft(bs2, k);
    } else {
      NoPairLeft(bs2, k);
    }
  }

  lemma FreedPairs(bs: seq<Block>, k: nat)
    requires NoFreePair(bs) && k < |bs|
    ensures FreePairsAt(bs[k := bs[k].(free := true)], k)
  {
  }

  lemma NoPairLeft(bs: seq<Block>, k: nat)
    requires k < |bs| && FreePairBefore(bs, k) && (k == 0 || !bs[k - 1].free)
    ensures NoFreePair(bs)
  {
  }

  lemma JoinedRight(bs: seq<Block>, total: nat, k: nat)
    requires k < |bs| && Offset(bs, |bs|) == total && bs[k].free && FreePairsAt(bs, k)
    ensures var cs := if k + 1 < |bs| && bs[k + 1].free then Join(bs, k) else bs;
            k < |cs| && cs[k].free && Offset(cs, |cs|) == total && FreePairBefore(cs, k)
  {
    if k + 1 < |bs| && bs[k + 1].free {
      var cs := Join(bs, k);
      JoinOffsets(bs, k, |bs| - 1);
      forall j | 0 <= j < |cs| - 1 && j + 1 != k ensures !(cs[j].free && cs[j + 1].free) {
        if j < k {
          assert cs[j] == bs[j] && cs[j + 1] == bs[j + 1];
        } else if j == k {
          assert cs[j + 1] == bs[k + 2] && !bs[k + 2].free;
        } else {
          assert cs[j] == bs[j + 1] && cs[j + 1] == bs[j + 2];
        }
      }
    }
  }

  lemma JoinedLeft(bs: seq<Block>, k: nat)
    requires 0 < k < |bs| && bs[k - 1].free && bs[k].free && FreePairBefore(bs, k)
    ensures NoFreePair(Join(bs, k - 1))
  {
    var cs := Join(bs, k - 1);
    forall j | 0 <= j < |cs| - 1 ensures !(cs[j].free && cs[j + 1].free) {
      if j < k - 2 {
        assert cs[j] == bs[j] && cs[j + 1] == bs[j + 1];
      } else if j == k - 2 {
        assert cs[j] == bs[j] && !bs[k - 2].free;
      } else if j == k - 1 {
        assert cs[j + 1] == bs[k + 1] && !bs[k + 1].free;
      } else {
        assert cs[j] == bs[j + 1] && cs[j + 1] == bs[j + 2];
      }
    }
  }

  // ------------------------------------------------------------------------ live blocks

  /** A block of the given size is in use at the given offset. */
  ghost predicate LiveAt(bs: seq<Block>, a: nat, size: nat) {
    exists k :: LiveIs(bs, k, a, size)
  }

  predicate LiveIs(bs: seq<Block>, k: int, a: nat, size: nat) {
    0 <= k < |bs| && !bs[k].free && Offset(bs, k) == a && bs[k].size == size
  }

  /** Cutting a free block changes no live block. */
  lemma CutLive(bs: seq<Block>, k: nat, n: nat, a: nat, size: nat)
    requires k < |bs| && bs[k].free && n + HEADER <= bs[k].size
    ensures LiveAt(Cut(bs, k, n), a, size) <==> LiveAt(bs, a, size)
  {
    var cs := Cut(bs, k, n);
    if LiveAt(bs, a, size) {
      var j :| LiveIs(bs, j, a, size);
      CutOffsets(bs, k, n, j);
      assert LiveIs(cs, if j < k then j else j + 1, a, size);
    }
    if LiveAt(cs, a, size) {
      var j :| LiveIs(cs, j, a, size);
      var i := if j < k then j else j - 1;
      CutOffsets(bs, k, n, i);
      assert LiveIs(bs, i, a, size);
    }
  }

  lemma MarkLive(bs: seq<Block>, k: nat, a: nat, size: nat)
    requires k < |bs| && bs[k].free
    ensures LiveAt(bs[k := bs[k].(free := false)], a, size) <==>
      LiveAt(bs, a, size) || (a == Offset(bs, k) && size == bs[k].size)
    ensures a == Offset(bs, k) ==> !LiveAt(bs, a, size)
  {
    var cs := bs[k := bs[k].(free := false)];
    forall j | 0 <= j < |bs| ensures Offset(cs, j) == Offset(bs, j) {
      OffsetPrefix(bs, cs, j);
    }
    assert forall j :: j != k ==> (LiveIs(cs, j, a, size) <==> LiveIs(bs, j, a, size));
    assert LiveIs(cs, k, a, size) <==> a == Offset(bs, k) && size == bs[k].size;
    forall j | 0 <= j < |bs| && j != k ensures Offset(bs, j) != Offset(bs, k) {
      OffsetGrows(bs, if j < k then j else k, if j < k then k else j);
    }
  }

  /** Taking a block adds it to the live ones and leaves the others where they are. */
  lemma TakenLive(bs: seq<Block>, k: nat, n: nat, a: nat, size: nat)
    requires k < |bs| && Fits(bs[k], n)
    ensures var cs := Taken(bs, k, n);
            LiveAt(cs, a, size) <==> LiveAt(bs, a, size) || (a == Offset(bs, k) && size == cs[k].size)
    ensures a == Offset(bs, k) ==> !LiveAt(bs, a, size)
  {
    hide LiveAt, Offset;
    MarkLive(bs, k, a, size);
    if Splits(bs[k], n) {
      var cs := Cut(bs, k, n);
      CutLive(bs, k, n, a, size);
      CutOffsets(bs, k, n, k);
      MarkLive(cs, k, a, size);
    }
  }

  /** Giving a block back removes it from the live ones and leaves the others where they are. */
  lemma FreedLive(bs: seq<Block>, k: nat, a: nat, size: nat)
    requires k < |bs| && !bs[k].free
    ensures LiveAt(Freed(bs, k), a, size) <==> LiveAt(bs, a, size) && a != Offset(bs, k)
  {
    hide LiveAt, Offset, Join;
    var bs1 := bs[k := bs[k].(free := true)];
    OffsetPrefix(bs, bs1, k);
    MarkLive(bs1, k, a, size);
    assert bs1[k := bs1[k].(free := false)] == bs;
    LiveIsOne(bs, k, a, size);
    var bs2 := if k + 1 < |bs1| && bs1[k + 1].free then Join(bs1, k) else bs1;
    if k + 1 < |bs1| && bs1[k + 1].free {
      JoinLive(bs1, k, a, size);
      JoinedIs(bs1, k);
    }
    if k > 0 && bs2[k - 1].free {
      JoinLive(bs2, k - 1, a, size);
    }
  }

  lemma LiveIsOne(bs: seq<Block>, k: nat, a: nat, size: nat)
    requires k < |bs|
    ensures LiveAt(bs, a, size) && a == Offset(bs, k) ==> size == bs[k].size
  {
    hide Offset;
    if LiveAt(bs, a, size) && a == Offset(bs, k) {
      var j :| LiveIs(bs, j, a, size);
      if j != k {
        OffsetGrows(bs, if j < k then j else k, if j < k then k else j);
      }
    }
  }

  lemma JoinedIs(bs: seq<Block>, k: nat)
    requires k + 1 < |bs|
    ensures Join(bs, k)[k].free == bs[k].free && (k > 0 ==> Join(bs, k)[k - 1] == bs[k - 1])
  {
  }

  lemma JoinLive(bs: seq<Block>, k: nat, a: nat, size: nat)
    requires k + 1 < |bs| && bs[k].free && bs[k + 1].free
    ensures LiveAt(Join(bs, k), a, size) <==> LiveAt(bs, a, size)
  {
    JoinIsUncut(bs, k);
    CutLive(Join(bs, k), k, bs[k].size, a, size);
  }

  /** Live payloads never overlap and lie inside the region. */
  lemma LiveApart(bs: seq<Block>, total: nat, a: nat, m: nat, b: nat, n: nat)
    requires Tiles(bs, total) && LiveAt(bs, a, m) && LiveAt(bs, b, n)
    ensures a + HEADER + m <= total && (a < b ==> a + HEADER + m <= b) && (a == b ==> m == n)
  {
    var i :| LiveIs(bs, i, a, m);
    var j :| LiveIs(bs, j, b, n);
    hide Offset;
    OffsetGrows(bs, i, |bs|);
    if i != j {
      OffsetGrows(bs, if i < j then i else j, if i < j then j else i);
    }
  }

  /** With nothing live, the list is the one free block it started as. */
  lemma AllGivenBack(bs: seq<Block>, total: nat)
    requires Tiles(bs, total) && forall a, n :: !LiveAt(bs, a, n)
    ensures total >= HEADER && bs == [Block(total - HEADER, true)]
  {
    forall k | 0 <= k < |bs| ensures bs[k].free {
      FreeUnlessLive(bs, k);
    }
    FirstTwo(bs);
    assert Offset(bs, 1) == HEADER + bs[0].size;
  }

  lemma FirstTwo(bs: seq<Block>)
    requires NoFreePair(bs)
    ensures |bs| <= 1 || !bs[0].free || !bs[1].free
  {
  }

  lemma FreeUnlessLive(bs: seq<Block>, k: nat)
    requires k < |bs|
    ensures !bs[k].free ==> LiveAt(bs, Offset(bs, k), bs[k].size)
  {
    assert !bs[k].free ==> LiveIs(bs, k, Offset(bs, k), bs[k].size);
  }

  // ---------------------------------------------------------------------------- runs

  datatype Op = Malloc(size: nat) | Free(at: nat)

  /** What a call does to the list; a free is of a live block. */
  ghost predicate Step(bs: seq<Block>, op: Op, cs: seq<Block>) {
    match op
    case Malloc(size) =>
      && size < TWO_32
      && (if size == 0 || FirstFit(bs, AlignUp(size)) == |bs| then cs == bs
          else cs == Taken(bs, FirstFit(bs, AlignUp(size)), AlignUp(size)))
    case Free(at) => exists k :: 0 <= k < |bs| && !bs[k].free && Offset(bs, k) == at && cs == Freed(bs, k)
  }

  ghost predicate Run(lists: seq<seq<Block>>, ops: seq<Op>) {
    && |lists| == |ops| + 1
    && forall i :: 0 <= i < |ops| ==> Step(lists[i], ops[i], lists[i + 1])
  }

  lemma StepTiles(bs: seq<Block>, op: Op, cs: seq<Block>, total: nat)
    requires Tiles(bs, total) && Step(bs, op, cs)
    ensures Tiles(cs, total)
  {
    hide Tiles;
    match op
    case Malloc(size) =>
      if size != 0 && FirstFit(bs, AlignUp(size)) < |bs| {
        TakenTiles(bs, total, FirstFit(bs, AlignUp(size)), AlignUp(size));
      }
    case Free(at) =>
      var k :| 0 <= k < |bs| && !bs[k].free && Offset(bs, k) == at && cs == Freed(bs, k);
      FreedTiles(bs, total, k);
  }

  /** Over every sequence of allocations and frees the blocks tile the region with no two
      free neighbours, and once everything is given back, in whatever order, the heap is the
      one free block it began as. */
  lemma {:induction false} RunTiles(lists: seq<seq<Block>>, ops: seq<Op>, total: nat)
    requires total >= HEADER && Run(lists, ops) && lists[0] == [Block(total - HEADER, true)]
    ensures Tiles(lists[|ops|], total)
    ensures (forall a, n :: !LiveAt(lists[|ops|], a, n)) ==> lists[|ops|] == lists[0]
    decreases |ops|
  {
    if ops == [] {
      assert Offset(lists[0], 1) == total;
    } else {
      var n := |ops| - 1;
      hide Step, Tiles, LiveAt;
      assert Run(lists[..n + 1], ops[..n]);
      RunTiles(lists[..n + 1], ops[..n], total);
      StepTiles(lists[n], ops[n], lists[n + 1], total);
    }
    if forall a, n :: !LiveAt(lists[|ops|], a, n) {
      AllGivenBack(lists[|ops|], total);
    }
  }

  lemma BlockSmall(bs: seq<Block>, total: nat, k: nat)
    requires Tiles(bs, total) && k < |bs|
    ensures bs[k].size + HEADER <= total
  {
    OffsetGrows(bs, k, |bs|);
  }

  /** Allocation fails only if no free block fits, and the block handed out is large enough
      for the request exactly when the request is at most 2^32 - 8. */
  lemma MallocIs(bs: seq<Block>, total: nat, size: nat, cs: seq<Block>)
    requires Tiles(bs, total) && total < TWO_32 && 0 < size < TWO_32 && Step(bs, Malloc(size), cs)
    ensures var n, k := AlignUp(size), FirstFit(bs, AlignUp(size));
            && (k == |bs| <==> forall j :: 0 <= j < |bs| ==> !Fits(bs[j], n))
            && (k == |bs| ==> cs == bs)
            && (k < |bs| ==>
                  !cs[k].free && n <= cs[k].size <= bs[k].size && (size <= cs[k].size <==> size <= TWO_32 - 8))
  {
    var n, k := AlignUp(size), FirstFit(bs, AlignUp(size));
    AlignUpEnough(size);
    if k < |bs| {
      assert !cs[k].free;
      BlockSmall(bs, total, k);
    }
  }

  /** A block that is handed out is at most 38 bytes larger than the request, which is rounded up to n:
      if 32 bytes or more would be left over they become a free block of their own, with a header
      of 16. */
  lemma WastesLittle(bs: seq<Block>, size: nat, n: nat, cs: seq<Block>)
    requires 0 < size <= TWO_32 - 8 && RoundedUp(size, n)
    requires Step(bs, Malloc(size), cs) && FirstFit(bs, n) < |bs|
    ensures var k := FirstFit(bs, n);
            && k < |cs| && size <= cs[k].size <= size + 38
            && cs == if bs[k].size < n + 32 then bs[k := Block(bs[k].size, false)]
                     else bs[..k] + [Block(n, false), Block(bs[k].size - n - 16, true)] + bs[k + 1..]
  {
    hide AlignUp, FirstFit, Taken, Fits, Step, RoundedUp;
    RoundsUp(size, n);
    MallocTakes(bs, size, cs);
    TakenIs(bs, FirstFit(bs, n), n);
  }

  predicate RoundedUp(size: nat, n: nat) {
    size <= n <= size + 7 && n % 8 == 0
  }

  lemma MallocTakes(bs: seq<Block>, size: nat, cs: seq<Block>)
    requires 0 < size < TWO_32 && Step(bs, Malloc(size), cs) && FirstFit(bs, AlignUp(size)) < |bs|
    ensures cs == Taken(bs, FirstFit(bs, AlignUp(size)), AlignUp(size))
  {
    hide AlignUp, FirstFit, Taken;
  }

  lemma RoundsUp(size: nat, n: nat)
    requires size <= TWO_32 - 8 && RoundedUp(size, n)
    ensures AlignUp(size) == n && size <= n <= size + 7
  {
  }

  lemma TakenIs(bs: seq<Block>, k: nat, n: nat)
    requires k < |bs| && Fits(bs[k], n)
    ensures Taken(bs, k, n) ==
            if bs[k].size < n + 32 then bs[k := Block(bs[k].size, false)]
            else bs[..k] + [Block(n, false), Block(bs[k].size - n - 16, true)] + bs[k + 1..]
    ensures k < |Taken(bs, k, n)| && n <= Taken(bs, k, n)[k].size <= n + 31
  {
  }

  /** A larger request never fails while any block is free: it takes the first free block,
      and of a block that can be split it gets no bytes at all. */
  lemma HugeRequest(bs: seq<Block>, size: nat)
    requires TWO_32 - 8 < size < TWO_32
    ensures var k := FirstFit(bs, AlignUp(size));
            && (k == |bs| <==> forall j :: 0 <= j < |bs| ==> !bs[j].free)
            && (k < |bs| && Splits(bs[k], 0) ==> Taken(bs, k, AlignUp(size))[k] == Block(0, false))
  {
    hide AlignUp;
    WrapsToZero(size);
  }

  lemma WrapsToZero(size: nat)
    requires TWO_32 - 8 < size < TWO_32
    ensures AlignUp(size) == 0
  {
    assert size + 7 == TWO_32 + (size + 7 - TWO_32);
  }

  // ------------------------------------------------------------------------- alignment

  predicate Whole(bs: seq<Block>) {
    forall k :: 0 <= k < |bs| ==> bs[k].size % ALIGNMENT == 0
  }

  lemma {:induction false} OffsetWhole(bs: seq<Block>, k: nat)
    requires Whole(bs) && k <= |bs|
    ensures Offset(bs, k) % ALIGNMENT == 0
    decreases k
  {
    if k > 0 {
      OffsetWhole(bs, k - 1);
    }
  }

  lemma TakenWhole(bs: seq<Block>, k: nat, size: nat)
    requires Whole(bs) && k < |bs| && Fits(bs[k], size) && size % ALIGNMENT == 0
    ensures Whole(Taken(bs, k, size))
  {
  }

  lemma JoinWhole(bs: seq<Block>, k: nat)
    requires Whole(bs) && k + 1 < |bs|
    ensures Whole(Join(bs, k))
  {
    WholeSum(bs[k].size, bs[k + 1].size);
    forall i | 0 <= i < |Join(bs, k)| ensures Join(bs, k)[i].size % ALIGNMENT == 0 {
      assert i < k ==> Join(bs, k)[i] == bs[i];
      assert i > k ==> Join(bs, k)[i] == bs[i + 1];
    }
  }

  lemma WholeSum(a: nat, b: nat)
    requires a % ALIGNMENT == 0 && b % ALIGNMENT == 0
    ensures (a + HEADER + b) % ALIGNMENT == 0
  {
  }

  lemma FreedWhole(bs: seq<Block>, k: nat)
    requires Whole(bs) && k < |bs|
    ensures Whole(Freed(bs, k))
  {
    hide Join;
    var bs1 := bs[k := bs[k].(free := true)];
    var bs2 := if k + 1 < |bs1| && bs1[k + 1].free then Join(bs1, k) else bs1;
    assert Whole(bs1);
    hide Whole;
    if k + 1 < |bs1| {
      JoinWhole(bs1, k);
    }
    if k > 0 && k < |bs2| {
      JoinWhole(bs2, k - 1);
    }
  }

  lemma StepWhole(bs: seq<Block>, op: Op, cs: seq<Block>)
    requires Whole(bs) && Step(bs, op, cs)
    ensures Whole(cs)
  {
    hide Whole, AlignUp, Offset, Taken, Freed;
    match op
    case Malloc(size) =>
      if size != 0 && FirstFit(bs, AlignUp(size)) < |bs| {
        TakenWhole(bs, FirstFit(bs, AlignUp(size)), AlignUp(size));
      }
    case Free(at) =>
      var k :| 0 <= k < |bs| && !bs[k].free && Offset(bs, k) == at && cs == Freed(bs, k);
      FreedWhole(bs, k);
  }

  /** In a region whose start and size are multiples of eight every block, and so every
      pointer handed out, stays on a multiple of eight over any run. */
  lemma {:induction false} RunWhole(lists: seq<seq<Block>>, ops: seq<Op>, total: nat, k: nat)
    requires total >= HEADER && total % ALIGNMENT == 0 && Run(lists, ops) && lists[0] == [Block(total - HEADER, true)]
    requires k <= |lists[|ops|]|
    ensures Whole(lists[|ops|]) && Offset(lists[|ops|], k) % ALIGNMENT == 0
    decreases |ops|
  {
    if ops != [] {
      var n := |ops| - 1;
      hide Step, Whole, Offset;
      assert Run(lists[..n + 1], ops[..n]);
      RunWhole(lists[..n + 1], ops[..n], total, 0);
      StepWhole(lists[n], ops[n], lists[n + 1]);
    }
    OffsetWhole(lists[|ops|], k);
  }

  /** Freeing what was just allocated, wherever the call finds it, restores the list. */
  lemma MallocThenFree(bs: seq<Block>, size: nat, cs: seq<Block>, ds: seq<Block>, total: nat)
    requires Tiles(bs, total) && 0 < size < TWO_32 && Step(bs, Malloc(size), cs) && FirstFit(bs, AlignUp(size)) < |bs|
    requires Step(cs, Free(Offset(bs, FirstFit(bs, AlignUp(size)))), ds)
    ensures ds == bs
  {
    var n, k := AlignUp(size), FirstFit(bs, AlignUp(size));
    TakenTiles(bs, total, k, n);
    var j :| 0 <= j < |cs| && !cs[j].free && Offset(cs, j) == Offset(bs, k) && ds == Freed(cs, j);
    hide Taken, Freed, Offset;
    if j < k {
      OffsetGrows(cs, j, k);
    } else if k < j {
      OffsetGrows(cs, k, j);
    }
    FreedAfterTaken(bs, k, n);
  }
}
