/**
  The physical frame allocator: one bit per frame, two counters, and a scan that stops at
  their sum.
*/
module Pmm {
  import opened Common

  const MAX_FRAMES := 0x10_0000

  /** A region of the boot loader's memory map, in bytes; only type 1 is usable memory. */
  datatype Region = Region(kind: nat, addr: nat, len: nat)

  /** With frames [k, n) usable and `owned` handed out, the scan looks at the frames below
      (n - k) + |owned| and finds a free one there. */
  ghost predicate Finds(k: nat, n: nat, owned: set<nat>)
    requires k <= n
  {
    exists f :: k <= f < n && f < n - k + |owned| && f !in owned
  }

  /** If 2k < n the scan finds a free frame whenever there is one at all, because the used
      frames cannot fill what it looks at. */
  lemma WindowFinds(k: nat, n: nat, owned: set<nat>)
    requires k < n && 2 * k < n && owned < Interval(k, n)
    ensures Finds(k, n, owned)
  {
    var w := n - k + |owned|;
    var m := if w < n then w else n;
    SubsetCard(owned, Interval(k, n));
    if Interval(k, m) <= owned {
      SubsetCard(Interval(k, m), owned);
    } else {
      var f :| f in Interval(k, m) && f !in owned;
    }
  }

  /** The condition is exact: if 2k >= n the very first allocation fails although every
      frame is free. */
  lemma WindowNeeds(k: nat, n: nat)
    requires 0 < k < n
    ensures 2 * k < n <==> forall owned: set<nat> :: owned < Interval(k, n) ==> Finds(k, n, owned)
  {
    if 2 * k < n {
      forall owned: set<nat> | owned < Interval(k, n) ensures Finds(k, n, owned) {
        WindowFinds(k, n, owned);
      }
    } else {
      var none: set<nat> := {};
      assert k in Interval(k, n) && none < Interval(k, n);
      assert !Finds(k, n, none);
    }
  }

  /** The least frame of [k, n) that is not handed out, or n. */
  ghost function LeastFree(k: nat, n: nat, owned: set<nat>): (f: nat)
    requires k <= n
    ensures k <= f <= n && (f < n ==> f !in owned) && forall g :: k <= g < f ==> g in owned
    decreases n - k
  {
    if k < n && k in owned then LeastFree(k + 1, n, owned) else k
  }

  const HEAP_SIZE := 0x10_0000

  function KernelFrames(kernelEnd: nat): nat {
    kernelEnd / FRAME_SIZE + 1
  }

  /** The first frame that starts behind the kernel. */
  lemma KernelFramesAre(kernelEnd: nat)
    ensures (KernelFrames(kernelEnd) - 1) * FRAME_SIZE <= kernelEnd < KernelFrames(kernelEnd) * FRAME_SIZE
  {
  }

  /** The kernel heap, which starts at the first aligned address after the kernel, ends below
      the first frame that can be handed out. */
  lemma HeapBelowFrames(kernelEnd: nat)
    ensures (kernelEnd + 7) / 8 * 8 + HEAP_SIZE <= KernelFrames(kernelEnd + HEAP_SIZE) * FRAME_SIZE
  {
  }

  // ---------------------------------------------------------------------- the memory map

  /** The frame is usable by the map. */
  predicate Lies(r: Region, f: nat) {
    r.kind == 1 && r.addr / FRAME_SIZE <= f < r.addr / FRAME_SIZE + r.len / FRAME_SIZE
  }

  /** pmm_init cuts address and length to 32 bits before it divides. */
  function FirstFrame(r: Region): (f: nat)
    ensures f < MAX_FRAMES
  {
    r.addr % TWO_32 / FRAME_SIZE
  }

  function FrameCount(r: Region): (n: nat)
    ensures n < MAX_FRAMES
  {
    r.len % TWO_32 / FRAME_SIZE
  }

  /** The frame is freed for the region by pmm_init. */
  predicate Covers(r: Region, f: nat) {
    r.kind == 1 && FirstFrame(r) <= f < FirstFrame(r) + FrameCount(r) && f < MAX_FRAMES
  }

  /** The cut leaves the region what it is: it starts below 4 GB and is shorter than that or
      reaches past it even when cut, or it starts higher and nothing is left of its length. */
  predicate SurvivesCut(r: Region) {
    r.kind == 1 ==>
      var first, count := r.addr / FRAME_SIZE, r.len / FRAME_SIZE;
      if first < MAX_FRAMES then count < MAX_FRAMES || first + count % MAX_FRAMES >= MAX_FRAMES
      else count % MAX_FRAMES == 0
  }

  lemma CutFrames(x: nat)
    ensures x % TWO_32 / FRAME_SIZE == x / FRAME_SIZE % MAX_FRAMES
  {
    var q, r := x / FRAME_SIZE, x % FRAME_SIZE;
    CutParts(q / MAX_FRAMES, q % MAX_FRAMES, r);
    Remainder(q / MAX_FRAMES, TWO_32, FRAME_SIZE * (q % MAX_FRAMES) + r);
    Remainder(q % MAX_FRAMES, FRAME_SIZE, r);
  }

  lemma CutParts(a: nat, b: nat, r: nat)
    requires b < MAX_FRAMES && r < FRAME_SIZE
    ensures FRAME_SIZE * (MAX_FRAMES * a + b) + r == TWO_32 * a + (FRAME_SIZE * b + r)
    ensures FRAME_SIZE * b + r < TWO_32
  {
  }

  lemma Remainder(q: nat, n: nat, r: nat)
    requires r < n
    ensures (n * q + r) % n == r && (n * q + r) / n == q
  {
    var k := (n * q + r) / n;
    assert n * q + r == n * k + (n * q + r) % n;
    if k > q {
      Multiply(q + 1, k, n);
    } else if k < q {
      Multiply(k + 1, q, n);
    }
  }

  /** Of the frames that a 32-bit address can name, pmm_init frees exactly the usable ones of a
      region if and only if the region survives the cut. */
  lemma CutExactly(r: Region)
    ensures (forall f :: 0 <= f < MAX_FRAMES ==> (Covers(r, f) <==> Lies(r, f))) <==> SurvivesCut(r)
  {
    CutFrames(r.addr);
    CutFrames(r.len);
    var first, count := r.addr / FRAME_SIZE, r.len / FRAME_SIZE;
    if r.kind == 1 && !SurvivesCut(r) {
      var f := if first < MAX_FRAMES then first + count % MAX_FRAMES else FirstFrame(r);
      assert 0 <= f < MAX_FRAMES && Covers(r, f) != Lies(r, f);
    }
  }

  /** A usable region that starts at 4 GB is taken for one that starts at frame 0. */
  lemma HighRegionMisread(r: Region, f: nat)
    requires r.kind == 1 && r.addr == TWO_32 && FRAME_SIZE <= r.len < TWO_32 && f < r.len / FRAME_SIZE
    ensures Covers(r, f) && !Lies(r, f) && !SurvivesCut(r)
  {
    CutFrames(r.len);
  }

  /** The frame is usable by one of the first n regions; it is freed for one of them. */
  ghost predicate InMap(regions: seq<Region>, n: nat, f: nat)
    requires n <= |regions|
  {
    exists q :: 0 <= q < n && Lies(regions[q], f)
  }

  ghost predicate Freed(regions: seq<Region>, n: nat, f: nat)
    requires n <= |regions|
  {
    exists q :: 0 <= q < n && Covers(regions[q], f)
  }

  /** No frame is freed for two of the first n regions. */
  ghost predicate NoOverlap(regions: seq<Region>, n: nat)
    requires n <= |regions|
  {
    forall q, r, f: nat :: 0 <= q < r < n && Covers(regions[q], f) ==> !Covers(regions[r], f)
  }

  /** The whole map is read as it is. */
  lemma MapAsGiven(regions: seq<Region>, f: nat)
    requires f < MAX_FRAMES && forall q :: 0 <= q < |regions| ==> SurvivesCut(regions[q])
    ensures Freed(regions, |regions|, f) <==> InMap(regions, |regions|, f)
  {
    hide SurvivesCut, Covers, Lies;
    forall q | 0 <= q < |regions| ensures Covers(regions[q], f) <==> Lies(regions[q], f) {
      CutExactly(regions[q]);
    }
  }

  /** A machine with 512 MB below 4 GB and 1 GB from there on: frames are freed twice, and frames
      above the 512 MB, where there is no memory, are freed. */
  lemma HighMapMisread()
    ensures var regions := [Region(1, 0x10_0000, 0x1FF0_0000), Region(1, TWO_32, 0x4000_0000)];
            && !NoOverlap(regions, 2) && Freed(regions, 2, 0x3_0000) && !InMap(regions, 2, 0x3_0000)
            && forall f: nat :: Lies(regions[0], f) ==> !Lies(regions[1], f)
  {
    var regions := [Region(1, 0x10_0000, 0x1FF0_0000), Region(1, TWO_32, 0x4000_0000)];
    assert Covers(regions[0], 0x1000) && Covers(regions[1], 0x1000) && Covers(regions[1], 0x3_0000);
  }

  /** Frames [low, high) are the freed frames that the kernel leaves. */
  ghost predicate OneRange(regions: seq<Region>, kernelEnd: nat, low: nat, high: nat) {
    && low < high <= MAX_FRAMES && high - low <= MAX_FRAMES / 2
    && forall f :: 0 <= f < MAX_FRAMES ==>
         (low <= f < high <==> Freed(regions, |regions|, f) && f >= KernelFrames(kernelEnd))
  }

  lemma RangeLeft(regions: seq<Region>, kernelEnd: nat, low: nat, high: nat, mapped: set<nat>, clear: set<nat>)
    requires OneRange(regions, kernelEnd, low, high)
    requires forall f: nat :: f in mapped <==> f < MAX_FRAMES && Freed(regions, |regions|, f)
    requires forall f: nat :: f in clear <==> f in mapped && f >= KernelFrames(kernelEnd)
    ensures 0 < low < high <= MAX_FRAMES && high - low <= MAX_FRAMES / 2 && clear == Interval(low, high)
  {
    hide Freed;
    forall f: nat ensures f in clear <==> f in Interval(low, high) {
      if f < MAX_FRAMES {
        assert low <= f < high <==> Freed(regions, |regions|, f) && f >= KernelFrames(kernelEnd);
      }
    }
    assert low in clear;
  }

  lemma OneMoreRegion(regions: seq<Region>, n: nat, f: nat)
    requires n < |regions|
    ensures Freed(regions, n + 1, f) <==> Freed(regions, n, f) || Covers(regions[n], f)
  {
    hide Covers;
  }

  /** One more region overlaps nothing if and only if none of its frames was freed before. */
  lemma OneMoreApart(regions: seq<Region>, n: nat)
    requires n < |regions|
    ensures NoOverlap(regions, n + 1) <==>
            NoOverlap(regions, n) && forall f: nat :: Covers(regions[n], f) ==> !Freed(regions, n, f)
  {
    hide Covers;
    if NoOverlap(regions, n + 1) {
      forall f: nat | Covers(regions[n], f) ensures !Freed(regions, n, f) {
      }
    }
  }

  lemma NoRegion(regions: seq<Region>)
    ensures (forall f: nat :: !Freed(regions, 0, f)) && NoOverlap(regions, 0)
  {
  }

  lemma OwnedInRange(low: nat, high: nat, owned: set<nat>, f: nat)
    requires low <= high && owned <= Interval(low, high)
    ensures f in owned ==> low <= f < high && |owned - {f}| == |owned| - 1 && owned - {f} <= Interval(low, high)
    ensures f !in owned ==> owned - {f} == owned
  {
  }

  class FrameAllocator {
    const used: array<bool>
    var totalFrames: nat
    var usedFrames: nat
    ghost const low: nat
    ghost const high: nat
    ghost var owned: set<nat>

    /** Frames [low, high) are usable; those handed out are the used ones among them, and
        every other frame is marked used for good. */
    ghost predicate Valid()
      reads this, used
    {
      && used.Length == MAX_FRAMES && 0 < low < high <= MAX_FRAMES && high - low <= MAX_FRAMES / 2
      && totalFrames == high - low && owned <= Interval(low, high) && usedFrames == |owned|
      && forall f :: 0 <= f < MAX_FRAMES ==> (used[f] <==> f in owned || !(low <= f < high))
    }

    /** The frames that can still be handed out. */
    ghost function FreeFrames(): (s: set<nat>)
      reads this, used
      requires used.Length == MAX_FRAMES
    {
      set f: nat | f < MAX_FRAMES && !used[f]
    }

    /** The clear bits are exactly these frames; `extra` of the frames were counted again. */
    ghost predicate Marks(clear: set<nat>, extra: nat)
      reads this, used
    {
      && used.Length == MAX_FRAMES && totalFrames == |clear| + extra && (forall f :: f in clear ==> f < MAX_FRAMES)
      && forall f :: 0 <= f < MAX_FRAMES ==> (!used[f] <==> f in clear)
    }

    lemma NothingOwned(clear: set<nat>)
      requires 0 < low < high <= MAX_FRAMES && high - low <= MAX_FRAMES / 2 && usedFrames == 0 && owned == {}
      requires Marks(clear, 0) && clear == Interval(low, high)
      ensures Valid()
    {
    }

    /** The loop of pmm_init over the frames of one usable region. */
    method MapRegion(first: nat, count: nat, ghost clear: set<nat>, ghost extra: nat)
      returns (ghost now: set<nat>, ghost more: nat)
      requires Marks(clear, extra)
      modifies this`totalFrames, used
      ensures Marks(now, more)
      ensures forall f: nat :: f in now <==> f in clear || (first <= f < first + count && f < MAX_FRAMES)
      ensures more == 0 <==> extra == 0 && forall f: nat :: first <= f < first + count && f < MAX_FRAMES ==> f !in clear
    {
      now, more := clear, extra;
      var i := 0;
      while i < count
        invariant 0 <= i <= count && Marks(now, more)
        invariant forall f: nat :: f in now <==> f in clear || (first <= f < first + i && f < MAX_FRAMES)
        invariant more == 0 <==>
          extra == 0 && forall f: nat :: first <= f < first + i && f < MAX_FRAMES ==> f !in clear
      {
        var frame := first + i;
        if frame < MAX_FRAMES {
          used[frame] := false;
          totalFrames := totalFrames + 1;
          if frame in clear {
            more := more + 1;
            assert now + {frame} == now;
          } else {
            assert frame !in now;
          }
          now := now + {frame};
        }
        i := i + 1;
      }
    }

    /** The loop of pmm_init over the memory map. */
    method MapRegions(regions: seq<Region>) returns (ghost clear: set<nat>, ghost extra: nat)
      requires Marks({}, 0)
      modifies this`totalFrames, used
      ensures Marks(clear, extra) && forall f: nat :: f in clear <==> f < MAX_FRAMES && Freed(regions, |regions|, f)
      ensures extra == 0 <==> NoOverlap(regions, |regions|)
    {
      hide Freed, NoOverlap, FirstFrame, FrameCount;
      clear, extra := {}, 0;
      var r := 0;
      NoRegion(regions);
      while r < |regions|
        invariant 0 <= r <= |regions| && Marks(clear, extra)
        invariant forall f: nat :: f in clear <==> f < MAX_FRAMES && Freed(regions, r, f)
        invariant extra == 0 <==> NoOverlap(regions, r)
      {
        forall f: nat ensures Freed(regions, r + 1, f) <==> Freed(regions, r, f) || Covers(regions[r], f) {
          OneMoreRegion(regions, r, f);
        }
        OneMoreApart(regions, r);
        ghost var before := clear;
        if regions[r].kind == 1 {
          clear, extra := MapRegion(FirstFrame(regions[r]), FrameCount(regions[r]), clear, extra);
        }
        forall f: nat ensures f in clear <==> f < MAX_FRAMES && Freed(regions, r + 1, f) {
          assert f in before <==> f < MAX_FRAMES && Freed(regions, r, f);
          assert f in clear <==> f in before || Covers(regions[r], f);
        }
        r := r + 1;
      }
    }

    /** The loop of pmm_init over the kernel's own frames. */
    method ReserveKernel(frames: nat, ghost clear: set<nat>, ghost extra: nat) returns (ghost now: set<nat>)
      requires Marks(clear, extra) && frames <= MAX_FRAMES
      modifies this`totalFrames, used
      ensures Marks(now, extra) && forall f: nat :: f in now <==> f in clear && f >= frames
    {
      now := clear;
      var frame := 0;
      while frame < frames
        invariant 0 <= frame <= frames && Marks(now, extra)
        invariant forall f: nat :: f in now <==> f in clear && f >= frame
      {
        if !used[frame] {
          used[frame] := true;
          totalFrames := totalFrames - 1;
          now := now - {frame};
        }
        frame := frame + 1;
      }
    }

    /** pmm_init, for every memory map.  Exactly the freed frames above the kernel are clear; they
        are counted once if and only if no frame was freed twice; and the allocator is in order
        where they are one range of the right size. */
    constructor (regions: seq<Region>, kernelEnd: U32, ghost low: nat, ghost high: nat)
      ensures this.low == low && this.high == high && owned == {} && fresh(used) && used.Length == MAX_FRAMES
      ensures forall f: nat :: f in FreeFrames() <==>
        f < MAX_FRAMES && Freed(regions, |regions|, f) && f >= KernelFrames(kernelEnd)
      ensures totalFrames == |FreeFrames()| <==> NoOverlap(regions, |regions|)
      ensures NoOverlap(regions, |regions|) && OneRange(regions, kernelEnd, low, high) ==> Valid()
    {
      used := new bool[MAX_FRAMES](_ => true);
      totalFrames, usedFrames := 0, 0;
      this.low, this.high, owned := low, high, {};
      new;
      hide Valid, Freed, OneRange, NoOverlap;
      BuildBitmap(regions, kernelEnd);
    }

    /** pmm_init, once every frame is marked used. */
    method BuildBitmap(regions: seq<Region>, kernelEnd: U32)
      requires Marks({}, 0) && usedFrames == 0 && owned == {}
      modifies this`totalFrames, used
      ensures forall f: nat :: f in FreeFrames() <==>
        f < MAX_FRAMES && Freed(regions, |regions|, f) && f >= KernelFrames(kernelEnd)
      ensures totalFrames == |FreeFrames()| <==> NoOverlap(regions, |regions|)
      ensures NoOverlap(regions, |regions|) && OneRange(regions, kernelEnd, low, high) ==> Valid()
    {
      hide Interval, Freed, OneRange, NoOverlap;
      ghost var mapped, extra := MapRegions(regions);
      ghost var clear := ReserveKernel(kernelEnd / FRAME_SIZE + 1, mapped, extra);
      assert FreeFrames() == clear;
      if NoOverlap(regions, |regions|) && OneRange(regions, kernelEnd, low, high) {
        RangeLeft(regions, kernelEnd, low, high, mapped, clear);
        NothingOwned(clear);
      }
    }

    /** pmm_alloc_frame. */
    method AllocFrame() returns (address: nat)
      requires Valid()
      modifies this, used
      ensures Valid()
      ensures address == 0 <==> !Finds(low, high, old(owned))
      ensures address == 0 ==> owned == old(owned)
      ensures address != 0 ==>
        var f := address / FRAME_SIZE;
        && address == f * FRAME_SIZE < TWO_32 && low <= f < high && f !in old(owned) && owned == old(owned) + {f}
        && f == LeastFree(low, high, old(owned))
    {
      hide Interval;
      SubsetCard(owned, Interval(low, high));
      var i := 0;
      while i < totalFrames + usedFrames
        invariant 0 <= i <= totalFrames + usedFrames <= MAX_FRAMES
        invariant forall f :: 0 <= f < i ==> used[f]
        invariant Valid() && owned == old(owned) && totalFrames == old(totalFrames)
      {
        if !used[i] {
          assert low <= i < high && i !in owned && i == LeastFree(low, high, owned);
          used[i] := true;
          usedFrames := usedFrames + 1;
          owned := owned + {i};
          return i * FRAME_SIZE;
        }
        i := i + 1;
      }
      return 0;
    }

    /** pmm_free_frame.  A usable frame is free afterwards, and freeing it twice does nothing;
        any other frame was marked used for good, and giving it back breaks the account. */
    method FreeFrame(address: U32)
      requires Valid()
      modifies this, used
      ensures Valid() <==> low <= address / FRAME_SIZE < high
      ensures owned == old(owned) - {address / FRAME_SIZE}
      ensures used[..] == old(used[..])[address / FRAME_SIZE := false]
    {
      hide Interval;
      ghost var bits := used[..];
      var frame := address / FRAME_SIZE;
      SubsetCard(owned, Interval(low, high));
      OwnedInRange(low, high, owned, frame);
      if used[frame] {
        used[frame] := false;
        usedFrames := (usedFrames - 1) % TWO_32;
        owned := owned - {frame};
      }
      assert used[..] == bits[frame := false];
      assert !used[frame];
    }

    /** pmm_get_free_frame_count counts exactly the clear bits. */
    method FreeFrameCount() returns (n: nat)
      requires Valid()
      ensures n == |FreeFrames()|
    {
      hide Interval;
      SubsetCard(owned, Interval(low, high));
      assert FreeFrames() == Interval(low, high) - owned;
      n := totalFrames - usedFrames;
    }
  }
}
