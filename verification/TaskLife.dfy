/**
  A task's whole life: task_create, the program loader, exit and task_reap, with the kernel
  heap and the frame allocator they draw on.
*/
module TaskLife {
  import opened Common
  import opened Heap
  import opened HeapMemory
  import opened Pmm
  import opened Paging
  import opened Loader

  const TASK_STACK_SIZE := 4096
  const ELF_MAX_FILE_SIZE := 65536

  /** Every page of the kernel's own memory, which lies below the frames that are handed out, is
      where the kernel's pointers say, so that kmalloc and kfree work on the heap. */
  ghost predicate KernelInPlace(m: map<nat, Table>, first: nat, d: Table, low: nat) {
    forall j :: 0 <= j < ENTRIES && j < low ==> Translate(m, first, d, j) == Some(j * FRAME_SIZE)
  }

  lemma ClearInPlace(m: map<nat, Table>, first: nat, d: Table, low: nat, frames: set<nat>)
    requires Aligned(first) && WellTabled(m, first, d) && Clear(m, first, d, low, frames)
    ensures KernelInPlace(m, first, d, low)
  {
    hide WellTabled, Mapped, Translate;
    forall j: nat | j < ENTRIES && j < low ensures Translate(m, first, d, j) == Some(j * FRAME_SIZE) {
      TranslateIs(m, first, d, j);
    }
  }

  /** A private page of the kernel's memory does the opposite: the kernel's pointers into that
      page reach a frame of the task, so what they store there is not in the heap. */
  lemma CoveredMisses(m: map<nat, Table>, first: nat, dir: nat, owned: set<nat>, rest: set<nat>, low: nat, high: nat,
                      j: nat)
    requires Exact(m, first, dir, owned, rest) && Aligned(first) && low <= high && owned <= Interval(low, high)
    requires j < ENTRIES && j < low && Mapped(m, first, m[dir], j)
    ensures Translate(m, first, m[dir], j).Some? && Translate(m, first, m[dir], j).value != j * FRAME_SIZE
    ensures Held(m, first, m[dir], Translate(m, first, m[dir], j).value)
  {
    FreePointer(m, first, dir, owned, rest, j);
  }

  /** A program that creates a task while one of its pages lies over the next free frame: the new
      directory is written into that page, a page of the creator, and not into its own frame. */
  lemma ClonedIntoCreator(spaces: AddressSpaces, creator: nat, rest: set<nat>)
    requires spaces.Space(creator, rest) && creator in spaces.memory && spaces.HasNext() && spaces.Loaded(Some(creator))
    ensures spaces.Reaches(Some(creator), spaces.Next()) <==>
            !Mapped(spaces.memory, spaces.first, spaces.memory[creator], Frame(spaces.Next()))
    ensures spaces.Behind(Some(creator), spaces.Next()) == spaces.Next() <==>
            spaces.Reaches(Some(creator), spaces.Next())
    ensures !spaces.Reaches(Some(creator), spaces.Next()) ==>
      Held(spaces.memory, spaces.first, spaces.memory[creator], spaces.Behind(Some(creator), spaces.Next()))
  {
    ghost var j := LeastFree(spaces.pmm.low, spaces.pmm.high, spaces.pmm.owned);
    assert spaces.Next() / FRAME_SIZE == j && Frame(spaces.Next()) == j && j < ENTRIES;
    hide Exact, Mapped, Translate, Held, LeastFree, WellTabled;
    FreePointer(spaces.memory, spaces.first, creator, spaces.pmm.owned, rest, j);
  }

  lemma FreshInPlace(m: map<nat, Table>, first: nat, d: Table, low: nat)
    requires Aligned(first) && Fresh(first, d)
    ensures KernelInPlace(m, first, d, low)
  {
    BaseOf(first, PRESENT_WRITABLE_USER);
    forall j: nat | j < ENTRIES ensures Translate(m, first, d, j) == Some(j * FRAME_SIZE) {
      BaseOf(j * FRAME_SIZE, PRESENT_WRITABLE);
    }
  }

  class Kernel {
    const heap: KernelHeap
    const spaces: AddressSpaces

    ghost predicate Valid()
      reads heap, spaces, spaces.pmm, spaces.pmm.used
    {
      heap.Valid() && spaces.Valid() && heap.start + heap.total <= spaces.pmm.low * FRAME_SIZE
    }

    constructor (heap: KernelHeap, spaces: AddressSpaces)
      requires heap.Valid() && spaces.Valid() && heap.start + heap.total <= spaces.pmm.low * FRAME_SIZE
      ensures Valid() && this.heap == heap && this.spaces == spaces
    {
      this.heap, this.spaces := heap, spaces;
    }

    /** The directory in use leaves the heap where it is. */
    ghost predicate InPlace(current: Option<nat>)
      reads spaces, spaces.pmm
    {
      current.Some? ==>
        current.value in spaces.memory
          && KernelInPlace(spaces.memory, spaces.first, spaces.memory[current.value], spaces.pmm.low)
    }

    /** kmalloc under that directory. */
    method Malloc(current: Option<nat>, size: nat) returns (ptr: nat)
      requires Valid() && InPlace(current) && 0 < size < TWO_32
      modifies heap
      ensures Valid() && (ptr == 0 <==> !Room(old(heap.blocks), size)) && (ptr == 0 ==> heap.blocks == old(heap.blocks))
      ensures ptr != 0 ==> Allocated(heap.start, heap.total, old(heap.blocks), heap.blocks, size, ptr)
    {
      hide Holds, Tiles, Heap.Step, FirstFit, AlignUp, Addr, Allocated, KernelInPlace;
      ghost var bs := heap.blocks;
      HeapTiles();
      ptr := heap.KMalloc(size);
      if ptr == 0 {
        MallocFailed(bs, heap.blocks, size);
      } else {
        MallocAllocates(heap.start, heap.total, bs, heap.blocks, size, ptr);
      }
    }

    /** kfree, under that directory, of what was allocated last. */
    method FreeAgain(current: Option<nat>, ptr: nat, size: nat, ghost bs: seq<Block>)
      requires Valid() && InPlace(current) && Allocated(heap.start, heap.total, bs, heap.blocks, size, ptr)
      modifies heap
      ensures Valid() && heap.blocks == bs
    {
      hide Holds, Tiles, Heap.Step, Addr, Allocated, KernelInPlace;
      ghost var cs := heap.blocks;
      MayFree(heap.start, heap.total, bs, cs, size, ptr);
      heap.KFree(ptr);
      Restored(heap.start, heap.total, bs, cs, size, ptr, heap.blocks);
    }

    /** The resources of task_create: a kernel stack and a page directory, or neither, which is
        exactly when the heap has no room for the stack or no frame below 4 MB comes next.  The
        directory is in order if no private page of the creator lies over its frame. */
    method CreateTask(current: Option<nat>) returns (stack: nat, dir: nat)
      requires Valid() && InPlace(current) && spaces.Loaded(current)
      modifies heap, spaces, spaces.pmm, spaces.pmm.used
      ensures Valid() && (stack == 0 <==> dir == 0)
      ensures stack == 0 <==> !Room(old(heap.blocks), TASK_STACK_SIZE) || !old(spaces.HasNext())
      ensures stack == 0 ==>
        && heap.blocks == old(heap.blocks) && spaces.pmm.owned == old(spaces.pmm.owned)
        && spaces.memory == old(spaces.memory)
      ensures stack != 0 ==>
        && Allocated(heap.start, heap.total, old(heap.blocks), heap.blocks, TASK_STACK_SIZE, stack)
        && dir == old(spaces.Next()) < IDENTITY_END && spaces.pmm.owned == old(spaces.pmm.owned) + {Frame(dir)}
        && exists d: Table ::
             Fresh(spaces.first, d) && spaces.memory == old(spaces.memory)[old(spaces.Behind(current, dir)) := d]
      ensures stack != 0 && old(spaces.Reaches(current, spaces.Next())) ==>
        spaces.Space(dir, old(spaces.pmm.owned)) && dir in spaces.memory && Fresh(spaces.first, spaces.memory[dir])
    {
      hide Exact, Fresh, Allocated, KernelInPlace, WellTabled, Mapped, LeastFree;
      ghost var bs := heap.blocks;
      stack := Malloc(current, TASK_STACK_SIZE);
      if stack == 0 {
        return 0, 0;
      }
      dir := spaces.CloneKernelDirectory(current);
      if dir == 0 {
        FreeAgain(current, stack, TASK_STACK_SIZE, bs);
        return 0, 0;
      }
    }

    lemma HeapTiles()
      requires heap.Valid()
      ensures Tiles(heap.blocks, heap.total)
    {
    }

    /** elf_load_and_run and usermode_enter on the current task, up to the jump to user mode
        or the point where they give up.  The file buffer is gone either way.  How it ends is
        decided by the heap, the free frames and the segments. */
    method RunProgram(dir: nat, segs: seq<Segment>, argumentsFit: bool, ghost rest: set<nat>) returns (r: Outcome)
      requires Valid() && spaces.Space(dir, rest) && dir in spaces.memory && Fresh(spaces.first, spaces.memory[dir])
      requires Harmless(segs, spaces.pmm.low, spaces.pmm.high, spaces.pmm.owned, dir)
      modifies heap, spaces, spaces.pmm, spaces.pmm.used
      ensures r == RanAs(spaces.pmm.low, spaces.pmm.high, old(spaces.pmm.owned), segs,
                         Room(old(heap.blocks), ELF_MAX_FILE_SIZE), argumentsFit)
      ensures r == Halted ==>
        exists f :: f in spaces.pmm.owned - old(spaces.pmm.owned) && f * FRAME_SIZE >= IDENTITY_END
      ensures r != Halted ==>
        Valid() && spaces.Space(dir, rest) && dir in spaces.memory && heap.blocks == old(heap.blocks)
      ensures r == Loaded ==>
        && AllMapped(spaces.memory, spaces.first, spaces.memory[dir], segs, |segs|)
        && Mapped(spaces.memory, spaces.first, spaces.memory[dir], USER_STACK / FRAME_SIZE)
    {
      hide Exact, Fresh, Allocated, KernelInPlace, WellTabled, Mapped, LeastFree, Harmless, LoadEnd, Clear, AllMapped,
           Foreseen, LoadedAs, StackEnd, Regions, TableFrames, Room, PrivateTable, Interval;
      ghost var bs, frames := heap.blocks, TableFrames(spaces.pmm.low, spaces.pmm.high, spaces.pmm.owned, {}, segs);
      FreshInPlace(spaces.memory, spaces.first, spaces.memory[dir], spaces.pmm.low);
      var buffer := Malloc(Some(dir), ELF_MAX_FILE_SIZE);
      if buffer == 0 {
        return Refused;
      }
      r := LoadSegments(spaces, dir, segs, rest);
      if r == Halted {
        return;
      }
      EndInPlace(spaces.memory, spaces.first, dir, spaces.pmm.owned, rest, spaces.pmm.low, frames);
      FreeAgain(Some(dir), buffer, ELF_MAX_FILE_SIZE, bs);
      if r == Loaded {
        if !argumentsFit {
          return Refused;
        }
        ghost var m, owned := spaces.memory, spaces.pmm.owned;
        EndIn(m, spaces.first, dir, spaces.pmm.low, frames);
        RegionsHas(spaces.first, m[dir], 0);
        r := MapStack(spaces, dir, rest, frames);
        if r == Halted {
          ghost var f :| f in spaces.pmm.owned - owned && f * FRAME_SIZE >= IDENTITY_END;
          assert f in spaces.pmm.owned - old(spaces.pmm.owned);
        } else if r == Loaded {
          StillAllMapped(m, spaces.first, m[dir], spaces.memory, spaces.memory[dir], segs);
        }
      }
    }

    /** What task_reap frees of an exited task.  It runs in task 0, under the kernel's own
        directory. */
    method ReapTask(stack: nat, dir: nat, ghost bs: seq<Block>, ghost rest: set<nat>)
      requires Valid() && spaces.Space(dir, rest)
      requires Allocated(heap.start, heap.total, bs, heap.blocks, TASK_STACK_SIZE, stack)
      modifies heap, spaces.pmm, spaces.pmm.used
      ensures Valid() && heap.blocks == bs && spaces.pmm.owned == rest
    {
      hide Exact, Allocated, KernelInPlace;
      FreeAgain(None, stack, TASK_STACK_SIZE, bs);
      InMemory(spaces.memory, spaces.first, dir, spaces.pmm.owned, rest);
      DirApart(spaces.memory, spaces.first, dir, spaces.pmm.owned, rest);
      assert Frame(dir) in Interval(spaces.pmm.low, spaces.pmm.high);
      spaces.FreeUserDirectory(dir, rest);
      spaces.pmm.FreeFrame(dir);
    }

    /** A task that is created, loads a harmless program, completely or only partly, exits and is
        reaped leaves the kernel heap and the frame bitmap exactly as they were, unless a page
        fault in the kernel stops the machine on the way. */
    method WholeLife(current: Option<nat>, segs: seq<Segment>, argumentsFit: bool) returns (created: bool, r: Outcome)
      requires Valid() && InPlace(current) && spaces.Loaded(current) && spaces.Reaches(current, spaces.Next())
      requires Harmless(segs, spaces.pmm.low, spaces.pmm.high, spaces.pmm.owned + {Frame(spaces.Next())}, spaces.Next())
      modifies heap, spaces, spaces.pmm, spaces.pmm.used
      ensures created <==> Room(old(heap.blocks), TASK_STACK_SIZE) && old(spaces.HasNext())
      ensures r == if !created then Refused
        else RanAs(spaces.pmm.low, spaces.pmm.high, old(spaces.pmm.owned) + {Frame(old(spaces.Next()))}, segs,
                   Room(WithStack(old(heap.blocks)), ELF_MAX_FILE_SIZE), argumentsFit)
      ensures r == Halted ==>
        exists f :: f in spaces.pmm.owned - old(spaces.pmm.owned) && f * FRAME_SIZE >= IDENTITY_END
      ensures r != Halted ==> Valid() && heap.blocks == old(heap.blocks) && spaces.pmm.owned == old(spaces.pmm.owned)
      ensures r != Halted ==> spaces.pmm.used[..] == old(spaces.pmm.used[..])
    {
      hide Exact, Fresh, Allocated, KernelInPlace, Mapped, LeastFree, Harmless, WellTabled;
      ghost var bs, rest, bits := heap.blocks, spaces.pmm.owned, spaces.pmm.used[..];
      var stack, dir := CreateTask(current);
      if stack == 0 {
        SameBits(spaces.pmm, bits, rest);
        return false, Refused;
      }
      StackTaken(heap.start, heap.total, bs, heap.blocks, stack);
      ghost var owned := spaces.pmm.owned;
      r := RunProgram(dir, segs, argumentsFit, rest);
      if r == Halted {
        ghost var f :| f in spaces.pmm.owned - owned && f * FRAME_SIZE >= IDENTITY_END;
        assert f in spaces.pmm.owned - rest;
      } else {
        ReapTask(stack, dir, bs, rest);
        SameBits(spaces.pmm, bits, rest);
      }
      created := true;
    }
  }

  lemma EndInPlace(m: map<nat, Table>, first: nat, dir: nat, owned: set<nat>, rest: set<nat>, low: nat,
                   frames: set<nat>)
    requires Aligned(first) && Exact(m, first, dir, owned, rest) && LoadEnd(m, first, dir, low, frames)
    ensures dir in m && KernelInPlace(m, first, m[dir], low)
  {
    hide Clear, WellTabled, KernelInPlace;
    ClearInPlace(m, first, m[dir], low, {Frame(dir)} + frames);
  }

  lemma StillAllMapped(m: map<nat, Table>, first: nat, d: Table, m2: map<nat, Table>, d2: Table, segs: seq<Segment>)
    requires AllMapped(m, first, d, segs, |segs|)
    requires forall j :: 0 <= j < ENTRIES && Mapped(m, first, d, j) ==> Mapped(m2, first, d2, j)
    ensures AllMapped(m2, first, d2, segs, |segs|)
  {
    hide Mapped, NeedsPage;
  }

  lemma EndIn(m: map<nat, Table>, first: nat, dir: nat, low: nat, frames: set<nat>)
    requires LoadEnd(m, first, dir, low, frames)
    ensures dir in m
  {
  }

  /** The heap has a block for a request. */
  predicate Room(bs: seq<Block>, size: nat)
    requires 0 < size < TWO_32
  {
    FirstFit(bs, AlignUp(size)) < |bs|
  }

  /** The heap once the kernel stack is taken. */
  ghost function WithStack(bs: seq<Block>): (cs: seq<Block>) {
    if Room(bs, TASK_STACK_SIZE)
    then Heap.Taken(bs, FirstFit(bs, AlignUp(TASK_STACK_SIZE)), AlignUp(TASK_STACK_SIZE))
    else bs
  }

  lemma StackTaken(start: nat, total: nat, bs: seq<Block>, cs: seq<Block>, ptr: nat)
    requires Allocated(start, total, bs, cs, TASK_STACK_SIZE, ptr)
    ensures cs == WithStack(bs)
  {
  }

  /** How loading and entering a program ends: it needs a buffer for the file, at least one
      segment, frames for the pages and tables, arguments that fit, and the stack page. */
  ghost function RanAs(low: nat, high: nat, owned: set<nat>, segs: seq<Segment>, buffer: bool,
                       argumentsFit: bool): (r: Outcome)
    requires low <= high
  {
    if !buffer then Refused
    else if LoadedAs(low, high, owned, segs) != Loaded then LoadedAs(low, high, owned, segs)
    else if !argumentsFit then Refused
    else
      var will := Foreseen(low, high, owned, {}, segs);
      StackEnd(low, high, will.owned, 0 in will.have)
  }

  /** The bitmap is determined by the frames that are handed out. */
  lemma SameBits(pmm: FrameAllocator, bits: seq<bool>, owned: set<nat>)
    requires pmm.Valid() && pmm.owned == owned && |bits| == MAX_FRAMES
    requires forall f :: 0 <= f < MAX_FRAMES ==> (bits[f] <==> f in owned || !(pmm.low <= f < pmm.high))
    ensures pmm.used[..] == bits
  {
  }

  lemma MallocFailed(bs: seq<Block>, cs: seq<Block>, size: nat)
    requires 0 < size < TWO_32 && Heap.Step(bs, Malloc(size), cs) && FirstFit(bs, AlignUp(size)) == |bs|
    ensures cs == bs
  {
  }

  lemma DirApart(m: map<nat, Table>, first: nat, dir: nat, owned: set<nat>, rest: set<nat>)
    requires Exact(m, first, dir, owned, rest)
    ensures rest + {Frame(dir)} - {Frame(dir)} == rest && Frame(dir) == dir / FRAME_SIZE
  {
  }

  /** The pointer is to the block that a successful kmalloc took. */
  ghost predicate Allocated(start: nat, total: nat, bs: seq<Block>, cs: seq<Block>, size: nat, ptr: nat) {
    && Tiles(bs, total) && 0 < size < TWO_32 && Heap.Step(bs, Malloc(size), cs) && FirstFit(bs, AlignUp(size)) < |bs|
    && ptr == Addr(start, bs, FirstFit(bs, AlignUp(size))) + HEADER
  }

  lemma MallocAllocates(start: nat, total: nat, bs: seq<Block>, cs: seq<Block>, size: nat, ptr: nat)
    requires Tiles(bs, total) && 0 < size < TWO_32 && Heap.Step(bs, Malloc(size), cs)
    requires FirstFit(bs, AlignUp(size)) < |bs|
    requires ptr == Addr(start, bs, FirstFit(bs, AlignUp(size))) + HEADER
    ensures Allocated(start, total, bs, cs, size, ptr)
  {
  }

  /** Such a pointer may be freed. */
  lemma MayFree(start: nat, total: nat, bs: seq<Block>, cs: seq<Block>, size: nat, ptr: nat)
    requires Allocated(start, total, bs, cs, size, ptr)
    ensures ptr != 0 && ptr >= start + HEADER
    ensures exists k :: 0 <= k < |cs| && !cs[k].free && ptr == Addr(start, cs, k) + HEADER
  {
    var n, k := AlignUp(size), FirstFit(bs, AlignUp(size));
    TakenTiles(bs, total, k, n);
    assert !cs[k].free && ptr == Addr(start, cs, k) + HEADER;
  }

  /** Freeing it restores the heap. */
  lemma Restored(start: nat, total: nat, bs: seq<Block>, cs: seq<Block>, size: nat, ptr: nat, ds: seq<Block>)
    requires Allocated(start, total, bs, cs, size, ptr) && ptr >= start + HEADER
    requires Heap.Step(cs, Free(ptr - HEADER - start), ds)
    ensures ds == bs
  {
    MallocThenFree(bs, size, cs, ds, total);
  }
}
