/**
  The program loader: it gives a task private pages for the segments of its program and for its
  stack.  It runs under the task's own directory and reaches directory, tables and heap through
  pointers that the pages it maps can redirect.
*/
module Loader {
  import opened Common
  import opened Pmm
  import opened Paging

  /** A loadable segment of a program: its address, its size in memory and in the file. */
  datatype Segment = Segment(vaddr: nat, memsz: nat, filesz: nat)

  function StartPage(s: Segment): nat {
    s.vaddr / FRAME_SIZE * FRAME_SIZE
  }

  function EndPage(s: Segment): nat {
    ((s.vaddr + s.memsz) % TWO_32 + FRAME_SIZE - 1) % TWO_32 / FRAME_SIZE * FRAME_SIZE
  }

  /** The segment needs page j of the first 4 MB. */
  predicate NeedsPage(s: Segment, j: nat) {
    StartPage(s) <= j * FRAME_SIZE < EndPage(s)
  }

  /** The segment has a byte on page j. */
  ghost predicate HoldsByte(s: Segment, j: nat) {
    exists b: nat :: b < s.memsz && PageAt(s, b) == j
  }

  /** Away from the end of the address space the end page is the first border from the last byte on. */
  lemma EndPageIs(s: Segment)
    requires s.vaddr + s.memsz <= TWO_32 - FRAME_SIZE
    ensures s.vaddr + s.memsz <= EndPage(s) < s.vaddr + s.memsz + FRAME_SIZE
  {
  }

  /** There the pages that a segment needs are those that hold a byte of it. */
  lemma PagesNeeded(s: Segment, j: nat)
    requires s.vaddr + s.memsz <= TWO_32 - FRAME_SIZE && s.memsz > 0
    ensures NeedsPage(s, j) <==> HoldsByte(s, j)
  {
    EndPageIs(s);
    EndAligned(s);
    hide EndPage;
    if NeedsPage(s, j) {
      NeededHolds(s, j, EndPage(s));
    }
    if HoldsByte(s, j) {
      var b: nat :| b < s.memsz && PageAt(s, b) == j;
      PageBetween32(s.vaddr, s.vaddr + b);
    }
  }

  lemma NeededHolds(s: Segment, j: nat, end: nat)
    requires s.vaddr / FRAME_SIZE * FRAME_SIZE <= j * FRAME_SIZE < end && Aligned(end) && s.memsz > 0
    requires s.vaddr + s.memsz <= end < s.vaddr + s.memsz + FRAME_SIZE && end <= TWO_32
    ensures HoldsByte(s, j)
  {
    var a := if s.vaddr > j * FRAME_SIZE then s.vaddr else j * FRAME_SIZE;
    PageBefore(j * FRAME_SIZE, end);
    OnPage(a, j);
    assert PageAt(s, a - s.vaddr) == j;
  }

  lemma OnPage(a: nat, j: nat)
    requires j * FRAME_SIZE <= a < j * FRAME_SIZE + FRAME_SIZE
    ensures a / FRAME_SIZE == j
  {
  }

  lemma PageBefore(a: nat, end: nat)
    requires a < end && Aligned(a) && Aligned(end)
    ensures a + FRAME_SIZE <= end
  {
  }

  lemma PageBetween32(from: nat, a: nat)
    requires from <= a < TWO_32
    ensures a % TWO_32 == a && from / FRAME_SIZE * FRAME_SIZE <= a / FRAME_SIZE * FRAME_SIZE <= a
  {
  }

  /** The loader maps the pages that hold the segment's bytes if and only if the segment ends a
      page before the end of the address space. */
  lemma NeededExactly(s: Segment)
    requires s.vaddr < TWO_32 && 0 < s.memsz < TWO_32
    ensures (forall j: nat :: NeedsPage(s, j) <==> HoldsByte(s, j)) <==> s.vaddr + s.memsz <= TWO_32 - FRAME_SIZE
  {
    if s.vaddr + s.memsz <= TWO_32 - FRAME_SIZE {
      forall j: nat ensures NeedsPage(s, j) <==> HoldsByte(s, j) {
        PagesNeeded(s, j);
      }
    } else {
      var a := if s.vaddr > 0xFFFF_F000 then s.vaddr else 0xFFFF_F000;
      assert PageAt(s, a - s.vaddr) == 0xF_FFFF;
      assert HoldsByte(s, 0xF_FFFF);
      assert !NeedsPage(s, 0xF_FFFF);
    }
  }

  /** A segment without bytes still gets a page if it starts inside one. */
  lemma EmptySegment(s: Segment, j: nat)
    requires s.vaddr <= TWO_32 - FRAME_SIZE && s.memsz == 0
    ensures NeedsPage(s, j) <==> !Aligned(s.vaddr) && j == s.vaddr / FRAME_SIZE
  {
    EndPageIs(s);
    EndAligned(s);
    hide EndPage;
  }

  ghost predicate SharesNoPage(segs: seq<Segment>) {
    forall p, q, j: nat :: 0 <= p < q < |segs| && NeedsPage(segs[p], j) ==> !NeedsPage(segs[q], j)
  }

  /** How many bytes the two copy loops write, from the segment's address on. */
  function Written(s: Segment): nat {
    if s.filesz > s.memsz then s.filesz else s.memsz
  }

  /** What is written ends where the pages end that the loader mapped for the segment. */
  predicate StaysInside(s: Segment) {
    Written(s) > 0 ==> s.vaddr + Written(s) <= EndPage(s)
  }

  /** The page of the segment's byte b. */
  function PageAt(s: Segment, b: nat): nat {
    (s.vaddr + b) % TWO_32 / FRAME_SIZE
  }

  /** For a segment below the stack page: every byte of it is written to a page it was given if
      and only if its end, computed without the 32-bit cut, does not pass the end page. */
  lemma StaysInsideExactly(s: Segment)
    requires s.vaddr < TWO_32 && EndPage(s) <= USER_STACK
    ensures StaysInside(s) <==> forall b: nat :: b < s.filesz || b < s.memsz ==> NeedsPage(s, PageAt(s, b))
  {
    EndAligned(s);
    var end, n := EndPage(s), Written(s);
    assert s.filesz <= n && s.memsz <= n && (n == s.filesz || n == s.memsz);
    hide EndPage, Written, PageAt, NeedsPage;
    InsideMeans(s, end, n);
  }

  lemma InsideMeans(s: Segment, end: nat, n: nat)
    requires s.vaddr < TWO_32 && end == EndPage(s) <= USER_STACK && Aligned(end) && n == Written(s)
    ensures StaysInside(s) <==> forall b: nat :: b < n ==> NeedsPage(s, PageAt(s, b))
  {
    hide EndPage, Written;
    if StaysInside(s) {
      forall b: nat | b < n ensures NeedsPage(s, PageAt(s, b)) {
        PageBetween(s.vaddr, s.vaddr + b, end);
      }
    } else if s.vaddr >= end {
      PageBehind(s.vaddr, end);
      assert !NeedsPage(s, PageAt(s, 0));
    } else {
      var b := end - s.vaddr;
      PageBehind(end, end);
      assert !NeedsPage(s, PageAt(s, b));
    }
  }

  lemma PageBetween(from: nat, a: nat, end: nat)
    requires from <= a < end <= USER_STACK && Aligned(end)
    ensures a % TWO_32 == a && from / FRAME_SIZE * FRAME_SIZE <= a / FRAME_SIZE * FRAME_SIZE < end
  {
  }

  lemma PageBehind(a: nat, end: nat)
    requires end <= a && Aligned(end)
    ensures end <= a / FRAME_SIZE * FRAME_SIZE
  {
  }

  // ---------------------------------------------------------------- where the tables will be

  /** The frames handed out after n more allocations. */
  ghost function HandOut(low: nat, high: nat, owned: set<nat>, n: nat): (s: set<nat>)
    requires low <= high
    ensures owned <= s
    decreases n
  {
    if n == 0 then owned else HandOut(low, high, owned + {LeastFree(low, high, owned)}, n - 1)
  }

  /** The pages a segment needs from page on. */
  function PagesFrom(s: Segment, page: nat): (n: nat) {
    if page < EndPage(s) then (EndPage(s) - page) / FRAME_SIZE else 0
  }

  /** The frames of the tables that loading the segments will create, for a directory with
      tables for the regions `have`: each in the frame that is the least free one by then. */
  ghost function TableFrames(low: nat, high: nat, owned: set<nat>, have: set<nat>, segs: seq<Segment>): (s: set<nat>)
    requires low <= high
    decreases |segs|
  {
    if segs == [] then {}
    else
      var i := segs[0].vaddr / REGION;
      var created := if i in have then {} else {LeastFree(low, high, owned)};
      if EndPage(segs[0]) > USER_STACK then created
      else
        var after := HandOut(low, high, owned + created, PagesFrom(segs[0], StartPage(segs[0])));
        created + TableFrames(low, high, after, have + {i}, segs[1..])
  }

  /** No page that a segment needs belongs to the kernel, or is one of these frames. */
  ghost predicate Avoids(segs: seq<Segment>, low: nat, frames: set<nat>) {
    forall k, j: nat :: 0 <= k < |segs| && NeedsPage(segs[k], j) ==> j >= low && j !in frames
  }

  /** The pages of the first region that are private avoid the kernel and these frames. */
  ghost predicate Clear(m: map<nat, Table>, first: nat, d: Table, low: nat, frames: set<nat>) {
    forall j :: 0 <= j < ENTRIES && Mapped(m, first, d, j) ==> j >= low && j !in frames
  }

  /** The space as the loader leaves it. */
  ghost predicate LoadEnd(m: map<nat, Table>, first: nat, dir: nat, low: nat, frames: set<nat>) {
    && dir in m && Clear(m, first, m[dir], low, {Frame(dir)} + frames) && TablesIn(first, m[dir], frames)
    && !Mapped(m, first, m[dir], USER_STACK / FRAME_SIZE)
  }

  lemma ClearReaches(m: map<nat, Table>, first: nat, d: Table, low: nat, frames: set<nat>, a: nat)
    requires Clear(m, first, d, low, frames) && a / FRAME_SIZE in frames
    ensures Reached(m, first, d, a)
  {
    hide Mapped;
  }

  // ------------------------------------------------------------------- how loading ends

  /** The program is loaded, the loader gives up, or a page fault in the kernel stops the machine. */
  datatype Outcome = Loaded | Refused | Halted

  /** Getting n pages, each with the next frame: without one the loader gives up, and one past
      4 MB cannot be cleared. */
  ghost function PagesEnd(low: nat, high: nat, owned: set<nat>, n: nat): (r: Outcome)
    requires low <= high
    decreases n
  {
    if n == 0 then Loaded
    else if !Finds(low, high, owned) then Refused
    else if !Below4M(low, high, owned) then Halted
    else PagesEnd(low, high, owned + {LeastFree(low, high, owned)}, n - 1)
  }

  /** The end of loading, and the frames and regions the directory then has, worked out from the
      frames that are handed out at the start. */
  datatype Forecast = Forecast(outcome: Outcome, owned: set<nat>, have: set<nat>)

  ghost function Foreseen(low: nat, high: nat, owned: set<nat>, have: set<nat>, segs: seq<Segment>): (r: Forecast)
    requires low <= high
    decreases |segs|
  {
    if segs == [] then Forecast(Loaded, owned, have)
    else
      var i, n := segs[0].vaddr / REGION, PagesFrom(segs[0], StartPage(segs[0]));
      if i !in have && !Below4M(low, high, owned) then Forecast(Refused, owned, have)
      else
        var with := WithTable(low, high, owned, i in have);
        if EndPage(segs[0]) > USER_STACK then Forecast(Refused, with, have)
        else if PagesEnd(low, high, with, n) != Loaded then Forecast(PagesEnd(low, high, with, n), with, have)
        else Foreseen(low, high, HandOut(low, high, with, n), have + {i}, segs[1..])
  }

  /** The frames handed out once there is a table. */
  ghost function WithTable(low: nat, high: nat, owned: set<nat>, has: bool): (s: set<nat>)
    requires low <= high
  {
    if has then owned else owned + {LeastFree(low, high, owned)}
  }

  /** usermode_enter takes a frame for the stack page and then, if there is none, one for the table. */
  ghost function StackEnd(low: nat, high: nat, owned: set<nat>, has: bool): (r: Outcome)
    requires low <= high
  {
    if !Finds(low, high, owned) then Refused
    else if !Below4M(low, high, owned) then Halted
    else if has || Below4M(low, high, owned + {LeastFree(low, high, owned)}) then Loaded
    else Refused
  }

  // ------------------------------------------------------------------------ the methods

  /** The regions that have a table of their own. */
  ghost function Regions(first: nat, d: Table): (s: set<nat>) {
    set i: nat | i < ENTRIES && PrivateTable(first, d[i])
  }

  ghost predicate TablesIn(first: nat, d: Table, frames: set<nat>) {
    forall i :: 0 <= i < ENTRIES && PrivateTable(first, d[i]) ==> Frame(Base(d[i])) in frames
  }

  /** One page of a segment: a frame is handed out, cleared through a pointer and mapped.  A
      frame past the first 4 MB cannot be cleared, and the page fault stops the machine. */
  method MapOne(spaces: AddressSpaces, dir: nat, table: nat, page: nat, ghost rest: set<nat>) returns (r: Outcome)
    requires spaces.Space(dir, rest) && dir in spaces.memory && Aligned(page) && page < IDENTITY_END && Aligned(table)
    requires table < IDENTITY_END
    requires PrivateTable(spaces.first, spaces.memory[dir][0]) && Base(spaces.memory[dir][0]) == table
    requires Reached(spaces.memory, spaces.first, spaces.memory[dir], table)
    requires !Mapped(spaces.memory, spaces.first, spaces.memory[dir], page / FRAME_SIZE)
    modifies spaces, spaces.pmm, spaces.pmm.used
    ensures r == PagesEnd(spaces.pmm.low, spaces.pmm.high, old(spaces.pmm.owned), 1)
    ensures r == Refused ==> spaces.memory == old(spaces.memory) && spaces.pmm.owned == old(spaces.pmm.owned)
    ensures r != Halted ==>
      spaces.Space(dir, rest) && dir in spaces.memory && spaces.memory[dir] == old(spaces.memory)[dir]
    ensures r != Refused ==>
      spaces.pmm.owned == old(spaces.pmm.owned) + {LeastFree(spaces.pmm.low, spaces.pmm.high, old(spaces.pmm.owned))}
    ensures r == Halted ==> exists f :: f in spaces.pmm.owned - old(spaces.pmm.owned) && f * FRAME_SIZE >= IDENTITY_END
    ensures r == Loaded ==> forall j :: 0 <= j < ENTRIES ==>
      (Mapped(spaces.memory, spaces.first, spaces.memory[dir], j)
       <==> Mapped(old(spaces.memory), spaces.first, old(spaces.memory)[dir], j) || j == page / FRAME_SIZE)
  {
    hide Exact, Mapped, Stored, Translate, LeastFree, MapsExactly, PrivateTable, Interval, Reached, Finds;
    ghost var owned := spaces.pmm.owned;
    var frame := spaces.pmm.AllocFrame();
    if frame == 0 {
      return Refused;
    }
    assert Frame(frame) in spaces.pmm.owned - owned && Frame(frame) * FRAME_SIZE == frame;
    if frame >= IDENTITY_END {
      return Halted;
    }
    Taken(spaces.memory, spaces.first, dir, owned, rest, Frame(frame));
    FreshRest(spaces.memory, spaces.first, dir, owned, rest, Frame(frame));
    Ready(spaces.memory, spaces.first, dir, rest + {Frame(frame)}, table, page, frame);
    spaces.MapUserPage(dir, table, page, frame, rest + {Frame(frame)});
    r := Loaded;
  }

  lemma Ready(m: map<nat, Table>, first: nat, dir: nat, rest: set<nat>, t: nat, page: nat, frame: nat)
    requires dir in m && PrivateTable(first, m[dir][0]) && Base(m[dir][0]) == t && Frame(frame) in rest
    requires Reached(m, first, m[dir], t)
    requires page < IDENTITY_END && !Mapped(m, first, m[dir], page / FRAME_SIZE)
    ensures MapsExactly(m, first, dir, rest, t, page, frame) && page / FRAME_SIZE % ENTRIES == page / FRAME_SIZE
  {
    hide Mapped, PrivateTable, Reached;
  }

  /** The loop of elf_load_and_run over the pages of one segment; it stops when it runs out of
      frames. */
  method MapPages(spaces: AddressSpaces, dir: nat, table: nat, s: Segment, ghost rest: set<nat>) returns (r: Outcome)
    requires spaces.Space(dir, rest) && dir in spaces.memory && EndPage(s) <= USER_STACK && Aligned(table)
    requires table < IDENTITY_END
    requires StartPage(s) < EndPage(s) ==>
      PrivateTable(spaces.first, spaces.memory[dir][0]) && Base(spaces.memory[dir][0]) == table
    requires Reached(spaces.memory, spaces.first, spaces.memory[dir], table)
    requires forall j :: 0 <= j < ENTRIES && NeedsPage(s, j) ==>
      !Mapped(spaces.memory, spaces.first, spaces.memory[dir], j) && j != Frame(table)
    modifies spaces, spaces.pmm, spaces.pmm.used
    ensures old(spaces.pmm.owned) <= spaces.pmm.owned
    ensures r == PagesEnd(spaces.pmm.low, spaces.pmm.high, old(spaces.pmm.owned), PagesFrom(s, StartPage(s)))
    ensures r == Halted ==> exists f :: f in spaces.pmm.owned - old(spaces.pmm.owned) && f * FRAME_SIZE >= IDENTITY_END
    ensures r != Halted ==>
      && spaces.Space(dir, rest) && dir in spaces.memory && dir in old(spaces.memory)
      && spaces.memory[dir] == old(spaces.memory)[dir]
    ensures r != Halted ==>
      forall j :: 0 <= j < ENTRIES && Mapped(spaces.memory, spaces.first, spaces.memory[dir], j) ==>
      Mapped(old(spaces.memory), spaces.first, old(spaces.memory)[dir], j) || NeedsPage(s, j)
    ensures r != Halted ==>
      forall j :: 0 <= j < ENTRIES && Mapped(old(spaces.memory), spaces.first, old(spaces.memory)[dir], j) ==>
      Mapped(spaces.memory, spaces.first, spaces.memory[dir], j)
    ensures r == Loaded ==>
      forall j :: 0 <= j < ENTRIES && NeedsPage(s, j) ==> Mapped(spaces.memory, spaces.first, spaces.memory[dir], j)
    ensures r == Loaded ==>
      spaces.pmm.owned == HandOut(spaces.pmm.low, spaces.pmm.high, old(spaces.pmm.owned), PagesFrom(s, StartPage(s)))
  {
    hide Exact, Mapped, EndPage, NeedsPage, Filled, HandOut, LeastFree, PagesFrom, PagesEnd;
    ghost var m, d, low, high := spaces.memory, spaces.memory[dir], spaces.pmm.low, spaces.pmm.high;
    ghost var end := PagesEnd(low, high, spaces.pmm.owned, PagesFrom(s, StartPage(s)));
    ghost var goal := HandOut(low, high, spaces.pmm.owned, PagesFrom(s, StartPage(s)));
    var page := StartPage(s);
    FilledStart(m, spaces.first, d, s);
    while page < EndPage(s)
      invariant Aligned(page) && page >= StartPage(s) && spaces.Space(dir, rest) && dir in spaces.memory
      invariant spaces.memory[dir] == d
      invariant Filled(m, spaces.memory, spaces.first, d, s, page)
      invariant old(spaces.pmm.owned) <= spaces.pmm.owned
      invariant HandOut(low, high, spaces.pmm.owned, PagesFrom(s, page)) == goal
      invariant PagesEnd(low, high, spaces.pmm.owned, PagesFrom(s, page)) == end
      decreases EndPage(s) - page
    {
      ghost var before, owned := spaces.memory, spaces.pmm.owned;
      HandOne(low, high, spaces.pmm.owned, s, page);
      FilledNot(m, before, spaces.first, d, s, page);
      StillClear(m, before, spaces.first, d, s, page, table);
      r := MapOne(spaces, dir, table, page, rest);
      if r == Halted {
        ghost var f :| f in spaces.pmm.owned - owned && f * FRAME_SIZE >= IDENTITY_END;
        assert f in spaces.pmm.owned - old(spaces.pmm.owned);
        return;
      }
      if r == Refused {
        FilledBounds(m, spaces.memory, spaces.first, d, s, page);
        return;
      }
      FilledNext(m, before, spaces.memory, spaces.first, d, s, page);
      page := page + FRAME_SIZE;
    }
    FilledBounds(m, spaces.memory, spaces.first, d, s, page);
    HandNone(low, high, spaces.pmm.owned, s, page);
    r := Loaded;
  }

  lemma HandOne(low: nat, high: nat, owned: set<nat>, s: Segment, page: nat)
    requires low <= high && Aligned(page) && page < EndPage(s)
    ensures HandOut(low, high, owned, PagesFrom(s, page))
      == HandOut(low, high, owned + {LeastFree(low, high, owned)}, PagesFrom(s, page + FRAME_SIZE))
    ensures PagesEnd(low, high, owned, PagesFrom(s, page))
      == if PagesEnd(low, high, owned, 1) != Loaded then PagesEnd(low, high, owned, 1)
         else PagesEnd(low, high, owned + {LeastFree(low, high, owned)}, PagesFrom(s, page + FRAME_SIZE))
  {
    hide LeastFree, Finds, Below4M;
    EndAligned(s);
  }

  lemma EndAligned(s: Segment)
    ensures Aligned(EndPage(s)) && Aligned(StartPage(s))
  {
  }

  lemma HandNone(low: nat, high: nat, owned: set<nat>, s: Segment, page: nat)
    requires low <= high && page >= EndPage(s)
    ensures HandOut(low, high, owned, PagesFrom(s, page)) == owned
    ensures PagesEnd(low, high, owned, PagesFrom(s, page)) == Loaded
  {
  }

  lemma StillClear(m0: map<nat, Table>, m: map<nat, Table>, first: nat, d: Table, s: Segment, page: nat, table: nat)
    requires Filled(m0, m, first, d, s, page) && Reached(m0, first, d, table)
    requires forall j :: 0 <= j < ENTRIES && NeedsPage(s, j) ==> j != Frame(table)
    ensures Reached(m, first, d, table)
  {
    hide Mapped, NeedsPage;
  }

  /** The pages of the segment below `page` have been mapped, and no others. */
  ghost predicate Filled(m0: map<nat, Table>, m: map<nat, Table>, first: nat, d: Table, s: Segment, page: nat) {
    forall j :: 0 <= j < ENTRIES ==>
      (Mapped(m, first, d, j) <==> Mapped(m0, first, d, j) || (NeedsPage(s, j) && j * FRAME_SIZE < page))
  }

  lemma FilledStart(m: map<nat, Table>, first: nat, d: Table, s: Segment)
    ensures Filled(m, m, first, d, s, StartPage(s)) && Aligned(StartPage(s))
  {
    hide Mapped;
  }

  lemma FilledNot(m0: map<nat, Table>, m: map<nat, Table>, first: nat, d: Table, s: Segment, page: nat)
    requires Filled(m0, m, first, d, s, page) && Aligned(page) && StartPage(s) <= page < EndPage(s) <= USER_STACK
    requires forall j :: 0 <= j < ENTRIES && NeedsPage(s, j) ==> !Mapped(m0, first, d, j)
    ensures page < IDENTITY_END && !Mapped(m, first, d, page / FRAME_SIZE)
  {
    hide Mapped, StartPage, EndPage;
    assert page / FRAME_SIZE * FRAME_SIZE == page && NeedsPage(s, page / FRAME_SIZE);
  }

  lemma FilledNext(m0: map<nat, Table>, m: map<nat, Table>, m2: map<nat, Table>, first: nat, d: Table, s: Segment,
                   page: nat)
    requires Filled(m0, m, first, d, s, page) && Aligned(page) && StartPage(s) <= page < EndPage(s) <= USER_STACK
    requires forall j :: 0 <= j < ENTRIES ==>
      (Mapped(m2, first, d, j) <==> Mapped(m, first, d, j) || j == page / FRAME_SIZE)
    ensures Filled(m0, m2, first, d, s, page + FRAME_SIZE) && Aligned(page + FRAME_SIZE)
  {
    hide Mapped, StartPage, EndPage;
    forall j | 0 <= j < ENTRIES
      ensures Mapped(m2, first, d, j) <==>
        Mapped(m0, first, d, j) || (NeedsPage(s, j) && j * FRAME_SIZE < page + FRAME_SIZE)
    {
      assert j * FRAME_SIZE < page + FRAME_SIZE <==> j * FRAME_SIZE < page || j == page / FRAME_SIZE;
      assert j == page / FRAME_SIZE ==> NeedsPage(s, j);
    }
  }

  lemma FilledBounds(m0: map<nat, Table>, m: map<nat, Table>, first: nat, d: Table, s: Segment, page: nat)
    requires Filled(m0, m, first, d, s, page)
    ensures forall j :: 0 <= j < ENTRIES && Mapped(m, first, d, j) ==> Mapped(m0, first, d, j) || NeedsPage(s, j)
    ensures forall j :: 0 <= j < ENTRIES && Mapped(m0, first, d, j) ==> Mapped(m, first, d, j)
    ensures page >= EndPage(s) ==> forall j :: 0 <= j < ENTRIES && NeedsPage(s, j) ==> Mapped(m, first, d, j)
  {
    hide Mapped, StartPage, EndPage;
  }

  /** Only pages of the first n segments are mapped, and those lie below the stack. */
  ghost predicate OnlyMapped(m: map<nat, Table>, first: nat, d: Table, segs: seq<Segment>, n: nat)
    requires n <= |segs|
  {
    && (forall k :: 0 <= k < n ==> EndPage(segs[k]) <= USER_STACK)
    && forall j :: 0 <= j < ENTRIES && Mapped(m, first, d, j) ==> exists k :: 0 <= k < n && NeedsPage(segs[k], j)
  }

  /** Every page that the first n segments need is mapped. */
  ghost predicate AllMapped(m: map<nat, Table>, first: nat, d: Table, segs: seq<Segment>, n: nat)
    requires n <= |segs|
  {
    forall k, j :: 0 <= k < n && 0 <= j < ENTRIES && NeedsPage(segs[k], j) ==> Mapped(m, first, d, j)
  }

  lemma StackFree(m: map<nat, Table>, first: nat, d: Table, segs: seq<Segment>, n: nat)
    requires n <= |segs| && OnlyMapped(m, first, d, segs, n)
    ensures !Mapped(m, first, d, USER_STACK / FRAME_SIZE)
  {
    hide EndPage, StartPage, Mapped;
  }

  lemma SameMapped(m: map<nat, Table>, first: nat, d: Table, m2: map<nat, Table>, d2: Table, segs: seq<Segment>, n: nat)
    requires n <= |segs| && OnlyMapped(m, first, d, segs, n) && AllMapped(m, first, d, segs, n)
    requires forall j :: 0 <= j < ENTRIES ==> (Mapped(m2, first, d2, j) <==> Mapped(m, first, d, j))
    ensures OnlyMapped(m2, first, d2, segs, n) && AllMapped(m2, first, d2, segs, n)
  {
    hide EndPage, NeedsPage, Mapped;
  }

  lemma FirstRegion(s: Segment)
    requires EndPage(s) <= USER_STACK
    ensures StartPage(s) < EndPage(s) ==> s.vaddr / (FRAME_SIZE * ENTRIES) == 0
  {
    hide EndPage;
  }

  lemma NotYet(m: map<nat, Table>, first: nat, d: Table, segs: seq<Segment>, n: nat)
    requires n < |segs| && OnlyMapped(m, first, d, segs, n) && SharesNoPage(segs)
    ensures forall j :: 0 <= j < ENTRIES && NeedsPage(segs[n], j) ==> !Mapped(m, first, d, j)
  {
    hide EndPage, NeedsPage, Mapped;
  }

  lemma OneMoreMapped(m: map<nat, Table>, first: nat, d: Table, m2: map<nat, Table>, d2: Table, segs: seq<Segment>,
                      n: nat)
    requires n < |segs| && OnlyMapped(m, first, d, segs, n) && EndPage(segs[n]) <= USER_STACK
    requires forall j :: 0 <= j < ENTRIES && Mapped(m2, first, d2, j) ==>
      Mapped(m, first, d, j) || NeedsPage(segs[n], j)
    ensures OnlyMapped(m2, first, d2, segs, n + 1)
  {
    hide EndPage, NeedsPage, Mapped;
  }

  lemma MoreAllMapped(m: map<nat, Table>, first: nat, d: Table, m2: map<nat, Table>, d2: Table, segs: seq<Segment>,
                      n: nat)
    requires n < |segs| && AllMapped(m, first, d, segs, n)
    requires forall j :: 0 <= j < ENTRIES && Mapped(m, first, d, j) ==> Mapped(m2, first, d2, j)
    requires forall j :: 0 <= j < ENTRIES && NeedsPage(segs[n], j) ==> Mapped(m2, first, d2, j)
    ensures AllMapped(m2, first, d2, segs, n + 1)
  {
    hide NeedsPage, Mapped;
  }

  // ------------------------------------------------------------------- the whole program

  /** The segments up to the first that would reach the stack page, where the loader gives up. */
  function Accepted(segs: seq<Segment>): (a: seq<Segment>)
    ensures a <= segs && (forall k :: 0 <= k < |a| ==> EndPage(segs[k]) <= USER_STACK)
    ensures |a| < |segs| ==> EndPage(segs[|a|]) > USER_STACK
  {
    if segs == [] || EndPage(segs[0]) > USER_STACK then [] else [segs[0]] + Accepted(segs[1..])
  }

  /** The program can be loaded without touching what the loader works with: no page is needed
      twice, none is the kernel's, the directory's or a table's, and nothing is written past the
      pages. */
  ghost predicate Harmless(segs: seq<Segment>, low: nat, high: nat, owned: set<nat>, dir: nat)
    requires low <= high
  {
    && (forall k :: 0 <= k < |segs| ==> segs[k].vaddr < TWO_32 && segs[k].memsz < TWO_32 && segs[k].filesz < TWO_32)
    && SharesNoPage(Accepted(segs)) && (forall k :: 0 <= k < |Accepted(segs)| ==> StaysInside(Accepted(segs)[k]))
    && Avoids(Accepted(segs), low, {Frame(dir)} + TableFrames(low, high, owned, {}, segs))
  }

  /** What the loader keeps between two segments: the space is exact, the private pages are pages
      of the segments loaded, and the tables, present and to come, are among `frames`. */
  ghost predicate LoadInv(m: map<nat, Table>, first: nat, dir: nat, segs: seq<Segment>, n: nat, low: nat, high: nat,
                          owned: set<nat>, frames: set<nat>) {
    && dir in m && n <= |Accepted(segs)| && low <= high
    && OnlyMapped(m, first, m[dir], Accepted(segs), n) && AllMapped(m, first, m[dir], Accepted(segs), n)
    && TablesIn(first, m[dir], frames)
    && TableFrames(low, high, owned, Regions(first, m[dir]), segs[n..]) <= frames
  }

  lemma LoadStart(m: map<nat, Table>, first: nat, dir: nat, segs: seq<Segment>, low: nat, high: nat, owned: set<nat>)
    requires dir in m && low <= high && Aligned(first) && Fresh(first, m[dir])
    ensures LoadInv(m, first, dir, segs, 0, low, high, owned, TableFrames(low, high, owned, {}, segs))
  {
    hide TableFrames;
    forall i | 0 <= i < ENTRIES ensures !PrivateTable(first, m[dir][i]) {
      KernelShared(first, i);
    }
    assert Regions(first, m[dir]) == {} && segs[0..] == segs;
  }

  lemma AvoidsAt(segs: seq<Segment>, low: nat, frames: set<nat>, k: nat, j: nat)
    requires Avoids(segs, low, frames) && k < |segs| && NeedsPage(segs[k], j)
    ensures j >= low && j !in frames
  {
    hide NeedsPage;
  }

  /** What the private pages leave alone. */
  lemma OnlyClear(m: map<nat, Table>, first: nat, d: Table, segs: seq<Segment>, n: nat, low: nat, frames: set<nat>)
    requires n <= |segs| && OnlyMapped(m, first, d, segs, n) && Avoids(segs, low, frames)
    ensures Clear(m, first, d, low, frames) && !Mapped(m, first, d, USER_STACK / FRAME_SIZE)
  {
    hide Mapped, NeedsPage, Avoids;
    StackFree(m, first, d, segs, n);
    forall j: nat | j < ENTRIES && Mapped(m, first, d, j) ensures j >= low && j !in frames {
      var k :| 0 <= k < n && NeedsPage(segs[k], j);
      AvoidsAt(segs, low, frames, k, j);
    }
  }

  /** The table for the next segment. */
  lemma NextTable(m: map<nat, Table>, first: nat, dir: nat, segs: seq<Segment>, n: nat, low: nat, high: nat,
                  owned: set<nat>, frames: set<nat>)
    requires LoadInv(m, first, dir, segs, n, low, high, owned, frames) && n < |segs| && segs[n].vaddr < TWO_32
    ensures PrivateTable(first, m[dir][segs[n].vaddr / REGION]) || LeastFree(low, high, owned) in frames
  {
    hide OnlyMapped, AllMapped, TablesIn, Accepted, LeastFree, HandOut;
    assert segs[n..][0] == segs[n];
  }

  lemma TableFound(m: map<nat, Table>, first: nat, dir: nat, segs: seq<Segment>, n: nat, low: nat, high: nat,
                   owned: set<nat>, frames: set<nat>,
                   m2: map<nat, Table>, owned2: set<nat>, t: nat)
    requires LoadInv(m, first, dir, segs, n, low, high, owned, frames) && n < |Accepted(segs)| && segs[n].vaddr < TWO_32
    requires dir in m2
    requires Given(first, m[dir], m2[dir], segs[n].vaddr / REGION, t, LeastFree(low, high, owned) * FRAME_SIZE)
    requires owned2 == if PrivateTable(first, m[dir][segs[n].vaddr / REGION]) then owned else owned + {Frame(t)}
    ensures TablesIn(first, m2[dir], frames) && Frame(t) in frames
    ensures TableFrames(low, high, HandOut(low, high, owned2, PagesFrom(segs[n], StartPage(segs[n]))),
      Regions(first, m2[dir]), segs[n + 1..]) <= frames
  {
    var i := segs[n].vaddr / REGION;
    hide *;
    InvTables(m, first, dir, segs, n, low, high, owned, frames);
    NextTable(m, first, dir, segs, n, low, high, owned, frames);
    TableGiven(first, m[dir], m2[dir], i, t, LeastFree(low, high, owned), frames);
    FramesAfter(low, high, owned, Regions(first, m[dir]), segs[n..]);
    assert segs[n..][0] == segs[n] && segs[n..][1..] == segs[n + 1..] && Accepted(segs)[n] == segs[n];
    RegionsHas(first, m[dir], i);
  }

  lemma InvTables(m: map<nat, Table>, first: nat, dir: nat, segs: seq<Segment>, n: nat, low: nat, high: nat,
                  owned: set<nat>, frames: set<nat>)
    requires LoadInv(m, first, dir, segs, n, low, high, owned, frames)
    ensures dir in m && n <= |segs| && low <= high && TablesIn(first, m[dir], frames)
    ensures TableFrames(low, high, owned, Regions(first, m[dir]), segs[n..]) <= frames
  {
  }

  lemma RegionsHas(first: nat, d: Table, i: nat)
    requires i < ENTRIES
    ensures i in Regions(first, d) <==> PrivateTable(first, d[i])
  {
  }

  lemma TableGiven(first: nat, d: Table, d2: Table, i: nat, t: nat, f: nat, frames: set<nat>)
    requires i < ENTRIES && Given(first, d, d2, i, t, f * FRAME_SIZE) && TablesIn(first, d, frames)
    requires (PrivateTable(first, d[i]) || f in frames)
    ensures TablesIn(first, d2, frames) && Frame(t) in frames && Regions(first, d2) == Regions(first, d) + {i}
    ensures !PrivateTable(first, d[i]) ==> Frame(t) == f
  {
    assert Frame(f * FRAME_SIZE) == f;
  }

  lemma FramesAfter(low: nat, high: nat, owned: set<nat>, have: set<nat>, segs: seq<Segment>)
    requires low <= high && segs != [] && EndPage(segs[0]) <= USER_STACK
    ensures var i := segs[0].vaddr / REGION;
            var owned2 := if i in have then owned else owned + {LeastFree(low, high, owned)};
            TableFrames(low, high, HandOut(low, high, owned2, PagesFrom(segs[0], StartPage(segs[0]))), have + {i},
              segs[1..])
            <= TableFrames(low, high, owned, have, segs)
  {
    hide HandOut, LeastFree, PagesFrom, EndPage, StartPage;
    assert owned + {} == owned;
  }

  lemma InvMapped(m: map<nat, Table>, first: nat, dir: nat, segs: seq<Segment>, n: nat, low: nat, high: nat,
                  owned: set<nat>, frames: set<nat>)
    requires LoadInv(m, first, dir, segs, n, low, high, owned, frames)
    ensures dir in m && n <= |Accepted(segs)|
    ensures OnlyMapped(m, first, m[dir], Accepted(segs), n) && AllMapped(m, first, m[dir], Accepted(segs), n)
  {
  }

  lemma IntroInv(m: map<nat, Table>, first: nat, dir: nat, segs: seq<Segment>, n: nat, low: nat, high: nat,
                 owned: set<nat>, frames: set<nat>)
    requires dir in m && n <= |Accepted(segs)| && low <= high
    requires OnlyMapped(m, first, m[dir], Accepted(segs), n) && AllMapped(m, first, m[dir], Accepted(segs), n)
    requires TablesIn(first, m[dir], frames)
    requires TableFrames(low, high, owned, Regions(first, m[dir]), segs[n..]) <= frames
    ensures LoadInv(m, first, dir, segs, n, low, high, owned, frames)
  {
  }

  lemma IntroEnd(m: map<nat, Table>, first: nat, dir: nat, segs: seq<Segment>, n: nat, low: nat, frames: set<nat>)
    requires dir in m && n <= |segs| && OnlyMapped(m, first, m[dir], segs, n)
    requires Avoids(segs, low, {Frame(dir)} + frames) && TablesIn(first, m[dir], frames)
    ensures LoadEnd(m, first, dir, low, frames)
  {
    hide OnlyMapped, Avoids, TablesIn, Mapped, Clear;
    OnlyClear(m, first, m[dir], segs, n, low, {Frame(dir)} + frames);
  }

  /** Directory and next table are reached before a segment is loaded. */
  lemma ReachedBefore(m: map<nat, Table>, first: nat, dir: nat, segs: seq<Segment>, n: nat, low: nat, high: nat,
                      owned: set<nat>, frames: set<nat>)
    requires LoadInv(m, first, dir, segs, n, low, high, owned, frames) && n < |segs| && segs[n].vaddr < TWO_32
    requires Avoids(Accepted(segs), low, {Frame(dir)} + frames)
    ensures dir in m && Reached(m, first, m[dir], dir)
    ensures PrivateTable(first, m[dir][segs[n].vaddr / REGION])
      || Reached(m, first, m[dir], LeastFree(low, high, owned) * FRAME_SIZE)
  {
    var f, all := LeastFree(low, high, owned), {Frame(dir)} + frames;
    assert f * FRAME_SIZE / FRAME_SIZE == f && Frame(dir) == dir / FRAME_SIZE;
    hide *;
    InvMapped(m, first, dir, segs, n, low, high, owned, frames);
    NextTable(m, first, dir, segs, n, low, high, owned, frames);
    OnlyClear(m, first, m[dir], Accepted(segs), n, low, all);
    ClearReaches(m, first, m[dir], low, all, dir);
    if f in frames { ClearReaches(m, first, m[dir], low, all, f * FRAME_SIZE); }
  }

  /** The table is reached, and the segment's pages are free to be mapped. */
  lemma ReadyToMap(m: map<nat, Table>, first: nat, dir: nat, segs: seq<Segment>, n: nat, low: nat, frames: set<nat>,
                   t: nat)
    requires dir in m && n < |segs| && OnlyMapped(m, first, m[dir], segs, n) && Avoids(segs, low, {Frame(dir)} + frames)
    requires SharesNoPage(segs)
    requires Frame(t) in frames
    ensures Reached(m, first, m[dir], t)
    ensures forall j :: 0 <= j < ENTRIES && NeedsPage(segs[n], j) ==> !Mapped(m, first, m[dir], j) && j != Frame(t)
  {
    var all := {Frame(dir)} + frames;
    assert Frame(t) == t / FRAME_SIZE;
    hide *;
    OnlyClear(m, first, m[dir], segs, n, low, all);
    ClearReaches(m, first, m[dir], low, all, t);
    NotYet(m, first, m[dir], segs, n);
    forall j: nat | j < ENTRIES && NeedsPage(segs[n], j) ensures j != Frame(t) {
      AvoidsAt(segs, low, all, n, j);
    }
  }

  lemma Accepts(segs: seq<Segment>, n: nat)
    requires n <= |Accepted(segs)| && n < |segs| && EndPage(segs[n]) <= USER_STACK
    ensures n < |Accepted(segs)| && Accepted(segs)[n] == segs[n]
  {
  }

  /** One segment of the forecast. */
  lemma ForeseenOne(low: nat, high: nat, owned: set<nat>, have: set<nat>, segs: seq<Segment>)
    requires low <= high && segs != []
    ensures var will, i, n := Foreseen(low, high, owned, have, segs), segs[0].vaddr / REGION,
              PagesFrom(segs[0], StartPage(segs[0]));
            var with := WithTable(low, high, owned, i in have);
            && (i in have ==> with == owned) && (i !in have ==> with == owned + {LeastFree(low, high, owned)})
            && (i !in have && !Below4M(low, high, owned) ==> will.outcome == Refused)
            && (i in have || Below4M(low, high, owned) ==>
                  && (EndPage(segs[0]) > USER_STACK ==> will.outcome == Refused)
                  && (EndPage(segs[0]) <= USER_STACK ==>
                        var end := PagesEnd(low, high, with, n);
                        && (end != Loaded ==> will.outcome == end)
                        && (end == Loaded ==>
                              will == Foreseen(low, high, HandOut(low, high, with, n), have + {i}, segs[1..]))))
  {
    hide HandOut, LeastFree, PagesFrom, EndPage, StartPage, PagesEnd, Below4M;
  }

  /** One round of the loader's loop: a table for the segment's region, then its pages.  The bytes
      that follow go to those pages, whose contents are not part of the model. */
  method LoadSegment(spaces: AddressSpaces, dir: nat, segs: seq<Segment>, n: nat, ghost rest: set<nat>,
                     ghost frames: set<nat>) returns (r: Outcome)
    requires spaces.Space(dir, rest) && n < |segs| && segs[n].vaddr < TWO_32
    requires LoadInv(spaces.memory, spaces.first, dir, segs, n, spaces.pmm.low, spaces.pmm.high, spaces.pmm.owned,
      frames)
    requires SharesNoPage(Accepted(segs)) && Avoids(Accepted(segs), spaces.pmm.low, {Frame(dir)} + frames)
    modifies spaces, spaces.pmm, spaces.pmm.used
    ensures r == Halted ==> exists f :: f in spaces.pmm.owned - old(spaces.pmm.owned) && f * FRAME_SIZE >= IDENTITY_END
    ensures r != Halted ==> spaces.Space(dir, rest) && LoadEnd(spaces.memory, spaces.first, dir, spaces.pmm.low, frames)
    ensures r == Loaded ==> n < |Accepted(segs)| && dir in spaces.memory
    ensures var will := Foreseen(spaces.pmm.low, spaces.pmm.high, old(spaces.pmm.owned),
                                 Regions(spaces.first, old(spaces.memory)[dir]), segs[n..]);
            if r != Loaded then will.outcome == r
            else will == Foreseen(spaces.pmm.low, spaces.pmm.high, spaces.pmm.owned,
                                  Regions(spaces.first, spaces.memory[dir]), segs[n + 1..])
    ensures r == Loaded ==>
      LoadInv(spaces.memory, spaces.first, dir, segs, n + 1, spaces.pmm.low, spaces.pmm.high, spaces.pmm.owned, frames)
    ensures old(spaces.pmm.owned) <= spaces.pmm.owned
  {
    hide Exact, Mapped, NeedsPage, OnlyMapped, AllMapped, SharesNoPage, TableFrames, Avoids, LoadInv, LoadEnd, Clear,
      TablesIn, Regions,
         Accepted, HandOut, LeastFree, Reached, EndPage, StartPage, PagesFrom, Given, Interval, PagesEnd, Foreseen,
         Below4M, WithTable;
    ghost var m, owned, first, low, high, acc :=
      spaces.memory, spaces.pmm.owned, spaces.first, spaces.pmm.low, spaces.pmm.high, Accepted(segs);
    InvMapped(m, first, dir, segs, n, low, high, owned, frames);
    InvTables(m, first, dir, segs, n, low, high, owned, frames);
    ReachedBefore(m, first, dir, segs, n, low, high, owned, frames);
    NextTable(m, first, dir, segs, n, low, high, owned, frames);
    ForeseenOne(low, high, owned, Regions(first, m[dir]), segs[n..]);
    RegionsHas(first, m[dir], segs[n].vaddr / REGION);
    assert segs[n..][0] == segs[n] && segs[n..][1..] == segs[n + 1..];
    var table := spaces.GetOrCreateUserTable(dir, segs[n].vaddr, rest);
    if table == 0 {
      IntroEnd(m, first, dir, acc, n, low, frames);
      return Refused;
    }
    ghost var m1, owned1 := spaces.memory, spaces.pmm.owned;
    SameMapped(m, first, m[dir], m1, m1[dir], acc, n);
    TableGiven(first, m[dir], m1[dir], segs[n].vaddr / REGION, table, LeastFree(low, high, owned), frames);
    if EndPage(segs[n]) > USER_STACK {
      IntroEnd(m1, first, dir, acc, n, low, frames);
      return Refused;
    }
    Accepts(segs, n);
    TableFound(m, first, dir, segs, n, low, high, owned, frames, m1, owned1, table);
    ReadyToMap(m1, first, dir, acc, n, low, frames, table);
    FirstRegion(segs[n]);
    GivenIs(first, m[dir], m1[dir], segs[n].vaddr / REGION, table, LeastFree(low, high, owned) * FRAME_SIZE);
    r := MapPages(spaces, dir, table, segs[n], rest);
    if r == Halted {
      ghost var f :| f in spaces.pmm.owned - owned1 && f * FRAME_SIZE >= IDENTITY_END;
      assert f in spaces.pmm.owned - owned;
      return;
    }
    OneMoreMapped(m1, first, m1[dir], spaces.memory, spaces.memory[dir], acc, n);
    IntroEnd(spaces.memory, first, dir, acc, n + 1, low, frames);
    if r == Refused {
      return;
    }
    MoreAllMapped(m1, first, m1[dir], spaces.memory, spaces.memory[dir], acc, n);
    IntroInv(spaces.memory, first, dir, segs, n + 1, low, high, spaces.pmm.owned, frames);
  }

  lemma GivenIs(first: nat, d: Table, d2: Table, i: nat, t: nat, next: nat)
    requires i < ENTRIES && Given(first, d, d2, i, t, next)
    ensures PrivateTable(first, d2[i]) && Base(d2[i]) == t && Aligned(t) && t < IDENTITY_END
  {
  }

  /** The loop of elf_load_and_run over the loadable segments.  It gives up when it gets no table
      or no frame, or when a segment would reach the stack page.  For a harmless program the
      account of frames stays exact. */
  method LoadSegments(spaces: AddressSpaces, dir: nat, segs: seq<Segment>, ghost rest: set<nat>) returns (r: Outcome)
    requires spaces.Space(dir, rest) && dir in spaces.memory && Fresh(spaces.first, spaces.memory[dir])
    requires Harmless(segs, spaces.pmm.low, spaces.pmm.high, spaces.pmm.owned, dir)
    modifies spaces, spaces.pmm, spaces.pmm.used
    ensures r == LoadedAs(spaces.pmm.low, spaces.pmm.high, old(spaces.pmm.owned), segs)
    ensures old(spaces.pmm.owned) <= spaces.pmm.owned
    ensures r == Halted ==> exists f :: f in spaces.pmm.owned - old(spaces.pmm.owned) && f * FRAME_SIZE >= IDENTITY_END
    ensures r != Halted ==> spaces.Space(dir, rest)
    ensures r != Halted ==> LoadEnd(spaces.memory, spaces.first, dir, spaces.pmm.low,
                                    TableFrames(spaces.pmm.low, spaces.pmm.high, old(spaces.pmm.owned), {}, segs))
    ensures r == Loaded ==>
      segs != [] && Accepted(segs) == segs && AllMapped(spaces.memory, spaces.first, spaces.memory[dir], segs, |segs|)
    ensures r == Loaded ==>
      var will := Foreseen(spaces.pmm.low, spaces.pmm.high, old(spaces.pmm.owned), {}, segs);
      spaces.pmm.owned == will.owned && Regions(spaces.first, spaces.memory[dir]) == will.have
  {
    hide Exact, AllMapped, SharesNoPage, TableFrames, Avoids, LoadInv, LoadEnd, Accepted, Interval, Mapped, NeedsPage,
         Fresh, Foreseen, Regions;
    ghost var will := Foreseen(spaces.pmm.low, spaces.pmm.high, spaces.pmm.owned, {}, segs);
    FreshRegions(spaces.first, spaces.memory[dir]);
    assert segs[0..] == segs;
    ghost var frames := TableFrames(spaces.pmm.low, spaces.pmm.high, spaces.pmm.owned, {}, segs);
    LoadStart(spaces.memory, spaces.first, dir, segs, spaces.pmm.low, spaces.pmm.high, spaces.pmm.owned);
    InvMapped(spaces.memory, spaces.first, dir, segs, 0, spaces.pmm.low, spaces.pmm.high, spaces.pmm.owned, frames);
    InvTables(spaces.memory, spaces.first, dir, segs, 0, spaces.pmm.low, spaces.pmm.high, spaces.pmm.owned, frames);
    IntroEnd(spaces.memory, spaces.first, dir, Accepted(segs), 0, spaces.pmm.low, frames);
    var n := 0;
    while n < |segs|
      invariant 0 <= n <= |Accepted(segs)| <= |segs| && spaces.Space(dir, rest)
      invariant old(spaces.pmm.owned) <= spaces.pmm.owned
      invariant LoadInv(spaces.memory, spaces.first, dir, segs, n, spaces.pmm.low, spaces.pmm.high, spaces.pmm.owned,
        frames)
      invariant LoadEnd(spaces.memory, spaces.first, dir, spaces.pmm.low, frames) && dir in spaces.memory
      invariant Foreseen(spaces.pmm.low, spaces.pmm.high, spaces.pmm.owned, Regions(spaces.first, spaces.memory[dir]),
                         segs[n..]) == will
    {
      ghost var owned := spaces.pmm.owned;
      r := LoadSegment(spaces, dir, segs, n, rest, frames);
      if r == Halted {
        ghost var f :| f in spaces.pmm.owned - owned && f * FRAME_SIZE >= IDENTITY_END;
        assert f in spaces.pmm.owned - old(spaces.pmm.owned);
        return;
      }
      if r == Refused {
        return;
      }
      n := n + 1;
    }
    InvMapped(spaces.memory, spaces.first, dir, segs, n, spaces.pmm.low, spaces.pmm.high, spaces.pmm.owned, frames);
    ForeseenNone(spaces.pmm.low, spaces.pmm.high, spaces.pmm.owned, Regions(spaces.first, spaces.memory[dir]),
                 segs[n..]);
    r := if |segs| > 0 then Loaded else Refused;
  }

  lemma ForeseenNone(low: nat, high: nat, owned: set<nat>, have: set<nat>, segs: seq<Segment>)
    requires low <= high && segs == []
    ensures Foreseen(low, high, owned, have, segs) == Forecast(Loaded, owned, have)
  {
  }

  lemma FreshRegions(first: nat, d: Table)
    requires Aligned(first) && Fresh(first, d)
    ensures Regions(first, d) == {}
  {
    forall i: nat | i < ENTRIES ensures !PrivateTable(first, d[i]) {
      KernelShared(first, i);
    }
  }

  /** How elf_load_and_run ends for these segments; a program without any is refused. */
  ghost function LoadedAs(low: nat, high: nat, owned: set<nat>, segs: seq<Segment>): (r: Outcome)
    requires low <= high
  {
    if segs == [] then Refused else Foreseen(low, high, owned, {}, segs).outcome
  }

  /** The part of usermode_enter that gives the task its stack page. */
  method MapStack(spaces: AddressSpaces, dir: nat, ghost rest: set<nat>, ghost frames: set<nat>) returns (r: Outcome)
    requires spaces.Space(dir, rest) && LoadEnd(spaces.memory, spaces.first, dir, spaces.pmm.low, frames)
    modifies spaces, spaces.pmm, spaces.pmm.used
    ensures r == StackEnd(spaces.pmm.low, spaces.pmm.high, old(spaces.pmm.owned),
                          PrivateTable(spaces.first, old(spaces.memory)[dir][0]))
    ensures r == Halted ==> exists f :: f in spaces.pmm.owned - old(spaces.pmm.owned) && f * FRAME_SIZE >= IDENTITY_END
    ensures r != Halted ==> spaces.Space(dir, rest) && dir in spaces.memory
    ensures r == Loaded ==> forall j :: 0 <= j < ENTRIES ==>
      (Mapped(spaces.memory, spaces.first, spaces.memory[dir], j)
       <==> Mapped(old(spaces.memory), spaces.first, old(spaces.memory)[dir], j) || j == USER_STACK / FRAME_SIZE)
  {
    hide Exact, Mapped, LoadEnd, LeastFree, Reached, PrivateTable, Given, MapsExactly, Stored, Translate, Interval,
         Finds;
    ghost var m, first, owned := spaces.memory, spaces.first, spaces.pmm.owned;
    EndReaches(m, first, dir, spaces.pmm.low, frames);
    var frame := spaces.pmm.AllocFrame();
    if frame == 0 {
      return Refused;
    }
    ghost var f := Frame(frame);
    assert f in spaces.pmm.owned - owned && f * FRAME_SIZE == frame;
    if frame >= IDENTITY_END {
      return Halted;
    }
    Taken(m, first, dir, owned, rest, f);
    FreshRest(m, first, dir, owned, rest, f);
    var table := spaces.GetOrCreateUserTable(dir, USER_STACK, rest + {f});
    if table == 0 {
      FrameInRange(spaces.memory, first, dir, spaces.pmm.owned, rest + {f}, f);
      Returned(spaces.memory, first, dir, spaces.pmm.owned, rest + {f}, f);
      spaces.pmm.FreeFrame(frame);
      return Refused;
    }
    GivenIs(first, m[dir], spaces.memory[dir], 0, table,
            LeastFree(spaces.pmm.low, spaces.pmm.high, owned + {f}) * FRAME_SIZE);
    StackReady(m, first, dir, spaces.pmm.low, frames, spaces.memory, table,
               LeastFree(spaces.pmm.low, spaces.pmm.high, owned + {f}) * FRAME_SIZE);
    Ready(spaces.memory, first, dir, rest + {f}, table, USER_STACK, frame);
    spaces.MapUserPage(dir, table, USER_STACK, frame, rest + {f});
    r := Loaded;
  }

  /** Without a table of its own a directory has no private page, so everything is reached. */
  lemma EndReaches(m: map<nat, Table>, first: nat, dir: nat, low: nat, frames: set<nat>)
    requires LoadEnd(m, first, dir, low, frames)
    ensures dir in m && Reached(m, first, m[dir], dir)
    ensures forall a :: PrivateTable(first, m[dir][0]) || Reached(m, first, m[dir], a)
  {
    ClearReaches(m, first, m[dir], low, {Frame(dir)} + frames, dir);
  }

  lemma StackReady(m: map<nat, Table>, first: nat, dir: nat, low: nat, frames: set<nat>, m2: map<nat, Table>, t: nat,
                   next: nat)
    requires LoadEnd(m, first, dir, low, frames) && dir in m2 && Given(first, m[dir], m2[dir], 0, t, next)
    requires forall j :: 0 <= j < ENTRIES ==> (Mapped(m2, first, m2[dir], j) <==> Mapped(m, first, m[dir], j))
    ensures Reached(m2, first, m2[dir], t) && !Mapped(m2, first, m2[dir], USER_STACK / FRAME_SIZE)
  {
    if PrivateTable(first, m[dir][0]) {
      ClearReaches(m, first, m[dir], low, {Frame(dir)} + frames, t);
    }
  }

  // --------------------------------------------------- a program that covers its own table

  /** The memory after a program's first page, over the page of the task's own table at t, has
      been mapped to the frame at f. */
  ghost function Covered(first: nat, d: Table, dir: nat, t: nat, f: nat): (m: map<nat, Table>)
    requires t < IDENTITY_END
  {
    var m := map[dir := d][t := KernelTable()][dir := d[0 := t + PRESENT_WRITABLE_USER]];
    m[t := m[t][Frame(t) := f + PRESENT_WRITABLE_USER]]
  }

  predicate Distinct(a: nat, b: nat, c: nat, d: nat) {
    a != b && a != c && a != d && b != c && b != d && c != d
  }

  lemma CoveredTable(first: nat, d: Table, dir: nat, t: nat)
    requires Aligned(first) && Aligned(dir) && Aligned(t) && Fresh(first, d)
    requires dir < IDENTITY_END && t < IDENTITY_END && t != first && Frame(dir) != Frame(t)
    ensures Exact(map[dir := d][t := KernelTable()][dir := d[0 := t + PRESENT_WRITABLE_USER]], first, dir,
      {Frame(dir), Frame(t)}, {})
  {
    var m0 := map[dir := d];
    hide Exact, Mapped, Frame, Fresh;
    Cloned(map[], first, dir, d, {});
    assert map[][dir := d] == m0 && {} + {Frame(dir)} == {Frame(dir)};
    Taken(m0, first, dir, {Frame(dir)}, {}, Frame(t));
    FreshTable(first, d);
    TableTaken(m0, first, dir, {Frame(dir)} + {Frame(t)}, {} + {Frame(t)}, 0, t);
    assert {} + {Frame(t)} - {Frame(t)} == {} && {Frame(dir)} + {Frame(t)} == {Frame(dir), Frame(t)};
  }

  lemma FreshTable(first: nat, d: Table)
    requires Aligned(first) && Fresh(first, d)
    ensures !PrivateTable(first, d[0])
  {
    KernelShared(first, 0);
  }

  lemma CoveredIs(first: nat, d: Table, dir: nat, t: nat, f: nat, g: nat)
    requires Aligned(first) && Aligned(dir) && Aligned(t) && Aligned(f) && Aligned(g) && Fresh(first, d)
    requires dir < IDENTITY_END && t < IDENTITY_END && t != first && Distinct(Frame(dir), Frame(t), Frame(f), Frame(g))
    ensures Exact(Covered(first, d, dir, t, f), first, dir, {Frame(dir), Frame(t), Frame(f), Frame(g)}, {Frame(g)})
  {
    hide Exact, Frame, Fresh, Covered;
    CoveredPage(first, d, dir, t, f);
    Taken(Covered(first, d, dir, t, f), first, dir, {Frame(dir), Frame(t), Frame(f)}, {}, Frame(g));
    assert {Frame(dir), Frame(t), Frame(f)} + {Frame(g)} == {Frame(dir), Frame(t), Frame(f), Frame(g)};
    assert {} + {Frame(g)} == {Frame(g)};
  }

  /** The page is mapped over the table's own address. */
  lemma CoveredPage(first: nat, d: Table, dir: nat, t: nat, f: nat)
    requires Aligned(first) && Aligned(dir) && Aligned(t) && Aligned(f) && Fresh(first, d)
    requires dir < IDENTITY_END && t < IDENTITY_END && t != first
    requires Frame(dir) != Frame(t) && Frame(f) != Frame(dir) && Frame(f) != Frame(t)
    ensures Exact(Covered(first, d, dir, t, f), first, dir, {Frame(dir), Frame(t), Frame(f)}, {})
  {
    var m1 := map[dir := d][t := KernelTable()][dir := d[0 := t + PRESENT_WRITABLE_USER]];
    CoveredSlot(first, d, dir, t);
    hide Exact, Mapped, Frame, Fresh, KernelTable, PrivateTable, PrivateLeaf, Base, Aligned;
    CoveredTable(first, d, dir, t);
    Taken(m1, first, dir, {Frame(dir), Frame(t)}, {}, Frame(f));
    ThreeFrames(Frame(dir), Frame(t), Frame(f));
    PageTaken(m1, first, dir, {Frame(dir), Frame(t), Frame(f)}, {Frame(f)}, 0, Frame(t), f);
  }

  lemma ThreeFrames(a: nat, b: nat, c: nat)
    ensures {a, b} + {c} == {a, b, c} && {} + {c} == {c} && {c} - {c} == {}
  {
  }

  lemma CoveredSlot(first: nat, d: Table, dir: nat, t: nat)
    requires Aligned(first) && Aligned(t) && t < IDENTITY_END && t != first
    ensures var e := t + PRESENT_WRITABLE_USER;
            && Base(e) == t && PrivateTable(first, e) && Frame(t) < ENTRIES
            && !PrivateLeaf(KernelTable()[Frame(t)], Frame(t))
  {
    BaseOf(t, PRESENT_WRITABLE_USER);
    UserBit(0, PageOf(t));
    assert KernelTable()[PageOf(t)] == KernelEntry(PageOf(t)) && Frame(t) == PageOf(t);
  }

  /** The page of the first 4 MB at an address. */
  function PageOf(a: nat): (j: nat)
    requires a < IDENTITY_END
    ensures j < ENTRIES && j == Frame(a)
  {
    a / FRAME_SIZE
  }

  /** Whatever page is mapped next, its frame g is recorded nowhere: the word goes into the page
      that covers the table, and taking the space apart does not free the frame. */
  lemma CoveringLeaks(first: nat, d: Table, dir: nat, t: nat, f: nat, g: nat, j: nat)
    requires Aligned(first) && Aligned(dir) && Aligned(t) && Aligned(f) && Aligned(g) && Fresh(first, d) && j < ENTRIES
    requires dir < IDENTITY_END && t < IDENTITY_END && t != first && Distinct(Frame(dir), Frame(t), Frame(f), Frame(g))
    ensures var m := Covered(first, d, dir, t, f);
            && dir in m && Translate(m, first, m[dir], Frame(t)) == Some(f)
            && var m2 := Stored(m, f, j, g + PRESENT_WRITABLE_USER);
               m2[dir] == m[dir] && !Held(m2, first, m2[dir], g)
  {
    var m := Covered(first, d, dir, t, f);
    CoveredIs(first, d, dir, t, f, g);
    BaseOf(t, PRESENT_WRITABLE_USER);
    UserBit(f, PageOf(t));
    CoveredOnce(first, d, dir, t, f);
    hide Exact, Held, MappedOnce, KernelTable;
    CoveredTableLeaks(m, first, dir, {Frame(dir), Frame(t), Frame(f), Frame(g)}, {Frame(g)}, j, g);
  }

  lemma CoveredOnce(first: nat, d: Table, dir: nat, t: nat, f: nat)
    requires Aligned(first) && Aligned(t) && Aligned(f) && Fresh(first, d) && t < IDENTITY_END && t != first && dir != t
    requires f != t
    ensures var m := Covered(first, d, dir, t, f);
            && dir in m && PrivateTable(first, m[dir][0]) && Base(m[dir][0]) == t && t in m
            && Mapped(m, first, m[dir], PageOf(t)) && MappedOnce(m, first, m[dir], 0, PageOf(t))
            && Base(m[t][PageOf(t)]) == f
  {
    var m := Covered(first, d, dir, t, f);
    BaseOf(t, PRESENT_WRITABLE_USER);
    UserBit(f, PageOf(t));
    forall k | 0 < k < ENTRIES ensures !PrivateTable(first, m[dir][k]) {
      KernelShared(first, k);
    }
  }

  /** Two segments, the second from a page behind the end of the first on, above the frames of
      directory and table. */
  lemma TwoHarmless(segs: seq<Segment>, low: nat, high: nat, owned: set<nat>, dir: nat)
    requires low <= high && |segs| == 2 && segs[0].vaddr + segs[0].memsz <= segs[1].vaddr && Aligned(segs[1].vaddr)
    requires forall k :: 0 <= k < 2 ==>
      segs[k].vaddr + segs[k].memsz <= USER_STACK && segs[k].filesz <= segs[k].memsz
    requires low <= segs[0].vaddr / FRAME_SIZE && Frame(dir) < segs[0].vaddr / FRAME_SIZE
    requires LeastFree(low, high, owned) < segs[0].vaddr / FRAME_SIZE
    ensures Accepted(segs) == segs && Harmless(segs, low, high, owned, dir)
  {
    BelowStack(segs[0]);
    BelowStack(segs[1]);
    OnlyOneTable(low, high, owned, segs);
    TwoAccepted(segs);
    TwoApart(segs, low, {Frame(dir)} + TableFrames(low, high, owned, {}, segs));
    hide EndPage, StartPage, LeastFree, TableFrames, NeedsPage, StaysInside, Accepted, SharesNoPage, Avoids, Aligned,
         Frame;
  }

  lemma BelowStack(s: Segment)
    requires s.vaddr + s.memsz <= USER_STACK && s.filesz <= s.memsz
    ensures s.vaddr + s.memsz <= EndPage(s) <= USER_STACK && StaysInside(s)
  {
    EndPageIs(s);
    EndAligned(s);
    hide EndPage;
  }

  /** Every program as userspace/linker.ld lays it out, code at 0x300000 and data from the next page
      on, of any sizes that end below the stack: it is harmless once its directory and the next
      free frame lie below 0x300000. */
  lemma OrdinaryHarmless(code: nat, codeFile: nat, data: nat, dataFile: nat, low: nat, high: nat, owned: set<nat>,
                         dir: nat)
    requires codeFile <= code && dataFile <= data && RoundUp(0x30_0000 + code) + data <= USER_STACK
    requires low <= high && low <= 0x300 && Frame(dir) < 0x300 && LeastFree(low, high, owned) < 0x300
    ensures Harmless([Segment(0x30_0000, code, codeFile), Segment(RoundUp(0x30_0000 + code), data, dataFile)],
                     low, high, owned, dir)
  {
    hide Harmless, LeastFree;
    TwoHarmless([Segment(0x30_0000, code, codeFile), Segment(RoundUp(0x30_0000 + code), data, dataFile)],
                low, high, owned, dir);
  }

  /** The next page border. */
  function RoundUp(a: nat): (r: nat)
    ensures Aligned(r) && a <= r < a + FRAME_SIZE
  {
    (a + FRAME_SIZE - 1) / FRAME_SIZE * FRAME_SIZE
  }

  lemma TwoApart(segs: seq<Segment>, low: nat, frames: set<nat>)
    requires |segs| == 2 && segs[0].vaddr + segs[0].memsz <= segs[1].vaddr && Aligned(segs[1].vaddr)
    requires segs[1].vaddr <= USER_STACK
    requires low <= segs[0].vaddr / FRAME_SIZE && forall f :: f in frames ==> f < segs[0].vaddr / FRAME_SIZE
    ensures SharesNoPage(segs) && Avoids(segs, low, frames)
  {
    EndPageIs(segs[0]);
    EndAligned(segs[0]);
    assert EndPage(segs[0]) <= segs[1].vaddr == StartPage(segs[1]);
    hide EndPage, Aligned;
    forall k, j: nat | 0 <= k < 2 && NeedsPage(segs[k], j) ensures segs[0].vaddr / FRAME_SIZE <= j {
      assert StartPage(segs[0]) <= StartPage(segs[k]);
    }
  }

  lemma TwoAccepted(segs: seq<Segment>)
    requires |segs| == 2 && EndPage(segs[0]) <= USER_STACK && EndPage(segs[1]) <= USER_STACK
    ensures Accepted(segs) == segs
  {
    hide EndPage;
    assert segs[1..] == [segs[1]] && Accepted([segs[1]]) == [segs[1]];
  }

  /** Once a program is loaded every byte of it is on a private page. */
  lemma BytesMapped(m: map<nat, Table>, first: nat, d: Table, segs: seq<Segment>, k: nat, b: nat)
    requires AllMapped(m, first, d, segs, |segs|) && k < |segs| && b < segs[k].memsz
    requires segs[k].vaddr + segs[k].memsz <= USER_STACK
    ensures PageAt(segs[k], b) < ENTRIES && Mapped(m, first, d, PageAt(segs[k], b))
  {
    hide Mapped, NeedsPage;
    assert HoldsByte(segs[k], PageAt(segs[k], b));
    PagesNeeded(segs[k], PageAt(segs[k], b));
  }

  /** Two segments in the first region get one table. */
  lemma OnlyOneTable(low: nat, high: nat, owned: set<nat>, segs: seq<Segment>)
    requires low <= high && |segs| == 2 && segs[0].vaddr < REGION && segs[1].vaddr < REGION
    ensures TableFrames(low, high, owned, {}, segs) <= {LeastFree(low, high, owned)}
  {
    hide LeastFree, HandOut, EndPage, StartPage, PagesFrom;
    var rest := segs[1..];
    assert rest[1..] == [] && rest[0] == segs[1];
    forall more, have: set<nat> | 0 in have ensures TableFrames(low, high, more, have, rest) == {} {
      assert forall s: set<nat> :: TableFrames(low, high, s, have + {0}, rest[1..]) == {};
    }
  }

  /** A segment in the last 4 MB whose end wraps to 0 is accepted and needs no page.  It gets a
      fresh table for its region, a copy of the kernel's, so its bytes are written to the physical
      pages from x to 4 MB: the frames of others, or its own tables. */
  lemma WrappedSegment(m: map<nat, Table>, first: nat, d: Table, x: nat)
    requires Aligned(first) && Aligned(x) && x < REGION && PrivateTable(first, d[ENTRIES - 1])
    requires Base(d[ENTRIES - 1]) in m && m[Base(d[ENTRIES - 1])] == KernelTable()
    ensures var s := Segment(0xFFC0_0000 + x, REGION - x, REGION - x);
            && EndPage(s) == 0 && (forall j: nat :: !NeedsPage(s, j)) && !StaysInside(s)
            && s.vaddr / REGION == ENTRIES - 1 && s.vaddr / FRAME_SIZE % ENTRIES == x / FRAME_SIZE
            && forall j :: x / FRAME_SIZE <= j < ENTRIES ==>
                 TranslateIn(m, first, d, ENTRIES - 1, j) == Some(j * FRAME_SIZE)
  {
    forall j | 0 <= j < ENTRIES ensures TranslateIn(m, first, d, ENTRIES - 1, j) == Some(j * FRAME_SIZE) {
      BaseOf(j * FRAME_SIZE, PRESENT_WRITABLE);
    }
  }

  /** One page at 0xFFFFF000 is such a program: it avoids the kernel, the directory and the tables,
      and its bytes go to the physical page 0x3FF000. */
  lemma WrappedNotHarmless()
    ensures var segs := [Segment(0xFFFF_F000, 4096, 4096)];
            && Accepted(segs) == segs && SharesNoPage(segs)
            && Avoids(segs, 0x220, TableFrames(0x220, 0x1000, {0x220}, {}, segs))
            && LoadedAs(0x220, 0x1000, {0x220}, segs) == Loaded && !Harmless(segs, 0x220, 0x1000, {0x220}, 0x22_0000)
  {
    var segs := [Segment(0xFFFF_F000, 4096, 4096)];
    WrappedAccepted(segs);
    WrappedLoads(segs);
    hide *;
    HarmlessStays(segs, 0x220, 0x1000, {0x220}, 0x22_0000);
  }

  lemma HarmlessStays(segs: seq<Segment>, low: nat, high: nat, owned: set<nat>, dir: nat)
    requires low <= high && Accepted(segs) != []
    ensures Harmless(segs, low, high, owned, dir) ==> StaysInside(Accepted(segs)[0])
  {
    hide TableFrames, StaysInside, Avoids, SharesNoPage;
  }

  lemma WrappedAccepted(segs: seq<Segment>)
    requires segs == [Segment(0xFFFF_F000, 4096, 4096)]
    ensures Accepted(segs) == segs && EndPage(segs[0]) == 0 && !StaysInside(segs[0]) && SharesNoPage(segs)
    ensures Avoids(segs, 0x220, TableFrames(0x220, 0x1000, {0x220}, {}, segs))
  {
    hide TableFrames;
    assert segs[1..] == [] && Accepted(segs[1..]) == [];
    assert forall j: nat :: !NeedsPage(segs[0], j);
    hide NeedsPage, EndPage;
  }

  lemma WrappedLoads(segs: seq<Segment>)
    requires segs == [Segment(0xFFFF_F000, 4096, 4096)]
    ensures LoadedAs(0x220, 0x1000, {0x220}, segs) == Loaded
  {
    assert LeastFree(0x220, 0x1000, {0x220}) == 0x221;
    assert 0x220 <= 0x221 < 0x1000 && 0x221 !in {0x220};
    hide LeastFree;
    assert Finds(0x220, 0x1000, {0x220});
    assert PagesFrom(segs[0], StartPage(segs[0])) == 0 && EndPage(segs[0]) == 0;
    hide Finds, EndPage, StartPage, PagesFrom;
    ForeseenOne(0x220, 0x1000, {0x220}, {}, segs);
    var with := WithTable(0x220, 0x1000, {0x220}, false);
    ForeseenNone(0x220, 0x1000, HandOut(0x220, 0x1000, with, 0), {} + {1023}, segs[1..]);
  }

  /** Two one-page segments, the first over the page of the task's table: the directory is at
      0x220000 and every frame from 0x221000 on is free, so the table comes to 0x221000. */
  lemma NotHarmless()
    ensures var segs := [Segment(0x22_1000, 4096, 4096), Segment(0x30_0000, 4096, 4096)];
            && NeedsPage(segs[0], 0x221) && NeedsPage(segs[1], 0x300) && Accepted(segs) == segs && SharesNoPage(segs)
            && 0x221 in TableFrames(0x220, 0x1000, {0x220}, {}, segs)
            && !Harmless(segs, 0x220, 0x1000, {0x220}, 0x22_0000)
  {
    var segs := [Segment(0x22_1000, 4096, 4096), Segment(0x30_0000, 4096, 4096)];
    BelowStack(segs[0]);
    BelowStack(segs[1]);
    PagesNeeded(segs[0], 0x221);
    PagesNeeded(segs[1], 0x300);
    TwoApart(segs, 0, {});
    TwoAccepted(segs);
    assert LeastFree(0x220, 0x1000, {0x220}) == 0x221;
    hide HandOut, LeastFree, EndPage, StartPage, NeedsPage, Accepted;
    assert NeedsPage(Accepted(segs)[0], 0x221);
  }
}
