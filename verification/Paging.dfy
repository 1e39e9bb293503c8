/**
  Page directories and tables, and the life of a task's address space: cloned from the
  kernel's, filled with private frames by the program loader, and taken apart again.
*/
module Paging {
  import opened Common
  import opened Pmm

  const ENTRIES := 1024
  const IDENTITY_END := 0x40_0000

  /** What one directory entry covers. */
  const REGION := 0x40_0000

  /** A directory or table: 1024 words, each an aligned address plus flag bits. */
  type Table = t: seq<nat> | |t| == ENTRIES witness seq(ENTRIES, _ => 0)

  const PRESENT_WRITABLE := 3
  const PRESENT_WRITABLE_USER := 7

  predicate Present(e: nat) {
    e % 2 == 1
  }

  function Base(e: nat): (a: nat) {
    e / FRAME_SIZE * FRAME_SIZE
  }

  predicate Aligned(a: nat) {
    a % FRAME_SIZE == 0
  }

  lemma BaseOf(a: nat, flags: nat)
    requires Aligned(a) && flags < FRAME_SIZE
    ensures Base(a + flags) == a && (a + flags) % 2 == flags % 2
  {
    assert a == a / FRAME_SIZE * FRAME_SIZE;
  }

  /** The kernel's first page table maps the first 4 MB to itself, for the kernel only. */
  function KernelEntry(j: nat): nat {
    j * FRAME_SIZE + PRESENT_WRITABLE
  }

  function KernelTable(): (t: Table) {
    seq(ENTRIES, j requires 0 <= j < ENTRIES => KernelEntry(j))
  }

  /** The kernel's directory has that one table, at address `first`. */
  function KernelDir(first: nat, i: nat): nat {
    if i == 0 then first + PRESENT_WRITABLE_USER else 0
  }

  predicate PrivateTable(first: nat, e: nat) {
    Present(e) && Base(e) != first
  }

  predicate PrivateLeaf(e: nat, j: nat) {
    Present(e) && e != KernelEntry(j)
  }

  /** The user bit tells a private page from every copy of a kernel entry. */
  lemma UserBit(a: nat, j: nat)
    requires Aligned(a)
    ensures PrivateLeaf(a + PRESENT_WRITABLE_USER, j) && Base(a + PRESENT_WRITABLE_USER) == a
    ensures !PrivateLeaf(KernelEntry(j), j)
  {
    BaseOf(a, PRESENT_WRITABLE_USER);
    BaseOf(j * FRAME_SIZE, PRESENT_WRITABLE);
    assert a == a / FRAME_SIZE * FRAME_SIZE;
  }

  // ---------------------------------------------------------------- what a space holds

  /** Entry j of the table is a private page at address a. */
  predicate LeafAt(t: Table, j: int, a: nat) {
    0 <= j < ENTRIES && PrivateLeaf(t[j], j) && Base(t[j]) == a
  }

  /** Entry i of the directory is a private table, which is at address a or maps it. */
  ghost predicate HeldAt(m: map<nat, Table>, first: nat, d: Table, i: int, a: nat) {
    && 0 <= i < ENTRIES && PrivateTable(first, d[i])
    && (Base(d[i]) == a || (Base(d[i]) in m && exists j :: LeafAt(m[Base(d[i])], j, a)))
  }

  /** The frame at address a belongs to the directory: a private table or a private page. */
  ghost predicate Held(m: map<nat, Table>, first: nat, d: Table, a: nat) {
    exists i :: HeldAt(m, first, d, i, a)
  }

  /** Every entry is the kernel's or a private table of its own. */
  ghost predicate WellTabled(m: map<nat, Table>, first: nat, d: Table) {
    && (forall i :: 0 <= i < ENTRIES ==> d[i] == KernelDir(first, i) || (PrivateTable(first, d[i]) && Base(d[i]) in m))
    && (forall i, j :: 0 <= i < j < ENTRIES && PrivateTable(first, d[i]) && PrivateTable(first, d[j]) ==>
          Base(d[i]) != Base(d[j]))
    && (forall i :: 0 <= i < ENTRIES && PrivateTable(first, d[i]) && Base(d[i]) in m ==>
          Base(d[i]) < IDENTITY_END && Leaves(m[Base(d[i])]))
  }

  /** Every entry of a table is the kernel's or a private page. */
  ghost predicate Leaves(t: Table) {
    forall j :: 0 <= j < ENTRIES ==> t[j] == KernelEntry(j) || PrivateLeaf(t[j], j)
  }

  /** Page j of the first 4 MB is private. */
  predicate Mapped(m: map<nat, Table>, first: nat, d: Table, j: nat)
    requires j < ENTRIES
  {
    PrivateTable(first, d[0]) && Base(d[0]) in m && PrivateLeaf(m[Base(d[0])][j], j)
  }

  // --------------------------------------------------------- how the kernel reaches memory

  /** What the processor makes of page j of region i under a directory. */
  function TranslateIn(m: map<nat, Table>, first: nat, d: Table, i: nat, j: nat): (a: Option<nat>)
    requires i < ENTRIES && j < ENTRIES
  {
    if !Present(d[i]) then None
    else if Base(d[i]) == first then Some(Base(KernelEntry(j)))
    else if Base(d[i]) in m && Present(m[Base(d[i])][j]) then Some(Base(m[Base(d[i])][j]))
    else None
  }

  /** The same for the first region, where the kernel's pointers are. */
  function Translate(m: map<nat, Table>, first: nat, d: Table, j: nat): (a: Option<nat>)
    requires j < ENTRIES
  {
    TranslateIn(m, first, d, 0, j)
  }

  /** The kernel uses the physical address of a directory, a table or a frame as a pointer.
      Under a task's directory that pointer reaches the frame exactly when the page there is not
      private; otherwise it reaches the private page. */
  lemma TranslateIs(m: map<nat, Table>, first: nat, d: Table, j: nat)
    requires Aligned(first) && WellTabled(m, first, d) && j < ENTRIES
    ensures Translate(m, first, d, j) == Some(if Mapped(m, first, d, j) then Base(m[Base(d[0])][j]) else j * FRAME_SIZE)
  {
    BaseOf(first, PRESENT_WRITABLE_USER);
    BaseOf(j * FRAME_SIZE, PRESENT_WRITABLE);
    assert d[0] == KernelDir(first, 0) || (PrivateTable(first, d[0]) && Base(d[0]) in m && Leaves(m[Base(d[0])]));
  }

  /** A pointer to address a reaches the frame at a. */
  ghost predicate Reached(m: map<nat, Table>, first: nat, d: Table, a: nat) {
    a < IDENTITY_END ==> !Mapped(m, first, d, a / FRAME_SIZE)
  }

  /** One word stored at a physical page; pages that are no directory or table are not kept. */
  function Stored(m: map<nat, Table>, p: nat, j: nat, e: nat): (m2: map<nat, Table>)
    requires j < ENTRIES
  {
    if p in m then m[p := m[p][j := e]] else m
  }

  /** Giving the directory a fresh private table adds exactly that table. */
  lemma TableAdded(m: map<nat, Table>, first: nat, d: Table, i: nat, t: nat, a: nat)
    requires i < ENTRIES && Aligned(t) && t != first && t < IDENTITY_END && WellTabled(m, first, d)
    requires !PrivateTable(first, d[i])
    requires forall k :: 0 <= k < ENTRIES && PrivateTable(first, d[k]) ==> Base(d[k]) != t
    ensures var m2, d2 := m[t := KernelTable()], d[i := t + PRESENT_WRITABLE_USER];
            && WellTabled(m2, first, d2) && (Held(m2, first, d2, a) <==> Held(m, first, d, a) || a == t)
  {
    var m2, d2 := m[t := KernelTable()], d[i := t + PRESENT_WRITABLE_USER];
    BaseOf(t, PRESENT_WRITABLE_USER);
    assert forall j :: !LeafAt(KernelTable(), j, a);
    forall k | 0 <= k < ENTRIES && k != i ensures HeldAt(m2, first, d2, k, a) <==> HeldAt(m, first, d, k, a) {
    }
    assert HeldAt(m2, first, d2, i, a) <==> a == t;
    assert !HeldAt(m, first, d, i, a);
  }

  lemma OtherTable(m: map<nat, Table>, first: nat, d: Table, i: nat, k: nat)
    requires i < ENTRIES && k < ENTRIES && i != k && WellTabled(m, first, d) && PrivateTable(first, d[i])
    ensures PrivateTable(first, d[k]) ==> Base(d[k]) != Base(d[i])
  {
    assert i < k || k < i;
  }

  /** Mapping a page over a kernel entry adds exactly that page. */
  lemma PageAdded(m: map<nat, Table>, first: nat, d: Table, i: nat, j: nat, f: nat, a: nat)
    requires i < ENTRIES && j < ENTRIES && Aligned(f) && WellTabled(m, first, d) && PrivateTable(first, d[i])
    requires Base(d[i]) in m && !PrivateLeaf(m[Base(d[i])][j], j)
    ensures var t := Base(d[i]);
            var m2 := m[t := m[t][j := f + PRESENT_WRITABLE_USER]];
            && WellTabled(m2, first, d) && (Held(m2, first, d, a) <==> Held(m, first, d, a) || a == f)
  {
    var t := Base(d[i]);
    var m2 := m[t := m[t][j := f + PRESENT_WRITABLE_USER]];
    UserBit(f, j);
    forall k | 0 <= k < ENTRIES && k != i ensures HeldAt(m2, first, d, k, a) <==> HeldAt(m, first, d, k, a) {
      OtherTable(m, first, d, i, k);
      assert PrivateTable(first, d[k]) && Base(d[k]) in m ==> m2[Base(d[k])] == m[Base(d[k])];
    }
    assert LeafAt(m2[t], j, a) <==> a == f;
    assert !LeafAt(m[t], j, a);
    assert forall l :: l != j ==> (LeafAt(m2[t], l, a) <==> LeafAt(m[t], l, a));
    assert HeldAt(m2, first, d, i, a) <==> HeldAt(m, first, d, i, a) || a == f;
  }

  // ------------------------------------------------------------------------ the calls

  function Frame(a: nat): nat {
    a / FRAME_SIZE
  }

  lemma SameFrame(a: nat, b: nat)
    requires Aligned(a) && Aligned(b) && Frame(a) == Frame(b)
    ensures a == b
  {
    assert a == Frame(a) * FRAME_SIZE && b == Frame(b) * FRAME_SIZE;
  }

  /** Of the frames handed out, `rest` belong to others; all the others are the directory
      itself and what it holds, and those are apart from the rest. */
  ghost predicate Exact(m: map<nat, Table>, first: nat, dir: nat, owned: set<nat>, rest: set<nat>) {
    && dir in m && Aligned(dir) && dir < IDENTITY_END && Frame(dir) !in rest && WellTabled(m, first, m[dir])
    && (forall a: nat :: Aligned(a) ==>
          (Frame(a) in owned <==> Frame(a) in rest || a == dir || Held(m, first, m[dir], a)))
    && (forall a: nat :: Held(m, first, m[dir], a) ==> Aligned(a) && Frame(a) !in rest && a != dir)
  }

  /** The directory is still a copy of the kernel's. */
  ghost predicate Fresh(first: nat, d: Table) {
    forall i :: 0 <= i < ENTRIES ==> d[i] == KernelDir(first, i)
  }

  lemma Cloned(m: map<nat, Table>, first: nat, dir: nat, d: Table, owned: set<nat>)
    requires Aligned(first) && Aligned(dir) && dir < IDENTITY_END && Frame(dir) !in owned && Fresh(first, d)
    ensures Exact(m[dir := d], first, dir, owned + {Frame(dir)}, owned)
  {
    BaseOf(first, PRESENT_WRITABLE_USER);
    BaseOf(0, 0);
    assert forall i :: 0 <= i < ENTRIES ==> !PrivateTable(first, d[i]);
    forall a: nat | Aligned(a) && Frame(a) == Frame(dir) ensures a == dir {
      SameFrame(a, dir);
    }
  }

  /** A frame handed out to somebody else. */
  lemma Taken(m: map<nat, Table>, first: nat, dir: nat, owned: set<nat>, rest: set<nat>, f: nat)
    requires Exact(m, first, dir, owned, rest) && f !in owned
    ensures Exact(m, first, dir, owned + {f}, rest + {f})
  {
    assert Frame(dir) in owned;
    forall a: nat | Held(m, first, m[dir], a) ensures Frame(a) != f {
      assert Frame(a) in owned;
    }
  }

  lemma Returned(m: map<nat, Table>, first: nat, dir: nat, owned: set<nat>, rest: set<nat>, f: nat)
    requires Exact(m, first, dir, owned, rest) && f in rest
    ensures Exact(m, first, dir, owned - {f}, rest - {f})
  {
  }

  /** The directory takes over a frame as a private table. */
  lemma TableTaken(m: map<nat, Table>, first: nat, dir: nat, owned: set<nat>, rest: set<nat>, i: nat, t: nat)
    requires Exact(m, first, dir, owned, rest) && i < ENTRIES && Aligned(t) && t != first && t < IDENTITY_END
    requires Frame(t) in rest
    requires !PrivateTable(first, m[dir][i])
    ensures var m2 := m[t := KernelTable()][dir := m[dir][i := t + PRESENT_WRITABLE_USER]];
            && Exact(m2, first, dir, owned, rest - {Frame(t)})
            && PrivateTable(first, m2[dir][i]) && Base(m2[dir][i]) == t
            && forall j :: 0 <= j < ENTRIES ==> (Mapped(m2, first, m2[dir], j) <==> Mapped(m, first, m[dir], j))
  {
    var d := m[dir];
    var m1, d2 := m[t := KernelTable()], d[i := t + PRESENT_WRITABLE_USER];
    var m2 := m1[dir := d2];
    assert t != dir;
    BaseOf(t, PRESENT_WRITABLE_USER);
    forall k | 0 <= k < ENTRIES && PrivateTable(first, d[k]) ensures Base(d[k]) != t && Base(d[k]) != dir {
      assert HeldAt(m, first, d, k, Base(d[k]));
      assert Held(m, first, d, Base(d[k]));
    }
    forall a: nat ensures Held(m2, first, d2, a) <==> Held(m, first, d, a) || a == t {
      TableAdded(m, first, d, i, t, a);
      DirNotRead(m1, first, dir, d2, a);
    }
    TableAdded(m, first, d, i, t, 0);
    WellNotRead(m1, first, dir, d2);
    forall a: nat | Aligned(a) && Frame(a) == Frame(t) ensures a == t {
      SameFrame(a, t);
    }
  }

  /** What a directory holds does not depend on where the directory itself is stored. */
  lemma DirNotRead(m: map<nat, Table>, first: nat, dir: nat, d: Table, a: nat)
    requires forall k :: 0 <= k < ENTRIES && PrivateTable(first, d[k]) ==> Base(d[k]) != dir
    ensures Held(m[dir := d], first, d, a) <==> Held(m, first, d, a)
  {
    var m2 := m[dir := d];
    forall k ensures HeldAt(m2, first, d, k, a) <==> HeldAt(m, first, d, k, a) {
      if 0 <= k < ENTRIES && PrivateTable(first, d[k]) && Base(d[k]) in m {
        assert m2[Base(d[k])] == m[Base(d[k])];
      }
    }
  }

  lemma WellNotRead(m: map<nat, Table>, first: nat, dir: nat, d: Table)
    requires WellTabled(m, first, d) && forall k :: 0 <= k < ENTRIES && PrivateTable(first, d[k]) ==> Base(d[k]) != dir
    ensures WellTabled(m[dir := d], first, d)
  {
  }

  /** The directory takes over a frame as a private page. */
  lemma PageTaken(m: map<nat, Table>, first: nat, dir: nat, owned: set<nat>, rest: set<nat>, i: nat, j: nat, f: nat)
    requires Exact(m, first, dir, owned, rest) && i < ENTRIES && j < ENTRIES && Aligned(f) && Frame(f) in rest
    requires PrivateTable(first, m[dir][i]) && Base(m[dir][i]) in m && !PrivateLeaf(m[Base(m[dir][i])][j], j)
    ensures var t := Base(m[dir][i]);
            var m2 := m[t := m[t][j := f + PRESENT_WRITABLE_USER]];
            && m2[dir] == m[dir] && Exact(m2, first, dir, owned, rest - {Frame(f)})
            && forall l :: 0 <= l < ENTRIES ==>
                 (Mapped(m2, first, m2[dir], l) <==> Mapped(m, first, m[dir], l) || (i == 0 && l == j))
  {
    var d, t := m[dir], Base(m[dir][i]);
    var m2 := m[t := m[t][j := f + PRESENT_WRITABLE_USER]];
    assert HeldAt(m, first, d, i, t);
    assert Held(m, first, d, t) && t != dir;
    UserBit(f, j);
    forall a: nat ensures Held(m2, first, d, a) <==> Held(m, first, d, a) || a == f {
      PageAdded(m, first, d, i, j, f, a);
    }
    PageAdded(m, first, d, i, j, f, 0);
    forall a: nat | Aligned(a) && Frame(a) == Frame(f) ensures a == f {
      SameFrame(a, f);
    }
    if i != 0 {
      OtherTable(m, first, d, i, 0);
    }
  }

  /** Entry j of table t is the only place where the directory maps its page. */
  ghost predicate MappedOnce(m: map<nat, Table>, first: nat, d: Table, i: nat, j: nat)
    requires i < ENTRIES && j < ENTRIES && Base(d[i]) in m
  {
    var a := Base(m[Base(d[i])][j]);
    && (forall k :: 0 <= k < ENTRIES && PrivateTable(first, d[k]) ==> Base(d[k]) != a)
    && (forall k, l ::
          0 <= k < ENTRIES && PrivateTable(first, d[k]) && Base(d[k]) in m && LeafAt(m[Base(d[k])], l, a) ==>
            k == i && l == j)
  }

  /** Mapping a page keeps the account of frames exact if and only if the page was not
      private before: mapping it again forgets the old frame, which is then never freed. */
  lemma ExactUnlessShared(m: map<nat, Table>, first: nat, dir: nat, owned: set<nat>, rest: set<nat>, i: nat, j: nat,
                          f: nat)
    requires Exact(m, first, dir, owned, rest) && i < ENTRIES && j < ENTRIES && Aligned(f) && Frame(f) in rest
    requires PrivateTable(first, m[dir][i]) && Base(m[dir][i]) in m
    requires PrivateLeaf(m[Base(m[dir][i])][j], j) ==> MappedOnce(m, first, m[dir], i, j)
    ensures var t := Base(m[dir][i]);
            var m2 := m[t := m[t][j := f + PRESENT_WRITABLE_USER]];
            Exact(m2, first, dir, owned, rest - {Frame(f)}) <==> !PrivateLeaf(m[t][j], j)
  {
    var d, t := m[dir], Base(m[dir][i]);
    if !PrivateLeaf(m[t][j], j) {
      PageTaken(m, first, dir, owned, rest, i, j, f);
    } else {
      var m2, a := m[t := m[t][j := f + PRESENT_WRITABLE_USER]], Base(m[t][j]);
      assert LeafAt(m[t], j, a) && HeldAt(m, first, d, i, a);
      assert Held(m, first, d, a);
      assert HeldAt(m, first, d, i, t);
      assert Held(m, first, d, t) && t != dir && m2[dir] == d;
      UserBit(f, j);
      assert a != f;
      forall k ensures !HeldAt(m2, first, d, k, a) {
        if 0 <= k < ENTRIES && PrivateTable(first, d[k]) && Base(d[k]) in m {
          forall l ensures !LeafAt(m2[Base(d[k])], l, a) {
            assert LeafAt(m2[Base(d[k])], l, a) ==> LeafAt(m[Base(d[k])], l, a);
          }
        }
      }
      assert !Held(m2, first, d, a) && Frame(a) in owned && a != dir && Frame(a) !in rest;
    }
  }

  /** With the processor's view: mapping a page through a pointer to the table keeps the
      account exact if and only if neither that page nor the page of the table itself is private.
      Otherwise the frame of the page, or the frame mapped there before, is never freed. */
  lemma MapsExactlyWhen(m: map<nat, Table>, first: nat, dir: nat, owned: set<nat>, rest: set<nat>, j: nat, f: nat)
    requires Exact(m, first, dir, owned, rest) && Aligned(first) && j < ENTRIES && Aligned(f) && Frame(f) in rest
    requires PrivateTable(first, m[dir][0]) && Base(m[dir][0]) in m && Frame(Base(m[dir][0])) < ENTRIES
    requires forall l :: 0 <= l < ENTRIES && Mapped(m, first, m[dir], l) ==> MappedOnce(m, first, m[dir], 0, l)
    ensures var t := Base(m[dir][0]);
            var p := Translate(m, first, m[dir], Frame(t));
            && p.Some?
            && (Exact(Stored(m, p.value, j, f + PRESENT_WRITABLE_USER), first, dir, owned, rest - {Frame(f)})
                <==> Reached(m, first, m[dir], t) && !Mapped(m, first, m[dir], j))
  {
    hide Exact, WellTabled, Mapped, MappedOnce, Translate, PrivateTable, PrivateLeaf, Held;
    InMemory(m, first, dir, owned, rest);
    var d, t := m[dir], Base(m[dir][0]);
    TableAligned(d[0]);
    TranslateIs(m, first, d, Frame(t));
    MappedIs(m, first, d, j);
    if !Mapped(m, first, d, Frame(t)) {
      ExactUnlessShared(m, first, dir, owned, rest, 0, j, f);
    } else {
      CoveredTableLeaks(m, first, dir, owned, rest, j, f);
    }
  }

  lemma TableAligned(e: nat)
    ensures Frame(Base(e)) * FRAME_SIZE == Base(e) && (Frame(Base(e)) < ENTRIES <==> Base(e) < IDENTITY_END)
    ensures Frame(Base(e)) == Base(e) / FRAME_SIZE
  {
  }

  lemma MappedIs(m: map<nat, Table>, first: nat, d: Table, j: nat)
    requires j < ENTRIES && PrivateTable(first, d[0]) && Base(d[0]) in m
    ensures Mapped(m, first, d, j) <==> PrivateLeaf(m[Base(d[0])][j], j)
  {
  }

  /** If the page of the table is private, the word goes into that page, and the frame that was
      to be mapped belongs to nobody. */
  lemma CoveredTableLeaks(m: map<nat, Table>, first: nat, dir: nat, owned: set<nat>, rest: set<nat>, j: nat, f: nat)
    requires Exact(m, first, dir, owned, rest) && Aligned(first) && j < ENTRIES && Aligned(f) && Frame(f) in rest
    requires PrivateTable(first, m[dir][0]) && Base(m[dir][0]) in m && Frame(Base(m[dir][0])) < ENTRIES
    requires Mapped(m, first, m[dir], Frame(Base(m[dir][0]))) && MappedOnce(m, first, m[dir], 0, Frame(Base(m[dir][0])))
    ensures var p := Translate(m, first, m[dir], Frame(Base(m[dir][0])));
            && p.Some?
            && var m2 := Stored(m, p.value, j, f + PRESENT_WRITABLE_USER);
               m2[dir] == m[dir] && !Held(m2, first, m2[dir], f) && Frame(f) in owned
    ensures !Exact(Stored(m, Translate(m, first, m[dir], Frame(Base(m[dir][0]))).value, j, f + PRESENT_WRITABLE_USER),
                   first, dir, owned, rest - {Frame(f)})
  {
    var d, t := m[dir], Base(m[dir][0]);
    var a := Base(m[t][Frame(t)]);
    TranslateIs(m, first, d, Frame(t));
    assert LeafAt(m[t], Frame(t), a) && HeldAt(m, first, d, 0, a);
    assert Held(m, first, d, a) && a != dir;
    var m2 := Stored(m, a, j, f + PRESENT_WRITABLE_USER);
    RestOwned(m, first, dir, owned, rest, Frame(f));
    forall k ensures HeldAt(m2, first, d, k, f) <==> HeldAt(m, first, d, k, f) {
      assert 0 <= k < ENTRIES && PrivateTable(first, d[k]) ==> Base(d[k]) != a;
    }
    assert !Held(m, first, d, f) && f != dir;
  }

  /** A pointer to a frame that is not handed out reaches that frame if and only if its page is
      not private; otherwise it reaches a page of the task. */
  lemma FreePointer(m: map<nat, Table>, first: nat, dir: nat, owned: set<nat>, rest: set<nat>, j: nat)
    requires Exact(m, first, dir, owned, rest) && Aligned(first) && j < ENTRIES && j !in owned
    ensures var p := Translate(m, first, m[dir], j);
            && (p == Some(j * FRAME_SIZE) <==> !Mapped(m, first, m[dir], j))
            && (Mapped(m, first, m[dir], j) ==> p.Some? && p.value != j * FRAME_SIZE && Held(m, first, m[dir], p.value))
  {
    var d := m[dir];
    hide Exact, WellTabled, Translate;
    InMemory(m, first, dir, owned, rest);
    TranslateIs(m, first, d, j);
    if Mapped(m, first, d, j) {
      var a := Base(m[Base(d[0])][j]);
      assert LeafAt(m[Base(d[0])], j, a) && HeldAt(m, first, d, 0, a);
      HeldOwned(m, first, dir, owned, rest, a);
      assert Frame(j * FRAME_SIZE) == j;
    }
  }

  lemma HeldOwned(m: map<nat, Table>, first: nat, dir: nat, owned: set<nat>, rest: set<nat>, a: nat)
    requires Exact(m, first, dir, owned, rest) && Held(m, first, m[dir], a)
    ensures Frame(a) in owned
  {
  }

  // ------------------------------------------------------------------ taking it apart

  /** Held through one of the first n directory entries; mapped by one of the first n
      entries of a table. */
  ghost predicate HeldBelow(m: map<nat, Table>, first: nat, d: Table, n: nat, a: nat) {
    exists i :: i < n && HeldAt(m, first, d, i, a)
  }

  ghost predicate LeafBelow(t: Table, n: nat, a: nat) {
    exists j :: j < n && LeafAt(t, j, a)
  }

  lemma LeafNext(t: Table, n: nat, a: nat)
    requires n < ENTRIES
    ensures LeafBelow(t, n + 1, a) <==> LeafBelow(t, n, a) || LeafAt(t, n, a)
  {
    if LeafBelow(t, n + 1, a) {
      var j :| j < n + 1 && LeafAt(t, j, a);
      assert j < n ==> LeafBelow(t, n, a);
    }
  }

  lemma HeldNext(m: map<nat, Table>, first: nat, d: Table, n: nat, a: nat)
    requires n < ENTRIES
    ensures HeldBelow(m, first, d, n + 1, a) <==> HeldBelow(m, first, d, n, a) || HeldAt(m, first, d, n, a)
    ensures HeldAt(m, first, d, n, a) <==>
            PrivateTable(first, d[n]) && (Base(d[n]) == a || (Base(d[n]) in m && LeafBelow(m[Base(d[n])], ENTRIES, a)))
  {
    if HeldBelow(m, first, d, n + 1, a) {
      var i :| i < n + 1 && HeldAt(m, first, d, i, a);
      assert i < n ==> HeldBelow(m, first, d, n, a);
    }
    if PrivateTable(first, d[n]) && Base(d[n]) in m {
      LeafAll(m[Base(d[n])], a);
    }
  }

  lemma LeafAll(t: Table, a: nat)
    ensures LeafBelow(t, ENTRIES, a) <==> exists j :: LeafAt(t, j, a)
  {
    if j :| LeafAt(t, j, a) {
      assert j < ENTRIES;
    }
  }

  lemma HeldAll(m: map<nat, Table>, first: nat, d: Table, a: nat)
    ensures HeldBelow(m, first, d, ENTRIES, a) <==> Held(m, first, d, a)
  {
    if i :| HeldAt(m, first, d, i, a) {
      assert i < ENTRIES;
    }
  }

  /** Of the frames in `start`, those that are gone are the ones in `gone`. */
  ghost predicate Without(owned: set<nat>, start: set<nat>, gone: iset<nat>) {
    forall a: nat :: Aligned(a) ==> (Frame(a) in owned <==> Frame(a) in start && a !in gone)
  }

  /** The next frame to be handed out is found, and lies below 4 MB. */
  ghost predicate Below4M(low: nat, high: nat, owned: set<nat>)
    requires low <= high
  {
    Finds(low, high, owned) && LeastFree(low, high, owned) * FRAME_SIZE < IDENTITY_END
  }

  /** The table for region i after paging_get_or_create_user_table: the one there was, or a new
      one in the frame handed out next. */
  ghost predicate Given(first: nat, d: Table, d2: Table, i: nat, t: nat, next: nat)
    requires i < ENTRIES
  {
    && PrivateTable(first, d2[i]) && Base(d2[i]) == t && Aligned(t) && t < IDENTITY_END
    && if PrivateTable(first, d[i]) then d2 == d else t == next && d2 == d[i := t + PRESENT_WRITABLE_USER]
  }

  /** What mapping a page takes to keep the account: it is the table of the first region, the
      frame is in hand, and neither the table's page nor the page itself is private. */
  ghost predicate MapsExactly(m: map<nat, Table>, first: nat, dir: nat, rest: set<nat>, t: nat, vaddr: nat, frame: nat)
    requires dir in m
  {
    && PrivateTable(first, m[dir][0]) && Base(m[dir][0]) == t && vaddr < IDENTITY_END && Frame(frame) in rest
    && Reached(m, first, m[dir], t) && !Mapped(m, first, m[dir], vaddr / FRAME_SIZE)
  }

  class AddressSpaces {
    const pmm: FrameAllocator
    const first: nat
    var memory: map<nat, Table>

    ghost predicate Valid()
      reads this, pmm, pmm.used
    {
      pmm.Valid() && Aligned(first) && Frame(first) < pmm.low
    }

    /** The space at dir is exact, apart from the frames of others. */
    ghost predicate Space(dir: nat, rest: set<nat>)
      reads this, pmm, pmm.used
    {
      Valid() && Exact(memory, first, dir, pmm.owned, rest)
    }

    constructor (pmm: FrameAllocator, first: nat)
      requires pmm.Valid() && Aligned(first) && Frame(first) < pmm.low
      ensures Valid() && this.pmm == pmm && this.first == first
    {
      this.pmm, this.first, memory := pmm, first, map[];
    }

    /** A frame for a directory or a table has to lie in the identity-mapped 4 MB. */
    method AllocTableFrame() returns (a: nat)
      requires Valid()
      modifies pmm, pmm.used
      ensures Valid() && Aligned(a)
      ensures a == 0 <==> !old(HasNext())
      ensures a == 0 ==> pmm.owned == old(pmm.owned)
      ensures a != 0 ==>
        && a == old(Next()) < IDENTITY_END && Frame(a) !in old(pmm.owned) && pmm.owned == old(pmm.owned) + {Frame(a)}
        && a != first
    {
      a := pmm.AllocFrame();
      if a == 0 {
        return;
      }
      if a >= IDENTITY_END {
        pmm.FreeFrame(a);
        assert pmm.owned == old(pmm.owned);
        a := 0;
      }
    }

    /** The directory that a pointer is followed under: a task's, or the kernel's own, which
        maps every page of the first 4 MB to itself. */
    ghost predicate Loaded(current: Option<nat>)
      reads this
    {
      current.Some? ==> current.value in memory && WellTabled(memory, first, memory[current.value])
    }

    ghost predicate Reaches(current: Option<nat>, a: nat)
      requires Loaded(current)
      reads this
    {
      current.Some? ==> Reached(memory, first, memory[current.value], a)
    }

    /** The physical page behind a pointer of the kernel.  A page mapped since CR3 was loaded
        last may or may not be seen yet. */
    method Access(current: Option<nat>, a: nat) returns (p: nat)
      requires Loaded(current) && Aligned(first) && Aligned(a) && a < IDENTITY_END
      ensures Reaches(current, a) ==> p == a
      ensures p != a ==> Some(p) == Translate(memory, first, memory[current.value], a / FRAME_SIZE)
    {
      p := a;
      if current.Some? {
        TranslateIs(memory, first, memory[current.value], a / FRAME_SIZE);
        if * {
          p := Translate(memory, first, memory[current.value], a / FRAME_SIZE).value;
        }
      }
    }

    /** The frame that pmm_alloc_frame hands out next, if it finds one. */
    ghost function Next(): (a: nat)
      requires pmm.Valid()
      reads pmm, pmm.used
    {
      LeastFree(pmm.low, pmm.high, pmm.owned) * FRAME_SIZE
    }

    /** There is a next frame, and the kernel can write to it. */
    ghost predicate HasNext()
      requires pmm.Valid()
      reads pmm, pmm.used
    {
      Below4M(pmm.low, pmm.high, pmm.owned)
    }

    /** Where the creator's pointer to a new frame leads. */
    ghost function Behind(current: Option<nat>, a: nat): (p: nat)
      requires Loaded(current) && a < IDENTITY_END
      reads this
    {
      if Reaches(current, a) then a
      else
        var p := Translate(memory, first, memory[current.value], a / FRAME_SIZE);
        if p.Some? then p.value else a
    }

    /** paging_clone_kernel_directory, called by a task whose pages were mapped before CR3 was
        loaded last.  It fails exactly without a frame below 4 MB.  The new directory is a copy of
        the kernel's if the creator's pointer reaches its frame; otherwise the copy is written to
        the page behind the pointer, and the frame keeps what it held. */
    method CloneKernelDirectory(current: Option<nat>) returns (dir: nat)
      requires Valid() && Loaded(current)
      modifies this, pmm, pmm.used
      ensures Valid()
      ensures dir == 0 <==> !old(HasNext())
      ensures dir == 0 ==> pmm.owned == old(pmm.owned) && memory == old(memory)
      ensures dir != 0 ==> dir == old(Next()) < IDENTITY_END && pmm.owned == old(pmm.owned) + {Frame(dir)}
      ensures dir != 0 ==>
        exists d: Table :: Fresh(first, d) && memory == old(memory)[old(Behind(current, dir)) := d]
      ensures dir != 0 && old(Reaches(current, Next())) ==>
        Space(dir, old(pmm.owned)) && dir in memory && Fresh(first, memory[dir])
    {
      hide Exact, Held, WellTabled, Mapped, Translate;
      dir := AllocTableFrame();
      if dir == 0 {
        return;
      }
      var d: Table := seq(ENTRIES, _ => 0);
      var i := 0;
      while i < ENTRIES
        invariant 0 <= i <= ENTRIES && forall k :: 0 <= k < i ==> d[k] == KernelDir(first, k)
      {
        d := d[i := KernelDir(first, i)];
        i := i + 1;
      }
      Cloned(memory, first, dir, d, old(pmm.owned));
      var p := dir;
      if current.Some? {
        TranslateIs(memory, first, memory[current.value], dir / FRAME_SIZE);
        p := Translate(memory, first, memory[current.value], dir / FRAME_SIZE).value;
      }
      assert p == old(Behind(current, dir));
      memory := memory[p := d];
      assert Fresh(first, d);
    }

    /** paging_get_or_create_user_table, called under the task's own directory: the directory
        must be reached, and the new table where there has to be one. */
    method GetOrCreateUserTable(dir: nat, vaddr: U32, ghost rest: set<nat>) returns (t: nat)
      requires Space(dir, rest) && dir in memory && Reached(memory, first, memory[dir], dir)
      requires PrivateTable(first, memory[dir][vaddr / REGION]) || Reached(memory, first, memory[dir], Next())
      modifies this, pmm, pmm.used
      ensures Space(dir, rest) && dir in memory && dir in old(memory)
      ensures t == 0 <==> !PrivateTable(first, old(memory)[dir][vaddr / REGION]) && !old(HasNext())
      ensures t == 0 ==> memory == old(memory) && pmm.owned == old(pmm.owned)
      ensures t != 0 && !PrivateTable(first, old(memory)[dir][vaddr / REGION]) ==>
        t in memory && memory[t] == KernelTable()
      ensures t != 0 ==> Given(first, old(memory)[dir], memory[dir], vaddr / REGION, t, old(Next()))
      ensures t != 0 ==> pmm.owned == if PrivateTable(first, old(memory)[dir][vaddr / REGION]) then old(pmm.owned)
        else old(pmm.owned) + {Frame(t)}
      ensures forall j :: 0 <= j < ENTRIES ==>
        (Mapped(memory, first, memory[dir], j) <==> Mapped(old(memory), first, old(memory)[dir], j))
    {
      hide Exact, Held, WellTabled, Mapped, Translate;
      InMemory(memory, first, dir, pmm.owned, rest);
      var i := vaddr / REGION;
      var p := Access(Some(dir), dir);
      var entry := memory[p][i];
      if entry % 2 == 1 && Base(entry) != first {
        TableInMemory(memory, first, dir, pmm.owned, rest, i);
        TableNotZero(memory, first, dir, pmm.owned, rest, pmm.low, pmm.high, i);
        return Base(entry);
      }
      t := AllocTableFrame();
      if t == 0 {
        return;
      }
      Taken(memory, first, dir, old(pmm.owned), rest, Frame(t));
      FreshRest(memory, first, dir, old(pmm.owned), rest, Frame(t));
      InstallTable(dir, i, t, rest + {Frame(t)});
    }

    /** The end of it: filling the new table and entering it into the directory. */
    method InstallTable(dir: nat, i: nat, t: nat, ghost rest: set<nat>)
      requires Space(dir, rest) && dir in memory && i < ENTRIES && !PrivateTable(first, memory[dir][i])
      requires Aligned(t) && t != first && t < IDENTITY_END && Frame(t) in rest
      requires Reached(memory, first, memory[dir], dir) && Reached(memory, first, memory[dir], t)
      modifies this
      ensures dir in memory && Space(dir, rest - {Frame(t)}) && Given(first, old(memory)[dir], memory[dir], i, t, t)
      ensures t in memory && memory[t] == KernelTable()
      ensures forall j :: 0 <= j < ENTRIES ==>
        (Mapped(memory, first, memory[dir], j) <==> Mapped(old(memory), first, old(memory)[dir], j))
    {
      hide Exact, Held, WellTabled, Mapped, Translate;
      ghost var m := memory;
      InMemory(m, first, dir, pmm.owned, rest);
      TableTaken(m, first, dir, pmm.owned, rest, i, t);
      NotRest(m, first, dir, pmm.owned, rest, t);
      StillReached(m, first, dir, pmm.owned, rest, t);
      var p := Access(Some(dir), t);
      memory := memory[p := KernelTable()];
      p := Access(Some(dir), dir);
      memory := memory[p := memory[p][i := t + PRESENT_WRITABLE_USER]];
    }

    /** paging_map_user_page, called under the task's own directory: the word goes to the table
        or, where the table's own page is private, to that page. */
    method MapUserPage(dir: nat, t: nat, vaddr: U32, frame: nat, ghost rest: set<nat>)
      requires Space(dir, rest) && dir in memory && Aligned(t) && t < IDENTITY_END && Aligned(frame)
      modifies this
      ensures var m, j := old(memory), vaddr / FRAME_SIZE % ENTRIES;
              && (memory == Stored(m, t, j, frame + PRESENT_WRITABLE_USER)
                  || (Translate(m, first, m[dir], Frame(t)).Some?
                      && memory == Stored(m, Translate(m, first, m[dir], Frame(t)).value, j,
                        frame + PRESENT_WRITABLE_USER)))
              && (MapsExactly(m, first, dir, rest, t, vaddr, frame) ==>
                    && Space(dir, rest - {Frame(frame)}) && dir in memory && memory[dir] == m[dir]
                    && forall l :: 0 <= l < ENTRIES ==>
                         (Mapped(memory, first, memory[dir], l) <==> Mapped(m, first, m[dir], l) || l == j))
    {
      hide Exact, Held, WellTabled, Mapped, Translate;
      InMemory(memory, first, dir, pmm.owned, rest);
      var index := vaddr / FRAME_SIZE % ENTRIES;
      var p := Access(Some(dir), t);
      if MapsExactly(memory, first, dir, rest, t, vaddr, frame) {
        TableInMemory(memory, first, dir, pmm.owned, rest, 0);
        MappedIs(memory, first, memory[dir], index);
        PageTaken(memory, first, dir, pmm.owned, rest, 0, index, frame);
      }
      if p in memory {
        memory := memory[p := memory[p][index := frame + PRESENT_WRITABLE_USER]];
      }
    }

    /** The frames of one private table, and the table itself. */
    method FreeTable(t: nat, ghost start: set<nat>, ghost gone: iset<nat>) returns (ghost now: iset<nat>)
      requires Valid() && t in memory && Aligned(t) && Without(pmm.owned, start, gone)
      requires pmm.low <= Frame(t) < pmm.high
      requires forall j, a: nat :: LeafAt(memory[t], j, a) ==> pmm.low <= Frame(a) < pmm.high
      modifies pmm, pmm.used
      ensures Valid() && Without(pmm.owned, start, now)
      ensures forall a: nat :: a in now <==> a in gone || a == t || LeafBelow(memory[t], ENTRIES, a)
    {
      hide LeafBelow, Without;
      var table := memory[t];
      now := gone;
      NoLeafYet(table);
      var j := 0;
      while j < ENTRIES
        invariant 0 <= j <= ENTRIES && Valid() && Without(pmm.owned, start, now)
        invariant forall a: nat :: a in now <==> a in gone || LeafBelow(table, j, a)
      {
        var entry := table[j];
        ghost var before := now;
        forall a: nat ensures LeafBelow(table, j + 1, a) <==> LeafBelow(table, j, a) || LeafAt(table, j, a) {
          LeafNext(table, j, a);
        }
        if entry % 2 == 1 && entry != KernelEntry(j) {
          assert LeafAt(table, j, Base(entry));
          now := iset a: nat | a in before || a == Base(entry);
          WithoutMore(pmm.owned, start, before, Base(entry), now);
          FrameOfBase(entry);
          pmm.FreeFrame(Base(entry));
        }
        j := j + 1;
      }
      ghost var before := now;
      now := iset a: nat | a in before || a == t;
      WithoutMore(pmm.owned, start, before, t, now);
      pmm.FreeFrame(t);
    }

    /** paging_free_user_directory: frees exactly what the directory holds. */
    method FreeUserDirectory(dir: nat, ghost rest: set<nat>)
      requires Space(dir, rest)
      modifies pmm, pmm.used
      ensures Valid() && pmm.owned == rest + {Frame(dir)}
    {
      InMemory(memory, first, dir, pmm.owned, rest);
      ghost var start, gone := pmm.owned, iset{};
      var d := memory[dir];
      HeldInRange(memory, first, dir, start, rest, pmm.low, pmm.high);
      hide Exact, Held, WellTabled, HeldBelow, HeldAt, LeafBelow;
      var i := 0;
      NothingBelow(memory, first, d);
      while i < ENTRIES
        invariant 0 <= i <= ENTRIES && Valid() && Without(pmm.owned, start, gone)
        invariant forall a: nat :: a in gone <==> HeldBelow(memory, first, d, i, a)
      {
        forall a: nat ensures HeldBelow(memory, first, d, i + 1, a) <==>
          HeldBelow(memory, first, d, i, a) || HeldAt(memory, first, d, i, a)
          ensures HeldAt(memory, first, d, i, a) <==>
            PrivateTable(first, d[i])
              && (Base(d[i]) == a || (Base(d[i]) in memory && LeafBelow(memory[Base(d[i])], ENTRIES, a)))
        {
          HeldNext(memory, first, d, i, a);
        }
        var entry := d[i];
        if entry % 2 == 1 && Base(entry) != first {
          TableInMemory(memory, first, dir, start, rest, i);
          TableInRange(memory, first, d, i, pmm.low, pmm.high);
          FrameOfBase(entry);
          hide Without;
          gone := FreeTable(Base(entry), start, gone);
        }
        i := i + 1;
      }
      AllGone(memory, first, dir, start, rest, pmm.owned, gone);
    }
  }

  lemma FrameInRange(m: map<nat, Table>, first: nat, dir: nat, owned: set<nat>, rest: set<nat>, f: nat)
    requires Exact(m, first, dir, owned, rest) && f in rest
    ensures f in owned
  {
    RestOwned(m, first, dir, owned, rest, f);
  }

  lemma HeldInRange(m: map<nat, Table>, first: nat, dir: nat, owned: set<nat>, rest: set<nat>, low: nat, high: nat)
    requires Exact(m, first, dir, owned, rest) && low <= high && owned <= Interval(low, high)
    ensures forall a: nat :: Held(m, first, m[dir], a) ==> Aligned(a) && low <= Frame(a) < high
  {
    forall a: nat | Held(m, first, m[dir], a) ensures Aligned(a) && low <= Frame(a) < high {
      assert Frame(a) in owned;
    }
  }

  lemma TableInRange(m: map<nat, Table>, first: nat, d: Table, i: nat, low: nat, high: nat)
    requires i < ENTRIES && PrivateTable(first, d[i]) && Base(d[i]) in m
    requires forall a: nat :: Held(m, first, d, a) ==> Aligned(a) && low <= Frame(a) < high
    ensures low <= Frame(Base(d[i])) < high
    ensures forall j, a: nat :: LeafAt(m[Base(d[i])], j, a) ==> low <= Frame(a) < high
  {
    assert HeldAt(m, first, d, i, Base(d[i]));
    assert Held(m, first, d, Base(d[i]));
    forall j, a: nat | LeafAt(m[Base(d[i])], j, a) ensures low <= Frame(a) < high {
      assert HeldAt(m, first, d, i, a);
      assert Held(m, first, d, a);
    }
  }

  lemma TableNotZero(m: map<nat, Table>, first: nat, dir: nat, owned: set<nat>, rest: set<nat>, low: nat, high: nat,
                     i: nat)
    requires Exact(m, first, dir, owned, rest) && 0 < low <= high && owned <= Interval(low, high)
    requires i < ENTRIES && PrivateTable(first, m[dir][i]) && Base(m[dir][i]) in m
    ensures Base(m[dir][i]) != 0
  {
    HeldInRange(m, first, dir, owned, rest, low, high);
    TableInRange(m, first, m[dir], i, low, high);
  }

  lemma NothingBelow(m: map<nat, Table>, first: nat, d: Table)
    ensures forall a: nat :: !HeldBelow(m, first, d, 0, a)
  {
  }

  lemma AllGone(m: map<nat, Table>, first: nat, dir: nat, start: set<nat>, rest: set<nat>, owned: set<nat>,
                gone: iset<nat>)
    requires Exact(m, first, dir, start, rest) && Without(owned, start, gone)
    requires forall a: nat :: a in gone <==> HeldBelow(m, first, m[dir], ENTRIES, a)
    ensures owned == rest + {Frame(dir)}
  {
    forall f: nat ensures f in owned <==> f in rest + {Frame(dir)} {
      var a := f * FRAME_SIZE;
      assert Aligned(a) && Frame(a) == f;
      HeldAll(m, first, m[dir], a);
      if f == Frame(dir) {
        SameFrame(a, dir);
      }
    }
  }

  lemma NoLeafYet(t: Table)
    ensures forall a: nat :: !LeafBelow(t, 0, a)
  {
  }

  lemma FrameOfBase(e: nat)
    ensures Aligned(Base(e)) && Base(e) / FRAME_SIZE == Frame(Base(e))
  {
  }

  lemma WithoutMore(owned: set<nat>, start: set<nat>, gone: iset<nat>, f: nat, more: iset<nat>)
    requires Without(owned, start, gone) && Aligned(f) && forall a: nat :: a in more <==> a in gone || a == f
    ensures Without(owned - {Frame(f)}, start, more)
  {
    forall a: nat | Aligned(a) && Frame(a) == Frame(f) ensures a == f {
      SameFrame(a, f);
    }
  }

  lemma InMemory(m: map<nat, Table>, first: nat, dir: nat, owned: set<nat>, rest: set<nat>)
    requires Exact(m, first, dir, owned, rest)
    ensures dir in m && Frame(dir) in owned && Aligned(dir) && dir < IDENTITY_END && WellTabled(m, first, m[dir])
  {
  }

  lemma TableInMemory(m: map<nat, Table>, first: nat, dir: nat, owned: set<nat>, rest: set<nat>, i: nat)
    requires Exact(m, first, dir, owned, rest) && Aligned(first) && i < ENTRIES && PrivateTable(first, m[dir][i])
    ensures Base(m[dir][i]) in m && Base(m[dir][i]) < IDENTITY_END && Aligned(Base(m[dir][i]))
  {
    KernelShared(first, i);
  }

  /** Writing a frame that others own changes nothing for the directory. */
  lemma StillReached(m: map<nat, Table>, first: nat, dir: nat, owned: set<nat>, rest: set<nat>, t: nat)
    requires Exact(m, first, dir, owned, rest) && Frame(t) in rest
    ensures var m2 := m[t := KernelTable()];
            && dir in m2 && m2[dir] == m[dir] && WellTabled(m2, first, m2[dir])
            && forall j :: 0 <= j < ENTRIES ==> (Mapped(m2, first, m2[dir], j) <==> Mapped(m, first, m[dir], j))
  {
    var d := m[dir];
    forall k | 0 <= k < ENTRIES && PrivateTable(first, d[k]) ensures Base(d[k]) != t {
      assert HeldAt(m, first, d, k, Base(d[k]));
      assert Held(m, first, d, Base(d[k]));
    }
  }

  lemma KernelShared(first: nat, i: nat)
    requires Aligned(first)
    ensures !PrivateTable(first, KernelDir(first, i))
  {
    BaseOf(first, PRESENT_WRITABLE_USER);
  }

  lemma NotRest(m: map<nat, Table>, first: nat, dir: nat, owned: set<nat>, rest: set<nat>, t: nat)
    requires Exact(m, first, dir, owned, rest) && Frame(t) in rest
    ensures t != dir
  {
  }

  lemma FreshRest(m: map<nat, Table>, first: nat, dir: nat, owned: set<nat>, rest: set<nat>, f: nat)
    requires Exact(m, first, dir, owned, rest) && f !in owned
    ensures rest + {f} - {f} == rest
  {
    RestOwned(m, first, dir, owned, rest, f);
  }

  lemma RestOwned(m: map<nat, Table>, first: nat, dir: nat, owned: set<nat>, rest: set<nat>, f: nat)
    requires Exact(m, first, dir, owned, rest)
    ensures f in rest ==> f in owned
  {
    assert Aligned(f * FRAME_SIZE) && Frame(f * FRAME_SIZE) == f;
  }
}
