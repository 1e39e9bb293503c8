/**
  The heap in memory: block headers linked both ways, updated in place by split_block,
  coalesce, kmalloc and kfree (and by their twins in the user library).
*/
module HeapMemory {
  import opened Common
  import opened Heap

  /** A header as it lies in memory; address 0 is the null pointer. */
  datatype Header = Header(size: nat, free: bool, next: nat, prev: nat)

  function Addr(start: nat, bs: seq<Block>, k: nat): (a: nat)
    requires k <= |bs|
    ensures a >= start
  {
    start + Offset(bs, k)
  }

  function HeaderFor(start: nat, bs: seq<Block>, k: nat): Header
    requires k < |bs|
  {
    Header(bs[k].size, bs[k].free, if k + 1 < |bs| then Addr(start, bs, k + 1)
      else 0, if k > 0 then Addr(start, bs, k - 1) else 0)
  }

  /** The memory holds the headers of this list. */
  ghost predicate Holds(m: map<nat, Header>, start: nat, bs: seq<Block>) {
    start > 0 && bs != [] && forall k :: 0 <= k < |bs| ==> HeaderAt(m, start, bs, k)
  }

  ghost predicate HeaderAt(m: map<nat, Header>, start: nat, bs: seq<Block>, k: nat)
    requires k < |bs|
  {
    Addr(start, bs, k) in m && m[Addr(start, bs, k)] == HeaderFor(start, bs, k)
  }

  lemma AddrApart(start: nat, bs: seq<Block>, i: nat, j: nat)
    requires i < j <= |bs|
    ensures Addr(start, bs, i) + HEADER + bs[i].size <= Addr(start, bs, j)
  {
    OffsetGrows(bs, i, j);
  }

  lemma Apart(start: nat, bs: seq<Block>, i: nat, j: nat)
    requires i < |bs| && j < |bs| && i != j
    ensures Addr(start, bs, i) != Addr(start, bs, j)
  {
    if i < j {
      AddrApart(start, bs, i, j);
    } else {
      AddrApart(start, bs, j, i);
    }
  }

  lemma CutAddr(start: nat, bs: seq<Block>, k: nat, size: nat, j: nat)
    requires k < |bs| && size + HEADER <= bs[k].size && j <= |bs| + 1
    ensures Addr(start, Cut(bs, k, size), j) ==
            if j <= k then Addr(start, bs, j) else if j == k + 1 then Addr(start, bs, k) + HEADER + size
            else Addr(start, bs, j - 1)
  {
    if j <= k + 1 {
      CutOffsets(bs, k, size, if j <= k then j else k);
    } else {
      CutOffsets(bs, k, size, j - 1);
    }
  }

  lemma JoinAddr(start: nat, bs: seq<Block>, k: nat, j: nat)
    requires k + 1 < |bs| && bs[k + 1].free && j < |bs|
    ensures Addr(start, Join(bs, k), j) == if j <= k then Addr(start, bs, j) else Addr(start, bs, j + 1)
  {
    JoinOffsets(bs, k, j);
  }

  /** The headers that cutting block k writes. */
  function CutMemory(m: map<nat, Header>, at: nat, size: nat): (r: map<nat, Header>)
    requires at in m && size + HEADER <= m[at].size
    requires m[at].next != 0 ==> m[at].next in m
  {
    var h, new_ := m[at], at + HEADER + size;
    var m1 := m[new_ := Header(h.size - size - HEADER, true, h.next, at)];
    var m2 := if h.next != 0 then m1[h.next := m1[h.next].(prev := new_)] else m1;
    m2[at := m2[at].(next := new_, size := size)]
  }

  lemma CutHeader(m: map<nat, Header>, start: nat, bs: seq<Block>, k: nat, size: nat, j: nat)
    requires Holds(m, start, bs) && k < |bs| && size + HEADER <= bs[k].size && j <= |bs|
    requires var at := Addr(start, bs, k);
      at in m && m[at] == HeaderFor(start, bs, k) && (m[at].next != 0 ==> m[at].next in m)
    ensures HeaderAt(CutMemory(m, Addr(start, bs, k), size), start, Cut(bs, k, size), j)
  {
    hide Offset, Addr;
    var at, cs := Addr(start, bs, k), Cut(bs, k, size);
    CutAddr(start, bs, k, size, j);
    CutAddr(start, bs, k, size, j + 1);
    if j > 0 {
      CutAddr(start, bs, k, size, j - 1);
    }
    if k + 1 < |bs| {
      AddrApart(start, bs, k, k + 1);
    }
    if j != k && j != k + 1 {
      var i := if j < k then j else j - 1;
      assert HeaderAt(m, start, bs, i) && cs[j] == bs[i];
      Apart(start, bs, i, k);
      NotInside(start, bs, k, size, i);
      if k + 1 < |bs| && i != k + 1 {
        Apart(start, bs, i, k + 1);
      }
    }
  }

  lemma NotInside(start: nat, bs: seq<Block>, k: nat, size: nat, i: nat)
    requires k < |bs| && size + HEADER <= bs[k].size && i < |bs| && i != k
    ensures Addr(start, bs, i) != Addr(start, bs, k) + HEADER + size
  {
    if i < k {
      AddrApart(start, bs, i, k);
    } else {
      AddrApart(start, bs, k, i);
    }
  }

  lemma CutHolds(m: map<nat, Header>, start: nat, bs: seq<Block>, k: nat, size: nat)
    requires Holds(m, start, bs) && k < |bs| && size + HEADER <= bs[k].size
    ensures var at := Addr(start, bs, k);
            && at in m && m[at] == HeaderFor(start, bs, k) && (m[at].next != 0 ==> m[at].next in m)
            && Holds(CutMemory(m, at, size), start, Cut(bs, k, size))
  {
    var at, cs := Addr(start, bs, k), Cut(bs, k, size);
    assert HeaderAt(m, start, bs, k);
    if k + 1 < |bs| {
      assert HeaderAt(m, start, bs, k + 1);
    }
    var r := CutMemory(m, at, size);
    forall j | 0 <= j < |cs| ensures HeaderAt(r, start, cs, j) {
      CutHeader(m, start, bs, k, size, j);
    }
  }

  /** The headers that joining block a with the next one writes. */
  function JoinMemory(m: map<nat, Header>, a: nat, b: nat): (r: map<nat, Header>)
    requires a in m && b in m && (m[b].next != 0 ==> m[b].next in m)
  {
    var m1 := m[a := m[a].(size := m[a].size + HEADER + m[b].size, next := m[b].next)];
    if m[b].next != 0 then m1[m[b].next := m1[m[b].next].(prev := a)] else m1
  }

  lemma JoinHolds(m: map<nat, Header>, start: nat, bs: seq<Block>, k: nat)
    requires Holds(m, start, bs) && k + 1 < |bs| && bs[k + 1].free
    ensures var a, b := Addr(start, bs, k), Addr(start, bs, k + 1);
            && a in m && b in m && (m[b].next != 0 ==> m[b].next in m)
            && m[a] == HeaderFor(start, bs, k) && m[b] == HeaderFor(start, bs, k + 1)
            && Holds(JoinMemory(m, a, b), start, Join(bs, k))
  {
    var a, b, js := Addr(start, bs, k), Addr(start, bs, k + 1), Join(bs, k);
    assert HeaderAt(m, start, bs, k) && HeaderAt(m, start, bs, k + 1);
    if k + 2 < |bs| {
      assert HeaderAt(m, start, bs, k + 2);
    }
    forall j | 0 <= j < |js| ensures HeaderAt(JoinMemory(m, a, b), start, js, j) {
      JoinHeader(m, start, bs, k, j);
    }
  }

  lemma JoinHeader(m: map<nat, Header>, start: nat, bs: seq<Block>, k: nat, j: nat)
    requires Holds(m, start, bs) && k + 1 < |bs| && bs[k + 1].free && j < |bs| - 1
    requires var (a, b) := (Addr(start, bs, k), Addr(start, bs, k + 1));
             && a in m && b in m && (m[b].next != 0 ==> m[b].next in m)
             && m[a] == HeaderFor(start, bs, k) && m[b] == HeaderFor(start, bs, k + 1)
    ensures HeaderAt(JoinMemory(m, Addr(start, bs, k), Addr(start, bs, k + 1)), start, Join(bs, k), j)
  {
    hide Offset, Addr;
    var js := Join(bs, k);
    JoinAddr(start, bs, k, j);
    JoinAddr(start, bs, k, j + 1);
    if j > 0 {
      JoinAddr(start, bs, k, j - 1);
    }
    if k + 2 < |bs| {
      Apart(start, bs, k, k + 2);
    }
    if j != k {
      var i := if j < k then j else j + 1;
      assert HeaderAt(m, start, bs, i) && js[j] == bs[i];
      Apart(start, bs, i, k);
      if k + 2 < |bs| && i != k + 2 {
        Apart(start, bs, i, k + 2);
      }
    }
  }

  /** Marking block k free or used. */
  lemma MarkHolds(m: map<nat, Header>, start: nat, bs: seq<Block>, k: nat, free: bool)
    requires Holds(m, start, bs) && k < |bs|
    ensures var at, cs := Addr(start, bs, k), bs[k := bs[k].(free := free)];
            && at in m && m[at] == HeaderFor(start, bs, k)
            && Addr(start, cs, k) == at && Holds(m[at := m[at].(free := free)], start, cs)
  {
    var at, cs := Addr(start, bs, k), bs[k := bs[k].(free := free)];
    assert HeaderAt(m, start, bs, k);
    forall j | 0 <= j <= |bs| ensures Addr(start, cs, j) == Addr(start, bs, j) {
      OffsetPrefix(bs, cs, j);
    }
    var r := m[at := m[at].(free := free)];
    forall j | 0 <= j < |bs| ensures HeaderAt(r, start, cs, j) {
      assert HeaderAt(m, start, bs, j);
      if j != k {
        Apart(start, bs, j, k);
      }
    }
  }

  class KernelHeap {
    const start: nat
    const total: nat
    var memory: map<nat, Header>
    ghost var blocks: seq<Block>

    ghost predicate Valid()
      reads this
    {
      && total < TWO_32 && Holds(memory, start, blocks) && Tiles(blocks, total)
      && (total % ALIGNMENT == 0 ==> Whole(blocks))
    }

    /** heap_init: one free block. */
    constructor (start: nat, total: nat)
      requires start > 0 && HEADER <= total < TWO_32
      ensures Valid() && this.start == start && this.total == total && blocks == [Block(total - HEADER, true)]
    {
      this.start, this.total := start, total;
      memory := map[start := Header(total - HEADER, true, 0, 0)];
      blocks := [Block(total - HEADER, true)];
      new;
      assert Offset(blocks, 1) == total;
    }

    /** split_block. */
    method SplitBlock(at: nat, size: nat, ghost k: nat)
      requires Holds(memory, start, blocks) && k < |blocks| && at == Addr(start, blocks, k) && size <= blocks[k].size
      modifies this
      ensures blocks == if Splits(old(blocks[k]), size) then Cut(old(blocks), k, size) else old(blocks)
      ensures Holds(memory, start, blocks)
    {
      assert HeaderAt(memory, start, blocks, k);
      if memory[at].size < size + HEADER + MIN_SPLIT {
        return;
      }
      CutHolds(memory, start, blocks, k, size);
      ghost var m := memory;
      var newBlock := at + HEADER + size;
      memory := memory[newBlock := Header(memory[at].size - size - HEADER, true, memory[at].next, at)];
      if memory[at].next != 0 {
        memory := memory[memory[at].next := memory[memory[at].next].(prev := newBlock)];
      }
      memory := memory[at := memory[at].(next := newBlock)];
      memory := memory[at := memory[at].(size := size)];
      assert memory == CutMemory(m, at, size);
      blocks := Cut(blocks, k, size);
    }

    /** coalesce. */
    method Coalesce(a: nat, b: nat, ghost k: nat)
      requires Holds(memory, start, blocks) && k + 1 < |blocks| && a == Addr(start, blocks, k)
      requires b == Addr(start, blocks, k + 1)
      requires blocks[k + 1].free
      modifies this
      ensures blocks == Join(old(blocks), k) && Holds(memory, start, blocks) && Addr(start, blocks, k) == a
    {
      JoinHolds(memory, start, blocks, k);
      JoinAddr(start, blocks, k, k);
      AddrApart(start, blocks, k, k + 1);
      ghost var m := memory;
      memory := memory[a := memory[a].(size := memory[a].size + HEADER + memory[b].size)];
      memory := memory[a := memory[a].(next := memory[b].next)];
      if memory[b].next != 0 {
        memory := memory[memory[b].next := memory[memory[b].next].(prev := a)];
      }
      assert memory == JoinMemory(m, a, b);
      blocks := Join(blocks, k);
    }

    /** What kmalloc does with the block it found. */
    method TakeBlock(block: nat, size: nat, ghost k: nat)
      requires Valid() && k < |blocks| && block == Addr(start, blocks, k) && Fits(blocks[k], size)
      requires size % ALIGNMENT == 0
      modifies this
      ensures Valid() && blocks == Taken(old(blocks), k, size)
    {
      hide Offset, Cut, Tiles, Holds, Addr, Whole, Splits;
      ghost var bs := blocks;
      TakenTiles(bs, total, k, size);
      if total % ALIGNMENT == 0 {
        TakenWhole(bs, k, size);
      }
      SplitBlock(block, size, k);
      SplitAddr(start, bs, k, size);
      MarkHolds(memory, start, blocks, k, false);
      memory := memory[block := memory[block].(free := false)];
      blocks := blocks[k := blocks[k].(free := false)];
    }

    /** kmalloc and malloc. */
    method KMalloc(size: nat) returns (ptr: nat)
      requires Valid() && size < TWO_32
      modifies this
      ensures Valid() && Step(old(blocks), Malloc(size), blocks)
      ensures ptr == 0 <==> size == 0 || FirstFit(old(blocks), AlignUp(size)) == |old(blocks)|
      ensures ptr != 0 ==> ptr == Addr(start, old(blocks), FirstFit(old(blocks), AlignUp(size))) + HEADER
      ensures start % ALIGNMENT == 0 && total % ALIGNMENT == 0 ==> ptr % ALIGNMENT == 0
    {
      hide Offset, Tiles, AlignUp, Holds, Addr, Whole, Taken;
      if size == 0 {
        return 0;
      }
      ghost var bs := blocks;
      var n := AlignUp(size);
      var block := start;
      ghost var k := 0;
      HoldsFirst(memory, start, bs);
      while block != 0
        invariant memory == old(memory) && blocks == bs && k <= |bs|
        invariant block == if k < |bs| then Addr(start, bs, k) else 0
        invariant FirstFit(bs, n) == k + FirstFit(bs[k..], n)
        decreases |bs| - k
      {
        HoldsAt(memory, start, bs, k);
        if memory[block].free && memory[block].size >= n {
          FoundFirst(bs, n, k);
          if total % ALIGNMENT == 0 {
            AddrWhole(start, bs, k);
          }
          TakeBlock(block, n, k);
          return block + HEADER;
        }
        NotFirst(bs, n, k);
        block := memory[block].next;
        k := k + 1;
      }
      return 0;
    }

    /** The merge with a free block after block k. */
    method MergeNext(block: nat, ghost k: nat)
      requires Holds(memory, start, blocks) && k < |blocks| && block == Addr(start, blocks, k) && blocks[k].free
      modifies this
      ensures blocks == if k + 1 < |old(blocks)| && old(blocks)[k + 1].free then Join(old(blocks), k) else old(blocks)
      ensures Holds(memory, start, blocks) && k < |blocks| && block == Addr(start, blocks, k) && blocks[k].free
    {
      hide Offset, Join, Holds, Addr;
      HoldsAt(memory, start, blocks, k);
      if memory[block].next != 0 {
        HoldsAt(memory, start, blocks, k + 1);
        if memory[memory[block].next].free {
          JoinedIs(blocks, k);
          Coalesce(block, memory[block].next, k);
        }
      }
    }

    /** The merge with a free block before block k. */
    method MergePrev(block: nat, ghost k: nat)
      requires Holds(memory, start, blocks) && k < |blocks| && block == Addr(start, blocks, k) && blocks[k].free
      modifies this
      ensures blocks == if k > 0 && old(blocks)[k - 1].free then Join(old(blocks), k - 1) else old(blocks)
      ensures Holds(memory, start, blocks)
    {
      hide Offset, Join, Holds, Addr;
      HoldsAt(memory, start, blocks, k);
      if memory[block].prev != 0 {
        HoldsAt(memory, start, blocks, k - 1);
        if memory[memory[block].prev].free {
          Coalesce(memory[block].prev, block, k - 1);
        }
      }
    }

    /** kfree and free, of a live block or the null pointer. */
    method KFree(ptr: nat)
      requires Valid()
      requires ptr != 0 ==> exists k :: 0 <= k < |blocks| && !blocks[k].free && ptr == Addr(start, blocks, k) + HEADER
      modifies this
      ensures Valid()
      ensures ptr == 0 ==> memory == old(memory) && blocks == old(blocks)
      ensures ptr != 0 ==> ptr >= start + HEADER && Step(old(blocks), Free(ptr - HEADER - start), blocks)
    {
      hide Offset, Join, Tiles, Holds, Addr, Whole;
      if ptr == 0 {
        return;
      }
      ghost var k :| 0 <= k < |blocks| && !blocks[k].free && ptr == Addr(start, blocks, k) + HEADER;
      ghost var bs := blocks;
      var block := ptr - HEADER;
      FreedTiles(bs, total, k);
      AddrIs(start, bs, k);
      MarkHolds(memory, start, blocks, k, true);
      memory := memory[block := memory[block].(free := true)];
      blocks := blocks[k := blocks[k].(free := true)];
      MergeNext(block, k);
      MergePrev(block, k);
      assert blocks == Freed(bs, k);
      if total % ALIGNMENT == 0 {
        StepWhole(bs, Free(ptr - HEADER - start), blocks);
      }
    }
  }

  lemma HoldsAt(m: map<nat, Header>, start: nat, bs: seq<Block>, k: nat)
    requires Holds(m, start, bs) && k < |bs|
    ensures start > 0 && Addr(start, bs, k) in m && m[Addr(start, bs, k)] == HeaderFor(start, bs, k)
  {
    assert HeaderAt(m, start, bs, k);
  }

  lemma FoundFirst(bs: seq<Block>, n: nat, k: nat)
    requires k < |bs| && FirstFit(bs, n) == k + FirstFit(bs[k..], n) && Fits(bs[k], n)
    ensures FirstFit(bs, n) == k
  {
  }

  lemma NotFirst(bs: seq<Block>, n: nat, k: nat)
    requires k < |bs| && FirstFit(bs, n) == k + FirstFit(bs[k..], n) && !Fits(bs[k], n)
    ensures FirstFit(bs, n) == k + 1 + FirstFit(bs[k + 1..], n)
  {
    assert bs[k..][1..] == bs[k + 1..];
  }

  lemma AddrWhole(start: nat, bs: seq<Block>, k: nat)
    requires Whole(bs) && k <= |bs|
    ensures start % ALIGNMENT == 0 ==> Addr(start, bs, k) % ALIGNMENT == 0
  {
    OffsetWhole(bs, k);
  }

  lemma HoldsFirst(m: map<nat, Header>, start: nat, bs: seq<Block>)
    requires Holds(m, start, bs)
    ensures start > 0 && bs != [] && Addr(start, bs, 0) == start && bs[0..] == bs
  {
  }

  lemma AddrIs(start: nat, bs: seq<Block>, k: nat)
    requires k < |bs|
    ensures Addr(start, bs, k) == start + Offset(bs, k)
  {
  }

  lemma SplitAddr(start: nat, bs: seq<Block>, k: nat, size: nat)
    requires k < |bs| && Fits(bs[k], size)
    ensures var cs := if Splits(bs[k], size) then Cut(bs, k, size) else bs; Addr(start, cs, k) == Addr(start, bs, k)
  {
    if Splits(bs[k], size) {
      CutAddr(start, bs, k, size, k);
    }
  }
}
