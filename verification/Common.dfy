/** The machine's words, optional values, and the sizes of finite sets of numbers. */
module Common {
  type Byte = b: int | 0 <= b < 256
  type U16 = w: int | 0 <= w < 0x1_0000
  type U32 = x: int | 0 <= x < 0x1_0000_0000

  const TWO_31 := 0x8000_0000
  const TWO_32 := 0x1_0000_0000

  const MAX_TASKS := 8
  const MAX_OPEN_FILES := 8

  /** The size of a page and of a frame, and the page that a user program's stack is on. */
  const FRAME_SIZE := 4096
  const USER_STACK := 0x3F_F000

  datatype Option<T> = None | Some(value: T)

  /** Addition and subtraction of 32-bit words. */
  function Plus(a: U32, n: nat): (r: U32) {
    (a + n) % TWO_32
  }

  function Minus(a: U32, b: U32): (r: U32) {
    (a - b) % TWO_32
  }

  ghost function Interval(lo: int, hi: int): (r: set<int>)
    requires lo <= hi
    ensures |r| == hi - lo && forall x :: x in r <==> lo <= x < hi
    decreases hi - lo
  {
    if lo == hi then {} else Interval(lo, hi - 1) + {hi - 1}
  }

  lemma UnionCard(a: set<int>, b: set<int>)
    requires a !! b
    ensures |a + b| == |a| + |b|
  {
  }

  lemma Multiply(a: nat, b: nat, m: nat)
    requires a <= b
    ensures a * m <= b * m
  {
  }

  lemma SubsetCard(a: set<int>, b: set<int>)
    requires a <= b
    ensures |a| <= |b| && (|a| == |b| ==> a == b)
  {
    assert b == a + (b - a);
    UnionCard(a, b - a);
  }
}
