/**
  The first stack page of a user program: usermode_enter writes the argument strings, the
  argv array and a call frame into it, from the top down, after checking that they fit.
*/
module Usermode {
  import opened Common

  const MAX_ARGS := 16

  type StackPage = p: seq<Byte> | |p| == FRAME_SIZE witness seq(FRAME_SIZE, _ => 0)

  /** The bytes that the strings take, each with its NUL. */
  function Total(args: seq<seq<Byte>>): (n: nat) {
    if args == [] then 0 else |args[0]| + 1 + Total(args[1..])
  }

  /** The size that usermode_enter compares with the page. */
  function Needed(args: seq<seq<Byte>>): nat {
    (Total(args) + 3) / 4 * 4 + 4 * (|args| + 1) + 12
  }

  function Store(p: StackPage, at: nat, bytes: seq<Byte>): (r: StackPage)
    requires at + |bytes| <= FRAME_SIZE
    ensures r[at..at + |bytes|] == bytes && r[..at] == p[..at] && r[at + |bytes|..] == p[at + |bytes|..]
  {
    p[..at] + bytes + p[at + |bytes|..]
  }

  /** A 32-bit word as the processor stores it. */
  function WordBytes(x: U32): (s: seq<Byte>)
    ensures |s| == 4
  {
    [x % 256, x / 256 % 256, x / 256 / 256 % 256, x / 256 / 256 / 256]
  }

  function WordAt(p: StackPage, at: nat): (x: U32)
    requires at + 4 <= FRAME_SIZE
  {
    var b0: int, b1: int, b2: int, b3: int := p[at], p[at + 1], p[at + 2], p[at + 3];
    b0 + 256 * b1 + 0x1_0000 * b2 + 0x100_0000 * b3
  }

  lemma WordStored(p: StackPage, at: nat, x: U32)
    requires at + 4 <= FRAME_SIZE
    ensures WordAt(Store(p, at, WordBytes(x)), at) == x
  {
    var r := Store(p, at, WordBytes(x));
    assert r[at] == r[at..at + 4][0] && r[at + 1] == r[at..at + 4][1] && r[at + 2] == r[at..at + 4][2];
    assert r[at + 3] == r[at..at + 4][3];
  }

  /** The page holds the string, with its NUL, at this offset. */
  predicate StringAt(p: StackPage, at: nat, s: seq<Byte>) {
    at + |s| + 1 <= FRAME_SIZE && p[at..at + |s| + 1] == s + [0]
  }

  /** A write below an offset leaves the strings and the words from there on alone. */
  lemma StoreBelow(p: StackPage, at: nat, bytes: seq<Byte>, from: nat)
    requires at + |bytes| <= from <= FRAME_SIZE
    ensures var r := Store(p, at, bytes);
            && (forall k, s :: from <= k && StringAt(p, k, s) ==> StringAt(r, k, s))
            && (forall k :: from <= k && k + 4 <= FRAME_SIZE ==> WordAt(r, k) == WordAt(p, k))
  {
    var r := Store(p, at, bytes);
    assert forall k :: from <= k < FRAME_SIZE ==> r[k] == r[at + |bytes|..][k - (at + |bytes|)] == p[k];
    forall k, s | from <= k && StringAt(p, k, s) ensures StringAt(r, k, s) {
      assert r[k..k + |s| + 1] == p[k..k + |s| + 1];
    }
  }

  /** The strings lie where the pointers say, none below `from`. */
  predicate Strings(p: StackPage, args: seq<seq<Byte>>, pointers: seq<nat>, i: nat, from: nat) {
    |pointers| == |args| && forall k :: i <= k < |args| ==> from <= pointers[k] && StringAt(p, pointers[k], args[k])
  }

  lemma StringsKept(p: StackPage, args: seq<seq<Byte>>, pointers: seq<nat>, i: nat, from: nat, at: nat,
                    bytes: seq<Byte>)
    requires Strings(p, args, pointers, i, from) && at + |bytes| <= from <= FRAME_SIZE
    ensures Strings(Store(p, at, bytes), args, pointers, i, from)
  {
    StoreBelow(p, at, bytes, from);
  }

  lemma StringStored(p: StackPage, at: nat, s: seq<Byte>)
    requires at + |s| + 1 <= FRAME_SIZE
    ensures StringAt(Store(p, at, s + [0]), at, s)
  {
  }

  lemma TotalNone()
    ensures Total([]) == 0
  {
  }

  lemma TotalFrom(args: seq<seq<Byte>>, i: nat)
    requires 0 < i <= |args|
    ensures Total(args[i - 1..]) == Total(args[i..]) + |args[i - 1]| + 1
  {
    assert args[i - 1..][1..] == args[i..];
  }

  lemma {:induction false} TotalBounds(args: seq<seq<Byte>>, i: nat)
    requires i <= |args|
    ensures Total(args[i..]) <= Total(args)
    decreases i
  {
    if i == 0 {
      assert args[0..] == args;
    } else {
      TotalBounds(args, i - 1);
      TotalFrom(args, i);
    }
  }

  /** The argv array and its terminator lie at this offset. */
  predicate Argv(p: StackPage, at: nat, pointers: seq<nat>, n: nat)
    requires n <= |pointers|
  {
    && at + 4 * |pointers| + 4 <= FRAME_SIZE
    && forall k :: 0 <= k < n ==> WordAt(p, at + 4 * k) == USER_STACK + pointers[k]
  }

  /** usermode_enter's copy of the strings. */
  method CopyStrings(page0: StackPage, args: seq<seq<Byte>>) returns (page: StackPage, top: nat, pointers: seq<nat>)
    requires Total(args) <= FRAME_SIZE
    ensures top == FRAME_SIZE - Total(args) && Strings(page, args, pointers, 0, top)
    ensures forall k :: 0 <= k < |pointers| ==> pointers[k] < FRAME_SIZE
  {
    hide StringAt, Total;
    assert Total([]) == 0 by { TotalNone(); }
    page, top, pointers := page0, FRAME_SIZE, seq(|args|, _ => 0);
    var i := |args|;
    assert args[|args|..] == [];
    while i > 0
      invariant 0 <= i <= |args| && top == FRAME_SIZE - Total(args[i..]) && Strings(page, args, pointers, i, top)
      invariant forall k :: 0 <= k < |pointers| ==> pointers[k] < FRAME_SIZE
    {
      TotalFrom(args, i);
      TotalBounds(args, i - 1);
      i := i - 1;
      var len := |args[i]| + 1;
      StringsKept(page, args, pointers, i + 1, top, top - len, args[i] + [0]);
      StringStored(page, top - len, args[i]);
      page := Store(page, top - len, args[i] + [0]);
      top := top - len;
      pointers := pointers[i := top];
    }
    assert args[0..] == args;
  }

  /** The argv array: a pointer to each string, then a null pointer. */
  method WriteArgv(page0: StackPage, args: seq<seq<Byte>>, pointers: seq<nat>, at: nat, from: nat)
    returns (page: StackPage)
    requires Strings(page0, args, pointers, 0, from) && at + 4 * |args| + 4 <= from <= FRAME_SIZE
    requires forall k :: 0 <= k < |pointers| ==> pointers[k] < FRAME_SIZE
    ensures Strings(page, args, pointers, 0, from) && Argv(page, at, pointers, |pointers|)
    ensures WordAt(page, at + 4 * |args|) == 0
  {
    hide WordAt, WordBytes, StringAt;
    page := page0;
    var i := 0;
    while i < |args|
      invariant 0 <= i <= |args| && Strings(page, args, pointers, 0, from) && Argv(page, at, pointers, i)
    {
      StringsKept(page, args, pointers, 0, from, at + 4 * i, WordBytes(USER_STACK + pointers[i]));
      WordsKept(page, at + 4 * i, USER_STACK + pointers[i], at);
      WordStored(page, at + 4 * i, USER_STACK + pointers[i]);
      page := Store(page, at + 4 * i, WordBytes(USER_STACK + pointers[i]));
      i := i + 1;
    }
    StringsKept(page, args, pointers, 0, from, at + 4 * i, WordBytes(0));
    WordsKept(page, at + 4 * i, 0, at);
    WordStored(page, at + 4 * i, 0);
    page := Store(page, at + 4 * i, WordBytes(0));
  }

  /** A word written above an offset leaves the words below alone. */
  lemma WordsKept(p: StackPage, at: nat, x: U32, from: nat)
    requires from <= at && at + 4 <= FRAME_SIZE
    ensures forall k :: 0 <= k && k + 4 <= at ==> WordAt(Store(p, at, WordBytes(x)), k) == WordAt(p, k)
  {
    var r := Store(p, at, WordBytes(x));
    assert forall k :: 0 <= k < at ==> r[k] == r[..at][k] == p[k];
  }

  /** What the program finds at its stack pointer: a null return address, the argument
      count, and a pointer to the argv array, whose entries point to the strings. */
  predicate CallFrame(p: StackPage, frame: nat, args: seq<seq<Byte>>, pointers: seq<nat>) {
    && |pointers| == |args| && frame + 12 + 4 * |args| + 4 <= FRAME_SIZE
    && WordAt(p, frame) == 0 && WordAt(p, frame + 4) == |args| && WordAt(p, frame + 8) == USER_STACK + frame + 12
    && Argv(p, frame + 12, pointers, |args|) && WordAt(p, frame + 12 + 4 * |args|) == 0
    && Strings(p, args, pointers, 0, frame + 12 + 4 * |args| + 4)
  }

  /** The strings, rounded up, are exactly what the descending pointer has passed. */
  lemma RoomBelow(total: nat, n: nat)
    requires (total + 3) / 4 * 4 + 4 * (n + 1) + 12 <= FRAME_SIZE
    ensures total <= FRAME_SIZE
    ensures var at := (FRAME_SIZE - total) / 4 * 4 - 4 * (n + 1);
            12 <= at && at + 4 * n + 4 <= FRAME_SIZE - total
              && at - 12 == FRAME_SIZE - ((total + 3) / 4 * 4 + 4 * (n + 1) + 12) && at % 4 == 0
  {
    assert (FRAME_SIZE - total) / 4 * 4 == FRAME_SIZE - (total + 3) / 4 * 4;
  }

  /** usermode_enter: the page it prepares and the stack pointer it jumps with, or nothing if
      the arguments do not fit.  The check is exact, every write stays inside the page, and
      the program finds its argument count and strings through the frame. */
  method EnterUsermode(argv: seq<seq<Byte>>) returns (ok: bool, page: StackPage, esp: nat, pointers: seq<nat>)
    ensures var args := if |argv| > MAX_ARGS then argv[..MAX_ARGS] else argv;
            && (ok <==> Needed(args) <= FRAME_SIZE)
            && (ok ==>
                  && esp == USER_STACK + FRAME_SIZE - Needed(args) && esp % 4 == 0
                  && CallFrame(page, esp - USER_STACK, args, pointers))
  {
    hide WordAt, StringAt, Total;
    var args := if |argv| > MAX_ARGS then argv[..MAX_ARGS] else argv;
    page, esp, pointers := seq(FRAME_SIZE, _ => 0), 0, [];
    if Needed(args) > FRAME_SIZE {
      return false, page, esp, pointers;
    }
    RoomBelow(Total(args), |args|);
    var top;
    page, top, pointers := CopyStrings(page, args);
    var at := top / 4 * 4 - 4 * (|args| + 1);
    page := WriteArgv(page, args, pointers, at, top);
    page := PushFrame(page, args, pointers, at, top);
    ok, esp := true, USER_STACK + at - 12;
  }

  /** The call frame below the argv array. */
  method PushFrame(page0: StackPage, args: seq<seq<Byte>>, pointers: seq<nat>, at: nat, from: nat)
    returns (page: StackPage)
    requires 12 <= at && at + 4 * |args| + 4 <= from <= FRAME_SIZE && |args| <= MAX_ARGS
    requires Strings(page0, args, pointers, 0, from)
    requires Argv(page0, at, pointers, |pointers|) && WordAt(page0, at + 4 * |args|) == 0
    ensures WordAt(page, at - 12) == 0 && WordAt(page, at - 8) == |args| && WordAt(page, at - 4) == USER_STACK + at
    ensures Strings(page, args, pointers, 0, from) && Argv(page, at, pointers, |pointers|)
    ensures WordAt(page, at + 4 * |args|) == 0
  {
    hide WordAt;
    page := page0;
    StringsKept(page, args, pointers, 0, from, at - 4, WordBytes(USER_STACK + at));
    StoreBelow(page, at - 4, WordBytes(USER_STACK + at), at);
    WordStored(page, at - 4, USER_STACK + at);
    page := Store(page, at - 4, WordBytes(USER_STACK + at));
    StringsKept(page, args, pointers, 0, from, at - 8, WordBytes(|args|));
    StoreBelow(page, at - 8, WordBytes(|args|), at - 4);
    WordStored(page, at - 8, |args|);
    page := Store(page, at - 8, WordBytes(|args|));
    StringsKept(page, args, pointers, 0, from, at - 12, WordBytes(0));
    StoreBelow(page, at - 12, WordBytes(0), at - 8);
    WordStored(page, at - 12, 0);
    page := Store(page, at - 12, WordBytes(0));
  }
}
