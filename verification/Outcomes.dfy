/**
  How running a program ends, in numbers: the pages it needs, and the free frames below and past the
  4 MB that the kernel can write to.
*/
module Outcomes {
  import opened Common
  import opened Pmm
  import opened Paging
  import opened Loader
  import opened TaskLife

  /** The free frames below 4 MB. */
  ghost function FreeLow(low: nat, high: nat, owned: set<nat>): (s: set<nat>) {
    set f: nat | low <= f < high && f < ENTRIES && f !in owned
  }

  /** There is a free frame past 4 MB. */
  ghost predicate FreeHigh(low: nat, high: nat, owned: set<nat>) {
    exists f: nat :: low <= f < high && f >= ENTRIES && f !in owned
  }

  /** Frames [low, high), some of them handed out, on a machine whose scan finds every free frame. */
  ghost predicate Usable(low: nat, high: nat, owned: set<nat>) {
    2 * low < high && owned <= Interval(low, high)
  }

  /** The next frame is one below 4 MB as long as there is one. */
  lemma NextFrame(low: nat, high: nat, owned: set<nat>)
    requires Usable(low, high, owned)
    ensures Finds(low, high, owned) <==> FreeLow(low, high, owned) != {} || FreeHigh(low, high, owned)
    ensures Below4M(low, high, owned) <==> FreeLow(low, high, owned) != {}
    ensures FreeLow(low, high, owned) != {} ==> LeastFree(low, high, owned) in FreeLow(low, high, owned)
  {
    if FreeLow(low, high, owned) != {} {
      var f :| f in FreeLow(low, high, owned);
      assert f in Interval(low, high) && f !in owned;
      WindowFinds(low, high, owned);
    } else if FreeHigh(low, high, owned) {
      var f: nat :| low <= f < high && f >= ENTRIES && f !in owned;
      assert f in Interval(low, high) && f !in owned;
      WindowFinds(low, high, owned);
    }
    if Finds(low, high, owned) {
      var f: nat :| low <= f < high && f < high - low + |owned| && f !in owned;
      if f < ENTRIES { assert f in FreeLow(low, high, owned); }
      assert LeastFree(low, high, owned) <= f;
      if Below4M(low, high, owned) { assert LeastFree(low, high, owned) in FreeLow(low, high, owned); }
    }
  }

  lemma TakeNext(low: nat, high: nat, owned: set<nat>)
    requires Usable(low, high, owned) && FreeLow(low, high, owned) != {}
    ensures var more := owned + {LeastFree(low, high, owned)};
            && Usable(low, high, more) && (FreeHigh(low, high, more) <==> FreeHigh(low, high, owned))
            && |FreeLow(low, high, more)| == |FreeLow(low, high, owned)| - 1
  {
    NextFrame(low, high, owned);
    var f := LeastFree(low, high, owned);
    assert FreeLow(low, high, owned + {f}) == FreeLow(low, high, owned) - {f};
    hide LeastFree, Finds;
  }

  /** What comes of a shortage. */
  ghost function Short(low: nat, high: nat, owned: set<nat>): Outcome {
    if FreeHigh(low, high, owned) then Halted else Refused
  }

  lemma {:induction false} PagesEndIs(low: nat, high: nat, owned: set<nat>, n: nat)
    requires Usable(low, high, owned)
    ensures var free := |FreeLow(low, high, owned)|;
            && PagesEnd(low, high, owned, n) == (if n <= free then Loaded else Short(low, high, owned))
            && (n <= free ==>
                  var after := HandOut(low, high, owned, n);
                  && Usable(low, high, after) && |FreeLow(low, high, after)| == free - n
                  && (FreeHigh(low, high, after) <==> FreeHigh(low, high, owned)))
    decreases n
  {
    hide FreeLow, FreeHigh, Usable, Below4M, Finds, LeastFree;
    if n > 0 {
      NextFrame(low, high, owned);
      Emptiness(FreeLow(low, high, owned));
      if FreeLow(low, high, owned) != {} {
        TakeNext(low, high, owned);
        PagesEndIs(low, high, owned + {LeastFree(low, high, owned)}, n - 1);
      }
    }
  }

  lemma Emptiness(s: set<nat>)
    ensures s == {} <==> |s| == 0
  {
  }

  lemma StackEndIs(low: nat, high: nat, owned: set<nat>)
    requires Usable(low, high, owned)
    ensures StackEnd(low, high, owned, true) ==
            if FreeLow(low, high, owned) != {} then Loaded else Short(low, high, owned)
    ensures StackEnd(low, high, owned, false) ==
            if |FreeLow(low, high, owned)| > 1 then Loaded
            else if |FreeLow(low, high, owned)| == 1 then Refused else Short(low, high, owned)
  {
    hide FreeLow, FreeHigh, Usable, Below4M, Finds, LeastFree;
    NextFrame(low, high, owned);
    Emptiness(FreeLow(low, high, owned));
    if FreeLow(low, high, owned) != {} {
      TakeNext(low, high, owned);
      NextFrame(low, high, owned + {LeastFree(low, high, owned)});
      Emptiness(FreeLow(low, high, owned + {LeastFree(low, high, owned)}));
    }
  }

  // -------------------------------------------------------------------------- a program

  /** The pages of a segment, and of a program. */
  ghost function PagesOf(s: Segment): (r: set<nat>) {
    set j: nat | j < ENTRIES && NeedsPage(s, j)
  }

  ghost function PageTotal(segs: seq<Segment>): (n: nat) {
    if segs == [] then 0 else |PagesOf(segs[0])| + PageTotal(segs[1..])
  }

  /** The loop over a segment's pages has a round for each. */
  lemma PagesCounted(s: Segment)
    requires EndPage(s) <= USER_STACK
    ensures |PagesOf(s)| == PagesFrom(s, StartPage(s))
  {
    var from, to := StartPage(s) / FRAME_SIZE, EndPage(s) / FRAME_SIZE;
    EndAligned(s);
    Ranked(s, from, to);
    hide EndPage, StartPage;
    if from <= to {
      assert PagesOf(s) == Interval(from, to);
    } else {
      assert PagesOf(s) == {};
    }
  }

  lemma Ranked(s: Segment, from: nat, to: nat)
    requires from == StartPage(s) / FRAME_SIZE && to == EndPage(s) / FRAME_SIZE && EndPage(s) <= USER_STACK
    ensures to < ENTRIES && (forall j: nat :: NeedsPage(s, j) <==> from <= j < to)
    ensures PagesFrom(s, StartPage(s)) == if from <= to then to - from else 0
  {
    EndAligned(s);
    hide EndPage, StartPage;
  }

  /** The segments lie in the first 4 MB, below the stack page. */
  predicate Ordinary(segs: seq<Segment>) {
    forall k :: 0 <= k < |segs| ==> segs[k].vaddr < REGION && EndPage(segs[k]) <= USER_STACK
  }

  lemma FirstOrdinary(segs: seq<Segment>)
    requires Ordinary(segs) && segs != []
    ensures segs[0].vaddr / REGION == 0 && EndPage(segs[0]) <= USER_STACK && Ordinary(segs[1..])
    ensures PageTotal(segs) == |PagesOf(segs[0])| + PageTotal(segs[1..])
  {
    hide EndPage, PagesOf;
  }

  /** Loading, from a directory with or without a table for these 4 MB. */
  lemma {:induction false} ForeseenIs(low: nat, high: nat, owned: set<nat>, have: set<nat>, segs: seq<Segment>)
    requires Usable(low, high, owned) && Ordinary(segs)
    ensures var will, free := Foreseen(low, high, owned, have, segs), |FreeLow(low, high, owned)|;
            var need := PageTotal(segs) + if segs == [] || 0 in have then 0 else 1;
            && will.outcome == (if free == 0 && segs != [] && 0 !in have then Refused
                                else if need <= free then Loaded else Short(low, high, owned))
            && (will.outcome == Loaded ==>
                  && Usable(low, high, will.owned) && |FreeLow(low, high, will.owned)| == free - need
                  && (FreeHigh(low, high, will.owned) <==> FreeHigh(low, high, owned))
                  && (segs != [] || 0 in have ==> 0 in will.have))
    decreases |segs|
  {
    assert low <= high;
    hide FreeLow, FreeHigh, Usable, Below4M, Finds, LeastFree, EndPage, StartPage, PagesFrom, PagesOf, PagesEnd,
         HandOut, Foreseen;
    if segs == [] {
      ForeseenNone(low, high, owned, have, segs);
    } else {
      FirstOrdinary(segs);
      hide Ordinary, PageTotal, WithTable;
      ForeseenOne(low, high, owned, have, segs);
      NextFrame(low, high, owned);
      Emptiness(FreeLow(low, high, owned));
      if 0 in have || FreeLow(low, high, owned) != {} {
        var with := WithTable(low, high, owned, 0 in have);
        if 0 !in have { TakeNext(low, high, owned); }
        PagesCounted(segs[0]);
        var n := PagesFrom(segs[0], StartPage(segs[0]));
        PagesEndIs(low, high, with, n);
        if n <= |FreeLow(low, high, with)| {
          ForeseenIs(low, high, HandOut(low, high, with, n), have + {0}, segs[1..]);
        }
      }
    }
  }

  /** How a program ends is decided by five numbers: whether there is room for its file, whether its
      arguments fit, its pages, the free frames below 4 MB, and whether one past 4 MB is free.  It
      runs if and only if the first two are so and the free frames below 4 MB are enough for its
      pages, its table and its stack. */
  lemma RunsExactly(low: nat, high: nat, owned: set<nat>, segs: seq<Segment>, buffer: bool, argumentsFit: bool)
    requires Usable(low, high, owned) && Ordinary(segs) && segs != []
    ensures var r, free, pages := RanAs(low, high, owned, segs, buffer, argumentsFit), |FreeLow(low, high, owned)|,
              PageTotal(segs);
            && (r == Loaded <==> buffer && argumentsFit && pages + 2 <= free)
            && (r == Halted <==> buffer && FreeHigh(low, high, owned) && free > 0
                                 && (free < pages + 1 || (argumentsFit && free == pages + 1)))
  {
    assert low <= high;
    hide FreeLow, FreeHigh, Usable, Foreseen, PageTotal, StackEnd;
    ForeseenIs(low, high, owned, {}, segs);
    var will := Foreseen(low, high, owned, {}, segs);
    if will.outcome == Loaded {
      StackEndIs(low, high, will.owned);
      Emptiness(FreeLow(low, high, will.owned));
    }
  }

  /** A program with a segment that reaches the stack page is never loaded. */
  lemma {:induction false} TooLargeRefused(low: nat, high: nat, owned: set<nat>, have: set<nat>, segs: seq<Segment>)
    requires low <= high && Accepted(segs) != segs
    ensures Foreseen(low, high, owned, have, segs).outcome != Loaded
    decreases |segs|
  {
    hide EndPage, Below4M, LeastFree, PagesEnd, HandOut;
    ForeseenOne(low, high, owned, have, segs);
    var i, n := segs[0].vaddr / REGION, PagesFrom(segs[0], StartPage(segs[0]));
    if EndPage(segs[0]) <= USER_STACK {
      assert Accepted(segs) == [segs[0]] + Accepted(segs[1..]) && segs == [segs[0]] + segs[1..];
      TooLargeRefused(low, high, HandOut(low, high, WithTable(low, high, owned, i in have), n), have + {i}, segs[1..]);
    }
  }
}
