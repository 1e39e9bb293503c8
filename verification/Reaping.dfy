/**
  Cleaning up exited tasks while others create, run, open files and exit.  task_reap and
  task_create are cut into their atomic steps; the system takes one step at a time, in any
  order.
*/
module Reaping {
  import opened Common

  /** A task slot: whether its state is not UNUSED, its kernel stack, its page directory. */
  datatype Slot = Slot(live: bool, stack: Option<nat>, dir: Option<nat>)

  /** Where task_reap is in its loop body for slot i. */
  datatype ReapStep = Look | DropStack | ClearStack | CloseFiles | LookDir | DropPages | DropDir | ClearDir
  datatype Reaper = Resting | At(i: nat, step: ReapStep)

  /** What task_create has got so far. */
  datatype Creator = Idle | Picked(id: nat) | HasStack(id: nat, stack: nat) | HasBoth(id: nat, stack: nat, dir: nat)

  /** The task table and the running task, the allocated kernel stacks and frames, the
      private frames each page directory maps, and the owner of each open file. */
  datatype Sys = Sys(
    slots: seq<Slot>, count: nat, running: nat, stacks: set<nat>, frames: set<nat>, pages: map<nat, set<nat>>,
    files: seq<Option<nat>>, reaper: Reaper, creator: Creator)

  datatype Action =
    | Reap(page: nat) | Pick(id: nat) | GetStack(stack: nat) | GetDir(dir: nat) | GiveUp | Publish
    | MapPage(page: nat) | Exit(next: nat) | Switch(next: nat) | Open(fd: nat) | Close(fd: nat)

  /** task_create may use the slot: it is unused, and nothing of its last task is left. */
  predicate Reusable(s: Slot) {
    !s.live && s.stack.None? && s.dir.None?
  }

  predicate Shaped(s: Sys) {
    && |s.slots| == MAX_TASKS && |s.files| == MAX_OPEN_FILES && 1 <= s.count <= MAX_TASKS && s.running < s.count
    && (s.reaper.At? ==> 1 <= s.reaper.i < s.count)
    && (!s.creator.Idle? ==> 1 <= s.creator.id < s.count)
  }

  /** The next slot task_reap looks at. */
  function NextSlot(s: Sys, i: nat): Reaper {
    if i + 1 < s.count then At(i + 1, Look) else Resting
  }

  /** One atomic step of task_reap: freeing, clearing and closing are separate steps, and
      the private frames are freed one by one. */
  function Reaped(s: Sys, page: nat): (r: Sys)
    requires Shaped(s)
  {
    match s.reaper
    case Resting => if s.count > 1 then s.(reaper := At(1, Look)) else s
    case At(i, step) =>
      var slot := s.slots[i];
      match step
      case Look => if !slot.live && slot.stack.Some? then s.(reaper := At(i, DropStack))
        else s.(reaper := NextSlot(s, i))
      case DropStack => if slot.stack.Some?
        then s.(stacks := s.stacks - {slot.stack.value}, reaper := At(i, ClearStack)) else s
      case ClearStack => s.(slots := s.slots[i := slot.(stack := None)], reaper := At(i, CloseFiles))
      case CloseFiles =>
        s.(files := seq(MAX_OPEN_FILES, k requires 0 <= k < MAX_OPEN_FILES => if s.files[k] == Some(i) then None
          else s.files[k]), reaper := At(i, LookDir))
      case LookDir => if slot.dir.Some? then s.(reaper := At(i, DropPages)) else s.(reaper := NextSlot(s, i))
      case DropPages =>
        if slot.dir.None? || slot.dir.value !in s.pages then s
        else if s.pages[slot.dir.value] == {} then s.(reaper := At(i, DropDir))
        else if page !in s.pages[slot.dir.value] then s
        else s.(frames := s.frames - {page}, pages := s.pages[slot.dir.value := s.pages[slot.dir.value] - {page}])
      case DropDir => if slot.dir.Some? then s.(frames := s.frames - {slot.dir.value}, reaper := At(i, ClearDir)) else s
      case ClearDir => s.(slots := s.slots[i := slot.(dir := None)], reaper := NextSlot(s, i))
  }

  /** One step of the system; an action that cannot happen does nothing. */
  function Do(s: Sys, a: Action): (r: Sys)
    requires Shaped(s)
  {
    match a
    case Reap(page) => Reaped(s, page)
    case Pick(id) =>
      if !s.creator.Idle? then s
      else if 1 <= id < s.count && Reusable(s.slots[id]) then s.(creator := Picked(id))
      else if id == s.count < MAX_TASKS then s.(creator := Picked(id), count := s.count + 1)
      else s
    case GetStack(stack) =>
      if s.creator.Picked? && stack !in s.stacks
        then s.(creator := HasStack(s.creator.id, stack), stacks := s.stacks + {stack}) else s
    case GetDir(dir) =>
      if s.creator.HasStack? && dir !in s.frames then
        s.(creator := HasBoth(s.creator.id, s.creator.stack, dir), frames := s.frames + {dir},
           pages := s.pages[dir := {}])
      else s
    case GiveUp =>
      if s.creator.Picked? then s.(creator := Idle)
      else if s.creator.HasStack? then s.(creator := Idle, stacks := s.stacks - {s.creator.stack})
      else s
    case Publish =>
      if s.creator.HasBoth? then
        s.(slots := s.slots[s.creator.id := Slot(true, Some(s.creator.stack), Some(s.creator.dir))], creator := Idle)
      else s
    case MapPage(page) =>
      var dir := s.slots[s.running].dir;
      if s.running != 0 && dir.Some? && dir.value in s.pages && page !in s.frames then
        s.(frames := s.frames + {page}, pages := s.pages[dir.value := s.pages[dir.value] + {page}])
      else s
    case Exit(next) =>
      if s.running != 0 && next != s.running && next < s.count && s.slots[next].live then
        s.(slots := s.slots[s.running := s.slots[s.running].(live := false)], running := next)
      else s
    case Switch(next) => if next < s.count && s.slots[next].live then s.(running := next) else s
    case Open(fd) => if fd < MAX_OPEN_FILES && s.files[fd].None? then s.(files := s.files[fd := Some(s.running)]) else s
    case Close(fd) => if fd < MAX_OPEN_FILES then s.(files := s.files[fd := None]) else s
  }

  // -------------------------------------------------------------------------- ownership

  /** The slot's stack pointer is still its own: task_reap is not between freeing and
      clearing it. */
  predicate OwnsStack(s: Sys, i: nat)
    requires i < |s.slots|
  {
    s.slots[i].stack.Some? && s.reaper != At(i, ClearStack)
  }

  predicate OwnsDir(s: Sys, i: nat)
    requires i < |s.slots|
  {
    s.slots[i].dir.Some? && s.reaper != At(i, ClearDir)
  }

  predicate HasFiles(s: Sys, i: nat) {
    Some(i) in s.files
  }

  /** How far the cleaning of slot i has come. */
  predicate SlotOk(s: Sys, i: nat)
    requires 1 <= i < |s.slots|
  {
    var slot := s.slots[i];
    && (i >= s.count ==> Reusable(slot))
    && (slot.live ==> slot.stack.Some? && slot.dir.Some? && !(s.reaper.At? && s.reaper.i == i && s.reaper.step != Look))
    && (slot.stack.Some? ==> slot.dir.Some?)
    && (slot.stack.None? && slot.dir.Some? ==>
          s.reaper.At? && s.reaper.i == i && s.reaper.step in {CloseFiles, LookDir, DropPages, DropDir, ClearDir})
    && (s.reaper.At? && s.reaper.i == i ==>
          match s.reaper.step
          case Look => true
          case DropStack => slot.stack.Some?
          case ClearStack => slot.stack.Some?
          case _ => slot.stack.None? && slot.dir.Some?)
    && (Reusable(slot) ==> !HasFiles(s, i))
    && (s.reaper.At? && s.reaper.i == i && s.reaper.step in {LookDir, DropPages, DropDir, ClearDir} ==> !HasFiles(s, i))
  }

  /** Each stack in use belongs to one slot or to task_create. */
  predicate StacksOk(s: Sys)
    requires |s.slots| == MAX_TASKS
  {
    && (forall i :: 1 <= i < MAX_TASKS && OwnsStack(s, i) ==> s.slots[i].stack.value in s.stacks)
    && (forall i, j :: 1 <= i < j < MAX_TASKS && OwnsStack(s, i) && OwnsStack(s, j) ==>
          s.slots[i].stack.value != s.slots[j].stack.value)
    && (s.creator.HasStack? || s.creator.HasBoth? ==>
          s.creator.stack in s.stacks && forall i :: 1 <= i < MAX_TASKS && OwnsStack(s, i) ==>
            s.slots[i].stack.value != s.creator.stack)
  }

  /** The directory of slot i, or the one task_create holds (number MAX_TASKS). */
  function DirOf(s: Sys, i: nat): Option<nat>
    requires |s.slots| == MAX_TASKS && 1 <= i <= MAX_TASKS
  {
    if i == MAX_TASKS then (if s.creator.HasBoth? then Some(s.creator.dir) else None)
    else if OwnsDir(s, i) then s.slots[i].dir else None
  }

  /** Each directory and each private frame in use belongs to one of them. */
  ghost predicate FramesOk(s: Sys)
    requires |s.slots| == MAX_TASKS
  {
    && (forall i :: 1 <= i <= MAX_TASKS && DirOf(s, i).Some? ==> DirHeld(s, DirOf(s, i).value))
    && (forall i, j :: 1 <= i < j <= MAX_TASKS && DirOf(s, i).Some? && DirOf(s, j).Some? ==>
          DirsApart(s, DirOf(s, i).value, DirOf(s, j).value))
  }

  predicate DirHeld(s: Sys, d: nat) {
    d in s.frames && d in s.pages && s.pages[d] <= s.frames && d !in s.pages[d]
  }

  predicate DirsApart(s: Sys, d: nat, e: nat) {
    d != e && d in s.pages && e in s.pages && s.pages[d] !! s.pages[e] && d !in s.pages[e] && e !in s.pages[d]
  }

  ghost predicate Inv(s: Sys) {
    && Shaped(s) && s.slots[0].live && s.slots[s.running].live
    && (forall i :: 1 <= i < MAX_TASKS ==> SlotOk(s, i))
    && (!s.creator.Idle? ==> Reusable(s.slots[s.creator.id]))
    && StacksOk(s) && FramesOk(s)
  }

  // ---------------------------------------------------------------------- preservation

  ghost predicate ShapeOk(s: Sys) {
    Shaped(s) && s.slots[0].live && s.slots[s.running].live && (!s.creator.Idle? ==> Reusable(s.slots[s.creator.id]))
  }

  lemma KeepsShape(s: Sys, a: Action)
    requires Inv(s)
    ensures ShapeOk(Do(s, a))
  {
    hide StacksOk, FramesOk, SlotOk, Reaped;
    if a.Reap? {
      ReapShape(s, a.page);
    } else {
      FreshSlot(s);
    }
  }

  lemma FreshSlot(s: Sys)
    requires Inv(s)
    ensures s.count < MAX_TASKS ==> Reusable(s.slots[s.count])
  {
    assert s.count < MAX_TASKS ==> SlotOk(s, s.count);
  }

  lemma ReapShape(s: Sys, page: nat)
    requires Inv(s)
    ensures ShapeOk(Do(s, Reap(page)))
  {
    hide StacksOk, FramesOk, SlotOk;
    if s.reaper.At? {
      ReapingSlot(s);
    }
  }

  lemma KeepsSlot(s: Sys, a: Action, i: nat)
    requires Inv(s) && 1 <= i < MAX_TASKS && Shaped(Do(s, a))
    ensures SlotOk(Do(s, a), i)
  {
    if a.Reap? {
      ReapSlot(s, a.page, i);
    } else {
      hide StacksOk, FramesOk, Reaped;
      assert SlotOk(s, i);
    }
  }

  lemma ReapSlot(s: Sys, page: nat, i: nat)
    requires Inv(s) && 1 <= i < MAX_TASKS && Shaped(Do(s, Reap(page)))
    ensures SlotOk(Do(s, Reap(page)), i)
  {
    hide StacksOk, FramesOk;
    assert SlotOk(s, i);
    if s.reaper.At? && s.reaper.i == i {
      ReapOwnSlot(s, page);
    }
  }

  lemma ReapOwnSlot(s: Sys, page: nat)
    requires Shaped(s) && s.reaper.At? && SlotOk(s, s.reaper.i) && Shaped(Do(s, Reap(page)))
    ensures SlotOk(Do(s, Reap(page)), s.reaper.i)
  {
  }

  lemma KeepsStacks(s: Sys, a: Action)
    requires Inv(s) && Shaped(Do(s, a))
    ensures StacksOk(Do(s, a))
  {
    hide FramesOk, SlotOk;
    if a.Reap? {
      ReapStacks(s, a.page);
    } else if a.GetStack? || a.GetDir? || a.GiveUp? || a.Publish? {
      CreateStacks(s, a);
    }
  }

  lemma ReapStacks(s: Sys, page: nat)
    requires Inv(s) && Shaped(Do(s, Reap(page)))
    ensures StacksOk(Do(s, Reap(page)))
  {
    hide FramesOk, SlotOk;
    var r := Do(s, Reap(page));
    if s.reaper.At? {
      ReapingSlot(s);
    }
    forall i | 1 <= i < MAX_TASKS && OwnsStack(r, i)
      ensures OwnsStack(s, i) && r.slots[i].stack == s.slots[i].stack && r.slots[i].stack.value in r.stacks
    {
    }
  }

  /** What is known of the slot that task_reap is working on. */
  lemma ReapingSlot(s: Sys)
    requires Inv(s) && s.reaper.At?
    ensures var (slot, step) := (s.slots[s.reaper.i], s.reaper.step);
            && (step == DropStack || step == ClearStack ==> !slot.live && slot.stack.Some?)
            && (step in {CloseFiles, LookDir, DropPages, DropDir, ClearDir} ==>
                  !slot.live && slot.stack.None? && slot.dir.Some?)
  {
    assert SlotOk(s, s.reaper.i);
  }

  lemma CreateStacks(s: Sys, a: Action)
    requires Inv(s) && Shaped(Do(s, a)) && (a.GetStack? || a.GetDir? || a.GiveUp? || a.Publish?)
    ensures StacksOk(Do(s, a))
  {
    hide FramesOk;
    assert !s.creator.Idle? ==> SlotOk(s, s.creator.id);
    hide SlotOk;
  }

  lemma HeldAt(s: Sys, i: nat)
    requires |s.slots| == MAX_TASKS && FramesOk(s) && 1 <= i <= MAX_TASKS && DirOf(s, i).Some?
    ensures DirHeld(s, DirOf(s, i).value)
  {
  }

  lemma ApartAt(s: Sys, i: nat, j: nat)
    requires |s.slots| == MAX_TASKS && FramesOk(s) && 1 <= i <= MAX_TASKS && 1 <= j <= MAX_TASKS && i != j
    requires DirOf(s, i).Some? && DirOf(s, j).Some?
    ensures DirsApart(s, DirOf(s, i).value, DirOf(s, j).value)
  {
    if i < j {
      assert DirsApart(s, DirOf(s, i).value, DirOf(s, j).value);
    } else {
      assert DirsApart(s, DirOf(s, j).value, DirOf(s, i).value);
    }
  }

  /** Freeing a private frame of the directory of slot k, or that directory once the slot no
      longer counts as its owner, leaves every other directory alone. */
  lemma FrameDropped(s: Sys, r: Sys, k: nat, f: nat)
    requires |s.slots| == |r.slots| == MAX_TASKS && FramesOk(s) && 1 <= k < MAX_TASKS && DirOf(s, k).Some?
    requires r.frames == s.frames - {f}
    requires forall i :: 1 <= i <= MAX_TASKS && i != k ==> DirOf(r, i) == DirOf(s, i)
    requires var d := DirOf(s, k).value;
             || (f in s.pages[d] && r.pages == s.pages[d := s.pages[d] - {f}] && DirOf(r, k) == DirOf(s, k))
             || (f == d && r.pages == s.pages && DirOf(r, k).None?)
    ensures FramesOk(r)
  {
    hide FramesOk, DirOf;
    HeldAt(s, k);
    forall i | 1 <= i <= MAX_TASKS && DirOf(r, i).Some? ensures DirHeld(r, DirOf(r, i).value) {
      assert DirOf(r, i) == DirOf(s, i);
      HeldAt(s, i);
      if i != k {
        ApartAt(s, i, k);
      }
    }
    forall i, j | 1 <= i < j <= MAX_TASKS && DirOf(r, i).Some? && DirOf(r, j).Some?
      ensures DirsApart(r, DirOf(r, i).value, DirOf(r, j).value) {
      assert DirOf(r, i) == DirOf(s, i) && DirOf(r, j) == DirOf(s, j);
      ApartAt(s, i, j);
    }
    FramesIntro(r);
  }

  lemma FramesIntro(s: Sys)
    requires |s.slots| == MAX_TASKS
    requires forall i :: 1 <= i <= MAX_TASKS && DirOf(s, i).Some? ==> DirHeld(s, DirOf(s, i).value)
    requires forall i, j :: 1 <= i < j <= MAX_TASKS && DirOf(s, i).Some? && DirOf(s, j).Some? ==>
      DirsApart(s, DirOf(s, i).value, DirOf(s, j).value)
    ensures FramesOk(s)
  {
  }

  /** Nothing about frames changes, and directories are at most given up or moved. */
  lemma FramesSame(s: Sys, r: Sys)
    requires |s.slots| == |r.slots| == MAX_TASKS && FramesOk(s) && r.frames == s.frames && r.pages == s.pages
    requires forall i :: 1 <= i <= MAX_TASKS ==> DirOf(r, i) == DirOf(s, i) || DirOf(r, i).None?
    ensures FramesOk(r)
  {
    hide FramesOk, DirOf;
    forall i | 1 <= i <= MAX_TASKS && DirOf(r, i).Some? ensures DirHeld(r, DirOf(r, i).value) {
      HeldAt(s, i);
    }
    forall i, j | 1 <= i < j <= MAX_TASKS && DirOf(r, i).Some? && DirOf(r, j).Some?
      ensures DirsApart(r, DirOf(r, i).value, DirOf(r, j).value) {
      ApartAt(s, i, j);
    }
    FramesIntro(r);
  }

  /** A frame that was free joins slot k, or task_create, as its directory or a page of it. */
  lemma FrameAdded(s: Sys, r: Sys, k: nat, f: nat)
    requires |s.slots| == |r.slots| == MAX_TASKS && FramesOk(s) && 1 <= k <= MAX_TASKS && f !in s.frames
    requires r.frames == s.frames + {f}
    requires forall i :: 1 <= i <= MAX_TASKS && i != k ==> DirOf(r, i) == DirOf(s, i)
    requires || (DirOf(s, k).Some? && DirOf(r, k) == DirOf(s, k) && DirOf(s, k).value in s.pages
                 && r.pages == s.pages[DirOf(s, k).value := s.pages[DirOf(s, k).value] + {f}])
             || (DirOf(s, k).None? && DirOf(r, k) == Some(f) && r.pages == s.pages[f := {}])
    ensures FramesOk(r)
  {
    hide FramesOk, DirOf;
    forall i | 1 <= i <= MAX_TASKS && DirOf(r, i).Some? ensures DirHeld(r, DirOf(r, i).value) {
      if DirOf(s, i).Some? {
        HeldAt(s, i);
        if i != k && DirOf(s, k).Some? {
          ApartAt(s, i, k);
        }
      }
    }
    forall i, j | 1 <= i < j <= MAX_TASKS && DirOf(r, i).Some? && DirOf(r, j).Some?
      ensures DirsApart(r, DirOf(r, i).value, DirOf(r, j).value) {
      if DirOf(s, i).Some? {
        HeldAt(s, i);
      }
      if DirOf(s, j).Some? {
        HeldAt(s, j);
      }
      if DirOf(s, i).Some? && DirOf(s, j).Some? {
        ApartAt(s, i, j);
      }
    }
    FramesIntro(r);
  }

  /** task_create hands its directory to slot k. */
  lemma FramesMoved(s: Sys, r: Sys, k: nat)
    requires |s.slots| == |r.slots| == MAX_TASKS && FramesOk(s) && 1 <= k < MAX_TASKS && r.frames == s.frames
    requires r.pages == s.pages
    requires forall i :: 1 <= i < MAX_TASKS && i != k ==> DirOf(r, i) == DirOf(s, i)
    requires DirOf(r, k) == DirOf(s, MAX_TASKS) && DirOf(r, MAX_TASKS).None?
    ensures FramesOk(r)
  {
    hide FramesOk, DirOf;
    forall i | 1 <= i <= MAX_TASKS && DirOf(r, i).Some? ensures DirHeld(r, DirOf(r, i).value) {
      HeldAt(s, if i == k then MAX_TASKS else i);
    }
    forall i, j | 1 <= i < j <= MAX_TASKS && DirOf(r, i).Some? && DirOf(r, j).Some?
      ensures DirsApart(r, DirOf(r, i).value, DirOf(r, j).value) {
      ApartAt(s, if i == k then MAX_TASKS else i, if j == k then MAX_TASKS else j);
    }
    FramesIntro(r);
  }

  lemma ReapFrames(s: Sys, page: nat)
    requires Inv(s) && Shaped(Do(s, Reap(page)))
    ensures FramesOk(Do(s, Reap(page)))
  {
    hide FramesOk, SlotOk, StacksOk;
    var r := Do(s, Reap(page));
    if s.reaper.At? {
      ReapingSlot(s);
      var i := s.reaper.i;
      if s.reaper.step == DropDir {
        FrameDropped(s, r, i, s.slots[i].dir.value);
        return;
      }
      if s.reaper.step == DropPages {
        HeldAt(s, i);
        if page in s.pages[s.slots[i].dir.value] {
          FrameDropped(s, r, i, page);
          return;
        }
      }
    }
    FramesSame(s, r);
  }

  lemma KeepsFrames(s: Sys, a: Action)
    requires Inv(s) && Shaped(Do(s, a))
    ensures FramesOk(Do(s, a))
  {
    hide FramesOk, SlotOk, StacksOk;
    var r := Do(s, a);
    if a.Reap? {
      ReapFrames(s, a.page);
    } else if a.GetDir? && s.creator.HasStack? && a.dir !in s.frames {
      FrameAdded(s, r, MAX_TASKS, a.dir);
    } else if a.Publish? && s.creator.HasBoth? {
      PublishedSlot(s);
      FramesMoved(s, r, s.creator.id);
    } else if a.MapPage? && r != s {
      MappingSlot(s);
      FrameAdded(s, r, s.running, a.page);
    } else {
      FramesSame(s, r);
    }
  }

  lemma PublishedSlot(s: Sys)
    requires Inv(s) && !s.creator.Idle?
    ensures s.reaper.At? && s.reaper.i == s.creator.id ==> s.reaper.step == Look
  {
    assert SlotOk(s, s.creator.id);
  }

  lemma MappingSlot(s: Sys)
    requires Inv(s) && s.running != 0
    ensures OwnsDir(s, s.running)
  {
    assert SlotOk(s, s.running);
  }

  /** Every step keeps the invariant. */
  lemma StepKeeps(s: Sys, a: Action)
    requires Inv(s)
    ensures Inv(Do(s, a))
  {
    KeepsShape(s, a);
    hide Inv, Do, SlotOk, StacksOk, FramesOk;
    forall i | 1 <= i < MAX_TASKS ensures SlotOk(Do(s, a), i) {
      KeepsSlot(s, a, i);
    }
    KeepsStacks(s, a);
    KeepsFrames(s, a);
    InvIntro(Do(s, a));
  }

  lemma InvIntro(s: Sys)
    requires ShapeOk(s) && StacksOk(s) && FramesOk(s)
    requires forall i :: 1 <= i < MAX_TASKS ==> SlotOk(s, i)
    ensures Inv(s)
  {
  }

  /** The system at boot: only the kernel's own task. */
  function Boot(): (s: Sys) {
    Sys(seq(MAX_TASKS, k => Slot(k == 0, None, None)), 1, 0, {}, {}, map[], seq(MAX_OPEN_FILES, _ => None), Resting,
      Idle)
  }

  function After(s: Sys, acts: seq<Action>): (r: Sys)
    requires Inv(s)
    ensures Inv(r) && |r.slots| == MAX_TASKS
  {
    if acts == [] then s
    else
      StepKeeps(After(s, acts[..|acts| - 1]), acts[|acts| - 1]);
      Do(After(s, acts[..|acts| - 1]), acts[|acts| - 1])
  }

  lemma BootInv()
    ensures Inv(Boot())
  {
  }

  // -------------------------------------------------------------------- what it is worth

  /** A live task keeps its stack, its directory and its private frames through every step
      of the system but its own exit. */
  lemma LiveKeeps(s: Sys, a: Action, i: nat)
    requires Inv(s) && 1 <= i < MAX_TASKS && s.slots[i].live && !(a.Exit? && s.running == i)
    ensures var (slot, r) := (s.slots[i], Do(s, a));
            && r.slots[i] == slot && slot.stack.Some? && slot.dir.Some? && slot.stack.value in r.stacks
            && DirHeld(s, slot.dir.value) && DirHeld(r, slot.dir.value)
            && s.pages[slot.dir.value] <= r.pages[slot.dir.value]
  {
    StepKeeps(s, a);
    assert SlotOk(s, i) && !s.creator.Idle? ==> Reusable(s.slots[s.creator.id]);
    LiveOwns(s, i);
    SlotKept(s, a, i);
    LiveOwns(Do(s, a), i);
    PagesKept(s, a, i);
  }

  lemma LiveOwns(s: Sys, i: nat)
    requires Inv(s) && 1 <= i < MAX_TASKS && s.slots[i].live
    ensures OwnsStack(s, i) && OwnsDir(s, i) && s.slots[i].stack.value in s.stacks && DirHeld(s, s.slots[i].dir.value)
  {
    assert SlotOk(s, i);
    HeldAt(s, i);
  }

  lemma SlotKept(s: Sys, a: Action, i: nat)
    requires Inv(s) && 1 <= i < MAX_TASKS && s.slots[i].live && !(a.Exit? && s.running == i)
    ensures Do(s, a).slots[i] == s.slots[i]
  {
    assert SlotOk(s, i);
    hide StacksOk, FramesOk;
  }

  lemma PagesKept(s: Sys, a: Action, i: nat)
    requires Inv(s) && 1 <= i < MAX_TASKS && s.slots[i].live && s.slots[i].dir.Some? && s.slots[i].dir.value in s.pages
    ensures var d := s.slots[i].dir.value; d in Do(s, a).pages && s.pages[d] <= Do(s, a).pages[d]
  {
    LiveOwns(s, i);
    assert SlotOk(s, i);
    if s.reaper.At? {
      ReapingSlot(s);
      if s.reaper.step == DropPages {
        ApartAt(s, i, s.reaper.i);
      }
    }
    hide StacksOk, FramesOk, SlotOk;
  }

  /** The stack or the frame that a step passes to kfree or pmm_free_frame. */
  datatype Freeing = Nothing | Stack(x: nat) | Frame(x: nat)

  function Frees(s: Sys, a: Action): Freeing
    requires Shaped(s)
  {
    if a.GiveUp? && s.creator.HasStack? then Stack(s.creator.stack)
    else if !a.Reap? || s.reaper.Resting? then Nothing
    else
      var slot := s.slots[s.reaper.i];
      if s.reaper.step == DropStack && slot.stack.Some? then Stack(slot.stack.value)
      else if s.reaper.step == DropDir && slot.dir.Some? then Frame(slot.dir.value)
      else if s.reaper.step == DropPages && slot.dir.Some? && slot.dir.value in s.pages
        && a.page in s.pages[slot.dir.value] then Frame(a.page)
      else Nothing
  }

  /** The task, or task_create, holds the frame as its directory or as one of its pages. */
  predicate HoldsFrame(s: Sys, i: nat, x: nat)
    requires |s.slots| == MAX_TASKS && 1 <= i <= MAX_TASKS
  {
    DirOf(s, i).Some? && (DirOf(s, i).value == x || (DirOf(s, i).value in s.pages && x in s.pages[DirOf(s, i).value]))
  }

  /** task_create holds the stack. */
  predicate CreatorHoldsStack(s: Sys, x: nat) {
    (s.creator.HasStack? || s.creator.HasBoth?) && s.creator.stack == x
  }

  /** Whatever a step frees is in use, so nothing is freed twice, and no live task holds it;
      nor does task_create, unless it is itself giving up its stack.  In particular the
      loaded directory is never freed. */
  lemma FreesOnlyDead(s: Sys, a: Action)
    requires Inv(s)
    ensures match Frees(s, a)
            case Nothing => true
            case Stack(x) =>
              && x in s.stacks && (CreatorHoldsStack(s, x) ==> a.GiveUp?)
              && forall i :: 1 <= i < MAX_TASKS && s.slots[i].live ==> s.slots[i].stack != Some(x)
            case Frame(x) =>
              x in s.frames && !HoldsFrame(s, MAX_TASKS, x) && forall i :: 1 <= i < MAX_TASKS && s.slots[i].live ==>
                !HoldsFrame(s, i, x)
  {
    if s.reaper.At? {
      ReapingSlot(s);
    }
    match Frees(s, a) {
      case Nothing =>
      case Stack(x) =>
        forall i | 1 <= i < MAX_TASKS && s.slots[i].live ensures s.slots[i].stack != Some(x) {
          LiveOwns(s, i);
        }
      case Frame(x) =>
        var k := s.reaper.i;
        HeldAt(s, k);
        hide FramesOk, SlotOk, StacksOk;
        forall i | 1 <= i <= MAX_TASKS && i != k ensures !HoldsFrame(s, i, x) {
          if DirOf(s, i).Some? {
            ApartAt(s, i, k);
          }
        }
    }
  }

  /** A slot is chosen for a new task only when no file of its last task is open, and none
      is opened for it before the new task runs, so a new task inherits no descriptor. */
  lemma InheritsNothing(s: Sys)
    requires Inv(s) && !s.creator.Idle?
    ensures !HasFiles(s, s.creator.id)
  {
    assert SlotOk(s, s.creator.id);
  }

  // -------------------------------------------------------------- creating, running, exiting

  /** task_create goes through for every slot that can be used, with any stack and any frame that is
      free: the slot is live with just these, and nothing else has changed. */
  lemma Creates(s: Sys, id: nat, stack: nat, dir: nat)
    requires Inv(s) && s.creator == Idle && stack !in s.stacks && dir !in s.frames
    requires (1 <= id < s.count <= MAX_TASKS && Reusable(s.slots[id])) || id == s.count < MAX_TASKS
    ensures var r := Do(Do(Do(Do(s, Pick(id)), GetStack(stack)), GetDir(dir)), Publish);
            r == s.(slots := s.slots[id := Slot(true, Some(stack), Some(dir))],
                    count := if id == s.count then s.count + 1 else s.count,
                    stacks := s.stacks + {stack}, frames := s.frames + {dir}, pages := s.pages[dir := {}])
  {
    hide SlotOk, StacksOk, FramesOk;
  }

  /** A task_create that fails, with its stack or before, leaves everything but the count as it was. */
  lemma GivesBack(s: Sys, id: nat, stack: nat)
    requires Inv(s) && s.creator == Idle && stack !in s.stacks
    requires (1 <= id < s.count <= MAX_TASKS && Reusable(s.slots[id])) || id == s.count < MAX_TASKS
    ensures var (p, count) := (Do(s, Pick(id)), if id == s.count then s.count + 1 else s.count);
            Do(p, GiveUp) == Do(Do(p, GetStack(stack)), GiveUp) == s.(count := count)
  {
    hide SlotOk, StacksOk, FramesOk;
    assert s.stacks + {stack} - {stack} == s.stacks;
  }

  /** A live task is switched to and maps frames for itself; an exited one is no longer live, and
      still holds what it held until task_reap comes. */
  lemma RunsAndExits(s: Sys, i: nat, page: nat, next: nat)
    requires Inv(s) && 1 <= i < s.count && s.slots[i].live && page !in s.frames
    requires next < s.count && next != i && s.slots[next].live
    ensures var run := Do(s, Switch(i));
            var d, more := s.slots[i].dir, Do(run, MapPage(page));
            && run == s.(running := i) && d.Some? && d.value in s.pages
            && more == run.(frames := s.frames + {page}, pages := s.pages[d.value := s.pages[d.value] + {page}])
            && Do(run, Exit(next)) == s.(slots := s.slots[i := s.slots[i].(live := false)], running := next)
  {
    LiveOwns(s, i);
    hide SlotOk, StacksOk, FramesOk;
  }

  // ------------------------------------------------------------------- an exited task's rest

  /** What slot i holds: its stack, its directory and the frames that the directory maps. */
  ghost function Holdings(s: Sys, i: nat): (h: set<Freeing>)
    requires i < |s.slots|
  {
    (if OwnsStack(s, i) then {Stack(s.slots[i].stack.value)} else {})
    + (if OwnsDir(s, i) then {Frame(s.slots[i].dir.value)} + PagesOf(s, s.slots[i].dir.value) else {})
  }

  ghost function PagesOf(s: Sys, d: nat): (h: set<Freeing>) {
    if d in s.pages then set p | p in s.pages[d] :: Frame(p) else {}
  }

  /** The step is one of task_reap at slot i. */
  predicate ReapsAt(s: Sys, a: Action, i: nat) {
    a.Reap? && s.reaper.At? && s.reaper.i == i
  }

  /** A step that is not task_reap's at this slot leaves an exited task's holdings alone. */
  lemma HoldingsStay(s: Sys, a: Action, i: nat)
    requires Inv(s) && 1 <= i < MAX_TASKS && !s.slots[i].live && !Reusable(s.slots[i]) && !ReapsAt(s, a, i)
    ensures var r := Do(s, a); |r.slots| == MAX_TASKS && r.slots[i] == s.slots[i] && Holdings(r, i) == Holdings(s, i)
  {
    DeadStays(s, a, i);
    if OwnsDir(s, i) { OwnPages(s, a, i); }
    hide Inv, Do, PagesOf;
  }

  lemma DeadStays(s: Sys, a: Action, i: nat)
    requires Inv(s) && 1 <= i < MAX_TASKS && !s.slots[i].live && !Reusable(s.slots[i]) && !ReapsAt(s, a, i)
    ensures var r := Do(s, a);
            && |r.slots| == MAX_TASKS && r.slots[i] == s.slots[i]
            && (OwnsStack(r, i) <==> OwnsStack(s, i)) && (OwnsDir(r, i) <==> OwnsDir(s, i))
  {
    assert !s.creator.Idle? ==> s.creator.id != i;
    assert i != s.running;
    hide SlotOk, StacksOk, FramesOk;
  }

  lemma OwnPages(s: Sys, a: Action, i: nat)
    requires Inv(s) && 1 <= i < MAX_TASKS && !s.slots[i].live && !ReapsAt(s, a, i) && OwnsDir(s, i)
    ensures PagesOf(Do(s, a), s.slots[i].dir.value) == PagesOf(s, s.slots[i].dir.value)
  {
    HeldAt(s, i);
    if s.reaper.At? {
      ReapingSlot(s);
      if a.Reap? && s.reaper.step == DropPages {
        HeldAt(s, s.reaper.i);
        ApartAt(s, i, s.reaper.i);
      }
    }
    if a.MapPage? && s.running != 0 {
      MappingSlot(s);
      ApartAt(s, i, s.running);
    }
    hide StacksOk, FramesOk, SlotOk;
  }

  /** When task_reap is about to free a directory, none of its frames is left. */
  predicate Emptied(s: Sys) {
    s.reaper.At? && s.reaper.i < |s.slots| && s.reaper.step == DropDir && s.slots[s.reaper.i].dir.Some?
      && s.slots[s.reaper.i].dir.value in s.pages ==>
    s.pages[s.slots[s.reaper.i].dir.value] == {}
  }

  lemma EmptiedStays(s: Sys, a: Action)
    requires Inv(s) && Emptied(s)
    ensures Emptied(Do(s, a))
  {
    if s.reaper.At? && s.reaper.step == DropDir {
      ReapingSlot(s);
      if !a.Reap? {
        OwnPages(s, a, s.reaper.i);
        NoPages(Do(s, a), s.slots[s.reaper.i].dir.value);
        SlotStays(s, a);
      }
    }
    hide Inv, StacksOk, FramesOk, SlotOk;
  }

  lemma NoPages(s: Sys, d: nat)
    ensures d in s.pages && PagesOf(s, d) == {} ==> s.pages[d] == {}
  {
    if d in s.pages && s.pages[d] != {} {
      var p :| p in s.pages[d];
      assert Frame(p) in PagesOf(s, d);
    }
  }

  lemma SlotStays(s: Sys, a: Action)
    requires Inv(s) && s.reaper.At? && s.reaper.step == DropDir && !a.Reap?
    ensures Do(s, a).slots[s.reaper.i] == s.slots[s.reaper.i]
  {
    ReapingSlot(s);
    assert !s.creator.Idle? ==> Reusable(s.slots[s.creator.id]);
    hide StacksOk, FramesOk, SlotOk;
  }

  /** A step of task_reap at the slot of an exited task frees one of its holdings, or nothing. */
  lemma HoldingsFreed(s: Sys, page: nat)
    requires Inv(s) && Emptied(s) && s.reaper.At? && !s.slots[s.reaper.i].live
    ensures var i, f, r := s.reaper.i, Frees(s, Reap(page)), Do(s, Reap(page));
            && |r.slots| == MAX_TASKS && !r.slots[i].live && (f != Nothing ==> f in Holdings(s, i))
            && Holdings(r, i) == Holdings(s, i) - {f}
  {
    ReapingSlot(s);
    var i := s.reaper.i;
    if OwnsDir(s, i) { HeldAt(s, i); }
    hide Inv, StacksOk, FramesOk, SlotOk;
    var f, r := Frees(s, Reap(page)), Do(s, Reap(page));
  }

  /** What task_reap frees at slot i in the course of a run. */
  ghost function FreedAt(s: Sys, acts: seq<Action>, i: nat): (fs: seq<Freeing>)
    requires Inv(s)
  {
    if acts == [] then []
    else
      var k := |acts| - 1;
      var before := After(s, acts[..k]);
      FreedAt(s, acts[..k], i)
      + if ReapsAt(before, acts[k], i) && Frees(before, acts[k]) != Nothing then [Frees(before, acts[k])] else []
  }

  predicate NoRepeat(fs: seq<Freeing>) {
    forall j, k :: 0 <= j < k < |fs| ==> fs[j] != fs[k]
  }

  /** Whatever the others do meanwhile: until the slot of an exited task can be used again, task_reap
      frees exactly what the slot no longer holds, each thing once; so when it can be used again
      everything that the task held has been freed, once. */
  lemma {:induction false} FreesAllOnce(s: Sys, acts: seq<Action>, i: nat)
    requires Inv(s) && Emptied(s) && 1 <= i < MAX_TASKS && !s.slots[i].live
    requires forall k :: 0 <= k < |acts| ==> !Reusable(After(s, acts[..k]).slots[i])
    ensures var r, fs := After(s, acts), FreedAt(s, acts, i);
            && Emptied(r) && !r.slots[i].live && NoRepeat(fs) && Holdings(r, i) <= Holdings(s, i)
            && (forall f :: f in fs <==> f in Holdings(s, i) && f !in Holdings(r, i))
            && (Reusable(r.slots[i]) ==> forall f :: f in fs <==> f in Holdings(s, i))
    decreases |acts|
  {
    hide Do, Inv, Holdings, Frees, ReapsAt, Reusable, Emptied;
    if acts != [] {
      var k := |acts| - 1;
      var before, a := After(s, acts[..k]), acts[k];
      forall m | 0 <= m < k ensures !Reusable(After(s, acts[..k][..m]).slots[i]) {
        assert acts[..k][..m] == acts[..m];
      }
      FreesAllOnce(s, acts[..k], i);
      EmptiedStays(before, a);
      if ReapsAt(before, a, i) {
        ReapsOne(before, a, i);
      } else {
        HoldingsStay(before, a, i);
      }
    }
    NothingHeld(After(s, acts), i);
  }

  lemma ReapsOne(s: Sys, a: Action, i: nat)
    requires Inv(s) && Emptied(s) && 1 <= i < MAX_TASKS && ReapsAt(s, a, i) && !s.slots[i].live
    ensures var f, r := Frees(s, a), Do(s, a);
            && |r.slots| == MAX_TASKS && !r.slots[i].live && (f != Nothing ==> f in Holdings(s, i))
            && Holdings(r, i) == Holdings(s, i) - {f} && Nothing !in Holdings(s, i)
  {
    HoldingsFreed(s, a.page);
    hide Inv, Do, Frees;
  }

  lemma NothingHeld(s: Sys, i: nat)
    requires i < |s.slots|
    ensures Reusable(s.slots[i]) ==> Holdings(s, i) == {}
  {
  }

  // ------------------------------------------------------------------------- a whole pass

  function Rank(step: ReapStep): (k: nat) {
    match step
    case Look => 8
    case DropStack => 7
    case ClearStack => 6
    case CloseFiles => 5
    case LookDir => 4
    case DropPages => 3
    case DropDir => 2
    case ClearDir => 1
  }

  ghost function PagesLeft(s: Sys, i: nat): (n: nat)
    requires i < |s.slots|
  {
    if s.slots[i].dir.Some? && s.slots[i].dir.value in s.pages then |s.pages[s.slots[i].dir.value]| else 0
  }

  /** task_reap never gets stuck at an exited task: its next step comes closer to the end, and it
      goes on to the next slot only when this one can be used again. */
  lemma ReapGoesOn(s: Sys) returns (page: nat)
    requires Inv(s) && s.reaper.At? && !s.slots[s.reaper.i].live
    ensures var i, r := s.reaper.i, Do(s, Reap(page));
            && |r.slots| == MAX_TASKS && r.count == s.count && !r.slots[i].live
            && (forall j :: 0 <= j < MAX_TASKS && j != i ==> r.slots[j] == s.slots[j])
            && if r.reaper.At? && r.reaper.i == i
               then Rank(r.reaper.step) < Rank(s.reaper.step)
                    || (Rank(r.reaper.step) == Rank(s.reaper.step) && PagesLeft(r, i) < PagesLeft(s, i))
               else r.reaper == NextSlot(s, i) && Reusable(r.slots[i])
  {
    page := 0;
    var i := s.reaper.i;
    ReapingSlot(s);
    assert SlotOk(s, i);
    if OwnsDir(s, i) { HeldAt(s, i); }
    if s.reaper.step == DropPages && s.pages[s.slots[i].dir.value] != {} {
      page :| page in s.pages[s.slots[i].dir.value];
    }
    hide StacksOk, FramesOk, SlotOk;
  }

  lemma AfterOne(s: Sys, a: Action)
    requires Inv(s)
    ensures After(s, [a]) == Do(s, a)
  {
    hide Do, Inv;
    assert [a][..0] == [] && After(s, []) == s;
  }

  lemma {:induction false} AfterCons(s: Sys, a: Action, acts: seq<Action>)
    requires Inv(s)
    ensures Inv(Do(s, a)) && After(s, [a] + acts) == After(Do(s, a), acts)
    decreases |acts|
  {
    hide Do, Inv;
    StepKeeps(s, a);
    if acts == [] {
      AfterOne(s, a);
      assert [a] + acts == [a];
    } else {
      var k := |acts| - 1;
      AfterCons(s, a, acts[..k]);
      assert ([a] + acts)[..k + 1] == [a] + acts[..k];
    }
  }

  lemma {:induction false} AfterBoth(s: Sys, acts: seq<Action>, more: seq<Action>)
    requires Inv(s)
    ensures After(s, acts + more) == After(After(s, acts), more)
    decreases |more|
  {
    hide Do, Inv;
    if more == [] {
      assert acts + more == acts;
    } else {
      var k := |more| - 1;
      AfterBoth(s, acts, more[..k]);
      assert (acts + more)[..|acts| + k] == acts + more[..k];
    }
  }

  predicate OnlyReaps(acts: seq<Action>) {
    forall k :: 0 <= k < |acts| ==> acts[k].Reap?
  }

  /** The slot that task_reap is at is clean when it goes on. */
  lemma FinishSlot(s: Sys) returns (acts: seq<Action>)
    requires Inv(s) && s.reaper.At? && s.reaper.i < MAX_TASKS && !s.slots[s.reaper.i].live
    ensures var r := After(s, acts);
            && OnlyReaps(acts) && r.reaper == NextSlot(s, s.reaper.i) && r.count == s.count
            && Reusable(r.slots[s.reaper.i])
            && forall j :: 0 <= j < MAX_TASKS && j != s.reaper.i ==> r.slots[j] == s.slots[j]
    decreases Rank(s.reaper.step), PagesLeft(s, s.reaper.i)
  {
    var page := ReapGoesOn(s);
    var r := Do(s, Reap(page));
    StepKeeps(s, Reap(page));
    hide Do, Inv, Reusable, PagesLeft, Rank;
    var rest := [];
    if r.reaper.At? && r.reaper.i == s.reaper.i {
      rest := FinishSlot(r);
    }
    acts := [Reap(page)] + rest;
    AfterCons(s, Reap(page), rest);
  }

  lemma PassesOver(s: Sys)
    requires Inv(s) && s.reaper.At? && s.reaper.step == Look && s.slots[s.reaper.i].live
    ensures Do(s, Reap(0)) == s.(reaper := NextSlot(s, s.reaper.i))
  {
  }

  /** From slot i on. */
  lemma CleanFrom(s: Sys) returns (acts: seq<Action>)
    requires Inv(s) && s.reaper.At? && s.reaper.step == Look && 1 <= s.reaper.i < s.count <= MAX_TASKS
    ensures var r := After(s, acts);
            && OnlyReaps(acts) && r.reaper == Resting && r.count == s.count
            && (forall j :: 0 <= j < MAX_TASKS && (j < s.reaper.i || s.slots[j].live) ==> r.slots[j] == s.slots[j])
            && forall j :: s.reaper.i <= j < s.count && !s.slots[j].live ==> Reusable(r.slots[j])
    decreases s.count - s.reaper.i
  {
    hide Do, Inv, Reusable;
    BeyondCount(s);
    if s.slots[s.reaper.i].live {
      acts := [Reap(0)];
      AfterOne(s, Reap(0));
      PassesOver(s);
    } else {
      acts := FinishSlot(s);
    }
    var r := After(s, acts);
    if r.reaper.At? {
      var more := CleanFrom(r);
      AfterBoth(s, acts, more);
      acts := acts + more;
    }
  }

  /** A whole call of task_reap can always be completed, and leaves nothing of any exited task: every
      slot that is not live can be used again, and the live ones are untouched. */
  lemma PassCleans(s: Sys) returns (acts: seq<Action>)
    requires Inv(s) && s.reaper == Resting
    ensures var r := After(s, acts);
            && OnlyReaps(acts) && r.reaper == Resting
            && forall j :: 1 <= j < MAX_TASKS ==>
                 if s.slots[j].live then r.slots[j] == s.slots[j] else Reusable(r.slots[j])
  {
    var r := Do(s, Reap(0));
    StepKeeps(s, Reap(0));
    AfterOne(s, Reap(0));
    BeyondCount(s);
    assert r.count == s.count && r.slots == s.slots && if s.count > 1 then r.reaper == At(1, Look) else r == s;
    hide Do, Inv, Reusable;
    acts := [Reap(0)];
    if r.reaper.At? {
      var more := CleanFrom(r);
      AfterCons(s, Reap(0), more);
      acts := acts + more;
    }
    BeyondCount(After(s, acts));
  }

  lemma BeyondCount(s: Sys)
    requires Inv(s)
    ensures |s.slots| == MAX_TASKS && 1 <= s.count <= MAX_TASKS
    ensures forall j :: s.count <= j < MAX_TASKS ==> Reusable(s.slots[j]) && !s.slots[j].live
  {
    forall j | s.count <= j < MAX_TASKS ensures Reusable(s.slots[j]) { assert SlotOk(s, j); }
  }
}
