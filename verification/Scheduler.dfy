/**
  The round-robin scheduler: which task runs, who is chosen next, and when a sleeper wakes.
  A task switch is one step.  Task 0 is the kernel's own loop: it never sleeps, waits or
  exits.
*/
module Scheduler {
  import opened Common

  datatype TaskState = Unused | Ready | Running | Sleeping
  datatype Task = Task(state: TaskState, wake: U32)

  /** The task table, the running task, and how many slots have ever been in use. */
  datatype Sched = Sched(tasks: seq<Task>, current: nat, count: nat)

  /** The timer, the running task's calls, and the two effects of task_create: it may raise the
      count, also when it fails later, and it may make an unused slot ready. */
  datatype Event = Tick | Sleep(ticks: nat) | Exit | Yield | Grow | Create(id: nat)

  predicate Runnable(t: Task) {
    t.state == Ready || t.state == Running
  }

  predicate Shaped(s: Sched) {
    |s.tasks| == MAX_TASKS && 1 <= s.count <= MAX_TASKS && s.current < s.count
  }

  /** The first runnable task in cyclic order after `from`, starting i places after it. */
  function NextFrom(s: Sched, from: nat, i: nat): (id: nat)
    requires Shaped(s) && from < s.count && 1 <= i <= s.count + 1
    ensures id < s.count
    decreases s.count + 1 - i
  {
    if i > s.count then from
    else
      var id := (from + i) % s.count;
      if Runnable(s.tasks[id]) then id else NextFrom(s, from, i + 1)
  }

  function NextId(s: Sched, from: nat): (id: nat)
    requires Shaped(s) && from < s.count
    ensures id < s.count
  {
    NextFrom(s, from, 1)
  }

  /** How far t is after `from` in the cycle of n tasks: 1 to n, where n is a whole round. */
  function Distance(from: nat, t: nat, n: nat): (d: int) {
    if t > from then t - from else t - from + n
  }

  /** next_task_id chooses the nearest runnable task; itself only if there is no other. */
  lemma {:induction false} NextFromNearest(s: Sched, from: nat, i: nat, t: nat)
    requires Shaped(s) && from < s.count && 1 <= i <= s.count + 1
    requires t < s.count && Runnable(s.tasks[t]) && i <= Distance(from, t, s.count)
    ensures Runnable(s.tasks[NextFrom(s, from, i)])
    ensures i <= Distance(from, NextFrom(s, from, i), s.count) <= Distance(from, t, s.count)
    decreases s.count + 1 - i
  {
    Wrap(from + i, s.count);
    var id := (from + i) % s.count;
    assert Distance(from, id, s.count) == i;
    if !Runnable(s.tasks[id]) {
      NextFromNearest(s, from, i + 1, t);
    }
  }

  lemma Wrap(x: nat, n: nat)
    requires 0 < n && x < 2 * n
    ensures x % n == if x < n then x else x - n
  {
    if x >= n {
      assert x == n + (x - n);
    }
  }

  // -------------------------------------------------------------------------- the steps

  function SwitchTo(s: Sched, id: nat): (r: Sched)
    requires id < |s.tasks|
  {
    s.(current := id, tasks := s.tasks[id := s.tasks[id].(state := Running)])
  }

  function SetState(s: Sched, id: nat, state: TaskState): (r: Sched)
    requires id < |s.tasks|
  {
    s.(tasks := s.tasks[id := s.tasks[id].(state := state)])
  }

  /** The signed comparison of wake_sleepers. */
  predicate Due(now: U32, wake: U32) {
    Minus(now, wake) < TWO_31
  }

  function WokenTask(t: Task, now: U32): Task {
    if t.state == Sleeping && Due(now, t.wake) then t.(state := Ready) else t
  }

  function Woken(s: Sched, now: U32): (r: Sched)
    requires Shaped(s)
  {
    s.(tasks := seq(MAX_TASKS, k requires 0 <= k < MAX_TASKS => if k < s.count then WokenTask(s.tasks[k], now)
      else s.tasks[k]))
  }

  /** The table in which the next task is looked for. */
  function Choosing(s: Sched, e: Event, now: U32): (r: Sched)
    requires Shaped(s)
    ensures Shaped(r)
  {
    match e
    case Tick => Woken(s, now)
    case Sleep(_) => SetState(s, s.current, Sleeping)
    case Exit => SetState(s, s.current, Unused)
    case Yield => SetState(s, s.current, Ready)
    case Create(_) => s
    case Grow => s
  }

  /** The task that the call switches to; the current one if it does not switch. */
  function Chosen(s: Sched, e: Event, now: U32): (id: nat)
    requires Shaped(s)
    ensures id < s.count
  {
    if e.Create? || e.Grow? || (e.Tick? && s.count <= 1) then s.current else NextId(Choosing(s, e, now), s.current)
  }

  function Step(s: Sched, e: Event, now: U32): (r: Sched)
    requires Shaped(s)
    ensures Shaped(r)
  {
    match e
    case Tick =>
      var w, id := Woken(s, now), Chosen(s, e, now);
      if id == s.current then w
      else SwitchTo(if w.tasks[s.current].state == Running then SetState(w, s.current, Ready) else w, id)
    case Sleep(ticks) =>
      SwitchTo(s.(tasks := s.tasks[s.current := Task(Sleeping, (now + ticks) % TWO_32)]), Chosen(s, e, now))
    case Exit => SwitchTo(SetState(s, s.current, Unused), Chosen(s, e, now))
    case Yield => SwitchTo(SetState(s, s.current, Ready), Chosen(s, e, now))
    case Create(id) => if id >= s.count || s.tasks[id].state != Unused then s else SetState(s, id, Ready)
    case Grow => if s.count >= MAX_TASKS then s else s.(count := s.count + 1)
  }

  // -------------------------------------------------------------------------- invariant

  /** The calls that task 0 never makes. */
  predicate Allowed(s: Sched, e: Event) {
    e.Sleep? || e.Exit? || e.Yield? ==> s.current != 0
  }

  /** Exactly the current task is running, task 0 can always run, and slots past the count
      are unused. */
  predicate Inv(s: Sched) {
    && Shaped(s) && Runnable(s.tasks[0])
    && (forall k :: 0 <= k < MAX_TASKS ==> (s.tasks[k].state == Running <==> k == s.current))
    && (forall k :: s.count <= k < MAX_TASKS ==> s.tasks[k].state == Unused)
  }

  lemma WokenSame(s: Sched, now: U32)
    requires Inv(s)
    ensures Inv(Woken(s, now)) && Woken(s, now).current == s.current && Woken(s, now).count == s.count
    ensures forall k :: 0 <= k < MAX_TASKS && Runnable(s.tasks[k]) ==> Woken(s, now).tasks[k] == s.tasks[k]
  {
  }

  /** A task that gives up the processor hands it to another one. */
  lemma GivesUp(s: Sched, state: TaskState)
    requires Inv(s) && s.current != 0 && state != Running
    ensures var w := SetState(s, s.current, state);
      NextId(w, s.current) != s.current && w.tasks[NextId(w, s.current)].state == Ready
  {
    var w := SetState(s, s.current, state);
    NextFromNearest(w, s.current, 1, 0);
  }

  lemma TickSwitch(s: Sched, now: U32)
    requires Inv(s)
    ensures var id := Chosen(s, Tick, now); id != s.current ==> Woken(s, now).tasks[id].state == Ready
  {
    WokenSame(s, now);
    if s.count > 1 {
      NextFromNearest(Woken(s, now), s.current, 1, s.current);
    }
  }

  /** Every call keeps the invariant, and never switches to the task that is running: it
      switches to a ready one, and whenever the caller gives up the processor it does
      switch. */
  lemma StepKeeps(s: Sched, e: Event, now: U32)
    requires Inv(s) && Allowed(s, e)
    ensures Inv(Step(s, e, now)) && Step(s, e, now).current == Chosen(s, e, now)
    ensures (e.Sleep? || e.Exit? || e.Yield?) ==> Chosen(s, e, now) != s.current
  {
    match e
    case Tick => {
      WokenSame(s, now);
      TickSwitch(s, now);
      hide Woken, NextId;
    }
    case Sleep(ticks) => {
      GivesUp(s, Sleeping);
      hide NextId;
    }
    case Exit => {
      GivesUp(s, Unused);
      hide NextId;
    }
    case Yield => {
      GivesUp(s, Ready);
      hide NextId;
    }
    case Create(id) =>
    case Grow =>
  }

  /** What a call leaves behind, task by task: the chosen task runs; the caller sleeps until its
      tick, has given up its slot, or is ready; a tick wakes the sleepers that are due, task_create
      makes its slot ready, and every other task is as before. */
  lemma StepStates(s: Sched, e: Event, now: U32, t: nat)
    requires Inv(s) && Allowed(s, e) && t < MAX_TASKS
    ensures var r, was := Step(s, e, now), s.tasks[t];
            && (t == r.current ==> r.tasks[t].state == Running)
            && (t == s.current != r.current ==>
                  r.tasks[t].state == if e.Sleep? then Sleeping else if e.Exit? then Unused else Ready)
            && (t != s.current && t != r.current ==>
                  r.tasks[t].state ==
                  if e.Tick? && was.state == Sleeping && Due(now, was.wake) then Ready
                  else if e == Create(t) && was.state == Unused && t < s.count then Ready
                  else was.state)
            && r.tasks[t].wake == if e.Sleep? && t == s.current then (now + e.ticks) % TWO_32 else was.wake
  {
    StepKeeps(s, e, now);
    hide NextId, Due;
  }

  /** The table at boot, from tasking_init: task 0 runs, every other slot is unused. */
  function Boot(): (s: Sched) {
    Sched(seq(MAX_TASKS, k => Task(if k == 0 then Running else Unused, 0)), 0, 1)
  }

  lemma BootInv()
    ensures Inv(Boot())
  {
  }

  // -------------------------------------------------------------------- waiting for a turn

  /** The step from one state to the next, by the event at its index. */
  ghost predicate Run(ss: seq<Sched>, es: seq<(Event, U32)>) {
    && |ss| == |es| + 1 && Inv(ss[0])
    && forall k :: 0 <= k < |es| ==>
         Shaped(ss[k]) && Allowed(ss[k], es[k].0) && ss[k + 1] == Step(ss[k], es[k].0, es[k].1)
  }

  function Switches(ss: seq<Sched>): (n: nat) {
    if |ss| <= 1 then 0
    else Switches(ss[..|ss| - 1]) + if ss[|ss| - 1].current != ss[|ss| - 2].current then 1 else 0
  }

  /** Every switch that does not reach a ready task comes closer to it. */
  lemma StepCloser(s: Sched, e: Event, now: U32, t: nat, n: nat)
    requires Inv(s) && Allowed(s, e) && t < MAX_TASKS && s.count <= n && Step(s, e, now).count <= n
    requires s.tasks[t].state == Ready && Step(s, e, now).tasks[t].state == Ready
    ensures var r := Step(s, e, now);
            if r.current == s.current then Distance(r.current, t, n) == Distance(s.current, t, n)
            else Distance(r.current, t, n) < Distance(s.current, t, n)
  {
    StepKeeps(s, e, now);
    var r, id := Step(s, e, now), Chosen(s, e, now);
    assert t < s.count && t != s.current && t != id;
    if id != s.current {
      NextFromNearest(Choosing(s, e, now), s.current, 1, t);
    }
  }

  /** A timer tick does switch while another task is ready. */
  lemma TickMoves(s: Sched, now: U32, t: nat)
    requires Inv(s) && t < MAX_TASKS && s.tasks[t].state == Ready
    ensures Step(s, Tick, now).current != s.current
  {
    StepKeeps(s, Tick, now);
    WokenSame(s, now);
    NextFromNearest(Woken(s, now), s.current, 1, t);
  }

  /** The task is ready in every state of the run, and there are never more than n tasks. */
  ghost predicate StaysReady(ss: seq<Sched>, t: nat, n: nat) {
    && t < MAX_TASKS
    && forall k :: 0 <= k < |ss| ==> |ss[k].tasks| == MAX_TASKS && ss[k].tasks[t].state == Ready && ss[k].count <= n
  }

  /** A task that stays ready waits for fewer switches than there are other tasks: with n
      tasks at the end of the run, at most n - 2 happen before the one that runs it. */
  lemma {:induction false} ReadyRunsSoon(ss: seq<Sched>, es: seq<(Event, U32)>, t: nat, n: nat)
    requires Run(ss, es) && StaysReady(ss, t, n)
    ensures Inv(ss[|es|]) && Switches(ss) + Distance(ss[|es|].current, t, n) <= Distance(ss[0].current, t, n)
    ensures Switches(ss) <= n - 2
    decreases |es|
  {
    hide Step, Inv, Distance;
    if es != [] {
      var m := |es| - 1;
      var us := ss[..m + 1];
      assert us[0] == ss[0] && us[m] == ss[m];
      ReadyRunsSoon(us, es[..m], t, n);
      assert ss[m + 1] == Step(ss[m], es[m].0, es[m].1);
      assert ss[m + 1].tasks[t].state == Ready && ss[m + 1].count <= n;
      StepKeeps(ss[m], es[m].0, es[m].1);
      StepCloser(ss[m], es[m].0, es[m].1, t, n);
      LastSwitch(ss);
    }
    AtLeastOne(ss[0], ss[|es|], t, n);
  }

  lemma LastSwitch(ss: seq<Sched>)
    requires |ss| >= 2
    ensures Switches(ss) == Switches(ss[..|ss| - 1]) + if ss[|ss| - 1].current != ss[|ss| - 2].current then 1 else 0
  {
  }

  lemma AtLeastOne(s: Sched, r: Sched, t: nat, n: nat)
    requires Inv(s) && Inv(r) && t < MAX_TASKS && s.tasks[t].state == Ready && r.tasks[t].state == Ready && s.count <= n
    requires r.count <= n
    ensures 1 <= Distance(r.current, t, n) && Distance(s.current, t, n) <= n - 1
  {
  }

  // -------------------------------------------------------------------------- sleeping

  /** The ticks that task_sleep sleeps for, in 32 bits. */
  function SleepTicks(ms: U32, freq: U32): (n: nat)
    ensures 1 <= n <= 4294967
  {
    var f := if freq == 0 then 100 else freq;
    var n := ms * f % TWO_32 / 1000;
    if n == 0 then 1 else n
  }

  /** The product overflows, and the task sleeps for less, exactly from 2^32 on. */
  lemma SleepTicksExact(ms: U32, freq: U32)
    requires freq > 0
    ensures var want := if ms * freq < 1000 then 1 else ms * freq / 1000;
            SleepTicks(ms, freq) == want <==> ms * freq < TWO_32
    ensures SleepTicks(ms, 0) == SleepTicks(ms, 100)
  {
    Product(ms, freq);
  }

  /** A task sleeps for at least the time it asked for exactly when the product does not
      overflow and the time is a whole number of ticks, or less than one. */
  lemma SleepsLongEnough(ms: U32, freq: U32)
    requires freq > 0
    ensures SleepTicks(ms, freq) * 1000 >= ms * freq <==>
            ms * freq < TWO_32 && (ms * freq < 1000 || ms * freq % 1000 == 0)
  {
    Product(ms, freq);
  }

  /** At 100 ticks a second, 15 milliseconds are cut down to one tick of 10. */
  lemma SleepsTooShort()
    ensures SleepTicks(15, 100) == 1 && SleepTicks(15, 100) * 1000 < 15 * 100
  {
  }

  lemma Product(a: nat, b: nat)
    ensures a * b >= 0 && (a * b < TWO_32 ==> a * b % TWO_32 == a * b)
    ensures (a * b >= TWO_32 ==> a * b - TWO_32 >= a * b % TWO_32)
  {
    var x := a * b;
    if x >= TWO_32 {
      assert x == TWO_32 * (x / TWO_32) + x % TWO_32;
    }
  }

  /** The signed comparison is exact across wraparound: a task put to sleep at tick t0 for n
      ticks is due at tick t0 + n and at no earlier one. */
  lemma DueExactly(t0: nat, n: nat, t: nat)
    requires 1 <= n <= TWO_31 && t0 < t <= t0 + n
    ensures Due(t % TWO_32, (t0 + n) % TWO_32) <==> t == t0 + n
  {
    var d := t0 + n - t;
    Residue(t, d);
  }

  lemma Residue(t: nat, d: nat)
    requires d <= TWO_31
    ensures Minus(t % TWO_32, (t + d) % TWO_32) == if d == 0 then 0 else TWO_32 - d
  {
    var q, r := t / TWO_32, t % TWO_32;
    assert t == TWO_32 * q + r;
    if r + d < TWO_32 {
      assert t + d == TWO_32 * q + (r + d);
    } else {
      assert t + d == TWO_32 * (q + 1) + (r + d - TWO_32);
    }
  }

  /** The scheduler with the unbounded count of timer ticks. */
  datatype Timed = Timed(s: Sched, time: nat)

  function TimedStep(x: Timed, e: Event): (r: Timed)
    requires Shaped(x.s)
    ensures Shaped(r.s)
  {
    var time := if e.Tick? then x.time + 1 else x.time;
    Timed(Step(x.s, e, time % TWO_32), time)
  }

  ghost predicate TimedRun(xs: seq<Timed>, es: seq<Event>) {
    && |xs| == |es| + 1 && Inv(xs[0].s)
    && forall k :: 0 <= k < |es| ==> Shaped(xs[k].s) && Allowed(xs[k].s, es[k]) && xs[k + 1] == TimedStep(xs[k], es[k])
  }

  lemma StepSleeps(x: Timed, e: Event, t: nat, t0: nat, n: nat)
    requires Inv(x.s) && Allowed(x.s, e) && t < x.s.count && 1 <= n <= TWO_31 && t0 <= x.time < t0 + n
    requires x.s.tasks[t] == Task(Sleeping, (t0 + n) % TWO_32)
    ensures var r := TimedStep(x, e); Inv(r.s) && t < r.s.count
    ensures var r := TimedStep(x, e);
            if r.time < t0 + n then r.s.tasks[t] == x.s.tasks[t] else Runnable(r.s.tasks[t])
  {
    var time := if e.Tick? then x.time + 1 else x.time;
    StepKeeps(x.s, e, time % TWO_32);
    if e.Tick? {
      DueExactly(t0, n, time);
      TickSwitch(x.s, time % TWO_32);
    } else if e.Sleep? {
      GivesUp(x.s, Sleeping);
    } else if e.Exit? {
      GivesUp(x.s, Unused);
    } else if e.Yield? {
      GivesUp(x.s, Ready);
    }
    hide NextId, Due, Inv;
  }

  /** Whatever the other tasks do, a sleeper stays asleep until exactly the n-th tick after
      it went to sleep, and that tick makes it ready to run. */
  lemma {:induction false} SleepsExactly(xs: seq<Timed>, es: seq<Event>, t: nat, n: nat)
    requires TimedRun(xs, es) && t < xs[0].s.count && 1 <= n <= TWO_31
    requires xs[0].s.tasks[t] == Task(Sleeping, (xs[0].time + n) % TWO_32)
    requires forall k :: 0 <= k < |es| ==> xs[k].time < xs[0].time + n
    ensures Inv(xs[|es|].s) && t < xs[|es|].s.count && xs[0].time <= xs[|es|].time <= xs[0].time + n
    ensures if xs[|es|].time < xs[0].time + n then xs[|es|].s.tasks[t] == xs[0].s.tasks[t]
      else Runnable(xs[|es|].s.tasks[t])
    decreases |es|
  {
    if es != [] {
      var m := |es| - 1;
      var us := xs[..m + 1];
      assert us[0] == xs[0] && us[m] == xs[m];
      hide Step, Inv, Runnable;
      SleepsExactly(us, es[..m], t, n);
      StepSleeps(xs[m], es[m], t, xs[0].time, n);
    }
  }

  lemma SleepStored(x: Timed, n: nat)
    requires Inv(x.s) && x.s.current != 0
    ensures var r := TimedStep(x, Sleep(n));
            && Inv(r.s) && r.time == x.time && x.s.current < r.s.count
            && r.s.tasks[x.s.current] == Task(Sleeping, (x.time + n) % TWO_32)
  {
    StepKeeps(x.s, Sleep(n), x.time % TWO_32);
    StepStates(x.s, Sleep(n), x.time % TWO_32, x.s.current);
    Residues(x.time, n);
  }

  lemma Residues(a: nat, n: nat)
    ensures (a % TWO_32 + n) % TWO_32 == (a + n) % TWO_32
  {
    assert a + n == TWO_32 * (a / TWO_32) + (a % TWO_32 + n);
  }

  /** From the call on: in every run that starts with task_sleep for n ticks the caller is asleep in
      each later state before the n-th tick, and that tick makes it ready to run. */
  lemma SleepsFromCall(xs: seq<Timed>, es: seq<Event>, n: nat, k: nat)
    requires TimedRun(xs, es) && es != [] && es[0] == Sleep(n) && 1 <= n <= TWO_31 && 1 <= k <= |es|
    requires forall m :: 0 < m < k ==> xs[m].time < xs[0].time + n
    ensures xs[0].s.current < |xs[k].s.tasks| && xs[k].time <= xs[0].time + n
    ensures var task := xs[k].s.tasks[xs[0].s.current];
            if xs[k].time < xs[0].time + n then task.state == Sleeping else Runnable(task)
  {
    hide Step, Inv, Runnable;
    assert xs[1] == TimedStep(xs[0], es[0]) && Allowed(xs[0].s, es[0]);
    SleepStored(xs[0], n);
    var us, ds := xs[1..k + 1], es[1..k];
    forall m | 0 <= m < |ds| ensures us[m + 1] == TimedStep(us[m], ds[m]) && Allowed(us[m].s, ds[m]) {
      assert us[m] == xs[m + 1] && ds[m] == es[m + 1];
    }
    SleepsExactly(us, ds, xs[0].s.current, n);
    InvShaped(xs[k].s);
  }

  lemma InvShaped(s: Sched)
    requires Inv(s)
    ensures |s.tasks| == MAX_TASKS
  {
  }

  /** So task_sleep(ms) at freq ticks a second ends exactly at the tick that the rounded time gives,
      for every time whose product with the frequency fits into 32 bits. */
  lemma SleepsForTime(xs: seq<Timed>, es: seq<Event>, ms: U32, freq: U32, k: nat)
    requires freq > 0 && ms * freq < TWO_32
    requires TimedRun(xs, es) && es != [] && es[0] == Sleep(SleepTicks(ms, freq)) && 1 <= k <= |es|
    requires var want := if ms * freq < 1000 then 1 else ms * freq / 1000;
             forall m :: 0 < m < k ==> xs[m].time < xs[0].time + want
    ensures xs[0].s.current < |xs[k].s.tasks|
    ensures var want := if ms * freq < 1000 then 1 else ms * freq / 1000;
            var task := xs[k].s.tasks[xs[0].s.current];
            if xs[k].time < xs[0].time + want then task.state == Sleeping else Runnable(task)
  {
    hide Step, Inv, Runnable, TimedRun;
    SleepTicksExact(ms, freq);
    SleepsFromCall(xs, es, SleepTicks(ms, freq), k);
  }

  /** A slot that its task has given up stays unused until task_create takes it. */
  lemma ExitedStays(s: Sched, e: Event, now: U32, t: nat)
    requires Inv(s) && Allowed(s, e) && t < MAX_TASKS
    requires (e.Exit? && t == s.current) || (s.tasks[t].state == Unused && e != Create(t))
    ensures Step(s, e, now).tasks[t].state == Unused
  {
    StepKeeps(s, e, now);
    StepStates(s, e, now, t);
    if t != s.current && t == Step(s, e, now).current {
      SwitchesToReady(s, e, now);
    }
    hide Step;
  }

  /** A call switches only to a task that can run. */
  lemma SwitchesToReady(s: Sched, e: Event, now: U32)
    requires Inv(s) && Allowed(s, e) && Step(s, e, now).current != s.current
    ensures var was := s.tasks[Step(s, e, now).current];
            was.state == Ready || (e.Tick? && was.state == Sleeping && Due(now, was.wake))
  {
    StepKeeps(s, e, now);
    hide Due;
    if e.Tick? {
      TickSwitch(s, now);
    } else {
      GivesUp(s, if e.Sleep? then Sleeping else if e.Exit? then Unused else Ready);
    }
    hide NextId;
  }

  // -------------------------------------------------------------------- the calls in place

  class TaskTable {
    const tasks: array<Task>
    var current: nat
    var count: nat

    ghost function State(): (s: Sched)
      reads this, tasks
    {
      Sched(tasks[..], current, count)
    }

    ghost predicate Valid()
      reads this, tasks
    {
      Inv(State())
    }

    /** tasking_init. */
    constructor ()
      ensures Valid() && State() == Boot() && fresh(tasks)
    {
      tasks := new Task[MAX_TASKS](k => Task(if k == 0 then Running else Unused, 0));
      current, count := 0, 1;
      new;
      assert tasks[..] == Boot().tasks;
      BootInv();
    }

    /** next_task_id. */
    method NextTaskId(from: nat) returns (id: nat)
      requires Shaped(State()) && from < count
      ensures id == NextId(State(), from)
    {
      var i := 1;
      while i <= count
        invariant 1 <= i <= count + 1 && NextId(State(), from) == NextFrom(State(), from, i)
      {
        id := (from + i) % count;
        if tasks[id].state == Ready || tasks[id].state == Running {
          return;
        }
        i := i + 1;
      }
      return from;
    }

    /** task_switch_to, as one step. */
    method SwitchTask(id: nat)
      requires id < tasks.Length
      modifies this`current, tasks
      ensures State() == SwitchTo(old(State()), id)
    {
      current := id;
      tasks[id] := tasks[id].(state := Running);
    }

    /** wake_sleepers. */
    method WakeSleepers(now: U32)
      requires Shaped(State())
      modifies tasks
      ensures State() == Woken(old(State()), now)
    {
      ghost var s := State();
      var i := 0;
      while i < count
        invariant 0 <= i <= count == s.count && current == s.current
        invariant forall k :: 0 <= k < i ==> tasks[k] == WokenTask(s.tasks[k], now)
        invariant forall k :: i <= k < MAX_TASKS ==> tasks[k] == s.tasks[k]
      {
        if tasks[i].state == Sleeping && (now - tasks[i].wake) % TWO_32 < TWO_31 {
          tasks[i] := tasks[i].(state := Ready);
        }
        i := i + 1;
      }
      assert tasks[..] == Woken(s, now).tasks;
    }

    /** schedule: called on every timer tick, with the new tick count. */
    method Schedule(now: U32)
      requires Valid()
      modifies this`current, tasks
      ensures Valid() && State() == Step(old(State()), Tick, now)
    {
      ghost var s := State();
      StepKeeps(s, Tick, now);
      hide Inv, Woken, NextId;
      WakeSleepers(now);
      WokenSame(s, now);
      if count <= 1 {
        return;
      }
      var next := NextTaskId(current);
      if next == current {
        return;
      }
      if tasks[current].state == Running {
        tasks[current] := tasks[current].(state := Ready);
      }
      SwitchTask(next);
    }

    /** task_sleep, up to the switch away from the caller. */
    method TaskSleep(ms: U32, freq: U32, now: U32)
      requires Valid() && current != 0
      modifies this`current, tasks
      ensures Valid() && State() == Step(old(State()), Sleep(SleepTicks(ms, freq)), now)
    {
      ghost var s := State();
      var f := freq;
      if f == 0 {
        f := 100;
      }
      var ticks := ms * f % TWO_32 / 1000;
      if ticks == 0 {
        ticks := 1;
      }
      StepKeeps(s, Sleep(ticks), now);
      hide Inv;
      tasks[current] := Task(Sleeping, (now + ticks) % TWO_32);
      SameChoice(s, State());
      var next := NextTaskId(current);
      SwitchTask(next);
    }

    /** task_exit, up to the switch away from the caller. */
    method TaskExit(now: U32)
      requires Valid() && current != 0
      modifies this`current, tasks
      ensures Valid() && State() == Step(old(State()), Exit, now)
    {
      StepKeeps(State(), Exit, now);
      hide Inv;
      tasks[current] := tasks[current].(state := Unused);
      var next := NextTaskId(current);
      SwitchTask(next);
    }

    /** One round of task_wait while the target is still there. */
    method TaskYield(now: U32)
      requires Valid() && current != 0
      modifies this`current, tasks
      ensures Valid() && State() == Step(old(State()), Yield, now)
    {
      StepKeeps(State(), Yield, now);
      if tasks[current].state == Running {
        tasks[current] := tasks[current].(state := Ready);
      }
      hide Inv;
      var next := NextTaskId(current);
      SwitchTask(next);
    }
  }

  /** The choice of the next task does not look at wake-up times. */
  lemma SameChoice(s: Sched, r: Sched)
    requires Shaped(s) && r.current == s.current && r.count == s.count && |r.tasks| == MAX_TASKS
    requires r.tasks == s.tasks[s.current := r.tasks[s.current]] && r.tasks[s.current].state == Sleeping
    ensures NextId(r, s.current) == NextId(SetState(s, s.current, Sleeping), s.current)
  {
    SameNext(r, SetState(s, s.current, Sleeping), s.current, 1);
  }

  lemma {:induction false} SameNext(s: Sched, r: Sched, from: nat, i: nat)
    requires Shaped(s) && Shaped(r) && s.count == r.count && from < s.count && 1 <= i <= s.count + 1
    requires forall k :: 0 <= k < s.count ==> s.tasks[k].state == r.tasks[k].state
    ensures NextFrom(s, from, i) == NextFrom(r, from, i)
    decreases s.count + 1 - i
  {
    if i <= s.count {
      SameNext(s, r, from, i + 1);
    }
  }
}
