/**
  How long a connection can stay in SYN_RECEIVED or LAST_ACK.  Time is an unbounded count of
  ticks; the machine sees it modulo 2^32.  The timer check runs at least every d ticks.
*/
module TcpTimers {
  import opened Common
  import opened TcpRtt
  import opened Tcp
  import opened TcpTable

  /** The table, the time, and the time of the last timer check. */
  datatype Clocked = Clocked(net: Net, time: nat, checked: nat)

  datatype Move = Call(e: Event) | Pass(ticks: nat)

  function Tick(time: nat): U32 {
    time % 0x1_0000_0000
  }

  function MoveTo(s: Clocked, m: Move): (r: Clocked)
    requires Shaped(s.net)
    ensures Shaped(r.net)
  {
    match m
    case Call(e) => Clocked(Step(s.net, e, Tick(s.time)), s.time, if e.Timer? then s.time else s.checked)
    case Pass(k) => s.(time := s.time + k)
  }

  /** A run in which the timer check is never overdue by more than d ticks. */
  ghost predicate TimelyRun(ss: seq<Clocked>, ms: seq<Move>, d: nat) {
    && |ss| == |ms| + 1 && (forall k :: 0 <= k < |ss| ==> Shaped(ss[k].net))
    && (forall k :: 0 <= k < |ms| ==> ss[k + 1] == MoveTo(ss[k], ms[k]))
    && (forall k :: 0 <= k < |ss| ==> ss[k].checked <= ss[k].time <= ss[k].checked + d)
  }

  /** The event is a SYN that starts the slot again. */
  predicate Restarts(s: Clocked, m: Move, i: nat) {
    m.Call? && m.e.Arrive? && Opens(s.net.conns, m.e.s) && SlotFor(s.net.conns, m.e.s) == i
  }

  /** The slot is waiting in the given state over the whole run, and is not started again. */
  ghost predicate Stays(ss: seq<Clocked>, ms: seq<Move>, i: nat, st: State) {
    && (st == SynReceived || st == LastAck) && i < MAX_CONNECTIONS && |ss| == |ms| + 1
    && (forall k :: 0 <= k < |ss| ==> |ss[k].net.conns| == MAX_CONNECTIONS && ss[k].net.conns[i].state == st)
    && (forall k :: 0 <= k < |ms| ==> !Restarts(ss[k], ms[k], i))
  }

  /** The slot's segment was last sent at time `last`, at most one timeout and one check
      interval after each earlier sending, the first at time `start`. */
  predicate OnTime(s: Clocked, i: nat, start: nat, last: nat, d: nat)
    requires i < |s.net.conns|
  {
    var c := s.net.conns[i];
    && c.lastSend == Tick(last) && start <= last <= s.time && last <= start + c.retransmits * (RTO_MAX + d)
    && (s.checked <= last || s.checked - last < c.currentRto)
  }

  lemma TickDifference(a: nat, b: nat)
    requires b <= a && a - b < 0x1_0000_0000
    ensures Minus(Tick(a), Tick(b)) == a - b
  {
    var m := 0x1_0000_0000;
    assert a == m * (a / m) + Tick(a) && b == m * (b / m) + Tick(b);
    assert a - b == m * (a / m - b / m) + (Tick(a) - Tick(b));
    assert a / m - b / m == 0 || a / m - b / m == 1;
  }

  lemma NotLate(s: Clocked, i: nat, start: nat, last: nat, d: nat)
    requires Inv(s.net) && i < MAX_CONNECTIONS && OnTime(s, i, start, last, d) && s.net.conns[i].pending
    requires s.checked <= s.time <= s.checked + d
    ensures s.time <= last + RTO_MAX + d && s.time <= start + (s.net.conns[i].retransmits + 1) * (RTO_MAX + d)
    ensures s.net.conns[i].retransmits <= MAX_RETRANSMITS
  {
    assert SlotOk(s.net.conns[i], s.net.used[i]);
    var r := s.net.conns[i].retransmits;
    assert (r + 1) * (RTO_MAX + d) == r * (RTO_MAX + d) + (RTO_MAX + d);
  }

  /** No call but a timer check, a restart or one that ends the wait touches the tracked
      segment of a waiting slot. */
  lemma WaitingUntouched(n: Net, e: Event, now: U32, i: nat, st: State)
    requires Inv(n) && i < MAX_CONNECTIONS && (st == SynReceived || st == LastAck) && n.conns[i].state == st
    requires !e.Timer?
    requires !(e.Arrive? && Opens(n.conns, e.s) && SlotFor(n.conns, e.s) == i)
    requires Step(n, e, now).conns[i].state == st
    ensures var (c, c2) := (n.conns[i], Step(n, e, now).conns[i]);
            c2.lastSend == c.lastSend && c2.retransmits == c.retransmits && c2.currentRto == c.currentRto
  {
    hide SlotOk, Unique, Plus, Minus, Sample, Track, Emit, PushAll;
  }

  lemma OnTimeNext(s: Clocked, m: Move, i: nat, st: State, start: nat, last: nat, d: nat) returns (last2: nat)
    requires Inv(s.net) && i < MAX_CONNECTIONS && OnTime(s, i, start, last, d) && RTO_MAX + d < 0x1_0000_0000
    requires (st == SynReceived || st == LastAck) && s.net.conns[i].state == st && !Restarts(s, m, i)
    requires s.checked <= s.time <= s.checked + d && MoveTo(s, m).net.conns[i].state == st
    ensures OnTime(MoveTo(s, m), i, start, last2, d)
  {
    last2 := last;
    assert SlotOk(s.net.conns[i], s.net.used[i]);
    NotLate(s, i, start, last, d);
    if m.Call? && m.e.Timer? {
      TickDifference(s.time, last);
      var c, c2 := s.net.conns[i], MoveTo(s, m).net.conns[i];
      assert c2 == Checked(c, Tick(s.time)).0;
      if c2 != c {
        last2 := s.time;
        assert c2.retransmits == c.retransmits + 1;
      }
    } else if m.Call? {
      WaitingUntouched(s.net, m.e, Tick(s.time), i, st);
    }
  }

  lemma RunOnTime(ss: seq<Clocked>, ms: seq<Move>, i: nat, st: State, d: nat) returns (last: nat)
    requires TimelyRun(ss, ms, d) && Stays(ss, ms, i, st) && Inv(ss[0].net) && RTO_MAX + d < 0x1_0000_0000
    requires ss[0].net.conns[i].lastSend == Tick(ss[0].time) && ss[0].net.conns[i].retransmits == 0
    ensures Inv(ss[|ms|].net) && OnTime(ss[|ms|], i, ss[0].time, last, d)
    decreases |ms|
  {
    if ms == [] {
      last := ss[0].time;
    } else {
      var n := |ms| - 1;
      var us := ss[..n + 1];
      assert us[0] == ss[0] && us[n] == ss[n] && ss[n + 1] == MoveTo(ss[n], ms[n]);
      hide MoveTo, Inv, OnTime, Restarts, Shaped;
      last := RunOnTime(us, ms[..n], i, st, d);
      MoveKeeps(ss[n], ms[n]);
      last := OnTimeNext(ss[n], ms[n], i, st, ss[0].time, last, d);
    }
  }

  lemma MoveKeeps(s: Clocked, m: Move)
    requires Inv(s.net)
    ensures Inv(MoveTo(s, m).net)
  {
    if m.Call? {
      StepKeeps(s.net, m.e, Tick(s.time));
    }
  }

  /** A connection leaves SYN_RECEIVED and LAST_ACK in time: as long as it has stayed there
      since the segment was first sent, no more than 6 * (200 + d) ticks have passed and at
      most five retransmissions were made, whatever the peer and the other connections do
      and however often the tick counter wraps. */
  lemma LeavesInTime(ss: seq<Clocked>, ms: seq<Move>, i: nat, st: State, d: nat)
    requires TimelyRun(ss, ms, d) && Stays(ss, ms, i, st) && Inv(ss[0].net) && RTO_MAX + d < 0x1_0000_0000
    requires ss[0].net.conns[i].lastSend == Tick(ss[0].time) && ss[0].net.conns[i].retransmits == 0
    ensures ss[|ms|].time <= ss[0].time + 6 * (RTO_MAX + d)
    ensures ss[|ms|].net.conns[i].retransmits <= 5 && RTO_MIN <= ss[|ms|].net.conns[i].currentRto <= RTO_MAX
  {
    hide TimelyRun, OnTime, SlotOk, Unique;
    var last := RunOnTime(ss, ms, i, st, d);
    var s := ss[|ms|];
    LastIsTimely(ss, ms, d);
    WaitingFacts(s.net, i, st);
    NotLate(s, i, ss[0].time, last, d);
    Multiply(s.net.conns[i].retransmits + 1, 6, RTO_MAX + d);
  }

  lemma LastIsTimely(ss: seq<Clocked>, ms: seq<Move>, d: nat)
    requires TimelyRun(ss, ms, d)
    ensures |ss| == |ms| + 1 && ss[|ms|].checked <= ss[|ms|].time <= ss[|ms|].checked + d
  {
  }

  lemma WaitingFacts(n: Net, i: nat, st: State)
    requires Inv(n) && i < MAX_CONNECTIONS && (st == SynReceived || st == LastAck) && n.conns[i].state == st
    ensures n.conns[i].pending && RTO_MIN <= n.conns[i].currentRto <= RTO_MAX
  {
    assert SlotOk(n.conns[i], n.used[i]);
  }

  /** A connection enters the two states with its segment just sent, so LeavesInTime starts
      there. */
  lemma EntersFresh(n: Net, e: Event, time: nat, i: nat)
    requires Inv(n) && i < MAX_CONNECTIONS
    requires var (c, c2) := (n.conns[i], Step(n, e, Tick(time)).conns[i]);
             (c2.state == SynReceived || c2.state == LastAck)
               && (c2.state != c.state || (e.Arrive? && Opens(n.conns, e.s) && SlotFor(n.conns, e.s) == i))
    ensures var c2 := Step(n, e, Tick(time)).conns[i]; c2.lastSend == Tick(time) && c2.retransmits == 0 && c2.pending
  {
    if Step(n, e, Tick(time)).conns[i].state != n.conns[i].state {
      Transitions(n, e, Tick(time), i);
    }
    hide SlotOk, Unique, Plus, Minus, Sample, Emit, PushAll, Handled;
  }
}
