/**
  The connection table over whole runs: which connections it can hold, what an
  acknowledgement covers, which state changes happen, and how long a connection can wait.
*/
module TcpTable {
  import opened Common
  import opened TcpRtt
  import opened Tcp

  /** The table, and for each slot the sequence numbers its connection has used up so far. */
  datatype Net = Net(conns: seq<Conn>, used: seq<nat>)

  datatype Event = Arrive(s: Segment) | Timer | Accept | Recv(i: nat, n: nat) | Send(i: nat, data: seq<Byte>) |
    Finish(i: nat)

  predicate Shaped(n: Net) {
    |n.conns| == |n.used| == MAX_CONNECTIONS
  }

  predicate Opens(t: seq<Conn>, s: Segment)
  {
    s.port == TEST_PORT && IsSyn(s) && SlotFor(t, s) < |t| && !(s.flags.rst && Matches(t[SlotFor(t, s)], s.peer))
  }

  function Step(n: Net, e: Event, now: U32): (r: Net)
    requires Shaped(n)
    ensures Shaped(r)
  {
    match e
    case Arrive(s) =>
      Net(Received(n.conns, s, now).0, if Opens(n.conns, s) then n.used[SlotFor(n.conns, s) := 1] else n.used)
    case Timer => n.(conns := AllChecked(n.conns, now).0)
    case Accept =>
      var i := Claimable(n.conns);
      if i == |n.conns| then n else n.(conns := n.conns[i := n.conns[i].(accepted := true)])
    case Recv(i, k) =>
      if i >= |n.conns| || k > |Queue(n.conns[i])| then n else n.(conns := n.conns[i := Taken(n.conns[i], k)])
    case Send(i, data) =>
      if i >= |n.conns| || !CanSend(n.conns[i]) then n
      else Net(n.conns[i := Sent(n.conns[i], data, now).0],
        n.used[i := n.used[i] + if |data| > SEGMENT_MAX then SEGMENT_MAX else |data|])
    case Finish(i) =>
      if i >= |n.conns| || !CanSend(n.conns[i]) then n
      else Net(n.conns[i := Finished(n.conns[i], now).0], n.used[i := n.used[i] + 1])
  }

  /** What a call puts on the wire. */
  function Wire(n: Net, e: Event, now: U32): (out: seq<Out>)
    requires Shaped(n)
  {
    match e
    case Arrive(s) => Received(n.conns, s, now).1
    case Timer => AllChecked(n.conns, now).1
    case Accept => []
    case Recv(i, k) => []
    case Send(i, data) => if i < |n.conns| && CanSend(n.conns[i]) then Sent(n.conns[i], data, now).1 else []
    case Finish(i) => if i < |n.conns| && CanSend(n.conns[i]) then Finished(n.conns[i], now).1 else []
  }

  // -------------------------------------------------------------------------- invariant

  /** The sequence numbers the tracked segment takes up. */
  function Space(c: Conn): nat {
    |c.pendingData| + (if c.pendingFlags.syn then 1 else 0) + if c.pendingFlags.fin then 1 else 0
  }

  predicate SlotOk(c: Conn, used: nat) {
    && (c.state == Closed ==> !c.pending)
    && (c.state == SynReceived || c.state == LastAck ==> c.pending)
    && (c.pending ==>
          && c.ourSeq == Plus(c.pendingSeq, Space(c)) && c.retransmits <= MAX_RETRANSMITS
          && RTO_MIN <= c.currentRto <= RTO_MAX)
    && (c.state != Closed ==> c.ourSeq == Plus(INITIAL_SEQ, used))
    && (c.rtt.valid ==> RTO_MIN <= c.rtt.rto <= RTO_MAX)
  }

  predicate Unique(t: seq<Conn>) {
    forall i, j :: 0 <= i < j < |t| && t[i].state != Closed && t[j].state != Closed ==> t[i].peer != t[j].peer
  }

  predicate Inv(n: Net) {
    Shaped(n) && Unique(n.conns) && forall i :: 0 <= i < MAX_CONNECTIONS ==> SlotOk(n.conns[i], n.used[i])
  }

  lemma PlusPlus(a: U32, m: nat, k: nat)
    ensures Plus(Plus(a, m), k) == Plus(a, m + k)
  {
  }

  lemma PushAllRest(c: Conn, bs: seq<Byte>)
    ensures PushAll(c, bs) == c.(rx := PushAll(c, bs).rx, rxHead := PushAll(c, bs).rxHead)
  {
    PushAllQueue(c, bs);
  }

  lemma OpenedOk(c: Conn, s: Segment, now: U32)
    ensures SlotOk(Opened(c, s, now).0, 1)
  {
  }

  lemma HandledOk(c: Conn, s: Segment, now: U32, used: nat)
    requires SlotOk(c, used)
    ensures SlotOk(Handled(c, s, now).0, used)
    ensures Handled(c, s, now).0.peer == c.peer && (c.state == Closed ==> Handled(c, s, now).0.state == Closed)
  {
    if c.state == Established {
      DataOk(c, s, now, used);
    }
    hide Sample, Plus, Space, PushAll;
  }

  lemma DataOk(c: Conn, s: Segment, now: U32, used: nat)
    requires SlotOk(c, used) && c.state == Established
    ensures SlotOk(Handled(c, s, now).0, used) && Handled(c, s, now).0.peer == c.peer
  {
    PushAllRest(c.(theirSeq := Plus(c.theirSeq, |s.payload|)), s.payload);
    hide Sample, Plus, Space, PushAll;
  }

  lemma CheckedOk(c: Conn, now: U32, used: nat)
    requires SlotOk(c, used)
    ensures SlotOk(Checked(c, now).0, used)
    ensures Checked(c, now).0.peer == c.peer && (c.state == Closed ==> Checked(c, now).0.state == Closed)
  {
  }

  lemma SentOk(c: Conn, data: seq<Byte>, now: U32, used: nat)
    requires SlotOk(c, used) && CanSend(c)
    ensures SlotOk(Sent(c, data, now).0, used + if |data| > SEGMENT_MAX then SEGMENT_MAX else |data|)
    ensures SlotOk(Finished(c, now).0, used + 1)
    ensures Sent(c, data, now).0.peer == Finished(c, now).0.peer == c.peer
  {
    PlusPlus(INITIAL_SEQ, used, if |data| > SEGMENT_MAX then SEGMENT_MAX else |data|);
    PlusPlus(INITIAL_SEQ, used, 1);
    hide Plus;
  }

  /** Replacing one slot keeps peers distinct unless it brings in a peer served elsewhere. */
  lemma UniqueUpdate(t: seq<Conn>, i: nat, c: Conn)
    requires Unique(t) && i < |t|
    requires c.state != Closed ==> forall k :: 0 <= k < |t| && k != i && t[k].state != Closed ==> t[k].peer != c.peer
    ensures Unique(t[i := c])
  {
  }

  lemma SlotUpdate(n: Net, i: nat, c: Conn, used: nat)
    requires Inv(n) && i < MAX_CONNECTIONS && SlotOk(c, used)
    requires c.state != Closed ==>
      forall k :: 0 <= k < MAX_CONNECTIONS && k != i && n.conns[k].state != Closed ==> n.conns[k].peer != c.peer
    ensures Inv(Net(n.conns[i := c], n.used[i := used]))
  {
    hide SlotOk;
    UniqueUpdate(n.conns, i, c);
  }

  lemma OthersDiffer(t: seq<Conn>, i: nat)
    requires Unique(t) && i < |t| && t[i].state != Closed
    ensures forall k :: 0 <= k < |t| && k != i && t[k].state != Closed ==> t[k].peer != t[i].peer
  {
  }

  lemma ArriveKeeps(n: Net, s: Segment, now: U32)
    requires Inv(n)
    ensures Inv(Step(n, Arrive(s), now))
  {
    var i := SlotFor(n.conns, s);
    if s.port == TEST_PORT && i < |n.conns| {
      var c := n.conns[i];
      assert SlotOk(c, n.used[i]);
      if c.state != Closed {
        OthersDiffer(n.conns, i);
      }
      if s.flags.rst && Matches(c, s.peer) {
        SlotUpdate(n, i, c.(state := Closed, pending := false), n.used[i]);
      } else if IsSyn(s) {
        OpenedOk(c, s, now);
        SlotUpdate(n, i, Opened(c, s, now).0, 1);
      } else {
        HandledOk(c, s, now, n.used[i]);
        SlotUpdate(n, i, Handled(c, s, now).0, n.used[i]);
      }
      assert n.used[i := n.used[i]] == n.used;
    }
  }

  lemma SendKeeps(n: Net, e: Event, now: U32)
    requires Inv(n) && (e.Send? || e.Finish?)
    ensures Inv(Step(n, e, now))
  {
    hide SlotOk, Sent, Finished, Unique;
    if e.i < |n.conns| && CanSend(n.conns[e.i]) {
      var i, c := e.i, n.conns[e.i];
      assert SlotOk(c, n.used[i]);
      OthersDiffer(n.conns, i);
      if e.Send? {
        SentOk(c, e.data, now, n.used[i]);
        SlotUpdate(n, i, Sent(c, e.data, now).0, n.used[i] + if |e.data| > SEGMENT_MAX then SEGMENT_MAX else |e.data|);
      } else {
        SentOk(c, [], now, n.used[i]);
        SlotUpdate(n, i, Finished(c, now).0, n.used[i] + 1);
      }
    }
  }

  lemma TimerKeeps(n: Net, now: U32)
    requires Inv(n)
    ensures Inv(Step(n, Timer, now))
  {
    var r := Step(n, Timer, now);
    forall i | 0 <= i < MAX_CONNECTIONS
      ensures SlotOk(r.conns[i], r.used[i]) && r.conns[i].peer == n.conns[i].peer
      ensures (n.conns[i].state == Closed ==> r.conns[i].state == Closed)
    {
      CheckedOk(n.conns[i], now, n.used[i]);
    }
  }

  /** Every call keeps the invariant. */
  lemma StepKeeps(n: Net, e: Event, now: U32)
    requires Inv(n)
    ensures Inv(Step(n, e, now))
  {
    match e
    case Arrive(s) => ArriveKeeps(n, s, now);
    case Timer => TimerKeeps(n, now);
    case Accept =>
    case Recv(i, k) =>
    case Send(i, data) => SendKeeps(n, e, now);
    case Finish(i) => SendKeeps(n, e, now);
  }

  /** The table at boot, and the table after a sequence of calls at given ticks. */
  function Boot(): (n: Net) {
    Net(seq(MAX_CONNECTIONS, _ => BLANK), seq(MAX_CONNECTIONS, _ => 0))
  }

  function After(n: Net, es: seq<(Event, U32)>): (r: Net)
    requires Shaped(n)
    ensures Shaped(r)
  {
    if es == [] then n else Step(After(n, es[..|es| - 1]), es[|es| - 1].0, es[|es| - 1].1)
  }

  /** Every reachable table keeps the invariant. */
  lemma {:induction false} Reachable(es: seq<(Event, U32)>)
    ensures Inv(After(Boot(), es))
    decreases |es|
  {
    hide Step, SlotOk, Unique;
    if es == [] {
      BootInv();
    } else {
      Reachable(es[..|es| - 1]);
      StepKeeps(After(Boot(), es[..|es| - 1]), es[|es| - 1].0, es[|es| - 1].1);
    }
  }

  lemma BootInv()
    ensures Inv(Boot())
  {
  }

  // ------------------------------------------------------------------- acknowledgements

  /** A segment that clears a tracked segment acknowledges everything the connection has
      sent, unless it resets the connection. */
  lemma AckCovers(n: Net, s: Segment, now: U32, i: nat)
    requires Inv(n) && i < MAX_CONNECTIONS && n.conns[i].pending && !s.flags.rst
    requires !Step(n, Arrive(s), now).conns[i].pending
    ensures s.peer == n.conns[i].peer && s.flags.ack && s.ackNo == n.conns[i].ourSeq == Plus(INITIAL_SEQ, n.used[i])
  {
    var c := n.conns[i];
    assert SlotOk(c, n.used[i]);
    PushAllRest(c.(theirSeq := Plus(c.theirSeq, |s.payload|)), s.payload);
    hide Plus, PushAll, Space, Sample;
  }

  // -------------------------------------------------------------------- state transitions

  /** Why a slot may change its state. */
  predicate Cause(n: Net, e: Event, now: U32, i: nat, to: State)
    requires Shaped(n) && i < MAX_CONNECTIONS
  {
    var c := n.conns[i];
    match to
    case SynReceived => e.Arrive? && Opens(n.conns, e.s) && SlotFor(n.conns, e.s) == i
      && (c.state == Closed || c.peer == e.s.peer)
    case Established =>
      c.state == SynReceived && e.Arrive? && e.s.peer == c.peer && e.s.flags.ack && !e.s.flags.syn
        && e.s.ackNo == c.ourSeq && e.s.seqNo == c.theirSeq
    case CloseWait =>
      c.state == Established && e.Arrive? && e.s.peer == c.peer && e.s.flags.fin
        && (e.s.payload != [] ==> e.s.seqNo == c.theirSeq)
    case LastAck => (c.state == Established || c.state == CloseWait) && e == Finish(i)
    case Closed =>
      || (e.Arrive? && e.s.peer == c.peer && e.s.flags.rst)
      || (c.state == LastAck && e.Arrive? && e.s.peer == c.peer && e.s.flags.ack && e.s.ackNo == c.ourSeq)
      || (e.Timer? && c.pending && c.retransmits >= MAX_RETRANSMITS && Minus(now, c.lastSend) >= c.currentRto)
  }

  /** The five states change along the arrows of section 3.3.2 of RFC 9293, except that closing
      goes straight to LAST-ACK and a new SYN from the same peer starts the slot again.  Two causes
      are weaker than section 3.10.7.4 asks: a FIN without data and a RST are taken at any
      sequence number. */
  lemma Transitions(n: Net, e: Event, now: U32, i: nat)
    requires Inv(n) && i < MAX_CONNECTIONS
    requires Step(n, e, now).conns[i].state != n.conns[i].state
    ensures Cause(n, e, now, i, Step(n, e, now).conns[i].state)
  {
    if e.Arrive? {
      ArriveTransitions(n, e.s, now, i);
    }
    hide Plus, Space, Sample, SlotOk, Unique, Minus, Received;
  }

  lemma ArriveTransitions(n: Net, s: Segment, now: U32, i: nat)
    requires Inv(n) && i < MAX_CONNECTIONS
    requires Step(n, Arrive(s), now).conns[i].state != n.conns[i].state
    ensures Cause(n, Arrive(s), now, i, Step(n, Arrive(s), now).conns[i].state)
  {
    hide Plus, PushAll, Space, Sample, SlotOk, Unique, Minus, Emit, Acknowledged, Handled;
    HandledState(n.conns[i], s, now);
    assert SlotFor(n.conns, s) == i;
  }

  lemma HandledState(c: Conn, s: Segment, now: U32)
    ensures var to := Handled(c, s, now).0.state;
            || to == c.state
            || (to == Established && c.state == SynReceived && s.flags.ack && !s.flags.syn && s.ackNo == c.ourSeq
              && s.seqNo == c.theirSeq)
            || (to == CloseWait && c.state == Established && s.flags.fin && (s.payload != [] ==> s.seqNo == c.theirSeq))
            || (to == Closed && c.state == LastAck && s.flags.ack && s.ackNo == c.ourSeq)
  {
    PushAllRest(c.(theirSeq := Plus(c.theirSeq, |s.payload|)), s.payload);
    hide Plus, PushAll, Sample;
  }
}
