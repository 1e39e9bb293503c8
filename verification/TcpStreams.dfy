/**
  What a connection is for: the bytes that the peer sends in order come out in order, what is sent
  again is what was sent, and the time between follows the round trips measured.
*/
module TcpStreams {
  import opened Common
  import TcpRtt
  import opened Tcp
  import opened TcpTable
  import opened TcpSession

  // -------------------------------------------------------------------------- opening

  /** A SYN to port 7 from a peer without a connection, while a slot is free, opens the first free
      slot and is answered with number 1000; the ACK that matches establishes the connection. */
  lemma Handshake(n: Net, syn: Segment, ack: Segment, t1: U32, t2: U32, i: nat)
    requires Inv(n) && i < MAX_CONNECTIONS && n.conns[i].state == Closed
    requires forall k :: 0 <= k < i ==> n.conns[k].state != Closed
    requires forall k :: 0 <= k < MAX_CONNECTIONS ==> n.conns[k].state == Closed || n.conns[k].peer != syn.peer
    requires syn.port == ack.port == 7 && syn.flags == Flags(false, true, false, false, false)
    requires ack.peer == syn.peer && ack.flags == Flags(false, false, false, false, true)
    requires ack.seqNo == Plus(syn.seqNo, 1) && ack.ackNo == 1001
    ensures var m := Step(n, Arrive(syn), t1);
            var r := Step(m, Arrive(ack), t2);
            && Wire(n, Arrive(syn), t1)
               == [Out(syn.peer, syn.mac, Flags(false, true, false, false, true), 1000, Plus(syn.seqNo, 1), [])]
            && m.conns[i].state == SynReceived && m.conns[i].currentRto == 50 && Wire(m, Arrive(ack), t2) == []
            && r.conns[i].state == Established && r.conns[i].peer == syn.peer && !r.conns[i].pending
            && Queue(r.conns[i]) == [] && forall k :: 0 <= k < MAX_CONNECTIONS && k != i ==> r.conns[k] == n.conns[k]
  {
    var m := Step(n, Arrive(syn), t1);
    StepKeeps(n, Arrive(syn), t1);
    SynOpens(n, syn, t1, i);
    ServedBy(m, ack, i);
    AckEstablishes(m.conns[i], ack, t2);
    hide Inv, Opened, Handled, Queue;
  }

  lemma SynOpens(n: Net, s: Segment, now: U32, i: nat)
    requires Shaped(n) && i < MAX_CONNECTIONS && n.conns[i].state == Closed && s.port == 7
    requires forall k :: 0 <= k < i ==> n.conns[k].state != Closed
    requires forall k :: 0 <= k < MAX_CONNECTIONS ==> n.conns[k].state == Closed || n.conns[k].peer != s.peer
    requires s.flags == Flags(false, true, false, false, false)
    ensures var m := Step(n, Arrive(s), now);
            && m.conns == n.conns[i := m.conns[i]]
            && Wire(n, Arrive(s), now)
               == [Out(s.peer, s.mac, Flags(false, true, false, false, true), 1000, Plus(s.seqNo, 1), [])]
            && m.conns[i].state == SynReceived && m.conns[i].peer == s.peer && m.conns[i].theirSeq == Plus(s.seqNo, 1)
            && m.conns[i].ourSeq == 1001 && Queue(m.conns[i]) == [] && m.conns[i].currentRto == 50
  {
    assert FindSlot(n.conns, s.peer) == |n.conns| && FreeSlot(n.conns) == i;
    OpenedQueue(n.conns[i], s, now);
    hide Queue;
  }

  lemma AckEstablishes(c: Conn, s: Segment, now: U32)
    requires c.state == SynReceived && s.flags.ack && !s.flags.syn && s.ackNo == c.ourSeq && s.seqNo == c.theirSeq
    ensures var (d, out) := Handled(c, s, now);
            d.state == Established && d.peer == c.peer && !d.pending && Queue(d) == Queue(c) && out == []
  {
    QueueSame(c, Handled(c, s, now).0);
    hide Queue, TcpRtt.Sample;
  }

  // ------------------------------------------------------------------------ data in order

  /** A segment of its peer arrives on an established connection.  Bytes in order are queued up to
      511 and acknowledged with the number behind them, a FIN with one more; bytes out of order
      change nothing and are not answered. */
  lemma DataArrives(n: Net, s: Segment, now: U32, i: nat)
    requires Inv(n) && i < MAX_CONNECTIONS && n.conns[i].state == Established && s.peer == n.conns[i].peer
    requires s.port == TEST_PORT && !s.flags.rst && !IsSyn(s)
    ensures var c, d, out := n.conns[i], Step(n, Arrive(s), now).conns[i], Wire(n, Arrive(s), now);
            var more := |s.payload| + if s.flags.fin then 1 else 0;
            if s.payload != [] && s.seqNo != c.theirSeq then d == c && out == []
            else
              && Queue(d) == Queue(c) + Cut(s.payload, RX_SIZE - 1 - |Queue(c)|)
              && d.theirSeq == Plus(c.theirSeq, more) && d.ourSeq == c.ourSeq
              && out == (if more == 0 then [] else [Out(c.peer, c.mac, ONLY_ACK, c.ourSeq, d.theirSeq, [])])
  {
    ServedBy(n, s, i);
    var c := n.conns[i];
    if s.payload == [] || s.seqNo == c.theirSeq {
      DataHandled(c, s, now);
    } else {
      OutOfOrder(c, s, now);
    }
    hide Handled, Queue, Plus, Inv;
  }

  lemma ServedBy(n: Net, s: Segment, i: nat)
    requires Inv(n) && i < MAX_CONNECTIONS && n.conns[i].state != Closed && s.peer == n.conns[i].peer
    ensures FindSlot(n.conns, s.peer) == SlotFor(n.conns, s) == i
  {
    hide SlotOk;
    var j := FindSlot(n.conns, s.peer);
    assert j <= i;
  }

  lemma OutOfOrder(c: Conn, s: Segment, now: U32)
    requires c.state == Established && s.payload != [] && s.seqNo != c.theirSeq
    ensures Handled(c, s, now) == (c, [])
  {
  }

  lemma DataHandled(c: Conn, s: Segment, now: U32)
    requires c.state == Established && (s.payload == [] || s.seqNo == c.theirSeq)
    ensures var (d, out) := Handled(c, s, now);
            var more := |s.payload| + if s.flags.fin then 1 else 0;
            && Queue(d) == Queue(c) + Cut(s.payload, RX_SIZE - 1 - |Queue(c)|)
            && d.theirSeq == Plus(c.theirSeq, more) && d.ourSeq == c.ourSeq
            && out == (if more == 0 then [] else [Out(c.peer, c.mac, ONLY_ACK, c.ourSeq, d.theirSeq, [])])
  {
    var c0 := c.(theirSeq := Plus(c.theirSeq, |s.payload|));
    var (d, out) := Handled(c, s, now);
    PushAllQueue(c0, s.payload);
    QueueSame(c, c0);
    QueueSame(PushAll(c0, s.payload), d);
    PlusPlus(c.theirSeq, |s.payload|, 1);
    hide Queue, PushAll, Plus, TcpRtt.Sample, Minus;
  }

  /** The bytes that tcp_socket_recv has handed out of slot i since it was opened. */
  ghost function Read(es: seq<(Event, U32)>, i: nat): (r: seq<Byte>)
    requires i < MAX_CONNECTIONS
  {
    if es == [] then []
    else
      var k := |es| - 1;
      var before := After(Boot(), es[..k]);
      var w := Happens(before, es[k].0, i);
      if w.Opening? then []
      else if w.Take? && w.n <= |Queue(before.conns[i])| then Read(es[..k], i) + Queue(before.conns[i])[..w.n]
      else Read(es[..k], i)
  }

  /** Since slot i was opened, bytes came in order for which the ring had no room. */
  ghost predicate Overflowed(es: seq<(Event, U32)>, i: nat)
    requires i < MAX_CONNECTIONS
  {
    if es == [] then false
    else
      var k := |es| - 1;
      var c, w := After(Boot(), es[..k]).conns[i], Happens(After(Boot(), es[..k]), es[k].0, i);
      if w.Opening? then false
      else
        || Overflowed(es[..k], i)
        || (w.Other? && c.state == Established && w.s.seqNo == c.theirSeq
            && |Queue(c)| + |w.s.payload| > RX_SIZE - 1)
  }

  /** One event: what has been read, what is queued, and what was heard. */
  lemma ReadStep(n: Net, e: Event, now: U32, i: nat, x: Session, read: seq<Byte>)
    requires Shaped(n) && i < MAX_CONNECTIONS && Agrees(n.conns[i], x) && read == x.entered[..x.taken]
    ensures var w := Happens(n, e, i);
            var y, c := Follow(x, w, now), n.conns[i];
            var more := if w.Take? && w.n <= |Queue(c)| then read + Queue(c)[..w.n] else read;
            && y.taken <= |y.entered| && (if w.Opening? then [] else more) == y.entered[..y.taken]
  {
    hide Agrees, Queue, Follow, Happens;
    AgreesQueue(n.conns[i], x);
    FollowTakes(x, Happens(n, e, i), now);
  }

  /** A segment that neither resets nor opens: nothing is sent for the first time, nothing is taken, and
      while the last segment goes on waiting nothing about it changes. */
  lemma MeetsKeeps(x: Session, s: Segment, now: U32)
    requires x.sent != []
    ensures var y := Meets(x, s, now);
            && y.sent == x.sent && y.peer == x.peer && y.mac == x.mac && y.again == x.again
            && x.entered <= y.entered && y.taken == x.taken
            && (y.waiting ==> x.waiting && y.samples == x.samples)
  {
    hide *;
    HearsRest(x, s.payload);
    HearsGrows(x, s.payload);
    MeetsIs(x, s, now);
  }

  /** The four things that it can do to a session. */
  lemma MeetsIs(x: Session, s: Segment, now: U32)
    requires x.sent != []
    ensures var y := Meets(x, s, now);
            || y == x || y == x.(waiting := false, samples := y.samples, state := y.state) || y == x.(state := y.state)
            || y == Hears(x, s.payload).(ended := true, state := CloseWait) || y == Hears(x, s.payload)
  {
    hide AcksAll, Fits, RoundTrip, Hears;
    if x.state == Established {
      EstablishedIs(x, s, now);
    } else if Meets(x, s, now) != x {
      assert Meets(x, s, now).state == (if x.state == SynReceived then Established
                                        else if x.state == LastAck then Closed else x.state);
    }
  }

  lemma EstablishedIs(x: Session, s: Segment, now: U32)
    requires x.sent != [] && x.state == Established
    ensures var y := Meets(x, s, now);
            || y == x || y == x.(waiting := false, samples := y.samples)
            || y == Hears(x, s.payload).(ended := true, state := CloseWait) || y == Hears(x, s.payload)
  {
    hide AcksAll, Fits, RoundTrip, Hears;
  }

  lemma HearsGrows(x: Session, bytes: seq<Byte>)
    ensures x.entered <= Hears(x, bytes).entered
  {
  }

  lemma FollowTakes(x: Session, w: What, now: U32)
    requires x.taken <= |x.entered|
    ensures var y := Follow(x, w, now);
            && y.taken <= |y.entered|
            && (w.Opening? ==> y.taken == 0)
            && (!w.Opening? ==>
                  && x.entered <= y.entered
                  && y.taken == if w.Take? && x.taken + w.n <= |x.entered| then x.taken + w.n else x.taken)
  {
    hide Meets, Overdue;
    if w.Other? && x.sent != [] { MeetsKeeps(x, w.s, now); }
  }

  lemma {:induction false} ReadIs(es: seq<(Event, U32)>, i: nat)
    requires i < MAX_CONNECTIONS
    ensures var x := SessionAfter(es, i); x.taken <= |x.entered| && Read(es, i) == x.entered[..x.taken]
    decreases |es|
  {
    hide Agrees, Follow, Happens, After, Queue;
    if es != [] {
      var k := |es| - 1;
      ReadIs(es[..k], i);
      Follows(es[..k], i);
      ReadStep(After(Boot(), es[..k]), es[k].0, es[k].1, i, SessionAfter(es[..k], i), Read(es[..k], i));
    }
  }

  /** All that came in order has entered, or less. */
  predicate Enters(x: Session) {
    x.entered == x.heard || |x.entered| < |x.heard|
  }

  lemma DropStep(n: Net, e: Event, now: U32, i: nat, x: Session)
    requires Shaped(n) && i < MAX_CONNECTIONS && Agrees(n.conns[i], x) && Enters(x)
    ensures var c, w := n.conns[i], Happens(n, e, i);
            var y := Follow(x, w, now);
            var drops := w.Other? && c.state == Established && w.s.seqNo == c.theirSeq
              && |Queue(c)| + |w.s.payload| > RX_SIZE - 1;
            Enters(y) && (y.entered == y.heard <==> w.Opening? || (x.entered == x.heard && !drops))
  {
    hide Agrees, Queue, Follow, Happens, Expected;
    AgreesQueue(n.conns[i], x);
    AgreesState(n.conns[i], x);
    FollowDrops(x, Happens(n, e, i), now);
  }

  lemma FollowDrops(x: Session, w: What, now: U32)
    requires x.taken <= |x.entered| && |x.entered| - x.taken < RX_SIZE && Enters(x)
    requires x.state == Established ==> x.sent != []
    ensures var y := Follow(x, w, now);
            var drops := w.Other? && x.state == Established && w.s.seqNo == Expected(x)
              && |x.entered| - x.taken + |w.s.payload| > RX_SIZE - 1;
            Enters(y) && (y.entered == y.heard <==> w.Opening? || (x.entered == x.heard && !drops))
  {
    hide Meets, Overdue, Expected;
    if w.Other? && x.sent != [] { MeetsHears(x, w.s, now); }
  }

  lemma MeetsHears(x: Session, s: Segment, now: U32)
    requires x.sent != [] && x.taken <= |x.entered| && |x.entered| - x.taken < RX_SIZE && Enters(x)
    ensures var y := Meets(x, s, now);
            var drops := x.state == Established && s.seqNo == Expected(x)
              && |x.entered| - x.taken + |s.payload| > RX_SIZE - 1;
            Enters(y) && (y.entered == y.heard <==> x.entered == x.heard && !drops)
  {
    hide Expected, AcksAll, RoundTrip;
  }

  lemma {:induction false} HeardAll(es: seq<(Event, U32)>, i: nat)
    requires i < MAX_CONNECTIONS
    ensures var x := SessionAfter(es, i); Enters(x) && (x.entered == x.heard <==> !Overflowed(es, i))
    decreases |es|
  {
    hide Agrees, Follow, Happens, After, Queue;
    if es != [] {
      var k := |es| - 1;
      HeardAll(es[..k], i);
      Follows(es[..k], i);
      DropStep(After(Boot(), es[..k]), es[k].0, es[k].1, i, SessionAfter(es[..k], i));
    }
  }

  /** Over every run from boot: what the reader got and what still waits are the bytes that entered
      the ring since the slot was opened, in order; and they are all the bytes that came in order if
      and only if the ring never overflowed. */
  lemma ReadInOrder(es: seq<(Event, U32)>, i: nat)
    requires i < MAX_CONNECTIONS
    ensures var c, x := After(Boot(), es).conns[i], SessionAfter(es, i);
            && Read(es, i) + Queue(c) == x.entered
            && (Read(es, i) + Queue(c) == x.heard <==> !Overflowed(es, i))
  {
    hide Agrees, After, SessionAfter, Read, Overflowed, Queue;
    Follows(es, i);
    AgreesQueue(After(Boot(), es).conns[i], SessionAfter(es, i));
    ReadIs(es, i);
    HeardAll(es, i);
  }

  // ------------------------------------------------------------------------- sending again

  /** The event makes slot i send a segment for the first time: a SYN that opens it, tcp_socket_send
      or tcp_socket_close. */
  ghost predicate Originates(n: Net, e: Event, i: nat)
    requires Shaped(n) && i < MAX_CONNECTIONS
  {
    var w := Happens(n, e, i);
    w.Opening? || ((w.Write? || w.Shut?) && CanSend(n.conns[i]))
  }

  /** The last such segment of slot i, as it went onto the wire. */
  ghost function Original(es: seq<(Event, U32)>, i: nat): (o: Option<Out>)
    requires i < MAX_CONNECTIONS
  {
    if es == [] then None
    else
      var k := |es| - 1;
      var before := After(Boot(), es[..k]);
      if Originates(before, es[k].0, i) && Wire(before, es[k].0, es[k].1) != []
      then Some(Wire(before, es[k].0, es[k].1)[0])
      else Original(es[..k], i)
  }

  /** The segment on the wire is the session's last one, but for what it acknowledges. */
  predicate IsLast(o: Out, x: Session) {
    x.sent != [] && o == Copy(x, Last(x), Earlier(x)).(ackNo := o.ackNo)
  }

  /** An event that originates nothing leaves the last segment as it is. */
  lemma LastStays(n: Net, e: Event, now: U32, i: nat, x: Session)
    requires Shaped(n) && i < MAX_CONNECTIONS && Agrees(n.conns[i], x) && !Originates(n, e, i)
    ensures var y := Follow(x, Happens(n, e, i), now);
            y.sent == x.sent && y.peer == x.peer && y.mac == x.mac && (y.waiting ==> x.waiting)
  {
    hide Agrees, Happens, Meets, Overdue;
    AgreesState(n.conns[i], x);
    var w := Happens(n, e, i);
    if w.Other? && x.sent != [] { MeetsKeeps(x, w.s, now); }
  }

  /** One that does puts it on the wire. */
  lemma LastSpoken(n: Net, e: Event, now: U32, i: nat, x: Session)
    requires Shaped(n) && i < MAX_CONNECTIONS && Agrees(n.conns[i], x) && Originates(n, e, i)
    ensures |Wire(n, e, now)| == 1 && IsLast(Wire(n, e, now)[0], Follow(x, Happens(n, e, i), now))
  {
    AgreesState(n.conns[i], x);
    if e.Arrive? { ServesIs(n.conns, e.s, i); }
    SlotSpeaks(n, e, now, i, x);
    hide Agrees, Wire, Number, Plus, Happens;
    SaysLast(x, Happens(n, e, i), now);
  }

  lemma SaysLast(x: Session, w: What, now: U32)
    requires w.Opening? || ((w.Write? || w.Shut?) && MaySend(x))
    ensures |Says(x, w, now)| == 1 && IsLast(Says(x, w, now)[0], Follow(x, w, now))
  {
    NumberMore(x.sent, Sending(SYN_ACK, [], now));
    hide Number, Plus;
    var y := Follow(x, w, now);
    assert Earlier(y) == if w.Opening? then [] else x.sent;
  }

  lemma {:induction false} OriginalIs(es: seq<(Event, U32)>, i: nat)
    requires i < MAX_CONNECTIONS
    ensures SessionAfter(es, i).waiting ==> Original(es, i).Some? && IsLast(Original(es, i).value, SessionAfter(es, i))
    decreases |es|
  {
    hide Agrees, Follow, Happens, After, Wire, Originates;
    if es != [] {
      var k := |es| - 1;
      var before, x := After(Boot(), es[..k]), SessionAfter(es[..k], i);
      OriginalIs(es[..k], i);
      Follows(es[..k], i);
      if Originates(before, es[k].0, i) {
        LastSpoken(before, es[k].0, es[k].1, i, x);
      } else {
        LastStays(before, es[k].0, es[k].1, i, x);
      }
    }
  }

  /** After every run: if the timer check sends something for a slot, it is the last segment that the
      slot sent for the first time, with its flags, its sequence number and its bytes, which end where
      everything sent ends; only the acknowledgement is today's. */
  lemma ResentAsSent(es: seq<(Event, U32)>, now: U32, i: nat)
    requires i < MAX_CONNECTIONS && Checked(After(Boot(), es).conns[i], now).1 != []
    ensures var c := After(Boot(), es).conns[i];
            && Original(es, i).Some? && Checked(c, now).1 == [Original(es, i).value.(ackNo := c.theirSeq)]
            && Plus(Original(es, i).value.seqNo, Space(c)) == c.ourSeq
  {
    hide Agrees, Original, After, SessionAfter, Checked, IsLast;
    Follows(es, i);
    OriginalIs(es, i);
    ResentIs(After(Boot(), es).conns[i], now, SessionAfter(es, i));
    ResentCopy(After(Boot(), es).conns[i], now, SessionAfter(es, i), Original(es, i).value);
  }

  lemma ResentIs(c: Conn, now: U32, x: Session)
    requires Agrees(c, x) && Checked(c, now).1 != []
    ensures x.waiting && x.sent != [] && Checked(c, now).1 == [Copy(x, Last(x), Earlier(x))]
  {
    CheckedAgrees(c, now, x);
    hide Agrees, Checked, Backoff, Number, Expected, Minus, Timeout;
  }

  lemma ResentCopy(c: Conn, now: U32, x: Session, o: Out)
    requires Agrees(c, x) && x.waiting && IsLast(o, x) && Checked(c, now).1 == [Copy(x, Last(x), Earlier(x))]
    ensures Checked(c, now).1 == [o.(ackNo := c.theirSeq)] && Plus(o.seqNo, Space(c)) == c.ourSeq
  {
    NumberMore(Earlier(x), Last(x));
    assert Earlier(x) + [Last(x)] == x.sent;
    hide Checked, Queue, Number, Backoff, Plus, TcpRtt.After, Timeout;
  }

  // --------------------------------------------------------------------------- the timeouts

  /** The timeout with which the last segment was first sent, and how often it was sent again. */
  ghost function FirstTimeout(es: seq<(Event, U32)>, i: nat): (t: nat)
    requires i < MAX_CONNECTIONS
  {
    if es == [] then 0
    else
      var k := |es| - 1;
      if Originates(After(Boot(), es[..k]), es[k].0, i) then After(Boot(), es).conns[i].currentRto
      else FirstTimeout(es[..k], i)
  }

  ghost function TimesResent(es: seq<(Event, U32)>, i: nat): (m: nat)
    requires i < MAX_CONNECTIONS
  {
    if es == [] then 0
    else
      var k := |es| - 1;
      var before := After(Boot(), es[..k]);
      if Originates(before, es[k].0, i) then 0
      else if es[k].0.Timer? && Checked(before.conns[i], es[k].1).1 != [] then TimesResent(es[..k], i) + 1
      else TimesResent(es[..k], i)
  }

  /** While the last segment waits, nothing is measured, and each time it is sent again counts. */
  lemma WaitingStays(n: Net, e: Event, now: U32, i: nat, x: Session)
    requires Shaped(n) && i < MAX_CONNECTIONS && Agrees(n.conns[i], x) && !Originates(n, e, i)
    requires Follow(x, Happens(n, e, i), now).waiting
    ensures var y := Follow(x, Happens(n, e, i), now);
            && x.waiting && y.samples == x.samples
            && |y.again| == |x.again| + if e.Timer? && Checked(n.conns[i], now).1 != [] then 1 else 0
  {
    hide Agrees, Checked, Number, Meets, Overdue, Serves, Copy;
    AgreesState(n.conns[i], x);
    CheckedAgrees(n.conns[i], now, x);
    var w := Happens(n, e, i);
    if w.Other? && x.sent != [] { MeetsKeeps(x, w.s, now); }
  }

  lemma OriginatesFresh(n: Net, e: Event, now: U32, i: nat, x: Session)
    requires Shaped(n) && i < MAX_CONNECTIONS && Agrees(n.conns[i], x) && Originates(n, e, i)
    ensures var y := Follow(x, Happens(n, e, i), now);
            y.again == [] && Step(n, e, now).conns[i].currentRto == Timeout(y.samples)
  {
    AgreesState(n.conns[i], x);
    StepAgrees(n, e, now, i, x);
    var y := Follow(x, Happens(n, e, i), now);
    hide Agrees, Step, Happens, Number, Plus, TcpRtt.After, Minus, Backoff;
    assert y.waiting && y.again == [];
    AgreesWaiting(Step(n, e, now).conns[i], y);
    BackoffNext(Timeout(y.samples), 0);
  }

  lemma AgreesWaiting(c: Conn, x: Session)
    requires Agrees(c, x) && x.waiting
    ensures c.pending && c.retransmits == |x.again| && c.currentRto == Backoff(Timeout(x.samples), |x.again|)
  {
    hide Queue, Number, Backoff, Plus, TcpRtt.After, Timeout;
  }

  lemma {:induction false} TimesAre(es: seq<(Event, U32)>, i: nat)
    requires i < MAX_CONNECTIONS
    ensures var x := SessionAfter(es, i);
            x.waiting ==> FirstTimeout(es, i) == Timeout(x.samples) && TimesResent(es, i) == |x.again|
    decreases |es|
  {
    hide Agrees, Follow, Happens, Step, Checked, Originates, Timeout;
    if es != [] {
      var k := |es| - 1;
      var before, x := After(Boot(), es[..k]), SessionAfter(es[..k], i);
      TimesAre(es[..k], i);
      Follows(es[..k], i);
      if Originates(before, es[k].0, i) {
        OriginatesFresh(before, es[k].0, es[k].1, i, x);
      } else if SessionAfter(es, i).waiting {
        WaitingStays(before, es[k].0, es[k].1, i, x);
      }
    }
  }

  /** Over every run: a tracked segment that was sent again k times waits for the smaller of 200
      ticks and 2^k times its first timeout. */
  lemma BacksOff(es: seq<(Event, U32)>, i: nat)
    requires i < MAX_CONNECTIONS && After(Boot(), es).conns[i].pending
    ensures var c, k := After(Boot(), es).conns[i], TimesResent(es, i);
            && c.retransmits == k
            && c.currentRto == (if Power(k) * FirstTimeout(es, i) > 200 then 200 else Power(k) * FirstTimeout(es, i))
  {
    hide Agrees, After, SessionAfter, FirstTimeout, TimesResent, Timeout;
    Follows(es, i);
    TimesAre(es, i);
    AgreesState(After(Boot(), es).conns[i], SessionAfter(es, i));
    AgreesWaiting(After(Boot(), es).conns[i], SessionAfter(es, i));
  }

  /** Over every run: once a round trip is measured on segments that were sent only once, the timeout
      of the next segment is within eight ticks of the one that section 2 of RFC 6298 gives for all
      the round trips measured since the slot was opened. */
  lemma EstimateTracks(es: seq<(Event, U32)>, i: nat)
    requires i < MAX_CONNECTIONS && SessionAfter(es, i).samples != [] && TcpRtt.AllSmall(SessionAfter(es, i).samples)
    requires SessionAfter(es, i).sent != []
    ensures var c, x := After(Boot(), es).conns[i], TcpRtt.ExactAfter(SessionAfter(es, i).samples);
            && c.rtt.valid && -8.0 < c.rtt.rto as real - TcpRtt.ClampReal(x.srtt + 4.0 * x.rttvar) < 8.0
            && forall now: U32 :: Track(c, PSH_ACK, c.ourSeq, [], now).currentRto == c.rtt.rto
  {
    hide After, SessionAfter, TcpRtt.ExactAfter, TcpRtt.After, TcpRtt.ClampReal, TcpRtt.Near, TcpRtt.Small;
    Follows(es, i);
    TcpRtt.TracksExactly(NO_RTT, SessionAfter(es, i).samples);
    AgreesEstimate(After(Boot(), es).conns[i], SessionAfter(es, i));
    hide Agrees;
  }

  lemma AgreesEstimate(c: Conn, x: Session)
    requires Agrees(c, x) && x.sent != [] && x.samples != []
    ensures c.rtt == TcpRtt.After(NO_RTT, x.samples)
  {
  }
}
