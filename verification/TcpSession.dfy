/**
  A connection as its two byte streams and its history: what the peer has sent in order, what the
  reader has taken, every segment sent for the first time, when the last one was sent again, and the
  round trips measured.  There are no rings, no sequence numbers kept and no timeouts kept; they are
  worked out.  The table is proved to follow it over every run, in its state and on the wire.
*/
module TcpSession {
  import opened Common
  import TcpRtt
  import opened Tcp
  import opened TcpTable

  /** A segment as it was first sent, and when. */
  datatype Sending = Sending(flags: Flags, payload: seq<Byte>, tick: U32)

  /** `first` is the number of the peer's SYN; `heard` are the bytes that came in order, `entered`
      those that found room, `taken` how many the reader has; `again` are the ticks at which the last
      segment was sent again, while it waits for its acknowledgement. */
  datatype Session = Session(
    state: State, peer: Peer, mac: nat, first: U32, heard: seq<Byte>, entered: seq<Byte>, taken: nat, ended: bool,
    accepted: bool, sent: seq<Sending>, waiting: bool, again: seq<U32>, samples: seq<U32>)

  const NEVER: Session := Session(Closed, Peer(0, 0), 0, 0, [], [], 0, false, false, [], false, [], [])

  // ------------------------------------------------------------------- what is worked out

  /** The sequence numbers that a segment takes up. */
  function Length(s: Sending): nat {
    |s.payload| + (if s.flags.syn then 1 else 0) + if s.flags.fin then 1 else 0
  }

  function Total(sent: seq<Sending>): (n: nat) {
    if sent == [] then 0 else Total(sent[..|sent| - 1]) + Length(sent[|sent| - 1])
  }

  /** The number of the next byte to send after these segments, and of the next byte to come. */
  function Number(sent: seq<Sending>): U32 {
    Plus(INITIAL_SEQ, Total(sent))
  }

  function Expected(x: Session): U32 {
    Plus(x.first, 1 + |x.heard| + if x.ended then 1 else 0)
  }

  function Last(x: Session): Sending
    requires x.sent != []
  {
    x.sent[|x.sent| - 1]
  }

  function Earlier(x: Session): seq<Sending>
    requires x.sent != []
  {
    x.sent[..|x.sent| - 1]
  }

  function LastTick(x: Session): U32
    requires x.sent != []
  {
    if x.again == [] then Last(x).tick else x.again[|x.again| - 1]
  }

  const NO_RTT := TcpRtt.Rtt(0, 0, 0, false)

  /** The timeout that the measured round trips give. */
  function Timeout(samples: seq<U32>): (t: nat)
    ensures TcpRtt.RTO_MIN <= t <= TcpRtt.RTO_MAX
  {
    if samples == [] then TcpRtt.RTO_INITIAL else TcpRtt.After(NO_RTT, samples).rto
  }

  function Power(k: nat): (p: nat)
    ensures p > 0
  {
    if k == 0 then 1 else 2 * Power(k - 1)
  }

  /** After k retransmissions the timeout has doubled k times, up to 200 ticks. */
  function Backoff(t: nat, k: nat): (r: nat) {
    if Power(k) * t > TcpRtt.RTO_MAX then TcpRtt.RTO_MAX else Power(k) * t
  }

  function Cut(data: seq<Byte>, n: nat): (r: seq<Byte>) {
    if |data| > n then data[..n] else data
  }

  // ----------------------------------------------------------------------- the reference

  /** What an event of the table is for one slot. */
  datatype What = Nothing | Reset | Opening(s: Segment) | Other(s: Segment) | Check | Claim | Take(n: nat) |
    Write(data: seq<Byte>) | Shut

  /** A SYN that does not answer one. */
  predicate Starts(s: Segment) {
    s.flags.syn && !s.flags.ack
  }

  /** The segment is for slot i: the first open slot of its peer, or for a SYN of a new peer the
      first closed slot. */
  ghost predicate Serves(t: seq<Conn>, s: Segment, i: nat)
    requires i < |t|
  {
    || (Matches(t[i], s.peer) && forall k :: 0 <= k < i ==> !Matches(t[k], s.peer))
    || (Starts(s) && (forall k :: 0 <= k < |t| ==> !Matches(t[k], s.peer))
        && t[i].state == Closed && forall k :: 0 <= k < i ==> t[k].state != Closed)
  }

  /** Slot i is the first established one that nobody has claimed. */
  ghost predicate FirstUnclaimed(t: seq<Conn>, i: nat)
    requires i < |t|
  {
    && t[i].state == Established && !t[i].accepted
    && forall k :: 0 <= k < i ==> !(t[k].state == Established && !t[k].accepted)
  }

  ghost function Happens(n: Net, e: Event, i: nat): What
    requires Shaped(n) && i < MAX_CONNECTIONS
  {
    match e
    case Arrive(s) =>
      if s.port != TEST_PORT || !Serves(n.conns, s, i) then Nothing
      else if s.flags.rst && Matches(n.conns[i], s.peer) then Reset
      else if Starts(s) then Opening(s)
      else Other(s)
    case Timer => Check
    case Accept => if FirstUnclaimed(n.conns, i) then Claim else Nothing
    case Recv(j, k) => if j == i then Take(k) else Nothing
    case Send(j, data) => if j == i then Write(data) else Nothing
    case Finish(j) => if j == i then Shut else Nothing
  }

  /** The segment acknowledges everything that was sent. */
  predicate AcksAll(x: Session, s: Segment) {
    s.flags.ack && s.ackNo == Number(x.sent)
  }

  /** The segment brings no bytes, or the next ones. */
  predicate Fits(x: Session, s: Segment) {
    s.payload == [] || s.seqNo == Expected(x)
  }

  /** The last segment is acknowledged: one that was sent only once gives a round trip. */
  function Acked(x: Session, now: U32): (y: Session)
    requires x.sent != []
  {
    x.(waiting := false, samples := if x.again == [] then x.samples + [RoundTrip(x, now)] else x.samples)
  }

  /** The ticks since the last segment was first sent, at least one. */
  function RoundTrip(x: Session, now: U32): (t: U32)
    requires x.sent != []
  {
    if now == Last(x).tick then 1 else Minus(now, Last(x).tick)
  }

  /** Bytes in order are heard; those enter for which there is room. */
  function Hears(x: Session, bytes: seq<Byte>): (y: Session) {
    var waiting := |x.entered| - x.taken;
    x.(heard := x.heard + bytes,
       entered := x.entered + Cut(bytes, if waiting < RX_SIZE - 1 then RX_SIZE - 1 - waiting else 0))
  }

  function Sends(x: Session, flags: Flags, payload: seq<Byte>, now: U32): (y: Session) {
    x.(sent := x.sent + [Sending(flags, payload, now)], waiting := true, again := [])
  }

  /** A segment that neither resets nor opens. */
  function Meets(x: Session, s: Segment, now: U32): (y: Session)
    requires x.sent != []
  {
    match x.state
    case SynReceived =>
      if AcksAll(x, s) && !s.flags.syn && s.seqNo == Expected(x) then Acked(x, now).(state := Established) else x
    case Established =>
      if !Fits(x, s) then x
      else if s.flags.fin then Hears(x, s.payload).(ended := true, state := CloseWait)
      else if s.payload != [] then Hears(x, s.payload)
      else if x.waiting && AcksAll(x, s) then Acked(x, now)
      else x
    case CloseWait => if x.waiting && AcksAll(x, s) then Acked(x, now) else x
    case LastAck => if AcksAll(x, s) then (if x.waiting then Acked(x, now) else x).(state := Closed) else x
    case Closed => x
  }

  /** The last segment has waited for its timeout. */
  predicate Overdue(x: Session, now: U32) {
    x.waiting && x.sent != [] && Minus(now, LastTick(x)) >= Backoff(Timeout(x.samples), |x.again|)
  }

  predicate MaySend(x: Session) {
    x.state == Established || x.state == CloseWait
  }

  function Follow(x: Session, w: What, now: U32): (y: Session) {
    match w
    case Nothing => x
    case Reset => x.(state := Closed, waiting := false)
    case Opening(s) =>
      Session(SynReceived, s.peer, s.mac, s.seqNo, [], [], 0, false, false, [Sending(SYN_ACK, [], now)], true, [], [])
    case Other(s) => if x.sent == [] then x else Meets(x, s, now)
    case Check =>
      if !Overdue(x, now) then x
      else if |x.again| >= MAX_RETRANSMITS then x.(state := Closed, waiting := false)
      else x.(again := x.again + [now])
    case Claim => x.(accepted := true)
    case Take(n) => if x.taken + n <= |x.entered| then x.(taken := x.taken + n) else x
    case Write(data) => if MaySend(x) then Sends(x, PSH_ACK, Cut(data, SEGMENT_MAX), now) else x
    case Shut => if MaySend(x) then Sends(x, FIN_ACK, [], now).(state := LastAck) else x
  }

  /** What the session puts on the wire. */
  function Says(x: Session, w: What, now: U32): (out: seq<Out>) {
    match w
    case Opening(s) => [Out(s.peer, s.mac, SYN_ACK, INITIAL_SEQ, Plus(s.seqNo, 1), [])]
    case Other(s) =>
      if x.sent != [] && x.state == Established && (s.payload != [] || s.flags.fin) && Fits(x, s)
      then [Out(x.peer, x.mac, ONLY_ACK, Number(x.sent), Expected(Meets(x, s, now)), [])]
      else []
    case Check => if Overdue(x, now) && |x.again| < MAX_RETRANSMITS then [Copy(x, Last(x), Earlier(x))] else []
    case Write(data) =>
      if MaySend(x) then [Copy(x, Sending(PSH_ACK, Cut(data, SEGMENT_MAX), now), x.sent)] else []
    case Shut => if MaySend(x) then [Copy(x, Sending(FIN_ACK, [], now), x.sent)] else []
    case _ => []
  }

  /** A segment behind these earlier ones, as it goes out now. */
  function Copy(x: Session, s: Sending, earlier: seq<Sending>): Out {
    Out(x.peer, x.mac, s.flags, Number(earlier), Expected(x), Cut(s.payload, CARRIED_MAX))
  }

  // ------------------------------------------------------------------------- agreement

  ghost predicate Agrees(c: Conn, x: Session) {
    && x.taken <= |x.entered| && c.state == x.state && c.pending == x.waiting && Queue(c) == x.entered[x.taken..]
    && (x.state == SynReceived || x.state == LastAck ==> x.waiting) && (x.waiting ==> x.state != Closed)
    && (x.ended ==> x.state != SynReceived && x.state != Established) && (x.sent == [] ==> x.state == Closed)
    && (x.sent != [] ==> AgreesNumbers(c, x) && AgreesTimes(c, x))
    && (x.waiting ==> x.sent != [] && AgreesLast(c, x))
  }

  ghost predicate AgreesNumbers(c: Conn, x: Session) {
    && c.peer == x.peer && c.mac == x.mac && c.theirSeq == Expected(x) && c.ourSeq == Number(x.sent)
    && c.rxClosed == x.ended && c.accepted == x.accepted
  }

  ghost predicate AgreesTimes(c: Conn, x: Session) {
    if x.samples == [] then !c.rtt.valid else c.rtt == TcpRtt.After(NO_RTT, x.samples)
  }

  ghost predicate AgreesLast(c: Conn, x: Session)
    requires x.sent != []
  {
    && c.pendingData == Last(x).payload && c.pendingFlags == Last(x).flags && c.pendingSeq == Number(Earlier(x))
    && c.retransmits == |x.again| && c.lastSend == LastTick(x)
    && c.currentRto == Backoff(Timeout(x.samples), |x.again|)
  }

  lemma NumberMore(sent: seq<Sending>, s: Sending)
    ensures (sent + [s])[..|sent|] == sent && Number(sent + [s]) == Plus(Number(sent), Length(s))
    ensures Number([]) == INITIAL_SEQ
  {
    assert (sent + [s])[..|sent|] == sent;
    PlusPlus(INITIAL_SEQ, Total(sent), Length(s));
  }

  lemma ExpectedMore(x: Session, bytes: seq<Byte>)
    requires !x.ended
    ensures var y := Hears(x, bytes);
            && Expected(y) == Plus(Expected(x), |bytes|)
            && Expected(y.(ended := true)) == Plus(Plus(Expected(x), |bytes|), 1)
  {
    PlusPlus(x.first, 1 + |x.heard|, |bytes|);
    PlusPlus(x.first, 1 + |x.heard| + |bytes|, 1);
  }

  lemma BackoffNext(t: nat, k: nat)
    requires t <= TcpRtt.RTO_MAX
    ensures Backoff(t, 0) == t
    ensures Backoff(t, k + 1) == if 2 * Backoff(t, k) > TcpRtt.RTO_MAX then TcpRtt.RTO_MAX else 2 * Backoff(t, k)
  {
    assert Power(k + 1) * t == 2 * (Power(k) * t);
  }

  /** One more round trip. */
  lemma SampleMore(c: Conn, x: Session, now: U32)
    requires AgreesTimes(c, x) && x.sent != []
    ensures TcpRtt.Sample(c.rtt, Minus(now, Last(x).tick)) == TcpRtt.After(NO_RTT, x.samples + [RoundTrip(x, now)])
  {
    var more := x.samples + [RoundTrip(x, now)];
    assert more[..|x.samples|] == x.samples;
    NoTime(now, Last(x).tick);
    hide TcpRtt.Word, TcpRtt.Clamp, Minus;
  }

  lemma NoTime(a: U32, b: U32)
    ensures Minus(a, b) == 0 <==> a == b
  {
  }

  lemma OpenedAgrees(c: Conn, s: Segment, now: U32, x: Session)
    ensures Agrees(Opened(c, s, now).0, Follow(x, Opening(s), now))
    ensures Opened(c, s, now).1 == Says(x, Opening(s), now)
  {
    hide Number, Backoff, Plus, TcpRtt.After;
    var y := Follow(x, Opening(s), now);
    NumberMore([], y.sent[0]);
    assert [] + [y.sent[0]] == y.sent && Earlier(y) == [];
    BackoffNext(Timeout([]), 0);
    OpenedQueue(c, s, now);
    hide Queue;
  }

  lemma OpenedQueue(c: Conn, s: Segment, now: U32)
    ensures Queue(Opened(c, s, now).0) == []
  {
    hide Plus;
  }

  lemma AckedAgrees(c: Conn, x: Session, now: U32, state: State)
    requires Agrees(c, x) && x.waiting && state != SynReceived && state != LastAck && (x.ended ==> state != Established)
    ensures Agrees(Acknowledged(c.(state := state), now), Acked(x, now).(state := state))
  {
    if x.again == [] {
      SampleMore(c, x, now);
    }
    hide TcpRtt.Sample, TcpRtt.After, Number, Plus, Backoff, Minus, Timeout, Queue;
    QueueSame(c, Acknowledged(c.(state := state), now));
  }

  /** Bytes that enter the ring. */
  lemma HearsAgrees(c: Conn, x: Session, bytes: seq<Byte>)
    requires Agrees(c, x) && x.state == Established
    ensures Agrees(PushAll(c.(theirSeq := Plus(c.theirSeq, |bytes|)), bytes), Hears(x, bytes))
  {
    hide Agrees, Expected, Plus, PushAll, Queue, Hears;
    AgreesQueue(c, x);
    var c0 := c.(theirSeq := Plus(c.theirSeq, |bytes|));
    PushAllQueue(c0, bytes);
    QueueSame(c, c0);
    ExpectedMore(x, bytes);
    HearsQueue(x, bytes);
    HearsRest(x, bytes);
    SameButHeard(c, x, PushAll(c0, bytes), Hears(x, bytes));
  }

  lemma SameButHeard(c: Conn, x: Session, d: Conn, y: Session)
    requires Agrees(c, x) && d == c.(rx := d.rx, rxHead := d.rxHead, theirSeq := Expected(y))
    requires y == x.(heard := y.heard, entered := y.entered)
    requires y.taken <= |y.entered| && Queue(d) == y.entered[y.taken..]
    ensures Agrees(d, y)
  {
    hide TcpRtt.After, Number, Plus, Backoff, Queue, Timeout;
  }

  lemma AgreesQueue(c: Conn, x: Session)
    requires Agrees(c, x)
    ensures x.taken <= |x.entered| && Queue(c) == x.entered[x.taken..] && |x.entered| - x.taken < RX_SIZE
    ensures x.state == Established ==> !x.ended && x.sent != [] && c.theirSeq == Expected(x)
  {
    hide TcpRtt.After, Number, Plus, Backoff, Queue, Timeout;
    assert |x.entered[x.taken..]| == |Queue(c)|;
  }

  lemma QueueSame(c: Conn, d: Conn)
    requires d.rx == c.rx && d.rxHead == c.rxHead && d.rxTail == c.rxTail
    ensures Queue(d) == Queue(c)
  {
  }

  lemma HearsRest(x: Session, bytes: seq<Byte>)
    ensures var y := Hears(x, bytes); y == x.(heard := y.heard, entered := y.entered)
  {
  }

  lemma HearsQueue(x: Session, bytes: seq<Byte>)
    requires x.taken <= |x.entered| && |x.entered| - x.taken < RX_SIZE
    ensures var y, waiting := Hears(x, bytes), x.entered[x.taken..];
            && y.taken <= |y.entered|
            && y.entered[y.taken..] == waiting + Cut(bytes, RX_SIZE - 1 - |waiting|)
  {
  }

  lemma DataAgrees(c: Conn, s: Segment, now: U32, x: Session)
    requires Agrees(c, x) && x.state == Established
    ensures x.sent != [] && Agrees(Handled(c, s, now).0, Meets(x, s, now))
    ensures Handled(c, s, now).1 == Says(x, Other(s), now)
  {
    hide Agrees, Plus, PushAll, Queue, Hears, Number, Acknowledged;
    AgreesQueue(c, x);
    AgreesSending(c, x);
    if Fits(x, s) {
      ExpectedMore(x, s.payload);
      HearsAgrees(c, x, s.payload);
      PushAllRest(c.(theirSeq := Plus(c.theirSeq, |s.payload|)), s.payload);
      HearsRest(x, s.payload);
      var c1, y := PushAll(c.(theirSeq := Plus(c.theirSeq, |s.payload|)), s.payload), Hears(x, s.payload);
      if s.flags.fin {
        EndAgrees(c1, y);
      } else if s.payload == [] {
        HearsNothing(c, x);
        if x.waiting && AcksAll(x, s) {
          AckedAgrees(c, x, now, Established);
        }
      }
    }
  }

  lemma AgreesSending(c: Conn, x: Session)
    requires Agrees(c, x) && x.state != Closed
    ensures x.sent != [] && c.state == x.state && c.pending == x.waiting && c.ourSeq == Number(x.sent)
    ensures c.peer == x.peer && c.mac == x.mac && c.theirSeq == Expected(x)
    ensures x.state == SynReceived || x.state == LastAck ==> x.waiting
    ensures x.state == SynReceived || x.state == Established ==> !x.ended
  {
    hide Queue, Number, Plus, Backoff, TcpRtt.After;
  }

  lemma EndAgrees(c: Conn, x: Session)
    requires Agrees(c, x) && x.state == Established
    requires Expected(x.(ended := true)) == Plus(c.theirSeq, 1)
    ensures Agrees(c.(theirSeq := Plus(c.theirSeq, 1), rxClosed := true, state := CloseWait),
                   x.(ended := true, state := CloseWait))
  {
    QueueSame(c, c.(theirSeq := Plus(c.theirSeq, 1), rxClosed := true, state := CloseWait));
    hide Queue, Number, Backoff, TcpRtt.After, Plus;
  }

  lemma HearsNothing(c: Conn, x: Session)
    requires Agrees(c, x) && x.state == Established
    ensures PushAll(c.(theirSeq := Plus(c.theirSeq, 0)), []) == c && Hears(x, []) == x
  {
    hide Agrees;
    assert x.heard + [] == x.heard && x.entered + [] == x.entered;
  }

  lemma HandledAgrees(c: Conn, s: Segment, now: U32, x: Session)
    requires Agrees(c, x) && x.state != Closed
    ensures Agrees(Handled(c, s, now).0, Follow(x, Other(s), now))
    ensures Handled(c, s, now).1 == Says(x, Other(s), now)
  {
    hide Agrees, Plus, PushAll, Queue, Hears, Number, Acknowledged;
    AgreesSending(c, x);
    if x.state == Established {
      DataAgrees(c, s, now, x);
    } else if AcksAll(x, s) && x.waiting {
      if x.state == SynReceived {
        AckedAgrees(c, x, now, Established);
      } else {
        AckedAgrees(c, x, now, if x.state == LastAck then Closed else x.state);
      }
    }
  }

  lemma CheckedAgrees(c: Conn, now: U32, x: Session)
    requires Agrees(c, x)
    ensures Agrees(Checked(c, now).0, Follow(x, Check, now))
    ensures Checked(c, now).1 == Says(x, Check, now)
  {
    hide Queue, Number, Plus, Backoff, TcpRtt.After, Timeout, Minus;
    QueueSame(c, Checked(c, now).0);
    BackoffNext(Timeout(x.samples), |x.again|);
  }

  lemma SendsAgrees(c: Conn, x: Session, flags: Flags, payload: seq<Byte>, now: U32)
    requires Agrees(c, x) && MaySend(x) && |payload| <= SEGMENT_MAX
    ensures var y := Sends(x, flags, payload, now);
            Agrees(Track(c, flags, c.ourSeq, payload, now).(ourSeq := Number(y.sent)), y)
  {
    var s := Sending(flags, payload, now);
    NumberMore(x.sent, s);
    BackoffNext(Timeout(x.samples), 0);
    QueueSame(c, Track(c, flags, c.ourSeq, payload, now).(ourSeq := Number(x.sent + [s])));
    hide Queue, Number, Plus, Backoff;
  }

  lemma WriteAgrees(c: Conn, data: seq<Byte>, now: U32, x: Session)
    requires Agrees(c, x) && MaySend(x)
    ensures Agrees(Sent(c, data, now).0, Follow(x, Write(data), now))
    ensures Sent(c, data, now).1 == Says(x, Write(data), now)
  {
    hide Agrees, Track, Number, Plus;
    var bytes := Cut(data, SEGMENT_MAX);
    AgreesSending(c, x);
    NumberMore(x.sent, Sending(PSH_ACK, bytes, now));
    SendsAgrees(c, x, PSH_ACK, bytes, now);
  }

  lemma ShutAgrees(c: Conn, now: U32, x: Session)
    requires Agrees(c, x) && MaySend(x)
    ensures Agrees(Finished(c, now).0, Follow(x, Shut, now))
    ensures Finished(c, now).1 == Says(x, Shut, now)
  {
    hide Agrees, Track, Number, Plus;
    AgreesSending(c, x);
    NumberMore(x.sent, Sending(FIN_ACK, [], now));
    SendsAgrees(c, x, FIN_ACK, [], now);
    LastAckAgrees(Track(c, FIN_ACK, c.ourSeq, [], now).(ourSeq := Plus(c.ourSeq, 1)), Sends(x, FIN_ACK, [], now));
  }

  lemma LastAckAgrees(c: Conn, x: Session)
    requires Agrees(c, x) && x.waiting
    ensures Agrees(c.(state := LastAck), x.(state := LastAck))
  {
    QueueSame(c, c.(state := LastAck));
    hide Queue, Number, Plus, Backoff, TcpRtt.After, Timeout;
  }

  lemma TakeAgrees(c: Conn, k: nat, x: Session)
    requires Agrees(c, x)
    ensures Agrees(if k > |Queue(c)| then c else Taken(c, k), Follow(x, Take(k), 0))
  {
    hide Queue, Number, Plus, Backoff, TcpRtt.After;
    if k <= |Queue(c)| {
      TakenQueue(c, k);
    }
  }

  lemma ResetAgrees(c: Conn, x: Session)
    requires Agrees(c, x)
    ensures Agrees(c.(state := Closed, pending := false), x.(state := Closed, waiting := false))
  {
    QueueSame(c, c.(state := Closed, pending := false));
    hide Queue, Number, Plus, Backoff, TcpRtt.After, Timeout;
  }

  lemma ClaimAgrees(c: Conn, x: Session)
    requires Agrees(c, x)
    ensures Agrees(c.(accepted := true), x.(accepted := true))
  {
    QueueSame(c, c.(accepted := true));
    hide Queue, Number, Plus, Backoff, TcpRtt.After, Timeout;
  }

  lemma ServesIs(t: seq<Conn>, s: Segment, i: nat)
    requires i < |t|
    ensures SlotFor(t, s) == i <==> Serves(t, s, i)
  {
  }

  lemma UnclaimedIs(t: seq<Conn>, i: nat)
    requires i < |t|
    ensures Claimable(t) == i <==> FirstUnclaimed(t, i)
  {
  }

  lemma AgreesState(c: Conn, x: Session)
    requires Agrees(c, x)
    ensures c.state == x.state && c.pending == x.waiting && (CanSend(c) <==> MaySend(x))
  {
  }

  /** A segment that arrives: the slot follows its session, and says the same. */
  lemma ArriveAgrees(n: Net, s: Segment, now: U32, i: nat, x: Session)
    requires Shaped(n) && i < MAX_CONNECTIONS && Agrees(n.conns[i], x)
    ensures Agrees(Step(n, Arrive(s), now).conns[i], Follow(x, Happens(n, Arrive(s), i), now))
    ensures Says(x, Happens(n, Arrive(s), i), now) == if SlotFor(n.conns, s) == i then Wire(n, Arrive(s), now) else []
  {
    var c, w := n.conns[i], Happens(n, Arrive(s), i);
    ServesIs(n.conns, s, i);
    AgreesState(c, x);
    match w {
      case Reset => ResetAgrees(c, x);
      case Opening(_) => OpenedAgrees(c, s, now, x);
      case Other(_) => HandledAgrees(c, s, now, x);
      case _ =>
    }
    hide Agrees, Opened, Handled, Meets, Serves, Number;
  }

  lemma CallAgrees(n: Net, e: Event, now: U32, i: nat, x: Session)
    requires Shaped(n) && i < MAX_CONNECTIONS && Agrees(n.conns[i], x) && (e.Accept? || e.Recv? || e.Send? || e.Finish?)
    ensures Agrees(Step(n, e, now).conns[i], Follow(x, Happens(n, e, i), now))
    ensures Says(x, Happens(n, e, i), now) == if (e.Send? || e.Finish?) && e.i == i then Wire(n, e, now) else []
  {
    hide Agrees, Sent, Finished, Sends, Number, Taken, Queue, FirstUnclaimed, Claimable;
    var c := n.conns[i];
    AgreesState(c, x);
    UnclaimedIs(n.conns, i);
    match e {
      case Accept => ClaimAgrees(c, x);
      case Recv(_, k) => TakeAgrees(c, k, x);
      case Send(_, data) => if MaySend(x) { WriteAgrees(c, data, now, x); }
      case Finish(_) => if MaySend(x) { ShutAgrees(c, now, x); }
      case _ =>
    }
  }

  /** Every call does to the slot, and says for it, what the session does and says. */
  lemma StepAgrees(n: Net, e: Event, now: U32, i: nat, x: Session)
    requires Shaped(n) && i < MAX_CONNECTIONS && Agrees(n.conns[i], x)
    ensures Agrees(Step(n, e, now).conns[i], Follow(x, Happens(n, e, i), now))
  {
    match e
    case Arrive(s) => ArriveAgrees(n, s, now, i, x);
    case Timer => CheckedAgrees(n.conns[i], now, x);
    case _ => CallAgrees(n, e, now, i, x);
  }

  // --------------------------------------------------------------------- over whole runs

  /** The session of slot i after a run from boot. */
  ghost function SessionAfter(es: seq<(Event, U32)>, i: nat): (x: Session)
    requires i < MAX_CONNECTIONS
  {
    if es == [] then NEVER
    else
      var n := |es| - 1;
      Follow(SessionAfter(es[..n], i), Happens(After(Boot(), es[..n]), es[n].0, i), es[n].1)
  }

  lemma BootAgrees()
    ensures Agrees(BLANK, NEVER)
  {
  }

  /** Over every run each slot of the table is what its session says. */
  lemma {:induction false} Follows(es: seq<(Event, U32)>, i: nat)
    requires i < MAX_CONNECTIONS
    ensures Agrees(After(Boot(), es).conns[i], SessionAfter(es, i))
    decreases |es|
  {
    hide Agrees, Step, Follow, Happens;
    if es == [] {
      BootAgrees();
    } else {
      var n := |es| - 1;
      Follows(es[..n], i);
      StepAgrees(After(Boot(), es[..n]), es[n].0, es[n].1, i, SessionAfter(es[..n], i));
    }
  }

  /** What the sessions of the first k slots say to one event, in the order of the slots. */
  ghost function Spoken(es: seq<(Event, U32)>, e: Event, now: U32, k: nat): (out: seq<Out>)
    requires k <= MAX_CONNECTIONS
  {
    if k == 0 then []
    else Spoken(es, e, now, k - 1) + Says(SessionAfter(es, k - 1), Happens(After(Boot(), es), e, k - 1), now)
  }

  lemma {:induction false} TimerSpeaks(es: seq<(Event, U32)>, now: U32, k: nat)
    requires k <= MAX_CONNECTIONS
    ensures AllChecked(After(Boot(), es).conns[..k], now).1 == Spoken(es, Timer, now, k)
    decreases k
  {
    hide Agrees, Says, After, SessionAfter;
    if k > 0 {
      var t := After(Boot(), es).conns;
      TimerSpeaks(es, now, k - 1);
      assert t[..k][..k - 1] == t[..k - 1];
      Follows(es, k - 1);
      CheckedAgrees(t[k - 1], now, SessionAfter(es, k - 1));
    }
  }

  /** Only one slot speaks. */
  lemma {:induction false} OneSpeaks(es: seq<(Event, U32)>, e: Event, now: U32, j: nat, k: nat)
    requires k <= MAX_CONNECTIONS && !e.Timer? && j == Speaker(After(Boot(), es).conns, e)
    ensures Spoken(es, e, now, k) == if j < k then Wire(After(Boot(), es), e, now) else []
    decreases k
  {
    hide Agrees, Says, After, SessionAfter, Wire, Happens, Speaker;
    if k > 0 {
      OneSpeaks(es, e, now, j, k - 1);
      Follows(es, k - 1);
      SlotSpeaks(After(Boot(), es), e, now, k - 1, SessionAfter(es, k - 1));
    }
  }

  /** The slot that an event other than the timer is for. */
  function Speaker(t: seq<Conn>, e: Event): (i: nat) {
    match e
    case Arrive(s) => SlotFor(t, s)
    case Send(i, _) => i
    case Finish(i) => i
    case _ => |t|
  }

  lemma SlotSpeaks(n: Net, e: Event, now: U32, i: nat, x: Session)
    requires Shaped(n) && i < MAX_CONNECTIONS && Agrees(n.conns[i], x) && !e.Timer?
    ensures Says(x, Happens(n, e, i), now) == if Speaker(n.conns, e) == i then Wire(n, e, now) else []
  {
    hide Agrees, Says, Wire, Happens;
    if e.Arrive? {
      ArriveAgrees(n, e.s, now, i, x);
    } else {
      CallAgrees(n, e, now, i, x);
    }
  }

  /** After every run each call puts on the wire exactly what the sessions say. */
  lemma SpeaksAlike(es: seq<(Event, U32)>, e: Event, now: U32)
    ensures Wire(After(Boot(), es), e, now) == Spoken(es, e, now, MAX_CONNECTIONS)
  {
    var t := After(Boot(), es).conns;
    hide After, Spoken, Says, Sent, Finished;
    if e.Timer? {
      TimerSpeaks(es, now, MAX_CONNECTIONS);
      assert t[..MAX_CONNECTIONS] == t;
    } else {
      OneSpeaks(es, e, now, Speaker(t, e), MAX_CONNECTIONS);
    }
  }
}
