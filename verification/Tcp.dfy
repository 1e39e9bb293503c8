/**
  The TCP connection table: its states, the tracked segment of each connection, and the
  effect of every call on it, as functions of the table.
*/
module Tcp {
  import opened Common
  import opened TcpRtt
  import TcpRing

  const MAX_CONNECTIONS := 8
  const RX_SIZE := TcpRing.SIZE
  const SEGMENT_MAX := 1460

  /** What of a segment's payload ip_send puts into its frame: 1472 bytes less the TCP header. */
  const CARRIED_MAX := 1452

  const INITIAL_SEQ := 1000
  const TEST_PORT := 7
  const HEADER_LEN := 20
  const MAX_RETRANSMITS := 5

  datatype Peer = Peer(ip: nat, port: nat)

  datatype Flags = Flags(fin: bool, syn: bool, rst: bool, psh: bool, ack: bool)

  const SYN_ACK := Flags(false, true, false, false, true)
  const PSH_ACK := Flags(false, false, false, true, true)
  const FIN_ACK := Flags(true, false, false, false, true)
  const ONLY_ACK := Flags(false, false, false, false, true)

  datatype State = Closed | SynReceived | Established | CloseWait | LastAck

  datatype Slot = Slot(
    peer: Peer, mac: nat, ourSeq: U32, theirSeq: U32, state: State,
    rx: seq<Byte>, rxHead: nat, rxTail: nat, rxClosed: bool, accepted: bool,
    pendingData: seq<Byte>, pendingSeq: U32, pendingFlags: Flags, pending: bool,
    lastSend: U32, retransmits: nat, currentRto: nat, rtt: Rtt)

  const BLANK: Slot := Slot(
    Peer(0, 0), 0, 0, 0, Closed, seq(512, _ => 0), 0, 0, false, false,
    [], 0, ONLY_ACK, false, 0, 0, 0, Rtt(0, 0, 0, false))

  /** One struct of the connection table. */
  type Conn = c: Slot | |c.rx| == RX_SIZE && c.rxHead < RX_SIZE && c.rxTail < RX_SIZE && |c.pendingData| <= SEGMENT_MAX
    && Fits(c.rtt)
    witness BLANK

  /** A segment that arrives, and one as it leaves in its frame. */
  datatype Segment = Segment(peer: Peer, mac: nat, port: nat, seqNo: U32, ackNo: U32, flags: Flags, payload: seq<Byte>)
  datatype Out = Out(peer: Peer, mac: nat, flags: Flags, seqNo: U32, ackNo: U32, payload: seq<Byte>)

  // ------------------------------------------------------------------------ receive ring

  /** The bytes waiting in the ring, oldest first. */
  function Queue(c: Conn): (q: seq<Byte>)
    ensures |q| < RX_SIZE
  {
    TcpRing.Queue(c.rx, c.rxHead, c.rxTail)
  }

  predicate RingFull(c: Conn) {
    TcpRing.Next(c.rxHead) == c.rxTail
  }

  function Push(c: Conn, b: Byte): (r: Conn) {
    if RingFull(c) then c else c.(rx := c.rx[c.rxHead := b], rxHead := TcpRing.Next(c.rxHead))
  }

  function PushAll(c: Conn, bs: seq<Byte>): (r: Conn)
    decreases |bs|
  {
    if bs == [] then c else PushAll(Push(c, bs[0]), bs[1..])
  }

  lemma PushQueue(c: Conn, b: Byte)
    ensures RingFull(c) <==> |Queue(c)| == RX_SIZE - 1
    ensures Queue(Push(c, b)) == if RingFull(c) then Queue(c) else Queue(c) + [b]
    ensures Push(c, b) == c.(rx := Push(c, b).rx, rxHead := Push(c, b).rxHead)
  {
    TcpRing.QueueEmpty(c.rx, c.rxHead, c.rxTail);
    hide TcpRing.Queue;
    if !RingFull(c) {
      TcpRing.StoreKeeps(c.rx, c.rxHead, c.rxTail, b);
    }
  }

  /** Bytes enter the ring in order until it holds 511; the rest of the segment is dropped. */
  lemma {:induction false} PushAllQueue(c: Conn, bs: seq<Byte>)
    ensures Queue(PushAll(c, bs))
      == Queue(c) + bs[..if |bs| <= RX_SIZE - 1 - |Queue(c)| then |bs| else RX_SIZE - 1 - |Queue(c)|]
    ensures PushAll(c, bs) == c.(rx := PushAll(c, bs).rx, rxHead := PushAll(c, bs).rxHead)
    decreases |bs|
  {
    hide Queue, RingFull, Push;
    if bs != [] {
      PushQueue(c, bs[0]);
      PushAllQueue(Push(c, bs[0]), bs[1..]);
      if !RingFull(c) {
        var n := if |bs| <= RX_SIZE - 1 - |Queue(c)| then |bs| else RX_SIZE - 1 - |Queue(c)|;
        assert bs[..n] == [bs[0]] + bs[1..][..n - 1];
      }
    }
  }

  /** The bytes one recv call takes, and the connection after it. */
  function Taken(c: Conn, n: nat): (r: Conn)
    requires n <= |Queue(c)|
  {
    c.(rxTail := (c.rxTail + n) % RX_SIZE)
  }

  lemma TakenQueue(c: Conn, n: nat)
    requires n <= |Queue(c)|
    ensures Queue(Taken(c, n)) == Queue(c)[n..]
  {
    var r := Taken(c, n);
    if c.rxTail + n < RX_SIZE {
      assert r.rxTail == c.rxTail + n;
    } else {
      assert r.rxTail == c.rxTail + n - RX_SIZE;
      assert c.rxHead < c.rxTail;
      assert Queue(c)[n..] == c.rx[..c.rxHead][n - (RX_SIZE - c.rxTail)..];
    }
  }

  // --------------------------------------------------------------------- one connection

  /** What reaches the wire of a segment sent with this payload. */
  function Emit(c: Conn, flags: Flags, seqNo: U32, payload: seq<Byte>): (o: Out) {
    Out(c.peer, c.mac, flags, seqNo, c.theirSeq, if |payload| > CARRIED_MAX then payload[..CARRIED_MAX] else payload)
  }

  /** What tcp_send_tracked remembers of the segment it sends. */
  function Track(c: Conn, flags: Flags, seqNo: U32, payload: seq<Byte>, now: U32): (r: Conn) {
    c.(pendingData := if |payload| > SEGMENT_MAX then payload[..SEGMENT_MAX] else payload,
       pendingSeq := seqNo, pendingFlags := flags, pending := true, lastSend := now, retransmits := 0,
       currentRto := if c.rtt.valid then c.rtt.rto else RTO_INITIAL)
  }

  /** tcp_rtt_sample: a segment that was never retransmitted gives a sample. */
  function Acknowledged(c: Conn, now: U32): (r: Conn) {
    (if c.retransmits == 0 then c.(rtt := Sample(c.rtt, Minus(now, c.lastSend))) else c).(pending := false)
  }

  function Opened(c: Conn, s: Segment, now: U32): (r: (Conn, seq<Out>)) {
    var clean := c.(peer := s.peer, mac := s.mac, theirSeq := Plus(s.seqNo, 1), ourSeq := INITIAL_SEQ,
                    state := SynReceived,
                    pending := false, retransmits := 0, rxHead := 0, rxTail := 0, rxClosed := false, accepted := false,
                    rtt := c.rtt.(valid := false));
    (Track(clean, SYN_ACK, INITIAL_SEQ, [], now).(ourSeq := Plus(INITIAL_SEQ, 1)),
      [Emit(clean, SYN_ACK, INITIAL_SEQ, [])])
  }

  /** A segment other than a reset or a SYN, on the connection it belongs to. */
  function Handled(c: Conn, s: Segment, now: U32): (r: (Conn, seq<Out>)) {
    if c.state == SynReceived && s.flags.ack && !s.flags.syn then
      (if s.ackNo == c.ourSeq && s.seqNo == c.theirSeq then Acknowledged(c.(state := Established), now) else c, [])
    else if c.state == Established then
      var n := |s.payload|;
      if n > 0 && s.seqNo != c.theirSeq then (c, [])
      else
        var c1 := PushAll(c.(theirSeq := Plus(c.theirSeq, n)), s.payload);
        if s.flags.fin then
          var c2 := c1.(theirSeq := Plus(c1.theirSeq, 1), rxClosed := true, state := CloseWait);
          (c2, [Emit(c2, ONLY_ACK, c2.ourSeq, [])])
        else if n > 0 then (c1, [Emit(c1, ONLY_ACK, c1.ourSeq, [])])
        else if c.pending && s.flags.ack && s.ackNo == c.ourSeq then (Acknowledged(c1, now), [])
        else (c1, [])
    else if (c.state == LastAck || c.state == CloseWait) && s.flags.ack && s.ackNo == c.ourSeq then
      var c1 := if c.state == LastAck then c.(state := Closed) else c;
      (if c.pending then Acknowledged(c1, now) else c1, [])
    else (c, [])
  }

  /** tcp_check_retransmits on one connection. */
  function Checked(c: Conn, now: U32): (r: (Conn, seq<Out>)) {
    if c.state == Closed || !c.pending || Minus(now, c.lastSend) < c.currentRto then (c, [])
    else if c.retransmits >= MAX_RETRANSMITS then (c.(state := Closed, pending := false), [])
    else
      (c.(lastSend := now, retransmits := c.retransmits + 1,
          currentRto := if 2 * c.currentRto > RTO_MAX then RTO_MAX else 2 * c.currentRto),
       [Emit(c, c.pendingFlags, c.pendingSeq, c.pendingData)])
  }

  predicate CanSend(c: Conn) {
    c.state == Established || c.state == CloseWait
  }

  /** tcp_socket_send and tcp_socket_close on a connection that can send. */
  function Sent(c: Conn, data: seq<Byte>, now: U32): (r: (Conn, seq<Out>)) {
    var bytes := if |data| > SEGMENT_MAX then data[..SEGMENT_MAX] else data;
    (Track(c, PSH_ACK, c.ourSeq, bytes, now).(ourSeq := Plus(c.ourSeq, |bytes|)), [Emit(c, PSH_ACK, c.ourSeq, bytes)])
  }

  function Finished(c: Conn, now: U32): (r: (Conn, seq<Out>)) {
    (Track(c, FIN_ACK, c.ourSeq, [], now).(ourSeq := Plus(c.ourSeq, 1), state := LastAck),
      [Emit(c, FIN_ACK, c.ourSeq, [])])
  }

  // --------------------------------------------------------------------------- the table

  predicate Matches(c: Conn, peer: Peer) {
    c.state != Closed && c.peer == peer
  }

  /** The first slot that serves the peer, and the first free one; the table's size if none. */
  function FindSlot(t: seq<Conn>, peer: Peer): (i: nat)
    ensures i <= |t| && (i < |t| ==> Matches(t[i], peer))
    ensures forall k :: 0 <= k < i ==> !Matches(t[k], peer)
  {
    if t == [] || Matches(t[0], peer) then 0 else 1 + FindSlot(t[1..], peer)
  }

  function FreeSlot(t: seq<Conn>): (i: nat)
    ensures i <= |t| && (i < |t| ==> t[i].state == Closed)
    ensures forall k :: 0 <= k < i ==> t[k].state != Closed
  {
    if t == [] || t[0].state == Closed then 0 else 1 + FreeSlot(t[1..])
  }

  predicate IsSyn(s: Segment) {
    s.flags.syn && !s.flags.ack
  }

  /** The slot a segment ends up in; the table's size if it is dropped. */
  function SlotFor(t: seq<Conn>, s: Segment): (i: nat)
    ensures i <= |t|
  {
    var i := FindSlot(t, s.peer);
    if i == |t| && IsSyn(s) then FreeSlot(t) else i
  }

  /** What a segment does to its slot. */
  function Arrived(c: Conn, s: Segment, now: U32): (r: (Conn, seq<Out>)) {
    if s.flags.rst && Matches(c, s.peer) then (c.(state := Closed, pending := false), [])
    else if IsSyn(s) then Opened(c, s, now)
    else Handled(c, s, now)
  }

  function Received(t: seq<Conn>, s: Segment, now: U32): (r: (seq<Conn>, seq<Out>))
    ensures |r.0| == |t|
  {
    var i := SlotFor(t, s);
    if s.port != TEST_PORT || i == |t| then (t, [])
    else (t[i := Arrived(t[i], s, now).0], Arrived(t[i], s, now).1)
  }

  function AllChecked(t: seq<Conn>, now: U32): (r: (seq<Conn>, seq<Out>))
    ensures |r.0| == |t|
    ensures forall i :: 0 <= i < |t| ==> r.0[i] == Checked(t[i], now).0
  {
    if t == [] then ([], [])
    else
      var n := |t| - 1;
      var (less, outs) := AllChecked(t[..n], now);
      (less + [Checked(t[n], now).0], outs + Checked(t[n], now).1)
  }

  function Claimable(t: seq<Conn>): (i: nat)
    ensures i <= |t| && (i < |t| ==> t[i].state == Established && !t[i].accepted)
    ensures forall k :: 0 <= k < i ==> !(t[k].state == Established && !t[k].accepted)
  {
    if t == [] || (t[0].state == Established && !t[0].accepted) then 0 else 1 + Claimable(t[1..])
  }
}
