/**
  The TCP layer's calls, on a table updated in place, with the segments they send.  Each is
  proved to be the corresponding step of the table.
*/
module TcpServer {
  import opened Common
  import opened TcpRtt
  import opened Tcp
  import opened TcpTable
  import Checksum

  function Be16(data: seq<Byte>, k: nat): (r: nat)
    requires k + 1 < |data|
    ensures r < 0x1_0000
  {
    var high: int, low: int := data[k], data[k + 1];
    256 * high + low
  }

  function Be32(data: seq<Byte>, k: nat): (r: U32)
    requires k + 3 < |data|
  {
    0x1_0000 * Be16(data, k) + Be16(data, k + 2)
  }

  predicate Bit(b: Byte, k: nat)
    requires k > 0
  {
    b / k % 2 == 1
  }

  function DataOffset(data: seq<Byte>): (r: nat)
    requires |data| >= HEADER_LEN
    ensures r <= 60
  {
    data[12] / 16 * 4
  }

  /** A segment whose header ends inside it. */
  predicate HeaderInside(data: seq<Byte>) {
    |data| >= HEADER_LEN ==> DataOffset(data) <= |data|
  }

  function Parse(ip: nat, mac: nat, data: seq<Byte>): (s: Segment)
    requires |data| >= HEADER_LEN && HeaderInside(data)
  {
    Segment(Peer(ip, Be16(data, 0)), mac, Be16(data, 2), Be32(data, 4), Be32(data, 8),
            Flags(Bit(data[13], 1), Bit(data[13], 2), Bit(data[13], 4), Bit(data[13], 8), Bit(data[13], 16)),
            data[DataOffset(data)..])
  }

  /** A receiver parses out of the frame what tcp_send_segment put into the segment, up to the
      1452 bytes of payload that the frame has room for. */
  lemma ParsesBack(ip: nat, mac: nat, segment: seq<Byte>, localPort: U16, remotePort: U16, seqNo: U32, ackNo: U32,
                   flags: Byte, data: seq<Byte>)
    requires Checksum.IsSegment(segment, localPort, remotePort, seqNo, ackNo, flags, data)
    ensures var arrived := Checksum.Carried(segment);
            && |arrived| >= HEADER_LEN && HeaderInside(arrived)
            && var s := Parse(ip, mac, arrived);
               && s.peer == Peer(ip, localPort) && s.port == remotePort && s.seqNo == seqNo && s.ackNo == ackNo
               && s.payload == Checksum.Cut(data, CARRIED_MAX)
               && s.flags == Flags(Bit(flags, 1), Bit(flags, 2), Bit(flags, 4), Bit(flags, 8), Bit(flags, 16))
  {
    var h, arrived := segment[..16], Checksum.Carried(segment);
    assert forall k :: 0 <= k < 16 ==> arrived[k] == h[k];
    assert arrived[HEADER_LEN..] == Checksum.Cut(data, CARRIED_MAX);
    assert h[0..2] == Checksum.Be16(localPort) && h[2..4] == Checksum.Be16(remotePort);
    assert h[4..8] == Checksum.Be32(seqNo) && h[8..12] == Checksum.Be32(ackNo);
    assert h[12] == 80 && h[13] == flags;
  }

  lemma TrackKeeps(c: Conn, flags: Flags, seqNo: U32, payload: seq<Byte>, now: U32)
    ensures Track(c, flags, seqNo, payload, now).ourSeq == c.ourSeq
  {
  }

  lemma NoneChecked(t: seq<Conn>, now: U32)
    requires t == []
    ensures AllChecked(t, now) == ([], [])
  {
  }

  lemma InvShaped(n: Net)
    requires Inv(n)
    ensures Shaped(n)
  {
  }

  /** What tcp_socket_send reports is what its frame carries exactly up to 1452 bytes. */
  lemma Reported(c: Conn, data: seq<Byte>, now: U32)
    ensures var out := Sent(c, data, now).1;
            |out| == 1 && out[0].payload == data[..|out[0].payload|]
              && out[0].payload == Checksum.Cut(data, CARRIED_MAX)
  {
    hide Track;
    if |data| > SEGMENT_MAX { assert data[..SEGMENT_MAX][..CARRIED_MAX] == data[..CARRIED_MAX]; }
  }

  class Server {
    const conns: array<Conn>
    var wire: seq<Out>
    ghost var used: seq<nat>

    ghost function State(): (n: Net)
      reads this, conns
    {
      Net(conns[..], used)
    }

    ghost predicate Valid()
      reads this, conns
    {
      Inv(State())
    }

    constructor ()
      ensures Valid() && fresh(conns) && State() == Boot() && wire == []
    {
      conns := new Conn[MAX_CONNECTIONS](_ => BLANK);
      wire := [];
      used := seq(MAX_CONNECTIONS, _ => 0);
      new;
      assert conns[..] == seq(MAX_CONNECTIONS, _ => BLANK);
      BootInv();
    }

    /** tcp_find_connection. */
    method FindConnection(peer: Peer) returns (i: nat)
      ensures i == FindSlot(conns[..], peer)
    {
      i := 0;
      while i < conns.Length && !(conns[i].state != Closed && conns[i].peer == peer)
        invariant i <= conns.Length && FindSlot(conns[..], peer) == i + FindSlot(conns[i..], peer)
      {
        assert conns[i..][1..] == conns[i + 1..];
        i := i + 1;
      }
    }

    /** tcp_alloc_connection. */
    method AllocConnection() returns (i: nat)
      ensures i == FreeSlot(conns[..])
    {
      i := 0;
      while i < conns.Length && conns[i].state != Closed
        invariant i <= conns.Length && FreeSlot(conns[..]) == i + FreeSlot(conns[i..])
      {
        assert conns[i..][1..] == conns[i + 1..];
        i := i + 1;
      }
    }

    /** tcp_send_segment, with the cut that ip_send makes. */
    method SendSegment(i: nat, flags: Flags, seqNo: U32, payload: seq<Byte>)
      requires i < conns.Length
      modifies this`wire
      ensures wire == old(wire) + [Emit(conns[i], flags, seqNo, payload)]
    {
      var c, bytes := conns[i], payload;
      if |bytes| > SEGMENT_MAX {
        bytes := bytes[..SEGMENT_MAX];
      }
      assert |payload| > SEGMENT_MAX ==> bytes[..CARRIED_MAX] == payload[..CARRIED_MAX];
      if HEADER_LEN + |bytes| > Checksum.MAX_IP_PAYLOAD {
        bytes := bytes[..Checksum.MAX_IP_PAYLOAD - HEADER_LEN];
      }
      wire := wire + [Out(c.peer, c.mac, flags, seqNo, c.theirSeq, bytes)];
    }

    /** tcp_send_tracked. */
    method SendTracked(i: nat, flags: Flags, seqNo: U32, payload: seq<Byte>, now: U32)
      requires i < conns.Length
      modifies this`wire, conns
      ensures conns[..] == old(conns[..])[i := Track(old(conns[i]), flags, seqNo, payload, now)]
      ensures wire == old(wire) + [Emit(old(conns[i]), flags, seqNo, payload)]
    {
      SendSegment(i, flags, seqNo, payload);
      var stored := payload;
      if |stored| > SEGMENT_MAX {
        stored := stored[..SEGMENT_MAX];
      }
      conns[i] := conns[i].(pendingData := stored, pendingSeq := seqNo, pendingFlags := flags, pending := true);
      conns[i] := conns[i].(lastSend := now, retransmits := 0);
      conns[i] := conns[i].(currentRto := if conns[i].rtt.valid then conns[i].rtt.rto else RTO_INITIAL);
    }

    /** tcp_rtt_sample. */
    method RttSample(i: nat, now: U32)
      requires i < conns.Length
      modifies conns
      ensures conns[..] == old(conns[..])[i := Acknowledged(old(conns[i]), now)]
    {
      if conns[i].retransmits == 0 {
        conns[i] := conns[i].(rtt := Sample(conns[i].rtt, Minus(now, conns[i].lastSend)));
      }
      conns[i] := conns[i].(pending := false);
    }

    /** The body of tcp_check_retransmits' loop. */
    method CheckOne(i: nat, now: U32)
      requires i < conns.Length
      modifies this`wire, conns
      ensures conns[..] == old(conns[..])[i := Checked(old(conns[i]), now).0]
      ensures wire == old(wire) + Checked(old(conns[i]), now).1
    {
      var c := conns[i];
      if c.state == Closed || !c.pending || Minus(now, c.lastSend) < c.currentRto {
        return;
      }
      if c.retransmits >= MAX_RETRANSMITS {
        conns[i] := c.(state := Closed, pending := false);
        return;
      }
      SendSegment(i, c.pendingFlags, c.pendingSeq, c.pendingData);
      var backoff := 2 * c.currentRto;
      if backoff > RTO_MAX {
        backoff := RTO_MAX;
      }
      conns[i] := c.(lastSend := now, retransmits := c.retransmits + 1, currentRto := backoff);
    }

    /** tcp_check_retransmits. */
    method CheckRetransmits(now: U32)
      requires Valid()
      modifies this`wire, conns
      ensures Valid() && State() == Step(old(State()), Timer, now)
      ensures wire == old(wire) + Wire(old(State()), Timer, now)
    {
      hide Checked, Inv, AllChecked;
      ghost var n := State();
      ghost var t, sent := n.conns, [];
      InvShaped(n);
      NoneChecked(t[..0], now);
      var i := 0;
      while i < conns.Length
        invariant 0 <= i <= conns.Length == |t| == MAX_CONNECTIONS && used == n.used
        invariant (conns[..i], sent) == AllChecked(t[..i], now) && conns[i..] == t[i..]
        invariant wire == old(wire) + sent
      {
        assert conns[i] == conns[i..][0] == t[i];
        AllCheckedMore(t, i, now);
        ghost var before := conns[..];
        CheckOne(i, now);
        UpdatedParts(before, t, i, Checked(t[i], now).0);
        sent := sent + Checked(t[i], now).1;
        i := i + 1;
      }
      assert t[..MAX_CONNECTIONS] == t && conns[..MAX_CONNECTIONS] == conns[..];
      assert State() == Step(n, Timer, now);
      StepKeeps(n, Timer, now);
    }

    /** The loop of tcp_receive that queues a segment's bytes. */
    method QueueBytes(i: nat, payload: seq<Byte>)
      requires i < conns.Length
      modifies conns
      ensures conns[..] == old(conns[..])[i := PushAll(old(conns[i]), payload)]
    {
      var k := 0;
      while k < |payload|
        invariant 0 <= k <= |payload| && conns[..] == old(conns[..])[i := conns[i]]
        invariant PushAll(conns[i], payload[k..]) == PushAll(old(conns[i]), payload)
      {
        var c := conns[i];
        var next := (c.rxHead + 1) % RX_SIZE;
        PushMore(c, payload, k);
        if next == c.rxTail {
          FullStays(c, payload[k..]);
          break;
        }
        conns[i] := c.(rx := c.rx[c.rxHead := payload[k]], rxHead := next);
        k := k + 1;
      }
    }

    /** A SYN on the slot it was given. */
    method HandleSyn(i: nat, s: Segment, now: U32)
      requires i < conns.Length
      modifies this`wire, conns
      ensures conns[..] == old(conns[..])[i := Opened(old(conns[i]), s, now).0]
      ensures wire == old(wire) + Opened(old(conns[i]), s, now).1
    {
      ghost var t := conns[..];
      conns[i] := conns[i].(peer := s.peer, mac := s.mac, theirSeq := Plus(s.seqNo, 1), ourSeq := INITIAL_SEQ);
      conns[i] := conns[i].(state := SynReceived, pending := false, retransmits := 0);
      conns[i] := conns[i].(rxHead := 0, rxTail := 0, rxClosed := false, accepted := false,
                            rtt := conns[i].rtt.(valid := false));
      hide Track, Emit, Plus;
      SendTracked(i, SYN_ACK, conns[i].ourSeq, [], now);
      conns[i] := conns[i].(ourSeq := Plus(conns[i].ourSeq, 1));
    }

    /** A segment on an established connection. */
    method HandleData(i: nat, s: Segment, now: U32)
      requires i < conns.Length && conns[i].state == Established
      modifies this`wire, conns
      ensures conns[..] == old(conns[..])[i := Handled(old(conns[i]), s, now).0]
      ensures wire == old(wire) + Handled(old(conns[i]), s, now).1
    {
      hide Emit, Plus, PushAll, Acknowledged;
      ghost var t, c := conns[..], conns[i];
      var n := |s.payload|;
      if n > 0 && s.seqNo != conns[i].theirSeq {
        return;
      }
      NothingPushed(c, s.payload);
      if n > 0 {
        conns[i] := conns[i].(theirSeq := Plus(conns[i].theirSeq, n));
        QueueBytes(i, s.payload);
      }
      ghost var c1 := PushAll(c.(theirSeq := Plus(c.theirSeq, n)), s.payload);
      PushAllRest(c.(theirSeq := Plus(c.theirSeq, n)), s.payload);
      assert conns[..] == t[i := c1];
      if s.flags.fin {
        conns[i] := conns[i].(theirSeq := Plus(conns[i].theirSeq, 1), rxClosed := true, state := CloseWait);
        SendSegment(i, ONLY_ACK, conns[i].ourSeq, []);
      } else if n > 0 {
        SendSegment(i, ONLY_ACK, conns[i].ourSeq, []);
      } else if conns[i].pending && s.flags.ack && s.ackNo == conns[i].ourSeq {
        RttSample(i, now);
      }
    }

    /** What is left of tcp_receive once the slot is known and the segment is no SYN. */
    method HandleSegment(i: nat, s: Segment, now: U32)
      requires i < conns.Length
      modifies this`wire, conns
      ensures conns[..] == old(conns[..])[i := Handled(old(conns[i]), s, now).0]
      ensures wire == old(wire) + Handled(old(conns[i]), s, now).1
    {
      hide PushAll, Acknowledged, Emit;
      if conns[i].state == SynReceived && s.flags.ack && !s.flags.syn {
        if s.ackNo == conns[i].ourSeq && s.seqNo == conns[i].theirSeq {
          conns[i] := conns[i].(state := Established);
          RttSample(i, now);
        }
        return;
      }
      if conns[i].state == Established {
        HandleData(i, s, now);
        return;
      }
      if (conns[i].state == LastAck || conns[i].state == CloseWait) && s.flags.ack && s.ackNo == conns[i].ourSeq {
        if conns[i].state == LastAck {
          conns[i] := conns[i].(state := Closed);
        }
        if conns[i].pending {
          RttSample(i, now);
        }
      }
    }

    /** tcp_receive. */
    method Receive(ip: nat, mac: nat, data: seq<Byte>, now: U32)
      requires Valid() && HeaderInside(data)
      modifies this, conns
      ensures Valid()
      ensures |data| < HEADER_LEN ==> State() == old(State()) && wire == old(wire)
      ensures |data| >= HEADER_LEN ==>
        && State() == Step(old(State()), Arrive(Parse(ip, mac, data)), now)
        && wire == old(wire) + Wire(old(State()), Arrive(Parse(ip, mac, data)), now)
    {
      if |data| < HEADER_LEN {
        return;
      }
      var s := Parse(ip, mac, data);
      hide Inv, Handled, Opened, Parse, FindSlot, FreeSlot;
      ghost var n := State();
      StepKeeps(n, Arrive(s), now);
      if s.port != TEST_PORT {
        return;
      }
      var i := FindConnection(s.peer);
      if i < conns.Length && s.flags.rst {
        conns[i] := conns[i].(state := Closed, pending := false);
        return;
      }
      if s.flags.syn && !s.flags.ack {
        if i == conns.Length {
          i := AllocConnection();
        }
        if i == conns.Length {
          return;
        }
        HandleSyn(i, s, now);
        used := used[i := 1];
        return;
      }
      if i == conns.Length {
        return;
      }
      HandleSegment(i, s, now);
    }

    /** One pass of tcp_socket_accept over the table; -1 when the caller has to wait. */
    method Accept(now: U32) returns (r: int)
      requires Valid()
      modifies conns
      ensures Valid() && State() == Step(old(State()), TcpTable.Accept, now)
      ensures r == if Claimable(old(conns[..])) == MAX_CONNECTIONS then -1 else Claimable(old(conns[..]))
      ensures r >= 0 ==> old(conns[..])[r].state == Established && !old(conns[..])[r].accepted && conns[..][r].accepted
    {
      ghost var n := State();
      StepKeeps(n, TcpTable.Accept, now);
      hide Inv;
      var i := 0;
      while i < conns.Length && !(conns[i].state == Established && !conns[i].accepted)
        invariant i <= conns.Length && Claimable(conns[..]) == i + Claimable(conns[i..])
      {
        assert conns[i..][1..] == conns[i + 1..];
        i := i + 1;
      }
      if i == conns.Length {
        return -1;
      }
      conns[i] := conns[i].(accepted := true);
      return i;
    }

    /** tcp_socket_recv once its wait is over: it takes bytes from the ring until the ring is
        empty or the caller's buffer is full. */
    method Recv(sockfd: int, buf: array<Byte>, maxLen: nat, now: U32) returns (r: int)
      requires Valid() && maxLen <= buf.Length
      modifies conns, buf
      ensures Valid()
      ensures !(0 <= sockfd < MAX_CONNECTIONS) ==> r == -1 && State() == old(State()) && buf[..] == old(buf[..])
      ensures 0 <= sockfd < MAX_CONNECTIONS ==>
        var q := Queue(old(conns[..])[sockfd]);
        && r == (if |q| < maxLen then |q| else maxLen) && buf[..r] == q[..r] && buf[r..] == old(buf[r..])
        && State() == Step(old(State()), TcpTable.Recv(sockfd, r), now)
        && Queue(conns[..][sockfd]) == q[r..]
    {
      ghost var n := State();
      assert Shaped(n);
      hide Inv, Queue, Taken;
      if !(0 <= sockfd < conns.Length) {
        return -1;
      }
      r := DrainRing(sockfd, buf, maxLen);
      TakenQueue(n.conns[sockfd], r);
      StepKeeps(n, TcpTable.Recv(sockfd, r), now);
    }

    /** tcp_socket_recv's copy loop. */
    method DrainRing(i: nat, buf: array<Byte>, maxLen: nat) returns (count: nat)
      requires i < conns.Length && maxLen <= buf.Length
      modifies conns, buf
      ensures var q := Queue(old(conns[i]));
              && count == (if |q| < maxLen then |q| else maxLen) && buf[..count] == q[..count]
              && buf[count..] == old(buf[count..])
              && conns[..] == old(conns[..])[i := Taken(old(conns[i]), count)]
    {
      hide Queue, Taken;
      ghost var c, t, before := conns[i], conns[..], buf[..];
      ghost var q := Queue(c);
      count := 0;
      TakeNothing(c);
      while conns[i].rxHead != conns[i].rxTail && count < maxLen
        invariant 0 <= count <= maxLen && count <= |q|
        invariant conns[..] == t[i := Taken(c, count)]
        invariant buf[..count] == q[..count] && buf[count..] == before[count..]
        decreases maxLen - count
      {
        assert conns[i] == Taken(c, count);
        TakeOne(c, count);
        ghost var filled := buf[..];
        buf[count] := conns[i].rx[conns[i].rxTail];
        OneMoreByte(filled, buf[..], before, q, count);
        conns[i] := conns[i].(rxTail := (conns[i].rxTail + 1) % RX_SIZE);
        count := count + 1;
      }
      if conns[i].rxHead == conns[i].rxTail {
        TakeAll(c, count);
      }
    }

    /** tcp_socket_send. */
    method Send(sockfd: int, data: seq<Byte>, now: U32) returns (r: int)
      requires Valid()
      modifies this, conns
      ensures Valid()
      ensures 0 <= sockfd < MAX_CONNECTIONS && CanSend(old(conns[..])[sockfd]) ==>
        && State() == Step(old(State()), TcpTable.Send(sockfd, data), now)
        && wire == old(wire) + Wire(old(State()), TcpTable.Send(sockfd, data), now)
        && r == (if |data| > SEGMENT_MAX then SEGMENT_MAX else |data|)
        && wire[|wire| - 1].payload <= data && (|wire[|wire| - 1].payload| == r <==> |data| <= CARRIED_MAX)
      ensures !(0 <= sockfd < MAX_CONNECTIONS && CanSend(old(conns[..])[sockfd])) ==>
        r == -1 && State() == old(State()) && wire == old(wire)
    {
      hide Inv, Track, Emit, Plus;
      ghost var n := State();
      InvShaped(n);
      if !(0 <= sockfd < conns.Length) {
        return -1;
      }
      if conns[sockfd].state != Established && conns[sockfd].state != CloseWait {
        return -1;
      }
      StepKeeps(n, TcpTable.Send(sockfd, data), now);
      var len := |data|;
      if len > SEGMENT_MAX {
        len := SEGMENT_MAX;
      }
      TrackKeeps(conns[sockfd], PSH_ACK, conns[sockfd].ourSeq, data[..len], now);
      SendTracked(sockfd, PSH_ACK, conns[sockfd].ourSeq, data[..len], now);
      conns[sockfd] := conns[sockfd].(ourSeq := Plus(conns[sockfd].ourSeq, len));
      used := used[sockfd := used[sockfd] + len];
      assert |data| <= SEGMENT_MAX ==> data[..len] == data;
      assert State() == Step(n, TcpTable.Send(sockfd, data), now);
      Reported(n.conns[sockfd], data, now);
      return len;
    }

    /** tcp_socket_close. */
    method Close(sockfd: int, now: U32) returns (r: int)
      requires Valid()
      modifies this, conns
      ensures Valid()
      ensures 0 <= sockfd < MAX_CONNECTIONS && CanSend(old(conns[..])[sockfd]) ==>
        r == 0 && State() == Step(old(State()), Finish(sockfd), now)
          && wire == old(wire) + Wire(old(State()), Finish(sockfd), now)
      ensures !(0 <= sockfd < MAX_CONNECTIONS && CanSend(old(conns[..])[sockfd])) ==>
        r == -1 && State() == old(State()) && wire == old(wire)
    {
      ghost var n := State();
      assert Shaped(n);
      if !(0 <= sockfd < conns.Length) {
        return -1;
      }
      if conns[sockfd].state != Established && conns[sockfd].state != CloseWait {
        return -1;
      }
      hide Inv, Track, Emit, Plus;
      StepKeeps(n, Finish(sockfd), now);
      SendTracked(sockfd, FIN_ACK, conns[sockfd].ourSeq, [], now);
      conns[sockfd] := conns[sockfd].(ourSeq := Plus(conns[sockfd].ourSeq, 1), state := LastAck);
      used := used[sockfd := used[sockfd] + 1];
      return 0;
    }
  }

  lemma OneMoreByte(b: seq<Byte>, b2: seq<Byte>, before: seq<Byte>, q: seq<Byte>, n: nat)
    requires n < |b| == |before| && n < |q| && b2 == b[n := q[n]] && b[..n] == q[..n] && b[n..] == before[n..]
    ensures b2[..n + 1] == q[..n + 1] && b2[n + 1..] == before[n + 1..]
  {
    assert b2[..n + 1] == b[..n] + [q[n]] && q[..n + 1] == q[..n] + [q[n]];
    assert b2[n + 1..] == b[n..][1..] && before[n + 1..] == before[n..][1..];
  }

  lemma TakeNothing(c: Conn)
    ensures Taken(c, 0) == c
  {
  }

  lemma TakeOne(c: Conn, n: nat)
    requires n <= |Queue(c)| && Taken(c, n).rxHead != Taken(c, n).rxTail
    ensures n < |Queue(c)| && Taken(c, n).rx[Taken(c, n).rxTail] == Queue(c)[n]
    ensures Taken(c, n + 1) == Taken(c, n).(rxTail := (Taken(c, n).rxTail + 1) % RX_SIZE)
  {
    TakenQueue(c, n);
    var d := Taken(c, n);
    assert Queue(d) != [] && Queue(d)[0] == d.rx[d.rxTail];
    assert Queue(c)[n..][0] == Queue(c)[n];
  }

  lemma TakeAll(c: Conn, n: nat)
    requires n <= |Queue(c)| && Taken(c, n).rxHead == Taken(c, n).rxTail
    ensures n == |Queue(c)|
  {
    TakenQueue(c, n);
    assert Queue(Taken(c, n)) == [];
  }

  lemma PushMore(c: Conn, bs: seq<Byte>, k: nat)
    requires k < |bs|
    ensures PushAll(c, bs[k..]) == PushAll(Push(c, bs[k]), bs[k + 1..])
  {
    assert bs[k..][1..] == bs[k + 1..];
  }

  lemma {:induction false} FullStays(c: Conn, bs: seq<Byte>)
    requires RingFull(c)
    ensures PushAll(c, bs) == c
    decreases |bs|
  {
    if bs != [] {
      FullStays(c, bs[1..]);
    }
  }

  lemma NothingPushed(c: Conn, bs: seq<Byte>)
    ensures bs == [] ==> PushAll(c.(theirSeq := Plus(c.theirSeq, |bs|)), bs) == c
  {
  }

  lemma UpdatedParts(s: seq<Conn>, t: seq<Conn>, i: nat, c: Conn)
    requires i < |s| == |t| && s[i..] == t[i..]
    ensures s[i := c][..i + 1] == s[..i] + [c] && s[i := c][i + 1..] == t[i + 1..]
  {
    assert s[i + 1..] == s[i..][1..] && t[i + 1..] == t[i..][1..];
  }

  lemma AllCheckedMore(t: seq<Conn>, i: nat, now: U32)
    requires i < |t|
    ensures AllChecked(t[..i + 1], now)
      == (AllChecked(t[..i], now).0 + [Checked(t[i], now).0], AllChecked(t[..i], now).1 + Checked(t[i], now).1)
  {
    hide Checked;
    assert t[..i + 1][..i] == t[..i];
  }
}
