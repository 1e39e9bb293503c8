/**
  What is in flight on a connection: the sequence numbers sent and not yet acknowledged, and how
  much of them the one tracked segment can send again.
*/
module TcpFlight {
  import opened Common
  import TcpRtt
  import opened Tcp
  import opened TcpTable

  /** The call sends something on slot i. */
  predicate SendsOn(n: Net, e: Event, i: nat)
    requires Shaped(n) && i < MAX_CONNECTIONS
  {
    ((e.Send? && e.i == i) || (e.Finish? && e.i == i)) && CanSend(n.conns[i])
  }

  predicate OpensOn(n: Net, e: Event, i: nat) {
    e.Arrive? && Opens(n.conns, e.s) && SlotFor(n.conns, e.s) == i
  }

  /** The tracked segment is the same, or there is none any more. */
  predicate SameTrack(c: Conn, c2: Conn) {
    c2.pending ==> c.pending && c2.pendingData == c.pendingData && c2.pendingFlags == c.pendingFlags
  }

  lemma HandledTracks(c: Conn, s: Segment, now: U32)
    ensures SameTrack(c, Handled(c, s, now).0)
  {
    PushAllRest(c.(theirSeq := Plus(c.theirSeq, |s.payload|)), s.payload);
    hide TcpRtt.Sample, Plus, PushAll, Minus;
  }

  lemma ArriveTracks(n: Net, s: Segment, now: U32, i: nat)
    requires Shaped(n) && i < MAX_CONNECTIONS && !OpensOn(n, Arrive(s), i)
    ensures var r := Step(n, Arrive(s), now); SameTrack(n.conns[i], r.conns[i]) && r.used[i] == n.used[i]
  {
    hide Opened, Handled, SlotFor;
    HandledTracks(n.conns[i], s, now);
  }

  /** A call sends on the slot, opens it, or leaves its tracked segment alone or clears it. */
  lemma StepTracks(n: Net, e: Event, now: U32, i: nat)
    requires Shaped(n) && i < MAX_CONNECTIONS
    ensures var c, r := n.conns[i], Step(n, e, now);
            var c2 := r.conns[i];
            && (SendsOn(n, e, i) ==> c2.pending && r.used[i] == n.used[i] + Space(c2))
            && (OpensOn(n, e, i) ==> c2.pending && Space(c2) == r.used[i] == 1)
            && (!SendsOn(n, e, i) && !OpensOn(n, e, i) ==> SameTrack(c, c2) && r.used[i] == n.used[i])
  {
    hide Received, Checked, Claimable, Queue;
    match e
    case Arrive(s) =>
      if OpensOn(n, e, i) { OpensTracks(n, s, now, i); } else { ArriveTracks(n, s, now, i); }
    case Timer => CheckedTracks(n.conns, now, i);
    case _ =>
  }

  lemma OpensTracks(n: Net, s: Segment, now: U32, i: nat)
    requires Shaped(n) && i < MAX_CONNECTIONS && OpensOn(n, Arrive(s), i)
    ensures var r := Step(n, Arrive(s), now); r.conns[i].pending && Space(r.conns[i]) == r.used[i] == 1
  {
    hide SlotFor, Plus;
  }

  lemma CheckedTracks(t: seq<Conn>, now: U32, i: nat)
    requires i < |t|
    ensures |AllChecked(t, now).0| == |t| && SameTrack(t[i], AllChecked(t, now).0[i])
  {
    hide Minus;
  }

  // -------------------------------------------------------------------- over whole runs

  /** Of the sequence numbers that slot i has used, those below this mark were acknowledged, or
      given up, when the slot last had nothing in flight. */
  function Floor(es: seq<(Event, U32)>, i: nat): (f: nat)
    requires i < MAX_CONNECTIONS
  {
    if es == [] then 0
    else
      var n := |es| - 1;
      if !After(Boot(), es).conns[i].pending then After(Boot(), es).used[i]
      else if OpensOn(After(Boot(), es[..n]), es[n].0, i) then 0
      else Floor(es[..n], i)
  }

  /** Since then a send or close replaced a tracked segment that was still in flight. */
  predicate Overwritten(es: seq<(Event, U32)>, i: nat)
    requires i < MAX_CONNECTIONS
  {
    if es == [] then false
    else
      var n := |es| - 1;
      var before := After(Boot(), es[..n]);
      if !After(Boot(), es).conns[i].pending || OpensOn(before, es[n].0, i) then false
      else
        || Overwritten(es[..n], i)
        || (SendsOn(before, es[n].0, i) && before.conns[i].pending && Space(before.conns[i]) > 0)
  }

  /** Over every run: the tracked segment is everything in flight if and only if no send or close
      came while an earlier segment was in flight; otherwise it is less, and the rest can never be
      sent again. */
  lemma {:induction false} OneInFlight(es: seq<(Event, U32)>, i: nat)
    requires i < MAX_CONNECTIONS
    ensures var n := After(Boot(), es);
            && Floor(es, i) <= n.used[i]
            && (n.conns[i].pending ==>
                  && Space(n.conns[i]) <= n.used[i] - Floor(es, i)
                  && (Space(n.conns[i]) == n.used[i] - Floor(es, i) <==> !Overwritten(es, i)))
    decreases |es|
  {
    hide Step, Space, SendsOn, OpensOn;
    if es == [] {
      assert After(Boot(), es).conns[i] == BLANK;
    } else {
      var k := |es| - 1;
      var before := After(Boot(), es[..k]);
      OneInFlight(es[..k], i);
      StepTracks(before, es[k].0, es[k].1, i);
      SameSpace(before.conns[i], After(Boot(), es).conns[i]);
      OnlyOne(before, es[k].0, i);
      if !before.conns[i].pending { SettledFloor(es[..k], i); }
    }
  }

  lemma OnlyOne(n: Net, e: Event, i: nat)
    requires Shaped(n) && i < MAX_CONNECTIONS
    ensures !(SendsOn(n, e, i) && OpensOn(n, e, i))
  {
  }

  lemma SameSpace(c: Conn, c2: Conn)
    ensures SameTrack(c, c2) && c2.pending ==> Space(c2) == Space(c)
  {
  }

  /** With nothing in flight the mark is at the end. */
  lemma SettledFloor(es: seq<(Event, U32)>, i: nat)
    requires i < MAX_CONNECTIONS && !After(Boot(), es).conns[i].pending
    ensures Floor(es, i) == After(Boot(), es).used[i] && !Overwritten(es, i)
  {
    hide Step;
    if es == [] {
      assert After(Boot(), es).used[i] == 0;
    }
  }

  // -------------------------------------------------------------------------- two sends

  lemma AfterMore(es: seq<(Event, U32)>, e: Event, now: U32)
    ensures var more := es + [(e, now)];
            more[..|more| - 1] == es && After(Boot(), more) == Step(After(Boot(), es), e, now)
  {
    hide Step;
    assert (es + [(e, now)])[..|es|] == es;
  }

  /** After any run, two sends in a row on a connection that can send: only the second is tracked,
      and a timeout sends only its bytes again. */
  lemma TwoSends(es: seq<(Event, U32)>, i: nat, a: seq<Byte>, b: seq<Byte>, t1: U32, t2: U32, t3: U32)
    requires i < MAX_CONNECTIONS && CanSend(After(Boot(), es).conns[i]) && a != [] && |b| <= CARRIED_MAX
    ensures var es2 := es + [(Send(i, a), t1)] + [(Send(i, b), t2)];
            var c := After(Boot(), es2).conns[i];
            && c.pending && Overwritten(es2, i) && c.pendingData == b
            && (Checked(c, t3).1 == [] || (|Checked(c, t3).1| == 1 && Checked(c, t3).1[0].payload == b))
  {
    var n := After(Boot(), es);
    var es1 := es + [(Send(i, a), t1)];
    AfterMore(es, Send(i, a), t1);
    AfterMore(es1, Send(i, b), t2);
    hide Plus, Minus, Floor, After;
    assert CanSend(After(Boot(), es1).conns[i]) && After(Boot(), es1).conns[i].pending;
    assert SendsOn(After(Boot(), es1), Send(i, b), i) && !OpensOn(After(Boot(), es1), Send(i, b), i);
  }

  /** Such a connection exists: after a SYN and the ACK that answers ours, slot 0 can send. */
  lemma CanSendSoon(client: Peer, mac: nat, now: U32)
    ensures var none := Flags(false, false, false, false, false);
            var syn := Tcp.Segment(client, mac, TEST_PORT, 0, 0, none.(syn := true), []);
            var ack := Tcp.Segment(client, mac, TEST_PORT, 1, INITIAL_SEQ + 1, none.(ack := true), []);
            CanSend(After(Boot(), [(Arrive(syn), now)] + [(Arrive(ack), now)]).conns[0])
  {
    var none := Flags(false, false, false, false, false);
    var syn := Tcp.Segment(client, mac, TEST_PORT, 0, 0, none.(syn := true), []);
    var ack := Tcp.Segment(client, mac, TEST_PORT, 1, INITIAL_SEQ + 1, none.(ack := true), []);
    AfterMore([], Arrive(syn), now);
    assert [] + [(Arrive(syn), now)] == [(Arrive(syn), now)];
    AfterMore([(Arrive(syn), now)], Arrive(ack), now);
    assert After(Boot(), []) == Boot();
    var n := Step(Boot(), Arrive(syn), now);
    assert FindSlot(Boot().conns, client) == |Boot().conns| by {
      FirstFree(Boot().conns, client);
    }
    assert n.conns[0].state == SynReceived && n.conns[0].peer == client && n.conns[0].ourSeq == INITIAL_SEQ + 1
        && n.conns[0].theirSeq == 1;
    assert FindSlot(n.conns, client) == 0;
  }

  lemma FirstFree(t: seq<Conn>, peer: Peer)
    requires |t| > 0 && forall k :: 0 <= k < |t| ==> t[k].state == Closed
    ensures FindSlot(t, peer) == |t| && FreeSlot(t) == 0
  {
  }
}
