/**
  The receive ring shared by tcp_receive, which runs in interrupts, and tcp_socket_recv,
  which they can interrupt anywhere.  Each side is cut into its single reads and writes of
  the shared fields, and the two run in every order, for the life of one connection.
*/
module TcpRing {
  import opened Common

  const SIZE := 512

  type Index = i: int | 0 <= i < SIZE

  /** Where tcp_receive is: between segments, about to look for room for the next of the
      bytes left, or about to move the head past the byte it has just stored. */
  datatype Producer = Between | Feeding(left: seq<Byte>) | Stored(left: seq<Byte>)

  /** Where tcp_socket_recv is: not called, about to look at the ring, about to look whether
      the connection has ended, about to look for the next byte, about to move the tail past
      the byte it has just copied, or returning. */
  datatype Consumer = Away | Looking | SawEmpty | Draining(count: nat) | Copied(count: nat, b: Byte) |
    Returning(count: nat)

  /** The shared fields and both sides, with the history: the payload bytes accepted in
      order, which of them entered the ring, and the bytes handed to the caller. */
  datatype Ring = Ring(
    buf: seq<Byte>, head: Index, tail: Index, ended: bool, producer: Producer, consumer: Consumer,
    accepted: seq<Byte>, entered: seq<nat>, delivered: seq<Byte>, overflowed: bool)

  datatype Action = Segment(bytes: seq<Byte>) | Feed | Publish | End | Call | Look | LookEnded | Drain(max: nat) |
    Advance | Return

  function Next(i: Index): (r: Index)
    ensures r == if i == SIZE - 1 then 0 else i + 1
  {
    (i + 1) % SIZE
  }

  /** The bytes waiting in the ring, oldest first. */
  function Queue(buf: seq<Byte>, head: Index, tail: Index): (q: seq<Byte>)
    requires |buf| == SIZE
    ensures |q| < SIZE
  {
    if tail <= head then buf[tail..head] else buf[tail..] + buf[..head]
  }

  /** One atomic step; an action that its side is not ready for does nothing.  The caller of
      recv asks for max bytes, at least one. */
  function Do(r: Ring, a: Action): (s: Ring)
    requires |r.buf| == SIZE
    ensures |s.buf| == SIZE
  {
    match a
    case Segment(bytes) =>
      if r.producer.Between? && !r.ended then r.(producer := Feeding(bytes), accepted := r.accepted + bytes) else r
    case Feed =>
      if !r.producer.Feeding? then r
      else if r.producer.left == [] then r.(producer := Between)
      else if Next(r.head) == r.tail then r.(producer := Between, overflowed := true)
      else r.(buf := r.buf[r.head := r.producer.left[0]], producer := Stored(r.producer.left[1..]))
    case Publish =>
      if !r.producer.Stored? || |r.accepted| <= |r.producer.left| then r
      else r.(head := Next(r.head), producer := Feeding(r.producer.left),
              entered := r.entered + [|r.accepted| - |r.producer.left| - 1])
    case End => if r.producer.Between? then r.(ended := true) else r
    case Call => if r.consumer.Away? then r.(consumer := Looking) else r
    case Look => if r.consumer.Looking? then r.(consumer := if r.head != r.tail then Draining(0) else SawEmpty) else r
    case LookEnded => if r.consumer.SawEmpty? then r.(consumer := if r.ended then Draining(0) else Looking) else r
    case Drain(max) =>
      if !r.consumer.Draining? || max == 0 then r
      else if r.head != r.tail && r.consumer.count < max then r.(consumer := Copied(r.consumer.count, r.buf[r.tail]))
      else r.(consumer := Returning(r.consumer.count))
    case Advance =>
      if r.consumer.Copied? then
        r.(tail := Next(r.tail), consumer := Draining(r.consumer.count + 1), delivered := r.delivered + [r.consumer.b])
      else r
    case Return => if r.consumer.Returning? then r.(consumer := Away) else r
  }

  // -------------------------------------------------------------------------- invariant

  /** The bytes that have entered the ring so far. */
  function Bytes(r: Ring): (s: seq<Byte>)
    requires forall k :: 0 <= k < |r.entered| ==> r.entered[k] < |r.accepted|
  {
    seq(|r.entered|, k requires 0 <= k < |r.entered| => r.accepted[r.entered[k]])
  }

  /** The accepted bytes of which it is decided whether they enter the ring. */
  function Decided(r: Ring): int {
    match r.producer
    case Between => |r.accepted|
    case Feeding(left) => |r.accepted| - |left|
    case Stored(left) => |r.accepted| - |left| - 1
  }

  predicate InOrder(r: Ring) {
    && 0 <= Decided(r) <= |r.accepted|
    && (forall k :: 0 <= k < |r.entered| ==> r.entered[k] < Decided(r))
    && (forall k, l :: 0 <= k < l < |r.entered| ==> r.entered[k] < r.entered[l])
    && (!r.overflowed ==> |r.entered| == Decided(r) && forall k :: 0 <= k < |r.entered| ==> r.entered[k] == k)
  }

  predicate ProducerOk(r: Ring)
    requires |r.buf| == SIZE && 0 <= Decided(r) <= |r.accepted|
  {
    match r.producer
    case Between => true
    case Feeding(left) => left == r.accepted[Decided(r)..]
    case Stored(left) => r.accepted[Decided(r)..] == [r.buf[r.head]] + left && Next(r.head) != r.tail
  }

  predicate ConsumerOk(r: Ring)
    requires |r.buf| == SIZE
  {
    match r.consumer
    case Draining(count) => count > 0 || r.ended || r.head != r.tail
    case Copied(_, b) => r.head != r.tail && b == r.buf[r.tail]
    case Returning(count) => count > 0 || (r.ended && r.head == r.tail)
    case _ => true
  }

  predicate Inv(r: Ring) {
    && |r.buf| == SIZE && InOrder(r) && ProducerOk(r) && ConsumerOk(r)
    && (r.ended ==> r.producer.Between?)
    && Bytes(r) == r.delivered + Queue(r.buf, r.head, r.tail)
  }

  // ----------------------------------------------------------------------------- proofs

  lemma QueueEmpty(buf: seq<Byte>, head: Index, tail: Index)
    requires |buf| == SIZE
    ensures head == tail <==> Queue(buf, head, tail) == []
    ensures Next(head) == tail <==> |Queue(buf, head, tail)| == SIZE - 1
  {
  }

  lemma QueueFirst(buf: seq<Byte>, head: Index, tail: Index)
    requires |buf| == SIZE && head != tail
    ensures Queue(buf, head, tail) == [buf[tail]] + Queue(buf, head, Next(tail))
  {
  }

  lemma StoreKeeps(buf: seq<Byte>, head: Index, tail: Index, b: Byte)
    requires |buf| == SIZE && Next(head) != tail
    ensures Queue(buf[head := b], head, tail) == Queue(buf, head, tail)
    ensures Queue(buf[head := b], Next(head), tail) == Queue(buf, head, tail) + [b]
    ensures head != tail ==> buf[head := b][tail] == buf[tail]
  {
  }

  lemma PublishKeeps(buf: seq<Byte>, head: Index, tail: Index)
    requires |buf| == SIZE && Next(head) != tail
    ensures Queue(buf, Next(head), tail) == Queue(buf, head, tail) + [buf[head]]
    ensures Next(head) != tail
  {
    StoreKeeps(buf, head, tail, buf[head]);
    assert buf[head := buf[head]] == buf;
  }

  lemma SameBytes(r: Ring, s: Ring)
    requires InOrder(r) && s.entered == r.entered && r.accepted <= s.accepted
    ensures (forall k :: 0 <= k < |s.entered| ==> s.entered[k] < |s.accepted|) && Bytes(s) == Bytes(r)
  {
  }

  lemma FeedInOrder(r: Ring)
    requires |r.buf| == SIZE && InOrder(r)
    ensures InOrder(Do(r, Feed))
  {
    hide Next;
  }

  lemma FeedKeeps(r: Ring)
    requires Inv(r)
    ensures Inv(Do(r, Feed))
  {
    hide Queue, Bytes, Next, InOrder;
    var s := Do(r, Feed);
    FeedInOrder(r);
    SameBytes(r, s);
    if r.producer.Feeding? && r.producer.left != [] && Next(r.head) != r.tail {
      StoreKeeps(r.buf, r.head, r.tail, r.producer.left[0]);
    }
  }

  lemma EnterByte(r: Ring, s: Ring, at: nat)
    requires InOrder(r) && s.accepted == r.accepted && at < |r.accepted| && s.entered == r.entered + [at]
    ensures (forall k :: 0 <= k < |s.entered| ==> s.entered[k] < |s.accepted|)
    ensures Bytes(s) == Bytes(r) + [r.accepted[at]]
  {
  }

  lemma PublishStep(r: Ring)
    requires Inv(r)
    ensures Inv(Do(r, Publish))
  {
    hide Queue, Bytes, Next;
    var s := Do(r, Publish);
    if r.producer.Stored? {
      var b, q, rest := r.buf[r.head], Queue(r.buf, r.head, r.tail), r.accepted[Decided(r)..];
      PublishKeeps(r.buf, r.head, r.tail);
      assert r.accepted[Decided(r)] == rest[0] == b && r.producer.left == rest[1..];
      assert rest[1..] == r.accepted[Decided(r) + 1..];
      EnterByte(r, s, Decided(r));
      assert (r.delivered + q) + [b] == r.delivered + (q + [b]);
    }
  }

  lemma StillRoom(head: Index, tail: Index)
    requires head != tail
    ensures Next(head) != Next(tail)
  {
  }

  lemma AdvanceStep(r: Ring)
    requires Inv(r)
    ensures Inv(Do(r, Advance))
  {
    hide Queue, Bytes, Next;
    var s := Do(r, Advance);
    SameBytes(r, s);
    if r.consumer.Copied? {
      QueueFirst(r.buf, r.head, r.tail);
      assert r.delivered + ([r.consumer.b] + Queue(r.buf, r.head, s.tail))
        == (r.delivered + [r.consumer.b]) + Queue(r.buf, r.head, s.tail);
      StillRoom(r.head, r.tail);
    }
  }

  lemma SegmentStep(r: Ring, bytes: seq<Byte>)
    requires Inv(r)
    ensures Inv(Do(r, Segment(bytes)))
  {
    var s := Do(r, Segment(bytes));
    SameBytes(r, s);
    hide Queue, Bytes;
  }

  /** The steps that only look, or only end the connection. */
  lemma LookStep(r: Ring, a: Action)
    requires Inv(r) && (a.End? || a.Call? || a.Look? || a.LookEnded? || a.Drain? || a.Return?)
    ensures Inv(Do(r, a))
  {
    hide Queue, Bytes, Next, InOrder;
    InOrderSame(r, Do(r, a));
    SameBytes(r, Do(r, a));
  }

  lemma InOrderSame(r: Ring, s: Ring)
    requires InOrder(r) && s.entered == r.entered && s.accepted == r.accepted && s.overflowed == r.overflowed
    requires s.producer == r.producer
    ensures InOrder(s)
  {
  }

  lemma StepKeeps(r: Ring, a: Action)
    requires Inv(r)
    ensures Inv(Do(r, a))
  {
    hide Inv, Do;
    match a
    case Segment(bytes) => SegmentStep(r, bytes);
    case Feed => FeedKeeps(r);
    case Publish => PublishStep(r);
    case Advance => AdvanceStep(r);
    case _ => LookStep(r, a);
  }

  /** A connection's ring when it is opened. */
  function Fresh(buf: seq<Byte>): Ring {
    Ring(buf, 0, 0, false, Between, Away, [], [], [], false)
  }

  function After(r: Ring, acts: seq<Action>): (s: Ring)
    requires |r.buf| == SIZE
    ensures |s.buf| == SIZE
  {
    if acts == [] then r else Do(After(r, acts[..|acts| - 1]), acts[|acts| - 1])
  }

  lemma {:induction false} AlwaysInv(buf: seq<Byte>, acts: seq<Action>)
    requires |buf| == SIZE
    ensures Inv(After(Fresh(buf), acts))
    decreases |acts|
  {
    if acts != [] {
      hide Inv, Do;
      AlwaysInv(buf, acts[..|acts| - 1]);
      StepKeeps(After(Fresh(buf), acts[..|acts| - 1]), acts[|acts| - 1]);
    }
  }

  /** Under every interleaving: the bytes delivered and the bytes queued are, in this order,
      accepted bytes at increasing positions; until the ring first overflows they are all the
      accepted bytes but those still being stored; and recv returns nothing only when the
      ring is drained and the connection has ended. */
  lemma Delivers(buf: seq<Byte>, acts: seq<Action>)
    requires |buf| == SIZE
    ensures var r := After(Fresh(buf), acts);
            var out := r.delivered + Queue(r.buf, r.head, r.tail);
            && |out| == |r.entered|
            && (forall k :: 0 <= k < |out| ==> r.entered[k] < |r.accepted| && out[k] == r.accepted[r.entered[k]])
            && (forall k, l :: 0 <= k < l < |out| ==> r.entered[k] < r.entered[l])
            && (!r.overflowed ==> 0 <= Decided(r) <= |r.accepted| && out == r.accepted[..Decided(r)])
            && (r.consumer.Returning? && r.consumer.count == 0 ==>
                  r.ended && Queue(r.buf, r.head, r.tail) == [] && (!r.overflowed ==> r.delivered == r.accepted))
  {
    hide After, Queue, ProducerOk, Next;
    AlwaysInv(buf, acts);
    var r := After(Fresh(buf), acts);
    QueueEmpty(r.buf, r.head, r.tail);
    if !r.overflowed {
      assert Bytes(r) == r.accepted[..Decided(r)];
    }
  }

  /** The ring overflows only when it holds 511 bytes. */
  lemma OverflowsFull(r: Ring, a: Action)
    requires |r.buf| == SIZE && !r.overflowed && Do(r, a).overflowed
    ensures |Queue(r.buf, r.head, r.tail)| == SIZE - 1
  {
    hide Queue;
    QueueEmpty(r.buf, r.head, r.tail);
  }
}
