/**
  The retransmission timeout estimator of the TCP layer: scaled 32-bit integers, compared
  with the exact SRTT and RTTVAR of section 2 of RFC 6298.
*/
module TcpRtt {
  import opened Common

  const RTO_INITIAL := 50
  const RTO_MIN := 2
  const RTO_MAX := 200
  const SAMPLE_LIMIT := 0x1000_0000

  /** A 32-bit word, and the signed integer it holds. */
  function Word(x: int): (r: nat)
    ensures r < TWO_32
  {
    x % TWO_32
  }

  function Signed(w: nat): (x: int)
    requires w < TWO_32
    ensures -TWO_31 <= x < TWO_31 && (x - w) % TWO_32 == 0
  {
    if w < TWO_31 then w else w - TWO_32
  }

  /** srtt is kept times 8, rttvar times 4, rto in ticks. */
  datatype Rtt = Rtt(srtt: nat, rttvar: nat, rto: nat, valid: bool)

  predicate Fits(e: Rtt) {
    e.srtt < TWO_32 && e.rttvar < TWO_32
  }

  function Clamp(x: nat): (r: nat)
    ensures RTO_MIN <= r <= RTO_MAX
  {
    if x < RTO_MIN then RTO_MIN else if x > RTO_MAX then RTO_MAX else x
  }

  function Abs(x: int): nat {
    if x < 0 then -x else x
  }

  /** One sample of tcp_rtt_sample, in the machine's arithmetic. */
  function Sample(e: Rtt, ticks: nat): (r: Rtt)
    requires Fits(e) && ticks < TWO_32
    ensures Fits(r) && r.valid && RTO_MIN <= r.rto <= RTO_MAX
  {
    var measured := if ticks == 0 then 1 else ticks;
    var (s, v) :=
      if !e.valid then (Word(8 * measured), Word(2 * measured))
      else
        var delta := Signed(measured) - e.srtt / 8;
        (Word(Signed(e.srtt) + delta), Word(Signed(e.rttvar) + (Abs(delta) - e.rttvar / 4)));
    Rtt(s, v, Clamp(Word(s / 8 + v)), true)
  }

  // --------------------------------------------------------------------- the exact values

  datatype Exact = Exact(srtt: real, rttvar: real)

  function AbsReal(x: real): real {
    if x < 0.0 then -x else x
  }

  /** Section 2 of RFC 6298, with alpha = 1/8 and beta = 1/4. */
  function ExactNext(x: Exact, r: real): Exact {
    Exact(7.0 * x.srtt / 8.0 + r / 8.0, 3.0 * x.rttvar / 4.0 + AbsReal(x.srtt - r) / 4.0)
  }

  /** The estimators after a non-empty sequence of samples. */
  function ExactAfter(samples: seq<nat>): Exact
    requires samples != []
  {
    var n := |samples| - 1;
    if n == 0 then Exact(samples[0] as real, samples[0] as real / 2.0)
    else ExactNext(ExactAfter(samples[..n]), samples[n] as real)
  }

  function After(e: Rtt, samples: seq<nat>): (r: Rtt)
    requires Fits(e) && forall k :: 0 <= k < |samples| ==> samples[k] < TWO_32
    ensures Fits(r) && (samples != [] ==> r.valid && RTO_MIN <= r.rto <= RTO_MAX)
  {
    if samples == [] then e else Sample(After(e, samples[..|samples| - 1]), samples[|samples| - 1])
  }

  // ----------------------------------------------------------------------------- bounds

  /** The exact values lie within these distances of the scaled ones. */
  predicate Near(e: Rtt, x: Exact) {
    && 0.0 <= e.srtt as real - 8.0 * x.srtt <= 7.0
    && -3.5 <= e.rttvar as real - 4.0 * x.rttvar <= 6.5
  }

  /** No sample reaches the limit, so nothing wraps. */
  predicate Small(e: Rtt) {
    e.srtt <= 8 * (SAMPLE_LIMIT - 1) && e.rttvar <= 4 * (SAMPLE_LIMIT - 1)
  }

  /** The value that becomes the timeout, before it is clamped. */
  function Raw(e: Rtt): nat {
    e.srtt / 8 + e.rttvar
  }

  lemma PlainSample(e: Rtt, m: nat)
    requires e.valid && Small(e) && 1 <= m < SAMPLE_LIMIT
    ensures Fits(e) && Small(Sample(e, m))
    ensures var r := Sample(e, m);
            && r.srtt == e.srtt - e.srtt / 8 + m
            && r.rttvar == e.rttvar - e.rttvar / 4 + Abs(m - e.srtt / 8)
            && r.rto == Clamp(Raw(r))
  {
    WordOf(e.srtt - e.srtt / 8 + m);
    WordOf(e.rttvar - e.rttvar / 4 + Abs(m - e.srtt / 8));
    var r := Sample(e, m);
    WordOf(r.srtt / 8 + r.rttvar);
  }

  lemma WordOf(x: int)
    requires 0 <= x < TWO_32
    ensures Word(x) == x
  {
  }

  lemma FirstSample(e: Rtt, m: nat)
    requires !e.valid && Fits(e) && 1 <= m < SAMPLE_LIMIT
    ensures var r := Sample(e, m);
            && r.srtt == 8 * m && r.rttvar == 2 * m && r.rto == Clamp(Raw(r)) && Small(r)
  {
    WordOf(8 * m);
    WordOf(2 * m);
    WordOf(3 * m);
  }

  /** The smoothed time: rounding only ever adds, and less than one tick in all. */
  lemma SrttStep(s: nat, x: real, m: nat)
    requires 0.0 <= s as real - 8.0 * x <= 7.0
    ensures var s2, x2 := s - s / 8 + m, 7.0 * x / 8.0 + m as real / 8.0;
            0.0 <= s2 as real - 8.0 * x2 <= 7.0
  {
    var q, rest := s / 8, s % 8;
    assert s == 8 * q + rest;
    assert s as real == 8.0 * q as real + rest as real;
  }

  lemma DeltaStep(s: nat, x: real, m: nat)
    requires 0.0 <= s as real - 8.0 * x <= 7.0
    ensures -0.875 <= Abs(m - s / 8) as real - AbsReal(x - m as real) <= 0.875
    ensures -0.875 <= (s / 8) as real - x <= 0.875
  {
    var q, rest := s / 8, s % 8;
    assert s == 8 * q + rest;
    assert s as real == 8.0 * q as real + rest as real;
    assert Abs(m - q) as real == AbsReal(q as real - m as real);
  }

  lemma RttvarStep(v: nat, y: real, a: nat, b: real)
    requires -3.5 <= v as real - 4.0 * y <= 6.5 && -0.875 <= a as real - b <= 0.875
    ensures var v2, y2 := v - v / 4 + a, 3.0 * y / 4.0 + b / 4.0;
            -3.5 <= v2 as real - 4.0 * y2 <= 6.5
  {
    var q, rest := v / 4, v % 4;
    assert v == 4 * q + rest;
    assert v as real == 4.0 * q as real + rest as real;
  }

  function ClampReal(x: real): real {
    if x < RTO_MIN as real then RTO_MIN as real else if x > RTO_MAX as real then RTO_MAX as real else x
  }

  predicate AllSmall(samples: seq<nat>) {
    forall k :: 0 <= k < |samples| ==> 1 <= samples[k] < SAMPLE_LIMIT
  }

  lemma StepNear(r0: Rtt, x0: Exact, m: nat)
    requires r0.valid && Small(r0) && Near(r0, x0) && 1 <= m < SAMPLE_LIMIT
    ensures var r := Sample(r0, m); r.valid && Small(r) && Near(r, ExactNext(x0, m as real)) && r.rto == Clamp(Raw(r))
  {
    PlainSample(r0, m);
    hide Sample, Clamp, Raw, Small;
    SrttStep(r0.srtt, x0.srtt, m);
    DeltaStep(r0.srtt, x0.srtt, m);
    RttvarStep(r0.rttvar, x0.rttvar, Abs(m - r0.srtt / 8), AbsReal(x0.srtt - m as real));
  }

  /** After any samples the scaled values track the exact ones: the smoothed time is never
      below the exact one and exceeds it by less than a tick, the timeout is within eight
      ticks of the exact one before and after clamping, and nothing overflows. */
  lemma {:induction false} TracksExactly(e: Rtt, samples: seq<nat>)
    requires !e.valid && Fits(e) && samples != [] && AllSmall(samples)
    ensures var r, x := After(e, samples), ExactAfter(samples);
            && r.valid && Small(r) && Near(r, x) && r.rto == Clamp(Raw(r))
            && x.srtt <= r.srtt as real / 8.0 < x.srtt + 1.0
            && -8.0 < Raw(r) as real - (x.srtt + 4.0 * x.rttvar) < 8.0
            && -8.0 < r.rto as real - ClampReal(x.srtt + 4.0 * x.rttvar) < 8.0
    decreases |samples|
  {
    hide Sample, Clamp, Raw, Small, ClampReal;
    var n := |samples| - 1;
    if n == 0 {
      assert samples[..0] == [];
      FirstSample(e, samples[0]);
    } else {
      TracksExactly(e, samples[..n]);
      StepNear(After(e, samples[..n]), ExactAfter(samples[..n]), samples[n]);
    }
    RawNear(After(e, samples), ExactAfter(samples));
  }

  lemma RawNear(r: Rtt, x: Exact)
    requires Near(r, x)
    ensures x.srtt <= r.srtt as real / 8.0 < x.srtt + 1.0
    ensures -8.0 < Raw(r) as real - (x.srtt + 4.0 * x.rttvar) < 8.0
    ensures -8.0 < Clamp(Raw(r)) as real - ClampReal(x.srtt + 4.0 * x.rttvar) < 8.0
  {
    DeltaStep(r.srtt, x.srtt, 0);
    assert Raw(r) as real == (r.srtt / 8) as real + r.rttvar as real;
  }
}
