/**
  The Internet checksum and the headers it protects: ip_checksum, and the headers that
  ip_send, udp_send and tcp_send_segment build.
*/
module Checksum {
  import opened Common

  const MAX_LEN := 131074

  function Word(high: int, low: int): int {
    256 * high + low
  }

  /** The 16-bit words of a buffer; an odd last byte is the high byte of a word. */
  function Words(data: seq<Byte>): (ws: seq<U16>) {
    if data == [] then []
    else if |data| == 1 then [Word(data[0], 0)]
    else [Word(data[0], data[1])] + Words(data[2..])
  }

  /** One's-complement addition of section 1 of RFC 1071: the carry comes back in at the end. */
  function OnesAdd(a: U16, b: U16): (r: U16) {
    if a + b > 0xFFFF then a + b - 0xFFFF else a + b
  }

  function OnesSum(ws: seq<U16>): (r: U16) {
    if ws == [] then 0 else OnesAdd(ws[0], OnesSum(ws[1..]))
  }

  function Sum(ws: seq<U16>): (r: nat) {
    if ws == [] then 0 else ws[0] + Sum(ws[1..])
  }

  /** The checksum as RFC 1071 defines it. */
  function Check(data: seq<Byte>): (r: U16) {
    0xFFFF - OnesSum(Words(data))
  }

  // ------------------------------------------------------------------- folding the carry

  /** What folding a sum leaves: zero for zero, else its residue from 1 to 0xFFFF. */
  function Folded(s: nat): (r: U16)
    ensures r == 0 <==> s == 0
  {
    if s == 0 then 0 else 1 + (s - 1) % 0xFFFF
  }

  lemma FoldedIs(s: nat, k: nat, r: nat)
    requires s == 0xFFFF * k + r && 1 <= r <= 0xFFFF
    ensures Folded(s) == r
  {
    assert s - 1 == 0xFFFF * k + (r - 1);
  }

  lemma FoldedParts(s: nat) returns (k: nat)
    requires s > 0
    ensures s == 0xFFFF * k + Folded(s)
  {
    k := (s - 1) / 0xFFFF;
  }

  lemma FoldStep(s: nat)
    ensures Folded(s % 0x1_0000 + s / 0x1_0000) == Folded(s)
    ensures s >= 0x1_0000 ==> s % 0x1_0000 + s / 0x1_0000 < s
    ensures s < 0x1_0000 ==> Folded(s) == s
  {
    var high, low := s / 0x1_0000, s % 0x1_0000;
    if s > 0 {
      var k := FoldedParts(high + low);
      FoldedIs(s, high + k, Folded(high + low));
      if s < 0x1_0000 {
        FoldedIs(s, 0, s);
      }
    }
  }

  lemma {:induction false} SumFolds(ws: seq<U16>)
    ensures OnesSum(ws) == Folded(Sum(ws))
    decreases |ws|
  {
    if ws != [] {
      SumFolds(ws[1..]);
      var a, s := ws[0], Sum(ws[1..]);
      if s == 0 {
        if a > 0 {
          FoldedIs(a, 0, a);
        }
      } else {
        var k := FoldedParts(s);
        if a + Folded(s) > 0xFFFF {
          FoldedIs(a + s, k + 1, a + Folded(s) - 0xFFFF);
        } else {
          FoldedIs(a + s, k, a + Folded(s));
        }
      }
    }
  }

  lemma {:induction false} SumBound(data: seq<Byte>)
    ensures |Words(data)| == (|data| + 1) / 2 && Sum(Words(data)) <= 0xFFFF * |Words(data)|
    decreases |data|
  {
    if |data| >= 2 {
      SumBound(data[2..]);
    }
  }

  // --------------------------------------------------------------------------- the method

  /** The word sum of the even part of a buffer up to i, and what is left. */
  lemma {:induction false} SplitSum(data: seq<Byte>, i: nat)
    requires i <= |data| && i % 2 == 0
    ensures Sum(Words(data)) == Sum(Words(data[..i])) + Sum(Words(data[i..]))
    decreases i
  {
    if i == 0 {
      assert data[..0] == [] && data[0..] == data;
    } else {
      SplitSum(data[2..], i - 2);
      assert data[..i][2..] == data[2..][..i - 2] && data[i..] == data[2..][i - 2..];
    }
  }

  lemma SumMore(data: seq<Byte>, i: nat)
    requires i + 1 < |data| && i % 2 == 0
    ensures Sum(Words(data[..i + 2])) == Sum(Words(data[..i])) + Word(data[i], data[i + 1])
  {
    SplitSum(data[..i + 2], i);
    var pair := data[..i + 2][i..];
    assert data[..i + 2][..i] == data[..i] && pair == [data[i], data[i + 1]];
    assert Words(pair) == [Word(data[i], data[i + 1])];
  }

  lemma SumWhole(data: seq<Byte>, i: nat)
    requires i <= |data| < i + 2 && i % 2 == 0
    ensures Sum(Words(data)) == Sum(Words(data[..i])) + if i < |data| then Word(data[i], 0) else 0
  {
    SplitSum(data, i);
    if i < |data| {
      assert data[i..] == [data[i]];
    }
  }

  lemma PrefixBound(data: seq<Byte>, i: nat)
    requires i <= |data| <= MAX_LEN
    ensures Sum(Words(data[..i])) <= 0xFFFF * ((i + 1) / 2) < 0x1_0000_0000
  {
    SumBound(data[..i]);
  }

  lemma NoWrap(x: nat)
    requires x < TWO_32
    ensures x % TWO_32 == x
  {
  }

  lemma NoSum(data: seq<Byte>)
    ensures Sum(Words(data[..0])) == 0
  {
  }

  /** The first loop of ip_checksum, in 32-bit arithmetic: the buffers it is meant for do not
      overflow it. */
  method AddPairs(data: seq<Byte>) returns (sum: nat, i: nat)
    requires |data| <= MAX_LEN
    ensures i <= |data| < i + 2 && i % 2 == 0 && sum == Sum(Words(data[..i])) < TWO_32
  {
    hide Words, Sum, Word;
    NoSum(data);
    sum, i := 0, 0;
    while i + 1 < |data|
      invariant i <= |data| && i % 2 == 0 && sum == Sum(Words(data[..i])) < TWO_32
    {
      SumMore(data, i);
      PrefixBound(data, i + 2);
      var word := Word(data[i], data[i + 1]);
      NoWrap(sum + word);
      sum := (sum + word) % TWO_32;
      i := i + 2;
    }
  }

  /** The first loop of ip_checksum and the odd byte. */
  method AddWords(data: seq<Byte>) returns (sum: nat)
    requires |data| <= MAX_LEN
    ensures sum == Sum(Words(data)) < TWO_32
  {
    hide Words, Sum, Word;
    var i;
    sum, i := AddPairs(data);
    SumWhole(data, i);
    assert data[..|data|] == data;
    PrefixBound(data, |data|);
    if |data| % 2 == 1 {
      NoWrap(sum + Word(data[|data| - 1], 0));
      sum := (sum + Word(data[|data| - 1], 0)) % TWO_32;
    }
  }

  /** The last loop of ip_checksum: it ends, with the carries folded in. */
  method FoldCarries(sum0: nat) returns (sum: U16)
    ensures sum == Folded(sum0)
  {
    hide Folded;
    var s := sum0;
    while s / 0x1_0000 != 0
      invariant Folded(s) == Folded(sum0)
      decreases s
    {
      FoldStep(s);
      s := s % 0x1_0000 + s / 0x1_0000;
    }
    FoldStep(s);
    sum := s;
  }

  /** ip_checksum. */
  method IpChecksum(data: seq<Byte>) returns (r: U16)
    requires |data| <= MAX_LEN
    ensures r == Check(data)
  {
    var sum := AddWords(data);
    var folded := FoldCarries(sum);
    SumFolds(Words(data));
    r := 0xFFFF - folded;
  }

  // -------------------------------------------------------------- storing the checksum

  /** A 16-bit value written high byte first. */
  function Put(data: seq<Byte>, k: nat, w: U16): (r: seq<Byte>)
    requires k + 1 < |data|
    ensures |r| == |data|
  {
    data[k := w / 256][k + 1 := w % 256]
  }

  lemma {:induction false} PutSum(data: seq<Byte>, k: nat, w: U16)
    requires k + 1 < |data| && k % 2 == 0 && data[k] == 0 && data[k + 1] == 0
    ensures Sum(Words(Put(data, k, w))) == Sum(Words(data)) + w
    decreases k
  {
    var p := Put(data, k, w);
    if k == 0 {
      assert p[2..] == data[2..];
      assert Word(p[0], p[1]) == w;
    } else {
      PutSum(data[2..], k - 2, w);
      assert p[2..] == Put(data[2..], k - 2, w);
    }
  }

  /** Storing the checksum in a zeroed field at an even offset makes the buffer check to
      zero, and so does 0xFFFF where the checksum is zero. */
  lemma StoredChecks(data: seq<Byte>, k: nat)
    requires k + 1 < |data| && k % 2 == 0 && data[k] == 0 && data[k + 1] == 0
    ensures Check(Put(data, k, Check(data))) == 0
    ensures Check(data) == 0 ==> Check(Put(data, k, 0xFFFF)) == 0
  {
    var s, c := Sum(Words(data)), Check(data);
    SumFolds(Words(data));
    PutSum(data, k, c);
    PutSum(data, k, 0xFFFF);
    SumFolds(Words(Put(data, k, c)));
    SumFolds(Words(Put(data, k, 0xFFFF)));
    if s == 0 {
      FoldedIs(0xFFFF, 0, 0xFFFF);
    } else {
      var n := FoldedParts(s);
      FoldedIs(s + c, n, 0xFFFF);
      if c == 0 {
        FoldedIs(s + 0xFFFF, n + 1, 0xFFFF);
      }
    }
  }

  /** Any other value in the field does not check, so a receiver detects it. */
  lemma OnlyTheChecksumChecks(data: seq<Byte>, k: nat, w: U16)
    requires k + 1 < |data| && k % 2 == 0 && data[k] == 0 && data[k + 1] == 0
    requires Check(Put(data, k, w)) == 0
    ensures w == Check(data) || (w == 0xFFFF && Check(data) == 0)
  {
    var s := Sum(Words(data));
    SumFolds(Words(data));
    PutSum(data, k, w);
    SumFolds(Words(Put(data, k, w)));
    var n := FoldedParts(s + w);
    hide Words, Sum, OnesSum, Folded;
    if s == 0 {
      OneMultiple(n + 1, 0, w);
    } else {
      var m := FoldedParts(s);
      OneMultiple(n + 1 - m, Folded(s), w);
    }
  }

  lemma OneMultiple(t: int, f: nat, w: nat)
    requires w == 0xFFFF * t - f && f <= 0xFFFF && w <= 0xFFFF && w + f > 0
    ensures t == 1 || (t == 2 && f == 0xFFFF)
  {
  }

  // ----------------------------------------------------------------------------- headers

  const MAX_IP_PAYLOAD := 1472
  const MAX_UDP_PAYLOAD := 1472
  const MAX_TCP_PAYLOAD := 1460

  type Address = a: seq<Byte> | |a| == 4 witness [0, 0, 0, 0]
  type Mac = m: seq<Byte> | |m| == 6 witness [0, 0, 0, 0, 0, 0]

  function Be16(w: U16): (s: seq<Byte>)
    ensures |s| == 2 && Word(s[0], s[1]) == w
  {
    [w / 256, w % 256]
  }

  function Be32(x: U32): (s: seq<Byte>)
    ensures |s| == 4 && 0x1_0000 * Word(s[0], s[1]) + Word(s[2], s[3]) == x
  {
    Be16(x / 0x1_0000) + Be16(x % 0x1_0000)
  }

  function Cut(payload: seq<Byte>, max: nat): (s: seq<Byte>)
    ensures |s| <= max
  {
    if |payload| > max then payload[..max] else payload
  }

  /** The part of the IP header that the UDP and TCP checksums also cover. */
  function Pseudo(src: Address, dst: Address, protocol: Byte, len: U16): (s: seq<Byte>)
    ensures |s| == 12
  {
    src + dst + [0, protocol] + Be16(len)
  }

  lemma PutPart(a: seq<Byte>, b: seq<Byte>, k: nat, w: U16)
    requires |a| <= k && k + 1 < |a| + |b|
    ensures Put(a + b, k, w) == a + Put(b, k - |a|, w)
  {
  }

  /** An Ethernet frame around an IP header that checks to zero, and the bytes behind it. */
  predicate FrameOf(frame: seq<Byte>, header: seq<Byte>, protocol: Byte, src: Address, dst: Address, srcMac: Mac,
                    dstMac: Mac, data: seq<Byte>)
    requires |data| <= MAX_IP_PAYLOAD
  {
    && frame == dstMac + srcMac + [0x08, 0x00] + header + data && |header| == 20 && Check(header) == 0
    && header[..10] == [0x45, 0] + Be16(20 + |data|) + [0, 0, 0, 0, 64, protocol] && header[12..] == src + dst
  }

  /** ip_send: the frame it hands to the network card, with at most 1472 bytes of the payload. */
  method IpSend(protocol: Byte, src: Address, dst: Address, srcMac: Mac, dstMac: Mac, payload: seq<Byte>)
    returns (frame: seq<Byte>, header: seq<Byte>)
    ensures FrameOf(frame, header, protocol, src, dst, srcMac, dstMac, Cut(payload, MAX_IP_PAYLOAD))
  {
    var data := payload;
    if |data| > MAX_IP_PAYLOAD {
      data := data[..MAX_IP_PAYLOAD];
    }
    header := [0x45, 0] + Be16(20 + |data|) + [0, 0, 0, 0, 64, protocol] + [0, 0] + (src + dst);
    var csum := IpChecksum(header);
    StoredChecks(header, 10);
    header := Put(header, 10, csum);
    frame := dstMac + srcMac + [0x08, 0x00] + header + data;
  }

  /** What a receiver checks: a segment behind the pseudo-header for its length. */
  predicate ChecksOut(src: Address, dst: Address, protocol: Byte, segment: seq<Byte>)
    requires |segment| < 0x1_0000
  {
    Check(Pseudo(src, dst, protocol, |segment|) + segment) == 0
  }

  lemma ZeroExactly(data: seq<Byte>)
    ensures Check(data) == 0 <==> Sum(Words(data)) > 0 && Sum(Words(data)) % 0xFFFF == 0
  {
    SumFolds(Words(data));
    FullExactly(Sum(Words(data)));
    hide Words, Sum, OnesSum, Folded;
  }

  lemma FullExactly(s: nat)
    ensures Folded(s) == 0xFFFF <==> s > 0 && s % 0xFFFF == 0
  {
    if s > 0 {
      var k := FoldedParts(s);
      var r := Folded(s);
      hide Folded;
      if r == 0xFFFF {
        assert s == 0xFFFF * (k + 1);
      } else {
        assert s % 0xFFFF == r;
      }
    }
  }

  lemma PseudoSum(src: Address, dst: Address, protocol: Byte, len: U16)
    ensures Sum(Words(Pseudo(src, dst, protocol, len))) == Sum(Words(src + dst)) + protocol + len
  {
    var p := Pseudo(src, dst, protocol, len);
    SplitSum(p, 8);
    assert p[..8] == src + dst && p[8..] == [0, protocol] + Be16(len);
    SplitSum(p[8..], 2);
    assert p[8..][..2] == [0, protocol] && p[8..][2..] == Be16(len);
    assert Words([0, protocol]) == [Word(0, protocol)] && Words(Be16(len)) == [len];
  }

  lemma SegmentSum(src: Address, dst: Address, protocol: Byte, segment: seq<Byte>)
    requires |segment| < 0x1_0000
    ensures Sum(Words(Pseudo(src, dst, protocol, |segment|) + segment))
         == Sum(Words(src + dst)) + protocol + |segment| + Sum(Words(segment))
  {
    var p := Pseudo(src, dst, protocol, |segment|);
    PseudoSum(src, dst, protocol, |segment|);
    SplitSum(p + segment, 12);
    assert (p + segment)[..12] == p && (p + segment)[12..] == segment;
  }

  /** The length and the words of the bytes that are cut off a segment cancel out. */
  predicate Cancels(tail: seq<Byte>) {
    (|tail| + Sum(Words(tail))) % 0xFFFF == 0
  }

  /** A segment that checks, cut at an even offset, still checks exactly when the length and the
      words of what was cut off cancel out. */
  lemma CutChecks(src: Address, dst: Address, protocol: Byte, segment: seq<Byte>, n: nat)
    requires protocol > 0 && n <= |segment| < 0x1_0000 && n % 2 == 0 && ChecksOut(src, dst, protocol, segment)
    ensures ChecksOut(src, dst, protocol, segment[..n]) <==> Cancels(segment[n..])
  {
    var whole := Sum(Words(src + dst)) + protocol + |segment| + Sum(Words(segment));
    var part := Sum(Words(src + dst)) + protocol + n + Sum(Words(segment[..n]));
    SegmentSum(src, dst, protocol, segment);
    SegmentSum(src, dst, protocol, segment[..n]);
    ZeroExactly(Pseudo(src, dst, protocol, |segment|) + segment);
    ZeroExactly(Pseudo(src, dst, protocol, n) + segment[..n]);
    SplitSum(segment, n);
    assert whole == part + (|segment[n..]| + Sum(Words(segment[n..])));
    hide Words, Sum, Check, Pseudo;
    Residues(whole, part, |segment[n..]| + Sum(Words(segment[n..])));
  }

  lemma Residues(whole: nat, part: nat, tail: nat)
    requires whole == part + tail && whole % 0xFFFF == 0
    ensures part % 0xFFFF == 0 <==> tail % 0xFFFF == 0
  {
  }

  lemma {:induction false} ZeroWords(data: seq<Byte>)
    requires forall i :: 0 <= i < |data| ==> data[i] == 0
    ensures Sum(Words(data)) == 0
    decreases |data|
  {
    if |data| >= 2 {
      ZeroWords(data[2..]);
    }
  }

  /** What is left of a segment in the frame that carries it. */
  function Carried(segment: seq<Byte>): (s: seq<Byte>)
    ensures |s| <= MAX_IP_PAYLOAD && (s == segment <==> |segment| <= MAX_IP_PAYLOAD)
  {
    Cut(segment, MAX_IP_PAYLOAD)
  }

  /** A segment of 1460 zero bytes does not check where it arrives. */
  lemma LongZerosFail(src: Address, dst: Address, segment: seq<Byte>)
    requires |segment| == 1480 && ChecksOut(src, dst, 6, segment) && forall i :: 20 <= i < |segment| ==> segment[i] == 0
    ensures !ChecksOut(src, dst, 6, Carried(segment))
  {
    CutChecks(src, dst, 6, segment, MAX_IP_PAYLOAD);
    ZeroWords(segment[MAX_IP_PAYLOAD..]);
  }

  lemma CarriedChecks(src: Address, dst: Address, protocol: Byte, segment: seq<Byte>)
    requires protocol > 0 && |segment| < 0x1_0000 && ChecksOut(src, dst, protocol, segment)
    ensures ChecksOut(src, dst, protocol, Carried(segment)) <==>
      |segment| <= MAX_IP_PAYLOAD || Cancels(segment[MAX_IP_PAYLOAD..])
  {
    if |segment| > MAX_IP_PAYLOAD {
      CutChecks(src, dst, protocol, segment, MAX_IP_PAYLOAD);
    }
  }

  /** The datagram that udp_send builds: it checks together with its pseudo-header, and its
      checksum field is never zero, which would mean that there is none. */
  method UdpDatagram(sourcePort: U16, destPort: U16, src: Address, dst: Address, payload: seq<Byte>)
    returns (datagram: seq<Byte>)
    ensures var data := Cut(payload, MAX_UDP_PAYLOAD);
            && |datagram| == 8 + |data| && ChecksOut(src, dst, 17, datagram)
            && datagram[..6] == Be16(sourcePort) + Be16(destPort) + Be16(|datagram|) && datagram[8..] == data
            && Word(datagram[6], datagram[7]) != 0
  {
    var data := payload;
    if |data| > MAX_UDP_PAYLOAD {
      data := data[..MAX_UDP_PAYLOAD];
    }
    var len := 8 + |data|;
    var pseudo, segment := Pseudo(src, dst, 17, len), Be16(sourcePort) + Be16(destPort) + Be16(len) + [0, 0] + data;
    var csum := IpChecksum(pseudo + segment);
    StoredChecks(pseudo + segment, 18);
    if csum == 0 {
      csum := 0xFFFF;
    }
    PutPart(pseudo, segment, 18, csum);
    datagram := Put(segment, 6, csum);
  }

  /** udp_send: the frame carries the whole datagram, and its length field is the length of what
      is carried, exactly up to 1464 bytes; what arrives checks exactly then, or where the cut
      happens to cancel out. */
  method UdpSend(sourcePort: U16, destPort: U16, src: Address, dst: Address, srcMac: Mac, dstMac: Mac,
                 payload: seq<Byte>)
    returns (frame: seq<Byte>, header: seq<Byte>, datagram: seq<Byte>)
    ensures |datagram| == 8 + |Cut(payload, MAX_UDP_PAYLOAD)| && datagram[8..] == Cut(payload, MAX_UDP_PAYLOAD)
    ensures datagram[..6] == Be16(sourcePort) + Be16(destPort) + Be16(|datagram|) && Word(datagram[6], datagram[7]) != 0
    ensures FrameOf(frame, header, 17, src, dst, srcMac, dstMac, Carried(datagram))
    ensures Carried(datagram) == datagram <==> |payload| <= 1464
    ensures ChecksOut(src, dst, 17, Carried(datagram)) <==> |payload| <= 1464 || Cancels(datagram[MAX_IP_PAYLOAD..])
  {
    datagram := UdpDatagram(sourcePort, destPort, src, dst, payload);
    CarriedChecks(src, dst, 17, datagram);
    frame, header := IpSend(17, src, dst, srcMac, dstMac, datagram);
  }

  /** The segment that tcp_send_segment builds: it checks together with its pseudo-header. */
  method TcpSegment(localPort: U16, remotePort: U16, src: Address, dst: Address, seqNo: U32, ackNo: U32, flags: Byte,
                    payload: seq<Byte>)
    returns (segment: seq<Byte>)
    ensures IsSegment(segment, localPort, remotePort, seqNo, ackNo, flags, Cut(payload, MAX_TCP_PAYLOAD))
    ensures |segment| <= 20 + MAX_TCP_PAYLOAD && ChecksOut(src, dst, 6, segment)
  {
    var data := payload;
    if |data| > MAX_TCP_PAYLOAD {
      data := data[..MAX_TCP_PAYLOAD];
    }
    var head := TcpHead(localPort, remotePort, seqNo, ackNo, flags);
    var pseudo := Pseudo(src, dst, 6, 20 + |data|);
    segment := head + [0, 0, 0, 0] + data;
    var csum := IpChecksum(pseudo + segment);
    StoredChecks(pseudo + segment, 28);
    PutPart(pseudo, segment, 28, csum);
    segment := Put(segment, 16, csum);
  }

  function TcpHead(localPort: U16, remotePort: U16, seqNo: U32, ackNo: U32, flags: Byte): (s: seq<Byte>)
    ensures |s| == 16
  {
    Be16(localPort) + Be16(remotePort) + Be32(seqNo) + Be32(ackNo) + [80, flags] + Be16(4096)
  }

  predicate IsSegment(segment: seq<Byte>, localPort: U16, remotePort: U16, seqNo: U32, ackNo: U32, flags: Byte,
                      data: seq<Byte>) {
    |segment| == 20 + |data| && segment[..16] == TcpHead(localPort, remotePort, seqNo, ackNo, flags)
      && segment[20..] == data
  }

  /** tcp_send_segment: the frame carries the whole segment exactly up to 1452 bytes of payload;
      what arrives checks exactly then, or where the cut happens to cancel out. */
  method TcpSend(localPort: U16, remotePort: U16, src: Address, dst: Address, srcMac: Mac, dstMac: Mac,
                 seqNo: U32, ackNo: U32, flags: Byte, payload: seq<Byte>)
    returns (frame: seq<Byte>, header: seq<Byte>, segment: seq<Byte>)
    ensures IsSegment(segment, localPort, remotePort, seqNo, ackNo, flags, Cut(payload, MAX_TCP_PAYLOAD))
    ensures |segment| <= 20 + MAX_TCP_PAYLOAD && FrameOf(frame, header, 6, src, dst, srcMac, dstMac, Carried(segment))
    ensures Carried(segment) == segment <==> |payload| <= 1452
    ensures ChecksOut(src, dst, 6, Carried(segment)) <==> |payload| <= 1452 || Cancels(segment[MAX_IP_PAYLOAD..])
  {
    segment := TcpSegment(localPort, remotePort, src, dst, seqNo, ackNo, flags, payload);
    CarriedChecks(src, dst, 6, segment);
    frame, header := IpSend(6, src, dst, srcMac, dstMac, segment);
  }
}
