/**
 Which captured packets are taken up, by the fields of their headers: section 3.1 of RFC 791, sections 3 and 4 of RFC 8200,
 section 2.2 of RFC 4302. The views of windivert_interception.cpp accept exactly these.
 */
module PacketShapes {
  import opened Bytes
  import opened Checksum
  import opened IpPackets
  import opened Interception

  // ---- IPv6 extension headers ----

  /**
   A header of one kind: options and routing in units of eight bytes, the first not counted; a fragment header of a packet
   that is not fragmented; authentication in units of four bytes, the first two not counted.
   */
  predicate IsExtension(kind: nat, header: Packet)
  {
    && |header| >= 8
    && (kind in {0, 43, 60} || kind == 44 || kind == 51)
    && (kind in {0, 43, 60} ==> |header| == 8 * (header[1] as int + 1))
    && (kind == 44 ==> |header| == 8 && header[2] == 0 && header[3] in {0, 2, 4, 6})
    && (kind == 51 ==> |header| == 4 * (header[1] as int + 2))
  }

  /** Headers of which each names the next in its first byte. */
  predicate IsChain(first: nat, headers: seq<Packet>, last: nat)
    decreases |headers|
  {
    if headers == [] then first == last else IsExtension(first, headers[0]) && IsChain(headers[0][0], headers[1..], last)
  }

  function Flat(headers: seq<Packet>): (r: Packet) { if headers == [] then [] else headers[0] + Flat(headers[1..]) }

  lemma SkipsExtension(p: Packet, kind: nat, at: nat, header: Packet)
    requires at + |header| <= |p| && p[at..at + |header|] == header && IsExtension(kind, header)
    ensures Skipped(p, kind, at) == Ok((header[0] as nat, at + |header|))
  {
    assert header[0] == p[at] && header[1] == p[at + 1] && header[2] == p[at + 2] && header[3] == p[at + 3];
  }

  lemma SkippedIsExtension(p: Packet, kind: nat, at: nat)
    requires Skipped(p, kind, at).Ok?
    ensures var (next, to) := Skipped(p, kind, at).value;
            at < to <= |p| && IsExtension(kind, p[at..to]) && next == p[at..to][0]
  {
    var to := Skipped(p, kind, at).value.1;
    var header := p[at..to];
    assert header[0] == p[at] && header[1] == p[at + 1];
    if kind == 44 {
      assert header[2] == p[at + 2] && header[3] == p[at + 3];
    }
  }

  /** A chain of headers is followed to the transport header behind it. */
  lemma {:induction false} ChainFollowed(p: Packet, first: nat, at: nat, headers: seq<Packet>, last: nat, passed: nat)
    requires IsChain(first, headers, last) && (last == 6 || last == 17) && passed + |headers| <= 15
    requires at + |Flat(headers)| <= |p| && p[at..at + |Flat(headers)|] == Flat(headers)
    ensures TransportFrom(p, first, at, passed) == Ok(Transport(last, at + |Flat(headers)|))
    decreases |headers|
  {
    hide Skipped;
    if headers != [] {
      var header, more := headers[0], Flat(headers[1..]);
      TwoParts(p, at, header, more);
      SkipsExtension(p, first, at, header);
      ChainFollowed(p, header[0], at + |header|, headers[1..], last, passed + 1);
    }
  }

  lemma TwoParts(p: Packet, at: nat, a: Packet, b: Packet)
    requires at + |a + b| <= |p| && p[at..at + |a + b|] == a + b
    ensures p[at..at + |a|] == a && p[at + |a|..at + |a| + |b|] == b
  {
    var all := p[at..at + |a + b|];
    assert all[..|a|] == a && all[|a|..] == b;
  }

  /** Whatever is followed to a transport header is a chain. */
  lemma {:induction false} FollowedIsChain(p: Packet, first: nat, at: nat, passed: nat) returns (headers: seq<Packet>)
    requires TransportFrom(p, first, at, passed).Ok? && at <= |p|
    ensures var t := TransportFrom(p, first, at, passed).value;
            && (t.protocol == 6 || t.protocol == 17) && IsChain(first, headers, t.protocol) && passed + |headers| <= 15
            && t.offset == at + |Flat(headers)| <= |p| && p[at..t.offset] == Flat(headers)
    decreases 16 - passed
  {
    hide Skipped;
    if first == 17 || first == 6 {
      headers := [];
    } else {
      SkippedIsExtension(p, first, at);
      var (next, to) := Skipped(p, first, at).value;
      var more := FollowedIsChain(p, next, to, passed + 1);
      headers := [p[at..to]] + more;
      assert headers[1..] == more;
      var end := TransportFrom(p, first, at, passed).value.offset;
      assert p[at..end] == p[at..to] + p[to..end];
    }
  }

  // ---- Whole packets ----

  /**
   An IPv4 packet that is all there, with a header of 20 bytes or more, not fragmented - the bit that forbids it set or not -
   and `size` bytes at least behind its header, of the protocol.
   */
  predicate IsIpv4(p: Packet, protocol: nat, at: nat, size: nat)
  {
    && |p| >= 20 && p[0] / 16 == 4 && at == 4 * (p[0] as int % 16) && at >= 20 && at + size <= |p|
    && p[2] as int * 256 + p[3] == |p| && p[6] % 64 == 0 && p[7] == 0 && p[9] == protocol
  }

  /** An IPv6 packet that is all there, with at most 15 extension headers and `size` bytes at least behind them. */
  ghost predicate IsIpv6(p: Packet, protocol: nat, at: nat, size: nat)
  {
    && |p| >= 40 && p[0] / 16 == 6 && p[4] as int * 256 + p[5] + 40 == |p| && at + size <= |p|
    && exists headers: seq<Packet> ::
         |headers| <= 15 && IsChain(p[6], headers, protocol) && at == 40 + |Flat(headers)| && p[40..at] == Flat(headers)
  }

  lemma FragmentBits(high: byte, low: byte)
    ensures (high as int * 256 + low) % 0x4000 == 0 <==> high % 64 == 0 && low == 0
  {
    var h, r := high / 64, high % 64;
    assert high as int * 256 + low == h as int * 0x4000 + (r as int * 256 + low);
  }

  lemma TransportExactly(p: Packet, protocol: nat, at: nat)
    requires (protocol == 6 || protocol == 17) && |p| >= 40 && p[0] / 16 == 6 && at <= |p|
    ensures TransportOf(p) == Ok(Transport(protocol, at)) <==> IsIpv6(p, protocol, at, 0)
  {
    hide TransportFrom;
    if TransportOf(p) == Ok(Transport(protocol, at)) {
      var headers := FollowedIsChain(p, p[6], 40, 0);
      assert IsChain(p[6], headers, protocol);
    }
    if IsIpv6(p, protocol, at, 0) {
      var headers: seq<Packet> :| |headers| <= 15 && IsChain(p[6], headers, protocol) && at == 40 + |Flat(headers)| && p[40..at] == Flat(headers);
      ChainFollowed(p, p[6], 40, headers, protocol, 0);
    }
  }

  lemma Ipv6Room(p: Packet, protocol: nat, at: nat, size: nat)
    ensures IsIpv6(p, protocol, at, size) <==> IsIpv6(p, protocol, at, 0) && at + size <= |p|
  {
  }

  /** A UDP datagram for port 53 that states its real length and carries at least a DNS header. */
  predicate IsQueryDatagram(p: Packet, at: nat)
  {
    && at + 20 <= |p| && p[at + 2] == 0 && p[at + 3] == 53 && p[at + 4] as int * 256 + p[at + 5] == |p| - at
  }

  lemma UdpHeaderExactly(p: Packet, at: nat)
    requires |p| >= 28
    ensures UdpHeader(p) == Ok(at) <==> IsIpv4(p, 17, at, 8) || IsIpv6(p, 17, at, 8)
  {
    hide TransportOf;
    hide IsIpv6;
    Words(p);
    FragmentBits(p[6], p[7]);
    Ipv6Fields(p, 17, at, 8);
    if p[0] / 16 == 6 {
      OneTransport(p, 17, at, 8);
    }
  }

  lemma TcpHeaderExactly(p: Packet, at: nat)
    requires |p| >= 40
    ensures TcpHeader(p) == Ok(at) <==> IsIpv4(p, 6, at, 20) || IsIpv6(p, 6, at, 20)
  {
    hide TransportOf;
    hide IsIpv6;
    Words(p);
    FragmentBits(p[6], p[7]);
    Ipv6Fields(p, 6, at, 20);
    if p[0] / 16 == 6 {
      OneTransport(p, 6, at, 20);
    }
  }

  lemma OneTransport(p: Packet, protocol: nat, at: nat, size: nat)
    requires (protocol == 6 || protocol == 17) && p != [] && p[0] / 16 == 6
    ensures IsIpv6(p, protocol, at, size) <==> TransportOf(p) == Ok(Transport(protocol, at)) && at + size <= |p|
  {
    hide TransportFrom;
    if |p| >= 40 && at <= |p| {
      TransportExactly(p, protocol, at);
      Ipv6Room(p, protocol, at, size);
    }
  }

  lemma Words(p: Packet)
    requires |p| >= 28
    ensures Word(p, 6) == p[6] as int * 256 + p[7] && Word(p, 2) == p[2] as int * 256 + p[3]
  {
  }

  lemma Ipv6Fields(p: Packet, protocol: nat, at: nat, size: nat)
    ensures IsIpv6(p, protocol, at, size) ==> |p| >= 40 && p[0] / 16 == 6 && at >= 40 && at + size <= |p|
  {
  }

  /** Exactly the whole, unfragmented DNS queries over UDP are taken up, over IPv4 and IPv6. */
  lemma UdpExactly(p: Packet, v: View)
    ensures UdpViewOf(p) == Ok(v) <==>
              && |p| >= 28 && v.payload == v.at + 8 && IsQueryDatagram(p, v.at)
              && if v.ipv6 then IsIpv6(p, 17, v.at, 8) else IsIpv4(p, 17, v.at, 8)
    ensures UdpViewOf(p).Err? ==> UdpViewOf(p).code == "INTERCEPT_PACKET"
  {
    hide UdpHeader;
    hide IsIpv6;
    if |p| >= 28 {
      Ipv6Fields(p, 17, v.at, 8);
      UdpHeaderExactly(p, v.at);
      if UdpHeader(p).Ok? {
        UdpHeaderExactly(p, UdpHeader(p).value);
      }
      if v.at + 8 <= |p| {
        DatagramWords(p, v.at);
      }
    }
  }

  lemma DatagramWords(p: Packet, at: nat)
    requires at + 8 <= |p|
    ensures Word(p, at + 2) == 53 <==> p[at + 2] == 0 && p[at + 3] == 53
    ensures Word(p, at + 4) == p[at + 4] as int * 256 + p[at + 5]
  {
  }

  /** Exactly the whole, unfragmented TCP segments with a header of 20 bytes or more are taken up, over IPv4 and IPv6. */
  lemma TcpExactly(p: Packet, v: View)
    ensures TcpViewOf(p) == Ok(v) <==>
              && |p| >= 40 && (if v.ipv6 then IsIpv6(p, 6, v.at, 20) else IsIpv4(p, 6, v.at, 20))
              && v.at + 13 <= |p| && v.payload == v.at + 4 * (p[v.at + 12] as int / 16) && v.at + 20 <= v.payload <= |p|
    ensures TcpViewOf(p).Err? ==> TcpViewOf(p).code == "INTERCEPT_PACKET"
  {
    hide TcpHeader;
    hide IsIpv6;
    if |p| >= 40 {
      Ipv6Fields(p, 6, v.at, 20);
      TcpHeaderExactly(p, v.at);
      if TcpHeader(p).Ok? {
        TcpHeaderExactly(p, TcpHeader(p).value);
      }
    }
  }

  // ---- The pseudo header ----

  /** What is added up in front of a segment or datagram: section 3.1 of RFC 9293 and section 8.1 of RFC 8200. */
  lemma PseudoHeaderBytes(p: Packet, ipv6: bool, protocol: byte, length: nat)
    requires |p| >= 40 || (!ipv6 && |p| >= 20)
    requires length < 0x1_0000_0000 && (!ipv6 ==> length < 0x1_0000)
    ensures PseudoSum(p, ipv6, protocol, length) ==
            if ipv6 then Sum16(p[8..24] + p[24..40] + (WordBytes(length / 0x1_0000) + WordBytes(length % 0x1_0000) + [0, 0, 0, protocol]))
            else Sum16(p[12..16] + p[16..20] + ([0, protocol] + WordBytes(length)))
  {
    hide Sum16;
    hide WordBytes;
    if ipv6 {
      var suffix := WordBytes(length / 0x1_0000) + WordBytes(length % 0x1_0000) + [0, 0, 0, protocol];
      Suffix6(length / 0x1_0000, length % 0x1_0000, protocol);
      assert p[8..24] + p[24..40] == p[8..40];
      SumOfParts(p[8..40], suffix);
    } else {
      var suffix := [0, protocol] + WordBytes(length);
      Suffix4(length, protocol);
      assert p[12..16] + p[16..20] == p[12..20];
      SumOfParts(p[12..20], suffix);
    }
  }
}
