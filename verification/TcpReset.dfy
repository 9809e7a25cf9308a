/** Refusing a TCP connection to a resolver: `make_intercepted_tcp_reset` in windivert_interception.cpp. */
module TcpReset {
  import opened Bytes
  import opened Checksum
  import opened IpPackets
  import opened Interception
  import opened TcpReflection

  // Control bits of a segment: section 3.1 of RFC 9293.

  predicate HasFin(flags: nat) { flags % 2 == 1 }

  predicate HasSyn(flags: nat) { flags / 2 % 2 == 1 }

  predicate HasRst(flags: nat) { flags / 4 % 2 == 1 }

  predicate HasAck(flags: nat) { flags / 16 % 2 == 1 }

  const RST: byte := 0x04
  const RST_ACK: byte := 0x14

  /** SEG.LEN: the payload, with SYN and FIN counted. */
  function SegmentLength(p: Packet, v: View): (n: nat)
    requires v.at + 14 <= |p| && v.payload <= |p|
  {
    var flags := p[v.at + 13];
    |p| - v.payload + (if HasSyn(flags) then 1 else 0) + (if HasFin(flags) then 1 else 0)
  }

  /** The header of the reset before it is reflected, with its ports traded already. */
  function ResetHeader(p: Packet, v: View): (h: Packet)
    requires v.at + 20 <= v.payload <= |p|
    ensures |h| == 20
  {
    var ports := p[v.at + 2..v.at + 4] + p[v.at..v.at + 2];
    var blank := [0, 0, 0, 0, 0, 0];
    if HasAck(p[v.at + 13]) then ports + p[v.at + 8..v.at + 12] + [0, 0, 0, 0, 0x50, RST] + blank
    else
      var ack := (Dword(p, v.at + 4) + SegmentLength(p, v)) % UINT32;
      ports + [0, 0, 0, 0] + WordBytes(ack / 0x1_0000) + WordBytes(ack % 0x1_0000) + [0x50, RST_ACK] + blank
  }

  function ResetSegment(p: Packet, v: View): (r: Packet)
    requires 20 <= v.at && v.at + 20 <= v.payload <= |p| && v.at + 20 < 0x1_0000 + Uncounted(v.ipv6)
    ensures |r| == v.at + 20
  {
    WithLength(p[..v.at] + ResetHeader(p, v), v.ipv6)
  }

  function ResetOf(captured: Packet): (r: Result<Packet>)
  {
    var v :- TcpViewOf(captured);
    if Word(captured, v.at + 2) != DNS_PORT then Err(BAD_PACKET)
    else if HasRst(captured[v.at + 13]) then Ok([])
    else ReflectedOf(ResetSegment(captured, v), DNS_PORT, false, DNS_PORT)
  }

  method MakeInterceptedTcpReset(captured: Packet) returns (r: Result<Packet>)
    ensures r == ResetOf(captured)
  {
    hide TcpViewOf;
    hide ReflectedOf;
    var v :- TcpView(captured);
    if Word(captured, v.at + 2) != DNS_PORT {
      return Err(BAD_PACKET);
    }
    if HasRst(captured[v.at + 13]) {
      return Ok([]);
    }
    var result := BuildReset(captured, v);
    r := MakeReflectedTcpPacket(result, DNS_PORT, false, DNS_PORT);
  }

  const BLANK: Packet := [0, 0, 0, 0, 0, 0, 0, 0, 0, 0, 0, 0, 0, 0, 0, 0]

  /** Headers and ports, then a blank TCP header but for its length of five words. */
  function Blanked(head: Packet): (r: Packet)
    requires |head| >= 4
    ensures |r| == |head| + 16
  {
    (head + BLANK)[|head| + 8 := 0x50]
  }

  lemma SequenceFilled(head: Packet, seqNumber: Packet, flags: byte)
    requires |head| >= 4 && |seqNumber| == 4
    ensures var r := Blanked(head)[..|head|] + seqNumber + Blanked(head)[|head| + 4..];
            r[|head| + 9 := flags] == head + (seqNumber + [0, 0, 0, 0, 0x50, flags] + [0, 0, 0, 0, 0, 0])
  {
  }

  lemma AcknowledgementFilled(head: Packet, ack: Packet, flags: byte)
    requires |head| >= 4 && |ack| == 4
    ensures var r := Blanked(head)[..|head| + 4] + ack + Blanked(head)[|head| + 8..];
            r[|head| + 9 := flags] == head + ([0, 0, 0, 0] + ack + [0x50, flags] + [0, 0, 0, 0, 0, 0])
  {
  }

  /** Copies the headers, blanks the transport header behind the ports and fills in what a reset says. */
  method BuildReset(captured: Packet, v: View) returns (result: Packet)
    requires 20 <= v.at && v.at + 20 <= v.payload <= |captured| && v.at + 20 < 0x1_0000 + Uncounted(v.ipv6)
    ensures result == ResetSegment(captured, v)
  {
    hide WithLength;
    hide Blanked;
    hide Swapped;
    hide Dword;
    hide SegmentLength;
    hide WordBytes;
    hide ResetHeader;
    result := captured[..v.at + 20];
    result := SwapPorts(result, v.at);
    ghost var head := HeadOf(captured, v);
    PortsTraded(captured, v);
    assert result[..v.at + 4] == head;
    result := Blanked(result[..v.at + 4]);
    if HasAck(captured[v.at + 13]) {
      SequenceFilled(head, captured[v.at + 8..v.at + 12], RST);
      result := result[..v.at + 4] + captured[v.at + 8..v.at + 12] + result[v.at + 8..];
      result := result[v.at + 13 := RST];
    } else {
      var ack := (Dword(captured, v.at + 4) + SegmentLength(captured, v)) % UINT32;
      var bytes := WordBytes(ack / 0x1_0000) + WordBytes(ack % 0x1_0000);
      AcknowledgementFilled(head, bytes, RST_ACK);
      result := result[..v.at + 8] + bytes + result[v.at + 12..];
      result := result[v.at + 13 := RST_ACK];
    }
    HeaderParts(captured, v);
    result := WithLength(result, v.ipv6);
  }

  /** What stands in front of the ports, and the ports traded. */
  function HeadOf(p: Packet, v: View): (h: Packet)
    requires v.at + 4 <= |p|
    ensures |h| == v.at + 4
  {
    p[..v.at] + (p[v.at + 2..v.at + 4] + p[v.at..v.at + 2])
  }

  lemma PortsTraded(p: Packet, v: View)
    requires v.at + 20 <= |p|
    ensures Swapped(p[..v.at + 20], v.at, v.at + 2, 2)[..v.at + 4] == HeadOf(p, v)
  {
  }

  lemma HeaderParts(p: Packet, v: View)
    requires v.at + 20 <= v.payload <= |p|
    ensures p[..v.at] + ResetHeader(p, v) ==
            if HasAck(p[v.at + 13]) then HeadOf(p, v) + (p[v.at + 8..v.at + 12] + [0, 0, 0, 0, 0x50, RST] + [0, 0, 0, 0, 0, 0])
            else
              var ack := (Dword(p, v.at + 4) + SegmentLength(p, v)) % UINT32;
              HeadOf(p, v) + ([0, 0, 0, 0] + (WordBytes(ack / 0x1_0000) + WordBytes(ack % 0x1_0000)) + [0x50, RST_ACK] + [0, 0, 0, 0, 0, 0])
  {
    hide Dword;
    hide SegmentLength;
    hide WordBytes;
  }

  /** What the reset of section 3.10.7.1 of RFC 9293 says, by the segment it answers: sequence number, acknowledgment, flags. */
  ghost predicate SaysReset(r: Packet, p: Packet, v: View)
    requires v.at + 20 <= v.payload <= |p| && v.at + 20 <= |r|
  {
    var flags := p[v.at + 13];
    if flags / 0x10 % 2 == 1 then
      Dword(r, v.at + 4) == Dword(p, v.at + 8) && Dword(r, v.at + 8) == 0 && r[v.at + 13] == 0x04
    else
      var length := |p| - v.payload + flags / 2 % 2 + flags % 2;
      && Dword(r, v.at + 4) == 0 && Dword(r, v.at + 8) == (Dword(p, v.at + 4) + length) % 0x1_0000_0000
      && r[v.at + 13] == 0x14
  }

  lemma WordsMakeDword(p: Packet, at: nat, w: nat)
    requires at + 4 <= |p| && w < UINT32
    requires p[at..at + 4] == WordBytes(w / 0x1_0000) + WordBytes(w % 0x1_0000)
    ensures Dword(p, at) == w
  {
    var b := WordBytes(w / 0x1_0000) + WordBytes(w % 0x1_0000);
    assert forall i :: 0 <= i < 4 ==> p[at + i] == b[i];
  }

  lemma HeaderSays(p: Packet, v: View)
    requires v.at + 20 <= v.payload <= |p|
    ensures SaysReset(p[..v.at] + ResetHeader(p, v), p, v)
  {
    hide Dword;
    var h := ResetHeader(p, v);
    var r := p[..v.at] + h;
    assert forall i :: 0 <= i < 20 ==> r[v.at + i] == h[i];
    if HasAck(p[v.at + 13]) {
      SameDwords(r, v.at + 4, p, v.at + 8);
      ZeroDword(r, v.at + 8);
    } else {
      var ack := (Dword(p, v.at + 4) + SegmentLength(p, v)) % UINT32;
      ZeroDword(r, v.at + 4);
      assert r[v.at + 8..v.at + 12] == WordBytes(ack / 0x1_0000) + WordBytes(ack % 0x1_0000);
      WordsMakeDword(r, v.at + 8, ack);
    }
  }

  lemma HeaderPorts(p: Packet, v: View)
    requires v.at + 20 <= v.payload <= |p|
    ensures var r := p[..v.at] + ResetHeader(p, v);
            && r[v.at + 12] == 0x50 && Word(r, v.at) == Word(p, v.at + 2) && Word(r, v.at + 2) == Word(p, v.at)
  {
    var h := ResetHeader(p, v);
    var r := p[..v.at] + h;
    assert h[0] == p[v.at + 2] && h[1] == p[v.at + 3] && h[2] == p[v.at] && h[3] == p[v.at + 1];
    assert r[v.at] == h[0] && r[v.at + 1] == h[1] && r[v.at + 2] == h[2] && r[v.at + 3] == h[3];
    assert h[12] == 0x50 && r[v.at + 12] == h[12];
  }

  lemma SameDwords(p: Packet, at: nat, q: Packet, from: nat)
    requires at + 4 <= |p| && from + 4 <= |q|
    requires p[at] == q[from] && p[at + 1] == q[from + 1] && p[at + 2] == q[from + 2] && p[at + 3] == q[from + 3]
    ensures Dword(p, at) == Dword(q, from)
  {
  }

  lemma ZeroDword(p: Packet, at: nat)
    requires at + 4 <= |p| && p[at] == 0 && p[at + 1] == 0 && p[at + 2] == 0 && p[at + 3] == 0
    ensures Dword(p, at) == 0
  {
  }

  /** What is said survives wherever the bytes behind the ports and in front of the checksum do. */
  lemma StillSays(r: Packet, s: Packet, p: Packet, v: View)
    requires v.at + 20 <= v.payload <= |p| && v.at + 20 <= |r| && v.at + 20 <= |s|
    requires SaysReset(s, p, v) && Agree(s, r, v.at + 4, v.at + 16)
    ensures SaysReset(r, p, v)
  {
    hide Dword;
    SameDwords(r, v.at + 4, s, v.at + 4);
    SameDwords(r, v.at + 8, s, v.at + 8);
  }

  function ResetView(v: View): View { View(v.at, v.at + 20, v.ipv6) }

  /** What the unreflected reset keeps of the segment: the headers but for the length, and what it says. */
  lemma SegmentShape(p: Packet, v: View)
    requires TcpViewOf(p) == Ok(v)
    ensures var s := ResetSegment(p, v);
            && |s| == v.at + 20 && SaysReset(s, p, v) && s[v.at + 12] == 0x50
            && Word(s, LengthAt(v.ipv6)) + Uncounted(v.ipv6) == |s|
            && Word(s, v.at) == Word(p, v.at + 2) && Word(s, v.at + 2) == Word(p, v.at)
            && forall i :: 0 <= i < v.at && !(LengthAt(v.ipv6) <= i < LengthAt(v.ipv6) + 2) ==> s[i] == p[i]
  {
    hide TransportOf;
    hide ResetHeader;
    hide Word;
    hide SaysReset;
    var b := p[..v.at] + ResetHeader(p, v);
    var s := ResetSegment(p, v);
    HeaderSays(p, v);
    HeaderPorts(p, v);
    StillSays(s, b, p, v);
    SameWordAt(b, s, v.at);
    SameWordAt(b, s, v.at + 2);
  }

  /** The unreflected reset is an acceptable packet with its header in the same place. */
  lemma SegmentViewed(p: Packet, v: View)
    requires TcpViewOf(p) == Ok(v)
    ensures TcpViewOf(ResetSegment(p, v)) == Ok(ResetView(v))
  {
    hide ResetSegment;
    hide SaysReset;
    hide TransportFrom;
    SegmentShape(p, v);
    var s := ResetSegment(p, v);
    if v.ipv6 {
      ChainIsLocal(p, s, p[6], 40, 0);
    } else {
      SameWordAt(p, s, 6);
    }
  }

  /**
   A reset is made for every DNS segment that is not a reset itself, and never for one that is. It goes back where the
   segment came from, says what section 3.10.7.1 of RFC 9293 demands, and has right lengths and checksums.
   */
  lemma ResetLaw(captured: Packet)
    requires TcpViewOf(captured).Ok? && Word(captured, TcpViewOf(captured).value.at + 2) == 53
    ensures ResetOf(captured).Ok?
    ensures var r, v := ResetOf(captured).value, TcpViewOf(captured).value;
            if captured[v.at + 13] / 4 % 2 == 1 then r == []
            else
              && |r| == v.at + 20 && Fits(captured, v) && Fits(r, ResetView(v))
              && EndpointsOf(r, ResetView(v)) == EndpointsOf(captured, v).Reversed()
              && SaysReset(r, captured, v) && r[v.at + 12] == 0x50
              && Word(r, LengthAt(v.ipv6)) + Uncounted(v.ipv6) == |r|
              && ChecksumsRight(r, ResetView(v), 6, 16)
  {
    hide TcpViewOf;
    hide ResetSegment;
    hide SaysReset;
    hide EndpointsOf;
    hide ReflectedOf;
    hide Word;
    var v := TcpViewOf(captured).value;
    if !HasRst(captured[v.at + 13]) {
      var s := ResetSegment(captured, v);
      SegmentShape(captured, v);
      SegmentViewed(captured, v);
      Accepted(s, ResetView(v));
      ReflectionLaw(s, DNS_PORT, false, DNS_PORT);
      var r := ReflectedOf(s, DNS_PORT, false, DNS_PORT).value;
      StillSays(r, s, captured, v);
      SameWordAt(r, s, LengthAt(v.ipv6));
      TradedEndpoints(captured, s, v);
      EndpointsTell(captured, v);
    }
  }

  lemma Accepted(s: Packet, v: View)
    requires TcpViewOf(s) == Ok(v) && Word(s, v.at) == DNS_PORT
    ensures ReflectedOf(s, DNS_PORT, false, DNS_PORT).Ok?
  {
    hide TcpViewOf;
    hide Checked;
  }

  lemma TradedEndpoints(p: Packet, s: Packet, v: View)
    requires Fits(p, v) && Fits(s, ResetView(v))
    requires Agree(p, s, SourceAt(v.ipv6), TargetAt(v.ipv6) + AddressSize(v.ipv6))
    requires Word(s, v.at) == Word(p, v.at + 2) && Word(s, v.at + 2) == Word(p, v.at)
    ensures var e := EndpointsOf(p, v);
            EndpointsOf(s, ResetView(v)) == Endpoints(e.source, e.targetPort, e.target, e.sourcePort)
  {
    hide Word;
    var a, b, n := SourceAt(v.ipv6), TargetAt(v.ipv6), AddressSize(v.ipv6);
    assert p[a..a + n] == s[a..a + n];
    assert p[b..b + n] == s[b..b + n];
  }
}
