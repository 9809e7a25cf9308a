/** Packets written back to the network: replies, reflected segments and resets of windivert_interception.cpp. */
module Interception {
  import opened Bytes
  import opened Checksum
  import opened IpPackets

  const DNS_PORT := 53

  // ---- Addresses and ports ----

  /** Two stretches of `n` bytes trade places. */
  function Swapped(p: Packet, a: nat, b: nat, n: nat): (r: Packet)
    requires a + n <= b && b + n <= |p|
    ensures |r| == |p|
    ensures forall i :: a <= i < a + n ==> r[i] == p[i + (b - a)]
    ensures forall i :: b <= i < b + n ==> r[i] == p[i - (b - a)]
    ensures forall i :: 0 <= i < |p| && !(a <= i < a + n) && !(b <= i < b + n) ==> r[i] == p[i]
  {
    p[..a] + p[b..b + n] + p[a + n..b] + p[a..a + n] + p[b + n..]
  }

  method SwapRanges(p: Packet, a: nat, b: nat, n: nat) returns (r: Packet)
    requires a + n <= b && b + n <= |p|
    ensures r == Swapped(p, a, b, n)
  {
    r := p;
    var i: nat := 0;
    while i < n
      invariant i <= n && |r| == |p|
      invariant forall k :: a <= k < a + i ==> r[k] == p[k + (b - a)]
      invariant forall k :: b <= k < b + i ==> r[k] == p[k - (b - a)]
      invariant forall k :: 0 <= k < |p| && !(a <= k < a + i) && !(b <= k < b + i) ==> r[k] == p[k]
    {
      r := r[a + i := r[b + i]][b + i := r[a + i]];
      i := i + 1;
    }
    assert r == Swapped(p, a, b, n);
  }

  function SourceAt(ipv6: bool): (at: nat) { if ipv6 then 8 else 12 }

  function TargetAt(ipv6: bool): (at: nat) { if ipv6 then 24 else 16 }

  function AddressSize(ipv6: bool): (n: nat) { if ipv6 then 16 else 4 }

  datatype Endpoints = Endpoints(source: Packet, sourcePort: nat, target: Packet, targetPort: nat) {
    function Reversed(): Endpoints { Endpoints(target, targetPort, source, sourcePort) }
  }

  /** Long enough for the addresses and the ports. */
  predicate Fits(p: Packet, v: View)
  {
    TargetAt(v.ipv6) + AddressSize(v.ipv6) <= v.at && v.at + 8 <= |p|
  }

  function EndpointsOf(p: Packet, v: View): (e: Endpoints)
    requires Fits(p, v)
  {
    var a, b, n := SourceAt(v.ipv6), TargetAt(v.ipv6), AddressSize(v.ipv6);
    Endpoints(p[a..a + n], Word(p, v.at), p[b..b + n], Word(p, v.at + 2))
  }

  function SwapAddresses(p: Packet, v: View): (r: Packet)
    requires Fits(p, v)
    ensures |r| == |p|
  {
    Swapped(p, SourceAt(v.ipv6), TargetAt(v.ipv6), AddressSize(v.ipv6))
  }

  // ---- Checksums ----

  /** The sum of the pseudo header: section 3.1 of RFC 9293 and section 8.1 of RFC 8200. */
  function PseudoSum(p: Packet, ipv6: bool, protocol: nat, length: nat): (n: nat)
    requires |p| >= 40 || (!ipv6 && |p| >= 20)
  {
    if ipv6 then Sum16(p[8..40]) + (length / 0x1_0000 + length % 0x1_0000 + protocol)
    else Sum16(p[12..20]) + (protocol + length)
  }

  /** The packet with a fresh checksum in the transport header and, for IPv4, in the IP header. */
  function Checked(p: Packet, v: View, protocol: nat, field: nat): (r: Packet)
    requires Fits(p, v) && v.at + field + 2 <= |p|
    ensures |r| == |p|
  {
    var z := PutWord(p, v.at + field, 0);
    var sum := PseudoSum(z, v.ipv6, protocol, |z| - v.at) + Sum16(z[v.at..]);
    var s := PutWord(z, v.at + field, Finished(sum));
    if v.ipv6 then s
    else
      var h := PutWord(s, 10, 0);
      PutWord(h, 10, Finished(Sum16(h[..v.at])))
  }

  /** The checksums of a packet fold to all ones with what they cover, and the transport checksum is there. */
  ghost predicate ChecksumsRight(p: Packet, v: View, protocol: nat, field: nat)
    requires Fits(p, v) && v.at + field + 2 <= |p|
  {
    && Folded(PseudoSum(p, v.ipv6, protocol, |p| - v.at) + Sum16(p[v.at..])) == 0xffff
    && Word(p, v.at + field) != 0
    && (!v.ipv6 ==> Folded(Sum16(p[..v.at])) == 0xffff)
  }

  /** Outside the checksum fields nothing changes. */
  predicate InChecksum(v: View, field: nat, i: int)
  {
    v.at + field <= i < v.at + field + 2 || (!v.ipv6 && 10 <= i < 12)
  }

  lemma CheckedKeeps(p: Packet, v: View, protocol: nat, field: nat)
    requires Fits(p, v) && v.at + field + 2 <= |p|
    ensures forall i :: 0 <= i < |p| && !InChecksum(v, field, i) ==> Checked(p, v, protocol, field)[i] == p[i]
  {
    hide Sum16;
    hide Finished;
    hide PseudoSum;
    hide Word;
  }

  lemma PutBehind(p: Packet, from: nat, at: nat, w: nat)
    requires from <= at && at + 2 <= |p| && w < 0x1_0000
    ensures PutWord(p, at, w)[from..] == PutWord(p[from..], at - from, w)
    ensures PutWord(p, at, w)[..from] == p[..from]
  {
  }

  lemma PutBefore(p: Packet, to: nat, at: nat, w: nat)
    requires at + 2 <= to <= |p| && w < 0x1_0000
    ensures PutWord(p, at, w)[..to] == PutWord(p[..to], at, w)
    ensures PutWord(p, at, w)[to..] == p[to..]
  {
  }

  /** The addresses are in front of everything a checksum is written to, or between. */
  lemma SamePseudoSum(p: Packet, q: Packet, v: View, protocol: nat, length: nat)
    requires Fits(p, v) && |q| == |p|
    requires forall i :: SourceAt(v.ipv6) <= i < TargetAt(v.ipv6) + AddressSize(v.ipv6) ==> p[i] == q[i]
    ensures PseudoSum(p, v.ipv6, protocol, length) == PseudoSum(q, v.ipv6, protocol, length)
  {
    hide Sum16;
    if v.ipv6 {
      assert p[8..40] == q[8..40];
    } else {
      assert p[12..20] == q[12..20];
    }
  }

  /** Fresh checksums are right, in every packet. */
  lemma CheckedIsRight(p: Packet, v: View, protocol: nat, field: nat)
    requires Fits(p, v) && v.at + field + 2 <= |p| && field % 2 == 0 && (!v.ipv6 ==> v.at % 2 == 0)
    ensures ChecksumsRight(Checked(p, v, protocol, field), v, protocol, field)
  {
    hide Sum16;
    hide Folded;
    hide Finished;
    hide PseudoSum;
    hide PutWord;
    var z := PutWord(p, v.at + field, 0);
    var before := PseudoSum(z, v.ipv6, protocol, |z| - v.at);
    var c := Finished(before + Sum16(z[v.at..]));
    var s := PutWord(z, v.at + field, c);
    PutBehind(z, v.at, v.at + field, c);
    assert Word(z[v.at..], field) == 0;
    WrittenChecksum(before, z[v.at..], field);
    SamePseudoSum(z, s, v, protocol, |z| - v.at);
    if !v.ipv6 {
      var h := PutWord(s, 10, 0);
      var d := Finished(Sum16(h[..v.at]));
      var r := PutWord(h, 10, d);
      PutBefore(s, v.at, 10, 0);
      PutBefore(h, v.at, 10, d);
      assert Word(h[..v.at], 10) == 0;
      WrittenChecksum(0, h[..v.at], 10);
      SamePseudoSum(s, r, v, protocol, |z| - v.at);
    }
  }

  lemma {:induction false} ShortSum(b: Packet)
    requires |b| == 4 || |b| == 8
    ensures |b| == 4 ==> Sum16(b) == Word(b, 0) + Word(b, 2)
    ensures |b| == 8 ==> Sum16(b) == Word(b, 0) + Word(b, 2) + Word(b, 4) + Word(b, 6)
  {
    var c := b[2..];
    assert Sum16(c[2..]) == if |b| == 4 then 0 else Word(b, 4) + Word(b, 6) by {
      if |b| == 8 {
        var d := c[2..];
        assert Sum16(d[2..][2..]) == 0;
      }
    }
  }

  /** The pseudo header in the order it is added up; no captured packet is long enough to overflow the accumulator. */
  method AddPseudoHeader(p: Packet, ipv6: bool, protocol: byte, length: nat) returns (sum: nat)
    requires |p| >= 40 || (!ipv6 && |p| >= 20)
    requires length < if ipv6 then UINT32 else 0x1_0000
    ensures sum == PseudoSum(p, ipv6, protocol, length) < 0x20_0000
  {
    hide Sum16;
    hide WordBytes;
    if ipv6 {
      sum := ChecksumAdd(0, p[8..40]);
      var suffix := WordBytes(length / 0x1_0000) + WordBytes(length % 0x1_0000) + [0, 0, 0, protocol];
      Suffix6(length / 0x1_0000, length % 0x1_0000, protocol);
      sum := ChecksumAdd(sum, suffix);
    } else {
      sum := ChecksumAdd(0, p[12..20]);
      var suffix := [0, protocol] + WordBytes(length);
      Suffix4(length, protocol);
      sum := ChecksumAdd(sum, suffix);
    }
  }

  lemma Suffix6(high: nat, low: nat, protocol: byte)
    requires high < 0x1_0000 && low < 0x1_0000
    ensures Sum16(WordBytes(high) + WordBytes(low) + [0, 0, 0, protocol]) == high + low + protocol
  {
    ShortSum(WordBytes(high) + WordBytes(low) + [0, 0, 0, protocol]);
  }

  lemma Suffix4(length: nat, protocol: byte)
    requires length < 0x1_0000
    ensures Sum16([0, protocol] + WordBytes(length)) == protocol + length
  {
    ShortSum([0, protocol] + WordBytes(length));
  }

  lemma SumFits(b: Packet)
    requires |b| < 0x1_0028
    ensures Sum16(b) < 0xc000_0000
  {
    hide Sum16;
  }

  /** Writes the checksums of a packet whose other bytes are final. */
  method WriteChecksums(p: Packet, v: View, protocol: byte, field: nat) returns (result: Packet)
    requires Fits(p, v) && v.at + field + 2 <= |p| < 0x1_0028
    requires !v.ipv6 ==> v.at <= 60 && |p| < 0x1_0000
    ensures result == Checked(p, v, protocol, field)
  {
    hide Sum16;
    hide Folded;
    hide Finished;
    hide PutWord;
    hide PseudoSum;
    result := PutWord(p, v.at + field, 0);
    var sum := AddPseudoHeader(result, v.ipv6, protocol, |result| - v.at);
    SumFits(result[v.at..]);
    sum := ChecksumAdd(sum, result[v.at..]);
    var checksum := ChecksumFinish(sum);
    result := PutWord(result, v.at + field, checksum);
    if !v.ipv6 {
      result := PutWord(result, 10, 0);
      SumFits(result[..v.at]);
      sum := ChecksumAdd(0, result[..v.at]);
      checksum := ChecksumFinish(sum);
      result := PutWord(result, 10, checksum);
    }
  }

  /** The sums of a packet that fits an IP length field stay below the width of the accumulator. */
  lemma NoOverflow(p: Packet, v: View, protocol: byte)
    requires Fits(p, v) && |p| < 0x1_0028
    ensures PseudoSum(p, v.ipv6, protocol, |p| - v.at) + Sum16(p[v.at..]) < UINT32
    ensures Sum16(p[..v.at]) < UINT32
  {
    hide Sum16;
    SumFits(p[v.at..]);
    SumFits(p[..v.at]);
  }

  // ---- UDP replies ----

  /** Where the IP length is, and what it does not count. */
  function LengthAt(ipv6: bool): (at: nat) { if ipv6 then 4 else 2 }

  function Uncounted(ipv6: bool): (n: nat) { if ipv6 then 40 else 0 }

  function WithLength(p: Packet, ipv6: bool): (r: Packet)
    requires 40 <= |p| < 0x1_0000 + Uncounted(ipv6)
    ensures |r| == |p|
  {
    PutWord(p, LengthAt(ipv6), |p| - Uncounted(ipv6))
  }

  /** The reply to a captured query, but for its checksums. */
  function Replied(captured: Packet, dns: Packet, v: View): (r: Packet)
    requires Fits(captured, v) && v.at + 8 <= |captured|
    requires |dns| >= 12 && v.at + 8 + |dns| < 0x1_0000
    ensures |r| == v.at + 8 + |dns|
  {
    var a := WithLength(captured[..v.at + 8] + dns, v.ipv6);
    var b := Swapped(SwapAddresses(a, v), v.at, v.at + 2, 2);
    PutWord(b, v.at + 4, 8 + |dns|)
  }

  function UdpReplyOf(captured: Packet, dns: Packet): (r: Result<Packet>)
  {
    var v :- UdpViewOf(captured);
    if |dns| < 12 || |dns| > 65507 || v.payload + |dns| > 65535 then Err(BAD_PACKET)
    else Ok(Checked(Replied(captured, dns, v), v, UDP, 6))
  }

  method MakeInterceptedUdpResponse(captured: Packet, dns: Packet) returns (r: Result<Packet>)
    ensures r == UdpReplyOf(captured, dns)
  {
    hide UdpViewOf;
    hide Checked;
    hide Swapped;
    hide PutWord;
    var v :- UdpView(captured);
    if |dns| < 12 || |dns| > 65507 || v.payload + |dns| > 65535 {
      return Err(BAD_PACKET);
    }
    var result := captured[..v.payload] + dns;
    if v.ipv6 {
      result := PutWord(result, 4, |result| - 40);
      result := SwapRanges(result, 8, 24, 16);
    } else {
      result := PutWord(result, 2, |result|);
      result := SwapRanges(result, 12, 16, 4);
    }
    result := SwapPorts(result, v.at);
    result := PutWord(result, v.at + 4, 8 + |dns|);
    result := WriteChecksums(result, v, UDP, 6);
    return Ok(result);
  }

  method SwapPorts(p: Packet, at: nat) returns (r: Packet)
    requires at + 4 <= |p|
    ensures r == Swapped(p, at, at + 2, 2)
  {
    r := p[at := p[at + 2]][at + 2 := p[at]];
    r := r[at + 1 := r[at + 3]][at + 3 := r[at + 1]];
    assert r == Swapped(p, at, at + 2, 2);
  }

  /** What of a header is the same in a packet and in what answers it: all but lengths, addresses and the header checksum. */
  predicate InHeader(v: View, i: nat)
  {
    && i < v.at
    && !(LengthAt(v.ipv6) <= i < LengthAt(v.ipv6) + 2)
    && !(SourceAt(v.ipv6) <= i < TargetAt(v.ipv6) + AddressSize(v.ipv6))
    && (v.ipv6 || !(10 <= i < 12))
  }

  lemma SwapReverses(p: Packet, v: View)
    requires Fits(p, v)
    ensures EndpointsOf(Swapped(SwapAddresses(p, v), v.at, v.at + 2, 2), v) == EndpointsOf(p, v).Reversed()
  {
    var a, b, n := SourceAt(v.ipv6), TargetAt(v.ipv6), AddressSize(v.ipv6);
    var s := SwapAddresses(p, v);
    var r := Swapped(s, v.at, v.at + 2, 2);
    assert r[a..a + n] == p[b..b + n];
    assert r[b..b + n] == p[a..a + n];
  }

  lemma SameEndpoints(p: Packet, q: Packet, v: View)
    requires Fits(p, v) && Fits(q, v)
    requires Agree(p, q, SourceAt(v.ipv6), TargetAt(v.ipv6) + AddressSize(v.ipv6)) && Agree(p, q, v.at, v.at + 4)
    ensures EndpointsOf(p, v) == EndpointsOf(q, v)
  {
    var a, b, n := SourceAt(v.ipv6), TargetAt(v.ipv6), AddressSize(v.ipv6);
    assert p[a..a + n] == q[a..a + n];
    assert p[b..b + n] == q[b..b + n];
  }

  /** The lengths a packet states are its real ones. */
  predicate LengthsRight(p: Packet, v: View)
    requires Fits(p, v)
  {
    Word(p, LengthAt(v.ipv6)) + Uncounted(v.ipv6) == |p| && Word(p, v.at + 4) == |p| - v.at
  }

  ghost predicate SameHeader(p: Packet, q: Packet, v: View)
  {
    |p| >= v.at && |q| >= v.at && forall i :: 0 <= i < v.at && InHeader(v, i) ==> p[i] == q[i]
  }

  lemma LengthWritten(captured: Packet, dns: Packet, v: View)
    requires Fits(captured, v) && |dns| >= 12 && v.at + 8 + |dns| < 0x1_0000
    ensures var a := WithLength(captured[..v.at + 8] + dns, v.ipv6);
            && Fits(a, v) && EndpointsOf(a, v) == EndpointsOf(captured, v)
            && Word(a, LengthAt(v.ipv6)) + Uncounted(v.ipv6) == |a| && SameHeader(captured, a, v) && a[v.at + 8..] == dns
  {
    hide Word;
    var base := captured[..v.at + 8] + dns;
    var a := WithLength(base, v.ipv6);
    SameEndpoints(captured, base, v);
    SameEndpoints(base, a, v);
  }

  lemma RepliedLaw(captured: Packet, dns: Packet, v: View)
    requires Fits(captured, v) && |dns| >= 12 && v.at + 8 + |dns| < 0x1_0000
    ensures var r := Replied(captured, dns, v);
            && Fits(r, v) && EndpointsOf(r, v) == EndpointsOf(captured, v).Reversed()
            && LengthsRight(r, v) && SameHeader(captured, r, v) && r[v.at + 8..] == dns
  {
    hide Word;
    hide WithLength;
    LengthWritten(captured, dns, v);
    var a := WithLength(captured[..v.at + 8] + dns, v.ipv6);
    SwapReverses(a, v);
    var b := Swapped(SwapAddresses(a, v), v.at, v.at + 2, 2);
    var r := PutWord(b, v.at + 4, 8 + |dns|);
    SameEndpoints(b, r, v);
    SameWordAt(a, r, LengthAt(v.ipv6));
    assert r[v.at + 8..] == a[v.at + 8..];
  }

  lemma SameWordAt(p: Packet, q: Packet, at: nat)
    requires at + 2 <= |p| && at + 2 <= |q| && p[at] == q[at] && p[at + 1] == q[at + 1]
    ensures Word(p, at) == Word(q, at)
  {
  }

  /**
   A reply to a captured query goes back where the query came from and carries the response. The lengths it states are its
   real ones, its checksums are right, and the rest of the headers is that of the query.
   */
  lemma UdpReplyLaw(captured: Packet, dns: Packet)
    requires UdpReplyOf(captured, dns).Ok?
    ensures UdpViewOf(captured).Ok?
    ensures var r, v := UdpReplyOf(captured, dns).value, UdpViewOf(captured).value;
            && Fits(captured, v) && Fits(r, v) && r[v.payload..] == dns && |r| < 0x1_0000
            && EndpointsOf(r, v) == EndpointsOf(captured, v).Reversed() && EndpointsOf(r, v).sourcePort == 53
            && LengthsRight(r, v) && SameHeader(captured, r, v) && ChecksumsRight(r, v, 17, 6)
  {
    hide TransportOf;
    hide Replied;
    hide Checked;
    hide Word;
    hide EndpointsOf;
    var v := UdpViewOf(captured).value;
    RepliedLaw(captured, dns, v);
    FromDns(captured, v);
    EvenHeader(captured);
    KeptWhenChecked(Replied(captured, dns, v), v, UDP, 6);
    CheckedIsRight(Replied(captured, dns, v), v, UDP, 6);
    var r := Checked(Replied(captured, dns, v), v, UDP, 6);
    assert r[v.payload..] == Replied(captured, dns, v)[v.payload..];
  }

  lemma FromDns(captured: Packet, v: View)
    requires UdpViewOf(captured) == Ok(v)
    ensures Fits(captured, v) && EndpointsOf(captured, v).Reversed().sourcePort == 53
  {
    hide TransportOf;
  }

  lemma EvenHeader(captured: Packet)
    requires UdpViewOf(captured).Ok?
    ensures !UdpViewOf(captured).value.ipv6 ==> UdpViewOf(captured).value.at % 2 == 0
  {
    hide TransportOf;
  }

  /** Writing checksums leaves endpoints, lengths and headers alone. */
  lemma KeptWhenChecked(p: Packet, v: View, protocol: nat, field: nat)
    requires Fits(p, v) && v.at + field + 2 <= |p| && field >= 6
    ensures var r := Checked(p, v, protocol, field);
            && EndpointsOf(r, v) == EndpointsOf(p, v) && SameHeader(p, r, v)
            && (LengthsRight(p, v) ==> LengthsRight(r, v))
            && forall i :: v.at <= i < |p| && !(v.at + field <= i < v.at + field + 2) ==> r[i] == p[i]
  {
    hide Checked;
    hide Word;
    hide EndpointsOf;
    var r := Checked(p, v, protocol, field);
    CheckedKeeps(p, v, protocol, field);
    SameEndpoints(p, r, v);
    SameWordAt(p, r, LengthAt(v.ipv6));
    SameWordAt(p, r, v.at + 4);
  }
}
