/** TCP segments sent back: `make_reflected_tcp_packet` and `make_intercepted_tcp_reset` in windivert_interception.cpp. */
module TcpReflection {
  import opened Bytes
  import opened Checksum
  import opened IpPackets
  import opened Interception

  const FIELD := 16

  // ---- Reflection ----

  /** The reflected segment, but for its checksums. */
  function Turned(p: Packet, v: View, portAt: nat, port: nat): (r: Packet)
    requires Fits(p, v) && port < 0x1_0000 && portAt + 2 <= 4
    ensures |r| == |p|
  {
    PutWord(SwapAddresses(p, v), v.at + portAt, port)
  }

  function ReflectedOf(captured: Packet, proxyPort: nat, towardProxy: bool, interceptedPort: nat): (r: Result<Packet>)
    requires proxyPort < 0x1_0000 && interceptedPort < 0x1_0000
  {
    var v :- TcpViewOf(captured);
    if proxyPort == 0 || interceptedPort == 0 then Err(BAD_PACKET)
    else if towardProxy && Word(captured, v.at + 2) != interceptedPort then Err(BAD_PACKET)
    else if !towardProxy && Word(captured, v.at) != proxyPort then Err(BAD_PACKET)
    else
      var turned := if towardProxy then Turned(captured, v, 2, proxyPort) else Turned(captured, v, 0, interceptedPort);
      Ok(Checked(turned, v, TCP, FIELD))
  }

  method MakeReflectedTcpPacket(captured: Packet, proxyPort: nat, towardProxy: bool, interceptedPort: nat)
    returns (r: Result<Packet>)
    requires proxyPort < 0x1_0000 && interceptedPort < 0x1_0000
    ensures r == ReflectedOf(captured, proxyPort, towardProxy, interceptedPort)
  {
    hide TcpViewOf;
    hide Checked;
    hide Swapped;
    hide PutWord;
    hide Word;
    var v :- TcpView(captured);
    if proxyPort == 0 || interceptedPort == 0 {
      return Err(BAD_PACKET);
    }
    if towardProxy && Word(captured, v.at + 2) != interceptedPort {
      return Err(BAD_PACKET);
    }
    if !towardProxy && Word(captured, v.at) != proxyPort {
      return Err(BAD_PACKET);
    }
    var result := captured;
    if v.ipv6 {
      result := SwapRanges(result, 8, 24, 16);
    } else {
      result := SwapRanges(result, 12, 16, 4);
    }
    result := PutWord(result, v.at + (if towardProxy then 2 else 0), if towardProxy then proxyPort else interceptedPort);
    result := WriteChecksums(result, v, TCP, FIELD);
    return Ok(result);
  }

  /** The endpoints of a reflected segment: hosts trade places, and one port is replaced. */
  function Reflection(e: Endpoints, proxyPort: nat, towardProxy: bool, interceptedPort: nat): (r: Endpoints)
  {
    if towardProxy then Endpoints(e.target, e.sourcePort, e.source, proxyPort)
    else Endpoints(e.target, interceptedPort, e.source, e.targetPort)
  }

  /** A byte outside addresses, ports and checksums. */
  predicate Untouched(v: View, i: nat)
  {
    && !(SourceAt(v.ipv6) <= i < TargetAt(v.ipv6) + AddressSize(v.ipv6))
    && !(v.at <= i < v.at + 4) && !InChecksum(v, FIELD, i)
  }

  lemma TurnedEndpoints(p: Packet, v: View, portAt: nat, port: nat)
    requires Fits(p, v) && port < 0x1_0000 && (portAt == 0 || portAt == 2)
    ensures var e, r := EndpointsOf(p, v), Turned(p, v, portAt, port);
            EndpointsOf(r, v) == Endpoints(e.target, if portAt == 0 then port else e.sourcePort,
                                           e.source, if portAt == 2 then port else e.targetPort)
  {
    var a, b, n := SourceAt(v.ipv6), TargetAt(v.ipv6), AddressSize(v.ipv6);
    var s := SwapAddresses(p, v);
    var r := Turned(p, v, portAt, port);
    hide PutWord;
    assert r[a..a + n] == s[a..a + n] == p[b..b + n];
    assert r[b..b + n] == s[b..b + n] == p[a..a + n];
    SameWordAt(p, s, v.at);
    SameWordAt(p, s, v.at + 2);
    SameWordAt(s, r, v.at + 2 - portAt);
  }

  lemma TurnedKeeps(p: Packet, v: View, portAt: nat, port: nat)
    requires Fits(p, v) && port < 0x1_0000 && (portAt == 0 || portAt == 2)
    ensures forall i :: 0 <= i < |p| && Untouched(v, i) ==> Turned(p, v, portAt, port)[i] == p[i]
  {
    hide PutWord;
  }

  /**
   Reflection keeps every byte but the addresses, the ports and the checksums. The hosts trade places, the segment goes to
   the proxy port or comes from the intercepted one, and the checksums are right.
   */
  lemma ReflectionLaw(captured: Packet, proxyPort: nat, towardProxy: bool, interceptedPort: nat)
    requires proxyPort < 0x1_0000 && interceptedPort < 0x1_0000
    requires ReflectedOf(captured, proxyPort, towardProxy, interceptedPort).Ok?
    ensures TcpViewOf(captured).Ok?
    ensures var r, v := ReflectedOf(captured, proxyPort, towardProxy, interceptedPort).value, TcpViewOf(captured).value;
            && |r| == |captured| && Fits(captured, v)
            && EndpointsOf(r, v) == Reflection(EndpointsOf(captured, v), proxyPort, towardProxy, interceptedPort)
            && (forall i :: 0 <= i < |captured| && Untouched(v, i) ==> r[i] == captured[i])
            && ChecksumsRight(r, v, 6, 16)
  {
    hide TransportOf;
    hide Checked;
    hide Turned;
    hide EndpointsOf;
    hide Word;
    var v := TcpViewOf(captured).value;
    var portAt, port := if towardProxy then 2 else 0, if towardProxy then proxyPort else interceptedPort;
    var turned := Turned(captured, v, portAt, port);
    TurnedEndpoints(captured, v, portAt, port);
    TurnedKeeps(captured, v, portAt, port);
    EvenTcpHeader(captured);
    KeptWhenChecked(turned, v, TCP, FIELD);
    CheckedKeeps(turned, v, TCP, FIELD);
    CheckedIsRight(turned, v, TCP, FIELD);
    EndpointsTell(captured, v);
  }

  lemma EvenTcpHeader(captured: Packet)
    requires TcpViewOf(captured).Ok?
    ensures !TcpViewOf(captured).value.ipv6 ==> TcpViewOf(captured).value.at % 2 == 0
  {
    hide TransportOf;
  }

  lemma EndpointsTell(captured: Packet, v: View)
    requires Fits(captured, v)
    ensures EndpointsOf(captured, v).sourcePort == Word(captured, v.at)
    ensures EndpointsOf(captured, v).targetPort == Word(captured, v.at + 2)
  {
  }

  /**
   There and back: a segment from C:c to S:53 is reflected to go from S:c to C:proxy, and whatever segment the proxy then
   sends from C:proxy to S:c is accepted and reflected to go from S:53 to C:c.
   */
  lemma ThereAndBack(x: Packet, y: Packet, proxyPort: nat, interceptedPort: nat)
    requires proxyPort < 0x1_0000 && interceptedPort < 0x1_0000
    requires ReflectedOf(x, proxyPort, true, interceptedPort).Ok?
    requires TcpViewOf(x).Ok? && TcpViewOf(y).Ok?
    requires var v, w := TcpViewOf(x).value, TcpViewOf(y).value;
             && Fits(x, v) && Fits(y, w)
             && EndpointsOf(y, w) == EndpointsOf(ReflectedOf(x, proxyPort, true, interceptedPort).value, v).Reversed()
    ensures var v, w := TcpViewOf(x).value, TcpViewOf(y).value;
            var back := ReflectedOf(y, proxyPort, false, interceptedPort);
            && back.Ok? && Fits(back.value, w)
            && EndpointsOf(back.value, w) == EndpointsOf(x, v).Reversed()
  {
    hide TcpViewOf;
    hide EndpointsOf;
    hide Checked;
    hide Turned;
    var v, w := TcpViewOf(x).value, TcpViewOf(y).value;
    ReflectionLaw(x, proxyPort, true, interceptedPort);
    EndpointsTell(x, v);
    EndpointsTell(y, w);
    ReflectionLaw(y, proxyPort, false, interceptedPort);
  }
}
