/** Captured IP packets: where their transport header is, and what they carry. The views of windivert_interception.cpp. */
module IpPackets {
  import opened Bytes

  const BAD_PACKET := "INTERCEPT_PACKET"
  const TCP := 6
  const UDP := 17
  const MAX_HEADERS := 16

  datatype Transport = Transport(protocol: nat, offset: nat)

  /** The offset of the transport header, the offset of its payload and the IP version. */
  datatype View = View(at: nat, payload: nat, ipv6: bool)

  // ---- IPv6 extension headers ----

  /** Hop-by-hop options, routing and destination options: length in units of eight bytes, the first not counted. */
  predicate IsOptions(next: nat) { next == 0 || next == 43 || next == 60 }

  /** An extension header at `at`: the type of the header behind it and where that is. */
  function Skipped(p: Packet, next: nat, at: nat): (r: Result<(nat, nat)>)
    ensures r.Ok? ==> at < r.value.1 <= |p|
    ensures r.Err? ==> r.code == BAD_PACKET
  {
    if IsOptions(next) then
      if at + 2 > |p| then Err(BAD_PACKET)
      else
        var length := (p[at + 1] as int + 1) * 8;
        if at + length > |p| then Err(BAD_PACKET) else Ok((p[at], at + length))
    else if next == 44 then
      if at + 8 > |p| then Err(BAD_PACKET)
      else if Word(p, at + 2) / 8 != 0 || Word(p, at + 2) % 2 != 0 then Err(BAD_PACKET)
      else Ok((p[at], at + 8))
    else if next == 51 then
      if at + 2 > |p| then Err(BAD_PACKET)
      else
        var length := (p[at + 1] as int + 2) * 4;
        if at + length > |p| then Err(BAD_PACKET) else Ok((p[at], at + length))
    else Err(BAD_PACKET)
  }

  function TransportFrom(p: Packet, next: nat, at: nat, headers: nat): (r: Result<Transport>)
    ensures r.Ok? ==> at <= r.value.offset && (r.value.protocol == UDP || r.value.protocol == TCP)
    ensures r.Ok? && at <= |p| ==> r.value.offset <= |p|
    ensures r.Err? ==> r.code == BAD_PACKET
    decreases MAX_HEADERS - headers
  {
    if headers >= MAX_HEADERS then Err(BAD_PACKET)
    else if next == UDP || next == TCP then Ok(Transport(next, at))
    else
      var (next', at') :- Skipped(p, next, at);
      TransportFrom(p, next', at', headers + 1)
  }

  function TransportOf(p: Packet): (r: Result<Transport>)
    ensures r.Ok? ==> |p| >= 40 && Word(p, 4) + 40 == |p| && 40 <= r.value.offset <= |p|
    ensures r.Err? ==> r.code == BAD_PACKET
  {
    if |p| < 40 || Word(p, 4) + 40 != |p| then Err(BAD_PACKET) else TransportFrom(p, p[6], 40, 0)
  }

  method Ipv6Transport(p: Packet) returns (r: Result<Transport>)
    ensures r == TransportOf(p)
  {
    hide Skipped;
    if |p| < 40 || Word(p, 4) + 40 != |p| {
      return Err(BAD_PACKET);
    }
    var next: nat, at: nat := p[6], 40;
    var headers: nat := 0;
    while headers < MAX_HEADERS
      invariant headers <= MAX_HEADERS
      invariant TransportFrom(p, next, at, headers) == TransportFrom(p, p[6], 40, 0)
    {
      if next == UDP || next == TCP {
        return Ok(Transport(next, at));
      }
      var skipped := Skipped(p, next, at);
      if skipped.Err? {
        return Err(skipped.code);
      }
      next, at := skipped.value.0, skipped.value.1;
      headers := headers + 1;
    }
    return Err(BAD_PACKET);
  }

  /** The chain of headers is told by its own bytes: a packet with the same ones, and no less, has the same chain. */
  lemma {:induction false} ChainIsLocal(p: Packet, q: Packet, next: nat, at: nat, headers: nat)
    requires TransportFrom(p, next, at, headers).Ok?
    requires Agree(p, q, at, TransportFrom(p, next, at, headers).value.offset)
    ensures TransportFrom(q, next, at, headers) == TransportFrom(p, next, at, headers)
    decreases MAX_HEADERS - headers
  {
    if next != UDP && next != TCP {
      var (next', at') := Skipped(p, next, at).value;
      assert p[at] == q[at] && p[at + 1] == q[at + 1];
      ChainIsLocal(p, q, next', at', headers + 1);
      if next == 44 {
        assert p[at + 2] == q[at + 2] && p[at + 3] == q[at + 3];
      }
    }
  }

  // ---- The views ----

  predicate IsFragment(word: nat) { word % 0x4000 != 0 }

  function UdpViewOf(p: Packet): (r: Result<View>)
    ensures r.Ok? ==>
              var View(at, payload, ipv6) := r.value;
              && payload == at + 8 && payload + 12 <= |p| && |p| - at < 0x1_0000
              && if ipv6 then 40 <= at && p[0] / 16 == 6 else 20 <= at <= 60 && p[0] / 16 == 4
  {
    if |p| < 28 then Err(BAD_PACKET)
    else
      var ipv6 := p[0] / 16 == 6;
      var at :- UdpHeader(p);
      if Word(p, at + 2) != 53 || Word(p, at + 4) != |p| - at || |p| - (at + 8) < 12 then Err(BAD_PACKET)
      else Ok(View(at, at + 8, ipv6))
  }

  function UdpHeader(p: Packet): (r: Result<nat>)
    requires |p| >= 28
    ensures r.Err? ==> r.code == "INTERCEPT_PACKET"
    ensures r.Ok? ==> r.value + 8 <= |p|
    ensures r.Ok? ==> if p[0] / 16 == 6 then 40 <= r.value else 20 <= r.value <= 60 && p[0] / 16 == 4
  {
    if p[0] / 16 == 4 then
      var header := p[0] % 16 * 4;
      if header < 20 || header + 8 > |p| || p[9] != UDP || Word(p, 2) != |p| then Err(BAD_PACKET)
      else if IsFragment(Word(p, 6)) then Err(BAD_PACKET)
      else Ok(header)
    else if p[0] / 16 == 6 then
      var transport :- TransportOf(p);
      if transport.protocol != UDP || transport.offset + 8 > |p| then Err(BAD_PACKET) else Ok(transport.offset)
    else Err(BAD_PACKET)
  }

  function TcpHeader(p: Packet): (r: Result<nat>)
    requires |p| >= 40
    ensures r.Err? ==> r.code == "INTERCEPT_PACKET"
    ensures r.Ok? ==> r.value + 20 <= |p|
    ensures r.Ok? ==> if p[0] / 16 == 6 then 40 <= r.value else 20 <= r.value <= 60 && p[0] / 16 == 4
  {
    if p[0] / 16 == 4 then
      var header := p[0] % 16 * 4;
      if header < 20 || header + 20 > |p| || p[9] != TCP || Word(p, 2) != |p| then Err(BAD_PACKET)
      else if IsFragment(Word(p, 6)) then Err(BAD_PACKET)
      else Ok(header)
    else if p[0] / 16 == 6 then
      var transport :- TransportOf(p);
      if transport.protocol != TCP || transport.offset + 20 > |p| then Err(BAD_PACKET) else Ok(transport.offset)
    else Err(BAD_PACKET)
  }

  function TcpViewOf(p: Packet): (r: Result<View>)
    ensures r.Ok? ==>
              var View(at, payload, ipv6) := r.value;
              && at + 20 <= payload <= |p| && |p| < 0x1_0028
              && if ipv6 then 40 <= at && p[0] / 16 == 6 else 20 <= at <= 60 && p[0] / 16 == 4 && |p| < 0x1_0000
  {
    if |p| < 40 then Err(BAD_PACKET)
    else
      var ipv6 := p[0] / 16 == 6;
      var at :- TcpHeader(p);
      var header := p[at + 12] / 16 * 4;
      if header < 20 || at + header > |p| then Err(BAD_PACKET) else Ok(View(at, at + header, ipv6))
  }

  method UdpView(p: Packet) returns (r: Result<View>)
    ensures r == UdpViewOf(p)
  {
    hide TransportOf;
    if |p| < 28 {
      return Err(BAD_PACKET);
    }
    var version := p[0] / 16;
    var at: nat := 0;
    if version == 4 {
      var header := p[0] % 16 * 4;
      if header < 20 || header + 8 > |p| || p[9] != UDP || Word(p, 2) != |p| {
        return Err(BAD_PACKET);
      }
      if IsFragment(Word(p, 6)) {
        return Err(BAD_PACKET);
      }
      at := header;
    } else if version == 6 {
      var transport :- Ipv6Transport(p);
      if transport.protocol != UDP || transport.offset + 8 > |p| {
        return Err(BAD_PACKET);
      }
      at := transport.offset;
    } else {
      return Err(BAD_PACKET);
    }
    if Word(p, at + 2) != 53 || Word(p, at + 4) != |p| - at || |p| - (at + 8) < 12 {
      return Err(BAD_PACKET);
    }
    return Ok(View(at, at + 8, version == 6));
  }

  method TcpView(p: Packet) returns (r: Result<View>)
    ensures r == TcpViewOf(p)
  {
    hide TransportOf;
    if |p| < 40 {
      return Err(BAD_PACKET);
    }
    var version := p[0] / 16;
    var at: nat := 0;
    if version == 4 {
      var header := p[0] % 16 * 4;
      if header < 20 || header + 20 > |p| || p[9] != TCP || Word(p, 2) != |p| {
        return Err(BAD_PACKET);
      }
      if IsFragment(Word(p, 6)) {
        return Err(BAD_PACKET);
      }
      at := header;
    } else if version == 6 {
      var transport :- Ipv6Transport(p);
      if transport.protocol != TCP || transport.offset + 20 > |p| {
        return Err(BAD_PACKET);
      }
      at := transport.offset;
    } else {
      return Err(BAD_PACKET);
    }
    var header := p[at + 12] / 16 * 4;
    if header < 20 || at + header > |p| {
      return Err(BAD_PACKET);
    }
    return Ok(View(at, at + header, version == 6));
  }
}
