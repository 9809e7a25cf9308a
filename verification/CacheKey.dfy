/** The key under which a response is cached and requests are joined: the first part of `Router::exchange_cached` in router.cpp. */
module CacheKey {
  import opened Bytes
  import opened Decimal
  import opened ConfigModel
  import opened RouteKeys

  /** A server from the configuration, or the one the query was sent to. */
  datatype Upstream = Upstream(configured: bool, server: Server)

  function ProtocolNumber(p: Protocol): (n: nat)
    ensures n < 8
  {
    match p
    case Udp => 0
    case Tcp => 1
    case Doh => 2
    case Dot => 3
    case Doh3 => 4
    case Doq => 5
    case Dnscrypt => 6
    case AnonymizedDnscrypt => 7
  }

  function Text(p: Packet): (s: string)
    ensures |s| == |p| && forall i :: 0 <= i < |p| ==> s[i] == p[i] as char
  {
    seq(|p|, i requires 0 <= i < |p| => p[i] as char)
  }

  lemma TextInjective(p: Packet, q: Packet)
    requires Text(p) == Text(q)
    ensures p == q
  {
    assert forall i :: 0 <= i < |p| ==> p[i] as char as int == Text(p)[i] as int;
  }

  function Selector(u: Upstream): (s: string)
  {
    if u.configured then "configured:" + ToText(u.server.id) else "original:" + ToText(ProtocolNumber(u.server.protocol))
  }

  function Endpoint(u: Upstream): (s: string)
  {
    if u.configured then "" else u.server.ip + BAR + ToText(u.server.port) + BAR
  }

  /** The ID of a query is blanked out. */
  function Blanked(request: Packet): (s: string)
    requires |request| >= 2
  {
    "\0\0" + Text(request[2..])
  }

  function Key(u: Upstream, request: Packet): (key: string)
    requires |request| >= 2
  {
    Selector(u) + BAR + RouteKey(u.server.route) + BAR + Endpoint(u) + Blanked(request)
  }

  /** The same server, asked over the same network. */
  predicate SameUpstream(a: Upstream, b: Upstream)
  {
    && a.configured == b.configured
    && (a.configured ==> a.server.id == b.server.id)
    && (!a.configured ==> a.server.protocol == b.server.protocol && a.server.ip == b.server.ip && a.server.port == b.server.port)
    && SameNetwork(a.server.route, b.server.route)
  }

  /**
   What the system reports: interface IDs and addresses come as texts that end at their first NUL, and the text of an
   address has no bars. An interface ID may have some.
   */
  predicate Reported(u: Upstream)
  {
    '\0' !in u.server.route.interfaceId && (u.configured || ('\0' !in u.server.ip && '|' !in u.server.ip))
  }

  lemma SelectorHasNoBar(u: Upstream)
    ensures '|' !in Selector(u)
  {
    DigitsHaveNoBar(u.server.id);
    DigitsHaveNoBar(ProtocolNumber(u.server.protocol));
  }

  lemma SelectorInjective(a: Upstream, b: Upstream)
    requires Selector(a) == Selector(b)
    ensures a.configured == b.configured
    ensures if a.configured then a.server.id == b.server.id else a.server.protocol == b.server.protocol
  {
    hide ToText;
    assert Selector(a)[0] == if a.configured then 'c' else 'o';
    assert Selector(b)[0] == if b.configured then 'c' else 'o';
    if a.configured {
      assert ToText(a.server.id) == Selector(a)[11..] == ToText(b.server.id);
      Decimal.TextInjective(a.server.id, b.server.id);
    } else {
      var m, n := ProtocolNumber(a.server.protocol), ProtocolNumber(b.server.protocol);
      assert ToText(m) == Selector(a)[9..] == ToText(n);
      Decimal.TextInjective(m, n);
    }
  }

  /** The part of a key in front of the query. */
  function Front(u: Upstream): (s: string)
  {
    Selector(u) + BAR + RouteKey(u.server.route) + BAR + Endpoint(u)
  }

  lemma DigitsHaveNoNul(n: nat)
    ensures '\0' !in ToText(n)
  {
    assert !IsDigit('\0');
  }

  lemma FrontHasNoNul(u: Upstream)
    requires Reported(u)
    ensures '\0' !in Front(u)
  {
    hide ToText;
    var r := u.server.route;
    DigitsHaveNoNul(u.server.id);
    DigitsHaveNoNul(ProtocolNumber(u.server.protocol));
    DigitsHaveNoNul(u.server.port);
    DigitsHaveNoNul(r.index4);
    DigitsHaveNoNul(r.index6);
    DigitsHaveNoNul(r.scope6);
    DigitsHaveNoNul(r.generation);
  }

  /** The first NUL of a key ends its front. */
  lemma FrontEnds(front: string, p: Packet, start: string, q: Packet)
    requires |p| >= 2 && |q| >= 2 && '\0' !in front && '\0' !in start
    requires front + Blanked(p) == start + Blanked(q)
    ensures front == start && Blanked(p) == Blanked(q)
  {
    var one, other := front + Blanked(p), start + Blanked(q);
    assert one[|front|] == '\0' && other[|start|] == '\0';
    assert |front| == |start|;
    assert front == one[..|front|] && start == other[..|start|];
    assert Blanked(p) == one[|front|..] && Blanked(q) == other[|start|..];
  }

  /** Behind the selector, a front is split from the right: port and address first, if any, then the route. */
  lemma BehindSelector(a: Upstream, b: Upstream)
    requires a.configured == b.configured && Reported(a) && Reported(b)
    requires RouteKey(a.server.route) + BAR + Endpoint(a) == RouteKey(b.server.route) + BAR + Endpoint(b)
    ensures RouteKey(a.server.route) == RouteKey(b.server.route)
    ensures !a.configured ==> a.server.ip == b.server.ip && a.server.port == b.server.port
  {
    hide RouteKey;
    hide ToText;
    var k, l := RouteKey(a.server.route), RouteKey(b.server.route);
    if a.configured {
      FieldBegins(k, "", l, "");
    } else {
      var m, n := ToText(a.server.port), ToText(b.server.port);
      var c, d := k + BAR + a.server.ip, l + BAR + b.server.ip;
      assert k + BAR + Endpoint(a) == (c + BAR + m) + BAR + "";
      assert l + BAR + Endpoint(b) == (d + BAR + n) + BAR + "";
      FieldBegins(c + BAR + m, "", d + BAR + n, "");
      NumberBegins(c, a.server.port, d, b.server.port);
      FieldBegins(k, a.server.ip, l, b.server.ip);
    }
  }

  lemma BlankedInjective(p: Packet, q: Packet)
    requires |p| >= 2 && |q| >= 2 && Blanked(p) == Blanked(q)
    ensures p[2..] == q[2..]
  {
    assert Text(p[2..]) == Blanked(p)[2..] == Blanked(q)[2..] == Text(q[2..]);
    TextInjective(p[2..], q[2..]);
  }

  /** Upstreams and queries with equal identities share a key. */
  lemma KeyOfSame(a: Upstream, p: Packet, b: Upstream, q: Packet)
    requires |p| >= 2 && |q| >= 2 && SameUpstream(a, b) && p[2..] == q[2..]
    ensures Key(a, p) == Key(b, q)
  {
  }

  /**
   For everything the system reports a key tells the upstream, the network and the query but for its ID, and nothing
   else. An interface ID may have bars in it.
   */
  lemma KeyInjective(a: Upstream, p: Packet, b: Upstream, q: Packet)
    requires |p| >= 2 && |q| >= 2 && Reported(a) && Reported(b)
    ensures Key(a, p) == Key(b, q) <==> SameUpstream(a, b) && p[2..] == q[2..]
  {
    hide RouteKey;
    hide Selector;
    hide Endpoint;
    hide Blanked;
    if Key(a, p) == Key(b, q) {
      FrontHasNoNul(a);
      FrontHasNoNul(b);
      FrontEnds(Front(a), p, Front(b), q);
      BlankedInjective(p, q);
      FrontTells(a, b);
    }
    if SameUpstream(a, b) && p[2..] == q[2..] {
      KeyOfSame(a, p, b, q);
    }
  }

  lemma FrontTells(a: Upstream, b: Upstream)
    requires Front(a) == Front(b) && Reported(a) && Reported(b)
    ensures SameUpstream(a, b)
  {
    hide RouteKey;
    hide Selector;
    hide Endpoint;
    var c, d := RouteKey(a.server.route) + BAR + Endpoint(a), RouteKey(b.server.route) + BAR + Endpoint(b);
    assert Front(a) == Selector(a) + BAR + c;
    assert Front(b) == Selector(b) + BAR + d;
    SelectorHasNoBar(a);
    SelectorHasNoBar(b);
    FieldEnds(Selector(a), c, Selector(b), d);
    SelectorInjective(a, b);
    BehindSelector(a, b);
    RouteKeyInjective(a.server.route, b.server.route);
  }

  /**
   The condition on NULs cannot be dropped: an interface ID with NULs in it, which no system reports, could look like the
   end of a route and the start of a query.
   */
  lemma NulsConfuse(s: Server) returns (a: Upstream, p: Packet, b: Upstream, q: Packet)
    ensures |p| >= 2 && |q| >= 2 && Key(a, p) == Key(b, q)
    ensures !SameUpstream(a, b) && p[2..] != q[2..]
  {
    hide Selector;
    hide RouteKey;
    hide Blanked;
    var z := "|0|0|0|0";
    var x := z + "|\0\0";
    a := Upstream(true, s.(route := NO_ROUTE));
    b := Upstream(true, s.(route := NO_ROUTE.(interfaceId := x)));
    p := [0, 0, 124, 48, 124, 48, 124, 48, 124, 48, 124, 0, 0];
    q := [0, 0];
    IdleRoute("", z);
    IdleRoute(x, z);
    BlankedMimic(p, q, x);
    SameSelector(a, b);
    var front := Selector(a) + BAR;
    assert Key(a, p) == front + (z + "|\0\0" + x);
    assert Key(b, q) == front + (x + z + "|\0\0");
  }

  lemma IdleRoute(id: string, z: string)
    requires z == "|0|0|0|0"
    ensures RouteKey(Route(id, "", 0, 0, 0, 0)) == id + z
  {
    assert ToText(0) == "0";
  }

  lemma BlankedMimic(p: Packet, q: Packet, x: string)
    requires p == [0, 0, 124, 48, 124, 48, 124, 48, 124, 48, 124, 0, 0] && q == [0, 0]
    requires x == "|0|0|0|0" + "|\0\0"
    ensures Blanked(p) == "\0\0" + x && Blanked(q) == "\0\0"
  {
    assert Text(p[2..]) == x;
  }

  lemma SameSelector(a: Upstream, b: Upstream)
    requires a.configured && b.configured && a.server.id == b.server.id
    ensures Selector(a) == Selector(b)
  {
  }
}
