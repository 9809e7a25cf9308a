/** Keys built of fields with '|' between them: `network_route_key` in network.cpp and the keys made with it. */
module RouteKeys {
  import opened Decimal
  import opened ConfigModel

  const BAR := "|"

  function RouteKey(route: Route): (key: string)
  {
    route.interfaceId + BAR + ToText(route.index4) + BAR + ToText(route.index6) + BAR + ToText(route.scope6) + BAR
    + ToText(route.generation)
  }

  /** Routes that differ at most in the display name of the interface. */
  predicate SameNetwork(a: Route, b: Route) { a.(interfaceName := "") == b.(interfaceName := "") }

  /** A field without bars ends at the first bar. */
  lemma FieldEnds(a: string, more: string, b: string, rest: string)
    requires '|' !in a && '|' !in b
    requires a + BAR + more == b + BAR + rest
    ensures a == b && more == rest
  {
    var one, other := a + BAR + more, b + BAR + rest;
    assert one[|a|] == '|' && other[|b|] == '|';
    assert |a| == |b|;
    assert a == one[..|a|] && b == other[..|b|];
    assert more == one[|a| + 1..] && rest == other[|b| + 1..];
  }

  lemma DigitsHaveNoBar(n: nat)
    ensures '|' !in ToText(n)
  {
    assert !IsDigit('|');
  }

  lemma NumberEnds(m: nat, more: string, n: nat, rest: string)
    requires ToText(m) + BAR + more == ToText(n) + BAR + rest
    ensures m == n && more == rest
  {
    DigitsHaveNoBar(m);
    DigitsHaveNoBar(n);
    FieldEnds(ToText(m), more, ToText(n), rest);
    TextInjective(m, n);
  }

  /** A field without bars begins behind the last bar. */
  lemma FieldBegins(front: string, a: string, start: string, b: string)
    requires '|' !in a && '|' !in b
    requires front + BAR + a == start + BAR + b
    ensures front == start && a == b
  {
    var one, other := front + BAR + a, start + BAR + b;
    assert one[|front|] == '|' && other[|start|] == '|';
    assert forall k :: 0 <= k < |a| ==> one[|front| + 1 + k] == a[k];
    assert forall k :: 0 <= k < |b| ==> other[|start| + 1 + k] == b[k];
    assert |front| == |start|;
    assert front == one[..|front|] && start == other[..|start|];
    assert a == one[|front| + 1..] && b == other[|start| + 1..];
  }

  lemma NumberBegins(front: string, m: nat, start: string, n: nat)
    requires front + BAR + ToText(m) == start + BAR + ToText(n)
    ensures front == start && m == n
  {
    DigitsHaveNoBar(m);
    DigitsHaveNoBar(n);
    FieldBegins(front, ToText(m), start, ToText(n));
    TextInjective(m, n);
  }

  /** A route key tells the network, whatever the interface ID looks like: its numbers split off from the right. */
  lemma RouteKeyInjective(a: Route, b: Route)
    ensures RouteKey(a) == RouteKey(b) <==> SameNetwork(a, b)
  {
    if RouteKey(a) == RouteKey(b) {
      hide ToText;
      var c, d := a.interfaceId + BAR + ToText(a.index4), b.interfaceId + BAR + ToText(b.index4);
      var e, f := c + BAR + ToText(a.index6), d + BAR + ToText(b.index6);
      NumberBegins(e + BAR + ToText(a.scope6), a.generation, f + BAR + ToText(b.scope6), b.generation);
      NumberBegins(e, a.scope6, f, b.scope6);
      NumberBegins(c, a.index6, d, b.index6);
      NumberBegins(a.interfaceId, a.index4, b.interfaceId, b.index4);
    }
  }
}
