/** Validation and rule matching: `validate`, `match_rule` and `evaluate_rule` of rules.cpp. */
module Rules {
  import opened Bytes
  import opened HostName
  import Glob
  import FallbackGraph
  import opened ConfigModel

  /** The checks of code outside this model: numeric endpoints, and the parameters of a DNSCrypt server. */
  datatype Externals = Externals(numericEndpoint: string -> bool, dnscryptComplaint: DnsCryptParameters -> Option<string>)

  datatype DnsCryptParameters = DnsCryptParameters(protocol: Protocol, ip: string, provider: string, publicKey: string, relay: string)

  function ParametersOf(s: Server): (p: DnsCryptParameters)
  {
    DnsCryptParameters(s.protocol, s.ip, s.provider, s.publicKey, s.relay)
  }

  const MAX_ITEMS := 4096

  const DEBUG_LEVEL := 3

  const SILENT_DROP := 3

  // ---- What a valid configuration is ----

  predicate UrlOk(url: string)
  {
    && "https://" <= url && |url| > 8 && url[8] != '/'
    && forall i :: 0 <= i < |url| ==> url[i] !in {'\r', '\n', '\t', ' ', '@'}
  }

  ghost predicate ServerOk(s: Server, ext: Externals)
  {
    && s.id != 0 && s.name != "" && 1 <= s.timeout <= 120000
    && (s.ip != "" ==> ext.numericEndpoint(s.ip))
    && (s.protocol.Udp? || s.protocol.Tcp? ==> s.ip != "")
    && (s.protocol.Dnscrypt? || s.protocol.AnonymizedDnscrypt? ==> ext.dnscryptComplaint(ParametersOf(s)).None?)
    && (s.directFallback ==> s.protocol.AnonymizedDnscrypt?)
    && (s.protocol.Dot? || s.protocol.Doq? ==> NormalizedName(s.hostname, false, true).Ok?)
    && (s.protocol.Doh? || s.protocol.Doh3? ==> UrlOk(s.url))
    && FallbacksOk(s)
  }

  ghost predicate FallbacksOk(s: Server)
  {
    && (forall k :: 0 <= k < |s.fallbacks| ==> s.fallbacks[k] != 0 && s.fallbacks[k] != s.id)
    && (forall j, k :: 0 <= j < k < |s.fallbacks| ==> s.fallbacks[j] != s.fallbacks[k])
  }

  ghost predicate DistinctServers(servers: seq<Server>)
  {
    forall j, k :: 0 <= j < k < |servers| ==> servers[j].id != servers[k].id
  }

  /** The fallback graph; the first server with an ID counts. */
  function GraphOf(servers: seq<Server>): (g: FallbackGraph.Graph)
  {
    if servers == [] then map[]
    else
      var g, last := GraphOf(servers[..|servers| - 1]), servers[|servers| - 1];
      if last.id in g then g else g[last.id as nat := Widened(last.fallbacks)]
  }

  function Widened(ids: seq<uint32>): (r: seq<nat>)
    ensures |r| == |ids| && forall k :: 0 <= k < |ids| ==> r[k] == ids[k]
  {
    seq(|ids|, k requires 0 <= k < |ids| => ids[k])
  }

  ghost predicate RuleOk(c: Config, i: nat)
    requires i < |c.rules|
  {
    var r := c.rules[i];
    && r.id != 0 && r.name != "" && r.blockMode <= 3
    && (r.isDefault <==> i == |c.rules| - 1)
    && (r.isDefault ==> r.enabled && r.patterns == ["*"])
    && 1 <= |r.patterns| <= 4096
    && (forall k :: 0 <= k < |r.patterns| ==> DnsNameOf(r.patterns[k], true).Ok?)
    && (r.serverId != 0 ==> r.action.Process? && exists k :: 0 <= k < |c.servers| && c.servers[k].id == r.serverId)
  }

  ghost predicate HeaderValid(c: Config)
  {
    && RuntimeOptions(c.settings).Ok? && c.schemaVersion == 1
    && |c.servers| <= 4096 && 1 <= |c.rules| <= 4096 && 1 <= c.testConcurrency <= 64
    && NormalizedName(c.testTarget, false, true).Ok?
    && c.logging.screen <= 3 && c.logging.file <= 3
  }

  ghost predicate ServersValid(servers: seq<Server>, ext: Externals)
  {
    && (forall k :: 0 <= k < |servers| ==> ServerOk(servers[k], ext)) && DistinctServers(servers)
    && FallbackGraph.Closed(GraphOf(servers)) && !FallbackGraph.HasCycle(GraphOf(servers))
  }

  ghost predicate RulesValid(c: Config)
  {
    && (forall i :: 0 <= i < |c.rules| ==> RuleOk(c, i))
    && (forall j, k :: 0 <= j < k < |c.rules| ==> c.rules[j].id != c.rules[k].id)
  }

  ghost predicate Valid(c: Config, ext: Externals)
  {
    HeaderValid(c) && ServersValid(c.servers, ext) && RulesValid(c)
  }

  // ---- The check itself ----

  method CheckFallbacks(s: Server) returns (ok: bool)
    ensures ok <==> FallbacksOk(s)
  {
    var seen: set<uint32> := {};
    var i: nat := 0;
    while i < |s.fallbacks|
      invariant i <= |s.fallbacks|
      invariant seen == set k | 0 <= k < i :: s.fallbacks[k]
      invariant forall k :: 0 <= k < i ==> s.fallbacks[k] != 0 && s.fallbacks[k] != s.id
      invariant forall j, k :: 0 <= j < k < i ==> s.fallbacks[j] != s.fallbacks[k]
    {
      if s.fallbacks[i] == 0 || s.fallbacks[i] == s.id || s.fallbacks[i] in seen {
        return false;
      }
      seen := seen + {s.fallbacks[i]};
      i := i + 1;
    }
    return true;
  }

  method CheckServer(s: Server, ext: Externals) returns (complaint: Option<string>)
    ensures complaint.None? <==> ServerOk(s, ext)
  {
    hide UrlOk;
    hide FallbacksOk;
    hide NormalizedName;
    if s.id == 0 || s.name == "" {
      return Some("SERVER_ID");
    }
    if s.timeout == 0 || s.timeout > 120000 {
      return Some("CONFIG");
    }
    if s.ip != "" && !ext.numericEndpoint(s.ip) {
      return Some("ENDPOINT");
    }
    if (s.protocol.Udp? || s.protocol.Tcp?) && s.ip == "" {
      return Some("ENDPOINT");
    }
    if s.protocol.Dnscrypt? || s.protocol.AnonymizedDnscrypt? {
      complaint := ext.dnscryptComplaint(ParametersOf(s));
      if complaint.Some? {
        return;
      }
    }
    if s.directFallback && !s.protocol.AnonymizedDnscrypt? {
      return Some("CONFIG");
    }
    if s.protocol.Dot? || s.protocol.Doq? {
      var name := NormalizeAsciiName(s.hostname, false, true);
      if name.Err? {
        return Some(name.code);
      }
    }
    if s.protocol.Doh? || s.protocol.Doh3? {
      if !UrlOk(s.url) {
        return Some("ENDPOINT");
      }
    }
    var fallbacks := CheckFallbacks(s);
    return if fallbacks then None else Some("SERVER_FALLBACK");
  }

  /** The keys of the graph are the IDs, and a server with a fresh ID brings its own fallbacks. */
  lemma {:induction false} GraphKeys(servers: seq<Server>)
    ensures forall id :: id in GraphOf(servers) <==> exists k :: 0 <= k < |servers| && servers[k].id == id
  {
    if servers != [] {
      var rest := servers[..|servers| - 1];
      GraphKeys(rest);
      assert forall k :: 0 <= k < |rest| ==> rest[k] == servers[k];
      forall id | id in GraphOf(servers)
        ensures exists k :: 0 <= k < |servers| && servers[k].id == id
      {
        if id in GraphOf(rest) {
          var k :| 0 <= k < |rest| && rest[k].id == id;
          assert servers[k].id == id;
        } else {
          assert servers[|servers| - 1].id == id;
        }
      }
    }
  }

  method CheckServers(servers: seq<Server>, ext: Externals) returns (complaint: Option<string>)
    ensures complaint.None? <==> ServersValid(servers, ext)
  {
    hide ServerOk;
    hide DistinctServers;
    hide GraphOf;
    hide FallbackGraph.Closed;
    hide FallbackGraph.HasCycle;
    hide FallbackGraph.Elements;
    var g: FallbackGraph.Graph;
    complaint, g := CheckEach(servers, ext);
    if complaint.Some? {
      return;
    }
    var ids := Ids(servers);
    var closed := CheckClosed(g, ids);
    if !closed {
      return Some("SERVER_FALLBACK");
    }
    var acyclic := FallbackGraph.FindsNoCycle(g, ids);
    return if acyclic then None else Some("SERVER_FALLBACK");
  }

  /** The loop over the servers: each is sound by itself and has an ID of its own. */
  method CheckEach(servers: seq<Server>, ext: Externals) returns (complaint: Option<string>, g: FallbackGraph.Graph)
    ensures complaint.None? <==> (forall k :: 0 <= k < |servers| ==> ServerOk(servers[k], ext)) && DistinctServers(servers)
    ensures complaint.None? ==> g == GraphOf(servers)
  {
    hide ServerOk;
    hide GraphOf;
    g := map[];
    var i: nat := 0;
    EmptyGraph();
    while i < |servers|
      invariant i <= |servers| && g == GraphOf(servers[..i])
      invariant forall k :: 0 <= k < i ==> ServerOk(servers[k], ext)
      invariant forall j, k :: 0 <= j < k < i ==> servers[j].id != servers[k].id
    {
      GraphGrows(servers, i);
      if servers[i].id in g {
        return Some("SERVER_ID"), g;
      }
      complaint := CheckServer(servers[i], ext);
      if complaint.Some? {
        return;
      }
      g := g[servers[i].id as nat := Widened(servers[i].fallbacks)];
      i := i + 1;
    }
    assert servers[..i] == servers;
    complaint := None;
  }

  lemma EmptyGraph()
    ensures GraphOf([]) == map[]
  {
  }

  lemma GraphGrows(servers: seq<Server>, i: nat)
    requires i < |servers|
    ensures servers[i].id in GraphOf(servers[..i]) <==> exists j :: 0 <= j < i && servers[j].id == servers[i].id
    ensures servers[i].id !in GraphOf(servers[..i]) ==>
              GraphOf(servers[..i + 1]) == GraphOf(servers[..i])[servers[i].id as nat := Widened(servers[i].fallbacks)]
  {
    GraphKeys(servers[..i]);
    assert servers[..i + 1][..i] == servers[..i];
  }

  /** The IDs of the servers in order. */
  method Ids(servers: seq<Server>) returns (ids: seq<nat>)
    ensures FallbackGraph.Elements(ids) == GraphOf(servers).Keys
  {
    ids := [];
    var i: nat := 0;
    while i < |servers|
      invariant i <= |servers| && |ids| == i
      invariant forall k :: 0 <= k < i ==> ids[k] == servers[k].id
    {
      ids := ids + [servers[i].id as nat];
      i := i + 1;
    }
    GraphKeys(servers);
  }

  method CheckClosed(g: FallbackGraph.Graph, ids: seq<nat>) returns (ok: bool)
    requires FallbackGraph.Elements(ids) == g.Keys
    ensures ok <==> FallbackGraph.Closed(g)
  {
    var i: nat := 0;
    while i < |ids|
      invariant i <= |ids|
      invariant forall k :: 0 <= k < i ==> forall b :: b in g[ids[k]] ==> b in g
    {
      assert ids[i] in FallbackGraph.Elements(ids);
      var j: nat := 0;
      while j < |g[ids[i]]|
        invariant j <= |g[ids[i]]|
        invariant forall k :: 0 <= k < j ==> g[ids[i]][k] in g
      {
        if g[ids[i]][j] !in g {
          assert FallbackGraph.Edge(g, ids[i], g[ids[i]][j]);
          return false;
        }
        j := j + 1;
      }
      i := i + 1;
    }
    forall a, b | FallbackGraph.Edge(g, a, b)
      ensures b in g
    {
      assert a in FallbackGraph.Elements(ids);
    }
    return true;
  }

  method CheckPatterns(patterns: seq<string>) returns (ok: bool)
    ensures ok <==> forall k :: 0 <= k < |patterns| ==> DnsNameOf(patterns[k], true).Ok?
  {
    hide NormalizedName;
    var i: nat := 0;
    while i < |patterns|
      invariant i <= |patterns|
      invariant forall k :: 0 <= k < i ==> DnsNameOf(patterns[k], true).Ok?
    {
      var name := NormalizeAsciiName(patterns[i], true, false);
      if name.Err? {
        assert !DnsNameOf(patterns[i], true).Ok?;
        return false;
      }
      i := i + 1;
    }
    return true;
  }

  method CheckRule(c: Config, i: nat) returns (complaint: Option<string>)
    requires i < |c.rules|
    ensures complaint.None? <==> RuleOk(c, i)
  {
    hide DnsNameOf;
    var r := c.rules[i];
    if r.id == 0 || r.name == "" {
      return Some("RULE_ID");
    }
    if r.blockMode > SILENT_DROP {
      return Some("CONFIG");
    }
    if r.isDefault != (i == |c.rules| - 1) {
      return Some("DEFAULT");
    }
    if r.isDefault && (!r.enabled || r.patterns != ["*"]) {
      return Some("DEFAULT");
    }
    if r.patterns == [] || |r.patterns| > MAX_ITEMS {
      return Some("PATTERN");
    }
    var patterns := CheckPatterns(r.patterns);
    if !patterns {
      return Some("HOST");
    }
    if r.action.Process? && r.serverId != 0 && forall k :: 0 <= k < |c.servers| ==> c.servers[k].id != r.serverId {
      return Some("SERVER_REFERENCE");
    }
    if !r.action.Process? && r.serverId != 0 {
      return Some("SERVER_REFERENCE");
    }
    return None;
  }

  method CheckRules(c: Config) returns (complaint: Option<string>)
    ensures complaint.None? <==> RulesValid(c)
  {
    hide RuleOk;
    var ids: set<uint32> := {};
    var i: nat := 0;
    while i < |c.rules|
      invariant i <= |c.rules|
      invariant ids == set k | 0 <= k < i :: c.rules[k].id
      invariant forall k :: 0 <= k < i ==> RuleOk(c, k)
      invariant forall j, k :: 0 <= j < k < i ==> c.rules[j].id != c.rules[k].id
    {
      if c.rules[i].id in ids {
        return Some("RULE_ID");
      }
      complaint := CheckRule(c, i);
      if complaint.Some? {
        return;
      }
      ids := ids + {c.rules[i].id};
      i := i + 1;
    }
    return None;
  }

  /** A configuration is accepted exactly when it is valid; otherwise the code of the complaint is returned. */
  method Validate(c: Config, ext: Externals) returns (complaint: Option<string>)
    ensures complaint.None? <==> Valid(c, ext)
  {
    hide RuntimeOptions;
    hide NormalizedName;
    hide ServersValid;
    hide RulesValid;
    if RuntimeOptions(c.settings).Err? {
      return Some("CONFIG_SETTING");
    }
    if c.schemaVersion != 1 {
      return Some("SCHEMA");
    }
    if |c.servers| > MAX_ITEMS || c.rules == [] || |c.rules| > MAX_ITEMS {
      return Some("CONFIG_LIMIT");
    }
    if c.testConcurrency == 0 || c.testConcurrency > 64 {
      return Some("CONFIG");
    }
    var target := NormalizeAsciiName(c.testTarget, false, true);
    if target.Err? {
      return Some("HOST");
    }
    if c.logging.screen > DEBUG_LEVEL || c.logging.file > DEBUG_LEVEL {
      return Some("CONFIG");
    }
    complaint := CheckServers(c.servers, ext);
    if complaint.None? {
      complaint := CheckRules(c);
    }
  }

  // ---- Matching ----

  /** Some pattern of the rule means this host. */
  ghost predicate RuleMatches(r: Rule, host: string)
  {
    exists k :: 0 <= k < |r.patterns| && DnsNameOf(r.patterns[k], true).Ok? && Glob.Matches(host, DnsNameOf(r.patterns[k], true).value)
  }

  /** The Default rule of a valid configuration is enabled and matches every host. */
  lemma DefaultMatchesAll(c: Config, host: string)
    requires |c.rules| > 0 && RulesValid(c)
    ensures var last := c.rules[|c.rules| - 1];
            last.isDefault && last.enabled && RuleMatches(last, host)
  {
    hide Glob.Matches;
    hide LabelChar;
    assert RuleOk(c, |c.rules| - 1);
    StarIsCanonical();
    Glob.StarMatchesAll(host);
    assert DnsNameOf(c.rules[|c.rules| - 1].patterns[0], true) == Ok("*");
  }

  lemma StarIsCanonical()
    ensures DnsNameOf("*", true) == Ok("*")
  {
    assert FirstDot("*") == 1;
    assert LowerAll("*") == "*";
  }

  ghost predicate PatternsOk(r: Rule)
  {
    forall k :: 0 <= k < |r.patterns| ==> DnsNameOf(r.patterns[k], true).Ok?
  }

  /** The loop over the patterns of one rule; a pattern that is no name is an error. */
  method MatchesRule(r: Rule, host: string) returns (m: Result<bool>)
    requires Glob.NoStar(host, 0, |host|)
    ensures PatternsOk(r) ==> m == Ok(RuleMatches(r, host))
    ensures m.Err? ==> m.code == "HOST"
  {
    hide Glob.Matches;
    hide NormalizedName;
    var i: nat := 0;
    while i < |r.patterns|
      invariant i <= |r.patterns|
      invariant forall k :: 0 <= k < i ==>
                  DnsNameOf(r.patterns[k], true).Ok? && !Glob.Matches(host, DnsNameOf(r.patterns[k], true).value)
    {
      var pattern :- NormalizeAsciiName(r.patterns[i], true, false);
      assert DnsNameOf(r.patterns[i], true) == Ok(pattern);
      var m := Glob.HostMatches(host, pattern);
      if m {
        return Ok(true);
      }
      i := i + 1;
    }
    return Ok(false);
  }

  /** The position of the first enabled rule that matches: the meaning of the ordered rule list. */
  ghost predicate FirstMatch(c: Config, host: string, i: nat)
  {
    i < |c.rules| && c.rules[i].enabled && RuleMatches(c.rules[i], host) && NoneBefore(c, host, i)
  }

  /** No enabled rule in front of the `i`-th matches. */
  ghost predicate NoneBefore(c: Config, host: string, i: nat)
  {
    i <= |c.rules| && forall j :: 0 <= j < i ==> !(c.rules[j].enabled && RuleMatches(c.rules[j], host))
  }

  lemma RuleIsOk(c: Config, i: nat)
    requires RulesValid(c) && i < |c.rules|
    ensures PatternsOk(c.rules[i])
  {
    assert RuleOk(c, i);
  }

  lemma OneMorePassed(c: Config, host: string, i: nat)
    requires i < |c.rules| && NoneBefore(c, host, i) && !(c.rules[i].enabled && RuleMatches(c.rules[i], host))
    ensures NoneBefore(c, host, i + 1)
  {
    hide RuleMatches;
  }

  /** Some rule always matches: the last one. */
  lemma SomethingMatches(c: Config, host: string)
    requires |c.rules| > 0 && RulesValid(c)
    ensures !NoneBefore(c, host, |c.rules|)
  {
    hide RuleMatches;
    hide RulesValid;
    DefaultMatchesAll(c, host);
  }

  /** On a valid configuration a host that is a name always finds the first enabled matching rule. */
  method MatchRule(c: Config, hostname: string) returns (r: Result<nat>)
    ensures RulesValid(c) && |c.rules| > 0 && DnsNameOf(hostname, false).Ok? ==>
              r.Ok? && FirstMatch(c, DnsNameOf(hostname, false).value, r.value)
    ensures DnsNameOf(hostname, false).Err? ==> r == Err("HOST")
  {
    var host :- NormalizeAsciiName(hostname, false, false);
    NoWildcard(hostname);
    hide NormalizedName;
    hide RuleMatches;
    hide RuleOk;
    hide RulesValid;
    hide PatternsOk;
    ghost var valid := RulesValid(c);
    assert NoneBefore(c, host, 0);
    hide NoneBefore;
    var i: nat := 0;
    while i < |c.rules|
      invariant i <= |c.rules|
      invariant valid ==> NoneBefore(c, host, i)
    {
      if c.rules[i].enabled {
        if valid {
          RuleIsOk(c, i);
        }
        var m :- MatchesRule(c.rules[i], host);
        if m {
          return Ok(i);
        }
      }
      if valid {
        OneMorePassed(c, host, i);
      }
      i := i + 1;
    }
    if valid && |c.rules| > 0 {
      SomethingMatches(c, host);
    }
    return Err("DEFAULT");
  }

  // ---- Deciding, with interfaces ----

  datatype Interface = Interface(route: Route, up: bool, captivePortal: bool, dnsServers: seq<string>)

  /** The state of the network: an enumeration error, or interfaces and the lookup by selector and kind of selector. */
  datatype Network = Network(
    error: string,
    interfaces: seq<Interface>,
    find: (string, string) -> Result<Option<Interface>>)

  datatype Decision = Decision(
    rule: nat,
    errorCode: string,
    route: Option<Interface>,
    captiveBypass: bool,
    reinjectUdp: bool)

  function SelectorKind(r: Rule): (kind: string)
  {
    if "interface_id_type" in r.metadata then r.metadata["interface_id_type"] else "id"
  }

  /** The interface a rule asks for; a name stored beside the ID wins when the rule selects by name. */
  function Selector(r: Rule): (s: string)
  {
    if SelectorKind(r) == "name" && "interface_name" in r.metadata && r.metadata["interface_name"] != ""
    then r.metadata["interface_name"] else r.interfaceId
  }

  /** The rule asks for an interface that is missing or down, and such rules are to be passed over; never the Default. */
  predicate PassedOver(r: Rule, net: Network, options: Options)
  {
    && Selector(r) != "" && net.error == "" && options.ignoreInterfaceDown && !r.isDefault
    && var found := net.find(Selector(r), SelectorKind(r));
    && found.Ok? && (found.value.None? || !found.value.value.up)
  }

  /** The first enabled rule that matches and is not passed over. */
  ghost predicate FirstUsable(c: Config, host: string, net: Network, options: Options, i: nat)
  {
    && i < |c.rules| && c.rules[i].enabled && RuleMatches(c.rules[i], host) && !PassedOver(c.rules[i], net, options)
    && NoneUsable(c, host, net, options, i)
  }

  /** No rule in front of the `i`-th is usable. */
  ghost predicate NoneUsable(c: Config, host: string, net: Network, options: Options, i: nat)
  {
    && i <= |c.rules|
    && forall j :: 0 <= j < i ==> !(c.rules[j].enabled && RuleMatches(c.rules[j], host) && !PassedOver(c.rules[j], net, options))
  }

  lemma OneMoreUnusable(c: Config, host: string, net: Network, options: Options, i: nat)
    requires i < |c.rules| && NoneUsable(c, host, net, options, i)
    requires !(c.rules[i].enabled && RuleMatches(c.rules[i], host) && !PassedOver(c.rules[i], net, options))
    ensures NoneUsable(c, host, net, options, i + 1)
  {
    hide RuleMatches;
    hide PassedOver;
  }

  /** The Default is always usable. */
  lemma SomethingUsable(c: Config, host: string, net: Network, options: Options)
    requires |c.rules| > 0 && RulesValid(c)
    ensures !NoneUsable(c, host, net, options, |c.rules|)
  {
    hide RuleMatches;
    hide RulesValid;
    DefaultMatchesAll(c, host);
    DefaultNotPassedOver(c.rules[|c.rules| - 1], net, options);
  }

  const PORTAL_PROBES: set<string> := {
    "dns.msftncsi.com", "www.msftncsi.com", "ipv6.msftncsi.com", "www.msftconnecttest.com", "ipv6.msftconnecttest.com"
  }

  /** Why a chosen rule cannot be followed, the first reason first. */
  function Refusal(r: Rule, net: Network): (code: Option<string>)
  {
    var found := net.find(Selector(r), SelectorKind(r));
    if Selector(r) != "" && net.error != "" then Some("INTERFACE_ENUMERATION")
    else if Selector(r) != "" && found.Err? then Some(found.code)
    else if Selector(r) != "" && (found.value.None? || !found.value.value.up) then Some("INTERFACE_DOWN")
    else if r.dnssecValidate || r.dnssecRejectUnsigned then Some("NOT_IMPLEMENTED")
    else None
  }

  /** Something stands between the machine and the network, or the host is asked for to find that out. */
  ghost predicate AtPortal(host: string, net: Network)
  {
    host in PORTAL_PROBES || exists k :: 0 <= k < |net.interfaces| && net.interfaces[k].up && net.interfaces[k].captivePortal
  }

  /**
   What a chosen rule decides. It is refused for its first reason; otherwise only a Default rule that is bound to no
   interface gives way to a captive portal, and a query is reinjected only where nothing is left to do to it.
   */
  ghost predicate Decided(d: Decision, r: Rule, i: nat, host: string, net: Network, options: Options)
  {
    && d.rule == i
    && (Refusal(r, net).Some? ==> d.errorCode == Refusal(r, net).value && !d.captiveBypass && !d.reinjectUdp)
    && (Refusal(r, net).None? ==>
          && d.errorCode == ""
          && (if Selector(r) == "" then d.route.None?
              else net.find(Selector(r), SelectorKind(r)) == Ok(d.route) && d.route.Some? && d.route.value.up)
          && (d.captiveBypass <==>
                options.captivePortalDetection && r.action.Process? && r.isDefault && Selector(r) == "" && AtPortal(host, net))
          && (d.reinjectUdp <==>
                || d.captiveBypass || r.action.Bypass?
                || (r.action.Process? && r.serverId == 0 && Selector(r) == "" && options.ttlMin == 0 && options.ttlMax == TTL_LIMIT)))
  }

  method Decide(r: Rule, i: nat, host: string, net: Network, options: Options) returns (d: Decision)
    requires !PassedOver(r, net, options)
    ensures Decided(d, r, i, host, net, options)
  {
    d := Decision(i, "", None, false, false);
    if Selector(r) != "" {
      if net.error != "" {
        return d.(errorCode := "INTERFACE_ENUMERATION");
      }
      var found := net.find(Selector(r), SelectorKind(r));
      if found.Err? {
        return d.(errorCode := found.code);
      }
      if found.value.None? || !found.value.value.up {
        return d.(errorCode := "INTERFACE_DOWN");
      }
      d := d.(route := found.value);
    }
    if r.dnssecValidate || r.dnssecRejectUnsigned {
      return d.(errorCode := "NOT_IMPLEMENTED");
    }
    if options.captivePortalDetection && r.action.Process? && r.isDefault && Selector(r) == "" {
      var portal := exists k :: 0 <= k < |net.interfaces| && net.interfaces[k].up && net.interfaces[k].captivePortal;
      d := d.(captiveBypass := portal || host in PORTAL_PROBES);
    }
    d := d.(reinjectUdp := d.captiveBypass || r.action.Bypass?
                           || (r.action.Process? && r.serverId == 0 && Selector(r) == ""
                               && options.ttlMin == 0 && options.ttlMax == TTL_LIMIT));
  }

  /** On a valid configuration every host that is a name gets a decision, by the first usable rule. */
  method EvaluateRule(c: Config, hostname: string, net: Network) returns (r: Result<Decision>)
    ensures HeaderValid(c) && RulesValid(c) && DnsNameOf(hostname, false).Ok? ==>
              var host, options := DnsNameOf(hostname, false).value, RuntimeOptions(c.settings).value;
              && r.Ok? && FirstUsable(c, host, net, options, r.value.rule)
              && Decided(r.value, c.rules[r.value.rule], r.value.rule, host, net, options)
    ensures DnsNameOf(hostname, false).Err? ==> r == Err("HOST")
  {
    var host :- NormalizeAsciiName(hostname, false, false);
    NoWildcard(hostname);
    hide NormalizedName;
    hide RuleMatches;
    hide RuntimeOptions;
    hide PassedOver;
    hide Decided;
    hide RulesValid;
    hide PatternsOk;
    var options :- RuntimeOptions(c.settings);
    var i: nat := 0;
    ghost var valid := RulesValid(c) && c.rules != [];
    assert NoneUsable(c, host, net, options, 0);
    hide NoneUsable;
    while i < |c.rules|
      invariant i <= |c.rules|
      invariant valid ==> NoneUsable(c, host, net, options, i)
    {
      if c.rules[i].enabled {
        if valid {
          RuleIsOk(c, i);
        }
        var m :- MatchesRule(c.rules[i], host);
        if m && !PassedOver(c.rules[i], net, options) {
          var d := Decide(c.rules[i], i, host, net, options);
          return Ok(d);
        }
      }
      if valid {
        OneMoreUnusable(c, host, net, options, i);
      }
      i := i + 1;
    }
    if valid {
      SomethingUsable(c, host, net, options);
    }
    return Err("DEFAULT");
  }

  lemma DefaultNotPassedOver(r: Rule, net: Network, options: Options)
    requires r.isDefault
    ensures !PassedOver(r, net, options)
  {
  }
}
