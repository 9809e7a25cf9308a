/** `serialize_config` and `parse_config` of config.cpp are inverse to each other, and exactly when. */
module ConfigRoundTrip {
  import opened Bytes
  import opened Decimal
  import opened ConfigModel
  import opened ConfigLists
  import opened MapOrder
  import opened Xml
  import opened XmlPrinting
  import opened XmlDocument
  import opened XmlFields
  import opened ConfigNode
  import opened ConfigKeys
  import opened ConfigTree

  lemma NumReads(node: Node, key: string, fallback: uint32, n: uint32)
    requires Attr(node, key, ToText(fallback)) == ToText(n)
    ensures Num(node, key, fallback) == Ok(n)
  {
    NumberRoundTrip(n);
  }

  lemma FlagReads(node: Node, key: string, fallback: bool, b: bool)
    requires Attr(node, key, FlagText(fallback)) == FlagText(b)
    ensures Flag(node, key, fallback) == Ok(b)
  {
  }

  lemma ProtocolReads(p: Protocol)
    ensures ProtocolNamed(ProtocolName(p)) == Ok(p)
  {
  }

  lemma ActionReads(a: Action)
    ensures ActionNamed(ActionName(a)) == Ok(a)
  {
  }

  lemma ServerReads(s: Server, node: Node)
    requires node == NodeOf(ServerTree(s))
    ensures ServerOf(node) == Ok(ToldServer(s))
  {
    hide Num;
    hide Flag;
    hide Attr;
    hide Known;
    hide AttrsOf;
    hide Zipped;
    hide ServerValues;
    hide ToText;
    hide FlagText;
    hide ProtocolNamed;
    hide ProtocolName;
    hide SplitText;
    hide SplitIdsText;
    hide Joined;
    hide Texts;
    hide MetadataOf;
    hide MetasOf;
    hide NodesOf;
    ServerFront(s, node);
    ServerMiddle(s, node);
    ServerEnd(s, node);
    OnlyKnown("Server", SERVER_KEYS, ServerValues(s), node.children);
    NumReads(node, "id", 0, s.id);
    FlagReads(node, "enabled", true, s.enabled);
    ProtocolReads(s.protocol);
    NumReads(node, "port", 0, s.port);
    FlagReads(node, "dnssec", false, s.dnssec);
    NumReads(node, "timeout", 3000, s.timeout);
    FlagReads(node, "directCertificateFallback", false, s.directFallback);
    IdsRoundTrip(s.fallbacks);
    MetadataRoundTrip(s.metadata);
  }

  lemma RuleReads(r: Rule, node: Node)
    requires node == NodeOf(RuleTree(r))
    ensures RuleOf(node) == Ok(ToldRule(r))
  {
    hide Num;
    hide Flag;
    hide Attr;
    hide Known;
    hide AttrsOf;
    hide Zipped;
    hide RuleValues;
    hide ToText;
    hide FlagText;
    hide ActionNamed;
    hide ActionName;
    hide SplitText;
    hide Joined;
    hide MetadataOf;
    hide MetasOf;
    hide NodesOf;
    RuleFront(r, node);
    RuleEnd(r, node);
    OnlyKnown("Rule", RULE_KEYS, RuleValues(r), node.children);
    NumReads(node, "id", 0, r.id);
    FlagReads(node, "enabled", true, r.enabled);
    FlagReads(node, "default", false, r.isDefault);
    ActionReads(r.action);
    NumReads(node, "server", 0, r.serverId);
    FlagReads(node, "validate", false, r.dnssecValidate);
    FlagReads(node, "rejectUnsigned", false, r.dnssecRejectUnsigned);
    NumReads(node, "blockMode", 0, FromEnum(r.blockMode));
    EnumReads(r.blockMode);
    MetadataRoundTrip(r.metadata);
  }

  lemma LoggingReads(l: Logging, node: Node)
    requires node == NodeOf(LoggingTree(l))
    ensures LoggingOf(node) == Ok(l) && node.children == []
  {
    hide Num;
    hide Flag;
    hide Attr;
    hide Known;
    hide AttrsOf;
    hide Zipped;
    hide LoggingValues;
    hide ToText;
    hide FlagText;
    LoggingAll(l, node);
    OnlyKnown("Logging", LOGGING_KEYS, LoggingValues(l), node.children);
    NumReads(node, "screen", 1, FromEnum(l.screen));
    NumReads(node, "file", 1, FromEnum(l.file));
    FlagReads(node, "enabled", true, l.fileEnabled);
    EnumReads(l.screen);
    EnumReads(l.file);
  }

  lemma {:induction false} NodesOfParts(a: seq<Tree>, b: seq<Tree>)
    ensures NodesOf(a + b) == NodesOf(a) + NodesOf(b)
  {
    hide NodeOf;
    if a == [] {
      assert a + b == b;
    } else {
      NodesOfParts(a[1..], b);
      assert (a + b)[1..] == a[1..] + b;
    }
  }

  lemma OneNode(t: Tree)
    ensures NodesOf([t]) == [NodeOf(t)]
  {
    hide NodeOf;
  }

  lemma {:induction false} GatheredParts(start: Draft, a: seq<Node>, b: seq<Node>, middle: Draft)
    requires Gathered(start, a) == Ok(middle)
    ensures Gathered(start, a + b) == Gathered(middle, b)
    decreases |b|
  {
    hide WithChild;
    if b == [] {
      assert a + b == a;
    } else {
      GatheredParts(start, a, b[..|b| - 1], middle);
      assert (a + b)[..|a + b| - 1] == a + b[..|b| - 1];
    }
  }

  lemma GatheredOne(start: Draft, node: Node)
    ensures Gathered(start, [node]) == WithChild(start, node)
  {
    hide WithChild;
    assert [node][..0] == [];
    assert Gathered(start, []) == Ok(start);
  }

  lemma ServerGathered(draft: Draft, s: Server)
    ensures WithChild(draft, NodeOf(ServerTree(s)))
         == Ok(draft.(config := draft.config.(servers := draft.config.servers + [ToldServer(s)])))
  {
    hide ServerOf;
    hide ToldServer;
    hide MetasOf;
    ServerReads(s, NodeOf(ServerTree(s)));
  }

  lemma RuleGathered(draft: Draft, r: Rule)
    ensures WithChild(draft, NodeOf(RuleTree(r)))
         == Ok(draft.(config := draft.config.(rules := draft.config.rules + [ToldRule(r)])))
  {
    hide RuleOf;
    hide ToldRule;
    hide MetasOf;
    RuleReads(r, NodeOf(RuleTree(r)));
  }

  lemma {:induction false} ServersGathered(draft: Draft, servers: seq<Server>)
    ensures Gathered(draft, NodesOf(ServerTrees(servers)))
         == Ok(draft.(config := draft.config.(servers := draft.config.servers + ToldServers(servers))))
    decreases |servers|
  {
    hide *;
    if servers == [] {
      NoServers(draft);
    } else {
      var front, s := servers[..|servers| - 1], servers[|servers| - 1];
      var middle := draft.(config := draft.config.(servers := draft.config.servers + ToldServers(front)));
      ServersGathered(draft, front);
      NodesOfParts(ServerTrees(front), [ServerTree(s)]);
      OneNode(ServerTree(s));
      GatheredParts(draft, NodesOf(ServerTrees(front)), [NodeOf(ServerTree(s))], middle);
      GatheredOne(middle, NodeOf(ServerTree(s)));
      ServerGathered(middle, s);
      LastServer(draft.config.servers, servers);
    }
  }

  lemma NoServers(draft: Draft)
    ensures Gathered(draft, NodesOf(ServerTrees([]))) == Ok(draft)
    ensures draft.config.servers + ToldServers([]) == draft.config.servers
  {
  }

  lemma LastServer(before: seq<Server>, servers: seq<Server>)
    requires servers != []
    ensures var front, s := servers[..|servers| - 1], servers[|servers| - 1];
            && ServerTrees(servers) == ServerTrees(front) + [ServerTree(s)]
            && before + ToldServers(front) + [ToldServer(s)] == before + ToldServers(servers)
  {
    hide ServerTree;
    hide ToldServer;
  }

  lemma {:induction false} RulesGathered(draft: Draft, rules: seq<Rule>)
    ensures Gathered(draft, NodesOf(RuleTrees(rules)))
         == Ok(draft.(config := draft.config.(rules := draft.config.rules + ToldRules(rules))))
    decreases |rules|
  {
    hide *;
    if rules == [] {
      NoRules(draft);
    } else {
      var front, r := rules[..|rules| - 1], rules[|rules| - 1];
      var middle := draft.(config := draft.config.(rules := draft.config.rules + ToldRules(front)));
      RulesGathered(draft, front);
      NodesOfParts(RuleTrees(front), [RuleTree(r)]);
      OneNode(RuleTree(r));
      GatheredParts(draft, NodesOf(RuleTrees(front)), [NodeOf(RuleTree(r))], middle);
      GatheredOne(middle, NodeOf(RuleTree(r)));
      RuleGathered(middle, r);
      LastRule(draft.config.rules, rules);
    }
  }

  lemma NoRules(draft: Draft)
    ensures Gathered(draft, NodesOf(RuleTrees([]))) == Ok(draft)
    ensures draft.config.rules + ToldRules([]) == draft.config.rules
  {
  }

  lemma LastRule(before: seq<Rule>, rules: seq<Rule>)
    requires rules != []
    ensures var front, r := rules[..|rules| - 1], rules[|rules| - 1];
            && RuleTrees(rules) == RuleTrees(front) + [RuleTree(r)]
            && before + ToldRules(front) + [ToldRule(r)] == before + ToldRules(rules)
  {
    hide RuleTree;
    hide ToldRule;
  }

  lemma SettingsGathered(draft: Draft, settings: map<string, string>)
    requires !draft.sawSettings
    ensures WithChild(draft, NodeOf(SettingsTree(settings)))
         == Ok(draft.(config := draft.config.(settings := settings), sawSettings := true))
  {
    hide MetasOf;
    hide MetadataOf;
    hide NodesOf;
    MetadataRoundTrip(settings);
  }

  lemma LoggingGathered(draft: Draft, l: Logging)
    requires !draft.sawLogging
    ensures WithChild(draft, NodeOf(LoggingTree(l))) == Ok(draft.(config := draft.config.(logging := l), sawLogging := true))
  {
    hide LoggingOf;
    LoggingReads(l, NodeOf(LoggingTree(l)));
  }

  /** The parts of the root, in the order in which they are written, one after the other. */
  lemma TopGathered(start: Draft, c: Config)
    requires !start.sawSettings && !start.sawLogging && start.config.servers == [] && start.config.rules == []
    ensures var r := start.config.(settings := c.settings, logging := c.logging,
                                   servers := ToldServers(c.servers), rules := ToldRules(c.rules));
            Gathered(start, NodesOf(TopTrees(c))) == Ok(Draft(r, true, true))
  {
    hide *;
    var a, b := NodeOf(SettingsTree(c.settings)), NodeOf(LoggingTree(c.logging));
    var one := start.(config := start.config.(settings := c.settings), sawSettings := true);
    var two := one.(config := one.config.(logging := c.logging), sawLogging := true);
    var three := two.(config := two.config.(servers := ToldServers(c.servers)));
    GatheredOne(start, a);
    SettingsGathered(start, c.settings);
    GatheredParts(start, [a], [b], one);
    GatheredOne(one, b);
    LoggingGathered(one, c.logging);
    ServersGathered(two, c.servers);
    assert [] + ToldServers(c.servers) == ToldServers(c.servers);
    GatheredParts(start, [a] + [b], NodesOf(ServerTrees(c.servers)), two);
    RulesGathered(three, c.rules);
    assert [] + ToldRules(c.rules) == ToldRules(c.rules);
    GatheredParts(start, [a] + [b] + NodesOf(ServerTrees(c.servers)), NodesOf(RuleTrees(c.rules)), three);
    TopNodes(c);
  }

  lemma TopNodes(c: Config)
    ensures NodesOf(TopTrees(c)) ==
            [NodeOf(SettingsTree(c.settings))] + [NodeOf(LoggingTree(c.logging))] + NodesOf(ServerTrees(c.servers)) + NodesOf(RuleTrees(c.rules))
  {
    hide NodesOf;
    hide NodeOf;
    hide ServerTrees;
    hide RuleTrees;
    hide SettingsTree;
    hide LoggingTree;
    var s, l := SettingsTree(c.settings), LoggingTree(c.logging);
    assert [s, l] == [s] + [l];
    NodesOfParts([s], [l]);
    OneNode(s);
    OneNode(l);
    NodesOfParts([s, l], ServerTrees(c.servers));
    NodesOfParts([s, l] + ServerTrees(c.servers), RuleTrees(c.rules));
  }

  lemma RootReads(c: Config, root: Node)
    requires root == NodeOf(TreeOf(c))
    ensures RootOf(root).Ok?
    ensures var draft := RootOf(root).value;
            && !draft.sawSettings && !draft.sawLogging && draft.config.servers == [] && draft.config.rules == []
            && draft.config.schemaVersion == 1 && draft.config.testTarget == c.testTarget
            && draft.config.testConcurrency == c.testConcurrency
  {
    hide Num;
    hide Attr;
    hide Known;
    hide AttrsOf;
    hide Zipped;
    hide RootValues;
    hide NodesOf;
    hide TopTrees;
    hide ToText;
    RootAll(c, root);
    OnlyKnown("NativeDNS", ROOT_KEYS, RootValues(c), root.children);
    OneText();
    NumReads(root, "schemaVersion", 0, 1);
    NumReads(root, "testConcurrency", 15, c.testConcurrency);
  }

  lemma OneText()
    ensures ToText(1) == "1"
  {
  }

  /** The tree of a configuration is read as the configuration its text tells. */
  lemma ConfigReads(c: Config)
    ensures ConfigOf(NodeOf(TreeOf(c))) == Ok(Told(c))
  {
    hide RootOf;
    hide Gathered;
    hide NodesOf;
    hide AttrsOf;
    hide TopTrees;
    hide Zipped;
    hide ToldServers;
    hide ToldRules;
    var root := NodeOf(TreeOf(c));
    RootReads(c, root);
    TopGathered(RootOf(root).value, c);
  }

  // ---- What the text keeps ----

  /** What a configuration must be for its text to tell all of it: separable lists and nothing set that is for the runtime. */
  predicate Tellable(c: Config)
  {
    && c.schemaVersion == 1
    && (forall k :: 0 <= k < |c.servers| ==> ServerTellable(c.servers[k]))
    && (forall k :: 0 <= k < |c.rules| ==> Separable(c.rules[k].patterns))
  }

  predicate ServerTellable(s: Server)
  {
    Separable(s.bootstrap) && Separable(s.hashes) && !s.systemBootstrap && s.route == NO_ROUTE
  }

  lemma ServerToldWhole(s: Server)
    ensures ToldServer(s) == s <==> ServerTellable(s)
  {
    hide Separable;
    SplitJoined(s.bootstrap);
    SplitJoined(s.hashes);
  }

  lemma RuleToldWhole(r: Rule)
    ensures ToldRule(r) == r <==> Separable(r.patterns)
  {
    hide Separable;
    SplitJoined(r.patterns);
  }

  lemma ServersToldWhole(servers: seq<Server>)
    ensures ToldServers(servers) == servers <==> forall k :: 0 <= k < |servers| ==> ServerTellable(servers[k])
  {
    hide ServerTellable;
    hide ToldServer;
    forall k | 0 <= k < |servers|
      ensures ToldServers(servers)[k] == servers[k] <==> ServerTellable(servers[k])
    {
      ServerToldWhole(servers[k]);
    }
  }

  lemma RulesToldWhole(rules: seq<Rule>)
    ensures ToldRules(rules) == rules <==> forall k :: 0 <= k < |rules| ==> Separable(rules[k].patterns)
  {
    hide Separable;
    hide ToldRule;
    forall k | 0 <= k < |rules|
      ensures ToldRules(rules)[k] == rules[k] <==> Separable(rules[k].patterns)
    {
      RuleToldWhole(rules[k]);
    }
  }

  lemma ToldWhole(c: Config)
    ensures Told(c) == c <==> Tellable(c)
  {
    hide ServerTellable;
    hide Separable;
    hide ToldServers;
    hide ToldRules;
    ServersToldWhole(c.servers);
    RulesToldWhole(c.rules);
  }
}
