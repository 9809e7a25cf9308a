/** A configuration as a tree of XML elements, and the proof that `config_from_root` in config.cpp reads it back. */
module ConfigTree {
  import opened Bytes
  import opened Decimal
  import opened ConfigModel
  import opened ConfigLists
  import opened MapOrder
  import opened Xml
  import opened XmlPrinting
  import opened XmlDocument
  import opened XmlFields
  import opened ConfigNode
  import opened ConfigKeys

  // ---- Metadata ----

  function MetaValues(key: string, value: string): (r: seq<string>)
    ensures |r| == |META_KEYS|
  {
    [key, value]
  }

  function MetaTree(key: string, value: string): (t: Tree) { Leaf("Meta", Zipped(META_KEYS, MetaValues(key, value))) }

  function MetaTrees(keys: seq<string>, m: map<string, string>): (r: seq<Tree>)
    requires forall k :: k in keys ==> k in m
    ensures |r| == |keys|
  {
    if keys == [] then [] else [MetaTree(keys[0], m[keys[0]])] + MetaTrees(keys[1..], m)
  }

  ghost function MetasOf(m: map<string, string>): (r: seq<Tree>) { MetaTrees(SortedKeys(m.Keys), m) }

  lemma MetaNode(key: string, value: string)
    ensures var n := NodeOf(MetaTree(key, value));
            && n.name == "Meta" && n.children == [] && Known(n, META_KEYS)
            && Attr(n, "key", "") == key && Attr(n, "value", "") == value
  {
    hide KeysOk;
    var values := MetaValues(key, value);
    MetaKeys();
    KeysDiffer(META_KEYS);
    ZippedAt(META_KEYS, values, map[], 0);
    ZippedAt(META_KEYS, values, map[], 1);
    OnlyKnown("Meta", META_KEYS, values, []);
  }

  lemma KeysDiffer(keys: seq<string>)
    requires KeysOk(keys)
    ensures forall i, j :: 0 <= i < j < |keys| ==> keys[i] != keys[j]
  {
    hide IsName;
  }

  lemma OnlyKnown(name: string, keys: seq<string>, values: seq<string>, children: seq<Node>)
    requires |keys| == |values|
    ensures Known(Node(name, AttrsOf(map[], Zipped(keys, values)), children), keys)
  {
    hide AttrsOf;
    forall key | key in AttrsOf(map[], Zipped(keys, values))
      ensures key in keys
    {
      ZippedOnly(keys, values, map[], key);
    }
  }

  ghost function Restricted(m: map<string, string>, keys: seq<string>): (r: map<string, string>)
  {
    map k | k in m && k in keys :: m[k]
  }

  /** Reading metadata from the front as well as from the back. */
  lemma {:induction false} MetadataFrom(front: seq<Node>, keys: seq<string>, m: map<string, string>, read: map<string, string>)
    requires (forall k :: k in keys ==> k in m) && MetadataOf(front) == Ok(read)
    requires (forall i :: 0 <= i < |keys| ==> keys[i] !in read) && forall i, j :: 0 <= i < j < |keys| ==> keys[i] != keys[j]
    ensures MetadataOf(front + NodesOf(MetaTrees(keys, m))) == Ok(read + Restricted(m, keys))
    decreases |keys|
  {
    hide *;
    if keys == [] {
      NothingMore(front, m, read);
    } else {
      var node := NodeOf(MetaTree(keys[0], m[keys[0]]));
      MetaStep(front, keys[0], m[keys[0]], read);
      MetadataFrom(front + [node], keys[1..], m, read[keys[0] := m[keys[0]]]);
      FirstMeta(front, keys, m);
      FirstRestricted(keys, m, read);
    }
  }

  lemma NothingMore(front: seq<Node>, m: map<string, string>, read: map<string, string>)
    ensures front + NodesOf(MetaTrees([], m)) == front
    ensures read + Restricted(m, []) == read
  {
  }

  lemma MetaStep(front: seq<Node>, key: string, value: string, read: map<string, string>)
    requires MetadataOf(front) == Ok(read) && key !in read
    ensures MetadataOf(front + [NodeOf(MetaTree(key, value))]) == Ok(read[key := value])
  {
    hide NodeOf;
    hide MetaTree;
    hide Known;
    var node := NodeOf(MetaTree(key, value));
    MetaNode(key, value);
    assert (front + [node])[..|front|] == front;
  }

  lemma FirstMeta(front: seq<Node>, keys: seq<string>, m: map<string, string>)
    requires keys != [] && forall k :: k in keys ==> k in m
    ensures forall k :: k in keys[1..] ==> k in m
    ensures (front + [NodeOf(MetaTree(keys[0], m[keys[0]]))]) + NodesOf(MetaTrees(keys[1..], m))
         == front + NodesOf(MetaTrees(keys, m))
  {
    hide NodeOf;
    hide MetaTree;
    var more := NodesOf(MetaTrees(keys[1..], m));
    assert NodesOf(MetaTrees(keys, m)) == [NodeOf(MetaTree(keys[0], m[keys[0]]))] + more by {
      assert MetaTrees(keys, m)[1..] == MetaTrees(keys[1..], m);
    }
  }

  lemma FirstRestricted(keys: seq<string>, m: map<string, string>, read: map<string, string>)
    requires keys != [] && keys[0] in m
    ensures read[keys[0] := m[keys[0]]] + Restricted(m, keys[1..]) == read + Restricted(m, keys)
  {
    assert forall k :: k in keys <==> k == keys[0] || k in keys[1..];
  }

  lemma MetadataRoundTrip(m: map<string, string>)
    ensures MetadataOf(NodesOf(MetasOf(m))) == Ok(m)
  {
    hide MetadataOf;
    hide NodesOf;
    hide MetaTrees;
    var keys := SortedKeys(m.Keys);
    SortedAreDifferent(m.Keys);
    NoMetadata();
    MetadataFrom([], keys, m, map[]);
    assert [] + NodesOf(MetaTrees(keys, m)) == NodesOf(MetaTrees(keys, m));
    AllRestricted(keys, m);
  }

  lemma AllRestricted(keys: seq<string>, m: map<string, string>)
    requires forall k :: k in keys <==> k in m
    ensures map[] + Restricted(m, keys) == m
  {
  }

  lemma NoMetadata()
    ensures MetadataOf([]) == Ok(map[])
  {
  }

  // ---- Servers, rules and logging ----

  function ServerValues(s: Server): (r: seq<string>)
    ensures |r| == |SERVER_KEYS|
  {
    [ToText(s.id), s.name, FlagText(s.enabled), ProtocolName(s.protocol), s.ip, ToText(s.port), s.hostname, s.url,
     FlagText(s.dnssec), ToText(s.timeout), FlagText(s.directFallback), Joined(Texts(s.fallbacks)), Joined(s.bootstrap),
     Joined(s.hashes), s.publicKey, s.provider, s.relay]
  }

  function RuleValues(r: Rule): (v: seq<string>)
    ensures |v| == |RULE_KEYS|
  {
    [ToText(r.id), r.name, FlagText(r.enabled), FlagText(r.isDefault), Joined(r.patterns), ActionName(r.action),
     ToText(r.serverId), r.interfaceId, FlagText(r.dnssecValidate), FlagText(r.dnssecRejectUnsigned),
     ToText(FromEnum(r.blockMode))]
  }

  function LoggingValues(l: Logging): (v: seq<string>)
    ensures |v| == |LOGGING_KEYS|
  {
    [ToText(FromEnum(l.screen)), ToText(FromEnum(l.file)), FlagText(l.fileEnabled), l.directory]
  }

  function RootValues(c: Config): (v: seq<string>)
    ensures |v| == |ROOT_KEYS|
  {
    ["1", c.testTarget, ToText(c.testConcurrency)]
  }

  ghost function ServerTree(s: Server): (t: Tree)
  {
    Branch("Server", Zipped(SERVER_KEYS, ServerValues(s)), MetasOf(s.metadata))
  }

  ghost function RuleTree(r: Rule): (t: Tree) { Branch("Rule", Zipped(RULE_KEYS, RuleValues(r)), MetasOf(r.metadata)) }

  function LoggingTree(l: Logging): (t: Tree) { Leaf("Logging", Zipped(LOGGING_KEYS, LoggingValues(l))) }

  /** A server as the text tells it: lists cut at semicolons, and nothing of the runtime. */
  function ToldServer(s: Server): (r: Server)
  {
    s.(bootstrap := SplitText(Joined(s.bootstrap)), hashes := SplitText(Joined(s.hashes)),
       systemBootstrap := false, route := NO_ROUTE)
  }

  function ToldRule(r: Rule): (s: Rule) { r.(patterns := SplitText(Joined(r.patterns))) }

  lemma EnumReads(e: int32)
    ensures ToEnum(FromEnum(e)) == e
  {
  }

  /** The value of an attribute by its position among the keys. */
  lemma AttrAt(node: Node, keys: seq<string>, values: seq<string>, i: nat, fallback: string)
    requires KeysOk(keys) && |keys| == |values| && i < |keys| && node.attrs == AttrsOf(map[], Zipped(keys, values))
    ensures Attr(node, keys[i], fallback) == values[i]
  {
    hide IsName;
    KeysDiffer(keys);
    ZippedAt(keys, values, map[], i);
  }

  lemma ServerFront(s: Server, node: Node)
    requires node.attrs == AttrsOf(map[], Zipped(SERVER_KEYS, ServerValues(s)))
    ensures Attr(node, "id", ToText(0)) == ToText(s.id)
    ensures Attr(node, "name", "") == s.name
    ensures Attr(node, "enabled", FlagText(true)) == FlagText(s.enabled)
    ensures Attr(node, "protocol", "") == ProtocolName(s.protocol)
    ensures Attr(node, "ip", "") == s.ip
    ensures Attr(node, "port", ToText(0)) == ToText(s.port)
  {
    hide AttrsOf;
    hide Zipped;
    hide KeysOk;
    hide ServerValues;
    hide ToText;
    hide FlagText;
    ServerKeys();
    var v := ServerValues(s);
    AttrAt(node, SERVER_KEYS, v, 0, ToText(0));
    AttrAt(node, SERVER_KEYS, v, 1, "");
    AttrAt(node, SERVER_KEYS, v, 2, FlagText(true));
    AttrAt(node, SERVER_KEYS, v, 3, "");
    AttrAt(node, SERVER_KEYS, v, 4, "");
    AttrAt(node, SERVER_KEYS, v, 5, ToText(0));
    ServerFrontValues(s);
  }

  lemma ServerFrontValues(s: Server)
    ensures var v := ServerValues(s);
            && v[0] == ToText(s.id)
            && v[1] == s.name
            && v[2] == FlagText(s.enabled)
            && v[3] == ProtocolName(s.protocol)
            && v[4] == s.ip
            && v[5] == ToText(s.port)
  {
    hide ToText;
    hide Joined;
    hide Texts;
    hide FlagText;
  }

  lemma ServerMiddle(s: Server, node: Node)
    requires node.attrs == AttrsOf(map[], Zipped(SERVER_KEYS, ServerValues(s)))
    ensures Attr(node, "hostname", "") == s.hostname
    ensures Attr(node, "url", "") == s.url
    ensures Attr(node, "dnssec", FlagText(false)) == FlagText(s.dnssec)
    ensures Attr(node, "timeout", ToText(3000)) == ToText(s.timeout)
    ensures Attr(node, "directCertificateFallback", FlagText(false)) == FlagText(s.directFallback)
  {
    hide AttrsOf;
    hide Zipped;
    hide KeysOk;
    hide ServerValues;
    hide ToText;
    hide FlagText;
    ServerKeys();
    var v := ServerValues(s);
    AttrAt(node, SERVER_KEYS, v, 6, "");
    AttrAt(node, SERVER_KEYS, v, 7, "");
    AttrAt(node, SERVER_KEYS, v, 8, FlagText(false));
    AttrAt(node, SERVER_KEYS, v, 9, ToText(3000));
    AttrAt(node, SERVER_KEYS, v, 10, FlagText(false));
    ServerMiddleValues(s);
  }

  lemma ServerMiddleValues(s: Server)
    ensures var v := ServerValues(s);
            && v[6] == s.hostname
            && v[7] == s.url
            && v[8] == FlagText(s.dnssec)
            && v[9] == ToText(s.timeout)
            && v[10] == FlagText(s.directFallback)
  {
    hide ToText;
    hide Joined;
    hide Texts;
    hide FlagText;
  }

  lemma ServerEnd(s: Server, node: Node)
    requires node.attrs == AttrsOf(map[], Zipped(SERVER_KEYS, ServerValues(s)))
    ensures Attr(node, "fallbacks", "") == Joined(Texts(s.fallbacks))
    ensures Attr(node, "bootstrap", "") == Joined(s.bootstrap)
    ensures Attr(node, "hashes", "") == Joined(s.hashes)
    ensures Attr(node, "publicKey", "") == s.publicKey
    ensures Attr(node, "provider", "") == s.provider
    ensures Attr(node, "relay", "") == s.relay
  {
    hide AttrsOf;
    hide Zipped;
    hide KeysOk;
    hide ServerValues;
    hide ToText;
    hide FlagText;
    ServerKeys();
    var v := ServerValues(s);
    AttrAt(node, SERVER_KEYS, v, 11, "");
    AttrAt(node, SERVER_KEYS, v, 12, "");
    AttrAt(node, SERVER_KEYS, v, 13, "");
    AttrAt(node, SERVER_KEYS, v, 14, "");
    AttrAt(node, SERVER_KEYS, v, 15, "");
    AttrAt(node, SERVER_KEYS, v, 16, "");
    ServerEndValues(s);
  }

  lemma ServerEndValues(s: Server)
    ensures var v := ServerValues(s);
            && v[11] == Joined(Texts(s.fallbacks))
            && v[12] == Joined(s.bootstrap)
            && v[13] == Joined(s.hashes)
            && v[14] == s.publicKey
            && v[15] == s.provider
            && v[16] == s.relay
  {
    hide ToText;
    hide Joined;
    hide Texts;
    hide FlagText;
  }

  lemma RuleFront(r: Rule, node: Node)
    requires node.attrs == AttrsOf(map[], Zipped(RULE_KEYS, RuleValues(r)))
    ensures Attr(node, "id", ToText(0)) == ToText(r.id)
    ensures Attr(node, "name", "") == r.name
    ensures Attr(node, "enabled", FlagText(true)) == FlagText(r.enabled)
    ensures Attr(node, "default", FlagText(false)) == FlagText(r.isDefault)
    ensures Attr(node, "patterns", "") == Joined(r.patterns)
    ensures Attr(node, "action", "") == ActionName(r.action)
  {
    hide AttrsOf;
    hide Zipped;
    hide KeysOk;
    hide RuleValues;
    hide ToText;
    hide FlagText;
    RuleKeys();
    var v := RuleValues(r);
    AttrAt(node, RULE_KEYS, v, 0, ToText(0));
    AttrAt(node, RULE_KEYS, v, 1, "");
    AttrAt(node, RULE_KEYS, v, 2, FlagText(true));
    AttrAt(node, RULE_KEYS, v, 3, FlagText(false));
    AttrAt(node, RULE_KEYS, v, 4, "");
    AttrAt(node, RULE_KEYS, v, 5, "");
    RuleFrontValues(r);
  }

  lemma RuleFrontValues(r: Rule)
    ensures var v := RuleValues(r);
            && v[0] == ToText(r.id)
            && v[1] == r.name
            && v[2] == FlagText(r.enabled)
            && v[3] == FlagText(r.isDefault)
            && v[4] == Joined(r.patterns)
            && v[5] == ActionName(r.action)
  {
    hide ToText;
    hide Joined;
    hide Texts;
    hide FlagText;
  }

  lemma RuleEnd(r: Rule, node: Node)
    requires node.attrs == AttrsOf(map[], Zipped(RULE_KEYS, RuleValues(r)))
    ensures Attr(node, "server", ToText(0)) == ToText(r.serverId)
    ensures Attr(node, "interface", "") == r.interfaceId
    ensures Attr(node, "validate", FlagText(false)) == FlagText(r.dnssecValidate)
    ensures Attr(node, "rejectUnsigned", FlagText(false)) == FlagText(r.dnssecRejectUnsigned)
    ensures Attr(node, "blockMode", ToText(0)) == ToText(FromEnum(r.blockMode))
  {
    hide AttrsOf;
    hide Zipped;
    hide KeysOk;
    hide RuleValues;
    hide ToText;
    hide FlagText;
    RuleKeys();
    var v := RuleValues(r);
    AttrAt(node, RULE_KEYS, v, 6, ToText(0));
    AttrAt(node, RULE_KEYS, v, 7, "");
    AttrAt(node, RULE_KEYS, v, 8, FlagText(false));
    AttrAt(node, RULE_KEYS, v, 9, FlagText(false));
    AttrAt(node, RULE_KEYS, v, 10, ToText(0));
    RuleEndValues(r);
  }

  lemma RuleEndValues(r: Rule)
    ensures var v := RuleValues(r);
            && v[6] == ToText(r.serverId)
            && v[7] == r.interfaceId
            && v[8] == FlagText(r.dnssecValidate)
            && v[9] == FlagText(r.dnssecRejectUnsigned)
            && v[10] == ToText(FromEnum(r.blockMode))
  {
    hide ToText;
    hide Joined;
    hide Texts;
    hide FlagText;
  }

  lemma LoggingAll(l: Logging, node: Node)
    requires node.attrs == AttrsOf(map[], Zipped(LOGGING_KEYS, LoggingValues(l)))
    ensures Attr(node, "screen", ToText(1)) == ToText(FromEnum(l.screen))
    ensures Attr(node, "file", ToText(1)) == ToText(FromEnum(l.file))
    ensures Attr(node, "enabled", FlagText(true)) == FlagText(l.fileEnabled)
    ensures Attr(node, "directory", "logs") == l.directory
  {
    hide AttrsOf;
    hide Zipped;
    hide KeysOk;
    hide LoggingValues;
    hide ToText;
    hide FlagText;
    LoggingKeys();
    var v := LoggingValues(l);
    AttrAt(node, LOGGING_KEYS, v, 0, ToText(1));
    AttrAt(node, LOGGING_KEYS, v, 1, ToText(1));
    AttrAt(node, LOGGING_KEYS, v, 2, FlagText(true));
    AttrAt(node, LOGGING_KEYS, v, 3, "logs");
    LoggingAllValues(l);
  }

  lemma LoggingAllValues(l: Logging)
    ensures var v := LoggingValues(l);
            && v[0] == ToText(FromEnum(l.screen))
            && v[1] == ToText(FromEnum(l.file))
            && v[2] == FlagText(l.fileEnabled)
            && v[3] == l.directory
  {
    hide ToText;
    hide Joined;
    hide Texts;
    hide FlagText;
  }

  lemma RootAll(c: Config, node: Node)
    requires node.attrs == AttrsOf(map[], Zipped(ROOT_KEYS, RootValues(c)))
    ensures Attr(node, "schemaVersion", ToText(0)) == "1"
    ensures Attr(node, "testTarget", "iana.org") == c.testTarget
    ensures Attr(node, "testConcurrency", ToText(15)) == ToText(c.testConcurrency)
  {
    hide AttrsOf;
    hide Zipped;
    hide KeysOk;
    hide RootValues;
    hide ToText;
    hide FlagText;
    RootKeys();
    var v := RootValues(c);
    AttrAt(node, ROOT_KEYS, v, 0, ToText(0));
    AttrAt(node, ROOT_KEYS, v, 1, "iana.org");
    AttrAt(node, ROOT_KEYS, v, 2, ToText(15));
    RootAllValues(c);
  }

  lemma RootAllValues(c: Config)
    ensures var v := RootValues(c);
            && v[0] == "1"
            && v[1] == c.testTarget
            && v[2] == ToText(c.testConcurrency)
  {
    hide ToText;
    hide Joined;
    hide Texts;
    hide FlagText;
  }
  // ---- The whole configuration ----

  ghost function SettingsTree(settings: map<string, string>): (t: Tree) { Branch("Settings", [], MetasOf(settings)) }

  ghost function ServerTrees(servers: seq<Server>): (r: seq<Tree>)
  {
    if servers == [] then [] else ServerTrees(servers[..|servers| - 1]) + [ServerTree(servers[|servers| - 1])]
  }

  ghost function RuleTrees(rules: seq<Rule>): (r: seq<Tree>)
  {
    if rules == [] then [] else RuleTrees(rules[..|rules| - 1]) + [RuleTree(rules[|rules| - 1])]
  }

  ghost function TopTrees(c: Config): (r: seq<Tree>)
  {
    [SettingsTree(c.settings), LoggingTree(c.logging)] + ServerTrees(c.servers) + RuleTrees(c.rules)
  }

  ghost function TreeOf(c: Config): (t: Tree) { Branch("NativeDNS", Zipped(ROOT_KEYS, RootValues(c)), TopTrees(c)) }

  function ToldServers(servers: seq<Server>): (r: seq<Server>)
    ensures |r| == |servers| && forall k :: 0 <= k < |r| ==> r[k] == ToldServer(servers[k])
  {
    if servers == [] then [] else ToldServers(servers[..|servers| - 1]) + [ToldServer(servers[|servers| - 1])]
  }

  function ToldRules(rules: seq<Rule>): (r: seq<Rule>)
    ensures |r| == |rules| && forall k :: 0 <= k < |r| ==> r[k] == ToldRule(rules[k])
  {
    if rules == [] then [] else ToldRules(rules[..|rules| - 1]) + [ToldRule(rules[|rules| - 1])]
  }

  /** A configuration as its text tells it. */
  function Told(c: Config): (r: Config) { c.(servers := ToldServers(c.servers), rules := ToldRules(c.rules), schemaVersion := 1) }
}
