/** Which attribute stands behind which field of a configuration, and what an absent one means: `config_from_root` of config.cpp. */
module ConfigFields {
  import opened Bytes
  import opened Decimal
  import opened ConfigModel
  import opened ConfigLists
  import opened Xml
  import opened ConfigNode

  // ---- Attributes of one kind ----

  /** The attribute is the text, or absent where that is the fallback. */
  predicate TextIs(node: Node, key: string, fallback: string, text: string)
  {
    if key in node.attrs then node.attrs[key] == text else text == fallback
  }

  /** The attribute spells the number, with digits alone, or is absent. */
  predicate NumberAt(node: Node, key: string, fallback: nat, n: nat)
  {
    if key in node.attrs then Number(node.attrs[key]) == Ok(n) else n == fallback
  }

  /** The attribute is "1" or "0", or absent. */
  predicate SwitchAt(node: Node, key: string, fallback: bool, on: bool)
  {
    if key in node.attrs then node.attrs[key] == (if on then "1" else "0") else on == fallback
  }

  lemma NumTold(node: Node, key: string, fallback: uint32, n: uint32)
    ensures Num(node, key, fallback) == Ok(n) <==> NumberAt(node, key, fallback, n)
  {
    hide Number;
    NumberRoundTrip(fallback);
  }

  lemma FlagTold(node: Node, key: string, fallback: bool, on: bool)
    ensures Flag(node, key, fallback) == Ok(on) <==> SwitchAt(node, key, fallback, on)
  {
  }

  /** The numbers behind the values of an enumeration; the upper half of the range stands for the negative ones. */
  predicate EnumAt(node: Node, key: string, fallback: uint32, e: int32)
  {
    NumberAt(node, key, fallback, if e < 0 then e + 0x1_0000_0000 else e)
  }

  /** The protocols by name. */
  predicate Names(name: string, p: Protocol)
  {
    match p
    case Udp => name == "udp" || name == "plain"
    case Tcp => name == "tcp"
    case Doh => name == "doh"
    case Dot => name == "dot"
    case Doh3 => name == "doh3"
    case Doq => name == "doq"
    case Dnscrypt => name == "dnscrypt"
    case AnonymizedDnscrypt => name == "anonymized_dnscrypt"
  }

  lemma ProtocolTold(name: string, p: Protocol)
    ensures ProtocolNamed(name) == Ok(p) <==> Names(name, p)
  {
  }

  predicate Acts(name: string, a: Action)
  {
    match a
    case Process => name == "process" || name == "process_server"
    case Bypass => name == "bypass"
    case Block => name == "block"
  }

  lemma ActionTold(name: string, a: Action)
    ensures ActionNamed(name) == Ok(a) <==> Acts(name, a)
  {
  }

  predicate OnlyThese(node: Node, keys: set<string>) { node.attrs.Keys <= keys }

  // ---- Elements ----

  const SERVER_ATTRIBUTES: set<string> := {
    "id", "name", "enabled", "protocol", "ip", "port", "hostname", "url", "dnssec", "timeout", "directCertificateFallback",
    "fallbacks", "bootstrap", "hashes", "publicKey", "provider", "relay"}

  /** The fields of a server that are texts. */
  predicate ServerTexts(node: Node, s: Server)
  {
    && TextIs(node, "name", "", s.name) && TextIs(node, "ip", "", s.ip) && TextIs(node, "hostname", "", s.hostname)
    && TextIs(node, "url", "", s.url) && TextIs(node, "publicKey", "", s.publicKey) && TextIs(node, "provider", "", s.provider)
    && TextIs(node, "relay", "", s.relay)
  }

  predicate ServerNumbers(node: Node, s: Server)
  {
    && NumberAt(node, "id", 0, s.id) && NumberAt(node, "port", 0, s.port) && NumberAt(node, "timeout", 3000, s.timeout)
    && SwitchAt(node, "enabled", true, s.enabled) && SwitchAt(node, "dnssec", false, s.dnssec)
    && SwitchAt(node, "directCertificateFallback", false, s.directFallback)
  }

  /** The lists of a server are cut at semicolons, and what is not in a file is at its default. */
  ghost predicate ServerLists(node: Node, s: Server)
  {
    && (exists name :: TextIs(node, "protocol", "", name) && Names(name, s.protocol))
    && (exists text :: TextIs(node, "fallbacks", "", text) && SplitIdsText(text) == Ok(s.fallbacks))
    && (exists text :: TextIs(node, "bootstrap", "", text) && SplitText(text) == s.bootstrap)
    && (exists text :: TextIs(node, "hashes", "", text) && SplitText(text) == s.hashes)
    && !s.systemBootstrap && s.route == Route("", "", 0, 0, 0, 0) && MetadataOf(node.children) == Ok(s.metadata)
  }

  /** An element is read as a server exactly when each of its attributes says what the field of its own is. */
  lemma ServerExactly(node: Node, s: Server)
    ensures ServerOf(node) == Ok(s) <==>
              OnlyThese(node, SERVER_ATTRIBUTES) && ServerTexts(node, s) && ServerNumbers(node, s) && ServerLists(node, s)
  {
    hide Num;
    hide Flag;
    hide ProtocolNamed;
    hide SplitIdsText;
    hide SplitText;
    hide MetadataOf;
    hide Names;
    hide NumberAt;
    hide SwitchAt;
    hide Known;
    KnownServer(node);
    ServerParts(node, s);
    ListsTold(node, s);
    hide ServerLists;
  }

  lemma KnownServer(node: Node)
    ensures Known(node, SERVER_KEYS) <==> OnlyThese(node, SERVER_ATTRIBUTES)
  {
    assert forall key :: key in SERVER_KEYS <==> key in SERVER_ATTRIBUTES;
  }

  lemma ServerParts(node: Node, s: Server)
    ensures ServerNumbers(node, s) <==>
              && Num(node, "id", 0) == Ok(s.id) && Num(node, "port", 0) == Ok(s.port) && Num(node, "timeout", 3000) == Ok(s.timeout)
              && Flag(node, "enabled", true) == Ok(s.enabled) && Flag(node, "dnssec", false) == Ok(s.dnssec)
              && Flag(node, "directCertificateFallback", false) == Ok(s.directFallback)
  {
    hide Num;
    hide Flag;
    hide NumberAt;
    hide SwitchAt;
    NumTold(node, "id", 0, s.id);
    NumTold(node, "port", 0, s.port);
    NumTold(node, "timeout", 3000, s.timeout);
    FlagTold(node, "enabled", true, s.enabled);
    FlagTold(node, "dnssec", false, s.dnssec);
    FlagTold(node, "directCertificateFallback", false, s.directFallback);
  }

  lemma ListsTold(node: Node, s: Server)
    ensures ServerLists(node, s) <==>
              && ProtocolNamed(Attr(node, "protocol", "")) == Ok(s.protocol)
              && SplitIdsText(Attr(node, "fallbacks", "")) == Ok(s.fallbacks)
              && SplitText(Attr(node, "bootstrap", "")) == s.bootstrap && SplitText(Attr(node, "hashes", "")) == s.hashes
              && !s.systemBootstrap && s.route == NO_ROUTE && MetadataOf(node.children) == Ok(s.metadata)
  {
    hide ProtocolNamed;
    hide SplitIdsText;
    hide SplitText;
    hide MetadataOf;
    hide Names;
    hide Attr;
    ProtocolTold(Attr(node, "protocol", ""), s.protocol);
    AttrTold(node, "protocol");
    AttrTold(node, "fallbacks");
    AttrTold(node, "bootstrap");
    AttrTold(node, "hashes");
    hide TextIs;
  }

  lemma AttrTold(node: Node, key: string)
    ensures forall text :: TextIs(node, key, "", text) <==> text == Attr(node, key, "")
  {
  }

  const RULE_ATTRIBUTES: set<string> := {
    "id", "name", "enabled", "default", "patterns", "action", "server", "interface", "validate", "rejectUnsigned", "blockMode"}

  ghost predicate RuleFields(node: Node, r: Rule)
  {
    && NumberAt(node, "id", 0, r.id) && TextIs(node, "name", "", r.name) && SwitchAt(node, "enabled", true, r.enabled)
    && SwitchAt(node, "default", false, r.isDefault) && NumberAt(node, "server", 0, r.serverId)
    && TextIs(node, "interface", "", r.interfaceId) && SwitchAt(node, "validate", false, r.dnssecValidate)
    && SwitchAt(node, "rejectUnsigned", false, r.dnssecRejectUnsigned) && EnumAt(node, "blockMode", 0, r.blockMode)
    && (exists name :: TextIs(node, "action", "", name) && Acts(name, r.action))
    && (exists text :: TextIs(node, "patterns", "", text) && SplitText(text) == r.patterns)
    && MetadataOf(node.children) == Ok(r.metadata)
  }

  /** An element is read as a rule exactly when each of its attributes says what the field of its own is. */
  lemma RuleExactly(node: Node, r: Rule)
    ensures RuleOf(node) == Ok(r) <==> OnlyThese(node, RULE_ATTRIBUTES) && RuleFields(node, r)
  {
    hide Num;
    hide Flag;
    hide ActionNamed;
    hide SplitText;
    hide MetadataOf;
    hide Known;
    hide RuleFields;
    KnownRule(node);
    FieldsOfRule(node, r);
    EnumCasts(node, r);
  }

  lemma EnumCasts(node: Node, r: Rule)
    ensures Num(node, "blockMode", 0).Ok? ==>
              (ToEnum(Num(node, "blockMode", 0).value) == r.blockMode <==> Num(node, "blockMode", 0) == Ok(FromEnum(r.blockMode)))
  {
    hide Num;
  }

  lemma KnownRule(node: Node)
    ensures Known(node, RULE_KEYS) <==> OnlyThese(node, RULE_ATTRIBUTES)
  {
    assert forall key :: key in RULE_KEYS <==> key in RULE_ATTRIBUTES;
  }

  lemma FieldsOfRule(node: Node, r: Rule)
    ensures RuleFields(node, r) <==>
              && Num(node, "id", 0) == Ok(r.id) && Attr(node, "name", "") == r.name && Flag(node, "enabled", true) == Ok(r.enabled)
              && Flag(node, "default", false) == Ok(r.isDefault) && Num(node, "server", 0) == Ok(r.serverId)
              && Attr(node, "interface", "") == r.interfaceId && Flag(node, "validate", false) == Ok(r.dnssecValidate)
              && Flag(node, "rejectUnsigned", false) == Ok(r.dnssecRejectUnsigned)
              && Num(node, "blockMode", 0) == Ok(FromEnum(r.blockMode))
              && ActionNamed(Attr(node, "action", "")) == Ok(r.action)
              && SplitText(Attr(node, "patterns", "")) == r.patterns && MetadataOf(node.children) == Ok(r.metadata)
  {
    hide Num;
    hide Flag;
    hide NumberAt;
    hide SwitchAt;
    hide ActionNamed;
    hide SplitText;
    hide MetadataOf;
    hide Attr;
    hide Acts;
    NumTold(node, "id", 0, r.id);
    NumTold(node, "server", 0, r.serverId);
    NumTold(node, "blockMode", 0, FromEnum(r.blockMode));
    FlagTold(node, "enabled", true, r.enabled);
    FlagTold(node, "default", false, r.isDefault);
    FlagTold(node, "validate", false, r.dnssecValidate);
    FlagTold(node, "rejectUnsigned", false, r.dnssecRejectUnsigned);
    ActionTold(Attr(node, "action", ""), r.action);
    AttrTold(node, "name");
    AttrTold(node, "interface");
    AttrTold(node, "action");
    AttrTold(node, "patterns");
    hide TextIs;
  }

  /** The logging settings: levels, whether there is a file, and where. */
  lemma LoggingExactly(node: Node, l: Logging)
    ensures LoggingOf(node) == Ok(l) <==>
              && OnlyThese(node, {"screen", "file", "enabled", "directory"})
              && EnumAt(node, "screen", 1, l.screen) && EnumAt(node, "file", 1, l.file)
              && SwitchAt(node, "enabled", true, l.fileEnabled) && TextIs(node, "directory", "logs", l.directory)
  {
    hide Num;
    hide Flag;
    hide NumberAt;
    hide SwitchAt;
    hide Known;
    KnownLogging(node);
    NumTold(node, "screen", 1, FromEnum(l.screen));
    NumTold(node, "file", 1, FromEnum(l.file));
    FlagTold(node, "enabled", true, l.fileEnabled);
    hide OnlyThese;
    EnumsTell(Num(node, "screen", 1), l.screen);
    EnumsTell(Num(node, "file", 1), l.file);
    hide ToEnum;
  }

  lemma EnumsTell(n: Result<uint32>, e: int32)
    ensures n.Ok? ==> (ToEnum(n.value) == e <==> n == Ok(FromEnum(e)))
  {
  }

  lemma KnownLogging(node: Node)
    ensures Known(node, LOGGING_KEYS) <==> OnlyThese(node, {"screen", "file", "enabled", "directory"})
  {
    assert forall key :: key in LOGGING_KEYS <==> key in {"screen", "file", "enabled", "directory"};
  }

  /** The root: its name, its version, and what testing and logging start from. */
  lemma RootExactly(root: Node, d: Draft)
    ensures RootOf(root) == Ok(d) <==>
              && root.name == "NativeDNS" && OnlyThese(root, {"schemaVersion", "testTarget", "testConcurrency"})
              && NumberAt(root, "schemaVersion", 0, d.config.schemaVersion) && TextIs(root, "testTarget", "iana.org", d.config.testTarget)
              && NumberAt(root, "testConcurrency", 15, d.config.testConcurrency)
              && d == Draft(Config(d.config.schemaVersion, [], [], Logging(1, 1, true, "logs"), d.config.testTarget,
                                   d.config.testConcurrency, map[]), false, false)
  {
    hide Num;
    hide NumberAt;
    hide Known;
    KnownRoot(root);
    hide OnlyThese;
    NumTold(root, "schemaVersion", 0, d.config.schemaVersion);
    NumTold(root, "testConcurrency", 15, d.config.testConcurrency);
  }

  lemma KnownRoot(root: Node)
    ensures Known(root, ROOT_KEYS) <==> OnlyThese(root, {"schemaVersion", "testTarget", "testConcurrency"})
  {
    assert forall key :: key in ROOT_KEYS <==> key in {"schemaVersion", "testTarget", "testConcurrency"};
  }
}
