/** Writing and reading a configuration: `serialize_config` and `parse_config` of config.cpp. */
module ConfigText {
  import opened Bytes
  import opened Decimal
  import opened ConfigModel
  import opened ConfigLists
  import opened MapOrder
  import opened Utf8
  import opened XmlText
  import opened Xml
  import opened XmlParsing
  import opened XmlPrinting
  import opened XmlDocument
  import opened XmlFields
  import opened ConfigNode
  import opened ConfigTree
  import opened ConfigRoundTrip
  import opened ConfigValidity
  import opened ConfigShape
  import Rules

  // ---- What is written ----

  ghost function SerializedText(c: Config): (r: Result<string>)
  {
    var text :- DocumentText(TreeOf(c));
    if |text| > MAX_TEXT then Err("CONFIG_LIMIT") else Ok(text)
  }

  /** The configuration a text tells, before it is validated. */
  function ParsedConfig(text: string): (r: Result<Config>)
  {
    var root :- Parsed(text);
    ConfigOf(root)
  }

  /** What `ParseConfig` may return; which of the complaints about an invalid configuration comes first is left open. */
  ghost predicate ReadsAs(text: string, ext: Rules.Externals, r: Result<Config>)
  {
    match ParsedConfig(text)
    case Err(code) => r == Err(code)
    case Ok(c) => if Rules.Valid(c, ext) then r == Ok(c) else r.Err?
  }

  /**
   Whatever valid configuration can be written is parsed as the text tells it, if its patterns still are patterns once
   cut at their semicolons, and is rejected otherwise. It is parsed as the very same configuration exactly when its lists
   are separable and nothing of the runtime is set. No limit of the parser stands in the way.
   */
  lemma ConfigRoundTrips(c: Config, ext: Rules.Externals, r: Result<Config>)
    requires Rules.Valid(c, ext) && SerializedText(c).Ok? && ReadsAs(SerializedText(c).value, ext, r)
    ensures r.Ok? <==> forall i :: 0 <= i < |c.rules| ==> StillPatterns(c.rules[i].patterns)
    ensures r.Ok? ==> r == Ok(Told(c))
    ensures r == Ok(c) <==> Tellable(c)
  {
    hide *;
    TextTells(c);
    ReadsAsTold(SerializedText(c).value, Told(c), ext, r);
    ToldIsValid(c, ext);
    ToldWhole(c);
  }

  lemma ReadsAsTold(text: string, c: Config, ext: Rules.Externals, r: Result<Config>)
    requires ParsedConfig(text) == Ok(c) && ReadsAs(text, ext, r)
    ensures r.Ok? <==> Rules.Valid(c, ext)
    ensures r.Ok? ==> r == Ok(c)
  {
    hide ParsedConfig;
    hide Rules.Valid;
  }

  /** The text of a configuration tells it, but for what its semicolons cut and what is for the runtime. */
  lemma TextTells(c: Config)
    requires SerializedText(c).Ok?
    ensures ParsedConfig(SerializedText(c).value) == Ok(Told(c))
  {
    hide DocumentText;
    hide Parsed;
    hide ConfigOf;
    hide TreeOf;
    hide TreeOk;
    hide Ample;
    hide NodeOf;
    hide Told;
    hide Count;
    TreeFine(c);
    DocumentReads(TreeOf(c));
    ConfigReads(c);
  }

  /** Different configurations that a text can tell have different texts. */
  lemma TextsDiffer(c: Config, d: Config)
    requires SerializedText(c).Ok? && SerializedText(c) == SerializedText(d) && Tellable(c) && Tellable(d)
    ensures c == d
  {
    hide *;
    TextTells(c);
    TextTells(d);
    ToldWhole(c);
    ToldWhole(d);
  }

  // ---- Printing ----

  method PrintField(f: Field) returns (r: Result<string>)
    ensures r == FieldText(f)
  {
    hide Escaped;
    var value := Escape(f.1);
    if value.Err? {
      return Err(value.code);
    }
    return Ok(" " + f.0 + "=\"" + value.value + "\"");
  }

  /** The attributes of one tag; the source writes them one behind the other. */
  method PrintFields(fields: seq<Field>) returns (r: Result<string>)
    ensures r == FieldsText(fields)
  {
    hide FieldText;
    hide Then;
    var out: string, i: nat := "", 0;
    ThenNothing(FieldsText(fields));
    assert fields[0..] == fields;
    while i < |fields|
      invariant i <= |fields| && Then(out, FieldsText(fields[i..])) == FieldsText(fields)
    {
      FieldStep(fields, i, out);
      var field := PrintField(fields[i]);
      if field.Err? {
        return Err(field.code);
      }
      out := out + field.value;
      i := i + 1;
    }
    assert fields[i..] == [];
    ThenDone(out);
    return Ok(out);
  }

  lemma FieldStep(fields: seq<Field>, i: nat, out: string)
    requires i < |fields|
    ensures FieldText(fields[i]).Err? ==> Then(out, FieldsText(fields[i..])) == Err(FieldText(fields[i]).code)
    ensures FieldText(fields[i]).Ok? ==>
              Then(out + FieldText(fields[i]).value, FieldsText(fields[i + 1..])) == Then(out, FieldsText(fields[i..]))
  {
    hide FieldText;
    assert fields[i..][1..] == fields[i + 1..];
    if FieldText(fields[i]).Ok? {
      ThenAgain(out, FieldText(fields[i]).value, FieldsText(fields[i + 1..]));
    }
  }

  /** One element on lines of its own. */
  function LineText(t: Tree, indent: string): (r: Result<string>)
  {
    var core :- Core(t, indent);
    Ok(indent + core + "\n")
  }

  lemma LineStep(trees: seq<Tree>, indent: string, out: string)
    requires trees != []
    ensures LineText(trees[0], indent).Err? ==> Then(out, Lines(trees, indent)) == Err(LineText(trees[0], indent).code)
    ensures LineText(trees[0], indent).Ok? ==>
              Then(out + LineText(trees[0], indent).value, Lines(trees[1..], indent)) == Then(out, Lines(trees, indent))
  {
    hide Core;
    if LineText(trees[0], indent).Ok? {
      ThenAgain(out, LineText(trees[0], indent).value, Lines(trees[1..], indent));
    }
  }

  /** Metadata, in the order of its keys. */
  method PrintMetadata(m: map<string, string>) returns (r: Result<string>)
    ensures r == Lines(MetasOf(m), "    ")
  {
    hide Lines;
    hide LineText;
    hide Then;
    hide MetaTree;
    hide IsLowest;
    var out, rest := "", m.Keys;
    ThenNothing(Lines(MetasOf(m), "    "));
    while rest != {}
      invariant rest <= m.Keys
      invariant Then(out, Lines(MetaTrees(SortedKeys(rest), m), "    ")) == Lines(MetasOf(m), "    ")
      decreases |rest|
    {
      HasLowest(rest);
      var key :| IsLowest(rest, key);
      LowestIsUnique(rest, key);
      LowestFirst(rest, key, m);
      LineStep(MetaTrees(SortedKeys(rest), m), "    ", out);
      var line := PrintMeta(key, m[key]);
      if line.Err? {
        return Err(line.code);
      }
      out := out + line.value;
      rest := rest - {key};
    }
    NoLines(m);
    ThenDone(out);
    return Ok(out);
  }

  lemma LowestFirst(keys: set<string>, key: string, m: map<string, string>)
    requires keys != {} && key == Lowest(keys) && keys <= m.Keys
    ensures key in keys && keys - {key} <= m.Keys
    ensures MetaTrees(SortedKeys(keys), m) == [MetaTree(key, m[key])] + MetaTrees(SortedKeys(keys - {key}), m)
  {
    hide MetaTree;
    assert SortedKeys(keys)[1..] == SortedKeys(keys - {key});
  }

  lemma NoLines(m: map<string, string>)
    ensures Lines(MetaTrees(SortedKeys({}), m), "    ") == Ok("")
  {
  }

  method PrintMeta(key: string, value: string) returns (r: Result<string>)
    ensures r == LineText(MetaTree(key, value), "    ")
  {
    hide FieldsText;
    hide Zipped;
    var fields := PrintFields(Zipped(META_KEYS, MetaValues(key, value)));
    if fields.Err? {
      return Err(fields.code);
    }
    return Ok("    " + ("<" + "Meta" + fields.value + "/>") + "\n");
  }

  /** An element with metadata below it. */
  method PrintBranch(name: string, fields: seq<Field>, m: map<string, string>) returns (r: Result<string>)
    ensures r == LineText(Branch(name, fields, MetasOf(m)), "  ")
  {
    hide FieldsText;
    hide Lines;
    hide MetasOf;
    var text := PrintFields(fields);
    if text.Err? {
      return Err(text.code);
    }
    var metas := PrintMetadata(m);
    assert "  " + "  " == "    ";
    if metas.Err? {
      return Err(metas.code);
    }
    return Ok("  " + ("<" + name + text.value + ">\n" + metas.value + "  " + "</" + name + ">") + "\n");
  }

  method PrintLogging(l: Logging) returns (r: Result<string>)
    ensures r == LineText(LoggingTree(l), "  ")
  {
    hide FieldsText;
    hide Zipped;
    var text := PrintFields(Zipped(LOGGING_KEYS, LoggingValues(l)));
    if text.Err? {
      return Err(text.code);
    }
    return Ok("  " + ("<" + "Logging" + text.value + "/>") + "\n");
  }

  /** The lines of a list and of one more element. */
  lemma {:induction false} LinesSnoc(trees: seq<Tree>, t: Tree, indent: string)
    ensures Lines(trees, indent).Ok? && LineText(t, indent).Ok? ==>
              Lines(trees + [t], indent) == Ok(Lines(trees, indent).value + LineText(t, indent).value)
    ensures Lines(trees, indent).Ok? && LineText(t, indent).Err? ==> Lines(trees + [t], indent) == Err(LineText(t, indent).code)
    ensures Lines(trees, indent).Err? ==> Lines(trees + [t], indent) == Err(Lines(trees, indent).code)
    decreases |trees|
  {
    hide Core;
    if trees == [] {
      assert [] + [t] == [t] && [t][1..] == [];
      OneLine(t, indent);
    } else {
      LinesSnoc(trees[1..], t, indent);
      assert (trees + [t])[1..] == trees[1..] + [t];
      if Core(trees[0], indent).Ok? && Lines(trees[1..], indent).Ok? && LineText(t, indent).Ok? {
        var first := indent + Core(trees[0], indent).value + "\n";
        assert first + (Lines(trees[1..], indent).value + LineText(t, indent).value)
            == (first + Lines(trees[1..], indent).value) + LineText(t, indent).value;
      }
    }
  }

  lemma OneLine(t: Tree, indent: string)
    ensures Lines([t], indent) == LineText(t, indent)
    ensures Lines([], indent) == Ok("")
    ensures forall s: string :: "" + s == s
  {
    hide Core;
    assert [t][1..] == [];
    if Core(t, indent).Ok? {
      assert LineText(t, indent).value + "" == LineText(t, indent).value;
    }
  }

  /** A list that fails early fails as a whole, in the same way. */
  lemma {:induction false} LinesFail(front: seq<Tree>, rest: seq<Tree>, indent: string)
    requires Lines(front, indent).Err?
    ensures Lines(front + rest, indent) == Err(Lines(front, indent).code)
    decreases |rest|
  {
    hide Lines;
    hide LineText;
    if rest == [] {
      assert front + rest == front;
    } else {
      LinesFail(front, rest[..|rest| - 1], indent);
      LinesSnoc(front + rest[..|rest| - 1], rest[|rest| - 1], indent);
      assert front + rest == (front + rest[..|rest| - 1]) + [rest[|rest| - 1]];
    }
  }

  /** Server trees written so far, and those to come. */
  lemma {:induction false} ServersSplit(servers: seq<Server>, i: nat) returns (rest: seq<Tree>)
    requires i <= |servers|
    ensures ServerTrees(servers) == ServerTrees(servers[..i]) + rest
    decreases |servers|
  {
    hide ServerTree;
    if i == |servers| {
      rest := [];
      assert servers[..i] == servers;
    } else {
      var front := servers[..|servers| - 1];
      rest := ServersSplit(front, i);
      rest := rest + [ServerTree(servers[|servers| - 1])];
      assert front[..i] == servers[..i];
    }
  }

  lemma {:induction false} RulesSplit(rules: seq<Rule>, i: nat) returns (rest: seq<Tree>)
    requires i <= |rules|
    ensures RuleTrees(rules) == RuleTrees(rules[..i]) + rest
    decreases |rules|
  {
    hide RuleTree;
    if i == |rules| {
      rest := [];
      assert rules[..i] == rules;
    } else {
      var front := rules[..|rules| - 1];
      rest := RulesSplit(front, i);
      rest := rest + [RuleTree(rules[|rules| - 1])];
      assert front[..i] == rules[..i];
    }
  }

  /** The attributes of a server, its lists joined. */
  method PrintServer(s: Server) returns (r: Result<string>)
    ensures r == LineText(ServerTree(s), "  ")
  {
    hide LineText;
    hide Zipped;
    hide MetasOf;
    hide Joined;
    hide Texts;
    hide ToText;
    hide FlagText;
    hide ProtocolName;
    var fallbacks := JoinIds(s.fallbacks);
    var bootstrap := Join(s.bootstrap);
    var hashes := Join(s.hashes);
    var values := [
      ToText(s.id), s.name, FlagText(s.enabled), ProtocolName(s.protocol), s.ip, ToText(s.port), s.hostname, s.url,
      FlagText(s.dnssec), ToText(s.timeout), FlagText(s.directFallback), fallbacks, bootstrap, hashes, s.publicKey,
      s.provider, s.relay];
    assert values == ServerValues(s);
    r := PrintBranch("Server", Zipped(SERVER_KEYS, values), s.metadata);
  }

  method PrintRule(rule: Rule) returns (r: Result<string>)
    ensures r == LineText(RuleTree(rule), "  ")
  {
    hide LineText;
    hide Zipped;
    hide MetasOf;
    hide Joined;
    hide ToText;
    hide FlagText;
    hide ActionName;
    var patterns := Join(rule.patterns);
    var values := [
      ToText(rule.id), rule.name, FlagText(rule.enabled), FlagText(rule.isDefault), patterns, ActionName(rule.action),
      ToText(rule.serverId), rule.interfaceId, FlagText(rule.dnssecValidate), FlagText(rule.dnssecRejectUnsigned),
      ToText(FromEnum(rule.blockMode))];
    assert values == RuleValues(rule);
    r := PrintBranch("Rule", Zipped(RULE_KEYS, values), rule.metadata);
  }

  /** Servers below what is written already. */
  method PrintServers(servers: seq<Server>, start: string, ghost before: seq<Tree>) returns (r: Result<string>)
    requires Lines(before, "  ") == Ok(start)
    ensures r == Lines(before + ServerTrees(servers), "  ")
  {
    hide Lines;
    hide LineText;
    hide ServerTree;
    var out, i := start, 0;
    assert before + ServerTrees(servers[..0]) == before;
    while i < |servers|
      invariant 0 <= i <= |servers| && Lines(before + ServerTrees(servers[..i]), "  ") == Ok(out)
    {
      var s := servers[i];
      var line := PrintServer(s);
      ghost var done := before + ServerTrees(servers[..i]);
      LinesSnoc(done, ServerTree(s), "  ");
      NextServer(before, servers, i);
      if line.Err? {
        ghost var rest := ServersSplit(servers, i + 1);
        LinesFail(done + [ServerTree(s)], rest, "  ");
        assert before + ServerTrees(servers) == done + [ServerTree(s)] + rest;
        return Err(line.code);
      }
      out := out + line.value;
      i := i + 1;
    }
    assert servers[..i] == servers;
    return Ok(out);
  }

  lemma NextServer(before: seq<Tree>, servers: seq<Server>, i: nat)
    requires i < |servers|
    ensures before + ServerTrees(servers[..i]) + [ServerTree(servers[i])] == before + ServerTrees(servers[..i + 1])
  {
    hide ServerTree;
    assert servers[..i + 1][..i] == servers[..i];
  }

  method PrintRules(rules: seq<Rule>, start: string, ghost before: seq<Tree>) returns (r: Result<string>)
    requires Lines(before, "  ") == Ok(start)
    ensures r == Lines(before + RuleTrees(rules), "  ")
  {
    hide Lines;
    hide LineText;
    hide RuleTree;
    var out, i := start, 0;
    assert before + RuleTrees(rules[..0]) == before;
    while i < |rules|
      invariant 0 <= i <= |rules| && Lines(before + RuleTrees(rules[..i]), "  ") == Ok(out)
    {
      var rule := rules[i];
      var line := PrintRule(rule);
      ghost var done := before + RuleTrees(rules[..i]);
      LinesSnoc(done, RuleTree(rule), "  ");
      NextRule(before, rules, i);
      if line.Err? {
        ghost var rest := RulesSplit(rules, i + 1);
        LinesFail(done + [RuleTree(rule)], rest, "  ");
        assert before + RuleTrees(rules) == done + [RuleTree(rule)] + rest;
        return Err(line.code);
      }
      out := out + line.value;
      i := i + 1;
    }
    assert rules[..i] == rules;
    return Ok(out);
  }

  lemma NextRule(before: seq<Tree>, rules: seq<Rule>, i: nat)
    requires i < |rules|
    ensures before + RuleTrees(rules[..i]) + [RuleTree(rules[i])] == before + RuleTrees(rules[..i + 1])
  {
    hide RuleTree;
    assert rules[..i + 1][..i] == rules[..i];
  }

  /** Everything inside the root element. */
  method PrintChildren(c: Config) returns (r: Result<string>)
    ensures r == Lines(TopTrees(c), "  ")
  {
    hide Lines;
    hide LineText;
    hide SettingsTree;
    hide LoggingTree;
    hide ServerTrees;
    hide RuleTrees;
    ghost var s, l := SettingsTree(c.settings), LoggingTree(c.logging);
    ghost var servers, rules := ServerTrees(c.servers), RuleTrees(c.rules);
    assert TopTrees(c) == [s] + ([l] + servers + rules) == [s, l] + (servers + rules) == ([s, l] + servers) + rules;
    var settings := PrintSettings(c.settings);
    OneLine(s, "  ");
    if settings.Err? {
      LinesFail([s], [l] + servers + rules, "  ");
      return Err(settings.code);
    }
    var logging := PrintLogging(c.logging);
    LinesSnoc([s], l, "  ");
    assert [s] + [l] == [s, l];
    if logging.Err? {
      LinesFail([s, l], servers + rules, "  ");
      return Err(logging.code);
    }
    r := PrintServers(c.servers, settings.value + logging.value, [s, l]);
    if r.Err? {
      LinesFail([s, l] + servers, rules, "  ");
      return;
    }
    r := PrintRules(c.rules, r.value, [s, l] + servers);
  }

  method PrintSettings(settings: map<string, string>) returns (r: Result<string>)
    ensures r == LineText(SettingsTree(settings), "  ")
  {
    hide LineText;
    hide MetasOf;
    r := PrintBranch("Settings", [], settings);
  }

  /** Writes a configuration that is valid and not too large. */
  method SerializeConfig(c: Config, ext: Rules.Externals) returns (r: Result<string>)
    ensures Rules.Valid(c, ext) ==> r == SerializedText(c)
    ensures !Rules.Valid(c, ext) ==> r.Err?
  {
    hide FieldsText;
    hide Lines;
    hide Zipped;
    hide RootValues;
    hide TopTrees;
    hide Rules.Valid;
    var complaint := Rules.Validate(c, ext);
    if complaint.Some? {
      return Err(complaint.value);
    }
    assert "" + "  " == "  ";
    var fields := PrintFields(Zipped(ROOT_KEYS, RootValues(c)));
    if fields.Err? {
      return Err(fields.code);
    }
    var children := PrintChildren(c);
    if children.Err? {
      return Err(children.code);
    }
    var root := "<" + "NativeDNS" + fields.value + ">\n" + children.value + "" + "</" + "NativeDNS" + ">";
    var text := "<?" + DECLARATION + "?>\n" + (root + "\n");
    return if |text| > MAX_TEXT then Err("CONFIG_LIMIT") else Ok(text);
  }

  // ---- Reading ----

  method ReadMetadata(items: seq<Node>) returns (r: Result<map<string, string>>)
    ensures r == MetadataOf(items)
  {
    hide Known;
    hide Attr;
    var result: map<string, string>, i: nat := map[], 0;
    while i < |items|
      invariant i <= |items| && MetadataOf(items[..i]) == Ok(result)
    {
      assert items[..i + 1][..i] == items[..i];
      var item := items[i];
      var key := Attr(item, "key", "");
      if item.name != "Meta" || item.children != [] || !Known(item, META_KEYS) || key in result {
        MetadataFails(items, i + 1);
        return Err(BAD_FIELD);
      }
      result := result[key := Attr(item, "value", "")];
      i := i + 1;
    }
    assert items[..i] == items;
    return Ok(result);
  }

  lemma {:induction false} MetadataFails(items: seq<Node>, m: nat)
    requires m <= |items| && MetadataOf(items[..m]).Err?
    ensures MetadataOf(items) == MetadataOf(items[..m])
    decreases |items|
  {
    hide Known;
    hide Attr;
    if m < |items| {
      assert items[..|items| - 1][..m] == items[..m];
      MetadataFails(items[..|items| - 1], m);
    } else {
      assert items[..m] == items;
    }
  }

  method ConfigFromRoot(root: Node, ext: Rules.Externals) returns (r: Result<Config>)
    ensures ConfigOf(root).Err? ==> r == Err(ConfigOf(root).code)
    ensures ConfigOf(root).Ok? ==>
              if Rules.Valid(ConfigOf(root).value, ext) then r == Ok(ConfigOf(root).value) else r.Err?
  {
    hide RootOf;
    hide WithChild;
    hide Rules.Valid;
    var start := RootOf(root);
    if start.Err? {
      return Err(start.code);
    }
    var draft, i := start.value, 0;
    while i < |root.children|
      invariant 0 <= i <= |root.children| && Gathered(start.value, root.children[..i]) == Ok(draft)
    {
      assert root.children[..i + 1][..i] == root.children[..i];
      var next := ReadChild(draft, root.children[i]);
      if next.Err? {
        GatheredFails(start.value, root.children, i + 1);
        return Err(next.code);
      }
      draft := next.value;
      i := i + 1;
    }
    assert root.children[..i] == root.children;
    var complaint := Rules.Validate(draft.config, ext);
    return if complaint.Some? then Err(complaint.value) else Ok(draft.config);
  }

  lemma {:induction false} GatheredFails(start: Draft, children: seq<Node>, m: nat)
    requires m <= |children| && Gathered(start, children[..m]).Err?
    ensures Gathered(start, children) == Gathered(start, children[..m])
    decreases |children|
  {
    hide WithChild;
    if m < |children| {
      assert children[..|children| - 1][..m] == children[..m];
      GatheredFails(start, children[..|children| - 1], m);
    } else {
      assert children[..m] == children;
    }
  }

  /** One child of the root. */
  method ReadChild(draft: Draft, node: Node) returns (r: Result<Draft>)
    ensures r == WithChild(draft, node)
  {
    hide ServerOf;
    hide RuleOf;
    hide LoggingOf;
    hide Known;
    if node.name == "Settings" {
      if !Known(node, []) {
        return Err(BAD_FIELD);
      }
      if draft.sawSettings {
        return Err("CONFIG");
      }
      var settings := ReadMetadata(node.children);
      if settings.Err? {
        return Err(settings.code);
      }
      return Ok(draft.(config := draft.config.(settings := settings.value), sawSettings := true));
    }
    if node.name == "Logging" {
      if draft.sawLogging || node.children != [] {
        return Err("CONFIG");
      }
      var logging :- LoggingOf(node);
      return Ok(draft.(config := draft.config.(logging := logging), sawLogging := true));
    }
    if node.name == "Server" {
      var server :- ReadServer(node);
      return Ok(draft.(config := draft.config.(servers := draft.config.servers + [server])));
    }
    if node.name == "Rule" {
      var rule :- ReadRule(node);
      return Ok(draft.(config := draft.config.(rules := draft.config.rules + [rule])));
    }
    return Err(BAD_FIELD);
  }

  method ReadServer(node: Node) returns (r: Result<Server>)
    ensures r == ServerOf(node)
  {
    hide Num;
    hide Flag;
    hide Attr;
    hide Known;
    hide ProtocolNamed;
    hide SplitText;
    hide SplitIdsText;
    hide MetadataOf;
    if !Known(node, SERVER_KEYS) {
      return Err(BAD_FIELD);
    }
    var id :- Num(node, "id", 0);
    var enabled :- Flag(node, "enabled", true);
    var protocol :- ProtocolNamed(Attr(node, "protocol", ""));
    var port :- Num(node, "port", 0);
    if port > 65535 {
      return Err("ENDPOINT");
    }
    var dnssec :- Flag(node, "dnssec", false);
    var timeout :- Num(node, "timeout", 3000);
    var direct :- Flag(node, "directCertificateFallback", false);
    var fallbacks :- SplitIds(Attr(node, "fallbacks", ""));
    var bootstrap := Split(Attr(node, "bootstrap", ""));
    var hashes := Split(Attr(node, "hashes", ""));
    var metadata :- ReadMetadata(node.children);
    return Ok(Server(
      id, Attr(node, "name", ""), enabled, protocol, Attr(node, "ip", ""), Attr(node, "hostname", ""),
      Attr(node, "url", ""), port, dnssec, timeout, direct, fallbacks, bootstrap, hashes, false, NO_ROUTE,
      Attr(node, "publicKey", ""), Attr(node, "provider", ""), Attr(node, "relay", ""), metadata));
  }

  method ReadRule(node: Node) returns (r: Result<Rule>)
    ensures r == RuleOf(node)
  {
    hide Num;
    hide Flag;
    hide Attr;
    hide Known;
    hide ActionNamed;
    hide SplitText;
    hide MetadataOf;
    if !Known(node, RULE_KEYS) {
      return Err(BAD_FIELD);
    }
    var id :- Num(node, "id", 0);
    var enabled :- Flag(node, "enabled", true);
    var isDefault :- Flag(node, "default", false);
    var patterns := Split(Attr(node, "patterns", ""));
    var action :- ActionNamed(Attr(node, "action", ""));
    var server :- Num(node, "server", 0);
    var validates :- Flag(node, "validate", false);
    var rejects :- Flag(node, "rejectUnsigned", false);
    var blockMode :- Num(node, "blockMode", 0);
    var metadata :- ReadMetadata(node.children);
    return Ok(Rule(
      id, Attr(node, "name", ""), enabled, isDefault, patterns, action, server, Attr(node, "interface", ""),
      validates, rejects, ToEnum(blockMode), metadata));
  }

  /** Reads a text as a valid configuration. */
  method ParseConfig(text: string, ext: Rules.Externals) returns (r: Result<Config>)
    ensures ReadsAs(text, ext, r)
  {
    hide Parsed;
    hide ConfigOf;
    hide Rules.Valid;
    var parser := new XmlParser(text);
    var root := parser.Parse();
    if root.Err? {
      return Err(root.code);
    }
    r := ConfigFromRoot(root.value, ext);
  }
}
