/** The XML of a configuration is well named, shallow, and large enough for the limit on elements never to be met. */
module ConfigShape {
  import opened Bytes
  import opened Decimal
  import opened ConfigModel
  import opened MapOrder
  import opened Xml
  import opened XmlPrinting
  import opened XmlDocument
  import opened XmlFields
  import opened ConfigNode
  import opened ConfigKeys
  import opened ConfigTree

  /** Both things a list of trees must be, at an indentation. */
  predicate Fine(trees: seq<Tree>, levels: nat, indent: nat) { TreesOk(trees, levels) && AllAmple(trees, indent) }

  lemma {:induction false} FineParts(a: seq<Tree>, b: seq<Tree>, levels: nat, indent: nat)
    requires Fine(a, levels, indent) && Fine(b, levels, indent)
    ensures Fine(a + b, levels, indent)
  {
    hide TreeOk;
    hide Ample;
    if a == [] {
      assert a + b == b;
    } else {
      FineParts(a[1..], b, levels, indent);
      assert (a + b)[1..] == a[1..] + b;
    }
  }

  lemma FineOne(t: Tree, levels: nat, indent: nat)
    requires TreeOk(t, levels) && Ample(t, indent)
    ensures Fine([t], levels, indent)
  {
    hide TreeOk;
    hide Ample;
    assert [t][1..] == [];
    assert TreesOk([], levels) && AllAmple([], indent);
  }

  lemma FieldsFine(keys: seq<string>, values: seq<string>)
    requires KeysOk(keys) && |keys| == |values|
    ensures NamesOk(map[], Zipped(keys, values)) && |Zipped(keys, values)| == |keys|
  {
    hide KeysOk;
    ZippedNames(keys, values, map[]);
  }

  lemma MetaFine(key: string, value: string, levels: nat)
    ensures TreeOk(MetaTree(key, value), levels) && Ample(MetaTree(key, value), 4)
  {
    hide KeysOk;
    hide NamesOk;
    hide Zipped;
    MetaKeys();
    FieldsFine(META_KEYS, MetaValues(key, value));
  }

  lemma {:induction false} MetasFine(keys: seq<string>, m: map<string, string>, levels: nat)
    requires forall k :: k in keys ==> k in m
    ensures Fine(MetaTrees(keys, m), levels, 4)
  {
    hide TreeOk;
    hide Ample;
    hide MetaTree;
    if keys != [] {
      MetaFine(keys[0], m[keys[0]], levels);
      MetasFine(keys[1..], m, levels);
      assert MetaTrees(keys, m)[1..] == MetaTrees(keys[1..], m);
    }
  }

  lemma BranchFine(name: string, keys: seq<string>, values: seq<string>, m: map<string, string>, levels: nat)
    requires IsName(name) && KeysOk(keys) && |keys| == |values| && levels > 0 && 2 * |name| + 5 * |keys| >= 10
    ensures TreeOk(Branch(name, Zipped(keys, values), MetasOf(m)), levels)
    ensures Ample(Branch(name, Zipped(keys, values), MetasOf(m)), 2)
  {
    hide KeysOk;
    hide NamesOk;
    hide IsName;
    hide Zipped;
    hide TreesOk;
    hide AllAmple;
    hide MetaTrees;
    FieldsFine(keys, values);
    MetasFine(SortedKeys(m.Keys), m, levels - 1);
  }

  lemma ServerFine(s: Server)
    ensures TreeOk(ServerTree(s), 15) && Ample(ServerTree(s), 2)
  {
    hide KeysOk;
    hide TreeOk;
    hide Ample;
    hide ServerValues;
    ServerKeys();
    BranchFine("Server", SERVER_KEYS, ServerValues(s), s.metadata, 15);
  }

  lemma RuleFine(r: Rule)
    ensures TreeOk(RuleTree(r), 15) && Ample(RuleTree(r), 2)
  {
    hide KeysOk;
    hide TreeOk;
    hide Ample;
    hide RuleValues;
    RuleKeys();
    BranchFine("Rule", RULE_KEYS, RuleValues(r), r.metadata, 15);
  }

  lemma SettingsFine(settings: map<string, string>)
    ensures TreeOk(SettingsTree(settings), 15) && Ample(SettingsTree(settings), 2)
  {
    hide TreeOk;
    hide Ample;
    BranchFine("Settings", [], [], settings, 15);
  }

  lemma LoggingFine(l: Logging)
    ensures TreeOk(LoggingTree(l), 15) && Ample(LoggingTree(l), 2)
  {
    hide KeysOk;
    hide NamesOk;
    hide Zipped;
    hide LoggingValues;
    LoggingKeys();
    FieldsFine(LOGGING_KEYS, LoggingValues(l));
  }

  lemma {:induction false} ServersFine(servers: seq<Server>)
    ensures Fine(ServerTrees(servers), 15, 2)
  {
    hide Fine;
    hide ServerTree;
    if servers == [] {
      assert Fine([], 15, 2) by { NothingFine(); }
    } else {
      ServersFine(servers[..|servers| - 1]);
      ServerFine(servers[|servers| - 1]);
      FineOne(ServerTree(servers[|servers| - 1]), 15, 2);
      FineParts(ServerTrees(servers[..|servers| - 1]), [ServerTree(servers[|servers| - 1])], 15, 2);
    }
  }

  lemma {:induction false} RulesFine(rules: seq<Rule>)
    ensures Fine(RuleTrees(rules), 15, 2)
  {
    hide Fine;
    hide RuleTree;
    if rules == [] {
      assert Fine([], 15, 2) by { NothingFine(); }
    } else {
      RulesFine(rules[..|rules| - 1]);
      RuleFine(rules[|rules| - 1]);
      FineOne(RuleTree(rules[|rules| - 1]), 15, 2);
      FineParts(RuleTrees(rules[..|rules| - 1]), [RuleTree(rules[|rules| - 1])], 15, 2);
    }
  }

  lemma NothingFine()
    ensures Fine([], 15, 2)
  {
  }

  lemma TopFine(c: Config)
    ensures Fine(TopTrees(c), 15, 2)
  {
    hide Fine;
    hide SettingsTree;
    hide LoggingTree;
    hide ServerTrees;
    hide RuleTrees;
    var s, l := SettingsTree(c.settings), LoggingTree(c.logging);
    SettingsFine(c.settings);
    LoggingFine(c.logging);
    FineOne(s, 15, 2);
    FineOne(l, 15, 2);
    FineParts([s], [l], 15, 2);
    assert [s] + [l] == [s, l];
    ServersFine(c.servers);
    FineParts([s, l], ServerTrees(c.servers), 15, 2);
    RulesFine(c.rules);
    FineParts([s, l] + ServerTrees(c.servers), RuleTrees(c.rules), 15, 2);
  }

  lemma TreeFine(c: Config)
    ensures TreeOk(TreeOf(c), MAX_DEPTH) && Ample(TreeOf(c), 0)
  {
    hide KeysOk;
    hide NamesOk;
    hide Zipped;
    hide RootValues;
    hide TopTrees;
    hide TreesOk;
    hide AllAmple;
    RootKeys();
    FieldsFine(ROOT_KEYS, RootValues(c));
    TopFine(c);
  }
}
