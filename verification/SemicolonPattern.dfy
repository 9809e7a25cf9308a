/** A configuration that is valid and written, and whose text is rejected: one rule for the pattern ";", and the Default rule. */
module SemicolonPattern {
  import opened Bytes
  import opened Decimal
  import opened ConfigModel
  import opened ConfigLists
  import opened HostName
  import opened MapOrder
  import opened Utf8
  import opened XmlText
  import opened Xml
  import opened XmlPrinting
  import opened XmlDocument
  import opened XmlFields
  import opened ConfigNode
  import opened ConfigTree
  import opened ConfigValidity
  import opened ConfigText
  import FallbackGraph
  import Rules

  function PlainRule(id: uint32, isDefault: bool, pattern: string): (r: Rule)
  {
    Rule(id, "rule", true, isDefault, [pattern], Bypass, 0, "", false, false, 0, map[])
  }

  const SEMICOLON := Config(1, [], [PlainRule(1, false, ";"), PlainRule(2, true, "*")], Logging(0, 0, false, "logs"), "a", 1, map[])

  /** It is valid, it is written, and whatever comes of parsing what was written is an error. */
  lemma SemicolonIsLost(ext: Rules.Externals, r: Result<Config>)
    ensures Rules.Valid(SEMICOLON, ext) && SerializedText(SEMICOLON).Ok?
    ensures ReadsAs(SerializedText(SEMICOLON).value, ext, r) ==> r.Err?
  {
    hide *;
    SemicolonIsValid(ext);
    SemicolonIsWritten();
    if ReadsAs(SerializedText(SEMICOLON).value, ext, r) {
      ConfigRoundTrips(SEMICOLON, ext, r);
      NothingIsLeft();
      FirstPatterns();
    }
  }

  lemma FirstPatterns()
    ensures |SEMICOLON.rules| > 0 && SEMICOLON.rules[0].patterns == [";"]
  {
  }

  // ---- It is valid ----

  lemma SemicolonIsValid(ext: Rules.Externals)
    ensures Rules.Valid(SEMICOLON, ext)
  {
    hide Rules.HeaderValid;
    hide Rules.ServersValid;
    hide Rules.RulesValid;
    HeaderIsValid();
    NoServersAreValid(ext);
    RulesAreValid();
  }

  lemma HeaderIsValid()
    ensures Rules.HeaderValid(SEMICOLON)
  {
    hide NormalizedName;
    TargetIsName();
  }

  lemma NoServersAreValid(ext: Rules.Externals)
    ensures Rules.ServersValid([], ext)
  {
    hide FallbackGraph.HasCycle;
    assert Rules.GraphOf([]) == map[];
    FallbackGraph.FinishedIsAcyclic(map[], []);
  }

  lemma RulesAreValid()
    ensures Rules.RulesValid(SEMICOLON)
  {
    hide Rules.RuleOk;
    RuleIsOk(0);
    RuleIsOk(1);
  }

  lemma TargetIsName()
    ensures NormalizedName("a", false, true).Ok?
  {
    assert FirstDot("a") == 1;
    assert LowerAll("a") == "a";
  }

  lemma RuleIsOk(i: nat)
    requires i < 2
    ensures Rules.RuleOk(SEMICOLON, i)
  {
    SemicolonIsAName();
    Rules.StarIsCanonical();
  }

  // ---- It is written ----

  /** Printable ASCII characters, and not many of them. */
  predicate Plain(s: string) { |s| <= 100 && forall i :: 0 <= i < |s| ==> ' ' <= s[i] <= '~' }

  lemma {:induction false} PlainDecodes(s: string)
    requires Plain(s)
    ensures Decoded(s).Ok?
    decreases |s|
  {
    if s != "" {
      PlainDecodes(s[1..]);
      assert First(s) == Ok((s[0] as int, 1));
    }
  }

  lemma {:induction false} PlainEscapes(s: string)
    requires Plain(s)
    ensures EscapedFrom(s).Ok? && |EscapedFrom(s).value| <= 6 * |s|
  {
    if s != "" {
      PlainEscapes(s[1..]);
    }
  }

  lemma PlainField(f: Field)
    requires Plain(f.1) && |f.0| <= 30
    ensures FieldText(f).Ok? && |FieldText(f).value| <= 640
  {
    hide Decoded;
    hide EscapedFrom;
    PlainDecodes(f.1);
    PlainEscapes(f.1);
  }

  lemma {:induction false} PlainFields(keys: seq<string>, values: seq<string>)
    requires |keys| == |values| && forall i :: 0 <= i < |keys| ==> |keys[i]| <= 30 && Plain(values[i])
    ensures FieldsText(Zipped(keys, values)).Ok? && |FieldsText(Zipped(keys, values)).value| <= 640 * |keys|
    decreases |keys|
  {
    hide FieldText;
    hide Plain;
    if keys != [] {
      PlainField((keys[0], values[0]));
      PlainFields(keys[1..], values[1..]);
      assert Zipped(keys, values)[1..] == Zipped(keys[1..], values[1..]);
    }
  }

  /** An element without metadata. */
  lemma PlainBranch(name: string, keys: seq<string>, values: seq<string>, indent: string)
    requires |keys| == |values| && forall i :: 0 <= i < |keys| ==> |keys[i]| <= 30 && Plain(values[i])
    ensures var t := Branch(name, Zipped(keys, values), MetasOf(map[]));
            LineText(t, indent).Ok? && |LineText(t, indent).value| <= 640 * |keys| + 2 * |name| + 2 * |indent| + 10
  {
    hide FieldsText;
    hide Zipped;
    hide Plain;
    PlainFields(keys, values);
    NoMetas();
    assert Lines([], indent + "  ") == Ok("");
  }

  lemma NoMetas()
    ensures MetasOf(map[]) == []
  {
    var none: map<string, string> := map[];
    assert none.Keys == {};
  }

  lemma RuleIsWritten(i: nat)
    requires i < 2
    ensures LineText(RuleTree(SEMICOLON.rules[i]), "  ").Ok?
    ensures |LineText(RuleTree(SEMICOLON.rules[i]), "  ").value| <= 10000
  {
    hide LineText;
    hide Zipped;
    hide MetasOf;
    var r := SEMICOLON.rules[i];
    RuleIsPlain(i);
    PlainBranch("Rule", RULE_KEYS, RuleValues(r), "  ");
  }

  lemma RuleIsPlain(i: nat)
    requires i < 2
    ensures forall k :: 0 <= k < |RULE_KEYS| ==> |RULE_KEYS[k]| <= 30 && Plain(RuleValues(SEMICOLON.rules[i])[k])
  {
    assert ToText(0) == "0" && ToText(1) == "1" && ToText(2) == "2";
    assert Joined([]) == "";
    assert Joined([";"]) == ";" && Joined(["*"]) == "*";
  }

  lemma LoggingIsWritten()
    ensures LineText(LoggingTree(SEMICOLON.logging), "  ").Ok?
    ensures |LineText(LoggingTree(SEMICOLON.logging), "  ").value| <= 10000
  {
    hide FieldsText;
    hide Zipped;
    assert ToText(0) == "0";
    PlainFields(LOGGING_KEYS, LoggingValues(SEMICOLON.logging));
  }

  lemma SettingsAreWritten()
    ensures LineText(SettingsTree(map[]), "  ").Ok? && |LineText(SettingsTree(map[]), "  ").value| <= 10000
  {
    hide LineText;
    hide MetasOf;
    PlainBranch("Settings", [], [], "  ");
  }

  lemma ChildrenAreWritten()
    ensures Lines(TopTrees(SEMICOLON), "  ").Ok? && |Lines(TopTrees(SEMICOLON), "  ").value| <= 40000
  {
    hide LineText;
    hide Lines;
    hide LoggingTree;
    hide SettingsTree;
    hide RuleTree;
    var s, l := SettingsTree(map[]), LoggingTree(SEMICOLON.logging);
    var a, b := RuleTree(SEMICOLON.rules[0]), RuleTree(SEMICOLON.rules[1]);
    SettingsAreWritten();
    LoggingIsWritten();
    RuleIsWritten(0);
    RuleIsWritten(1);
    OneLine(s, "  ");
    LinesSnoc([s], l, "  ");
    LinesSnoc([s] + [l], a, "  ");
    LinesSnoc([s] + [l] + [a], b, "  ");
    TopOfSemicolon();
  }

  lemma TopOfSemicolon()
    ensures TopTrees(SEMICOLON)
            == [SettingsTree(map[])] + [LoggingTree(SEMICOLON.logging)] + [RuleTree(SEMICOLON.rules[0])] + [RuleTree(SEMICOLON.rules[1])]
  {
    hide LoggingTree;
    hide SettingsTree;
    hide RuleTree;
    var rules := SEMICOLON.rules;
    assert rules[..1] == [rules[0]] && rules[..1][..0] == [];
    assert RuleTrees(rules) == RuleTrees(rules[..1]) + [RuleTree(rules[1])];
    assert RuleTrees(rules[..1]) == RuleTrees([]) + [RuleTree(rules[0])];
  }

  lemma SemicolonIsWritten()
    ensures SerializedText(SEMICOLON).Ok?
  {
    hide FieldsText;
    hide Zipped;
    hide Lines;
    hide TopTrees;
    assert ToText(1) == "1";
    PlainFields(ROOT_KEYS, RootValues(SEMICOLON));
    ChildrenAreWritten();
    assert "" + "  " == "  ";
  }
}
