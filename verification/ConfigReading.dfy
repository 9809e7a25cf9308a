/** What the children, lists and numbers of a configuration file mean, in any spelling: `config_from_root` and its helpers in config.cpp. */
module ConfigReading {
  import opened Bytes
  import opened Decimal
  import opened ConfigModel
  import opened ConfigLists
  import opened Xml
  import opened ConfigNode
  import opened ConfigFields
  import S = EntitySpelling
  import T = XmlText

  // ---- Numbers ----

  lemma {:induction false} ValueInFront(digit: char, rest: string)
    requires IsDigit(digit) && AllDigits(rest)
    ensures Value([digit] + rest) == (digit as int - '0' as int) * S.Power(10, |rest|) + Value(rest)
    decreases |rest|
  {
    var all := [digit] + rest;
    if rest == "" {
      assert all[..0] == "";
    } else {
      var front := rest[..|rest| - 1];
      assert all[..|all| - 1] == [digit] + front;
      ValueInFront(digit, front);
      TenTimes(digit as int - '0' as int, S.Power(10, |front|), Value(front), rest[|rest| - 1] as int - '0' as int);
    }
  }

  lemma TenTimes(d: int, power: int, value: int, last: int)
    ensures (d * power + value) * 10 + last == d * (10 * power) + (value * 10 + last)
  {
  }

  lemma DigitIsShown(c: char, d: nat)
    requires d < 10
    ensures S.Shows(c, d) <==> IsDigit(c) && c as int - '0' as int == d
  {
    assert S.LOWER_DIGITS[d] as int == '0' as int + d && S.UPPER_DIGITS[d] as int == '0' as int + d;
  }

  lemma {:induction false} WrittenValue(text: string, digits: seq<nat>)
    requires S.Writes(text, digits, 10)
    ensures AllDigits(text) && Value(text) == S.PlaceValue(digits, 10)
    decreases |digits|
  {
    hide S.Shows;
    hide S.Power;
    if digits != [] {
      DigitIsShown(text[0], digits[0]);
      WrittenValue(text[1..], digits[1..]);
      assert text == [text[0]] + text[1..];
      ValueInFront(text[0], text[1..]);
    }
  }

  /** A number is read exactly from digits alone, one at least, with leading zeros or without, whose place value is below 2 ^ 32. */
  lemma NumberExactly(text: string, n: nat)
    ensures Number(text) == Ok(n) <==>
              text != "" && n < 0x1_0000_0000 && exists digits :: S.Writes(text, digits, 10) && S.PlaceValue(digits, 10) == n
  {
    hide S.PlaceValue;
    hide S.Shows;
    if AllDigits(text) {
      var digits := seq(|text|, i requires 0 <= i < |text| => text[i] as int - '0' as int);
      forall i | 0 <= i < |text|
        ensures 0 <= digits[i] < 10 && S.Shows(text[i], digits[i])
      {
        DigitIsShown(text[i], digits[i]);
      }
      assert S.Writes(text, digits, 10);
      WrittenValue(text, digits);
    }
    forall digits | S.Writes(text, digits, 10)
      ensures AllDigits(text) && Value(text) == S.PlaceValue(digits, 10)
    {
      WrittenValue(text, digits);
    }
  }

  // ---- Lists ----

  /** Pieces with a semicolon between each two of them. */
  function BetweenSemicolons(pieces: seq<string>): (s: string)
    requires pieces != []
  {
    if |pieces| == 1 then pieces[0] else pieces[0] + ";" + BetweenSemicolons(pieces[1..])
  }

  function NotEmpty(pieces: seq<string>): (r: seq<string>)
  {
    if pieces == [] then [] else (if pieces[0] == "" then [] else [pieces[0]]) + NotEmpty(pieces[1..])
  }

  lemma {:induction false} FirstSemicolon(front: string, rest: string)
    requires ';' !in front
    ensures T.Find(front + ";" + rest, ';') == Some(|front|)
  {
    T.FirstAt(front + ";" + rest, front, rest);
  }

  lemma NoSemicolon(text: string)
    requires ';' !in text
    ensures SplitText(text) == if text == "" then [] else [text]
  {
    hide T.Find;
    SplitNothing();
    assert text != "" ==> T.Find(text, ';').None?;
  }

  /** A list is read as the pieces between its semicolons but for the empty ones, wherever they stand. */
  lemma {:induction false} SplitExactly(pieces: seq<string>)
    requires pieces != [] && forall i :: 0 <= i < |pieces| ==> ';' !in pieces[i]
    ensures SplitText(BetweenSemicolons(pieces)) == NotEmpty(pieces)
    decreases |pieces|
  {
    hide T.Find;
    hide SplitText;
    if |pieces| == 1 {
      NoSemicolon(pieces[0]);
      assert NotEmpty(pieces[1..]) == [];
    } else {
      var rest := BetweenSemicolons(pieces[1..]);
      SplitExactly(pieces[1..]);
      FirstSemicolon(pieces[0], rest);
      OneSplit(pieces[0], rest);
    }
  }

  lemma OneSplit(front: string, rest: string)
    requires T.Find(front + ";" + rest, ';') == Some(|front|)
    ensures SplitText(front + ";" + rest) == (if front == "" then [] else [front]) + SplitText(rest)
  {
    hide T.Find;
    var text := front + ";" + rest;
    assert text[..|front|] == front && text[|front| + 1..] == rest;
  }

  // ---- Metadata ----

  function KeyOf(item: Node): (key: string) { if "key" in item.attrs then item.attrs["key"] else "" }

  function ValueOf(item: Node): (value: string) { if "value" in item.attrs then item.attrs["value"] else "" }

  /** One element for each pair, all of them alike, no key twice. */
  predicate Pairs(items: seq<Node>, m: map<string, string>)
  {
    && (forall i :: 0 <= i < |items| ==> items[i].name == "Meta" && items[i].children == [] && OnlyThese(items[i], {"key", "value"}))
    && (forall i, j :: 0 <= i < j < |items| ==> KeyOf(items[i]) != KeyOf(items[j]))
    && (forall i :: 0 <= i < |items| ==> KeyOf(items[i]) in m && m[KeyOf(items[i])] == ValueOf(items[i]))
    && (forall key :: key in m ==> exists i :: 0 <= i < |items| && KeyOf(items[i]) == key)
  }

  lemma {:induction false} MetadataReads(items: seq<Node>)
    ensures MetadataOf(items).Ok? ==> Pairs(items, MetadataOf(items).value)
    ensures MetadataOf(items).Err? ==> forall m :: !Pairs(items, m)
    decreases |items|
  {
    hide Pairs;
    hide OnlyThese;
    hide Known;
    if items == [] {
      NoPairs();
    } else {
      var front, item := items[..|items| - 1], items[|items| - 1];
      assert items == front + [item];
      MetadataReads(front);
      forall m | Pairs(items, m)
        ensures MetadataOf(items).Ok?
      {
        FewerPairs(front, item, m);
        var less := m - {KeyOf(item)};
        assert Pairs(front, less);
        KnownMeta(item);
        SamePairs(front, less, MetadataOf(front).value);
      }
      if MetadataOf(items).Ok? {
        KnownMeta(item);
        MorePairs(front, item, MetadataOf(front).value);
      }
    }
  }

  lemma NoPairs()
    ensures Pairs([], map[])
  {
  }

  lemma KnownMeta(item: Node)
    ensures Known(item, META_KEYS) <==> OnlyThese(item, {"key", "value"})
  {
    assert forall key :: key in META_KEYS <==> key in {"key", "value"};
  }

  lemma FewerPairs(front: seq<Node>, item: Node, m: map<string, string>)
    requires Pairs(front + [item], m)
    ensures Pairs(front, m - {KeyOf(item)}) && KeyOf(item) in m && m[KeyOf(item)] == ValueOf(item)
    ensures item.name == "Meta" && item.children == [] && OnlyThese(item, {"key", "value"})
  {
    hide OnlyThese;
    hide KeyOf;
    hide ValueOf;
    var items := front + [item];
    assert items[|front|] == item && forall i :: 0 <= i < |front| ==> items[i] == front[i];
    forall key | key in m - {KeyOf(item)}
      ensures exists i :: 0 <= i < |front| && KeyOf(front[i]) == key
    {
      var i :| 0 <= i < |items| && KeyOf(items[i]) == key;
      assert i < |front| && KeyOf(front[i]) == key;
    }
  }

  lemma MorePairs(front: seq<Node>, item: Node, m: map<string, string>)
    requires Pairs(front, m) && KeyOf(item) !in m && item.name == "Meta" && item.children == [] && OnlyThese(item, {"key", "value"})
    ensures Pairs(front + [item], m[KeyOf(item) := ValueOf(item)])
  {
    hide OnlyThese;
    hide KeyOf;
    hide ValueOf;
    var items, more := front + [item], m[KeyOf(item) := ValueOf(item)];
    assert items[|front|] == item && forall i :: 0 <= i < |front| ==> items[i] == front[i];
    forall key | key in more
      ensures exists i :: 0 <= i < |items| && KeyOf(items[i]) == key
    {
      if key == KeyOf(item) {
        assert KeyOf(items[|front|]) == key;
      } else {
        var i :| 0 <= i < |front| && KeyOf(front[i]) == key;
        assert KeyOf(items[i]) == key;
      }
    }
  }

  lemma SamePairs(items: seq<Node>, a: map<string, string>, b: map<string, string>)
    requires Pairs(items, a) && Pairs(items, b)
    ensures a == b
  {
    hide OnlyThese;
    hide KeyOf;
    hide ValueOf;
    assert forall key :: key in a <==> key in b;
  }

  /** Elements are read as metadata exactly when they are its pairs. */
  lemma MetadataExactly(items: seq<Node>, m: map<string, string>)
    ensures MetadataOf(items) == Ok(m) <==> Pairs(items, m)
  {
    hide Pairs;
    MetadataReads(items);
    if MetadataOf(items).Ok? && Pairs(items, m) {
      SamePairs(items, m, MetadataOf(items).value);
    }
  }

  // ---- The children of the root ----

  /** The children of one name, in order. */
  function Called(children: seq<Node>, name: string): (r: seq<Node>)
  {
    if children == [] then []
    else Called(children[..|children| - 1], name) + if children[|children| - 1].name == name then [children[|children| - 1]] else []
  }

  /** One settings element at most, without attributes; without one there are no settings. */
  predicate SettingsTold(found: seq<Node>, settings: map<string, string>)
  {
    if found == [] then settings == map[]
    else |found| == 1 && OnlyThese(found[0], {}) && MetadataOf(found[0].children) == Ok(settings)
  }

  predicate LoggingTold(found: seq<Node>, logging: Logging)
  {
    if found == [] then logging == Logging(1, 1, true, "logs")
    else |found| == 1 && found[0].children == [] && LoggingOf(found[0]) == Ok(logging)
  }

  predicate ServersTold(found: seq<Node>, servers: seq<Server>)
  {
    |found| == |servers| && forall i :: 0 <= i < |found| ==> ServerOf(found[i]) == Ok(servers[i])
  }

  predicate RulesTold(found: seq<Node>, rules: seq<Rule>)
  {
    |found| == |rules| && forall i :: 0 <= i < |found| ==> RuleOf(found[i]) == Ok(rules[i])
  }

  predicate NamesKnown(children: seq<Node>)
  {
    forall i :: 0 <= i < |children| ==> children[i].name in {"Settings", "Logging", "Server", "Rule"}
  }

  predicate ChildrenTell(children: seq<Node>, c: Config)
  {
    && NamesKnown(children)
    && SettingsTold(Called(children, "Settings"), c.settings) && LoggingTold(Called(children, "Logging"), c.logging)
    && ServersTold(Called(children, "Server"), c.servers) && RulesTold(Called(children, "Rule"), c.rules)
  }

  predicate Begins(d: Draft)
  {
    !d.sawSettings && !d.sawLogging && d.config.servers == [] && d.config.rules == [] && d.config.settings == map[]
    && d.config.logging == Logging(1, 1, true, "logs")
  }

  /** The draft has what the children tell, and knows which have been there. */
  predicate Follows(start: Draft, children: seq<Node>, d: Draft)
  {
    && ChildrenTell(children, d.config)
    && d.sawSettings == (Called(children, "Settings") != []) && d.sawLogging == (Called(children, "Logging") != [])
    && d.config.schemaVersion == start.config.schemaVersion && d.config.testTarget == start.config.testTarget
    && d.config.testConcurrency == start.config.testConcurrency
  }

  lemma CalledMore(front: seq<Node>, node: Node, name: string)
    ensures Called(front + [node], name) == if node.name == name then Called(front, name) + [node] else Called(front, name)
  {
    assert (front + [node])[..|front|] == front;
    assert Called(front, name) + [] == Called(front, name);
  }

  lemma NoAttributes(node: Node)
    ensures Known(node, []) <==> OnlyThese(node, {})
  {
    assert forall key: string :: key !in [];
  }

  lemma CalledAll(front: seq<Node>, node: Node)
    ensures forall name {:trigger Called(front + [node], name)} ::
              Called(front + [node], name) == if node.name == name then Called(front, name) + [node] else Called(front, name)
  {
    forall name {:trigger Called(front + [node], name)}
      ensures Called(front + [node], name) == if node.name == name then Called(front, name) + [node] else Called(front, name)
    {
      CalledMore(front, node, name);
    }
  }

  /** One more child. */
  lemma ChildFollows(start: Draft, front: seq<Node>, node: Node, draft: Draft)
    requires Follows(start, front, draft) && WithChild(draft, node).Ok?
    ensures Follows(start, front + [node], WithChild(draft, node).value)
  {
    hide Called;
    hide ServerOf;
    hide RuleOf;
    hide LoggingOf;
    hide MetadataOf;
    hide OnlyThese;
    hide Known;
    CalledAll(front, node);
    NoAttributes(node);
    NamesMore(front, node);
  }

  lemma NamesMore(front: seq<Node>, node: Node)
    ensures NamesKnown(front + [node]) <==> NamesKnown(front) && node.name in {"Settings", "Logging", "Server", "Rule"}
  {
    var all := front + [node];
    assert all[|front|] == node && forall i :: 0 <= i < |front| ==> all[i] == front[i];
  }

  /** What the children in front tell, where one more has told its part. */
  function Less(c: Config, node: Node): (r: Config)
    requires node.name == "Server" ==> c.servers != []
    requires node.name == "Rule" ==> c.rules != []
  {
    if node.name == "Settings" then c.(settings := map[])
    else if node.name == "Logging" then c.(logging := Logging(1, 1, true, "logs"))
    else if node.name == "Server" then c.(servers := c.servers[..|c.servers| - 1])
    else if node.name == "Rule" then c.(rules := c.rules[..|c.rules| - 1])
    else c
  }

  lemma ServersLess(found: seq<Node>, node: Node, servers: seq<Server>)
    requires ServersTold(found + [node], servers)
    ensures servers != [] && ServersTold(found, servers[..|servers| - 1]) && ServerOf(node).Ok?
  {
    hide ServerOf;
    var all := found + [node];
    assert all[|found|] == node && forall i :: 0 <= i < |found| ==> all[i] == found[i];
  }

  lemma RulesLess(found: seq<Node>, node: Node, rules: seq<Rule>)
    requires RulesTold(found + [node], rules)
    ensures rules != [] && RulesTold(found, rules[..|rules| - 1]) && RuleOf(node).Ok?
  {
    hide RuleOf;
    var all := found + [node];
    assert all[|found|] == node && forall i :: 0 <= i < |found| ==> all[i] == found[i];
  }

  lemma OneChildLess(front: seq<Node>, node: Node, c: Config)
    requires ChildrenTell(front + [node], c)
    ensures node.name == "Server" ==> c.servers != []
    ensures node.name == "Rule" ==> c.rules != []
    ensures ChildrenTell(front, Less(c, node))
    ensures node.name == "Server" ==> ServerOf(node).Ok?
    ensures node.name == "Rule" ==> RuleOf(node).Ok?
    ensures node.name == "Settings" ==> Called(front, "Settings") == [] && Known(node, []) && MetadataOf(node.children).Ok?
    ensures node.name == "Logging" ==> Called(front, "Logging") == [] && node.children == [] && LoggingOf(node).Ok?
    ensures node.name in {"Settings", "Logging", "Server", "Rule"}
  {
    hide Called;
    hide ServerOf;
    hide RuleOf;
    hide LoggingOf;
    hide MetadataOf;
    hide OnlyThese;
    hide Known;
    hide ServersTold;
    hide RulesTold;
    hide NamesKnown;
    CalledAll(front, node);
    NoAttributes(node);
    NamesMore(front, node);
    if node.name == "Server" {
      ServersLess(Called(front, "Server"), node, c.servers);
    } else if node.name == "Rule" {
      RulesLess(Called(front, "Rule"), node, c.rules);
    }
  }

  lemma ChildIsRead(start: Draft, front: seq<Node>, node: Node, draft: Draft, c: Config)
    requires Follows(start, front, draft) && ChildrenTell(front + [node], c)
    ensures WithChild(draft, node).Ok?
  {
    hide Called;
    hide ServerOf;
    hide RuleOf;
    hide LoggingOf;
    hide MetadataOf;
    hide Known;
    hide ChildrenTell;
    OneChildLess(front, node, c);
  }

  lemma NothingFollows(start: Draft)
    requires Begins(start)
    ensures Follows(start, [], start) && Gathered(start, []) == Ok(start)
  {
  }

  lemma GatheredUnrolled(start: Draft, front: seq<Node>, node: Node)
    ensures Gathered(start, front).Err? ==> Gathered(start, front + [node]).Err?
    ensures Gathered(start, front).Ok? ==> Gathered(start, front + [node]) == WithChild(Gathered(start, front).value, node)
  {
    hide WithChild;
    assert (front + [node])[..|front|] == front;
  }

  lemma {:induction false} GatheredTells(start: Draft, children: seq<Node>)
    requires Begins(start)
    ensures Gathered(start, children).Ok? ==> Follows(start, children, Gathered(start, children).value)
    ensures Gathered(start, children).Err? ==> forall c :: !ChildrenTell(children, c)
    decreases |children|
  {
    hide *;
    if children == [] {
      NothingFollows(start);
    } else {
      var front, node := children[..|children| - 1], children[|children| - 1];
      assert children == front + [node];
      GatheredTells(start, front);
      GatheredUnrolled(start, front, node);
      forall c | ChildrenTell(children, c)
        ensures Gathered(start, children).Ok?
      {
        OneChildLess(front, node, c);
        ChildIsRead(start, front, node, Gathered(start, front).value, c);
      }
      if Gathered(start, children).Ok? {
        ChildFollows(start, front, node, Gathered(start, front).value);
      }
    }
  }

  lemma SameTold(children: seq<Node>, a: Config, b: Config)
    requires ChildrenTell(children, a) && ChildrenTell(children, b)
    ensures a.servers == b.servers && a.rules == b.rules && a.settings == b.settings && a.logging == b.logging
  {
    hide Called;
    hide ServerOf;
    hide RuleOf;
    hide LoggingOf;
    hide MetadataOf;
    hide OnlyThese;
    hide NamesKnown;
  }

  /**
   An element is read as a configuration exactly when it is called so and has no foreign attribute or child; at most one child
   has settings and at most one is about logging; each server and each rule is what its child tells, in order; and what is not
   told has its default.
   */
  lemma ConfigExactly(root: Node, c: Config)
    ensures ConfigOf(root) == Ok(c) <==>
              && root.name == "NativeDNS" && OnlyThese(root, {"schemaVersion", "testTarget", "testConcurrency"})
              && NumberAt(root, "schemaVersion", 0, c.schemaVersion) && TextIs(root, "testTarget", "iana.org", c.testTarget)
              && NumberAt(root, "testConcurrency", 15, c.testConcurrency) && ChildrenTell(root.children, c)
  {
    hide RootOf;
    hide Gathered;
    hide ChildrenTell;
    hide OnlyThese;
    hide NumberAt;
    hide TextIs;
    var blank := Draft(Config(c.schemaVersion, [], [], Logging(1, 1, true, "logs"), c.testTarget, c.testConcurrency, map[]), false, false);
    RootExactly(root, blank);
    if RootOf(root).Ok? {
      var start := RootOf(root).value;
      RootExactly(root, start);
      GatheredTells(start, root.children);
      if Gathered(start, root.children).Ok? && ChildrenTell(root.children, c) {
        SameTold(root.children, c, Gathered(start, root.children).value.config);
      }
    }
  }
}
