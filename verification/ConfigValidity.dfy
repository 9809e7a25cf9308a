/** What becomes of a valid configuration when its lists are cut at the semicolons in them: `validate` behind `config_from_root`. */
module ConfigValidity {
  import opened Bytes
  import opened ConfigModel
  import opened ConfigLists
  import opened ConfigTree
  import opened HostName
  import FallbackGraph
  import Rules

  /** The patterns of a rule, cut at their semicolons, are patterns again, and neither none nor too many. */
  ghost predicate StillPatterns(patterns: seq<string>)
  {
    var pieces := SplitText(Joined(patterns));
    1 <= |pieces| <= 4096 && forall k :: 0 <= k < |pieces| ==> DnsNameOf(pieces[k], true).Ok?
  }

  /** What a text tells of a valid configuration is valid exactly when the patterns of each rule still are patterns. */
  lemma ToldIsValid(c: Config, ext: Rules.Externals)
    requires Rules.Valid(c, ext)
    ensures Rules.Valid(Told(c), ext) <==> forall i :: 0 <= i < |c.rules| ==> StillPatterns(c.rules[i].patterns)
  {
    hide Rules.HeaderValid;
    hide Rules.ServersValid;
    hide Rules.RulesValid;
    hide StillPatterns;
    HeaderStays(c);
    ServersStay(c.servers, ext);
    RulesStay(c);
  }

  lemma HeaderStays(c: Config)
    requires Rules.HeaderValid(c)
    ensures Rules.HeaderValid(Told(c))
  {
    hide RuntimeOptions;
    hide NormalizedName;
  }

  lemma ServersStay(servers: seq<Server>, ext: Rules.Externals)
    requires Rules.ServersValid(servers, ext)
    ensures Rules.ServersValid(ToldServers(servers), ext)
  {
    hide Rules.ServerOk;
    hide FallbackGraph.Closed;
    hide FallbackGraph.HasCycle;
    hide Rules.GraphOf;
    GraphStays(servers);
    forall k | 0 <= k < |servers|
      ensures Rules.ServerOk(ToldServers(servers)[k], ext)
    {
      ServerStays(servers[k], ext);
    }
  }

  lemma ServerStays(s: Server, ext: Rules.Externals)
    requires Rules.ServerOk(s, ext)
    ensures Rules.ServerOk(ToldServer(s), ext)
  {
    hide NormalizedName;
    hide Rules.UrlOk;
    hide SplitText;
    hide Joined;
  }

  lemma {:induction false} GraphStays(servers: seq<Server>)
    ensures Rules.GraphOf(ToldServers(servers)) == Rules.GraphOf(servers)
  {
    hide SplitText;
    hide Joined;
    if servers != [] {
      var front := servers[..|servers| - 1];
      GraphStays(front);
      var told := ToldServers(servers);
      assert told[..|told| - 1] == ToldServers(front);
    }
  }

  lemma RulesStay(c: Config)
    requires Rules.RulesValid(c)
    ensures Rules.RulesValid(Told(c)) <==> forall i :: 0 <= i < |c.rules| ==> StillPatterns(c.rules[i].patterns)
  {
    hide Rules.RuleOk;
    hide StillPatterns;
    hide ToldServers;
    hide ToldRule;
    forall i | 0 <= i < |c.rules|
      ensures Rules.RuleOk(Told(c), i) <==> StillPatterns(c.rules[i].patterns)
    {
      RuleStays(c, i);
    }
    forall i | 0 <= i < |c.rules|
      ensures Told(c).rules[i].id == c.rules[i].id
    {
      RuleKeepsId(c.rules[i]);
    }
  }

  lemma RuleKeepsId(r: Rule)
    ensures ToldRule(r).id == r.id
  {
  }

  lemma RuleStays(c: Config, i: nat)
    requires i < |c.rules| && Rules.RuleOk(c, i)
    ensures Rules.RuleOk(Told(c), i) <==> StillPatterns(c.rules[i].patterns)
  {
    hide SplitText;
    hide Joined;
    hide DnsNameOf;
    var r, s := c.rules[i], Told(c).rules[i];
    assert s == ToldRule(r);
    if r.isDefault {
      LoneStar();
    }
    forall k | 0 <= k < |c.servers|
      ensures Told(c).servers[k].id == c.servers[k].id
    {
    }
    assert (exists k :: 0 <= k < |c.servers| && c.servers[k].id == r.serverId) ==>
        exists k :: 0 <= k < |Told(c).servers| && Told(c).servers[k].id == r.serverId by {
      if k: nat :| k < |c.servers| && c.servers[k].id == r.serverId {
        assert Told(c).servers[k].id == r.serverId;
      }
    }
  }

  /** The patterns of the Default rule are not cut. */
  lemma LoneStar()
    ensures SplitText(Joined(["*"])) == ["*"]
  {
    SplitJoined(["*"]);
  }

  lemma SemicolonIsAName()
    ensures DnsNameOf(";", true) == Ok(";")
  {
    assert FirstDot(";") == 1;
    assert LowerAll(";") == ";";
  }

  /** A lone semicolon is no pattern once it is cut. */
  lemma NothingIsLeft()
    ensures !StillPatterns([";"])
  {
    assert Joined([";"]) == ";" by { assert Joined([]) == ""; }
    assert SplitText(";") == [] by {
      assert ";"[1..] == "";
      assert SplitText("") == [];
    }
  }
}
