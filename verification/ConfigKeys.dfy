/** The attribute names of the configuration are names, and different within each element. */
module ConfigKeys {
  import opened Bytes
  import opened Xml
  import opened XmlPrinting
  import opened XmlFields
  import opened ConfigNode

  ghost predicate Different(codes: seq<nat>) { forall i, j :: 0 <= i < j < |codes| ==> codes[i] != codes[j] }

  ghost predicate Coded(keys: seq<string>, codes: seq<nat>)
  {
    |keys| == |codes| && forall i :: 0 <= i < |keys| ==> keys[i] != "" && Code(keys[i]) == codes[i]
  }

  lemma CodedKeys(keys: seq<string>, codes: seq<nat>)
    requires (forall i :: 0 <= i < |keys| ==> IsName(keys[i])) && Coded(keys, codes) && Different(codes)
    ensures KeysOk(keys)
  {
    hide IsName;
    hide Code;
    CodesTell(keys, codes);
  }

  const ROOT_CODES: seq<nat> := [881518, 685172, 1012857]

  lemma RootNames()
    ensures forall i :: 0 <= i < |ROOT_KEYS| ==> IsName(ROOT_KEYS[i])
  {
  }

  lemma RootCoded()
    ensures Coded(ROOT_KEYS, ROOT_CODES)
  {
  }

  lemma RootDiffer()
    ensures Different(ROOT_CODES)
  {
  }

  lemma RootKeys()
    ensures KeysOk(ROOT_KEYS)
  {
    hide *;
    RootNames();
    RootCoded();
    RootDiffer();
    CodedKeys(ROOT_KEYS, ROOT_CODES);
  }

  const META_CODES: seq<nat> := [224121, 357989]

  lemma MetaNames()
    ensures forall i :: 0 <= i < |META_KEYS| ==> IsName(META_KEYS[i])
  {
  }

  lemma MetaCoded()
    ensures Coded(META_KEYS, META_CODES)
  {
  }

  lemma MetaDiffer()
    ensures Different(META_CODES)
  {
  }

  lemma MetaKeys()
    ensures KeysOk(META_KEYS)
  {
    hide *;
    MetaNames();
    MetaCoded();
    MetaDiffer();
    CodedKeys(META_KEYS, META_CODES);
  }

  const LOGGING_CODES: seq<nat> := [422766, 288357, 484708, 615545]

  lemma LoggingNames()
    ensures forall i :: 0 <= i < |LOGGING_KEYS| ==> IsName(LOGGING_KEYS[i])
  {
  }

  lemma LoggingCoded()
    ensures Coded(LOGGING_KEYS, LOGGING_CODES)
  {
  }

  lemma LoggingDiffer()
    ensures Different(LOGGING_CODES)
  {
  }

  lemma LoggingKeys()
    ensures KeysOk(LOGGING_KEYS)
  {
    hide *;
    LoggingNames();
    LoggingCoded();
    LoggingDiffer();
    CodedKeys(LOGGING_KEYS, LOGGING_CODES);
  }

  const SERVER_CODES: seq<nat> := [
    158052, 290405, 484708, 553068, 158064, 290932, 551013, 226668, 418915,
    488564, 1664107, 616051, 615024, 419955, 618617, 553074, 356985]

  lemma ServerNames()
    ensures forall i :: 0 <= i < |SERVER_KEYS| ==> IsName(SERVER_KEYS[i])
  {
  }

  lemma ServerCoded()
    ensures Coded(SERVER_KEYS, SERVER_CODES)
  {
  }

  lemma ServerDiffer()
    ensures Different(SERVER_CODES)
  {
  }

  lemma ServerKeys()
    ensures KeysOk(SERVER_KEYS)
  {
    hide *;
    ServerNames();
    ServerCoded();
    ServerDiffer();
    CodedKeys(SERVER_KEYS, SERVER_CODES);
  }

  const RULE_CODES: seq<nat> := [
    158052, 290405, 484708, 484468, 553075, 418158, 422770, 616805, 554597, 946788, 615013]

  lemma RuleNames()
    ensures forall i :: 0 <= i < |RULE_KEYS| ==> IsName(RULE_KEYS[i])
  {
  }

  lemma RuleCoded()
    ensures Coded(RULE_KEYS, RULE_CODES)
  {
  }

  lemma RuleDiffer()
    ensures Different(RULE_CODES)
  {
  }

  lemma RuleKeys()
    ensures KeysOk(RULE_KEYS)
  {
    hide *;
    RuleNames();
    RuleCoded();
    RuleDiffer();
    CodedKeys(RULE_KEYS, RULE_CODES);
  }
}
