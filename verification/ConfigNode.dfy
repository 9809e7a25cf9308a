/** A configuration out of the elements of its XML: `config_from_root` in config.cpp and the lookups it uses. */
module ConfigNode {
  import opened Bytes
  import opened Decimal
  import opened ConfigModel
  import opened ConfigLists
  import opened Xml
  import Rules

  const BAD_FIELD := "CONFIG_FIELD"

  const ROOT_KEYS: seq<string> := ["schemaVersion", "testTarget", "testConcurrency"]

  const META_KEYS: seq<string> := ["key", "value"]

  const LOGGING_KEYS: seq<string> := ["screen", "file", "enabled", "directory"]

  const SERVER_KEYS: seq<string> := [
    "id", "name", "enabled", "protocol", "ip", "port", "hostname", "url", "dnssec", "timeout", "directCertificateFallback",
    "fallbacks", "bootstrap", "hashes", "publicKey", "provider", "relay"]

  const RULE_KEYS: seq<string> := [
    "id", "name", "enabled", "default", "patterns", "action", "server", "interface", "validate", "rejectUnsigned", "blockMode"]

  // ---- Lookups ----

  function Attr(node: Node, key: string, fallback: string): (r: string)
  {
    if key in node.attrs then node.attrs[key] else fallback
  }

  function Num(node: Node, key: string, fallback: uint32): (r: Result<uint32>)
  {
    var n :- Number(Attr(node, key, ToText(fallback)));
    Ok(n)
  }

  function FlagText(b: bool): (s: string) { if b then "1" else "0" }

  function Flag(node: Node, key: string, fallback: bool): (r: Result<bool>)
  {
    var value := Attr(node, key, FlagText(fallback));
    if value != "0" && value != "1" then Err("CONFIG_BOOL") else Ok(value == "1")
  }

  /** No attribute but these. */
  predicate Known(node: Node, keys: seq<string>) { forall key :: key in node.attrs ==> key in keys }

  function ProtocolName(p: Protocol): (name: string)
  {
    match p
    case Udp => "udp"
    case Tcp => "tcp"
    case Doh => "doh"
    case Dot => "dot"
    case Doh3 => "doh3"
    case Doq => "doq"
    case Dnscrypt => "dnscrypt"
    case AnonymizedDnscrypt => "anonymized_dnscrypt"
  }

  function ProtocolNamed(name: string): (r: Result<Protocol>)
  {
    if name == "udp" then Ok(Udp)
    else if name == "tcp" then Ok(Tcp)
    else if name == "doh" then Ok(Doh)
    else if name == "dot" then Ok(Dot)
    else if name == "doh3" then Ok(Doh3)
    else if name == "doq" then Ok(Doq)
    else if name == "dnscrypt" then Ok(Dnscrypt)
    else if name == "anonymized_dnscrypt" then Ok(AnonymizedDnscrypt)
    else if name == "plain" then Ok(Udp)
    else Err("PROTOCOL")
  }

  function ActionName(a: Action): (name: string)
  {
    match a
    case Process => "process"
    case Bypass => "bypass"
    case Block => "block"
  }

  function ActionNamed(name: string): (r: Result<Action>)
  {
    if name == "process" || name == "process_server" then Ok(Process)
    else if name == "bypass" then Ok(Bypass)
    else if name == "block" then Ok(Block)
    else Err("ACTION")
  }

  /** The casts between an enumeration and a 32-bit number. */
  function ToEnum(n: uint32): (e: int32) { if n < 0x8000_0000 then n else n - UINT32_LIMIT }

  function FromEnum(e: int32): (n: uint32) { if e < 0 then e + UINT32_LIMIT else e }

  // ---- Elements ----

  function MetadataOf(items: seq<Node>): (r: Result<map<string, string>>)
  {
    if items == [] then Ok(map[])
    else
      var front :- MetadataOf(items[..|items| - 1]);
      var item := items[|items| - 1];
      var key := Attr(item, "key", "");
      if item.name != "Meta" || item.children != [] || !Known(item, META_KEYS) || key in front then Err(BAD_FIELD)
      else Ok(front[key := Attr(item, "value", "")])
  }

  function LoggingOf(node: Node): (r: Result<Logging>)
  {
    if !Known(node, LOGGING_KEYS) then Err(BAD_FIELD)
    else
      var screen :- Num(node, "screen", 1);
      var file :- Num(node, "file", 1);
      var enabled :- Flag(node, "enabled", true);
      Ok(Logging(ToEnum(screen), ToEnum(file), enabled, Attr(node, "directory", "logs")))
  }

  function ServerOf(node: Node): (r: Result<Server>)
  {
    if !Known(node, SERVER_KEYS) then Err(BAD_FIELD)
    else
      var id :- Num(node, "id", 0);
      var enabled :- Flag(node, "enabled", true);
      var protocol :- ProtocolNamed(Attr(node, "protocol", ""));
      var port :- Num(node, "port", 0);
      if port > 65535 then Err("ENDPOINT")
      else
        var dnssec :- Flag(node, "dnssec", false);
        var timeout :- Num(node, "timeout", 3000);
        var direct :- Flag(node, "directCertificateFallback", false);
        var fallbacks :- SplitIdsText(Attr(node, "fallbacks", ""));
        var metadata :- MetadataOf(node.children);
        Ok(Server(
          id, Attr(node, "name", ""), enabled, protocol, Attr(node, "ip", ""), Attr(node, "hostname", ""),
          Attr(node, "url", ""), port, dnssec, timeout, direct, fallbacks, SplitText(Attr(node, "bootstrap", "")),
          SplitText(Attr(node, "hashes", "")), false, NO_ROUTE, Attr(node, "publicKey", ""), Attr(node, "provider", ""),
          Attr(node, "relay", ""), metadata))
  }

  function RuleOf(node: Node): (r: Result<Rule>)
  {
    if !Known(node, RULE_KEYS) then Err(BAD_FIELD)
    else
      var id :- Num(node, "id", 0);
      var enabled :- Flag(node, "enabled", true);
      var isDefault :- Flag(node, "default", false);
      var action :- ActionNamed(Attr(node, "action", ""));
      var server :- Num(node, "server", 0);
      var validates :- Flag(node, "validate", false);
      var rejects :- Flag(node, "rejectUnsigned", false);
      var blockMode :- Num(node, "blockMode", 0);
      var metadata :- MetadataOf(node.children);
      Ok(Rule(
        id, Attr(node, "name", ""), enabled, isDefault, SplitText(Attr(node, "patterns", "")), action, server,
        Attr(node, "interface", ""), validates, rejects, ToEnum(blockMode), metadata))
  }

  // ---- The root ----

  /** A configuration under construction. */
  datatype Draft = Draft(config: Config, sawSettings: bool, sawLogging: bool)

  function WithChild(draft: Draft, node: Node): (r: Result<Draft>)
  {
    if node.name == "Settings" then
      if !Known(node, []) then Err(BAD_FIELD)
      else if draft.sawSettings then Err("CONFIG")
      else
        var settings :- MetadataOf(node.children);
        Ok(draft.(config := draft.config.(settings := settings), sawSettings := true))
    else if node.name == "Logging" then
      if draft.sawLogging || node.children != [] then Err("CONFIG")
      else
        var logging :- LoggingOf(node);
        Ok(draft.(config := draft.config.(logging := logging), sawLogging := true))
    else if node.name == "Server" then
      var server :- ServerOf(node);
      Ok(draft.(config := draft.config.(servers := draft.config.servers + [server])))
    else if node.name == "Rule" then
      var rule :- RuleOf(node);
      Ok(draft.(config := draft.config.(rules := draft.config.rules + [rule])))
    else Err(BAD_FIELD)
  }

  function Gathered(start: Draft, children: seq<Node>): (r: Result<Draft>)
  {
    if children == [] then Ok(start)
    else
      var draft :- Gathered(start, children[..|children| - 1]);
      WithChild(draft, children[|children| - 1])
  }

  function RootOf(root: Node): (r: Result<Draft>)
  {
    if root.name != "NativeDNS" then Err("CONFIG")
    else if !Known(root, ROOT_KEYS) then Err(BAD_FIELD)
    else
      var version :- Num(root, "schemaVersion", 0);
      var concurrency :- Num(root, "testConcurrency", 15);
      Ok(Draft(Config(version, [], [], Logging(1, 1, true, "logs"), Attr(root, "testTarget", "iana.org"), concurrency, map[]),
               false, false))
  }

  /** The configuration an XML element describes, before it is validated. */
  function ConfigOf(root: Node): (r: Result<Config>)
  {
    var start :- RootOf(root);
    var draft :- Gathered(start, root.children);
    Ok(draft.config)
  }
}
