/** The configuration: the structures of model.hpp and the runtime options of config.cpp. */
module ConfigModel {
  import opened Bytes
  import opened Decimal

  type uint16 = x: int | 0 <= x < 0x1_0000
  type uint32 = x: int | 0 <= x < 0x1_0000_0000
  type uint64 = x: int | 0 <= x < 0x1_0000_0000_0000_0000

  /** The underlying type of the enumerations whose values are cast from numbers. */
  type int32 = x: int | -0x8000_0000 <= x < 0x8000_0000

  datatype Protocol = Udp | Tcp | Doh | Dot | Doh3 | Doq | Dnscrypt | AnonymizedDnscrypt

  datatype Action = Process | Bypass | Block

  datatype Route = Route(
    interfaceId: string,
    interfaceName: string,
    index4: uint32,
    index6: uint32,
    scope6: uint32,
    generation: uint64)

  const NO_ROUTE := Route("", "", 0, 0, 0, 0)

  datatype Server = Server(
    id: uint32,
    name: string,
    enabled: bool,
    protocol: Protocol,
    ip: string,
    hostname: string,
    url: string,
    port: uint16,
    dnssec: bool,
    timeout: uint32,
    directFallback: bool,
    fallbacks: seq<uint32>,
    bootstrap: seq<string>,
    hashes: seq<string>,
    systemBootstrap: bool,
    route: Route,
    publicKey: string,
    provider: string,
    relay: string,
    metadata: map<string, string>)

  /** Block modes and log levels are kept as the integers behind the enumerations. */
  datatype Rule = Rule(
    id: uint32,
    name: string,
    enabled: bool,
    isDefault: bool,
    patterns: seq<string>,
    action: Action,
    serverId: uint32,
    interfaceId: string,
    dnssecValidate: bool,
    dnssecRejectUnsigned: bool,
    blockMode: int32,
    metadata: map<string, string>)

  datatype Logging = Logging(screen: int32, file: int32, fileEnabled: bool, directory: string)

  datatype Config = Config(
    schemaVersion: uint32,
    servers: seq<Server>,
    rules: seq<Rule>,
    logging: Logging,
    testTarget: string,
    testConcurrency: uint32,
    settings: map<string, string>)

  datatype Options = Options(
    clearDnsCache: bool,
    blockTcp53: bool,
    interceptOthers: bool,
    captivePortalDetection: bool,
    ignoreInterfaceDown: bool,
    ttlMin: nat,
    ttlMax: nat)

  const TTL_LIMIT := 2147483647

  /** A setting under its own key, or under the key an import gave it. */
  function Setting(settings: map<string, string>, key: string): (r: Option<string>)
  {
    if key in settings then Some(settings[key])
    else if "yoga.settings." + key in settings then Some(settings["yoga.settings." + key])
    else None
  }

  function BooleanSetting(settings: map<string, string>, key: string): (r: Result<bool>)
  {
    match Setting(settings, key)
    case None => Ok(false)
    case Some(text) =>
      if text == "0" || text == "false" then Ok(false)
      else if text == "1" || text == "true" then Ok(true)
      else Err("CONFIG_SETTING")
  }

  function NumberSetting(settings: map<string, string>, key: string, fallback: nat): (r: Result<nat>)
    requires fallback <= TTL_LIMIT
    ensures r.Ok? ==> r.value <= TTL_LIMIT
  {
    match Setting(settings, key)
    case None => Ok(fallback)
    case Some(text) =>
      if Number(text).Ok? && Number(text).value <= TTL_LIMIT then Number(text) else Err("CONFIG_SETTING")
  }

  function RuntimeOptions(settings: map<string, string>): (r: Result<Options>)
    ensures r.Ok? ==> r.value.ttlMin <= r.value.ttlMax <= TTL_LIMIT
  {
    var clearDnsCache :- BooleanSetting(settings, "clearDnsCache");
    var blockTcp53 :- BooleanSetting(settings, "blockTcpPort53");
    var interceptOthers :- BooleanSetting(settings, "interceptOthers");
    var captivePortalDetection :- BooleanSetting(settings, "captivePortalDetection");
    var ignoreInterfaceDown :- BooleanSetting(settings, "ignore_rule_if_interface_down");
    var ttlMin :- NumberSetting(settings, "ttlMin", 0);
    var ttlMax :- NumberSetting(settings, "ttlMax", TTL_LIMIT);
    if ttlMin > ttlMax then Err("CONFIG_SETTING")
    else Ok(Options(clearDnsCache, blockTcp53, interceptOthers, captivePortalDetection, ignoreInterfaceDown, ttlMin, ttlMax))
  }

  /** What is configured under a key, or under the same key of an imported profile. */
  ghost predicate Says(settings: map<string, string>, key: string, text: string)
  {
    if key in settings then settings[key] == text
    else "yoga.settings." + key in settings && settings["yoga.settings." + key] == text
  }

  ghost predicate SaysNothing(settings: map<string, string>, key: string)
  {
    key !in settings && "yoga.settings." + key !in settings
  }

  /** A switch that is on, off or unset; anything else is an error. */
  ghost predicate SwitchedOn(settings: map<string, string>, key: string) { Says(settings, key, "1") || Says(settings, key, "true") }

  ghost predicate SwitchedOff(settings: map<string, string>, key: string)
  {
    SaysNothing(settings, key) || Says(settings, key, "0") || Says(settings, key, "false")
  }

  /** A number that is written, or the one that stands for an unset key. */
  ghost predicate NumberIs(settings: map<string, string>, key: string, fallback: nat, n: nat)
  {
    n <= 2147483647 && if SaysNothing(settings, key) then n == fallback else exists text :: Says(settings, key, text) && Number(text) == Ok(n)
  }

  lemma SwitchTold(settings: map<string, string>, key: string)
    ensures BooleanSetting(settings, key) == Ok(true) <==> SwitchedOn(settings, key)
    ensures BooleanSetting(settings, key) == Ok(false) <==> SwitchedOff(settings, key)
  {
  }

  lemma NumberTold(settings: map<string, string>, key: string, fallback: nat, n: nat)
    requires fallback <= 2147483647
    ensures NumberSetting(settings, key, fallback) == Ok(n) <==> NumberIs(settings, key, fallback, n)
  {
    hide Number;
    if !SaysNothing(settings, key) {
      assert Says(settings, key, Setting(settings, key).value);
    }
  }

  /** Which setting stands behind which option: options come of settings exactly when each is what its own setting says. */
  lemma OptionsTold(settings: map<string, string>, o: Options)
    ensures RuntimeOptions(settings) == Ok(o) <==>
              && (if o.clearDnsCache then SwitchedOn(settings, "clearDnsCache") else SwitchedOff(settings, "clearDnsCache"))
              && (if o.blockTcp53 then SwitchedOn(settings, "blockTcpPort53") else SwitchedOff(settings, "blockTcpPort53"))
              && (if o.interceptOthers then SwitchedOn(settings, "interceptOthers") else SwitchedOff(settings, "interceptOthers"))
              && (if o.captivePortalDetection then SwitchedOn(settings, "captivePortalDetection")
                  else SwitchedOff(settings, "captivePortalDetection"))
              && (if o.ignoreInterfaceDown then SwitchedOn(settings, "ignore_rule_if_interface_down")
                  else SwitchedOff(settings, "ignore_rule_if_interface_down"))
              && NumberIs(settings, "ttlMin", 0, o.ttlMin) && NumberIs(settings, "ttlMax", 2147483647, o.ttlMax) && o.ttlMin <= o.ttlMax
  {
    hide BooleanSetting;
    hide NumberSetting;
    hide SwitchedOn;
    hide SwitchedOff;
    hide NumberIs;
    SwitchTold(settings, "clearDnsCache");
    SwitchTold(settings, "blockTcpPort53");
    SwitchTold(settings, "interceptOthers");
    SwitchTold(settings, "captivePortalDetection");
    SwitchTold(settings, "ignore_rule_if_interface_down");
    NumberTold(settings, "ttlMin", 0, o.ttlMin);
    NumberTold(settings, "ttlMax", 2147483647, o.ttlMax);
  }
}
