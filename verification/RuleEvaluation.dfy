/** What the decision on a host means, in terms of the rules, the network and the options: `evaluate_rule` of rules.cpp. */
module RuleEvaluation {
  import opened Bytes
  import opened HostName
  import opened ConfigModel
  import opened Rules

  /** The text and the kind by which a rule asks for an interface. */
  predicate AsksFor(r: Rule, text: string, kind: string)
  {
    && (if "interface_id_type" in r.metadata then kind == r.metadata["interface_id_type"] else kind == "id")
    && if kind == "name" && "interface_name" in r.metadata && r.metadata["interface_name"] != ""
       then text == r.metadata["interface_name"] else text == r.interfaceId
  }

  /** The interface is not there, or is down. */
  predicate Missing(found: Result<Option<Interface>>) { found.Ok? && (found.value.None? || !found.value.value.up) }

  /** Probing hosts, or a captive portal seen on some interface. */
  ghost predicate PortalAhead(host: string, net: Network)
  {
    || host == "dns.msftncsi.com" || host == "www.msftncsi.com" || host == "ipv6.msftncsi.com"
    || host == "www.msftconnecttest.com" || host == "ipv6.msftconnecttest.com"
    || exists k :: 0 <= k < |net.interfaces| && net.interfaces[k].up && net.interfaces[k].captivePortal
  }

  /** The first reason that stands against a rule, or none. */
  ghost predicate Reason(r: Rule, net: Network, text: string, kind: string, code: string)
  {
    if text != "" && net.error != "" then code == "INTERFACE_ENUMERATION"
    else if text != "" && net.find(text, kind).Err? then code == net.find(text, kind).code
    else if text != "" && Missing(net.find(text, kind)) then code == "INTERFACE_DOWN"
    else if r.dnssecValidate || r.dnssecRejectUnsigned then code == "NOT_IMPLEMENTED"
    else code == ""
  }

  /** Nothing stands against the rule but a code that the lookup of an interface could give as well. */
  predicate Free(r: Rule, net: Network, text: string, kind: string)
  {
    && !r.dnssecValidate && !r.dnssecRejectUnsigned
    && (text != "" ==> net.error == "" && net.find(text, kind).Ok? && !Missing(net.find(text, kind)))
  }

  /**
   A rule in front of the chosen one that is enabled and matches was passed over for one reason only: it is not the Default,
   such rules are to be ignored, and the interface it asks for is missing or down.
   */
  lemma PassedOverForCause(c: Config, host: string, net: Network, options: Options, i: nat, j: nat, text: string, kind: string)
    requires FirstUsable(c, host, net, options, i) && j < i && c.rules[j].enabled && RuleMatches(c.rules[j], host)
    requires AsksFor(c.rules[j], text, kind)
    ensures options.ignoreInterfaceDown && !c.rules[j].isDefault && text != "" && net.error == "" && Missing(net.find(text, kind))
  {
    hide RuleMatches;
  }

  /** Where such rules are not to be ignored, the decision is for the rule that matches first. */
  lemma FirstMatchDecides(c: Config, host: string, net: Network, options: Options, i: nat)
    requires FirstUsable(c, host, net, options, i) && !options.ignoreInterfaceDown
    ensures FirstMatch(c, host, i)
  {
    hide RuleMatches;
  }

  /**
   What is decided by a rule. The reasons against it come in their order; without one the interface is the one asked for. A
   query is left to the captive portal only by a processing Default that asks for no interface, where that is to be watched
   for; it is put back as it is for a portal, when bypassing, and when processing on the original server with no interface and
   no bounds on TTLs.
   */
  lemma DecisionTold(d: Decision, r: Rule, i: nat, host: string, net: Network, options: Options, text: string, kind: string)
    requires Decided(d, r, i, host, net, options) && AsksFor(r, text, kind)
    ensures d.rule == i && Reason(r, net, text, kind, d.errorCode)
    ensures Free(r, net, text, kind) ==> (text == "" ==> d.route.None?) && (text != "" ==> net.find(text, kind) == Ok(d.route))
    ensures d.captiveBypass <==>
              && Free(r, net, text, kind) && options.captivePortalDetection && r.action == Process && r.isDefault && text == ""
              && PortalAhead(host, net)
    ensures d.reinjectUdp <==>
              && Free(r, net, text, kind)
              && (|| d.captiveBypass || r.action == Bypass
                  || (r.action == Process && r.serverId == 0 && text == "" && options.ttlMin == 0 && options.ttlMax == 2147483647))
  {
  }

  // ---- URLs ----

  /** An https URL: a host part that is not empty, then nothing or a path; no credentials and no white space. */
  predicate IsUrl(url: string, authority: string, path: string)
  {
    && url == "https://" + authority + path && authority != "" && '/' !in authority && (path == "" || path[0] == '/')
    && forall i :: 0 <= i < |url| ==> url[i] != '@' && url[i] != ' ' && url[i] != '\t' && url[i] != '\r' && url[i] != '\n'
  }

  /** The URLs a DoH server may have. */
  lemma UrlExactly(url: string)
    ensures UrlOk(url) <==> exists authority, path :: IsUrl(url, authority, path)
  {
    if UrlOk(url) {
      var n := SlashAfter(url, 8);
      assert url == "https://" + url[8..n] + url[n..];
      assert IsUrl(url, url[8..n], url[n..]);
    }
    if authority, path :| IsUrl(url, authority, path) {
      assert url[8] == authority[0] && authority[0] in authority;
      assert url[..8] == "https://";
    }
  }

  lemma {:induction false} SlashAfter(url: string, from: nat) returns (n: nat)
    requires from <= |url|
    ensures from <= n <= |url| && '/' !in url[from..n] && (n < |url| ==> url[n] == '/')
    ensures from < |url| && url[from] != '/' ==> n > from
    decreases |url| - from
  {
    if from == |url| || url[from] == '/' {
      n := from;
    } else {
      n := SlashAfter(url, from + 1);
      assert url[from..n] == [url[from]] + url[from + 1..n];
    }
  }
}
