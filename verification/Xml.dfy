/** The XML parser of config.cpp: what it reads, as functions on the text still ahead, and the parser that moves a cursor. */
module Xml {
  import opened Bytes
  import opened Utf8
  import opened XmlText

  const XML_LIMIT := "XML_LIMIT"
  const MAX_DEPTH := 16
  const MAX_NODES := 200_000
  const MAX_TEXT := 4 * 1024 * 1024
  const MARK := "\U{ef}\U{bb}\U{bf}"

  type Attrs = map<string, string>

  datatype Node = Node(name: string, attrs: Attrs, children: seq<Node>)

  /** Blank, tab, line feed, vertical tab, form feed and carriage return. */
  predicate IsSpace(c: char) { c == ' ' || 9 <= c as int <= 13 }

  predicate IsNameChar(c: char)
  {
    'a' <= c <= 'z' || 'A' <= c <= 'Z' || '0' <= c <= '9' || c == '_' || c == '-' || c == '.'
  }

  function AfterSpace(s: string): (r: string)
    ensures |r| <= |s| && (r != "" ==> !IsSpace(r[0]))
  {
    if s != "" && IsSpace(s[0]) then AfterSpace(s[1..]) else s
  }

  function NameLength(s: string): (n: nat)
    ensures n <= |s|
  {
    if s != "" && IsNameChar(s[0]) then 1 + NameLength(s[1..]) else 0
  }

  /** What is behind the first occurrence of a token. */
  function Behind(s: string, token: string): (r: Result<string>)
    ensures r.Ok? ==> |r.value| + |token| <= |s|
    ensures r.Err? ==> r.code == BAD_XML
  {
    if token <= s then Ok(s[|token|..]) else if s == "" then Err(BAD_XML) else Behind(s[1..], token)
  }

  /** What is behind white space, processing instructions and comments. */
  function AfterMisc(s: string): (r: Result<string>)
    ensures r.Ok? ==> |r.value| <= |s|
    decreases |s|
  {
    var t := AfterSpace(s);
    if "<?" <= t then
      var u :- Behind(t[2..], "?>");
      AfterMisc(u)
    else if "<!--" <= t then
      var u :- Behind(t[4..], "-->");
      AfterMisc(u)
    else if "<!DOCTYPE" <= t || "<!ENTITY" <= t then Err(BAD_XML)
    else Ok(t)
  }

  /** The attributes of a start tag, whether it closes itself, and what is behind it. */
  function Attributes(s: string, attrs: Attrs): (r: Result<(Attrs, bool, string)>)
    ensures r.Ok? ==> |r.value.2| < |s|
    decreases |s|
  {
    var t := AfterSpace(s);
    if "/>" <= t then Ok((attrs, true, t[2..]))
    else if t != "" && t[0] == '>' then Ok((attrs, false, t[1..]))
    else
      var n := NameLength(t);
      var u := AfterSpace(t[n..]);
      if n == 0 || u == "" || u[0] != '=' then Err(BAD_XML)
      else
        var (value, rest) :- Quoted(AfterSpace(u[1..]));
        if t[..n] in attrs then Err(BAD_XML) else Attributes(rest, attrs[t[..n] := value])
  }

  /** An element, what is behind it, and how many elements there were with it. */
  function Element(s: string, depth: nat, nodes: nat): (r: Result<(Node, string, nat)>)
    ensures r.Ok? ==> |r.value.1| < |s|
    decreases |s|, 0
  {
    if depth > MAX_DEPTH || nodes + 1 > MAX_NODES then Err(XML_LIMIT)
    else
      var t := AfterSpace(s);
      if t == "" || t[0] != '<' || "</" <= t then Err(BAD_XML)
      else
        var u := t[1..];
        var n := NameLength(u);
        if n == 0 then Err(BAD_XML)
        else
          var (attrs, closed, rest) :- Attributes(u[n..], map[]);
          if closed then Ok((Node(u[..n], attrs, []), rest, nodes + 1))
          else Children(rest, Node(u[..n], attrs, []), depth, nodes + 1)
  }

  /** The children of an element on top of those it has, its closing tag included. */
  function Children(s: string, node: Node, depth: nat, nodes: nat): (r: Result<(Node, string, nat)>)
    ensures r.Ok? ==> |r.value.1| < |s|
    decreases |s|, 1
  {
    var t := AfterSpace(s);
    if "</" <= t then
      var u := t[2..];
      var n := NameLength(u);
      var w := AfterSpace(u[n..]);
      if n == 0 || w == "" || w[0] != '>' || u[..n] != node.name then Err(BAD_XML) else Ok((node, w[1..], nodes))
    else if "<!--" <= t then
      var u :- Behind(t[4..], "-->");
      Children(u, node, depth, nodes)
    else if "<![CDATA[" <= t || t == "" || t[0] != '<' then Err(BAD_XML)
    else
      var (child, u, nodes') :- Element(t, depth + 1, nodes);
      Children(u, node.(children := node.children + [child]), depth, nodes')
  }

  function Parsed(text: string): (r: Result<Node>)
  {
    if |text| > MAX_TEXT then Err("CONFIG_IO")
    else
      var start :- AfterMisc(if MARK <= text then text[3..] else text);
      var (root, rest, _) :- Element(start, 0, 0);
      var end :- AfterMisc(rest);
      if AfterSpace(end) != "" then Err(BAD_XML) else Ok(root)
  }
}
