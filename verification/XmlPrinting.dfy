/** XML as `serialize_config` in config.cpp lays it out, and the proof that the parser reads it back. */
module XmlPrinting {
  import opened Bytes
  import opened Utf8
  import opened XmlText
  import opened Xml
  import opened XmlParsing

  type Field = (string, string)

  /** An element that closes itself, or one with its children on lines of their own. */
  datatype Tree =
    | Leaf(name: string, fields: seq<Field>)
    | Branch(name: string, fields: seq<Field>, children: seq<Tree>)

  // ---- Printing ----

  function FieldText(f: Field): (r: Result<string>)
  {
    var value :- Escaped(f.1);
    Ok(" " + f.0 + "=\"" + value + "\"")
  }

  function FieldsText(fields: seq<Field>): (r: Result<string>)
  {
    if fields == [] then Ok("")
    else
      var first :- FieldText(fields[0]);
      Then(first, FieldsText(fields[1..]))
  }

  /** An element from its opening bracket to its last closing one. */
  function Core(t: Tree, indent: string): (r: Result<string>)
    decreases t, 0
  {
    var fields :- FieldsText(t.fields);
    match t
    case Leaf(name, _) => Ok("<" + name + fields + "/>")
    case Branch(name, _, children) =>
      var inner :- Lines(children, indent + "  ");
      Ok("<" + name + fields + ">\n" + inner + indent + "</" + name + ">")
  }

  /** Elements one below the other. */
  function Lines(trees: seq<Tree>, indent: string): (r: Result<string>)
    decreases trees, 0
  {
    if trees == [] then Ok("")
    else
      var first :- Core(trees[0], indent);
      Then(indent + first + "\n", Lines(trees[1..], indent))
  }

  // ---- What it means ----

  function AttrsOf(attrs: Attrs, fields: seq<Field>): (r: Attrs)
    decreases |fields|
  {
    if fields == [] then attrs else AttrsOf(attrs[fields[0].0 := fields[0].1], fields[1..])
  }

  function NodeOf(t: Tree): (n: Node)
    decreases t, 0
  {
    Node(t.name, AttrsOf(map[], t.fields), if t.Leaf? then [] else NodesOf(t.children))
  }

  function NodesOf(trees: seq<Tree>): (r: seq<Node>)
    ensures |r| == |trees|
    decreases trees, 0
  {
    if trees == [] then [] else [NodeOf(trees[0])] + NodesOf(trees[1..])
  }

  // ---- Reading attributes ----

  /** Letters, digits, underscores, hyphens and dots. */
  predicate IsName(s: string)
  {
    && s != ""
    && forall i :: 0 <= i < |s| ==>
         'a' <= s[i] <= 'z' || 'A' <= s[i] <= 'Z' || '0' <= s[i] <= '9' || s[i] == '_' || s[i] == '-' || s[i] == '.'
  }

  /** Names that are names, different from each other and from those there are. */
  predicate NamesOk(attrs: Attrs, fields: seq<Field>)
    decreases |fields|
  {
    fields == [] || (IsName(fields[0].0) && fields[0].0 !in attrs && NamesOk(attrs[fields[0].0 := fields[0].1], fields[1..]))
  }

  lemma {:induction false} NameEnds(name: string, rest: string)
    requires (forall i :: 0 <= i < |name| ==> IsNameChar(name[i])) && (rest != "" ==> !IsNameChar(rest[0]))
    ensures NameLength(name + rest) == |name|
  {
    if name == "" {
      assert name + rest == rest;
    } else {
      assert (name + rest)[1..] == name[1..] + rest;
      NameEnds(name[1..], rest);
    }
  }

  lemma NoSpace(s: string)
    requires s == "" || !IsSpace(s[0])
    ensures AfterSpace(s) == s
  {
  }

  /** An attribute as it is printed, behind its space. */
  lemma FieldReads(f: Field, rest: string)
    requires IsName(f.0) && Escaped(f.1).Ok?
    ensures AttributeOf(f.0 + "=\"" + Escaped(f.1).value + "\"" + rest) == Ok((f.0, f.1, rest))
  {
    hide Escaped;
    var value := Escaped(f.1).value;
    var behind := "\"" + (value + "\"" + rest);
    var t := f.0 + "=\"" + value + "\"" + rest;
    assert t == f.0 + ("=" + behind);
    NameEnds(f.0, "=" + behind);
    var u := t[|f.0|..];
    assert u == "=" + behind && u[1..] == behind;
    NoSpace(u);
    NoSpace(behind);
    ValueReads(f.1, rest);
    assert t[..|f.0|] == f.0;
  }

  lemma ValueReads(value: string, rest: string)
    requires Escaped(value).Ok?
    ensures Quoted("\"" + (Escaped(value).value + "\"" + rest)) == Ok((value, rest))
  {
    hide QuotedFrom;
    EscapedReads(value, rest);
    var s := "\"" + (Escaped(value).value + "\"" + rest);
    assert s[1..] == Escaped(value).value + "\"" + rest;
  }

  /** Printed attributes are read as the attributes they are, in front of the end of the tag. */
  lemma {:induction false} FieldsRead(fields: seq<Field>, attrs: Attrs, tail: string)
    requires FieldsText(fields).Ok? && NamesOk(attrs, fields)
    ensures Attributes(FieldsText(fields).value + tail, attrs) == Attributes(tail, AttrsOf(attrs, fields))
    decreases |fields|
  {
    hide Attributes;
    hide FieldText;
    if fields == [] {
      assert "" + tail == tail;
    } else {
      var f, more := fields[0], FieldsText(fields[1..]).value;
      FieldsRead(fields[1..], attrs[f.0 := f.1], tail);
      OneFieldReads(f, attrs, more + tail);
      assert FieldsText(fields).value + tail == FieldText(f).value + (more + tail);
    }
  }

  lemma OneFieldReads(f: Field, attrs: Attrs, rest: string)
    requires IsName(f.0) && f.0 !in attrs && FieldText(f).Ok?
    ensures Attributes(FieldText(f).value + rest, attrs) == Attributes(rest, attrs[f.0 := f.1])
  {
    hide Attributes;
    hide Escaped;
    hide AttributeOf;
    var core := f.0 + "=\"" + Escaped(f.1).value + "\"" + rest;
    FieldReads(f, rest);
    assert FieldText(f).value + rest == " " + core;
    assert core[0] == f.0[0];
    SkipBlank(core);
    AttributeStep(" " + core, attrs);
  }

  lemma SkipBlank(s: string)
    requires s == "" || !IsSpace(s[0])
    ensures AfterSpace(" " + s) == s
  {
    assert (" " + s)[1..] == s;
  }

  // ---- Reading elements ----

  function Count(t: Tree): (n: nat)
    ensures n >= 1
    decreases t, 0
  {
    1 + if t.Leaf? then 0 else CountAll(t.children)
  }

  function CountAll(trees: seq<Tree>): (n: nat)
    decreases trees, 0
  {
    if trees == [] then 0 else Count(trees[0]) + CountAll(trees[1..])
  }

  /** Well-named trees no deeper than so many levels below their root. */
  predicate TreeOk(t: Tree, levels: nat)
    decreases t, 0
  {
    IsName(t.name) && NamesOk(map[], t.fields) && (t.Leaf? || (levels > 0 && TreesOk(t.children, levels - 1)))
  }

  predicate TreesOk(trees: seq<Tree>, levels: nat)
    decreases trees, 0
  {
    trees == [] || (TreeOk(trees[0], levels) && TreesOk(trees[1..], levels))
  }

  predicate Blank(s: string) { forall i :: 0 <= i < |s| ==> s[i] == ' ' }

  lemma {:induction false} SkipBlanks(indent: string, s: string)
    requires Blank(indent)
    ensures AfterSpace(indent + s) == AfterSpace(s)
  {
    if indent == "" {
      assert indent + s == s;
    } else {
      assert (indent + s)[1..] == indent[1..] + s;
      SkipBlanks(indent[1..], s);
    }
  }

  lemma SkipLineEnd(s: string)
    ensures AfterSpace("\n" + s) == AfterSpace(s)
  {
    assert ("\n" + s)[1..] == s;
  }

  /** White space in front of children makes no difference. */
  lemma SameChildren(a: string, b: string, node: Node, depth: nat, nodes: nat)
    requires AfterSpace(a) == AfterSpace(b)
    ensures Children(a, node, depth, nodes) == Children(b, node, depth, nodes)
  {
    hide AfterSpace;
    hide Behind;
    hide Element;
    hide NameLength;
  }

  /** The opening tag of an element, read up to its attributes. */
  lemma TagReads(name: string, s: string, depth: nat, nodes: nat)
    requires IsName(name) && s != "" && !IsNameChar(s[0]) && depth <= MAX_DEPTH && nodes + 1 <= MAX_NODES
    requires Attributes(s, map[]).Ok?
    ensures var (attrs, closed, rest) := Attributes(s, map[]).value;
            Element("<" + name + s, depth, nodes) ==
            if closed then Ok((Node(name, attrs, []), rest, nodes + 1)) else Children(rest, Node(name, attrs, []), depth, nodes + 1)
  {
    hide Attributes;
    hide Children;
    var t := "<" + name + s;
    NoSpace(t);
    assert t[1] == name[0] && t[1] != '/';
    assert t[1..] == name + s;
    NameEnds(name, s);
    assert (name + s)[..|name|] == name && (name + s)[|name|..] == s;
  }

  lemma LeafTagReads(name: string, fields: seq<Field>, rest: string, depth: nat, nodes: nat)
    requires IsName(name) && NamesOk(map[], fields) && FieldsText(fields).Ok? && depth <= MAX_DEPTH && nodes + 1 <= MAX_NODES
    ensures Element("<" + name + FieldsText(fields).value + "/>" + rest, depth, nodes)
         == Ok((Node(name, AttrsOf(map[], fields), []), rest, nodes + 1))
  {
    hide Element;
    hide Escaped;
    var text := FieldsText(fields).value;
    var s := text + ("/>" + rest);
    FieldsRead(fields, map[], "/>" + rest);
    NoSpace("/>" + rest);
    assert ("/>" + rest)[2..] == rest;
    TagCloses("/>" + rest, AttrsOf(map[], fields));
    StartsBlank(fields, "/>" + rest);
    TagReads(name, s, depth, nodes);
    assert "<" + name + text + "/>" + rest == "<" + name + s;
  }

  lemma StartsBlank(fields: seq<Field>, tail: string)
    requires FieldsText(fields).Ok? && tail != "" && !IsNameChar(tail[0])
    ensures !IsNameChar((FieldsText(fields).value + tail)[0])
  {
    hide Escaped;
    if fields == [] {
      assert "" + tail == tail;
    }
  }

  lemma BranchTagReads(name: string, fields: seq<Field>, rest: string, depth: nat, nodes: nat)
    requires IsName(name) && NamesOk(map[], fields) && FieldsText(fields).Ok? && depth <= MAX_DEPTH && nodes + 1 <= MAX_NODES
    ensures Element("<" + name + FieldsText(fields).value + ">\n" + rest, depth, nodes)
         == Children(rest, Node(name, AttrsOf(map[], fields), []), depth, nodes + 1)
  {
    hide Element;
    hide Children;
    hide Escaped;
    var text := FieldsText(fields).value;
    var s := text + (">\n" + rest);
    FieldsRead(fields, map[], ">\n" + rest);
    NoSpace(">\n" + rest);
    assert (">\n" + rest)[1..] == "\n" + rest;
    TagOpens(">\n" + rest, AttrsOf(map[], fields));
    StartsBlank(fields, ">\n" + rest);
    TagReads(name, s, depth, nodes);
    SkipLineEnd(rest);
    SameChildren("\n" + rest, rest, Node(name, AttrsOf(map[], fields), []), depth, nodes + 1);
    assert "<" + name + text + ">\n" + rest == "<" + name + s;
  }

  lemma ClosingReads(name: string, indent: string, rest: string, node: Node, depth: nat, nodes: nat)
    requires IsName(name) && Blank(indent) && node.name == name
    ensures Children(indent + "</" + name + ">" + rest, node, depth, nodes) == Ok((node, rest, nodes))
  {
    hide Children;
    hide NameLength;
    var t := "</" + name + ">" + rest;
    SkipBlanks(indent, t);
    NoSpace(t);
    assert indent + "</" + name + ">" + rest == indent + t;
    assert t[2..] == name + (">" + rest);
    NameEnds(name, ">" + rest);
    assert (name + (">" + rest))[..|name|] == name && (name + (">" + rest))[|name|..] == ">" + rest;
    NoSpace(">" + rest);
    assert (">" + rest)[1..] == rest;
    ChildrenEnd(indent + t, node, depth, nodes);
  }

  /** Whatever is printed is read back: one element, */
  lemma {:induction false} CoreReads(t: Tree, indent: string, rest: string, depth: nat, nodes: nat)
    requires Core(t, indent).Ok? && Blank(indent) && depth <= MAX_DEPTH && TreeOk(t, MAX_DEPTH - depth)
    requires nodes + Count(t) <= MAX_NODES
    ensures Element(Core(t, indent).value + rest, depth, nodes) == Ok((NodeOf(t), rest, nodes + Count(t)))
    decreases t, 0
  {
    hide Element;
    hide Children;
    hide FieldsText;
    if t.Leaf? {
      LeafTagReads(t.name, t.fields, rest, depth, nodes);
    } else {
      var inner := Lines(t.children, indent + "  ").value;
      var closing := indent + "</" + t.name + ">" + rest;
      var node := Node(t.name, AttrsOf(map[], t.fields), []);
      assert node.(children := [] + NodesOf(t.children)) == NodeOf(t) by { assert [] + NodesOf(t.children) == NodesOf(t.children); }
      BranchTagReads(t.name, t.fields, inner + closing, depth, nodes);
      LinesRead(t.children, indent + "  ", node, closing, depth, nodes + 1);
      ClosingReads(t.name, indent, rest, NodeOf(t), depth, nodes + Count(t));
      assert Core(t, indent).value + rest == "<" + t.name + FieldsText(t.fields).value + ">\n" + (inner + closing);
    }
  }

  /** and the children of an element. */
  lemma {:induction false} LinesRead(trees: seq<Tree>, indent: string, node: Node, tail: string, depth: nat, nodes: nat)
    requires Lines(trees, indent).Ok? && Blank(indent) && depth < MAX_DEPTH && TreesOk(trees, MAX_DEPTH - depth - 1)
    requires nodes + CountAll(trees) <= MAX_NODES
    ensures Children(Lines(trees, indent).value + tail, node, depth, nodes)
         == Children(tail, node.(children := node.children + NodesOf(trees)), depth, nodes + CountAll(trees))
    decreases trees, 0
  {
    hide Element;
    hide Children;
    hide Core;
    hide NodeOf;
    hide Count;
    if trees == [] {
      assert "" + tail == tail && node.children + [] == node.children;
    } else {
      var first, more := Core(trees[0], indent).value, Lines(trees[1..], indent).value;
      CoreReads(trees[0], indent, "\n" + (more + tail), depth + 1, nodes);
      LineReads(trees[0], indent, more + tail, node, depth, nodes);
      var node' := node.(children := node.children + [NodeOf(trees[0])]);
      LinesRead(trees[1..], indent, node', tail, depth, nodes + Count(trees[0]));
      assert Lines(trees, indent).value + tail == indent + (first + ("\n" + (more + tail)));
      assert node'.children + NodesOf(trees[1..]) == node.children + NodesOf(trees);
    }
  }

  /** One line of children, given that its element is read. */
  lemma LineReads(t: Tree, indent: string, rest: string, node: Node, depth: nat, nodes: nat)
    requires Core(t, indent).Ok? && Blank(indent) && TreeIsNamed(t)
    requires Element(Core(t, indent).value + ("\n" + rest), depth + 1, nodes) == Ok((NodeOf(t), "\n" + rest, nodes + Count(t)))
    ensures Children(indent + (Core(t, indent).value + ("\n" + rest)), node, depth, nodes)
         == Children(rest, node.(children := node.children + [NodeOf(t)]), depth, nodes + Count(t))
  {
    hide Element;
    hide Children;
    hide Core;
    hide NodeOf;
    hide Count;
    var s := indent + (Core(t, indent).value + ("\n" + rest));
    LineStarts(t, indent, "\n" + rest);
    ChildStep(s, node, depth, nodes);
    SkipLineEnd(rest);
    SameChildren("\n" + rest, rest, node.(children := node.children + [NodeOf(t)]), depth, nodes + Count(t));
  }

  predicate TreeIsNamed(t: Tree) { IsName(t.name) }

  /** Behind its indentation a line starts an element, not a closing tag or a comment. */
  lemma LineStarts(t: Tree, indent: string, rest: string)
    requires Core(t, indent).Ok? && Blank(indent) && IsName(t.name)
    ensures var s := Core(t, indent).value + rest;
            && AfterSpace(indent + s) == s && s != "" && s[0] == '<'
            && !("</" <= s) && !("<!--" <= s) && !("<![CDATA[" <= s)
  {
    hide Lines;
    hide FieldsText;
    var s := Core(t, indent).value + rest;
    assert s[0] == '<' && s[1] == t.name[0] && IsNameChar(s[1]);
    SkipBlanks(indent, s);
    NoSpace(s);
  }
}
