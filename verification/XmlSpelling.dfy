/**
 The documents the XML parser of config.cpp reads, as a grammar: white space, quotes of either kind, references, comments and
 instructions where they may stand. Every text is written in front of what follows it.
 */
module XmlSpelling {
  import opened Bytes
  import opened XmlText
  import opened Xml
  import opened XmlParsing
  import P = XmlPrinting

  // ---- The grammar ----

  datatype Piece = Plain(c: char) | Reference(entity: string)

  datatype Attribute = Attribute(gap: string, name: string, left: string, right: string, quote: char, value: seq<Piece>)

  datatype Tag = Tag(name: string, attributes: seq<Attribute>, space: string)

  /** White space and what is skipped behind it. */
  datatype Section = Comment(space: string, text: string) | Instruction(space: string, text: string)

  datatype Gap = Gap(sections: seq<Section>, space: string)

  datatype Markup =
    | Empty(gap: Gap, tag: Tag)
    | Full(gap: Gap, tag: Tag, children: seq<Markup>, last: Gap, end: string)

  datatype Document = Document(mark: bool, root: Markup, last: Gap)

  // ---- Spelling ----

  function PieceText(p: Piece): (s: string)
  {
    match p
    case Plain(c) => [c]
    case Reference(entity) => "&" + entity + ";"
  }

  function ValueText(value: seq<Piece>, tail: string): (s: string)
  {
    if value == [] then tail else PieceText(value[0]) + ValueText(value[1..], tail)
  }

  function AttributeText(a: Attribute, tail: string): (s: string)
  {
    a.gap + (a.name + (a.left + ("=" + (a.right + ([a.quote] + ValueText(a.value, [a.quote] + tail))))))
  }

  function AttributesText(attributes: seq<Attribute>, tail: string): (s: string)
  {
    if attributes == [] then tail else AttributeText(attributes[0], AttributesText(attributes[1..], tail))
  }

  function TagText(tag: Tag, tail: string): (s: string)
  {
    "<" + (tag.name + AttributesText(tag.attributes, tag.space + tail))
  }

  function SectionText(section: Section, tail: string): (s: string)
  {
    match section
    case Comment(space, text) => space + ("<!--" + (text + ("-->" + tail)))
    case Instruction(space, text) => space + ("<?" + (text + ("?>" + tail)))
  }

  function SectionsText(sections: seq<Section>, tail: string): (s: string)
  {
    if sections == [] then tail else SectionText(sections[0], SectionsText(sections[1..], tail))
  }

  function GapText(gap: Gap, tail: string): (s: string)
  {
    SectionsText(gap.sections, gap.space + tail)
  }

  function ClosingText(name: string, end: string, tail: string): (s: string)
  {
    "</" + (name + (end + (">" + tail)))
  }

  /** An element from its opening bracket on. */
  function ElementText(e: Markup, tail: string): (s: string)
    decreases e, 0
  {
    match e
    case Empty(_, tag) => TagText(tag, "/>" + tail)
    case Full(_, tag, children, last, end) =>
      TagText(tag, ">" + ChildrenText(children, GapText(last, ClosingText(tag.name, end, tail))))
  }

  function ChildrenText(children: seq<Markup>, tail: string): (s: string)
    decreases children, 0
  {
    if children == [] then tail
    else GapText(children[0].gap, ElementText(children[0], ChildrenText(children[1..], tail)))
  }

  function DocumentText(d: Document): (s: string)
  {
    var body := GapText(d.root.gap, ElementText(d.root, GapText(d.last, "")));
    if d.mark then "\U{ef}\U{bb}\U{bf}" + body else body
  }

  // ---- Meaning ----

  function PieceMeans(p: Piece): (s: string)
  {
    match p
    case Plain(c) => [c]
    case Reference(entity) => if EntityOf(entity).Ok? then EntityOf(entity).value else ""
  }

  function ValueMeans(value: seq<Piece>): (s: string)
  {
    if value == [] then "" else PieceMeans(value[0]) + ValueMeans(value[1..])
  }

  function Fields(attributes: seq<Attribute>): (fields: seq<P.Field>)
    ensures |fields| == |attributes|
  {
    if attributes == [] then [] else [(attributes[0].name, ValueMeans(attributes[0].value))] + Fields(attributes[1..])
  }

  function NodeMeant(e: Markup): (node: Node)
    decreases e, 0
  {
    Node(e.tag.name, P.AttrsOf(map[], Fields(e.tag.attributes)), if e.Empty? then [] else NodesMeant(e.children))
  }

  function NodesMeant(children: seq<Markup>): (nodes: seq<Node>)
    ensures |nodes| == |children|
    decreases children, 0
  {
    if children == [] then [] else [NodeMeant(children[0])] + NodesMeant(children[1..])
  }

  // ---- Which spellings there are ----

  predicate IsBlank(s: string) { forall i :: 0 <= i < |s| ==> s[i] in " \t\n\U{0b}\U{0c}\r" }

  predicate PieceOk(p: Piece, quote: char)
  {
    match p
    case Plain(c) => c != quote && c != '&' && (c as int >= 32 || c == '\t' || c == '\r' || c == '\n')
    case Reference(entity) => ';' !in entity && EntityOf(entity).Ok?
  }

  predicate ValueOk(value: seq<Piece>, quote: char) { forall i :: 0 <= i < |value| ==> PieceOk(value[i], quote) }

  predicate AttributeOk(a: Attribute)
  {
    && IsBlank(a.gap) && IsBlank(a.left) && IsBlank(a.right)
    && (a.quote == '"' || a.quote == '\'')
    && ValueOk(a.value, a.quote)
  }

  /** Attributes stand apart from the name of their element; two of one name there must not be. */
  predicate TagOk(tag: Tag)
  {
    && P.IsName(tag.name)
    && P.NamesOk(map[], Fields(tag.attributes))
    && (forall i :: 0 <= i < |tag.attributes| ==> AttributeOk(tag.attributes[i]))
    && (tag.attributes != [] ==> tag.attributes[0].gap != "")
    && IsBlank(tag.space)
  }

  predicate Within(token: string, s: string) { exists i: nat :: i <= |s| && token <= s[i..] }

  /** Instructions are for the outermost level only. */
  predicate SectionOk(section: Section, outermost: bool)
  {
    match section
    case Comment(space, text) => IsBlank(space) && !Within("-->", text)
    case Instruction(space, text) => outermost && IsBlank(space) && !Within("?>", text)
  }

  predicate GapOk(gap: Gap, outermost: bool)
  {
    IsBlank(gap.space) && forall i :: 0 <= i < |gap.sections| ==> SectionOk(gap.sections[i], outermost)
  }

  predicate ElementOk(e: Markup)
    decreases e, 0
  {
    TagOk(e.tag) && (e.Full? ==> ChildrenOk(e.children) && GapOk(e.last, false) && IsBlank(e.end))
  }

  predicate ChildrenOk(children: seq<Markup>)
    decreases children, 0
  {
    children == [] || (GapOk(children[0].gap, false) && ElementOk(children[0]) && ChildrenOk(children[1..]))
  }

  predicate DocumentOk(d: Document)
  {
    GapOk(d.root.gap, true) && ElementOk(d.root) && GapOk(d.last, true)
  }

  /** The number of elements, and how deep they go. */
  function Size(e: Markup): (n: nat)
    ensures n >= 1
    decreases e, 0
  {
    1 + if e.Empty? then 0 else Sizes(e.children)
  }

  function Sizes(children: seq<Markup>): (n: nat)
    decreases children, 0
  {
    if children == [] then 0 else Size(children[0]) + Sizes(children[1..])
  }

  predicate AtMost(e: Markup, levels: nat)
    decreases e, 0
  {
    e.Empty? || AllAtMost(e.children, levels)
  }

  /** Children that go no deeper than so many levels, counting their own. */
  predicate AllAtMost(children: seq<Markup>, levels: nat)
    decreases children, 0
  {
    children == [] || (levels > 0 && AtMost(children[0], levels - 1) && AllAtMost(children[1..], levels))
  }

  // ---- White space, names and tokens ----

  lemma BlankIsSpace(s: string)
    ensures IsBlank(s) <==> forall i :: 0 <= i < |s| ==> IsSpace(s[i])
  {
    forall i | 0 <= i < |s|
      ensures s[i] in " \t\n\U{0b}\U{0c}\r" <==> IsSpace(s[i])
    {
      assert s[i] == '\U{0b}' <==> s[i] as int == 11;
      assert s[i] == '\U{0c}' <==> s[i] as int == 12;
    }
  }

  lemma {:induction false} BlankSkipped(space: string, tail: string)
    requires IsBlank(space)
    ensures AfterSpace(space + tail) == AfterSpace(tail)
  {
    BlankIsSpace(space);
    if space == "" {
      assert space + tail == tail;
    } else {
      assert (space + tail)[1..] == space[1..] + tail;
      BlankSkipped(space[1..], tail);
    }
  }

  /** White space in front of something that is none. */
  lemma BlankEnds(space: string, tail: string)
    requires IsBlank(space) && (tail != "" ==> !IsSpace(tail[0]))
    ensures AfterSpace(space + tail) == tail
  {
    BlankSkipped(space, tail);
  }

  lemma {:induction false} SpaceSpelled(s: string) returns (space: string)
    ensures IsBlank(space) && s == space + AfterSpace(s)
  {
    space := "";
    if s != "" && IsSpace(s[0]) {
      var more := SpaceSpelled(s[1..]);
      space := [s[0]] + more;
      BlankIsSpace(more);
      BlankIsSpace(space);
    }
  }

  lemma SpaceIsOver(s: string)
    ensures AfterSpace(AfterSpace(s)) == AfterSpace(s)
  {
  }

  lemma {:induction false} NameSpelled(s: string)
    ensures forall i :: 0 <= i < NameLength(s) ==> IsNameChar(s[i])
    ensures NameLength(s) < |s| ==> !IsNameChar(s[NameLength(s)])
  {
    if s != "" && IsNameChar(s[0]) {
      NameSpelled(s[1..]);
      forall i | 0 < i <= NameLength(s) && i < |s|
        ensures s[i] == s[1..][i - 1]
      {
      }
    }
  }

  predicate IsToken(token: string) { token == "-->" || token == "?>" }

  lemma TokenAhead(text: string, token: string, tail: string)
    requires IsToken(token) && !Within(token, text) && text != ""
    ensures !(token <= text + (token + tail))
  {
    var s := text + (token + tail);
    assert !(token <= text[0..]);
    assert |text| < |token| ==> s[|text|] == token[0] && s[|text| + 1] == token[1];
  }

  lemma {:induction false} TokenFound(text: string, token: string, tail: string)
    requires IsToken(token) && !Within(token, text)
    ensures Behind(text + (token + tail), token) == Ok(tail)
    decreases |text|
  {
    var s := text + (token + tail);
    if text == "" {
      assert s == token + tail;
      assert s[|token|..] == tail;
    } else {
      TokenAhead(text, token, tail);
      assert s[1..] == text[1..] + (token + tail);
      forall i: nat | i <= |text[1..]|
        ensures !(token <= text[1..][i..])
      {
        assert text[1..][i..] == text[i + 1..];
      }
      TokenFound(text[1..], token, tail);
    }
  }

  lemma {:induction false} TokenSpelled(s: string, token: string) returns (text: string)
    requires IsToken(token) && Behind(s, token).Ok?
    ensures !Within(token, text) && s == text + (token + Behind(s, token).value)
    decreases |s|
  {
    if token <= s {
      text := "";
      assert s == token + s[|token|..];
    } else {
      var more := TokenSpelled(s[1..], token);
      text := [s[0]] + more;
      forall i: nat | i <= |text|
        ensures !(token <= text[i..])
      {
        if i > 0 {
          assert text[i..] == more[i - 1..];
        }
      }
    }
  }

  // ---- Values ----

  lemma PieceReads(p: Piece, quote: char, tail: string)
    requires PieceOk(p, quote) && (quote == '"' || quote == '\'')
    ensures var s := PieceText(p) + tail;
            s != "" && s[0] != quote && PieceOf(s) == Ok((PieceMeans(p), tail))
  {
    hide EntityOf;
    hide Find;
    var s := PieceText(p) + tail;
    if p.Reference? {
      var k := |p.entity|;
      assert s[1..] == p.entity + ";" + tail;
      FirstAt(s[1..], p.entity, tail);
      assert s[1..k + 1] == p.entity && s[k + 2..] == tail;
    } else {
      assert s[1..] == tail;
    }
  }

  lemma PieceSpelled(s: string, quote: char) returns (p: Piece)
    requires s != "" && s[0] != quote && PieceOf(s).Ok?
    ensures PieceOk(p, quote) && PieceMeans(p) == PieceOf(s).value.0 && s == PieceText(p) + PieceOf(s).value.1
  {
    hide EntityOf;
    hide Find;
    if s[0] == '&' {
      var k := Find(s[1..], ';').value;
      p := Reference(s[1..k + 1]);
      assert s[1..][..k] == s[1..k + 1] && s[1..][k] == s[k + 1];
      assert s == "&" + s[1..k + 1] + ";" + s[k + 2..];
    } else {
      p := Plain(s[0]);
    }
  }

  lemma OnePieceAhead(s: string, quote: char)
    requires s != "" && s[0] != quote
    ensures PieceOf(s).Err? ==> QuotedFrom(s, quote).Err?
    ensures PieceOf(s).Ok? ==> QuotedFrom(s, quote) == Longer(PieceOf(s).value.0, QuotedFrom(PieceOf(s).value.1, quote))
  {
    hide EntityOf;
    hide Find;
    hide Longer;
  }

  lemma {:induction false} ValueReads(value: seq<Piece>, quote: char, tail: string)
    requires ValueOk(value, quote) && (quote == '"' || quote == '\'')
    ensures QuotedFrom(ValueText(value, [quote] + tail), quote) == Ok((ValueMeans(value), tail))
    decreases |value|
  {
    hide QuotedFrom;
    hide PieceOk;
    hide PieceMeans;
    hide PieceText;
    if value == [] {
      ValueCloses(quote, tail);
    } else {
      var more := ValueText(value[1..], [quote] + tail);
      ValueReads(value[1..], quote, tail);
      PieceReads(value[0], quote, more);
      OnePieceAhead(PieceText(value[0]) + more, quote);
    }
  }

  lemma ValueCloses(quote: char, tail: string)
    ensures QuotedFrom([quote] + tail, quote) == Ok(("", tail))
  {
    assert ([quote] + tail)[1..] == tail;
  }

  lemma {:induction false} ValueSpelled(s: string, quote: char) returns (value: seq<Piece>)
    requires QuotedFrom(s, quote).Ok?
    ensures var (text, rest) := QuotedFrom(s, quote).value;
            ValueOk(value, quote) && text == ValueMeans(value) && s == ValueText(value, [quote] + rest)
    decreases |s|
  {
    hide PieceOk;
    hide PieceMeans;
    hide PieceText;
    hide EntityOf;
    if s[0] == quote {
      value := [];
    } else {
      OnePieceAhead(s, quote);
      var first := PieceSpelled(s, quote);
      var more := ValueSpelled(PieceOf(s).value.1, quote);
      value := [first] + more;
    }
  }

  // ---- Attributes ----

  /** An attribute from its name on. */
  function NamedText(a: Attribute, tail: string): (s: string)
  {
    a.name + (a.left + ("=" + (a.right + ([a.quote] + ValueText(a.value, [a.quote] + tail)))))
  }

  lemma NamesAreNoSpace(c: char)
    ensures IsNameChar(c) ==> !IsSpace(c) && c != '=' && c != '>' && c != '/' && c != '<' && c != '!' && c != '?'
    ensures IsSpace(c) ==> c != '=' && c != '>' && c != '/' && c != '<'
  {
  }

  lemma SignBehind(left: string, sign: char, tail: string)
    requires IsBlank(left) && !IsSpace(sign) && !IsNameChar(sign)
    ensures var s := left + ([sign] + tail);
            !IsNameChar(s[0]) && AfterSpace(s) == [sign] + tail
  {
    BlankEnds(left, [sign] + tail);
    if left != "" {
      BlankIsSpace(left);
      NamesAreNoSpace(left[0]);
    }
  }

  lemma AttributeReads(a: Attribute, tail: string)
    requires AttributeOk(a) && P.IsName(a.name)
    ensures AfterSpace(AttributeText(a, tail)) == NamedText(a, tail)
    ensures AttributeOf(NamedText(a, tail)) == Ok((a.name, ValueMeans(a.value), tail))
    ensures IsNameChar(NamedText(a, tail)[0])
  {
    hide QuotedFrom;
    hide AfterSpace;
    hide NameLength;
    hide IsBlank;
    hide ValueMeans;
    hide ValueText;
    hide ValueOk;
    var quoted := [a.quote] + ValueText(a.value, [a.quote] + tail);
    var signed := "=" + (a.right + quoted);
    var t := NamedText(a, tail);
    assert t[0] == a.name[0];
    NamesAreNoSpace(a.name[0]);
    BlankEnds(a.gap, t);
    SignBehind(a.left, '=', a.right + quoted);
    P.NameEnds(a.name, a.left + signed);
    assert t[..|a.name|] == a.name && t[|a.name|..] == a.left + signed;
    assert signed[1..] == a.right + quoted;
    SignBehind(a.right, a.quote, ValueText(a.value, [a.quote] + tail));
    ValueReads(a.value, a.quote, tail);
    assert quoted[1..] == ValueText(a.value, [a.quote] + tail);
  }

  lemma AttributeSpelled(s: string) returns (a: Attribute)
    requires AttributeOf(AfterSpace(s)).Ok?
    ensures var (key, text, rest) := AttributeOf(AfterSpace(s)).value;
            && AttributeOk(a) && P.IsName(a.name) && a.name == key && text == ValueMeans(a.value)
            && s == AttributeText(a, rest)
  {
    hide QuotedFrom;
    hide AfterSpace;
    hide NameLength;
    hide IsBlank;
    hide ValueMeans;
    hide ValueText;
    hide ValueOk;
    var t := AfterSpace(s);
    var n := NameLength(t);
    var u := AfterSpace(t[n..]);
    var v := AfterSpace(u[1..]);
    var rest := Quoted(v).value.1;
    NameSpelled(t);
    var gap := SpaceSpelled(s);
    var left := SpaceSpelled(t[n..]);
    var right := SpaceSpelled(u[1..]);
    var value := ValueSpelled(v[1..], v[0]);
    a := Attribute(gap, t[..n], left, right, v[0], value);
    assert v == [v[0]] + v[1..] && u == "=" + u[1..] && t == t[..n] + t[n..];
  }

  predicate AllOk(attributes: seq<Attribute>) { forall i :: 0 <= i < |attributes| ==> AttributeOk(attributes[i]) }

  lemma {:induction false} AttributesRead(attributes: seq<Attribute>, attrs: Attrs, tail: string)
    requires AllOk(attributes) && P.NamesOk(attrs, Fields(attributes))
    ensures Attributes(AttributesText(attributes, tail), attrs) == Attributes(tail, P.AttrsOf(attrs, Fields(attributes)))
    decreases |attributes|
  {
    hide Attributes;
    hide AttributeText;
    hide AttributeOk;
    hide AttributeOf;
    hide NamedText;
    hide ValueMeans;
    hide AfterSpace;
    if attributes != [] {
      var a, more := attributes[0], AttributesText(attributes[1..], tail);
      var attrs' := attrs[a.name := ValueMeans(a.value)];
      assert Fields(attributes)[0] == (a.name, ValueMeans(a.value)) && Fields(attributes)[1..] == Fields(attributes[1..]);
      AttributesRead(attributes[1..], attrs', tail);
      AttributeReads(a, more);
      NamesAreNoSpace(NamedText(a, more)[0]);
      AttributeStep(AttributeText(a, more), attrs);
    }
  }

  function TagEnd(closed: bool): (s: string) { if closed then "/>" else ">" }

  lemma {:induction false} AttributesSpelled(s: string, attrs: Attrs) returns (attributes: seq<Attribute>, space: string)
    requires Attributes(s, attrs).Ok?
    ensures var (got, closed, rest) := Attributes(s, attrs).value;
            && AllOk(attributes) && P.NamesOk(attrs, Fields(attributes)) && got == P.AttrsOf(attrs, Fields(attributes))
            && IsBlank(space) && s == AttributesText(attributes, space + (TagEnd(closed) + rest))
    decreases |s|
  {
    hide Attributes;
    hide AttributeText;
    hide AttributeOk;
    hide AttributeOf;
    hide ValueMeans;
    hide AfterSpace;
    hide IsBlank;
    attributes := [];
    var t := AfterSpace(s);
    space := SpaceSpelled(s);
    if "/>" <= t {
      TagCloses(s, attrs);
      assert t == "/>" + t[2..];
    } else if t != "" && t[0] == '>' {
      TagOpens(s, attrs);
      assert t == ">" + t[1..];
    } else {
      AttributeStep(s, attrs);
      var a := AttributeSpelled(s);
      var (key, text, rest) := AttributeOf(t).value;
      var more;
      more, space := AttributesSpelled(rest, attrs[key := text]);
      attributes := [a] + more;
      assert Fields(attributes) == [(key, text)] + Fields(more) by { assert attributes[1..] == more; }
    }
  }

  // ---- Comments, instructions and tags ----

  lemma CommentSkipped(section: Section, tail: string, node: Node, depth: nat, nodes: nat)
    requires SectionOk(section, false)
    ensures Children(SectionText(section, tail), node, depth, nodes) == Children(tail, node, depth, nodes)
  {
    hide Children;
    hide AfterSpace;
    hide Behind;
    hide IsBlank;
    hide Within;
    var t := "<!--" + (section.text + ("-->" + tail));
    BlankEnds(section.space, t);
    assert t[4..] == section.text + ("-->" + tail);
    TokenFound(section.text, "-->", tail);
    assert t[1] == '!';
    ChildrenSkip(section.space + t, node, depth, nodes);
  }

  lemma {:induction false} GapSkipped(sections: seq<Section>, space: string, tail: string, node: Node, depth: nat, nodes: nat)
    requires GapOk(Gap(sections, space), false)
    ensures Children(SectionsText(sections, space + tail), node, depth, nodes) == Children(tail, node, depth, nodes)
    decreases |sections|
  {
    hide Children;
    hide SectionText;
    hide SectionOk;
    hide IsBlank;
    if sections == [] {
      BlankSkipped(space, tail);
      P.SameChildren(space + tail, tail, node, depth, nodes);
    } else {
      GapSkipped(sections[1..], space, tail, node, depth, nodes);
      CommentSkipped(sections[0], SectionsText(sections[1..], space + tail), node, depth, nodes);
    }
  }

  lemma SectionSkipped(section: Section, tail: string)
    requires SectionOk(section, true)
    ensures AfterMisc(SectionText(section, tail)) == AfterMisc(tail)
  {
    hide AfterMisc;
    hide AfterSpace;
    hide Behind;
    hide IsBlank;
    hide Within;
    match section
    case Comment(space, text) =>
      var t := "<!--" + (text + ("-->" + tail));
      assert t[4..] == text + ("-->" + tail) && t[1] == '!';
      BlankEnds(space, t);
      TokenFound(text, "-->", tail);
      MiscSection(space + t, t, "<!--", "-->");
    case Instruction(space, text) =>
      var t := "<?" + (text + ("?>" + tail));
      assert t[2..] == text + ("?>" + tail);
      BlankEnds(space, t);
      TokenFound(text, "?>", tail);
      MiscSection(space + t, t, "<?", "?>");
  }

  lemma {:induction false} MiscSkipped(sections: seq<Section>, space: string, tail: string)
    requires GapOk(Gap(sections, space), true)
    ensures AfterMisc(SectionsText(sections, space + tail)) == AfterMisc(tail)
    decreases |sections|
  {
    hide AfterMisc;
    hide SectionText;
    hide SectionOk;
    hide IsBlank;
    if sections == [] {
      BlankSkipped(space, tail);
      AfterSpaceTwice(space + tail);
      AfterSpaceTwice(tail);
    } else {
      MiscSkipped(sections[1..], space, tail);
      SectionSkipped(sections[0], SectionsText(sections[1..], space + tail));
    }
  }

  lemma {:induction false} MiscSpelled(s: string) returns (gap: Gap)
    requires AfterMisc(s).Ok?
    ensures GapOk(gap, true) && s == GapText(gap, AfterMisc(s).value)
    ensures AfterSpace(AfterMisc(s).value) == AfterMisc(s).value
    decreases |s|
  {
    hide AfterMisc;
    hide AfterSpace;
    hide Behind;
    hide IsBlank;
    hide Within;
    var t := AfterSpace(s);
    var space := SpaceSpelled(s);
    if "<?" <= t {
      MiscSection(s, t, "<?", "?>");
      assert t == "<?" + t[2..];
      var text := TokenSpelled(t[2..], "?>");
      var more := MiscSpelled(Behind(t[2..], "?>").value);
      gap := Longest(Instruction(space, text), more);
    } else if "<!--" <= t {
      MiscSection(s, t, "<!--", "-->");
      assert t == "<!--" + t[4..];
      var text := TokenSpelled(t[4..], "-->");
      var more := MiscSpelled(Behind(t[4..], "-->").value);
      gap := Longest(Comment(space, text), more);
    } else {
      MiscEnds(s, t);
      SpaceIsOver(s);
      gap := Gap([], space);
    }
  }

  /** A gap with a section in front. */
  function Longest(section: Section, gap: Gap): (r: Gap)
    ensures forall tail :: GapText(r, tail) == SectionText(section, GapText(gap, tail))
    ensures forall outermost :: SectionOk(section, outermost) && GapOk(gap, outermost) ==> GapOk(r, outermost)
  {
    hide SectionText;
    hide SectionOk;
    var r := Gap([section] + gap.sections, gap.space);
    assert r.sections[1..] == gap.sections;
    r
  }

  /** What is behind a name: a space, or the end of the tag. */
  lemma NameIsOver(tag: Tag, end: string)
    requires TagOk(tag) && end != "" && (end[0] == '>' || end[0] == '/')
    ensures var s := AttributesText(tag.attributes, tag.space + end);
            s != "" && !IsNameChar(s[0])
  {
    hide ValueText;
    hide ValueOk;
    hide P.NamesOk;
    if tag.attributes == [] {
      if tag.space != "" {
        BlankIsSpace(tag.space);
        NamesAreNoSpace(tag.space[0]);
      }
    } else {
      var gap := tag.attributes[0].gap;
      BlankIsSpace(gap);
      NamesAreNoSpace(gap[0]);
    }
  }

  lemma TagRead(tag: Tag, closed: bool, rest: string, depth: nat, nodes: nat)
    requires TagOk(tag) && depth <= MAX_DEPTH && nodes + 1 <= MAX_NODES
    ensures var node := Node(tag.name, P.AttrsOf(map[], Fields(tag.attributes)), []);
            Element(TagText(tag, TagEnd(closed) + rest), depth, nodes) ==
            if closed then Ok((node, rest, nodes + 1)) else Children(rest, node, depth, nodes + 1)
  {
    hide Element;
    hide Children;
    hide Attributes;
    hide AttributesText;
    hide AttributeOk;
    hide P.NamesOk;
    hide AfterSpace;
    var end := TagEnd(closed) + rest;
    NameIsOver(tag, end);
    AttributesRead(tag.attributes, map[], tag.space + end);
    BlankEnds(tag.space, end);
    if closed {
      TagCloses(tag.space + end, P.AttrsOf(map[], Fields(tag.attributes)));
      assert end[2..] == rest;
    } else {
      TagOpens(tag.space + end, P.AttrsOf(map[], Fields(tag.attributes)));
      assert end[1..] == rest;
    }
    var s := AttributesText(tag.attributes, tag.space + end);
    P.TagReads(tag.name, s, depth, nodes);
    assert "<" + tag.name + s == "<" + (tag.name + s);
  }

  lemma TagSpelled(s: string, depth: nat, nodes: nat) returns (space: string, tag: Tag, closed: bool, rest: string)
    requires Element(s, depth, nodes).Ok?
    ensures depth <= MAX_DEPTH && nodes + 1 <= MAX_NODES && |rest| < |s|
    ensures IsBlank(space) && TagOk(tag) && s == space + TagText(tag, TagEnd(closed) + rest)
    ensures var node := Node(tag.name, P.AttrsOf(map[], Fields(tag.attributes)), []);
            Element(s, depth, nodes) == if closed then Ok((node, rest, nodes + 1)) else Children(rest, node, depth, nodes + 1)
  {
    hide Children;
    hide Attributes;
    hide AttributesText;
    hide AttributeOk;
    hide IsBlank;
    hide P.NamesOk;
    hide P.AttrsOf;
    hide AfterSpace;
    hide NameLength;
    space := SpaceSpelled(s);
    var t := AfterSpace(s);
    var u := t[1..];
    var n := NameLength(u);
    NameSpelled(u);
    closed, rest := Attributes(u[n..], map[]).value.1, Attributes(u[n..], map[]).value.2;
    var attributes, gap := AttributesSpelled(u[n..], map[]);
    tag := Tag(u[..n], attributes, gap);
    assert t == "<" + u && u == u[..n] + u[n..];
    FirstIsApart(u[n..], attributes, gap + (TagEnd(closed) + rest));
  }

  /** Names end where no character of a name follows, so there is something in front of the first attribute. */
  lemma FirstIsApart(s: string, attributes: seq<Attribute>, tail: string)
    requires AllOk(attributes) && (attributes != [] ==> P.NamesOk(map[], Fields(attributes)))
    requires s == AttributesText(attributes, tail) && (s != "" ==> !IsNameChar(s[0]))
    ensures attributes != [] ==> attributes[0].gap != ""
  {
    hide ValueText;
    hide ValueOk;
    if attributes != [] {
      var a := attributes[0];
      assert Fields(attributes)[0].0 == a.name;
      var named := NamedText(a, AttributesText(attributes[1..], tail));
      assert s == a.gap + named && named[0] == a.name[0];
    }
  }

  // ---- Elements ----

  lemma ClosingRead(name: string, end: string, tail: string, node: Node, depth: nat, nodes: nat)
    requires P.IsName(name) && IsBlank(end) && node.name == name
    ensures Children(ClosingText(name, end, tail), node, depth, nodes) == Ok((node, tail, nodes))
  {
    hide Children;
    hide NameLength;
    hide AfterSpace;
    var u := name + (end + (">" + tail));
    var t := "</" + u;
    BlankEnds("", t);
    assert "" + t == t && t[2..] == u;
    SignBehind(end, '>', tail);
    P.NameEnds(name, end + (">" + tail));
    assert u[..|name|] == name && u[|name|..] == end + (">" + tail);
    assert (">" + tail)[1..] == tail;
    ChildrenEnd(t, node, depth, nodes);
  }

  lemma ClosingSpelled(s: string, node: Node) returns (end: string)
    requires "</" <= s && Closed(s, node).Ok?
    ensures IsBlank(end) && s == ClosingText(node.name, end, Closed(s, node).value)
  {
    hide AfterSpace;
    hide NameLength;
    var u := s[2..];
    var n := NameLength(u);
    var w := AfterSpace(u[n..]);
    end := SpaceSpelled(u[n..]);
    assert w == ">" + w[1..] && u == u[..n] + u[n..] && s == "</" + u;
  }

  lemma ElementStarts(e: Markup, tail: string)
    requires TagOk(e.tag)
    ensures var s := ElementText(e, tail);
            && s != "" && s[0] == '<' && AfterSpace(s) == s
            && !("</" <= s) && !("<?" <= s) && !("<!--" <= s) && !("<!DOCTYPE" <= s) && !("<!ENTITY" <= s) && !("<![CDATA[" <= s)
  {
    hide AttributesText;
    hide AttributeOk;
    hide P.NamesOk;
    hide ChildrenText;
    var s := ElementText(e, tail);
    assert s[1] == e.tag.name[0];
    NamesAreNoSpace(s[1]);
    assert !IsSpace(s[0]);
  }

  lemma ChildRead(s: string, node: Node, depth: nat, nodes: nat)
    requires s != "" && s[0] == '<' && AfterSpace(s) == s && !("</" <= s) && !("<!--" <= s) && !("<![CDATA[" <= s)
    requires Element(s, depth + 1, nodes).Ok?
    ensures var (child, rest, count) := Element(s, depth + 1, nodes).value;
            Children(s, node, depth, nodes) == Children(rest, node.(children := node.children + [child]), depth, count)
  {
    hide Element;
    hide Children;
    hide AfterSpace;
    ChildStep(s, node, depth, nodes);
  }

  /** Whatever is spelled well is read for what it means: one element, */
  lemma {:induction false} ElementRead(e: Markup, tail: string, depth: nat, nodes: nat)
    requires ElementOk(e) && depth <= MAX_DEPTH && AtMost(e, MAX_DEPTH - depth) && nodes + Size(e) <= MAX_NODES
    ensures Element(ElementText(e, tail), depth, nodes) == Ok((NodeMeant(e), tail, nodes + Size(e)))
    decreases e, 0
  {
    hide *;
    var node := Node(e.tag.name, P.AttrsOf(map[], Fields(e.tag.attributes)), []);
    ElementInParts(e, tail, MAX_DEPTH - depth);
    if e.Empty? {
      TagRead(e.tag, true, tail, depth, nodes);
    } else {
      var closing := ClosingText(e.tag.name, e.end, tail);
      TagRead(e.tag, false, ChildrenText(e.children, GapText(e.last, closing)), depth, nodes);
      ChildrenRead(e.children, node, GapText(e.last, closing), depth, nodes + 1);
      GapRead(e.last, closing, NodeMeant(e), depth, nodes + Size(e));
      ClosingRead(e.tag.name, e.end, tail, NodeMeant(e), depth, nodes + Size(e));
    }
  }

  lemma ElementInParts(e: Markup, tail: string, levels: nat)
    requires ElementOk(e) && AtMost(e, levels)
    ensures var node := Node(e.tag.name, P.AttrsOf(map[], Fields(e.tag.attributes)), []);
            && TagOk(e.tag) && P.IsName(e.tag.name) && NodeMeant(e).name == e.tag.name
            && (e.Empty? ==> Size(e) == 1 && NodeMeant(e) == node && ElementText(e, tail) == TagText(e.tag, TagEnd(true) + tail))
            && (e.Full? ==>
                  && ChildrenOk(e.children) && GapOk(e.last, false) && IsBlank(e.end) && AllAtMost(e.children, levels)
                  && Size(e) == 1 + Sizes(e.children)
                  && NodeMeant(e) == node.(children := node.children + NodesMeant(e.children))
                  && var rest := ChildrenText(e.children, GapText(e.last, ClosingText(e.tag.name, e.end, tail)));
                     ElementText(e, tail) == TagText(e.tag, TagEnd(false) + rest))
  {
    hide TagText;
    hide P.AttrsOf;
    hide P.NamesOk;
    hide GapText;
    hide GapOk;
    hide IsBlank;
    hide ClosingText;
    hide AttributeOk;
    if e.Full? {
      assert [] + NodesMeant(e.children) == NodesMeant(e.children);
    }
  }

  lemma GapRead(gap: Gap, tail: string, node: Node, depth: nat, nodes: nat)
    requires GapOk(gap, false)
    ensures Children(GapText(gap, tail), node, depth, nodes) == Children(tail, node, depth, nodes)
  {
    GapSkipped(gap.sections, gap.space, tail, node, depth, nodes);
  }

  /** and the children of an element. */
  lemma {:induction false} ChildrenRead(children: seq<Markup>, node: Node, tail: string, depth: nat, nodes: nat)
    requires ChildrenOk(children) && depth <= MAX_DEPTH && AllAtMost(children, MAX_DEPTH - depth)
    requires nodes + Sizes(children) <= MAX_NODES
    ensures Children(ChildrenText(children, tail), node, depth, nodes)
         == Children(tail, node.(children := node.children + NodesMeant(children)), depth, nodes + Sizes(children))
    decreases children, 0
  {
    hide *;
    if children == [] {
      NoneToRead(node, tail);
    } else {
      var e, more := children[0], ChildrenText(children[1..], tail);
      FirstToRead(children, node, tail, MAX_DEPTH - depth);
      GapRead(e.gap, ElementText(e, more), node, depth, nodes);
      DepthLeft(depth);
      ElementRead(e, more, depth + 1, nodes);
      ElementStarts(e, more);
      ChildRead(ElementText(e, more), node, depth, nodes);
      ChildrenRead(children[1..], node.(children := node.children + [NodeMeant(e)]), tail, depth, nodes + Size(e));
    }
  }

  lemma DepthLeft(depth: nat)
    ensures depth <= MAX_DEPTH && MAX_DEPTH - depth > 0 ==> depth + 1 <= MAX_DEPTH && MAX_DEPTH - depth - 1 == MAX_DEPTH - (depth + 1)
  {
  }

  lemma NoneToRead(node: Node, tail: string)
    ensures ChildrenText([], tail) == tail && Sizes([]) == 0 && node.(children := node.children + NodesMeant([])) == node
  {
    assert node.children + [] == node.children;
  }

  lemma FirstToRead(children: seq<Markup>, node: Node, tail: string, levels: nat)
    requires children != [] && ChildrenOk(children) && AllAtMost(children, levels)
    ensures var e := children[0];
            && GapOk(e.gap, false) && ElementOk(e) && TagOk(e.tag) && ChildrenOk(children[1..])
            && levels > 0 && AtMost(e, levels - 1) && AllAtMost(children[1..], levels)
            && Sizes(children) == Size(e) + Sizes(children[1..])
            && ChildrenText(children, tail) == GapText(e.gap, ElementText(e, ChildrenText(children[1..], tail)))
            && node.children + NodesMeant(children) == node.children + [NodeMeant(e)] + NodesMeant(children[1..])
  {
    hide TagOk;
    hide GapOk;
    hide GapText;
    hide ElementText;
    hide NodeMeant;
    hide Size;
    hide AtMost;
    ElementIsTagged(children[0]);
  }

  lemma ElementIsTagged(e: Markup)
    requires ElementOk(e)
    ensures TagOk(e.tag)
  {
  }

  /** Whatever is read was spelled: one element, */
  lemma {:induction false} ElementSpelled(s: string, depth: nat, nodes: nat) returns (e: Markup)
    requires Element(s, depth, nodes).Ok?
    ensures var (node, rest, count) := Element(s, depth, nodes).value;
            && ElementOk(e) && NodeMeant(e) == node && count == nodes + Size(e) && count <= MAX_NODES
            && depth <= MAX_DEPTH && AtMost(e, MAX_DEPTH - depth)
            && e.gap.sections == [] && IsBlank(e.gap.space) && s == e.gap.space + ElementText(e, rest)
    decreases |s|, 0
  {
    hide Element;
    hide Children;
    hide TagOk;
    hide TagText;
    hide P.AttrsOf;
    hide GapText;
    hide GapOk;
    hide IsBlank;
    hide ClosingText;
    var space, tag, closed, rest := TagSpelled(s, depth, nodes);
    if closed {
      e := Empty(Gap([], space), tag);
    } else {
      var node := Node(tag.name, P.AttrsOf(map[], Fields(tag.attributes)), []);
      var children, last, end := ChildrenSpelled(rest, node, depth, nodes + 1);
      e := Full(Gap([], space), tag, children, last, end);
      assert [] + NodesMeant(children) == NodesMeant(children);
    }
  }

  /** and the children of an element. */
  lemma {:induction false} ChildrenSpelled(s: string, node: Node, depth: nat, nodes: nat)
    returns (children: seq<Markup>, last: Gap, end: string)
    requires Children(s, node, depth, nodes).Ok? && depth <= MAX_DEPTH && nodes <= MAX_NODES
    ensures var (got, rest, count) := Children(s, node, depth, nodes).value;
            && ChildrenOk(children) && GapOk(last, false) && IsBlank(end)
            && got == node.(children := node.children + NodesMeant(children))
            && count == nodes + Sizes(children) && count <= MAX_NODES && AllAtMost(children, MAX_DEPTH - depth)
            && s == ChildrenText(children, GapText(last, ClosingText(node.name, end, rest)))
    decreases |s|, 1
  {
    hide *;
    var t := AfterSpace(s);
    var space := SpaceSpelled(s);
    children := [];
    if "</" <= t {
      ChildrenEnd(s, node, depth, nodes);
      end := ClosingSpelled(t, node);
      last := Gap([], space);
      NoChildren(space, node, ClosingText(node.name, end, Closed(t, node).value), MAX_DEPTH - depth);
    } else if "<!--" <= t {
      ChildrenSkip(s, node, depth, nodes);
      var comment := CommentSpelled(s);
      var more, gap;
      more, gap, end := ChildrenSpelled(Behind(t[4..], "-->").value, node, depth, nodes);
      children, last := CommentAhead(comment, more, gap, node, end, Children(s, node, depth, nodes).value.1, MAX_DEPTH - depth);
    } else {
      ChildStep(s, node, depth, nodes);
      SameElement(s, depth + 1, nodes);
      var e := ElementSpelled(s, depth + 1, nodes);
      var (child, rest, count) := Element(s, depth + 1, nodes).value;
      var more;
      more, last, end := ChildrenSpelled(rest, node.(children := node.children + [child]), depth, count);
      children := [e] + more;
      ChildAhead(e, more, node, GapText(last, ClosingText(node.name, end, Children(s, node, depth, nodes).value.1)),
                 MAX_DEPTH - depth);
    }
  }

  lemma CommentSpelled(s: string) returns (comment: Section)
    requires "<!--" <= AfterSpace(s) && Behind(AfterSpace(s)[4..], "-->").Ok?
    ensures SectionOk(comment, false) && s == SectionText(comment, Behind(AfterSpace(s)[4..], "-->").value)
  {
    hide AfterSpace;
    hide Behind;
    hide IsBlank;
    hide Within;
    var t := AfterSpace(s);
    var space := SpaceSpelled(s);
    var text := TokenSpelled(t[4..], "-->");
    comment := Comment(space, text);
    assert t == "<!--" + t[4..];
  }

  lemma SameElement(s: string, depth: nat, nodes: nat)
    ensures Element(s, depth, nodes) == Element(AfterSpace(s), depth, nodes)
  {
    hide Attributes;
    hide Children;
    hide NameLength;
    assert AfterSpace(AfterSpace(s)) == AfterSpace(s);
  }

  lemma NoChildren(space: string, node: Node, tail: string, levels: nat)
    requires IsBlank(space)
    ensures ChildrenOk([]) && GapOk(Gap([], space), false) && Sizes([]) == 0 && AllAtMost([], levels)
    ensures node.(children := node.children + NodesMeant([])) == node
    ensures ChildrenText([], GapText(Gap([], space), tail)) == space + tail
  {
    assert node.children + [] == node.children;
  }

  lemma ChildAhead(e: Markup, more: seq<Markup>, node: Node, tail: string, levels: nat)
    requires e.gap.sections == [] && IsBlank(e.gap.space) && ElementOk(e) && ChildrenOk(more)
    requires levels > 0 && AtMost(e, levels - 1) && AllAtMost(more, levels)
    ensures var all := [e] + more;
            && ChildrenOk(all) && Sizes(all) == Size(e) + Sizes(more) && AllAtMost(all, levels)
            && node.children + NodesMeant(all) == node.children + [NodeMeant(e)] + NodesMeant(more)
            && ChildrenText(all, tail) == e.gap.space + ElementText(e, ChildrenText(more, tail))
  {
    hide ElementText;
    hide ElementOk;
    hide NodeMeant;
    hide AtMost;
    hide Size;
    hide IsBlank;
    assert ([e] + more)[1..] == more;
  }

  /** A comment goes with what follows it: the first child, or the closing tag. */
  lemma CommentAhead(comment: Section, more: seq<Markup>, gap: Gap, node: Node, end: string, rest: string, levels: nat)
    returns (children: seq<Markup>, last: Gap)
    requires SectionOk(comment, false) && ChildrenOk(more) && GapOk(gap, false) && AllAtMost(more, levels)
    ensures ChildrenOk(children) && GapOk(last, false) && AllAtMost(children, levels)
    ensures NodesMeant(children) == NodesMeant(more) && Sizes(children) == Sizes(more)
    ensures ChildrenText(children, GapText(last, ClosingText(node.name, end, rest)))
         == SectionText(comment, ChildrenText(more, GapText(gap, ClosingText(node.name, end, rest))))
  {
    hide GapText;
    hide GapOk;
    hide TagOk;
    hide TagText;
    hide SectionOk;
    hide SectionText;
    hide ClosingText;
    if more == [] {
      children, last := [], Longest(comment, gap);
    } else {
      var e := more[0].(gap := Longest(comment, more[0].gap));
      children, last := [e] + more[1..], gap;
      assert children[1..] == more[1..];
    }
  }

  // ---- Documents ----

  /** At most 4 MiB, 16 levels below the root, and 200,000 elements. */
  predicate Moderate(d: Document)
  {
    |DocumentText(d)| <= 4_194_304 && AtMost(d.root, 16) && Size(d.root) <= 200_000
  }

  /** Every well-spelled document of moderate size is read for what it means. */
  lemma EveryDocumentReads(d: Document)
    requires DocumentOk(d) && Moderate(d)
    ensures Parsed(DocumentText(d)) == Ok(NodeMeant(d.root))
  {
    hide *;
    var end := GapText(d.last, "");
    var body := GapText(d.root.gap, ElementText(d.root, end));
    MarkSkipped(d);
    DocumentParts(d);
    MiscRead(d.root.gap, ElementText(d.root, end));
    ElementStarts(d.root, end);
    RootReached(ElementText(d.root, end));
    ElementRead(d.root, end, 0, 0);
    MiscRead(d.last, "");
    NothingLeft();
    ParsedInTurn(DocumentText(d), body, ElementText(d.root, end), NodeMeant(d.root), end, Size(d.root));
  }

  lemma DocumentParts(d: Document)
    requires DocumentOk(d) && Moderate(d)
    ensures GapOk(d.root.gap, true) && ElementOk(d.root) && TagOk(d.root.tag) && GapOk(d.last, true)
    ensures |DocumentText(d)| <= MAX_TEXT && AtMost(d.root, MAX_DEPTH - 0) && 0 + Size(d.root) <= MAX_NODES && 0 <= MAX_DEPTH
  {
    ElementIsTagged(d.root);
  }

  function Unmarked(text: string): (s: string) { if MARK <= text then text[3..] else text }

  lemma MarkSkipped(d: Document)
    requires DocumentOk(d)
    ensures Unmarked(DocumentText(d)) == GapText(d.root.gap, ElementText(d.root, GapText(d.last, "")))
  {
    hide SectionOk;
    hide ElementOk;
    var body := GapText(d.root.gap, ElementText(d.root, GapText(d.last, "")));
    assert MARK == "\U{ef}\U{bb}\U{bf}";
    if d.mark {
      assert (MARK + body)[3..] == body;
    } else {
      NoMark(d.root.gap, d.root, GapText(d.last, ""));
    }
  }

  lemma NoMark(gap: Gap, e: Markup, tail: string)
    requires GapOk(gap, true)
    ensures !(MARK <= GapText(gap, ElementText(e, tail)))
  {
    hide ChildrenText;
    hide AttributesText;
    hide IsBlank;
    hide Within;
    var last := ElementText(e, tail);
    if gap.sections == [] {
      StartsPlain(gap.space, last);
    } else {
      var section, more := gap.sections[0], SectionsText(gap.sections[1..], gap.space + last);
      match section
      case Comment(space, text) => StartsPlain(space, "<!--" + (text + ("-->" + more)));
      case Instruction(space, text) => StartsPlain(space, "<?" + (text + ("?>" + more)));
    }
  }

  lemma StartsPlain(space: string, tail: string)
    requires IsBlank(space) && tail != "" && tail[0] == '<'
    ensures !(MARK <= space + tail)
  {
    assert space != "" ==> space[0] in " \t\n\U{0b}\U{0c}\r";
    assert (space + tail)[0] != '\U{ef}';
  }

  lemma MiscRead(gap: Gap, tail: string)
    requires GapOk(gap, true)
    ensures AfterMisc(GapText(gap, tail)) == AfterMisc(tail)
  {
    MiscSkipped(gap.sections, gap.space, tail);
  }

  lemma RootReached(s: string)
    requires AfterSpace(s) == s && !("<?" <= s) && !("<!--" <= s) && !("<!DOCTYPE" <= s) && !("<!ENTITY" <= s)
    ensures AfterMisc(s) == Ok(s)
  {
    hide AfterMisc;
    hide AfterSpace;
    MiscEnds(s, s);
  }

  lemma NothingLeft()
    ensures AfterMisc("") == Ok("") && AfterSpace("") == ""
  {
    MiscEnds("", "");
  }

  /** The four steps of reading a document. */
  lemma ParsedInTurn(text: string, body: string, start: string, root: Node, rest: string, count: nat)
    requires |text| <= MAX_TEXT && body == Unmarked(text) && AfterMisc(body) == Ok(start)
    requires Element(start, 0, 0) == Ok((root, rest, count)) && AfterMisc(rest) == Ok("")
    ensures Parsed(text) == Ok(root)
  {
    hide AfterMisc;
    hide Element;
  }

  /** And whatever document is read was spelled well, is of moderate size, and means what was read. */
  lemma ReadDocumentIsSpelled(text: string) returns (d: Document)
    requires Parsed(text).Ok?
    ensures DocumentOk(d) && Moderate(d) && DocumentText(d) == text && Parsed(text) == Ok(NodeMeant(d.root))
  {
    hide AfterMisc;
    hide AfterSpace;
    hide Element;
    hide GapOk;
    hide GapText;
    hide ElementOk;
    hide ElementText;
    hide AtMost;
    hide IsBlank;
    hide NodeMeant;
    hide Size;
    var body := Unmarked(text);
    var start := AfterMisc(body).value;
    var (root, rest, count) := Element(start, 0, 0).value;
    var gap := MiscSpelled(body);
    var e := ElementSpelled(start, 0, 0);
    var end := AfterMisc(rest).value;
    var last := MiscSpelled(rest);
    var joined := Joined(gap, e.gap.space, ElementText(e, rest));
    SpacedElement(e, joined, rest);
    d := Document(MARK <= text, e.(gap := joined), last);
    assert MARK <= text ==> text == MARK + text[3..];
  }

  /** White space behind a gap belongs to it. */
  lemma Joined(gap: Gap, space: string, tail: string) returns (r: Gap)
    requires GapOk(gap, true) && IsBlank(space)
    ensures GapOk(r, true) && GapText(r, tail) == GapText(gap, space + tail)
  {
    hide SectionsText;
    hide SectionOk;
    r := Gap(gap.sections, gap.space + space);
    assert gap.space + (space + tail) == r.space + tail;
  }

  lemma SpacedElement(e: Markup, gap: Gap, tail: string)
    ensures var e' := e.(gap := gap);
            && ElementText(e', tail) == ElementText(e, tail) && NodeMeant(e') == NodeMeant(e) && Size(e') == Size(e)
            && (ElementOk(e) ==> ElementOk(e')) && forall levels: nat :: AtMost(e, levels) ==> AtMost(e', levels)
  {
    hide ChildrenText;
    hide NodesMeant;
    hide Sizes;
    hide AllAtMost;
    hide ChildrenOk;
    hide TagOk;
  }
}
