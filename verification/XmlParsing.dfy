/** The XML parser of config.cpp as it is: a text, a cursor and a count of nodes. */
module XmlParsing {
  import opened Bytes
  import opened Utf8
  import opened XmlText
  import opened Xml

  /** Whether a token stands at a position. */
  predicate IsAt(text: string, at: nat, token: string)
    requires at <= |text|
    ensures IsAt(text, at, token) <==> token <= text[at..]
  {
    assert at + |token| <= |text| ==> text[at..at + |token|] == text[at..][..|token|];
    at + |token| <= |text| && text[at..at + |token|] == token
  }

  /** A section that opens and closes with tokens is skipped. */
  lemma MiscSection(s: string, t: string, open: string, close: string)
    requires t == AfterSpace(s) && open <= t
    requires (open == "<?" && close == "?>") || (open == "<!--" && close == "-->" && !("<?" <= t))
    ensures AfterMisc(s) == match Behind(t[|open|..], close) { case Ok(u) => AfterMisc(u) case Err(code) => Err(code) }
  {
    hide Behind;
    hide AfterSpace;
  }

  lemma MiscEnds(s: string, t: string)
    requires t == AfterSpace(s) && !("<?" <= t) && !("<!--" <= t)
    ensures AfterMisc(s) == if "<!DOCTYPE" <= t || "<!ENTITY" <= t then Err(BAD_XML) else Ok(t)
  {
    hide AfterSpace;
  }

  lemma AfterSpaceTwice(s: string)
    ensures AfterMisc(AfterSpace(s)) == AfterMisc(s)
  {
    assert AfterSpace(AfterSpace(s)) == AfterSpace(s);
  }

  class XmlParser {
    const text: string
    var pos: nat
    var nodes: nat

    constructor (text: string)
      ensures this.text == text && pos == 0 && nodes == 0
    {
      this.text, pos, nodes := text, 0, 0;
    }

    ghost predicate Valid()
      reads this
    {
      pos <= |text|
    }

    /** The text still ahead. */
    ghost function Ahead(): (s: string)
      reads this
      requires Valid()
    {
      text[pos..]
    }

    predicate Starts(token: string)
      reads this
      requires Valid()
      ensures Starts(token) <==> token <= Ahead()
    {
      IsAt(text, pos, token)
    }

    method SkipWs()
      requires Valid()
      modifies this`pos
      ensures Valid() && Ahead() == AfterSpace(old(Ahead())) && pos >= old(pos)
    {
      while pos < |text| && IsSpace(text[pos])
        invariant Valid() && AfterSpace(Ahead()) == AfterSpace(old(Ahead())) && pos >= old(pos)
      {
        assert text[pos..][1..] == text[pos + 1..];
        pos := pos + 1;
      }
    }

    method SkipUntil(token: string) returns (r: Result<()>)
      requires Valid()
      modifies this`pos
      ensures Valid() && (r.Ok? ==> pos >= old(pos) + |token|)
      ensures match Behind(old(Ahead()), token)
              case Ok(rest) => r == Ok(()) && Ahead() == rest
              case Err(code) => r == Err(code)
    {
      var end := pos;
      while !IsAt(text, end, token)
        invariant pos == old(pos) <= end <= |text|
        invariant Behind(text[end..], token) == Behind(old(Ahead()), token)
        decreases |text| - end
      {
        if end == |text| {
          return Err(BAD_XML);
        }
        assert text[end..][1..] == text[end + 1..];
        end := end + 1;
      }
      assert text[end..][|token|..] == text[end + |token|..];
      pos := end + |token|;
      return Ok(());
    }

    method SkipMisc() returns (r: Result<()>)
      requires Valid()
      modifies this`pos
      ensures Valid()
      ensures match AfterMisc(old(Ahead()))
              case Ok(rest) => r == Ok(()) && Ahead() == rest
              case Err(code) => r == Err(code)
    {
      hide AfterMisc;
      hide AfterSpace;
      hide Behind;
      while true
        invariant Valid() && AfterMisc(Ahead()) == AfterMisc(old(Ahead()))
        decreases |text| - pos
      {
        ghost var s := Ahead();
        SkipWs();
        AfterSpaceTwice(s);
        var question, comment := Starts("<?"), Starts("<!--");
        if question {
          MiscSection(s, Ahead(), "<?", "?>");
          r := SkipSection("<?", "?>");
          if r.Err? {
            return;
          }
        } else if comment {
          MiscSection(s, Ahead(), "<!--", "-->");
          r := SkipSection("<!--", "-->");
          if r.Err? {
            return;
          }
        } else {
          MiscEnds(s, Ahead());
          return if Starts("<!DOCTYPE") || Starts("<!ENTITY") then Err(BAD_XML) else Ok(());
        }
      }
    }

    /** Moves over an opening token that is there, and behind the closing one. */
    method SkipSection(open: string, close: string) returns (r: Result<()>)
      requires Valid() && open <= Ahead()
      modifies this`pos
      ensures Valid() && (r.Ok? ==> pos >= old(pos) + |open| + |close|)
      ensures match Behind(old(Ahead())[|open|..], close)
              case Ok(rest) => r == Ok(()) && Ahead() == rest
              case Err(code) => r == Err(code)
    {
      assert Ahead()[|open|..] == text[pos + |open|..];
      pos := pos + |open|;
      r := SkipUntil(close);
    }

    method Name() returns (r: Result<string>)
      requires Valid()
      modifies this`pos
      ensures Valid()
      ensures var n := NameLength(old(Ahead()));
              r == (if n == 0 then Err(BAD_XML) else Ok(old(Ahead())[..n])) && Ahead() == old(Ahead())[n..]
    {
      var begin := pos;
      while pos < |text| && IsNameChar(text[pos])
        invariant begin <= pos && Valid()
        invariant NameLength(text[begin..]) == pos - begin + NameLength(text[pos..])
      {
        assert text[pos..][1..] == text[pos + 1..];
        pos := pos + 1;
      }
      assert text[begin..][..pos - begin] == text[begin..pos];
      assert text[begin..][pos - begin..] == text[pos..];
      return if begin == pos then Err(BAD_XML) else Ok(text[begin..pos]);
    }

    /** A quoted attribute value. */
    method QuotedValue() returns (r: Result<string>)
      requires Valid()
      modifies this`pos
      ensures Valid()
      ensures match Quoted(old(Ahead()))
              case Ok((value, rest)) => r == Ok(value) && Ahead() == rest
              case Err(code) => r == Err(code)
    {
      hide QuotedFrom;
      hide PieceOf;
      hide Longer;
      if pos >= |text| || (text[pos] != '"' && text[pos] != '\'') {
        return Err(BAD_XML);
      }
      var quote := text[pos];
      assert Ahead()[1..] == text[pos + 1..];
      pos := pos + 1;
      ghost var start := Ahead();
      var out := "";
      LongerByNothing(QuotedFrom(start, quote));
      while pos < |text| && text[pos] != quote
        invariant Valid() && Longer(out, QuotedFrom(Ahead(), quote)) == QuotedFrom(start, quote)
        decreases |text| - pos
      {
        QuotedStep(Ahead(), quote, out);
        var piece := NextPiece();
        if piece.Err? {
          return Err(piece.code);
        }
        out := out + piece.value;
      }
      QuotedEnds(text, pos, quote, out);
      if pos >= |text| {
        return Err(BAD_XML);
      }
      pos := pos + 1;
      return Ok(out);
    }

    /** One entity or one other character. */
    method NextPiece() returns (r: Result<string>)
      requires Valid() && pos < |text|
      modifies this`pos
      ensures Valid() && (r.Ok? ==> pos > old(pos))
      ensures match PieceOf(old(Ahead()))
              case Ok((piece, rest)) => r == Ok(piece) && Ahead() == rest
              case Err(code) => r == Err(code)
    {
      hide EntityOf;
      hide Find;
      ghost var s := Ahead();
      assert s[1..] == text[pos + 1..];
      if text[pos] == '&' {
        var end := Find(text[pos + 1..], ';');
        if end.None? {
          return Err(BAD_XML);
        }
        assert s[1..end.value + 1] == text[pos + 1..pos + 1 + end.value];
        assert s[end.value + 2..] == text[pos + end.value + 2..];
        r := DecodeEntity(text[pos + 1..pos + 1 + end.value]);
        if r.Ok? {
          pos := pos + end.value + 2;
        }
      } else if IsControl(text[pos]) {
        return Err(BAD_XML);
      } else {
        pos := pos + 1;
        return Ok([text[pos - 1]]);
      }
    }

    /** The attributes of a start tag, up to its end. */
    method ParseAttributes() returns (r: Result<(Attrs, bool)>)
      requires Valid()
      modifies this`pos
      ensures Valid()
      ensures match Attributes(old(Ahead()), map[])
              case Ok((attrs, closed, rest)) => r == Ok((attrs, closed)) && Ahead() == rest
              case Err(code) => r == Err(code)
    {
      hide Attributes;
      hide AfterSpace;
      hide NameLength;
      hide Quoted;
      var attrs: Attrs := map[];
      while true
        invariant Valid() && Attributes(Ahead(), attrs) == Attributes(old(Ahead()), map[])
        decreases |text| - pos
      {
        ghost var s := Ahead();
        SkipWs();
        var t := text[pos..];
        var closed := Starts("/>");
        if closed {
          TagCloses(s, attrs);
          assert t[2..] == text[pos + 2..];
          pos := pos + 2;
          return Ok((attrs, true));
        }
        if pos < |text| && text[pos] == '>' {
          TagOpens(s, attrs);
          assert t[1..] == text[pos + 1..];
          pos := pos + 1;
          return Ok((attrs, false));
        }
        AttributeStep(s, attrs);
        var attribute := ParseAttribute();
        if attribute.Err? {
          return Err(attribute.code);
        }
        var (key, value) := attribute.value;
        if key in attrs {
          return Err(BAD_XML);
        }
        attrs := attrs[key := value];
      }
    }

    method ParseAttribute() returns (r: Result<(string, string)>)
      requires Valid()
      modifies this`pos
      ensures Valid() && (r.Ok? ==> pos > old(pos))
      ensures match AttributeOf(old(Ahead()))
              case Ok((key, value, rest)) => r == Ok((key, value)) && Ahead() == rest
              case Err(code) => r == Err(code)
    {
      hide AfterSpace;
      hide NameLength;
      hide Quoted;
      ghost var t := Ahead();
      var key := Name();
      if key.Err? {
        return Err(BAD_XML);
      }
      SkipWs();
      if pos >= |text| || text[pos] != '=' {
        return Err(BAD_XML);
      }
      assert Ahead()[1..] == text[pos + 1..];
      pos := pos + 1;
      SkipWs();
      var value := QuotedValue();
      if value.Err? {
        return Err(value.code);
      }
      return Ok((key.value, value.value));
    }

    /** An element: the recursion of the parser. On success the cursor is behind it and the count up to date. */
    method ParseElement(depth: nat) returns (r: Result<Node>)
      requires Valid()
      modifies this`pos, this`nodes
      ensures Valid()
      ensures match Element(old(Ahead()), depth, old(nodes))
              case Ok((node, rest, count)) => r == Ok(node) && Ahead() == rest && nodes == count && pos > old(pos)
              case Err(code) => r == Err(code)
      decreases |text| - pos, 0
    {
      hide Attributes;
      hide AfterSpace;
      hide NameLength;
      hide Children;
      if depth > MAX_DEPTH {
        return Err(XML_LIMIT);
      }
      nodes := nodes + 1;
      if nodes > MAX_NODES {
        return Err(XML_LIMIT);
      }
      SkipWs();
      var closing := Starts("</");
      if pos >= |text| || text[pos] != '<' || closing {
        return Err(BAD_XML);
      }
      assert Ahead()[1..] == text[pos + 1..];
      pos := pos + 1;
      var name := Name();
      if name.Err? {
        return Err(BAD_XML);
      }
      var attributes := ParseAttributes();
      if attributes.Err? {
        return Err(attributes.code);
      }
      var (attrs, closed) := attributes.value;
      if closed {
        return Ok(Node(name.value, attrs, []));
      }
      r := ParseChildren(Node(name.value, attrs, []), depth);
    }

    method ParseChildren(start: Node, depth: nat) returns (r: Result<Node>)
      requires Valid()
      modifies this`pos, this`nodes
      ensures Valid()
      ensures match Children(old(Ahead()), start, depth, old(nodes))
              case Ok((node, rest, count)) => r == Ok(node) && Ahead() == rest && nodes == count && pos > old(pos)
              case Err(code) => r == Err(code)
      decreases |text| - pos, 1
    {
      hide Children;
      hide Element;
      hide AfterSpace;
      hide NameLength;
      hide Behind;
      var node := start;
      while true
        invariant Valid() && pos >= old(pos)
        invariant Children(Ahead(), node, depth, nodes) == Children(old(Ahead()), start, depth, old(nodes))
        decreases |text| - pos
      {
        ghost var s := Ahead();
        SkipWs();
        var closing, comment, section := Starts("</"), Starts("<!--"), Starts("<![CDATA[");
        if closing {
          ChildrenEnd(s, node, depth, nodes);
          r := CloseElement(node);
          return;
        }
        if comment {
          ChildrenSkip(s, node, depth, nodes);
          var skipped := SkipSection("<!--", "-->");
          if skipped.Err? {
            return Err(skipped.code);
          }
          continue;
        }
        ChildStep(s, node, depth, nodes);
        if section || pos == |text| || text[pos] != '<' {
          return Err(BAD_XML);
        }
        var child := ParseElement(depth + 1);
        if child.Err? {
          return Err(child.code);
        }
        node := node.(children := node.children + [child.value]);
      }
    }

    /** The closing tag of an element. */
    method CloseElement(node: Node) returns (r: Result<Node>)
      requires Valid() && "</" <= Ahead()
      modifies this`pos
      ensures Valid()
      ensures match Closed(old(Ahead()), node)
              case Ok(rest) => r == Ok(node) && Ahead() == rest && pos > old(pos)
              case Err(code) => r == Err(code)
    {
      hide AfterSpace;
      hide NameLength;
      assert Ahead()[2..] == text[pos + 2..];
      pos := pos + 2;
      var close := Name();
      if close.Err? {
        return Err(BAD_XML);
      }
      SkipWs();
      if pos >= |text| || text[pos] != '>' {
        return Err(BAD_XML);
      }
      assert Ahead()[1..] == text[pos + 1..];
      pos := pos + 1;
      return if close.value != node.name then Err(BAD_XML) else Ok(node);
    }

    /** A whole document. */
    method Parse() returns (r: Result<Node>)
      requires pos == 0 && nodes == 0
      modifies this
      ensures r == Parsed(text)
    {
      hide AfterMisc;
      hide AfterSpace;
      hide Element;
      assert text[0..] == text;
      if |text| > Xml.MAX_TEXT {
        return Err("CONFIG_IO");
      }
      if IsAt(text, 0, MARK) {
        pos := 3;
      }
      var start := SkipMisc();
      if start.Err? {
        return Err(start.code);
      }
      var root := ParseElement(0);
      if root.Err? {
        return Err(root.code);
      }
      var end := SkipMisc();
      if end.Err? {
        return Err(end.code);
      }
      SkipWs();
      if pos != |text| {
        return Err(BAD_XML);
      }
      return root;
    }
  }

  /** One attribute and what is behind it. */
  function AttributeOf(t: string): (r: Result<(string, string, string)>)
    ensures r.Ok? ==> |r.value.2| < |t|
  {
    var n := NameLength(t);
    var u := AfterSpace(t[n..]);
    if n == 0 || u == "" || u[0] != '=' then Err(BAD_XML)
    else
      var (value, rest) :- Quoted(AfterSpace(u[1..]));
      Ok((t[..n], value, rest))
  }

  lemma TagCloses(s: string, attrs: Attrs)
    requires "/>" <= AfterSpace(s)
    ensures Attributes(s, attrs) == Ok((attrs, true, AfterSpace(s)[2..]))
  {
  }

  lemma TagOpens(s: string, attrs: Attrs)
    requires AfterSpace(s) != "" && AfterSpace(s)[0] == '>'
    ensures Attributes(s, attrs) == Ok((attrs, false, AfterSpace(s)[1..]))
  {
  }

  lemma AttributeStep(s: string, attrs: Attrs)
    requires !("/>" <= AfterSpace(s)) && (AfterSpace(s) != "" ==> AfterSpace(s)[0] != '>')
    ensures Attributes(s, attrs) ==
            match AttributeOf(AfterSpace(s))
            case Err(code) => Err(code)
            case Ok((key, value, rest)) => if key in attrs then Err(BAD_XML) else Attributes(rest, attrs[key := value])
  {
    hide AfterSpace;
    hide NameLength;
    hide Quoted;
  }

  /** The first entity or other character of a quoted value, and what is behind it. */
  function PieceOf(s: string): (r: Result<(string, string)>)
    requires s != ""
    ensures r.Ok? ==> |r.value.1| < |s|
  {
    if s[0] == '&' then
      match Find(s[1..], ';')
      case None => Err(BAD_XML)
      case Some(k) =>
        var text :- EntityOf(s[1..k + 1]);
        Ok((text, s[k + 2..]))
    else if IsControl(s[0]) then Err(BAD_XML)
    else Ok(([s[0]], s[1..]))
  }

  lemma LongerByNothing(r: Result<(string, string)>)
    ensures Longer("", r) == r
  {
    if r.Ok? {
      assert "" + r.value.0 == r.value.0;
    }
  }

  lemma LongerAgain(a: string, b: string, r: Result<(string, string)>)
    ensures Longer(a, Longer(b, r)) == Longer(a + b, r)
  {
    if r.Ok? {
      assert a + (b + r.value.0) == (a + b) + r.value.0;
    }
  }

  /** One round of reading a quoted value, on top of what was read. */
  lemma QuotedStep(s: string, quote: char, out: string)
    requires s != "" && s[0] != quote
    ensures PieceOf(s).Err? ==> Longer(out, QuotedFrom(s, quote)) == Err(PieceOf(s).code)
    ensures PieceOf(s).Ok? ==>
              Longer(out, QuotedFrom(s, quote)) == Longer(out + PieceOf(s).value.0, QuotedFrom(PieceOf(s).value.1, quote))
  {
    hide EntityOf;
    hide Find;
    if PieceOf(s).Ok? {
      var (piece, rest) := PieceOf(s).value;
      LongerAgain(out, piece, QuotedFrom(rest, quote));
    }
  }

  lemma QuotedEnds(text: string, pos: nat, quote: char, out: string)
    requires pos <= |text| && (pos < |text| ==> text[pos] == quote)
    ensures Longer(out, QuotedFrom(text[pos..], quote)) == if pos == |text| then Err(BAD_XML) else Ok((out, text[pos + 1..]))
  {
    if pos < |text| {
      assert text[pos..][1..] == text[pos + 1..];
      assert out + "" == out;
    }
  }

  /** What is behind the closing tag of an element. */
  function Closed(t: string, node: Node): (r: Result<string>)
    requires "</" <= t
    ensures r.Ok? ==> |r.value| < |t|
  {
    var u := t[2..];
    var n := NameLength(u);
    var w := AfterSpace(u[n..]);
    if n == 0 || w == "" || w[0] != '>' || u[..n] != node.name then Err(BAD_XML) else Ok(w[1..])
  }

  lemma ChildrenEnd(s: string, node: Node, depth: nat, nodes: nat)
    requires "</" <= AfterSpace(s)
    ensures Children(s, node, depth, nodes) ==
            match Closed(AfterSpace(s), node) { case Err(code) => Err(code) case Ok(rest) => Ok((node, rest, nodes)) }
  {
    hide AfterSpace;
    hide NameLength;
  }

  lemma ChildrenSkip(s: string, node: Node, depth: nat, nodes: nat)
    requires !("</" <= AfterSpace(s)) && "<!--" <= AfterSpace(s)
    ensures var skipped := Behind(AfterSpace(s)[4..], "-->");
            && (skipped.Err? ==> Children(s, node, depth, nodes) == Err(skipped.code))
            && (skipped.Ok? ==> Children(s, node, depth, nodes) == Children(skipped.value, node, depth, nodes))
  {
    hide AfterSpace;
    hide Behind;
  }

  lemma ChildStep(s: string, node: Node, depth: nat, nodes: nat)
    requires !("</" <= AfterSpace(s)) && !("<!--" <= AfterSpace(s))
    ensures var t := AfterSpace(s);
            && ("<![CDATA[" <= t || t == "" || t[0] != '<' ==> Children(s, node, depth, nodes) == Err(BAD_XML))
            && (!("<![CDATA[" <= t) && t != "" && t[0] == '<' ==>
                  var child := Element(t, depth + 1, nodes);
                  && (child.Err? ==> Children(s, node, depth, nodes) == Err(child.code))
                  && (child.Ok? ==>
                        Children(s, node, depth, nodes) ==
                        Children(child.value.1, node.(children := node.children + [child.value.0]), depth, child.value.2)))
  {
    hide AfterSpace;
    hide Element;
  }
}
