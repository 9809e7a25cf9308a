/** Whole documents as `serialize_config` in config.cpp writes them: their size, and that they are read back. */
module XmlDocument {
  import opened Bytes
  import opened Utf8
  import opened XmlText
  import opened Xml
  import opened XmlParsing
  import opened XmlPrinting

  const DECLARATION := "xml version=\"1.0\" encoding=\"UTF-8\""

  const NODE_SIZE := 21

  // ---- How many elements fit a text ----

  /** The characters an element needs beyond the values of its attributes. */
  predicate Ample(t: Tree, indent: nat)
    decreases t, 0
  {
    match t
    case Leaf(name, fields) => indent + |name| + 5 * |fields| + 4 >= NODE_SIZE
    case Branch(name, fields, children) =>
      2 * indent + 2 * |name| + 5 * |fields| + 7 >= NODE_SIZE && AllAmple(children, indent + 2)
  }

  predicate AllAmple(trees: seq<Tree>, indent: nat)
    decreases trees, 0
  {
    trees == [] || (Ample(trees[0], indent) && AllAmple(trees[1..], indent))
  }

  lemma {:induction false} FieldsAreLong(fields: seq<Field>, attrs: Attrs)
    requires FieldsText(fields).Ok? && NamesOk(attrs, fields)
    ensures |FieldsText(fields).value| >= 5 * |fields|
    decreases |fields|
  {
    hide Escaped;
    if fields != [] {
      FieldsAreLong(fields[1..], attrs[fields[0].0 := fields[0].1]);
    }
  }

  lemma {:induction false} CoreIsLong(t: Tree, indent: string, levels: nat)
    requires Core(t, indent).Ok? && TreeOk(t, levels) && Ample(t, |indent|)
    ensures |indent| + |Core(t, indent).value| + 1 >= NODE_SIZE * Count(t)
    decreases t, 0
  {
    hide FieldsText;
    hide NamesOk;
    FieldsAreLong(t.fields, map[]);
    if t.Branch? {
      LinesAreLong(t.children, indent + "  ", levels - 1);
    }
  }

  lemma {:induction false} LinesAreLong(trees: seq<Tree>, indent: string, levels: nat)
    requires Lines(trees, indent).Ok? && TreesOk(trees, levels) && AllAmple(trees, |indent|)
    ensures |Lines(trees, indent).value| >= NODE_SIZE * CountAll(trees)
    decreases trees, 0
  {
    hide Core;
    hide TreeOk;
    hide Ample;
    hide Count;
    if trees != [] {
      CoreIsLong(trees[0], indent, levels);
      LinesAreLong(trees[1..], indent, levels);
    }
  }

  // ---- Documents ----

  function DocumentText(t: Tree): (r: Result<string>)
  {
    var core :- Core(t, "");
    Ok("<?" + DECLARATION + "?>\n" + (core + "\n"))
  }

  lemma {:induction false} BehindQuestion(front: string, rest: string)
    requires '?' !in front
    ensures Behind(front + "?>" + rest, "?>") == Ok(rest)
  {
    var s := front + "?>" + rest;
    if front == "" {
      assert s == "?>" + rest;
      assert s[..2] == "?>" && s[2..] == rest;
    } else {
      assert s[0] == front[0] && front[0] in front;
      assert s[1..] == front[1..] + "?>" + rest;
      BehindQuestion(front[1..], rest);
    }
  }

  /** An instruction on a line of its own is skipped. */
  lemma InstructionSkipped(front: string, rest: string)
    requires '?' !in front
    requires rest != "" && rest[0] == '<' && !("<?" <= rest) && !("<!" <= rest)
    ensures AfterMisc("<?" + front + "?>\n" + rest) == Ok(rest)
  {
    hide AfterMisc;
    hide Behind;
    var s := "<?" + front + "?>\n" + rest;
    NoSpace(s);
    assert s[2..] == front + "?>" + ("\n" + rest);
    BehindQuestion(front, "\n" + rest);
    MiscSection(s, s, "<?", "?>");
    SkipLineEnd(rest);
    NoSpace(rest);
    MiscEnds("\n" + rest, rest);
  }

  lemma EndSkipped()
    ensures AfterMisc("\n") == Ok("") && AfterSpace("") == ""
  {
    assert "\n" + "" == "\n";
    SkipLineEnd("");
    MiscEnds("\n", "");
  }

  lemma DeclarationIsPlain()
    ensures '?' !in DECLARATION
  {
  }

  /**
   Whatever document is printed is read back as the tree it was printed from, if it is not longer than a configuration may
   be. The limit on the number of elements is never met within that size.
   */
  lemma DocumentReads(t: Tree)
    requires DocumentText(t).Ok? && |DocumentText(t).value| <= MAX_TEXT
    requires TreeOk(t, MAX_DEPTH) && Ample(t, 0)
    ensures Parsed(DocumentText(t).value) == Ok(NodeOf(t)) && Count(t) <= MAX_NODES
  {
    hide Core;
    hide Element;
    hide AfterMisc;
    hide Ample;
    hide Count;
    hide NodeOf;
    hide TreeOk;
    var core := Core(t, "").value;
    CoreIsLong(t, "", MAX_DEPTH);
    StartsNamed(t, "\n");
    DeclarationIsPlain();
    InstructionSkipped(DECLARATION, core + "\n");
    CoreReads(t, "", "\n", 0, 0);
    EndSkipped();
    assert DocumentText(t).value[0] == '<';
  }

  lemma StartsNamed(t: Tree, rest: string)
    requires Core(t, "").Ok? && TreeOk(t, MAX_DEPTH)
    ensures var s := Core(t, "").value + rest;
            s != "" && s[0] == '<' && !("<?" <= s) && !("<!" <= s)
  {
    hide Lines;
    hide FieldsText;
    hide NamesOk;
    var s := Core(t, "").value + rest;
    assert s[0] == '<' && s[1] == t.name[0] && IsNameChar(s[1]);
  }
}
