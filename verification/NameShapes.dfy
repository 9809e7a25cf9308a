/** Which texts are names, and what they become, by their labels: `normalize_ascii_name` of rules.cpp from the outside. */
module NameShapes {
  import opened Bytes
  import opened HostName

  // ---- Labels ----

  /** Labels with dots between them. */
  function WithDots(labels: seq<string>): (s: string)
    requires labels != []
  {
    if |labels| == 1 then labels[0] else labels[0] + "." + WithDots(labels[1..])
  }

  /** Upper-case letters become lower-case ones. */
  function Small(c: char): (r: char)
  {
    if 65 <= c as int <= 90 then (c as int + 32) as char else c
  }

  /**
   The characters of a label: for host names letters, digits and hyphens; for DNS names all of printable ASCII but the dot;
   with star and question mark exactly in patterns.
   */
  predicate MayStand(c: char, pattern: bool, hostname: bool)
  {
    if c == '*' || c == '?' then pattern
    else if hostname then 'a' <= c <= 'z' || 'A' <= c <= 'Z' || '0' <= c <= '9' || c == '-'
    else 33 <= c as int <= 126 && c != '.'
  }

  /** Between 1 and 63 characters, for host names with no hyphen at either end. */
  predicate IsLabel(part: string, pattern: bool, hostname: bool)
  {
    && 1 <= |part| <= 63 && (forall i :: 0 <= i < |part| ==> MayStand(part[i], pattern, hostname))
    && (hostname ==> part[0] != '-' && part[|part| - 1] != '-')
  }

  predicate AreLabels(labels: seq<string>, pattern: bool, hostname: bool)
  {
    labels != [] && forall k :: 0 <= k < |labels| ==> IsLabel(labels[k], pattern, hostname)
  }

  lemma SameChar(c: char, pattern: bool, hostname: bool)
    ensures LabelChar(c, pattern, hostname) <==> MayStand(c, pattern, hostname)
    ensures Lower(c) == Small(c)
  {
  }

  lemma SameLabel(part: string, pattern: bool, hostname: bool)
    ensures LabelOk(part, pattern, hostname) <==> IsLabel(part, pattern, hostname)
    ensures IsLabel(part, pattern, hostname) ==> '.' !in part
  {
    hide LabelChar;
    hide MayStand;
    forall i | 0 <= i < |part|
      ensures LabelChar(part[i], pattern, hostname) <==> MayStand(part[i], pattern, hostname)
      ensures MayStand(part[i], pattern, hostname) ==> part[i] != '.'
    {
      SameChar(part[i], pattern, hostname);
      NoDot(part[i], pattern, hostname);
    }
  }

  lemma NoDot(c: char, pattern: bool, hostname: bool)
    ensures MayStand(c, pattern, hostname) ==> c != '.' && !IsBlank(c)
  {
  }

  lemma {:induction false} DotAt(part: string, rest: string)
    requires '.' !in part && (rest == "" || rest[0] == '.')
    ensures FirstDot(part + rest) == |part|
  {
    var s := part + rest;
    if part == "" {
      assert s == rest;
    } else {
      assert s[0] == part[0] && s[1..] == part[1..] + rest;
      DotAt(part[1..], rest);
    }
  }

  lemma {:induction false} LabelsAccepted(labels: seq<string>, pattern: bool, hostname: bool)
    requires AreLabels(labels, pattern, hostname)
    ensures LabelsOk(WithDots(labels), pattern, hostname)
    decreases |labels|
  {
    hide LabelOk;
    hide IsLabel;
    hide FirstDot;
    var s, first := WithDots(labels), labels[0];
    SameLabel(first, pattern, hostname);
    if |labels| == 1 {
      DotAt(first, "");
      assert first + "" == first;
    } else {
      var more := WithDots(labels[1..]);
      LabelsAccepted(labels[1..], pattern, hostname);
      DotAt(first, "." + more);
      assert s == first + ("." + more);
      assert s[..|first|] == first && s[|first| + 1..] == more;
    }
  }

  /** Whatever is accepted falls into labels. */
  lemma {:induction false} AcceptedLabels(s: string, pattern: bool, hostname: bool) returns (labels: seq<string>)
    requires LabelsOk(s, pattern, hostname)
    ensures AreLabels(labels, pattern, hostname) && WithDots(labels) == s
    decreases |s|
  {
    hide LabelOk;
    hide IsLabel;
    hide FirstDot;
    var n := FirstDot(s);
    SameLabel(s[..n], pattern, hostname);
    if n == |s| {
      labels := [s];
      assert s[..n] == s;
    } else {
      var more := AcceptedLabels(s[n + 1..], pattern, hostname);
      labels := [s[..n]] + more;
      assert labels[1..] == more;
      assert s == s[..n] + "." + s[n + 1..];
    }
  }

  // ---- Blanks and the closing dot ----

  predicate Blanks(s: string) { forall i :: 0 <= i < |s| ==> s[i] in {' ', '\t', '\r', '\n'} }

  lemma {:induction false} FrontStripped(blanks: string, s: string)
    requires Blanks(blanks) && (s == "" || !IsBlank(s[0]))
    ensures StripFront(blanks + s) == s
  {
    if blanks == "" {
      assert blanks + s == s;
    } else {
      assert (blanks + s)[1..] == blanks[1..] + s;
      FrontStripped(blanks[1..], s);
    }
  }

  lemma {:induction false} BackStripped(s: string, blanks: string)
    requires Blanks(blanks) && (s == "" || !IsBlank(s[|s| - 1]))
    ensures StripBack(s + blanks) == s
    decreases |blanks|
  {
    if blanks == "" {
      assert s + blanks == s;
    } else {
      var fewer := blanks[..|blanks| - 1];
      assert (s + blanks)[..|s + blanks| - 1] == s + fewer;
      assert blanks[|blanks| - 1] in {' ', '\t', '\r', '\n'};
      BackStripped(s, fewer);
    }
  }

  lemma {:induction false} FrontWas(s: string) returns (blanks: string)
    ensures Blanks(blanks) && s == blanks + StripFront(s)
  {
    if s != "" && IsBlank(s[0]) {
      var more := FrontWas(s[1..]);
      blanks := [s[0]] + more;
      assert s == [s[0]] + s[1..];
    } else {
      blanks := "";
      assert "" + s == s;
    }
  }

  lemma {:induction false} BackWas(s: string) returns (blanks: string)
    ensures Blanks(blanks) && s == StripBack(s) + blanks
    decreases |s|
  {
    if s != "" && IsBlank(s[|s| - 1]) {
      var more := BackWas(s[..|s| - 1]);
      blanks := more + [s[|s| - 1]];
      assert s == s[..|s| - 1] + [s[|s| - 1]];
    } else {
      blanks := "";
      assert s + "" == s;
    }
  }

  /** A name between blanks, with a dot behind it or not. */
  predicate Spells(text: string, front: string, labels: seq<string>, dot: string, back: string)
    requires labels != []
  {
    Blanks(front) && Blanks(back) && (dot == "" || dot == ".") && text == front + (WithDots(labels) + dot) + back
  }

  lemma {:induction false} EndsOfName(labels: seq<string>, pattern: bool, hostname: bool)
    requires AreLabels(labels, pattern, hostname)
    ensures var s := WithDots(labels);
            s != "" && !IsBlank(s[0]) && !IsBlank(s[|s| - 1]) && s[|s| - 1] != '.'
    decreases |labels|
  {
    hide MayStand;
    var first := labels[0];
    assert IsLabel(first, pattern, hostname);
    NoDot(first[0], pattern, hostname);
    if |labels| == 1 {
      NoDot(first[|first| - 1], pattern, hostname);
    } else {
      EndsOfName(labels[1..], pattern, hostname);
      assert WithDots(labels)[|WithDots(labels)| - 1] == WithDots(labels[1..])[|WithDots(labels[1..])| - 1];
    }
  }

  lemma TrimmedIs(text: string, front: string, labels: seq<string>, dot: string, back: string, pattern: bool, hostname: bool)
    requires AreLabels(labels, pattern, hostname) && Spells(text, front, labels, dot, back)
    ensures Trimmed(text) == WithDots(labels)
  {
    hide StripFront;
    hide StripBack;
    hide IsLabel;
    EndsOfName(labels, pattern, hostname);
    var s := WithDots(labels);
    var core := s + dot;
    assert core[0] == s[0];
    assert !IsBlank(core[|core| - 1]) by {
      if dot == "" {
        assert core == s;
      }
    }
    FrontStripped(front, core + back);
    assert text == front + (core + back);
    BackStripped(core, back);
    if dot == "" {
      assert core == s;
    } else {
      assert core[..|core| - 1] == s;
    }
  }

  /**
   Every spelling of a name is accepted and brought to its canonical form: blanks around it and one dot behind it do not count,
   its labels have 1 to 63 characters each, it has at most 253, and its letters become lower-case.
   */
  lemma SpellingAccepted(text: string, front: string, labels: seq<string>, dot: string, back: string, pattern: bool, hostname: bool)
    requires AreLabels(labels, pattern, hostname) && Spells(text, front, labels, dot, back) && |WithDots(labels)| <= 253
    ensures NormalizedName(text, pattern, hostname).Ok?
    ensures var s, r := WithDots(labels), NormalizedName(text, pattern, hostname).value;
            |r| == |s| && forall i :: 0 <= i < |s| ==> r[i] == Small(s[i])
  {
    hide LabelsOk;
    hide IsLabel;
    hide Trimmed;
    hide Small;
    hide Lower;
    TrimmedIs(text, front, labels, dot, back, pattern, hostname);
    LabelsAccepted(labels, pattern, hostname);
    forall c: char
      ensures Lower(c) == Small(c)
    {
      SameChar(c, false, false);
    }
  }

  /** Whatever is accepted is such a spelling. */
  lemma AcceptedSpelling(text: string, pattern: bool, hostname: bool)
    returns (front: string, labels: seq<string>, dot: string, back: string)
    requires NormalizedName(text, pattern, hostname).Ok?
    ensures AreLabels(labels, pattern, hostname) && Spells(text, front, labels, dot, back) && |WithDots(labels)| <= 253
  {
    hide LabelsOk;
    hide StripFront;
    hide StripBack;
    hide IsLabel;
    front := FrontWas(text);
    back := BackWas(StripFront(text));
    var core := StripBack(StripFront(text));
    labels := AcceptedLabels(Trimmed(text), pattern, hostname);
    dot := if core != "" && core[|core| - 1] == '.' then "." else "";
    assert core == Trimmed(text) + dot;
    assert text == front + (core + back) == front + core + back;
  }
}
