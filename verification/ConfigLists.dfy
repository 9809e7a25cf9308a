/** Lists in one attribute, with semicolons between the items: `join`, `split`, `join_ids` and `split_ids` of config.cpp. */
module ConfigLists {
  import opened Bytes
  import opened Decimal
  import opened ConfigModel
  import opened XmlText

  function Joined(values: seq<string>): (s: string)
  {
    if values == [] then ""
    else
      var front := Joined(values[..|values| - 1]);
      front + (if front == "" then "" else ";") + values[|values| - 1]
  }

  /** No item is empty or holds a semicolon. */
  predicate Separable(values: seq<string>)
  {
    forall k :: 0 <= k < |values| ==> values[k] != "" && ';' !in values[k]
  }

  function SplitText(text: string): (values: seq<string>)
    ensures Separable(values)
    decreases |text|
  {
    if text == "" then []
    else
      match Find(text, ';')
      case None => [text]
      case Some(k) => (if k == 0 then [] else [text[..k]]) + SplitText(text[k + 1..])
  }

  method Join(values: seq<string>) returns (out: string)
    ensures out == Joined(values)
  {
    out := "";
    var i: nat := 0;
    while i < |values|
      invariant i <= |values| && out == Joined(values[..i])
    {
      assert values[..i + 1][..i] == values[..i];
      if out != "" {
        out := out + ";";
      }
      out := out + values[i];
      i := i + 1;
    }
    assert values[..i] == values;
  }

  /** What is in front of the next semicolon, and what is behind it. */
  function NextLine(s: string): (r: (string, string))
    ensures s != "" ==> |r.1| < |s|
  {
    match Find(s, ';')
    case None => (s, "")
    case Some(k) => (s[..k], s[k + 1..])
  }

  lemma SplitFirst(s: string)
    requires s != ""
    ensures SplitText(s) == (if NextLine(s).0 == "" then [] else [NextLine(s).0]) + SplitText(NextLine(s).1)
  {
    hide Separable;
    hide Find;
    if Find(s, ';').None? {
      SplitNothing();
      assert [s] + [] == [s];
    }
  }

  lemma SplitStep(s: string, out: seq<string>)
    requires s != ""
    ensures out + SplitText(s) == (if NextLine(s).0 == "" then out else out + [NextLine(s).0]) + SplitText(NextLine(s).1)
  {
    hide SplitText;
    hide NextLine;
    SplitFirst(s);
    var first, more := if NextLine(s).0 == "" then [] else [NextLine(s).0], SplitText(NextLine(s).1);
    assert out + (first + more) == (out + first) + more;
    assert out + [] == out;
  }

  method Split(text: string) returns (out: seq<string>)
    ensures out == SplitText(text)
  {
    hide SplitText;
    hide NextLine;
    out := [];
    var rest := text;
    assert [] + SplitText(text) == SplitText(text);
    while rest != ""
      invariant out + SplitText(rest) == SplitText(text)
      decreases |rest|
    {
      SplitStep(rest, out);
      var next := NextLine(rest);
      var (value, more) := next;
      if value != "" {
        out := out + [value];
      }
      rest := more;
    }
    SplitNothing();
  }

  lemma SplitNothing()
    ensures SplitText("") == []
  {
  }

  /** An item at the end of a text is the last of the split. */
  lemma {:induction false} SplitLast(front: string, last: string)
    requires front != "" && last != "" && ';' !in last
    ensures SplitText(front + ";" + last) == SplitText(front) + [last]
    decreases |front|
  {
    var s := front + ";" + last;
    match Find(front, ';') {
      case None =>
        SemicolonAt(front, last);
        assert s[..|front|] == front && s[|front| + 1..] == last;
        NoSemicolon(last);
      case Some(k) =>
        var rest := front[k + 1..];
        assert front == front[..k] + ";" + rest;
        assert s == front[..k] + ";" + (rest + ";" + last);
        SemicolonAt(front[..k], rest + ";" + last);
        assert s[k + 1..] == rest + ";" + last && s[..k] == front[..k];
        if rest != "" {
          SplitLast(rest, last);
        } else {
          assert rest + ";" + last == "" + ";" + last;
          SplitEmptyFirst(last);
        }
    }
  }

  lemma SplitEmptyFirst(last: string)
    requires last != "" && ';' !in last
    ensures SplitText("" + ";" + last) == [last]
  {
    SemicolonAt("", last);
    assert ("" + ";" + last)[1..] == last;
    NoSemicolon(last);
  }

  lemma SemicolonAt(front: string, rest: string)
    requires ';' !in front
    ensures Find(front + ";" + rest, ';') == Some(|front|)
  {
    FirstAt(front + ";" + rest, front, rest);
  }

  lemma NoSemicolon(s: string)
    requires s != "" && ';' !in s
    ensures SplitText(s) == [s]
  {
    assert Find(s, ';').None?;
  }

  /** Splitting what was joined gives the items back exactly when none is empty or holds a semicolon. */
  lemma {:induction false} SplitJoined(values: seq<string>)
    ensures SplitText(Joined(values)) == values <==> Separable(values)
  {
    if Separable(values) {
      SplitJoinedSeparable(values);
    }
  }

  lemma {:induction false} SplitJoinedSeparable(values: seq<string>)
    requires Separable(values)
    ensures SplitText(Joined(values)) == values && (values != [] ==> Joined(values) != "")
  {
    if values != [] {
      var rest, last := values[..|values| - 1], values[|values| - 1];
      SplitJoinedSeparable(rest);
      if rest == [] {
        NoSemicolon(last);
        assert "" + "" + last == last;
      } else {
        SplitLast(Joined(rest), last);
      }
      assert rest + [last] == values;
    }
  }

  // ---- Lists of IDs ----

  function Texts(ids: seq<uint32>): (r: seq<string>)
    ensures |r| == |ids| && forall k :: 0 <= k < |ids| ==> r[k] == ToText(ids[k])
  {
    seq(|ids|, k requires 0 <= k < |ids| => ToText(ids[k]))
  }

  /** Each item as a number. */
  function Numbers(values: seq<string>): (r: Result<seq<uint32>>)
  {
    if values == [] then Ok([])
    else
      var front :- Numbers(values[..|values| - 1]);
      var last :- Number(values[|values| - 1]);
      Ok(front + [last])
  }

  function SplitIdsText(text: string): (r: Result<seq<uint32>>) { Numbers(SplitText(text)) }

  method JoinIds(ids: seq<uint32>) returns (out: string)
    ensures out == Joined(Texts(ids))
  {
    out := "";
    var i: nat := 0;
    while i < |ids|
      invariant i <= |ids| && out == Joined(Texts(ids)[..i])
    {
      assert Texts(ids)[..i + 1][..i] == Texts(ids)[..i];
      if out != "" {
        out := out + ";";
      }
      out := out + ToText(ids[i]);
      i := i + 1;
    }
    assert Texts(ids)[..i] == Texts(ids);
  }

  method SplitIds(text: string) returns (r: Result<seq<uint32>>)
    ensures r == SplitIdsText(text)
  {
    var values := Split(text);
    var out: seq<uint32>, i: nat := [], 0;
    while i < |values|
      invariant i <= |values| && Numbers(values[..i]) == Ok(out)
    {
      assert values[..i + 1][..i] == values[..i];
      var number := Number(values[i]);
      if number.Err? {
        NumbersFail(values, i + 1);
        return Err(number.code);
      }
      out := out + [number.value];
      i := i + 1;
    }
    assert values[..i] == values;
    return Ok(out);
  }

  lemma {:induction false} NumbersFail(values: seq<string>, m: nat)
    requires m <= |values| && Numbers(values[..m]).Err?
    ensures Numbers(values) == Numbers(values[..m])
    decreases |values|
  {
    if m < |values| {
      var rest := values[..|values| - 1];
      assert rest[..m] == values[..m];
      NumbersFail(rest, m);
    } else {
      assert values[..m] == values;
    }
  }

  lemma {:induction false} NumbersOfTexts(ids: seq<uint32>)
    ensures Numbers(Texts(ids)) == Ok(ids)
  {
    if ids != [] {
      var rest, last := ids[..|ids| - 1], ids[|ids| - 1];
      NumbersOfTexts(rest);
      NumberRoundTrip(last);
      assert Texts(ids)[..|ids| - 1] == Texts(rest);
      assert rest + [last] == ids;
    }
  }

  lemma TextsSeparable(ids: seq<uint32>)
    ensures Separable(Texts(ids))
  {
    forall k | 0 <= k < |ids|
      ensures Texts(ids)[k] != "" && ';' !in Texts(ids)[k]
    {
      assert !IsDigit(';');
    }
  }

  /** Every list of IDs is read back. */
  lemma IdsRoundTrip(ids: seq<uint32>)
    ensures SplitIdsText(Joined(Texts(ids))) == Ok(ids)
  {
    TextsSeparable(ids);
    SplitJoined(Texts(ids));
    NumbersOfTexts(ids);
  }
}
