/** Canonical DNS names and patterns: `normalize_ascii_name` of rules.cpp and its two wrappers. */
module HostName {
  import opened Bytes

  const MAX_NAME := 253

  const MAX_LABEL := 63

  predicate IsBlank(c: char) { c == ' ' || c == '\t' || c == '\r' || c == '\n' }

  function Lower(c: char): (r: char)
  {
    if 'A' <= c <= 'Z' then (c as int + 32) as char else c
  }

  function LowerAll(s: string): (r: string)
    ensures |r| == |s| && forall i :: 0 <= i < |s| ==> r[i] == Lower(s[i])
  {
    seq(|s|, i requires 0 <= i < |s| => Lower(s[i]))
  }

  /** The two vocabularies: letters, digits and hyphens for host names, printable ASCII for DNS names. */
  predicate LabelChar(c: char, pattern: bool, hostname: bool)
  {
    var l := Lower(c);
    var wildcard := l == '*' || l == '?';
    if hostname then 'a' <= l <= 'z' || '0' <= l <= '9' || l == '-' || (pattern && wildcard)
    else 32 < l as int < 127 && l != '.' && (pattern || !wildcard)
  }

  /** The position of the first dot, or the length. */
  function FirstDot(s: string): (n: nat)
    ensures n <= |s| && (n < |s| ==> s[n] == '.')
    ensures forall i :: 0 <= i < n ==> s[i] != '.'
  {
    if s == "" || s[0] == '.' then 0 else 1 + FirstDot(s[1..])
  }

  ghost predicate LabelOk(part: string, pattern: bool, hostname: bool)
  {
    && 1 <= |part| <= MAX_LABEL
    && (forall i :: 0 <= i < |part| ==> LabelChar(part[i], pattern, hostname))
    && (hostname ==> part[0] != '-' && part[|part| - 1] != '-')
  }

  /** Every dot-separated part is an acceptable label; in particular none is empty. */
  ghost predicate LabelsOk(s: string, pattern: bool, hostname: bool)
    decreases |s|
  {
    var n := FirstDot(s);
    LabelOk(s[..n], pattern, hostname) && (n < |s| ==> LabelsOk(s[n + 1..], pattern, hostname))
  }

  function StripFront(s: string): (r: string)
    ensures |r| <= |s|
  {
    if s != "" && IsBlank(s[0]) then StripFront(s[1..]) else s
  }

  function StripBack(s: string): (r: string)
    ensures |r| <= |s|
  {
    if s != "" && IsBlank(s[|s| - 1]) then StripBack(s[..|s| - 1]) else s
  }

  /** The text without blanks at either end and without one closing dot. */
  function Trimmed(text: string): (s: string)
    ensures |s| <= |text|
  {
    var s := StripBack(StripFront(text));
    if s != "" && s[|s| - 1] == '.' then s[..|s| - 1] else s
  }

  ghost function NormalizedName(text: string, pattern: bool, hostname: bool): (r: Result<string>)
    ensures r.Err? ==> r.code == "HOST"
    ensures r.Ok? ==> |r.value| <= MAX_NAME
  {
    var value := Trimmed(text);
    if LabelsOk(value, pattern, hostname) && |value| <= MAX_NAME then Ok(LowerAll(value)) else Err("HOST")
  }

  /** A DNS name as the wire and the rules use it. */
  ghost function DnsNameOf(text: string, pattern: bool): (r: Result<string>)
    ensures r.Err? ==> r.code == "HOST"
  {
    NormalizedName(text, pattern, false)
  }

  method Trim(text: string) returns (s: string)
    ensures s == Trimmed(text)
  {
    var first: nat := 0;
    while first < |text| && IsBlank(text[first])
      invariant first <= |text| && StripFront(text[first..]) == StripFront(text)
    {
      assert text[first..][1..] == text[first + 1..];
      first := first + 1;
    }
    s := text[first..];
    ghost var front := s;
    while s != "" && IsBlank(s[|s| - 1])
      invariant StripBack(s) == StripBack(front)
      decreases |s|
    {
      s := s[..|s| - 1];
    }
    if s != "" && s[|s| - 1] == '.' {
      s := s[..|s| - 1];
    }
  }

  method NormalizeAsciiName(text: string, pattern: bool, hostname: bool) returns (r: Result<string>)
    ensures r == NormalizedName(text, pattern, hostname)
  {
    hide LabelsOk;
    hide Trimmed;
    var value := Trim(text);
    r := JoinLabels(value, pattern, hostname);
  }

  /** The label loop: every part is checked, folded and joined again. */
  method JoinLabels(value: string, pattern: bool, hostname: bool) returns (r: Result<string>)
    ensures r == if LabelsOk(value, pattern, hostname) && |value| <= MAX_NAME then Ok(LowerAll(value)) else Err("HOST")
  {
    hide LabelOk;
    hide LabelsOk;
    hide LowerAll;
    hide FirstDot;
    EmptyIsNoName(pattern, hostname);
    assert value[0..] == value;
    var result := "";
    var start: nat := 0;
    while start < |value|
      invariant start <= |value| && (start == |value| ==> value == "")
      invariant LabelsOk(value, pattern, hostname) == LabelsOk(value[start..], pattern, hostname)
      invariant if start == 0 then result == "" else
                  result != "" && value[start - 1] == '.' && result == LowerAll(value[..start - 1])
      decreases |value| - start
    {
      var end := start + FirstDot(value[start..]);
      NextLabel(value, start, pattern, hostname);
      var part := NormalizeLabel(value[start..end], pattern, hostname);
      if part.Err? {
        return Err("HOST");
      }
      JoinLabel(value, start, end);
      if result != "" {
        result := result + ".";
      }
      result := result + part.value;
      assert result == LowerAll(value[..end]);
      if end == |value| {
        assert value[..end] == value;
        if |result| > MAX_NAME {
          return Err("HOST");
        }
        return Ok(result);
      }
      NonEmptyLabel(value[start..end], pattern, hostname);
      start := end + 1;
      if start == |value| {
        assert value[start..] == "";
        return Err("HOST");
      }
    }
    return Err("HOST");
  }

  /** The first label and the rest, seen from inside the whole text. */
  lemma NextLabel(value: string, start: nat, pattern: bool, hostname: bool)
    requires start < |value|
    ensures var end := start + FirstDot(value[start..]);
            && start <= end <= |value| && (end < |value| ==> value[end] == '.')
            && (LabelsOk(value[start..], pattern, hostname) <==>
                  && LabelOk(value[start..end], pattern, hostname)
                  && (end < |value| ==> LabelsOk(value[end + 1..], pattern, hostname)))
  {
    hide LabelOk;
    var end := start + FirstDot(value[start..]);
    assert value[start..][..end - start] == value[start..end];
    if end < |value| {
      assert value[start..][end - start + 1..] == value[end + 1..];
    }
  }

  lemma JoinLabel(value: string, start: nat, end: nat)
    requires start <= end <= |value| && (start > 0 ==> value[start - 1] == '.')
    ensures LowerAll(value[..end])
         == if start == 0 then LowerAll(value[start..end]) else LowerAll(value[..start - 1]) + "." + LowerAll(value[start..end])
  {
    if start > 0 {
      assert LowerAll(value[..end]) == LowerAll(value[..start - 1]) + "." + LowerAll(value[start..end]);
    } else {
      assert value[0..end] == value[..end];
    }
  }

  lemma NonEmptyLabel(part: string, pattern: bool, hostname: bool)
    requires LabelOk(part, pattern, hostname)
    ensures part != "" && LowerAll(part) != ""
  {
  }

  lemma EmptyIsNoName(pattern: bool, hostname: bool)
    ensures !LabelsOk("", pattern, hostname)
  {
    assert FirstDot("") == 0;
  }

  /** The loop over one label. */
  method NormalizeLabel(part: string, pattern: bool, hostname: bool) returns (r: Result<string>)
    ensures r == if LabelOk(part, pattern, hostname) then Ok(LowerAll(part)) else Err("HOST")
  {
    if part == "" || |part| > MAX_LABEL {
      return Err("HOST");
    }
    var out := part;
    var i: nat := 0;
    while i < |part|
      invariant i <= |part| == |out|
      invariant forall k :: 0 <= k < i ==> LabelChar(part[k], pattern, hostname)
      invariant forall k :: 0 <= k < |part| ==> out[k] == if k < i then Lower(part[k]) else part[k]
    {
      out := out[i := Lower(part[i])];
      if !LabelChar(part[i], pattern, hostname) {
        return Err("HOST");
      }
      i := i + 1;
    }
    if hostname && (out[0] == '-' || out[|out| - 1] == '-') {
      return Err("HOST");
    }
    assert out == LowerAll(part);
    return Ok(out);
  }

  // ---- What a canonical name looks like ----

  /** Folding keeps every character a label character, and is done once and for all. */
  lemma FoldOnce(c: char, pattern: bool, hostname: bool)
    requires LabelChar(c, pattern, hostname)
    ensures LabelChar(Lower(c), pattern, hostname) && Lower(Lower(c)) == Lower(c) && (Lower(c) == '.' <==> c == '.')
    ensures Lower(c) == '-' <==> c == '-'
  {
  }

  lemma FoldedLabel(part: string, pattern: bool, hostname: bool)
    requires LabelOk(part, pattern, hostname)
    ensures LabelOk(LowerAll(part), pattern, hostname) && LowerAll(LowerAll(part)) == LowerAll(part)
  {
    forall i | 0 <= i < |part|
      ensures LabelChar(LowerAll(part)[i], pattern, hostname) && Lower(LowerAll(part)[i]) == LowerAll(part)[i]
    {
      FoldOnce(part[i], pattern, hostname);
    }
    FoldOnce(part[0], pattern, hostname);
    FoldOnce(part[|part| - 1], pattern, hostname);
  }

  lemma {:induction false} FoldedDot(s: string)
    ensures FirstDot(LowerAll(s)) == FirstDot(s)
  {
    if s != "" && s[0] != '.' {
      FoldedDot(s[1..]);
      assert LowerAll(s)[1..] == LowerAll(s[1..]);
    }
  }

  lemma {:induction false} FoldedLabels(s: string, pattern: bool, hostname: bool)
    requires LabelsOk(s, pattern, hostname)
    ensures LabelsOk(LowerAll(s), pattern, hostname) && LowerAll(LowerAll(s)) == LowerAll(s)
    decreases |s|
  {
    hide LabelOk;
    var n := FirstDot(s);
    FoldedDot(s);
    FoldedLabel(s[..n], pattern, hostname);
    assert LowerAll(s)[..n] == LowerAll(s[..n]);
    if n < |s| {
      FoldedLabels(s[n + 1..], pattern, hostname);
      assert LowerAll(s)[n + 1..] == LowerAll(s[n + 1..]);
      FoldedTail(s, n);
    } else {
      assert s[..n] == s;
    }
  }

  lemma FoldedTail(s: string, n: nat)
    requires n < |s| && s[n] == '.'
    requires LowerAll(LowerAll(s[..n])) == LowerAll(s[..n]) && LowerAll(LowerAll(s[n + 1..])) == LowerAll(s[n + 1..])
    ensures LowerAll(LowerAll(s)) == LowerAll(s)
  {
    assert LowerAll(LowerAll(s)) == LowerAll(LowerAll(s[..n])) + "." + LowerAll(LowerAll(s[n + 1..]));
    assert LowerAll(s) == LowerAll(s[..n]) + "." + LowerAll(s[n + 1..]);
  }

  /** Every character is a dot or a label character; the ends are label characters. */
  lemma {:induction false} NameChars(s: string, pattern: bool, hostname: bool)
    requires LabelsOk(s, pattern, hostname)
    ensures s != "" && LabelChar(s[0], pattern, hostname) && LabelChar(s[|s| - 1], pattern, hostname)
    ensures forall i :: 0 <= i < |s| ==> s[i] == '.' || LabelChar(s[i], pattern, hostname)
    decreases |s|
  {
    hide LabelChar;
    var n := FirstDot(s);
    assert forall i :: 0 <= i < n ==> s[i] == s[..n][i];
    if n < |s| {
      NameChars(s[n + 1..], pattern, hostname);
      assert forall i :: n < i < |s| ==> s[i] == s[n + 1..][i - n - 1];
    }
  }

  /** A canonical name is its own canonical form. */
  lemma NormalizeTwice(text: string, pattern: bool, hostname: bool)
    requires NormalizedName(text, pattern, hostname).Ok?
    ensures NormalizedName(NormalizedName(text, pattern, hostname).value, pattern, hostname)
         == NormalizedName(text, pattern, hostname)
  {
    hide LabelsOk;
    hide LabelChar;
    hide LowerAll;
    var value := Trimmed(text);
    var name := LowerAll(value);
    FoldedLabels(value, pattern, hostname);
    NameChars(name, pattern, hostname);
    NotBlank(name[0], pattern, hostname);
    NotBlank(name[|name| - 1], pattern, hostname);
  }

  lemma NotBlank(c: char, pattern: bool, hostname: bool)
    requires LabelChar(c, pattern, hostname)
    ensures !IsBlank(c) && c != '.'
  {
  }

  /** A canonical DNS name that is no pattern contains no wildcard. */
  lemma NoWildcard(text: string)
    requires DnsNameOf(text, false).Ok?
    ensures forall i :: 0 <= i < |DnsNameOf(text, false).value| ==> DnsNameOf(text, false).value[i] !in {'*', '?'}
  {
    FoldedLabels(Trimmed(text), false, false);
    NameChars(DnsNameOf(text, false).value, false, false);
  }
}
