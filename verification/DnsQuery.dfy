/** Building a query: `make_query` of dns_packet.cpp. */
module DnsQuery {
  import opened Bytes
  import opened DnsName
  import opened DnsQuestion
  import opened HostName

  function NarrowChar(c: char): (b: byte) { c as int % 256 }

  function NarrowText(s: string): (b: Packet)
    ensures |b| == |s|
  {
    seq(|s|, i requires 0 <= i < |s| => NarrowChar(s[i]))
  }

  /** The labels of a name, each behind its length, and a closing zero. */
  function EncodedName(host: string): (r: Packet)
    ensures |r| >= 1
    decreases |host|
  {
    var n := FirstDot(host);
    if host == "" then [0]
    else [n % 256] + NarrowText(host[..n]) + if n < |host| then EncodedName(host[n + 1..]) else [0]
  }

  /** The number of labels of a name. */
  function LabelCount(host: string): (n: nat)
    decreases |host|
  {
    var n := FirstDot(host);
    if n < |host| then 1 + LabelCount(host[n + 1..]) else 1
  }

  function QueryHeader(id: nat): (h: Packet)
    requires id < 0x1_0000
    ensures |h| == 12
  {
    WordBytes(id) + [1, 0, 0, 1, 0, 0, 0, 0, 0, 0]
  }

  ghost function QueryOf(hostname: string, kind: nat, id: nat): (r: Result<Packet>)
    requires id < 0x1_0000 && kind < 0x1_0000
  {
    var host :- DnsNameOf(hostname, false);
    Ok(QueryHeader(id) + EncodedName(host) + WordBytes(kind) + WordBytes(1))
  }

  method MakeQuery(hostname: string, kind: nat, id: nat) returns (r: Result<Packet>)
    requires id < 0x1_0000 && kind < 0x1_0000
    ensures r == QueryOf(hostname, kind, id)
  {
    hide EncodedName;
    hide NormalizedName;
    var host :- NormalizeAsciiName(hostname, false, false);
    var name := EncodeName(host);
    var result := WordBytes(id) + WordBytes(0x0100) + WordBytes(1) + WordBytes(0) + WordBytes(0) + WordBytes(0);
    assert result == QueryHeader(id);
    result := result + name + WordBytes(kind) + WordBytes(1);
    return Ok(result);
  }

  /** One label, and what is still to write behind it. */
  lemma EncodeStep(host: string, at: nat)
    requires at < |host|
    ensures var end := at + FirstDot(host[at..]);
            && end <= |host|
            && EncodedName(host[at..]) == [(end - at) % 256] + NarrowText(host[at..end])
                 + if end < |host| then EncodedName(host[end + 1..]) else [0]
  {
    hide EncodedName;
    hide NarrowText;
    hide FirstDot;
    var n := FirstDot(host[at..]);
    EncodedBegins(host[at..]);
    assert host[at..][..n] == host[at..at + n];
    if at + n < |host| {
      assert host[at..][n + 1..] == host[at + n + 1..];
    }
  }

  /** The loop that writes one label after the other. */
  method EncodeName(host: string) returns (result: Packet)
    ensures result == EncodedName(host)
  {
    hide NarrowText;
    hide FirstDot;
    EncodedEmpty();
    hide EncodedName;
    result := [];
    var at: nat := 0;
    assert host[0..] == host;
    while at < |host|
      invariant at <= |host|
      invariant result + EncodedName(host[at..]) == EncodedName(host)
      decreases |host| - at
    {
      var end := at + FirstDot(host[at..]);
      EncodeStep(host, at);
      result := result + ([(end - at) % 256] + NarrowText(host[at..end]));
      if end == |host| {
        return result + [0];
      }
      at := end + 1;
    }
    assert host[at..] == "";
    result := result + [0];
  }

  lemma EncodedEmpty()
    ensures EncodedName("") == [0]
  {
  }

  // ---- The round trip ----

  /** Canonical text: sound labels, already in lower case. */
  ghost predicate Canonical(host: string) { LabelsOk(host, false, false) && LowerAll(host) == host }

  /** The bytes at `at` are the encoded name. */
  ghost predicate Holds(p: Packet, at: nat, host: string)
  {
    at + |EncodedName(host)| <= |p| && p[at..at + |EncodedName(host)|] == EncodedName(host)
  }

  /** A canonical label character survives the wire. */
  lemma CharRoundTrip(c: char)
    requires LabelChar(c, false, false) && Lower(c) == c
    ensures HostByte(NarrowChar(c)) && FoldCase(NarrowChar(c)) == c
  {
  }

  lemma {:induction false} LabelRoundTrip(p: Packet, from: nat, part: string)
    requires from + |part| <= |p| && p[from..from + |part|] == NarrowText(part)
    requires forall i :: 0 <= i < |part| ==> LabelChar(part[i], false, false) && Lower(part[i]) == part[i]
    ensures HostBytes(p, from, from + |part|) && LabelText(p, from, from + |part|) == part
  {
    if part != "" {
      var last := |part| - 1;
      assert p[from..from + last] == p[from..from + |part|][..last] == NarrowText(part)[..last] == NarrowText(part[..last]);
      LabelRoundTrip(p, from, part[..last]);
      CharRoundTrip(part[last]);
      assert p[from + last] == NarrowText(part)[last];
    }
  }

  /** The parts of a canonical name are canonical. */
  lemma CanonicalParts(host: string)
    requires Canonical(host)
    ensures var n := FirstDot(host);
            && 1 <= n <= MAX_LABEL
            && (forall i :: 0 <= i < n ==> LabelChar(host[..n][i], false, false) && Lower(host[..n][i]) == host[..n][i])
            && (n < |host| ==> Canonical(host[n + 1..]))
  {
    hide LabelChar;
    hide Lower;
    hide LowerAll;
    hide FirstDot;
    var n := FirstDot(host);
    LowerParts(host, n);
    assert LabelOk(host[..n], false, false);
  }

  lemma LowerParts(host: string, n: nat)
    requires LowerAll(host) == host && n <= |host|
    ensures forall i :: 0 <= i < n ==> Lower(host[..n][i]) == host[..n][i]
    ensures n < |host| ==> LowerAll(host[n + 1..]) == host[n + 1..]
  {
    hide Lower;
    assert forall i :: 0 <= i < |host| ==> Lower(host[i]) == LowerAll(host)[i] == host[i];
  }

  /** The parts of an encoded name stand where they are expected. */
  lemma HoldsParts(p: Packet, at: nat, host: string)
    requires Holds(p, at, host) && 1 <= FirstDot(host) <= MAX_LABEL
    ensures var n := FirstDot(host);
            && at + 1 + n < |p| && p[at] == n && p[at + 1..at + 1 + n] == NarrowText(host[..n])
            && (n < |host| ==> Holds(p, at + 1 + n, host[n + 1..]))
            && (n == |host| ==> p[at + 1 + n] == 0)
            && |EncodedName(host)| == 1 + n + if n < |host| then |EncodedName(host[n + 1..])| else 1
  {
    hide NarrowText;
    hide FirstDot;
    hide EncodedName;
    var n, tail := FirstDot(host), Tail(host);
    EncodedParts(host);
    ThreeParts(p, at, n, NarrowText(host[..n]), tail);
  }

  /** What is written behind the first label. */
  function Tail(host: string): (r: Packet)
    ensures |r| >= 1
  {
    if FirstDot(host) < |host| then EncodedName(host[FirstDot(host) + 1..]) else [0]
  }

  lemma EncodedParts(host: string)
    requires 1 <= FirstDot(host) <= MAX_LABEL
    ensures EncodedName(host) == [FirstDot(host)] + NarrowText(host[..FirstDot(host)]) + Tail(host)
  {
    hide *;
    SomeLabel();
    SmallByte(FirstDot(host));
    EncodedBegins(host);
  }

  lemma SmallByte(n: nat)
    requires n < 256
    ensures n % 256 == n
  {
  }

  lemma EncodedBegins(host: string)
    requires host != ""
    ensures EncodedName(host) == [FirstDot(host) % 256] + NarrowText(host[..FirstDot(host)]) + Tail(host)
  {
    hide NarrowText;
    hide FirstDot;
  }

  lemma ThreeParts(p: Packet, at: nat, first: byte, middle: Packet, last: Packet)
    requires at + 1 + |middle| + |last| <= |p|
    requires p[at..at + 1 + |middle| + |last|] == [first] + middle + last
    ensures p[at] == first && p[at + 1..at + 1 + |middle|] == middle
    ensures p[at + 1 + |middle|..at + 1 + |middle| + |last|] == last
  {
    var all := p[at..at + 1 + |middle| + |last|];
    assert p[at] == all[0];
    assert forall i :: 0 <= i < |middle| ==> p[at + 1 + i] == all[1 + i] == middle[i];
    assert p[at + 1..at + 1 + |middle|] == middle;
    assert p[at + 1 + |middle|..at + 1 + |middle| + |last|] == all[1 + |middle|..];
  }

  /** The first label of an encoded name reads back, and the rest of the name stands behind it. */
  lemma FirstLabelReads(p: Packet, at: nat, host: string)
    requires Canonical(host) && Holds(p, at, host)
    ensures var n := FirstDot(host);
            && n >= 1 && PieceAt(p, at) == Label(host[..n], at + 1 + n)
            && (n < |host| ==> Canonical(host[n + 1..]) && Holds(p, at + 1 + n, host[n + 1..]))
            && (n == |host| ==> PieceAt(p, at + 1 + n) == Root)
            && |EncodedName(host)| == 1 + n + if n < |host| then |EncodedName(host[n + 1..])| else 1
  {
    hide *;
    CanonicalParts(host);
    SomeLabel();
    HoldsParts(p, at, host);
    LabelIsPiece(p, at, host[..FirstDot(host)]);
    if FirstDot(host) == |host| {
      ZeroIsRoot(p, at + 1 + |host|);
    }
  }

  lemma SomeLabel()
    ensures MAX_LABEL == 63
  {
  }

  lemma ZeroIsRoot(p: Packet, at: nat)
    requires at < |p| && p[at] == 0
    ensures PieceAt(p, at) == Root
  {
  }

  /** A label behind its length. */
  lemma LabelIsPiece(p: Packet, at: nat, part: string)
    requires 1 <= |part| <= 63 && at + 1 + |part| <= |p| && p[at] == |part|
    requires p[at + 1..at + 1 + |part|] == NarrowText(part)
    requires forall i :: 0 <= i < |part| ==> LabelChar(part[i], false, false) && Lower(part[i]) == part[i]
    ensures PieceAt(p, at) == Label(part, at + 1 + |part|)
  {
    hide NarrowText;
    hide LabelChar;
    hide Lower;
    hide HostBytes;
    hide LabelText;
    LabelRoundTrip(p, at + 1, part);
  }

  /** The measures of a name beyond its first label. */
  lemma MeasureStep(p: Packet, at: nat)
    requires PieceAt(p, at).Label? || PieceAt(p, at).Root?
    ensures PieceAt(p, at).Root? ==> NameEnd(p, at) == at + 1 && Plain(p, at) && Labels(p, at) == 0
    ensures PieceAt(p, at).Label? ==>
              var next := PieceAt(p, at).next;
              && NameEnd(p, at) == NameEnd(p, next) && Plain(p, at) == Plain(p, next)
              && (Plain(p, at) ==> Labels(p, at) == 1 + Labels(p, next))
  {
  }

  /** An encoded name reads back as its text while the hop budget covers its labels. */
  lemma {:induction false} NameReads(p: Packet, at: nat, host: string, hops: nat, text: string)
    requires Canonical(host) && Holds(p, at, host)
    requires |Dotted(text)| + |host| <= MAX_TEXT && hops + LabelCount(host) < MAX_HOPS
    ensures NameText(p, at, hops, text) == Ok(Dotted(text) + host)
    ensures NameEnd(p, at) == at + |EncodedName(host)|
    ensures Plain(p, at) && Labels(p, at) == LabelCount(host)
    decreases |host|
  {
    hide Canonical;
    hide Holds;
    hide EncodedName;
    hide PieceAt;
    hide NameEnd;
    hide Plain;
    hide Labels;
    hide FirstDot;
    FirstLabelReads(p, at, host);
    MeasureStep(p, at);
    var n := FirstDot(host);
    var longer := Dotted(text) + host[..n];
    if n < |host| {
      assert Dotted(longer) + host[n + 1..] == Dotted(text) + host;
      NameReads(p, at + 1 + n, host[n + 1..], hops + 1, longer);
    } else {
      assert host[..n] == host;
      MeasureStep(p, at + 1 + n);
    }
  }

  /** A label needs a character and a dot between labels another, so a name of legal length has at most 127 labels. */
  lemma {:induction false} FewLabels(host: string)
    requires LabelsOk(host, false, false)
    ensures 2 * LabelCount(host) <= |host| + 1
    decreases |host|
  {
    hide LabelChar;
    if FirstDot(host) < |host| {
      FewLabels(host[FirstDot(host) + 1..]);
    }
  }

  /**
   Every name that is accepted makes a query that parses back: the canonical name, the type asked for, class IN, one
   question and nothing behind it. Its labels number at most 127, the most the hop limit of the reader allows.
   */
  lemma QueryRoundTrip(hostname: string, kind: nat, id: nat)
    requires id < 0x1_0000 && kind < 0x1_0000 && QueryOf(hostname, kind, id).Ok?
    ensures var p, host := QueryOf(hostname, kind, id).value, DnsNameOf(hostname, false).value;
            && QuestionOf(p) == Ok(Question(id, 0x0100, kind, 1, host, |p|))
            && Plain(p, 12) && Labels(p, 12) == LabelCount(host) <= 127
  {
    FoldedLabels(Trimmed(hostname), false, false);
    hide LabelsOk;
    hide EncodedName;
    hide Trimmed;
    hide QuestionOf;
    CanonicalQueryParses(QueryOf(hostname, kind, id).value, DnsNameOf(hostname, false).value, kind, id);
  }

  lemma CanonicalQueryParses(p: Packet, host: string, kind: nat, id: nat)
    requires id < 0x1_0000 && kind < 0x1_0000 && Canonical(host) && |host| <= MAX_NAME
    requires p == QueryHeader(id) + EncodedName(host) + WordBytes(kind) + WordBytes(1)
    ensures QuestionOf(p) == Ok(Question(id, 0x0100, kind, 1, host, |p|))
    ensures Plain(p, 12) && Labels(p, 12) == LabelCount(host) <= 127
  {
    QueryBytes(p, host, kind, id);
    hide EncodedName;
    hide Canonical;
    hide Holds;
    FieldsParse(p, host, kind, id);
  }

  lemma FieldsParse(p: Packet, host: string, kind: nat, id: nat)
    requires Canonical(host) && |host| <= MAX_NAME && Holds(p, 12, host)
    requires var end := 12 + |EncodedName(host)|;
             |p| == end + 4 && Word(p, end) == kind && Word(p, end + 2) == 1
    requires Word(p, 0) == id && Word(p, 2) == 0x0100 && Word(p, 4) == 1
    ensures QuestionOf(p) == Ok(Question(id, 0x0100, kind, 1, host, |p|))
    ensures Plain(p, 12) && Labels(p, 12) == LabelCount(host) <= 127
  {
    hide LabelOk;
    hide LowerAll;
    hide NameText;
    hide NameEnd;
    hide Plain;
    hide Labels;
    hide LabelCount;
    hide EncodedName;
    hide FirstDot;
    hide Word;
    FewLabels(host);
    EncodedLength(host);
    NameReads(p, 12, host, 0, "");
    assert Dotted("") + host == host;
  }

  /** The fields of a query around its name. */
  lemma QueryBytes(p: Packet, host: string, kind: nat, id: nat)
    requires id < 0x1_0000 && kind < 0x1_0000
    requires p == QueryHeader(id) + EncodedName(host) + WordBytes(kind) + WordBytes(1)
    ensures Holds(p, 12, host)
    ensures var end := 12 + |EncodedName(host)|;
            |p| == end + 4 && Word(p, end) == kind && Word(p, end + 2) == 1
    ensures Word(p, 0) == id && Word(p, 2) == 0x0100 && Word(p, 4) == 1
  {
    hide EncodedName;
    var name := EncodedName(host);
    assert p[12..12 + |name|] == name;
  }

  /** A name on the wire is at most two bytes longer than its text. */
  lemma {:induction false} EncodedLength(host: string)
    requires host == "" || LabelsOk(host, false, false)
    ensures |EncodedName(host)| <= |host| + 2
    decreases |host|
  {
    hide LabelOk;
    if FirstDot(host) < |host| {
      EncodedLength(host[FirstDot(host) + 1..]);
    }
  }

  /** `n` labels of one letter each. */
  function Letters(n: nat): (s: string)
    requires n > 0
    ensures |s| == 2 * n - 1
  {
    if n == 1 then "a" else "a." + Letters(n - 1)
  }

  /** One letter in front of a canonical name. */
  lemma OneMoreLabel(rest: string)
    requires Canonical(rest)
    ensures Canonical("a." + rest) && LabelCount("a." + rest) == 1 + LabelCount(rest)
  {
    var s := "a." + rest;
    assert s[1..][0] == '.' && FirstDot(s[1..]) == 0 && FirstDot(s) == 1;
    assert s[2..] == rest && s[..1] == "a";
    assert forall i :: 2 <= i < |s| ==> s[i] == rest[i - 2] && Lower(rest[i - 2]) == LowerAll(rest)[i - 2];
    assert LowerAll(s) == s;
  }

  lemma {:induction false} LettersAreCanonical(n: nat)
    requires n > 0
    ensures Canonical(Letters(n)) && LabelCount(Letters(n)) == n && !IsBlank(Letters(n)[0])
    ensures Letters(n)[|Letters(n)| - 1] == 'a'
  {
    hide Canonical;
    hide LabelCount;
    OneLetter();
    if n > 1 {
      LettersAreCanonical(n - 1);
      OneMoreLabel(Letters(n - 1));
    }
  }

  lemma OneLetter()
    ensures Canonical("a") && LabelCount("a") == 1
  {
    assert FirstDot("a") == 1;
    assert LowerAll("a") == "a";
  }

  /** The hop limit is exactly reached: 127 labels make a query that parses, with not one hop to spare. */
  lemma HopLimitIsReached(kind: nat, id: nat)
    requires id < 0x1_0000 && kind < 0x1_0000
    ensures QueryOf(Letters(127), kind, id).Ok?
    ensures QuestionOf(QueryOf(Letters(127), kind, id).value).Ok?
    ensures NameText(QueryOf(Letters(127), kind, id).value, 12, 1, "").Err?
  {
    hide EncodedName;
    hide LabelsOk;
    hide NameText;
    LettersAreCanonical(127);
    assert Trimmed(Letters(127)) == Letters(127);
    QueryRoundTrip(Letters(127), kind, id);
    var p := QueryOf(Letters(127), kind, id).value;
    if NameText(p, 12, 1, "").Ok? {
      PlainHops(p, 12, 1, "");
    }
  }
}
