/** Names on the wire by the offsets they lead over: sections 3.1 and 4.1.4 of RFC 1035, as `name` in dns_packet.cpp reads them. */
module WireNames {
  import opened Bytes
  import opened DnsName

  /** Printable ASCII but for the dot. */
  predicate MayStand(b: byte) { 33 <= b <= 126 && b as char != '.' }

  /** A label of 1 to 63 bytes that may stand in one. */
  predicate LabelAt(p: Packet, at: nat)
  {
    && at < |p| && 1 <= p[at] <= 63 && at + 1 + p[at] as int <= |p|
    && forall i :: at < i <= at + p[at] as int ==> MayStand(p[i])
  }

  /** Two bytes from 192 on, whose other 14 bits are an offset in front, behind the header. */
  predicate PointerAt(p: Packet, at: nat)
  {
    at + 2 <= |p| && p[at] >= 192 && 12 <= p[at] as int % 64 * 256 + p[at + 1] as int < at
  }

  /** Behind a label stands what follows it; a pointer leads to the offset it gives. */
  predicate LeadsTo(p: Packet, at: nat, next: nat)
  {
    (LabelAt(p, at) && next == at + 1 + p[at] as int) || (PointerAt(p, at) && next == p[at] as int % 64 * 256 + p[at + 1] as int)
  }

  /** From one offset to the next, up to a zero byte. */
  predicate IsPath(p: Packet, path: seq<nat>)
  {
    && path != [] && (forall i :: 0 <= i < |path| - 1 ==> LeadsTo(p, path[i], path[i + 1]))
    && path[|path| - 1] < |p| && p[path[|path| - 1]] == 0
  }

  function Small(c: char): (r: char) { if 'A' <= c <= 'Z' then c - 'A' + 'a' else c }

  function SmallText(bytes: Packet): (s: string)
    ensures |s| == |bytes|
  {
    seq(|bytes|, i requires 0 <= i < |bytes| => Small(bytes[i] as char))
  }

  function PartAt(p: Packet, at: nat): (text: string)
    requires LabelAt(p, at)
  {
    SmallText(p[at + 1..at + 1 + p[at] as int])
  }

  /** The labels on a path, in lower case. */
  function LabelsOn(p: Packet, path: seq<nat>): (labels: seq<string>)
  {
    if path == [] then []
    else (if LabelAt(p, path[0]) then [PartAt(p, path[0])] else []) + LabelsOn(p, path[1..])
  }

  /** Labels behind a text, with dots between them. */
  function WithDots(text: string, labels: seq<string>): (s: string)
    ensures |text| <= |s|
    decreases |labels|
  {
    if labels == [] then text else WithDots(if text == "" then labels[0] else text + "." + labels[0], labels[1..])
  }

  /** Behind the first pointer, or behind the zero byte. */
  function EndOn(p: Packet, path: seq<nat>): (end: nat)
    requires path != []
  {
    if PointerAt(p, path[0]) then path[0] + 2 else if |path| == 1 then path[0] + 1 else EndOn(p, path[1..])
  }

  lemma {:induction false} SameLabel(p: Packet, from: nat, to: nat)
    requires from <= to <= |p| && forall i :: from <= i < to ==> MayStand(p[i])
    ensures HostBytes(p, from, to) && LabelText(p, from, to) == SmallText(p[from..to])
  {
    if from < to {
      SameLabel(p, from, to - 1);
      assert p[from..to] == p[from..to - 1] + [p[to - 1]];
    }
  }

  lemma PieceOfPath(p: Packet, at: nat)
    ensures LabelAt(p, at) ==>
              PieceAt(p, at).Label? && PieceAt(p, at).text == PartAt(p, at) && forall next :: LeadsTo(p, at, next) <==> next == PieceAt(p, at).next
    ensures PointerAt(p, at) ==> PieceAt(p, at).Pointer? && forall next :: LeadsTo(p, at, next) <==> next == PieceAt(p, at).target
    ensures at < |p| && p[at] == 0 ==> PieceAt(p, at) == DnsName.Root
    ensures PieceAt(p, at).Label? ==> LabelAt(p, at)
    ensures PieceAt(p, at).Pointer? ==> PointerAt(p, at)
    ensures PieceAt(p, at).Root? ==> at < |p| && p[at] == 0
  {
    hide LabelText;
    hide SmallText;
    if at < |p| && 1 <= p[at] <= 63 && at + 1 + p[at] as int <= |p| {
      var next := at + 1 + p[at] as int;
      if LabelAt(p, at) {
        SameLabel(p, at + 1, next);
      } else {
        assert !HostBytes(p, at + 1, next);
      }
    }
    if at < |p| && p[at] >= 192 {
      assert p[at] as int % 64 == p[at] as int - 192;
    }
  }

  lemma {:induction false} PathReads(p: Packet, path: seq<nat>, hops: nat, text: string)
    requires path != [] && IsPath(p, path) && hops + |path| <= 128 && |WithDots(text, LabelsOn(p, path))| <= 253
    ensures NameText(p, path[0], hops, text) == Ok(WithDots(text, LabelsOn(p, path)))
    decreases |path|
  {
    hide *;
    var at := path[0];
    HopLimit();
    NameStep(p, at, hops, text);
    PieceOfPath(p, at);
    if |path| == 1 {
      OneZero(p, path);
      Undotted(text);
    } else {
      Unrolled(p, path);
      if LabelAt(p, at) {
        Undotted(text);
        Dots(text, PartAt(p, at), LabelsOn(p, path[1..]));
        PathReads(p, path[1..], hops + 1, Dotted(text) + PartAt(p, at));
      } else {
        PathReads(p, path[1..], hops + 1, text);
      }
    }
  }

  lemma HopLimit()
    ensures MAX_HOPS == 128 && DnsName.MAX_TEXT == 253
  {
  }

  lemma Undotted(text: string)
    ensures WithDots(text, []) == text
  {
  }

  lemma Dots(text: string, part: string, labels: seq<string>)
    ensures WithDots(text, [part] + labels) == WithDots(Dotted(text) + part, labels)
    ensures |Dotted(text) + part| <= |WithDots(text, [part] + labels)|
  {
    assert ([part] + labels)[1..] == labels;
    assert "" + part == part;
    assert text + "." + part == (text + ".") + part;
  }

  lemma OneZero(p: Packet, path: seq<nat>)
    requires IsPath(p, path) && |path| == 1
    ensures path[0] < |p| && p[path[0]] == 0 && LabelsOn(p, path) == []
  {
    assert path[1..] == [];
  }

  lemma ZeroPath(p: Packet, at: nat)
    requires at < |p| && p[at] == 0
    ensures IsPath(p, [at]) && LabelsOn(p, [at]) == []
  {
  }

  /** The first step of a path that has more. */
  lemma Unrolled(p: Packet, path: seq<nat>)
    requires IsPath(p, path) && |path| > 1
    ensures LeadsTo(p, path[0], path[1]) && IsPath(p, path[1..]) && path[1..][0] == path[1]
    ensures LabelAt(p, path[0]) || PointerAt(p, path[0])
    ensures LabelsOn(p, path) ==
            if LabelAt(p, path[0]) then [PartAt(p, path[0])] + LabelsOn(p, path[1..]) else LabelsOn(p, path[1..])
    ensures EndOn(p, path) == if PointerAt(p, path[0]) then path[0] + 2 else EndOn(p, path[1..])
  {
    hide PartAt;
    assert [] + LabelsOn(p, path[1..]) == LabelsOn(p, path[1..]);
  }

  lemma {:induction false} ReadsOverPath(p: Packet, at: nat, hops: nat, text: string) returns (path: seq<nat>)
    requires hops <= 128 && NameText(p, at, hops, text).Ok?
    ensures IsPath(p, path) && path[0] == at && hops + |path| <= 128
    ensures NameText(p, at, hops, text).value == WithDots(text, LabelsOn(p, path))
    ensures |NameText(p, at, hops, text).value| <= 253 || NameText(p, at, hops, text).value == text
    decreases 128 - hops
  {
    hide *;
    HopLimit();
    NameStep(p, at, hops, text);
    PieceOfPath(p, at);
    if PieceAt(p, at).Root? {
      path := [at];
      ZeroPath(p, at);
      Undotted(text);
    } else if PieceAt(p, at).Pointer? {
      var rest := ReadsOverPath(p, PieceAt(p, at).target, hops + 1, text);
      path := [at] + rest;
      Longer(p, at, rest);
    } else {
      var longer := Dotted(text) + PieceAt(p, at).text;
      var rest := ReadsOverPath(p, PieceAt(p, at).next, hops + 1, longer);
      path := [at] + rest;
      Longer(p, at, rest);
      Dots(text, PartAt(p, at), LabelsOn(p, rest));
    }
  }

  lemma Longer(p: Packet, at: nat, rest: seq<nat>)
    requires IsPath(p, rest) && LeadsTo(p, at, rest[0])
    ensures var path := [at] + rest;
            && IsPath(p, path)
            && LabelsOn(p, path) == if LabelAt(p, at) then [PartAt(p, at)] + LabelsOn(p, rest) else LabelsOn(p, rest)
  {
    hide LeadsTo;
    hide PartAt;
    var path := [at] + rest;
    assert path[1..] == rest && path[|path| - 1] == rest[|rest| - 1];
    forall i | 0 <= i < |path| - 1
      ensures LeadsTo(p, path[i], path[i + 1])
    {
      if i > 0 {
        assert path[i] == rest[i - 1] && path[i + 1] == rest[i];
      }
    }
    assert [] + LabelsOn(p, rest) == LabelsOn(p, rest);
  }

  lemma {:induction false} PathEnds(p: Packet, path: seq<nat>)
    requires IsPath(p, path)
    ensures NameEnd(p, path[0]) == EndOn(p, path)
    decreases |path|
  {
    hide LabelsOn;
    if |path| > 1 {
      Unrolled(p, path);
      PathEnds(p, path[1..]);
    }
  }

  /** A path, its name, and what is behind it. */
  predicate Spells(p: Packet, at: nat, path: seq<nat>, text: string, end: nat)
  {
    && IsPath(p, path) && path[0] == at && |path| <= 128
    && text == WithDots("", LabelsOn(p, path)) && |text| <= 253 && end == EndOn(p, path)
  }

  /**
   A name is read exactly where a path of at most 128 offsets leads to a zero byte: over labels of 1 to 63 printable bytes and
   over pointers that lead back. The text is the labels on it in lower case with dots between them, at most 253 characters; the
   name ends behind its first pointer, or else behind the zero byte.
   */
  lemma NameExactly(p: Packet, at: nat, text: string, end: nat)
    ensures NameAt(p, at) == Ok((text, end)) <==> exists path :: Spells(p, at, path, text, end)
  {
    hide LeadsTo;
    hide LabelsOn;
    hide EndOn;
    hide NameText;
    hide NameEnd;
    hide WithDots;
    if NameAt(p, at) == Ok((text, end)) {
      var path := ReadsOverPath(p, at, 0, "");
      PathEnds(p, path);
      NothingIsShort();
      assert Spells(p, at, path, text, end);
    }
    if path :| Spells(p, at, path, text, end) {
      PathReads(p, path, 0, "");
      PathEnds(p, path);
    }
  }

  lemma NothingIsShort()
    ensures WithDots("", []) == ""
  {
  }
}
