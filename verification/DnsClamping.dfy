/** Bounding TTLs before a response is cached: `clamp_dns_ttl` of dns_packet.cpp. */
module DnsClamping {
  import opened Bytes
  import opened DnsName
  import opened DnsQuestion
  import opened DnsAgeing
  import opened DnsResponse

  /** RRSIG, TKEY and TSIG records freeze the whole packet. */
  predicate Frozen(kind: nat) { kind == 46 || kind == 249 || kind == 250 }

  ghost predicate HasFrozen(slots: seq<Slot>)
  {
    exists k :: 0 <= k < |slots| && Frozen(slots[k].kind)
  }

  ghost function ClampedResponse(p: Packet, minimum: nat, maximum: nat): (r: Result<Packet>)
    requires maximum < 0x1_0000_0000
  {
    if minimum > maximum then Err("CONFIG_SETTING") else
    var q :- QuestionOf(p);
    var a :- ResponseOf(p, q);
    if a.truncated || a.authenticated then Ok(p) else
    var slots := RecordLayout(p).0;
    LayoutOrdered(p, q.end, RecordCount(p));
    if HasFrozen(slots) then Ok(p) else Ok(Rewrite(p, slots, Clamp(minimum, maximum)))
  }

  /** The offsets of the TTLs to rewrite, in record order. */
  ghost function TtlOffsets(slots: seq<Slot>): (r: seq<nat>)
  {
    if slots == [] then []
    else
      var last := slots[|slots| - 1];
      TtlOffsets(slots[..|slots| - 1]) + if last.kind == OPT then [] else [last.at + 4]
  }

  ghost predicate OffsetsInside(offsets: seq<nat>, size: nat)
  {
    forall k :: 0 <= k < |offsets| ==> offsets[k] + 4 <= size
  }

  ghost function PutAll(p: Packet, offsets: seq<nat>, rule: TtlRule): (r: Packet)
    requires rule.Fits() && OffsetsInside(offsets, |p|)
    ensures |r| == |p|
  {
    if offsets == [] then p
    else
      var x, at := PutAll(p, offsets[..|offsets| - 1], rule), offsets[|offsets| - 1];
      PutDword(x, at, rule.Apply(Dword(x, at)))
  }

  /** Collecting offsets first and writing afterwards is the same rewriting. */
  lemma {:induction false} PutAllIsRewrite(p: Packet, slots: seq<Slot>, rule: TtlRule)
    requires rule.Fits() && AllInside(slots, |p|)
    ensures OffsetsInside(TtlOffsets(slots), |p|)
    ensures PutAll(p, TtlOffsets(slots), rule) == Rewrite(p, slots, rule)
  {
    hide *;
    if slots == [] {
      NothingPut(p, rule);
    } else {
      var rest, last := slots[..|slots| - 1], slots[|slots| - 1];
      OffsetsUnrolled(slots, |p|);
      RewriteUnrolled(p, slots, rule);
      PutAllIsRewrite(p, rest, rule);
      SlotPut(Rewrite(p, rest, rule), last, rule);
      if last.kind == OPT {
        assert TtlOffsets(slots) == TtlOffsets(rest);
      } else {
        OneMorePut(p, TtlOffsets(rest), last.at + 4, rule);
      }
    }
  }

  lemma NothingPut(p: Packet, rule: TtlRule)
    requires rule.Fits()
    ensures OffsetsInside(TtlOffsets([]), |p|) && PutAll(p, TtlOffsets([]), rule) == p
    ensures AllInside([], |p|) && Rewrite(p, [], rule) == p
  {
  }

  lemma {:induction false} OffsetsUnrolled(slots: seq<Slot>, size: nat)
    requires slots != [] && AllInside(slots, size)
    ensures AllInside(slots[..|slots| - 1], size) && slots[|slots| - 1].at + 8 <= size
    ensures TtlOffsets(slots) ==
            TtlOffsets(slots[..|slots| - 1]) + if slots[|slots| - 1].kind == OPT then [] else [slots[|slots| - 1].at + 4]
  {
  }

  lemma RewriteUnrolled(p: Packet, slots: seq<Slot>, rule: TtlRule)
    requires slots != [] && AllInside(slots, |p|) && rule.Fits()
    ensures Rewrite(p, slots, rule) == RewriteSlot(Rewrite(p, slots[..|slots| - 1], rule), slots[|slots| - 1], rule)
  {
    hide RewriteSlot;
  }

  lemma SlotPut(x: Packet, s: Slot, rule: TtlRule)
    requires s.at + 8 <= |x| && rule.Fits()
    ensures RewriteSlot(x, s, rule) == if s.kind == OPT then x else PutDword(x, s.at + 4, rule.Apply(Dword(x, s.at + 4)))
  {
    hide PutDword;
    hide Dword;
  }

  lemma OneMorePut(p: Packet, offsets: seq<nat>, at: nat, rule: TtlRule)
    requires rule.Fits() && OffsetsInside(offsets, |p|) && at + 4 <= |p|
    ensures OffsetsInside(offsets + [at], |p|)
    ensures var x := PutAll(p, offsets, rule);
            PutAll(p, offsets + [at], rule) == PutDword(x, at, rule.Apply(Dword(x, at)))
  {
    hide PutDword;
    hide Dword;
    assert (offsets + [at])[..|offsets|] == offsets;
  }

  method ClampDnsTtl(response: Packet, minimum: nat, maximum: nat) returns (r: Result<Packet>)
    requires maximum < 0x1_0000_0000
    ensures r == ClampedResponse(response, minimum, maximum)
  {
    hide Layout;
    hide Rewrite;
    hide ResponseOf;
    hide QuestionOf;
    hide HasFrozen;
    hide Records;
    if minimum > maximum {
      return Err("CONFIG_SETTING");
    }
    var question :- ParseQuestion(response);
    var parsed :- ParseResponse(response, question);
    if parsed.truncated || parsed.authenticated {
      return Ok(response);
    }
    ResponseFits(response, question);
    var offsets := CollectOffsets(response, question.end, RecordCount(response));
    if offsets.None? {
      return Ok(response);
    }
    PutAllIsRewrite(response, RecordLayout(response).0, Clamp(minimum, maximum));
    var result := WriteTtls(response, offsets.value, Clamp(minimum, maximum));
    return Ok(result);
  }

  /** The second loop: every collected TTL is rewritten. */
  method WriteTtls(response: Packet, offsets: seq<nat>, rule: TtlRule) returns (result: Packet)
    requires rule.Fits() && OffsetsInside(offsets, |response|)
    ensures result == PutAll(response, offsets, rule)
  {
    hide Dword;
    result := response;
    var k: nat := 0;
    while k < |offsets|
      invariant k <= |offsets|
      invariant result == PutAll(response, offsets[..k], rule)
    {
      var ttl := Dword(result, offsets[k]);
      result := PutDword(result, offsets[k], rule.Apply(ttl));
      assert offsets[..k + 1][..k] == offsets[..k];
      k := k + 1;
    }
    assert offsets[..k] == offsets;
  }

  /** The first loop: the offsets of all TTLs, or nothing when a signed record is met. */
  method CollectOffsets(p: Packet, from: nat, records: nat) returns (r: Option<seq<nat>>)
    requires Records(p, from, records).Ok?
    ensures r.None? <==> HasFrozen(Layout(p, from, records).0)
    ensures r.Some? ==> r.value == TtlOffsets(Layout(p, from, records).0)
  {
    hide *;
    var offsets: seq<nat> := [];
    var at := from;
    var index: nat := 0;
    NothingCollected(p, from);
    while index < records
      invariant index <= records
      invariant at == Layout(p, from, index).1
      invariant offsets == TtlOffsets(Layout(p, from, index).0)
      invariant !HasFrozen(Layout(p, from, index).0)
    {
      NextRound(p, from, index, records);
      var named := ReadName(p, at);
      at := named.value.1;
      var kind, length := Word(p, at), Word(p, at + 8);
      if Frozen(kind) {
        return None;
      }
      if kind != OPT {
        offsets := offsets + [at + 4];
      }
      at := at + 10 + length;
      index := index + 1;
    }
    return Some(offsets);
  }

  lemma NothingCollected(p: Packet, from: nat)
    ensures Layout(p, from, 0).1 == from && TtlOffsets(Layout(p, from, 0).0) == [] && !HasFrozen(Layout(p, from, 0).0)
  {
  }

  /** One round of the first loop. */
  lemma NextRound(p: Packet, from: nat, index: nat, records: nat)
    requires index < records && Records(p, from, records).Ok?
    ensures NameAt(p, Layout(p, from, index).1).Ok? && NameAt(p, Layout(p, from, index).1).value.1 + 10 <= |p|
    ensures var (slots, e) := (Layout(p, from, index).0, NameAt(p, Layout(p, from, index).1).value.1);
            var next := Layout(p, from, index + 1);
            && next.1 == e + 10 + Word(p, e + 8)
            && TtlOffsets(next.0) == TtlOffsets(slots) + (if Word(p, e) == OPT then [] else [e + 4])
            && (HasFrozen(next.0) <==> HasFrozen(slots) || Frozen(Word(p, e)))
            && (Frozen(Word(p, e)) ==> HasFrozen(Layout(p, from, records).0))
  {
    hide *;
    NextRecord(p, from, index, records);
    NextCollected(p, from, index, records);
  }

  /** What the next record adds to the offsets, and that a frozen one freezes the whole response. */
  lemma NextCollected(p: Packet, from: nat, index: nat, records: nat)
    requires index < records && Records(p, from, records).Ok?
    ensures NameAt(p, Layout(p, from, index).1).Ok? && NameAt(p, Layout(p, from, index).1).value.1 + 10 <= |p|
    ensures var slots, e := Layout(p, from, index).0, NameAt(p, Layout(p, from, index).1).value.1;
            var next := Layout(p, from, index + 1).0;
            && TtlOffsets(next) == TtlOffsets(slots) + (if Word(p, e) == OPT then [] else [e + 4])
            && (HasFrozen(next) <==> HasFrozen(slots) || Frozen(Word(p, e)))
            && (Frozen(Word(p, e)) ==> HasFrozen(Layout(p, from, records).0))
  {
    hide Layout;
    hide NameAt;
    hide NameEnd;
    hide Word;
    hide Records;
    NextRecord(p, from, index, records);
    var slots, e := Layout(p, from, index).0, NameAt(p, Layout(p, from, index).1).value.1;
    OneCollected(slots, Slot(e, Word(p, e), Word(p, e + 8)));
  }

  lemma OneCollected(slots: seq<Slot>, s: Slot)
    ensures TtlOffsets(slots + [s]) == TtlOffsets(slots) + (if s.kind == OPT then [] else [s.at + 4])
    ensures HasFrozen(slots + [s]) <==> HasFrozen(slots) || Frozen(s.kind)
  {
    assert (slots + [s])[..|slots|] == slots;
    assert (slots + [s])[|slots|] == s;
    assert forall k :: 0 <= k < |slots| ==> (slots + [s])[k] == slots[k];
  }

  /** The `index`-th round of reading a complete sequence of records. */
  lemma NextRecord(p: Packet, from: nat, index: nat, records: nat)
    requires index < records && Records(p, from, records).Ok?
    ensures var (slots, at) := Layout(p, from, index);
            && NameAt(p, at).Ok?
            && var e := NameAt(p, at).value.1;
            && e + 10 <= |p| && |slots| == index
            && Layout(p, from, index + 1) == (slots + [Slot(e, Word(p, e), Word(p, e + 8))], e + 10 + Word(p, e + 8))
    ensures |Layout(p, from, records).0| == records
    ensures Layout(p, from, records).0[index] == Layout(p, from, index + 1).0[index]
  {
    hide NameText;
    hide NameEnd;
    hide Word;
    hide Dword;
    RecordsPrefix(p, from, index + 1, records);
    RecordsAndLayout(p, from, index);
    RecordsAndLayout(p, from, records);
    LayoutPrefix(p, from, index + 1, records);
  }

  /** A parsed response has every record it counts in place. */
  lemma ResponseFits(p: Packet, wanted: Question)
    requires ResponseOf(p, wanted).Ok? && !ResponseOf(p, wanted).value.truncated
    ensures |p| >= 12 && QuestionOf(p).Ok? && Records(p, QuestionOf(p).value.end, RecordCount(p)).Ok?
    ensures AllInside(RecordLayout(p).0, |p|) && RecordLayout(p).1 == |p| && |RecordLayout(p).0| == RecordCount(p)
  {
    hide ResponseOf;
    hide QuestionOf;
    hide RecordAt;
    hide Layout;
    hide Records;
    hide Scanned;
    hide Describes;
    ResponseScanned(p, wanted);
    QuestionShape(p);
    var from, n := QuestionOf(p).value.end, RecordCount(p);
    ScanDescribes(p, from, n, CountsOf(p), wanted);
    RecordsAndLayout(p, from, n);
    LayoutOrdered(p, from, n);
  }

  /** Truncated, authenticated and signed responses are left alone. */
  ghost predicate Untouchable(p: Packet)
    requires QuestionOf(p).Ok?
  {
    IsTruncated(QuestionOf(p).value.flags) || IsAuthenticated(QuestionOf(p).value.flags) || HasFrozen(RecordLayout(p).0)
  }

  lemma ParsedFlags(p: Packet, q: Question)
    requires QuestionOf(p) == Ok(q) && ResponseOf(p, q).Ok?
    ensures ResponseOf(p, q).value.truncated == IsTruncated(q.flags)
    ensures ResponseOf(p, q).value.authenticated == IsAuthenticated(q.flags)
  {
    hide QuestionOf;
    hide Scanned;
    hide Matches;
    hide ReachedAddresses;
  }

  /** Rewriting TTLs leaves header and question alone. */
  lemma RewritingKeepsQuestion(p: Packet, rule: TtlRule)
    requires QuestionOf(p).Ok? && rule.Fits()
    requires AllInside(RecordLayout(p).0, |p|) && |RecordLayout(p).0| == RecordCount(p)
    ensures var r := Rewrite(p, RecordLayout(p).0, rule);
            && |r| == |p| && TtlsRewritten(p, r, rule, 0) && Agree(p, r, 0, QuestionOf(p).value.end)
            && QuestionOf(r) == QuestionOf(p)
  {
    hide Layout;
    hide Rewrite;
    hide NameAt;
    hide Word;
    hide Dword;
    var q := QuestionOf(p).value;
    QuestionShape(p);
    RewriteLaw(p, q.end, RecordCount(p), rule);
    var r := Rewrite(p, RecordLayout(p).0, rule);
    SameCount(p, r);
    SameWord(p, r, 0);
    SameWord(p, r, 2);
    SameWord(p, r, 4);
    QuestionIsLocal(p, r);
  }

  /**
   The clamping law: a successful call leaves an untouchable response as it is; any other keeps its header, question
   and record boundaries and has every TTL outside OPT moved into the bounds, with nothing else changed.
   */
  lemma ClampingLaw(p: Packet, minimum: nat, maximum: nat)
    requires maximum < 0x1_0000_0000 && ClampedResponse(p, minimum, maximum).Ok?
    ensures minimum <= maximum && QuestionOf(p).Ok?
    ensures var r := ClampedResponse(p, minimum, maximum).value;
            && (Untouchable(p) ==> r == p)
            && (!Untouchable(p) ==> TtlsRewritten(p, r, Clamp(minimum, maximum), 0))
            && |r| == |p| && Agree(p, r, 0, QuestionOf(p).value.end)
            && QuestionOf(r) == QuestionOf(p)
  {
    hide Layout;
    hide Rewrite;
    hide QuestionOf;
    hide HasFrozen;
    hide ResponseOf;
    hide TtlsRewritten;
    hide Word;
    var q := QuestionOf(p).value;
    QuestionShape(p);
    ParsedFlags(p, q);
    if !Untouchable(p) {
      ResponseFits(p, q);
      RewritingKeepsQuestion(p, Clamp(minimum, maximum));
    }
  }

  /** Clamping again with the same bounds changes nothing more. */
  lemma ClampingTwice(p: Packet, minimum: nat, maximum: nat)
    requires maximum < 0x1_0000_0000 && ClampedResponse(p, minimum, maximum).Ok?
    requires ClampedResponse(ClampedResponse(p, minimum, maximum).value, minimum, maximum).Ok?
    ensures ClampedResponse(ClampedResponse(p, minimum, maximum).value, minimum, maximum)
         == ClampedResponse(p, minimum, maximum)
  {
    hide Layout;
    hide ClampedResponse;
    hide Word;
    hide Dword;
    hide QuestionOf;
    var r := ClampedResponse(p, minimum, maximum).value;
    var s := ClampedResponse(r, minimum, maximum).value;
    ClampingLaw(p, minimum, maximum);
    ClampingLaw(r, minimum, maximum);
    if !Untouchable(p) && !Untouchable(r) {
      var slots := RecordLayout(p).0;
      forall i | 0 <= i < |p|
        ensures s[i] == r[i]
      {
        if k :| 0 <= k < |slots| && slots[k].Rewrites(i) {
          SameBytes(s, r, slots[k].at + 4);
        }
      }
    }
    assert s == r;
  }

  /**
   The TTLs of a bounded response, in figures: each outside OPT is the one there was, moved up to the least or down to the
   most, unless the response is truncated, authenticated, or has a record of type 46, 249 or 250.
   */
  lemma BoundedTtls(p: Packet, minimum: nat, maximum: nat)
    requires maximum < 0x1_0000_0000 && ClampedResponse(p, minimum, maximum).Ok?
    ensures minimum <= maximum && QuestionOf(p).Ok?
    ensures var r, flags, slots := ClampedResponse(p, minimum, maximum).value, QuestionOf(p).value.flags, RecordLayout(p).0;
            if flags / 0x200 % 2 == 1 || flags / 0x20 % 2 == 1 || exists k :: 0 <= k < |slots| && slots[k].kind in {46, 249, 250} then r == p
            else
              && |r| == |p| && AllInside(slots, |p|)
              && forall k :: 0 <= k < |slots| && slots[k].kind != 41 ==>
                   var ttl := Dword(p, slots[k].at + 4);
                   Dword(r, slots[k].at + 4) == if ttl < minimum then minimum else if ttl > maximum then maximum else ttl
  {
    hide QuestionOf;
    hide Layout;
    hide ClampedResponse;
    hide Dword;
    ClampingLaw(p, minimum, maximum);
  }

  /** A response is bounded exactly when the bounds are in order and it can be parsed. */
  lemma BoundedExactly(p: Packet, minimum: nat, maximum: nat)
    requires maximum < 0x1_0000_0000
    ensures ClampedResponse(p, minimum, maximum).Ok? <==>
              minimum <= maximum && QuestionOf(p).Ok? && ResponseOf(p, QuestionOf(p).value).Ok?
  {
    hide QuestionOf;
    hide ResponseOf;
    hide Layout;
  }
}
