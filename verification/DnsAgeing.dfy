/**
 Record layout and TTL ageing: `age_dns_response` of dns_packet.cpp.

 The packet is rewritten while it is being read, and a compression pointer may
 lead into TTL bytes that were already rewritten, so names and layout are kept
 apart: the layout depends on bytes in place only.
 */
module DnsAgeing {
  import opened Bytes
  import opened DnsName
  import opened DnsQuestion

  const OPT := 41

  const MAX_RECORDS := 4096

  /** The fixed part of a record: where it starts (after the owner), its type and its data length. */
  datatype Slot = Slot(at: nat, kind: nat, length: nat) {
    /** The offset of the next record. */
    function Next(): nat { at + 10 + length }

    /** Whether byte `i` belongs to a TTL that ageing and clamping may rewrite. */
    predicate Rewrites(i: int) { kind != OPT && at + 4 <= i < at + 8 }
  }

  function RecordCount(p: Packet): (n: nat)
    requires |p| >= 12
  {
    Word(p, 6) + Word(p, 8) + Word(p, 10)
  }

  /** The first `n` records from offset `from` on, by the bytes in place; fewer if one does not fit. */
  ghost function Layout(p: Packet, from: nat, n: nat): (r: (seq<Slot>, nat))
  {
    if n == 0 then ([], from) else
    var (slots, at) := Layout(p, from, n - 1);
    var e := NameEnd(p, at);
    if e + 10 > |p| then (slots, at)
    else
      var s := Slot(e, Word(p, e), Word(p, e + 8));
      (slots + [s], s.Next())
  }

  // ---- Rewriting TTLs ----

  datatype TtlRule = Lower(elapsed: nat) | Clamp(minimum: nat, maximum: nat) {
    function Apply(ttl: nat): (r: nat)
    {
      match this
      case Lower(elapsed) => if ttl > elapsed then ttl - elapsed else 0
      case Clamp(minimum, maximum) => if ttl < minimum then minimum else if maximum < ttl then maximum else ttl
    }

    /** The rule maps 32-bit values to 32-bit values. */
    predicate Fits() { Clamp? ==> minimum <= maximum < 0x1_0000_0000 }
  }

  function RewriteSlot(p: Packet, s: Slot, rule: TtlRule): (r: Packet)
    requires s.at + 8 <= |p| && rule.Fits()
    ensures |r| == |p|
    ensures forall i :: 0 <= i < |p| && !s.Rewrites(i) ==> r[i] == p[i]
    ensures s.kind != OPT ==> Dword(r, s.at + 4) == rule.Apply(Dword(p, s.at + 4))
  {
    if s.kind == OPT then p else PutDword(p, s.at + 4, rule.Apply(Dword(p, s.at + 4)))
  }

  ghost predicate AllInside(slots: seq<Slot>, size: nat)
  {
    forall k :: 0 <= k < |slots| ==> slots[k].at + 8 <= size
  }

  /** `p` with the TTLs of the listed records rewritten one after another. */
  ghost function Rewrite(p: Packet, slots: seq<Slot>, rule: TtlRule): (r: Packet)
    requires AllInside(slots, |p|) && rule.Fits()
    ensures |r| == |p|
  {
    if slots == [] then p
    else RewriteSlot(Rewrite(p, slots[..|slots| - 1], rule), slots[|slots| - 1], rule)
  }

  /** Bytes outside the rewritten TTLs stay. */
  lemma {:induction false} RewriteKeepsByte(p: Packet, slots: seq<Slot>, rule: TtlRule, i: nat)
    requires AllInside(slots, |p|) && rule.Fits() && i < |p|
    requires forall k :: 0 <= k < |slots| ==> !slots[k].Rewrites(i)
    ensures Rewrite(p, slots, rule)[i] == p[i]
  {
    hide RewriteSlot;
    if slots != [] {
      RewriteKeepsByte(p, slots[..|slots| - 1], rule, i);
    }
  }

  /** Each rewritten TTL is the rule applied to the old one. */
  lemma {:induction false} RewriteSetsTtl(p: Packet, slots: seq<Slot>, rule: TtlRule, k: nat)
    requires AllInside(slots, |p|) && rule.Fits() && k < |slots| && slots[k].kind != OPT
    requires forall j, k :: 0 <= j < k < |slots| ==> slots[j].Next() <= slots[k].at
    ensures Dword(Rewrite(p, slots, rule), slots[k].at + 4) == rule.Apply(Dword(p, slots[k].at + 4))
  {
    hide RewriteSlot;
    hide Dword;
    var last := |slots| - 1;
    var x := Rewrite(p, slots[..last], rule);
    if k < last {
      RewriteSetsTtl(p, slots[..last], rule, k);
      SameDword(x, Rewrite(p, slots, rule), slots[k].at + 4);
    } else {
      forall i | slots[k].at + 4 <= i < slots[k].at + 8
        ensures x[i] == p[i]
      {
        RewriteKeepsByte(p, slots[..last], rule, i);
      }
      SameDword(p, x, slots[k].at + 4);
    }
  }

  lemma SameDword(p: Packet, q: Packet, at: nat)
    requires Agree(p, q, at, at + 4)
    ensures Dword(p, at) == Dword(q, at)
  {
  }

  // ---- Ageing ----

  /** The record at `at`: its owner must read well and the whole record must lie inside the packet. */
  ghost function SlotAt(p: Packet, at: nat): (r: Result<Slot>)
    ensures r.Ok? ==>
              var e := NameEnd(p, at);
              e + 10 <= |p| && r.value == Slot(e, Word(p, e), Word(p, e + 8)) && r.value.Next() <= |p|
    ensures r.Err? ==> r.code == MALFORMED
  {
    var (_, e) :- NameAt(p, at);
    if e + 10 > |p| || e + 10 + Word(p, e + 8) > |p| then Err(MALFORMED)
    else Ok(Slot(e, Word(p, e), Word(p, e + 8)))
  }

  method ReadSlot(p: Packet, at: nat) returns (r: Result<Slot>)
    ensures r == SlotAt(p, at)
  {
    var named :- ReadName(p, at);
    var e := named.1;
    if e + 10 > |p| || Word(p, e + 8) > |p| - (e + 10) {
      return Err(MALFORMED);
    }
    return Ok(Slot(e, Word(p, e), Word(p, e + 8)));
  }

  /** The packet and cursor after `n` rounds of the ageing loop. */
  ghost function Aged(p: Packet, from: nat, n: nat, elapsed: nat): (r: Result<(Packet, nat)>)
    ensures if r.Ok? then |r.value.0| == |p| else r.code == MALFORMED
  {
    if n == 0 then Ok((p, from)) else
    var (x, at) :- Aged(p, from, n - 1, elapsed);
    var s :- SlotAt(x, at);
    Ok((RewriteSlot(x, s, Lower(elapsed)), s.Next()))
  }

  function WithId(p: Packet, id: nat): (r: Packet)
    requires |p| >= 2 && id < 0x1_0000
    ensures |r| == |p|
  {
    PutWord(p, 0, id)
  }

  ghost function AgedResponse(p: Packet, id: nat, elapsed: nat): (r: Result<Packet>)
    requires id < 0x1_0000
  {
    var q :- QuestionOf(p);
    if !IsReply(q.flags) || RecordCount(p) > MAX_RECORDS then Err(MALFORMED)
    else
      var (x, at) :- Aged(WithId(p, id), q.end, RecordCount(p), elapsed);
      if at != |p| then Err(MALFORMED) else Ok(x)
  }

  method AgeDnsResponse(response: Packet, id: nat, elapsed: nat) returns (r: Result<Packet>)
    requires id < 0x1_0000
    ensures r == AgedResponse(response, id, elapsed)
  {
    var q :- ParseQuestion(response);
    if !IsReply(q.flags) {
      return Err(MALFORMED);
    }
    var result := WithId(response, id);
    var records := RecordCount(result);
    assert records == RecordCount(response);
    if records > MAX_RECORDS {
      return Err(MALFORMED);
    }
    var aged :- AgeRecords(result, q.end, records, elapsed);
    if aged.1 != |result| {
      return Err(MALFORMED);
    }
    return Ok(aged.0);
  }

  /** The ageing loop: one buffer, read and rewritten in place. */
  method AgeRecords(packet: Packet, from: nat, records: nat, elapsed: nat) returns (r: Result<(Packet, nat)>)
    ensures r == Aged(packet, from, records, elapsed)
  {
    var result, at := packet, from;
    var index: nat := 0;
    while index < records
      invariant index <= records
      invariant Aged(packet, from, index, elapsed) == Ok((result, at))
    {
      var slot := ReadSlot(result, at);
      if slot.Err? {
        AgedFails(packet, from, index + 1, records, elapsed);
        return Err(MALFORMED);
      }
      result := RewriteSlot(result, slot.value, Lower(elapsed));
      at := slot.value.Next();
      index := index + 1;
    }
    return Ok((result, at));
  }

  /** A failed round is final. */
  lemma {:induction false} AgedFails(p: Packet, from: nat, m: nat, n: nat, elapsed: nat)
    requires m <= n && Aged(p, from, m, elapsed).Err?
    ensures Aged(p, from, n, elapsed).Err?
    decreases n
  {
    hide SlotAt;
    hide RewriteSlot;
    if m < n {
      AgedFails(p, from, m, n - 1, elapsed);
    }
  }

  // ---- The ageing law ----

  /** Records of a layout follow one another without overlap. */
  ghost predicate Ordered(slots: seq<Slot>, from: nat, to: nat)
  {
    && (forall k :: 0 <= k < |slots| ==> from <= slots[k].at && slots[k].Next() <= to)
    && (forall j, k :: 0 <= j < k < |slots| ==> slots[j].Next() <= slots[k].at)
  }

  lemma {:induction false} LayoutOrdered(p: Packet, from: nat, n: nat)
    ensures Ordered(Layout(p, from, n).0, from, Layout(p, from, n).1)
    ensures from <= Layout(p, from, n).1
    ensures AllInside(Layout(p, from, n).0, |p|)
  {
    if n > 0 {
      LayoutOrdered(p, from, n - 1);
    }
  }

  /** The `n`-th record of a layout, in terms of the layout before it. */
  lemma {:induction false} LayoutPrefix(p: Packet, from: nat, n: nat, total: nat)
    requires n <= total && |Layout(p, from, total).0| == total
    ensures |Layout(p, from, n).0| == n
    ensures Layout(p, from, n).0 == Layout(p, from, total).0[..n]
    decreases total
  {
    LayoutCount(p, from, total);
    if n < total {
      LayoutCount(p, from, total - 1);
      LayoutPrefix(p, from, n, total - 1);
    }
  }

  lemma {:induction false} LayoutCount(p: Packet, from: nat, n: nat)
    ensures |Layout(p, from, n).0| <= n
  {
    if n > 0 {
      LayoutCount(p, from, n - 1);
    }
  }

  /** The fields that fix a record's place and size are its owner, type and length. */
  lemma SameSlot(p: Packet, r: Packet, at: nat)
    requires |p| == |r| && NameEnd(p, at) + 10 <= |p|
    requires forall i :: at <= i < NameEnd(p, at) + 10 && !(NameEnd(p, at) + 4 <= i < NameEnd(p, at) + 8) ==> r[i] == p[i]
    ensures NameEnd(r, at) == NameEnd(p, at)
    ensures Word(r, NameEnd(p, at)) == Word(p, NameEnd(p, at))
    ensures Word(r, NameEnd(p, at) + 8) == Word(p, NameEnd(p, at) + 8)
  {
    EndIsLocal(p, r, at);
  }

  /** A slot of a layout lies behind its predecessors and before its successors. */
  lemma RewriteKeepsOthers(p: Packet, slots: seq<Slot>, rule: TtlRule, k: nat, at: nat, i: nat)
    requires AllInside(slots, |p|) && rule.Fits() && k < |slots|
    requires forall j, k :: 0 <= j < k < |slots| ==> slots[j].Next() <= slots[k].at
    requires forall j :: 0 <= j < k ==> slots[j].Next() <= at
    requires at <= i < |p| && i < slots[k].Next() && !(slots[k].at + 4 <= i < slots[k].at + 8)
    ensures Rewrite(p, slots, rule)[i] == p[i]
  {
    RewriteKeepsByte(p, slots, rule, i);
  }

  /** A rewriting keeps the layout: the fields it depends on are outside every TTL. */
  lemma {:induction false} LayoutSurvives(p: Packet, from: nat, n: nat, total: nat, rule: TtlRule)
    requires n <= total && |Layout(p, from, total).0| == total && rule.Fits()
    requires AllInside(Layout(p, from, total).0, |p|)
    ensures Layout(Rewrite(p, Layout(p, from, total).0, rule), from, n) == Layout(p, from, n)
  {
    hide Rewrite;
    hide Word;
    hide NameEnd;
    if n > 0 {
      var slots := Layout(p, from, total).0;
      var r := Rewrite(p, slots, rule);
      LayoutSurvives(p, from, n - 1, total, rule);
      LayoutStep(p, from, n, total);
      var at, e := Layout(p, from, n - 1).1, slots[n - 1].at;
      forall i | at <= i < e + 10 && !(e + 4 <= i < e + 8)
        ensures r[i] == p[i]
      {
        RewriteKeepsOthers(p, slots, rule, n - 1, at, i);
      }
      SameSlot(p, r, at);
    }
  }

  lemma LayoutUnrolled(p: Packet, from: nat, n: nat)
    requires n > 0 && |Layout(p, from, n - 1).0| == n - 1 && |Layout(p, from, n).0| == n
    ensures var e := NameEnd(p, Layout(p, from, n - 1).1);
            e + 10 <= |p| && Layout(p, from, n).0 == Layout(p, from, n - 1).0 + [Slot(e, Word(p, e), Word(p, e + 8))]
  {
    hide NameEnd;
    hide Word;
  }

  /** Everything known about the `n`-th record of a complete layout. */
  lemma LayoutStep(p: Packet, from: nat, n: nat, total: nat)
    requires 0 < n <= total && |Layout(p, from, total).0| == total
    ensures var slots := Layout(p, from, total).0;
            var at := Layout(p, from, n - 1).1;
            && Ordered(slots, from, Layout(p, from, total).1)
            && NameEnd(p, at) == slots[n - 1].at && slots[n - 1].at + 10 <= |p|
            && slots[n - 1] == Slot(NameEnd(p, at), Word(p, NameEnd(p, at)), Word(p, NameEnd(p, at) + 8))
            && Layout(p, from, n).0 == Layout(p, from, n - 1).0 + [slots[n - 1]]
            && (forall j :: 0 <= j < n - 1 ==> slots[j].Next() <= at)
  {
    hide Word;
    hide NameEnd;
    LayoutPrefix(p, from, n - 1, total);
    LayoutPrefix(p, from, n, total);
    LayoutOrdered(p, from, n - 1);
    LayoutOrdered(p, from, total);
    LayoutUnrolled(p, from, n);
    hide Layout;
    assert forall j :: 0 <= j < n - 1 ==> Layout(p, from, n - 1).0[j] == Layout(p, from, total).0[j];
    assert Layout(p, from, n).0[n - 1] == Layout(p, from, total).0[n - 1];
  }

  /** Behind the cursor nothing has changed yet, so the layout of the original packet sees the same record. */
  lemma SlotInPlace(p: Packet, x: Packet, at: nat)
    requires |p| == |x| && Agree(p, x, at, |p|) && SlotAt(x, at).Ok?
    ensures var s := SlotAt(x, at).value;
            && NameEnd(p, at) == s.at && s.Next() <= |p|
            && Word(p, s.at) == s.kind && Word(p, s.at + 8) == s.length
  {
    hide SlotAt;
    hide NameEnd;
    EndIsLocal(x, p, at);
  }

  lemma AgedStep(p: Packet, x: Packet, slots: seq<Slot>, at: nat, elapsed: nat)
    requires AllInside(slots, |p|) && x == Rewrite(p, slots, Lower(elapsed))
    requires Agree(p, x, at, |p|) && SlotAt(x, at).Ok?
    ensures var s := SlotAt(x, at).value;
            && s.Next() <= |p| && AllInside(slots + [s], |p|)
            && Rewrite(p, slots + [s], Lower(elapsed)) == RewriteSlot(x, s, Lower(elapsed))
            && Agree(p, RewriteSlot(x, s, Lower(elapsed)), s.Next(), |p|)
  {
    hide SlotAt;
    hide NameEnd;
    hide Rewrite;
    hide RewriteSlot;
    var s := SlotAt(x, at).value;
    RewriteSnoc(p, slots, s, Lower(elapsed));
    assert forall i :: s.Next() <= i < |p| ==> !s.Rewrites(i);
  }

  lemma RewriteSnoc(p: Packet, slots: seq<Slot>, s: Slot, rule: TtlRule)
    requires AllInside(slots, |p|) && s.Next() <= |p| && rule.Fits()
    ensures AllInside(slots + [s], |p|)
    ensures Rewrite(p, slots + [s], rule) == RewriteSlot(Rewrite(p, slots, rule), s, rule)
  {
    hide RewriteSlot;
    assert (slots + [s])[..|slots|] == slots;
  }

  /** Successful rounds amount to one rewriting of the records they met, and touch nothing behind the cursor. */
  lemma {:induction false} AgedLaw(p: Packet, from: nat, n: nat, elapsed: nat)
    requires from <= |p| && Aged(p, from, n, elapsed).Ok?
    ensures var (slots, at) := Layout(p, from, n);
            && |slots| == n && at <= |p| && AllInside(slots, |p|)
            && Aged(p, from, n, elapsed) == Ok((Rewrite(p, slots, Lower(elapsed)), at))
            && Agree(p, Rewrite(p, slots, Lower(elapsed)), at, |p|)
  {
    hide SlotAt;
    hide NameEnd;
    hide RewriteSlot;
    hide Rewrite;
    if n > 0 {
      AgedLaw(p, from, n - 1, elapsed);
      var slots, at := Layout(p, from, n - 1).0, Layout(p, from, n - 1).1;
      SlotInPlace(p, Rewrite(p, slots, Lower(elapsed)), at);
      AgedStep(p, Rewrite(p, slots, Lower(elapsed)), slots, at, elapsed);
    } else {
      assert Rewrite(p, [], Lower(elapsed)) == p by { RewriteNothing(p, Lower(elapsed)); }
    }
  }

  lemma RewriteNothing(p: Packet, rule: TtlRule)
    requires rule.Fits()
    ensures Rewrite(p, [], rule) == p
  {
  }

  lemma {:induction false} LayoutLocal(p: Packet, q: Packet, from: nat, n: nat)
    requires |p| == |q| && Agree(p, q, from, |p|)
    ensures Layout(p, from, n) == Layout(q, from, n)
  {
    hide NameEnd;
    hide Word;
    if n > 0 {
      LayoutLocal(p, q, from, n - 1);
      LayoutOrdered(p, from, n - 1);
      EndIsLocal(p, q, Layout(p, from, n - 1).1);
      var e := NameEnd(p, Layout(p, from, n - 1).1);
      if e + 10 <= |p| {
        SameWord(p, q, e);
        SameWord(p, q, e + 8);
      }
    }
  }

  lemma SameWord(p: Packet, q: Packet, at: nat)
    requires Agree(p, q, at, at + 2)
    ensures Word(p, at) == Word(q, at)
  {
  }

  /** The records of a message: their layout behind the question. */
  ghost function RecordLayout(p: Packet): (r: (seq<Slot>, nat))
    requires QuestionOf(p).Ok?
  {
    Layout(p, QuestionOf(p).value.end, RecordCount(p))
  }

  /** `r` is a message with the layout of `p`, its TTLs put through `rule`, and all other bytes from `kept` on as they were. */
  ghost predicate TtlsRewritten(p: Packet, r: Packet, rule: TtlRule, kept: nat)
    requires QuestionOf(p).Ok?
  {
    var (slots, end) := RecordLayout(p);
    && |r| == |p| && RecordCount(r) == RecordCount(p)
    && Layout(r, QuestionOf(p).value.end, RecordCount(p)) == (slots, end)
    && |slots| == RecordCount(p) && AllInside(slots, |p|)
    && (forall k :: 0 <= k < |slots| && slots[k].kind != OPT ==>
          Dword(r, slots[k].at + 4) == rule.Apply(Dword(p, slots[k].at + 4)))
    && (forall i :: kept <= i < |p| && (forall k :: 0 <= k < |slots| ==> !slots[k].Rewrites(i)) ==> r[i] == p[i])
  }

  /**
   The ageing law: a successful call sets the ID, lowers every TTL outside OPT by the elapsed seconds, not below
   zero, changes nothing else, and keeps every record boundary; the records fill the packet exactly.
   */
  lemma AgeingLaw(p: Packet, id: nat, elapsed: nat)
    requires id < 0x1_0000 && AgedResponse(p, id, elapsed).Ok?
    ensures var r := AgedResponse(p, id, elapsed).value;
            && TtlsRewritten(p, r, Lower(elapsed), 2) && RecordLayout(p).1 == |p|
            && Word(r, 0) == id
  {
    hide NameAt;
    hide Aged;
    hide Layout;
    hide RecordCount;
    hide Rewrite;
    hide Word;
    hide Dword;
    var start, from, n := WithId(p, id), QuestionOf(p).value.end, RecordCount(p);
    QuestionShape(p);
    SameCount(p, start);
    AgedLaw(start, from, n, elapsed);
    LayoutLocal(p, start, from, n);
    LayoutOrdered(p, from, n);
    RewriteLaw(start, from, n, Lower(elapsed));
    var slots, r := Layout(p, from, n).0, AgedResponse(p, id, elapsed).value;
    SameCount(start, r);
    forall k | 0 <= k < |slots|
      ensures Dword(start, slots[k].at + 4) == Dword(p, slots[k].at + 4)
    {
      SameDword(start, p, slots[k].at + 4);
    }
    SameWord(start, r, 0);
  }

  lemma SameCount(p: Packet, q: Packet)
    requires |p| >= 12 && Agree(p, q, 6, 12)
    ensures RecordCount(p) == RecordCount(q)
  {
  }

  /** The pointwise reading of one rewriting of a complete layout. */
  lemma RewriteLaw(p: Packet, from: nat, n: nat, rule: TtlRule)
    requires |Layout(p, from, n).0| == n && rule.Fits() && AllInside(Layout(p, from, n).0, |p|)
    ensures var slots := Layout(p, from, n).0;
            var r := Rewrite(p, slots, rule);
            && Layout(r, from, n) == Layout(p, from, n)
            && (forall k :: 0 <= k < |slots| && slots[k].kind != OPT ==>
                  Dword(r, slots[k].at + 4) == rule.Apply(Dword(p, slots[k].at + 4)))
            && (forall i :: 0 <= i < |p| && (forall k :: 0 <= k < |slots| ==> !slots[k].Rewrites(i)) ==> r[i] == p[i])
            && (forall i :: 0 <= i < from && i < |p| ==> r[i] == p[i])
  {
    hide Rewrite;
    hide Layout;
    hide NameEnd;
    var slots := Layout(p, from, n).0;
    var r := Rewrite(p, slots, rule);
    LayoutSurvives(p, from, n, n, rule);
    LayoutOrdered(p, from, n);
    forall k | 0 <= k < |slots| && slots[k].kind != OPT
      ensures Dword(r, slots[k].at + 4) == rule.Apply(Dword(p, slots[k].at + 4))
    {
      RewriteSetsTtl(p, slots, rule, k);
    }
    forall i | 0 <= i < |p| && forall k :: 0 <= k < |slots| ==> !slots[k].Rewrites(i)
      ensures r[i] == p[i]
    {
      RewriteKeepsByte(p, slots, rule, i);
    }
  }

  // ---- Ageing twice is ageing once ----

  lemma LastDigit(high: int, low: byte, high': int, low': byte)
    requires high * 256 + low == high' * 256 + low'
    ensures high == high' && low == low'
  {
  }

  /** A 32-bit value determines its four bytes. */
  lemma SameBytes(p: Packet, q: Packet, at: nat)
    requires at + 4 <= |p| && at + 4 <= |q| && Dword(p, at) == Dword(q, at)
    ensures Agree(p, q, at, at + 4)
  {
    var p1, q1 := p[at] as int * 256 + p[at + 1], q[at] as int * 256 + q[at + 1];
    var p2, q2 := p1 * 256 + p[at + 2], q1 * 256 + q[at + 2];
    LastDigit(p2, p[at + 3], q2, q[at + 3]);
    LastDigit(p1, p[at + 2], q1, q[at + 2]);
    LastDigit(p[at], p[at + 1], q[at], q[at + 1]);
  }

  /** `r` differs from `p` in the record `s` only by the rule on its TTL. */
  ghost predicate SlotRewritten(p: Packet, r: Packet, at: nat, s: Slot, rule: TtlRule)
  {
    && |p| == |r| && NameEnd(p, at) == s.at && s.Next() <= |p|
    && Word(p, s.at) == s.kind && Word(p, s.at + 8) == s.length
    && (forall i :: at <= i < s.Next() && !s.Rewrites(i) ==> r[i] == p[i])
    && (s.kind != OPT ==> Dword(r, s.at + 4) == rule.Apply(Dword(p, s.at + 4)))
  }

  /** The twice-aged packet `y` reads record `s` well; so does the packet `z` that is aged once by the sum. */
  lemma TwiceSlot(p: Packet, r: Packet, y: Packet, z: Packet, at: nat, s: Slot, a: nat)
    requires 12 <= at && SlotRewritten(p, r, at, s, Lower(a)) && |y| == |z| == |p|
    requires Agree(y, r, at, |p|) && Agree(z, p, at, |p|) && Agree(y, z, 12, at)
    requires SlotAt(y, at).Ok?
    ensures SlotAt(y, at) == SlotAt(z, at) == Ok(s)
  {
    hide NameText;
    hide NameEnd;
    hide Word;
    forall i | at <= i < s.at + 4
      ensures y[i] == z[i] == p[i] == r[i]
    {
      assert !s.Rewrites(i);
    }
    forall i | s.at + 8 <= i < s.at + 10
      ensures y[i] == z[i] == p[i] == r[i]
    {
      assert !s.Rewrites(i);
    }
    EndIsLocal(p, y, at);
    NameAtIsLocal(y, z, at);
    SameWord(y, p, s.at);
    SameWord(z, p, s.at);
    SameWord(y, p, s.at + 8);
    SameWord(z, p, s.at + 8);
  }

  lemma TwiceStep(p: Packet, r: Packet, y: Packet, z: Packet, at: nat, s: Slot, a: nat, b: nat)
    requires SlotRewritten(p, r, at, s, Lower(a)) && |y| == |z| == |p| && at <= s.at
    requires Agree(y, r, at, |p|) && Agree(z, p, at, |p|) && Agree(y, z, 12, at)
    ensures var y', z' := RewriteSlot(y, s, Lower(b)), RewriteSlot(z, s, Lower(a + b));
            Agree(y', r, s.Next(), |p|) && Agree(z', p, s.Next(), |p|) && Agree(y', z', 12, s.Next())
  {
    hide RewriteSlot;
    hide NameEnd;
    hide Word;
    var y', z' := RewriteSlot(y, s, Lower(b)), RewriteSlot(z, s, Lower(a + b));
    assert forall i :: s.Next() <= i < |p| ==> !s.Rewrites(i);
    if s.kind != OPT {
      SameDword(y, r, s.at + 4);
      SameDword(z, p, s.at + 4);
      SameBytes(y', z', s.at + 4);
    }
    forall i | 12 <= i < s.Next() && !s.Rewrites(i)
      ensures y'[i] == z'[i]
    {
    }
  }

  /** What one ageing has done to the `n`-th record. */
  lemma AgedSlot(p: Packet, from: nat, n: nat, total: nat, a: nat)
    requires 0 < n <= total && |Layout(p, from, total).0| == total
    requires AllInside(Layout(p, from, total).0, |p|) && Layout(p, from, total).1 <= |p|
    ensures var (slots, at) := (Layout(p, from, total).0, Layout(p, from, n - 1).1);
            && SlotRewritten(p, Rewrite(p, slots, Lower(a)), at, slots[n - 1], Lower(a))
            && at <= slots[n - 1].at
  {
    hide Rewrite;
    hide RewriteSlot;
    hide Layout;
    hide NameEnd;
    hide Word;
    var slots, at := Layout(p, from, total).0, Layout(p, from, n - 1).1;
    LayoutStep(p, from, n, total);
    var s := slots[n - 1];
    forall i | at <= i < s.Next() && !s.Rewrites(i)
      ensures Rewrite(p, slots, Lower(a))[i] == p[i]
    {
      RewriteKeepsByte(p, slots, Lower(a), i);
    }
    if s.kind != OPT {
      RewriteSetsTtl(p, slots, Lower(a), n - 1);
    }
  }

  /**
   Round by round: while the second pass over an aged packet succeeds, the single pass by the sum of the two ages
   reads the same bytes before the cursor and the original bytes after it.
   */
  lemma {:induction false} TwiceRounds(p: Packet, y: Packet, z: Packet, from: nat, n: nat, total: nat, a: nat, b: nat)
    requires 12 <= from <= |p| && n <= total && |Layout(p, from, total).0| == total
    requires AllInside(Layout(p, from, total).0, |p|) && Layout(p, from, total).1 <= |p|
    requires var r := Rewrite(p, Layout(p, from, total).0, Lower(a));
             |y| == |z| == |p| && Agree(y, r, 12, |p|) && Agree(z, p, 12, |p|) && Agree(y, z, 12, from)
    requires Aged(y, from, n, b).Ok?
    ensures Aged(z, from, n, a + b).Ok?
    ensures var (y', at) := Aged(y, from, n, b).value;
            var (z', at') := Aged(z, from, n, a + b).value;
            && at == at' == Layout(p, from, n).1 && from <= at <= |p|
            && Agree(y', Rewrite(p, Layout(p, from, total).0, Lower(a)), at, |p|)
            && Agree(z', p, at, |p|) && Agree(y', z', 12, at)
  {
    hide Rewrite;
    hide RewriteSlot;
    hide SlotAt;
    hide NameEnd;
    hide Word;
    if n > 0 {
      TwiceRounds(p, y, z, from, n - 1, total, a, b);
      var slots, at := Layout(p, from, total).0, Layout(p, from, n - 1).1;
      var r := Rewrite(p, slots, Lower(a));
      var y', z' := Aged(y, from, n - 1, b).value.0, Aged(z, from, n - 1, a + b).value.0;
      AgedSlot(p, from, n, total, a);
      LayoutStep(p, from, n, total);
      TwiceSlot(p, r, y', z', at, slots[n - 1], a);
      TwiceStep(p, r, y', z', at, slots[n - 1], a, b);
    }
  }

  /** Ageing changes nothing before the first record. */
  lemma AgedKeepsFront(p: Packet, from: nat, n: nat, elapsed: nat)
    requires from <= |p| && Aged(p, from, n, elapsed).Ok?
    ensures Agree(p, Aged(p, from, n, elapsed).value.0, 0, from)
  {
    hide Rewrite;
    hide Layout;
    hide Aged;
    AgedLaw(p, from, n, elapsed);
    LayoutOrdered(p, from, n);
    var slots := Layout(p, from, n).0;
    forall i | 0 <= i < from
      ensures Rewrite(p, slots, Lower(elapsed))[i] == p[i]
    {
      RewriteKeepsByte(p, slots, Lower(elapsed), i);
    }
  }

  /** An aged packet asks the question of the original and counts as many records. */
  lemma AgedQuestion(p: Packet, id: nat, elapsed: nat)
    requires id < 0x1_0000 && AgedResponse(p, id, elapsed).Ok?
    ensures var r := AgedResponse(p, id, elapsed).value;
            && |r| == |p| && QuestionOf(r) == Ok(QuestionOf(p).value.(id := id))
            && RecordCount(r) == RecordCount(p)
            && Agree(WithId(p, id), r, 0, QuestionOf(p).value.end)
  {
    hide Aged;
    hide NameAt;
    var start, from := WithId(p, id), QuestionOf(p).value.end;
    var r := AgedResponse(p, id, elapsed).value;
    QuestionShape(p);
    AgedKeepsFront(start, from, RecordCount(p), elapsed);
    SameWord(start, r, 0);
    SameWord(p, r, 2);
    SameWord(p, r, 4);
    QuestionIsLocal(p, r);
  }

  /** Ageing by `a` and then by `b` is ageing by `a + b`: whenever both calls succeed so does the one, with the same packet. */
  lemma AgeingComposes(p: Packet, first: nat, id: nat, a: nat, b: nat)
    requires first < 0x1_0000 && id < 0x1_0000
    requires AgedResponse(p, first, a).Ok?
    requires AgedResponse(AgedResponse(p, first, a).value, id, b).Ok?
    ensures AgedResponse(p, id, a + b) == AgedResponse(AgedResponse(p, first, a).value, id, b)
  {
    hide Aged;
    hide Layout;
    hide Rewrite;
    hide QuestionOf;
    hide RecordCount;
    hide WithId;
    var r := AgedResponse(p, first, a).value;
    AgedQuestion(p, first, a);
    QuestionShape(p);
    var from, n, start := QuestionOf(p).value.end, RecordCount(p), WithId(p, first);
    AgedLaw(start, from, n, a);
    var y, z := WithId(r, id), WithId(p, id);
    WithIdKeeps(p, first);
    WithIdKeeps(p, id);
    WithIdKeeps(r, id);
    TwiceRounds(start, y, z, from, n, n, a, b);
    AgedKeepsFront(y, from, n, b);
    AgedKeepsFront(z, from, n, a + b);
    var y', z' := Aged(y, from, n, b).value.0, Aged(z, from, n, a + b).value.0;
    assert forall i :: 0 <= i < |p| ==> y'[i] == z'[i];
    assert y' == z';
  }

  lemma WithIdKeeps(p: Packet, id: nat)
    requires |p| >= 2 && id < 0x1_0000
    ensures Agree(p, WithId(p, id), 2, |p|)
    ensures WithId(p, id)[..2] == [id / 256, id % 256]
  {
  }
}
