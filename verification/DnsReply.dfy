/** Replies NativeDNS makes itself: `edns_request`, `synthetic_response` and `fit_udp_response` of dns_packet.cpp. */
module DnsReply {
  import opened Bytes
  import opened DnsName
  import opened DnsQuestion
  import opened DnsAgeing
  import opened AliasChain
  import opened DnsResponse

  const MIN_PAYLOAD := 512
  const MAX_PAYLOAD := 1232

  /** What the OPT record of a request asks for; without one, the legacy size. */
  datatype Edns = Edns(present: bool, doBit: bool, payload: nat)

  const NO_EDNS := Edns(false, false, MIN_PAYLOAD)

  function Payload(klass: nat): (n: nat)
    ensures MIN_PAYLOAD <= n <= MAX_PAYLOAD
  {
    if klass < MIN_PAYLOAD then MIN_PAYLOAD else if MAX_PAYLOAD < klass then MAX_PAYLOAD else klass
  }

  ghost function EdnsStep(p: Packet, acc: Edns, r: Record, i: nat, c: Counts): (res: Result<Edns>)
    requires r.slot.Next() <= |p|
    ensures res.Err? ==> res.code == MALFORMED
  {
    if r.slot.kind != OPT then Ok(acc)
    else if acc.present || r.owner != "" || i < c.answers + c.authority then Err(MALFORMED)
    else Ok(Edns(true, p[r.slot.at + 6] >= 128, Payload(r.klass)))
  }

  /** The request options gathered from the first `n` records, and the cursor. */
  ghost function EdnsScanned(p: Packet, from: nat, n: nat, c: Counts): (r: Result<(Edns, nat)>)
    ensures r.Err? ==> r.code == MALFORMED
    ensures r.Ok? ==> MIN_PAYLOAD <= r.value.0.payload <= MAX_PAYLOAD
  {
    if n == 0 then Ok((NO_EDNS, from)) else
    var (acc, at) :- EdnsScanned(p, from, n - 1, c);
    var record :- RecordAt(p, at);
    var next :- EdnsStep(p, acc, record, n - 1, c);
    Ok((next, record.slot.Next()))
  }

  ghost function EdnsOf(p: Packet, q: Question): (r: Result<Edns>)
    requires |p| >= 12
    ensures r.Ok? ==> MIN_PAYLOAD <= r.value.payload <= MAX_PAYLOAD
  {
    if RecordCount(p) > MAX_RECORDS then Err(MALFORMED)
    else
      var (edns, at) :- EdnsScanned(p, q.end, RecordCount(p), CountsOf(p));
      if at != |p| then Err(MALFORMED) else Ok(edns)
  }

  lemma TotalCount(p: Packet)
    requires |p| >= 12
    ensures CountsOf(p).Total() == RecordCount(p)
  {
  }

  method EdnsRequest(p: Packet, q: Question) returns (r: Result<Edns>)
    requires |p| >= 12
    ensures r == EdnsOf(p, q)
  {
    hide RecordAt;
    hide SlotAt;
    hide Word;
    hide CountsOf;
    hide RecordCount;
    hide EdnsStep;
    TotalCount(p);
    var c := CountsOf(p);
    if c.Total() > MAX_RECORDS {
      return Err(MALFORMED);
    }
    var result, at := NO_EDNS, q.end;
    var index: nat := 0;
    while index < c.Total()
      invariant index <= c.Total()
      invariant EdnsScanned(p, q.end, index, c) == Ok((result, at))
    {
      EdnsRound(p, q.end, index, c);
      var record := ReadRecord(p, at);
      if record.Err? {
        EdnsFails(p, q.end, index + 1, c.Total(), c);
        return Err(MALFORMED);
      }
      var next := ReadOptions(p, result, record.value, index, c);
      if next.Err? {
        EdnsFails(p, q.end, index + 1, c.Total(), c);
        return Err(MALFORMED);
      }
      result := next.value;
      at := record.value.slot.Next();
      index := index + 1;
    }
    if at != |p| {
      return Err(MALFORMED);
    }
    return Ok(result);
  }

  /** What one record says about options. */
  method ReadOptions(p: Packet, result: Edns, record: Record, index: nat, c: Counts) returns (r: Result<Edns>)
    requires record.slot.Next() <= |p|
    ensures r == EdnsStep(p, result, record, index, c)
  {
    var Record(owner, slot, klass, _) := record;
    if slot.kind != OPT {
      return Ok(result);
    }
    if result.present || owner != "" || index < c.answers + c.authority {
      return Err(MALFORMED);
    }
    return Ok(Edns(true, p[slot.at + 6] >= 128, Payload(klass)));
  }

  lemma EdnsRound(p: Packet, from: nat, index: nat, c: Counts)
    requires EdnsScanned(p, from, index, c).Ok?
    ensures var (acc, at) := EdnsScanned(p, from, index, c).value;
            && (RecordAt(p, at).Err? ==> EdnsScanned(p, from, index + 1, c).Err?)
            && (RecordAt(p, at).Ok? ==>
                  var record := RecordAt(p, at).value;
                  record.slot.Next() <= |p|
                  && EdnsScanned(p, from, index + 1, c) == match EdnsStep(p, acc, record, index, c)
                                                           case Ok(next) => Ok((next, record.slot.Next()))
                                                           case Err(code) => Err(code))
  {
    hide RecordAt;
    hide EdnsStep;
  }

  lemma {:induction false} EdnsFails(p: Packet, from: nat, m: nat, n: nat, c: Counts)
    requires m <= n && EdnsScanned(p, from, m, c).Err?
    ensures EdnsScanned(p, from, n, c).Err?
    decreases n
  {
    hide *;
    if m < n {
      EdnsFails(p, from, m, n - 1, c);
      EdnsFailsOn(p, from, n, c);
    }
  }

  lemma EdnsFailsOn(p: Packet, from: nat, n: nat, c: Counts)
    requires n > 0 && EdnsScanned(p, from, n - 1, c).Err?
    ensures EdnsScanned(p, from, n, c).Err?
  {
    hide RecordAt;
    hide EdnsStep;
  }

  // ---- Synthetic replies ----

  /** RESPONSE and RA set, RD and CD copied from the query. */
  function ReplyFlags(flags: nat, rcode: nat): (w: nat)
    requires rcode <= 15
    ensures w < 0x1_0000
  {
    0x8080 + (if WantsRecursion(flags) then 0x100 else 0) + (if ChecksDisabled(flags) then 0x10 else 0) + rcode
  }

  /** The flags of an untruncated, unauthenticated reply with a standard opcode and the given code. */
  predicate PlainReply(flags: nat, rcode: nat)
  {
    && IsReply(flags) && !IsTruncated(flags) && !IsAuthenticated(flags)
    && flags / 0x800 % 16 == 0 && flags % 16 == rcode
  }

  lemma ReplyFlagsArePlain(flags: nat, rcode: nat)
    requires rcode <= 15
    ensures PlainReply(ReplyFlags(flags, rcode), rcode)
  {
    hide WantsRecursion;
    hide ChecksDisabled;
    if WantsRecursion(flags) {
      FlagsOf(if ChecksDisabled(flags) then 0x819 else 0x818, rcode);
    } else {
      FlagsOf(if ChecksDisabled(flags) then 0x809 else 0x808, rcode);
    }
  }

  /** The low four bits are the code, and the others are told by themselves. */
  lemma FlagsOf(high: nat, rcode: nat)
    requires rcode <= 15 && high in {0x808, 0x809, 0x818, 0x819}
    ensures PlainReply(high * 16 + rcode, rcode)
  {
    var w := high * 16 + rcode;
    assert w / 0x20 == high / 2;
    assert w / 0x200 == high / 0x20;
    assert w / 0x800 == high / 0x80;
    assert w / 0x8000 == high / 0x800;
  }

  predicate Zeroed(q: Question, zero: bool) { zero && q.klass == 1 && (q.kind == A || q.kind == AAAA) }

  function Zeros(n: nat): (z: Packet)
    ensures |z| == n && forall i :: 0 <= i < n ==> z[i] == 0
  {
    if n == 0 then [] else Zeros(n - 1) + [0]
  }

  function AddressSize(kind: nat): nat { if kind == A then 4 else 16 }

  /** The answer of a zero-address reply: a pointer to the question name and an all-zero address with TTL 0. */
  function ZeroRecord(q: Question, zero: bool): (r: Packet)
    ensures |r| <= 28
  {
    if !Zeroed(q, zero) then []
    else
      var kind: byte := if q.kind == A then 1 else 28;
      var length: byte := if q.kind == A then 4 else 16;
      [0xc0, 0x0c, 0, kind, 0, 1, 0, 0, 0, 0, 0, length] + Zeros(AddressSize(q.kind))
  }

  function OptRecord(edns: Edns): (r: Packet)
    requires edns.payload < 0x1_0000
    ensures |r| <= 11
  {
    if !edns.present then []
    else [0, 0, 41] + WordBytes(edns.payload) + [0, 0, if edns.doBit then 0x80 else 0, 0, 0, 0]
  }

  /** The packet cut after its question: its ID, new flags, one question and no records. */
  function Bare(p: Packet, end: nat, flags: nat): (r: Packet)
    requires 12 <= end <= |p| && flags < 0x1_0000
    ensures |r| == end
  {
    p[..2] + WordBytes(flags) + [0, 1, 0, 0, 0, 0, 0, 0] + p[12..end]
  }

  method CutAfterQuestion(p: Packet, end: nat, flags: nat) returns (r: Packet)
    requires 12 <= end <= |p| && flags < 0x1_0000
    ensures r == Bare(p, end, flags)
  {
    r := p[..end];
    r := r[2 := flags / 256][3 := flags % 256][4 := 0][5 := 1];
    var index := 6;
    while index < 12
      invariant 6 <= index <= 12 && |r| == end
      invariant r[..6] == p[..2] + WordBytes(flags) + [0, 1]
      invariant forall i :: 6 <= i < index ==> r[i] == 0
      invariant r[12..] == p[12..end]
    {
      r := r[index := 0];
      index := index + 1;
    }
    assert r == r[..6] + r[6..12] + r[12..];
  }

  ghost function SyntheticOf(p: Packet, rcode: nat, zero: bool): (r: Result<Packet>)
  {
    if rcode > 15 then Err(MALFORMED) else
    var q :- QuestionOf(p);
    if IsReply(q.flags) then Err(MALFORMED) else
    var edns :- EdnsOf(p, q);
    Ok(Assembled(Bare(p, q.end, ReplyFlags(q.flags, rcode)), q, zero, edns))
  }

  /** The bare reply with its answer and OPT records counted and appended. */
  function Assembled(bare: Packet, q: Question, zero: bool, edns: Edns): (r: Packet)
    requires |bare| >= 12 && edns.payload < 0x1_0000
    ensures |r| <= |bare| + 39
  {
    bare[7 := if Zeroed(q, zero) then 1 else 0][11 := if edns.present then 1 else 0] + ZeroRecord(q, zero) + OptRecord(edns)
  }

  method SyntheticResponse(p: Packet, rcode: nat, zero: bool) returns (r: Result<Packet>)
    ensures r == SyntheticOf(p, rcode, zero)
  {
    hide NameAt;
    if rcode > 15 {
      return Err(MALFORMED);
    }
    var q :- ParseQuestion(p);
    if IsReply(q.flags) {
      return Err(MALFORMED);
    }
    var edns :- EdnsRequest(p, q);
    var response := CutAfterQuestion(p, q.end, ReplyFlags(q.flags, rcode));
    response := Append(response, q, zero, edns);
    return Ok(response);
  }

  method Append(bare: Packet, q: Question, zero: bool, edns: Edns) returns (response: Packet)
    requires |bare| >= 12 && bare[7] == bare[11] == 0 && edns.payload < 0x1_0000
    ensures response == Assembled(bare, q, zero, edns)
  {
    hide ZeroRecord;
    hide OptRecord;
    hide Zeroed;
    NothingAppended(q, zero, edns);
    response := bare;
    if Zeroed(q, zero) {
      response := response[7 := 1];
      response := response + ZeroRecord(q, zero);
    }
    if edns.present {
      response := response[11 := 1];
      response := response + OptRecord(edns);
    }
  }

  lemma NothingAppended(q: Question, zero: bool, edns: Edns)
    requires edns.payload < 0x1_0000
    ensures !Zeroed(q, zero) ==> ZeroRecord(q, zero) == []
    ensures !edns.present ==> OptRecord(edns) == []
  {
  }

  // ---- Synthetic replies are sound responses ----

  /** The reply repeats the question of the query under its new flags. */
  lemma ReplyAsks(p: Packet, r: Packet, flags: nat)
    requires QuestionOf(p).Ok? && flags < 0x1_0000 && flags / 0x800 % 16 == 0
    requires QuestionOf(p).value.end <= |r| <= MAX_PACKET && Agree(Bare(p, QuestionOf(p).value.end, flags), r, 0, 6)
    requires Agree(p, r, 12, QuestionOf(p).value.end)
    ensures QuestionOf(r) == Ok(QuestionOf(p).value.(flags := flags))
    ensures Plain(p, 12) && Plain(r, 12) && Labels(r, 12) == Labels(p, 12)
  {
    hide NameAt;
    QuestionShape(p);
    var bare := Bare(p, QuestionOf(p).value.end, flags);
    assert Word(r, 2) == flags && Word(r, 4) == 1 && Word(r, 0) == Word(p, 0);
    QuestionIsLocal(p, r);
    PlainIsLocal(p, r, 12);
  }

  /** A pointer to the question name reads that name unless it already takes all the hops there are. */
  lemma PointerToQuestion(r: Packet, at: nat)
    requires QuestionOf(r).Ok? && Plain(r, 12) && 12 < at && at + 2 <= |r|
    requires r[at] == 0xc0 && r[at + 1] == 0x0c
    ensures NameAt(r, at).Ok? <==> Labels(r, 12) < 127
    ensures NameAt(r, at).Ok? ==> NameAt(r, at).value == (QuestionOf(r).value.name, at + 2)
  {
    assert PieceAt(r, at) == Pointer(12);
    assert NameText(r, at, 0, "") == NameText(r, 12, 1, "");
    if Labels(r, 12) < 127 {
      PlainBudget(r, 12, 0, 1, "");
    } else if NameText(r, 12, 1, "").Ok? {
      PlainHops(r, 12, 1, "");
    }
  }

  /** The appended answer reads back as the address record it is meant to be. */
  lemma ZeroRecordReads(r: Packet, q: Question, at: nat)
    requires QuestionOf(r).Ok? && Plain(r, 12) && 12 < at && Zeroed(q, true)
    requires at + |ZeroRecord(q, true)| <= |r| && r[at..at + |ZeroRecord(q, true)|] == ZeroRecord(q, true)
    ensures RecordAt(r, at).Ok? <==> Labels(r, 12) < 127
    ensures RecordAt(r, at).Ok? ==>
              RecordAt(r, at).value == Record(QuestionOf(r).value.name, Slot(at + 2, q.kind, AddressSize(q.kind)), 1, 0)
    ensures r[at + 12..at + 12 + AddressSize(q.kind)] == Zeros(AddressSize(q.kind))
  {
    hide NameAt;
    hide QuestionOf;
    hide Plain;
    var z := ZeroRecord(q, true);
    assert forall i :: at <= i < at + |z| ==> r[i] == r[at..at + |z|][i - at];
    assert r[at..at + |z|][12..] == r[at + 12..at + |z|];
    assert z[12..] == Zeros(AddressSize(q.kind));
    PointerToQuestion(r, at);
  }

  lemma OptRecordReads(r: Packet, edns: Edns, at: nat)
    requires edns.present && edns.payload < 0x1_0000
    requires at + 11 <= |r| && r[at..at + 11] == OptRecord(edns)
    ensures RecordAt(r, at).Ok? && RecordAt(r, at).value.slot == Slot(at + 1, OPT, 0) && RecordAt(r, at).value.owner == ""
    ensures r[at + 5] == 0
  {
    hide NameAt;
    var o := OptRecord(edns);
    OptBytes(edns);
    assert forall i :: 0 <= i < 11 ==> r[at + i] == o[i];
    assert r[at] == o[0] && r[at + 1] == o[1] && r[at + 2] == o[2] && r[at + 5] == o[5] && r[at + 9] == o[9] && r[at + 10] == o[10];
    RootReads(r, at);
  }

  lemma OptBytes(edns: Edns)
    requires edns.present && edns.payload < 0x1_0000
    ensures var o := OptRecord(edns);
            |o| == 11 && o[0] == 0 && o[1] == 0 && o[2] == 41 && o[5] == 0 && o[9] == 0 && o[10] == 0
  {
  }

  lemma RootReads(r: Packet, at: nat)
    requires at < |r| && r[at] == 0
    ensures NameAt(r, at) == Ok(("", at + 1))
  {
    assert PieceAt(r, at) == Root;
  }

  /** What scanning a synthetic reply must give. */
  function SyntheticScan(q: Question, zero: bool, edns: Edns): (s: Scan)
  {
    if Zeroed(q, zero) then
      Scan([(q.name, Zeros(AddressSize(q.kind)))], map[], edns.present, 0, true, false, 0, NO_TTL)
    else NOTHING.(opt := edns.present)
  }

  /** Scanning the answer of a zero-address reply. */
  lemma ScanZero(r: Packet, q: Question, at: nat, c: Counts)
    requires QuestionOf(r) == Ok(q) && Plain(r, 12) && 12 < at && Zeroed(q, true) && c.answers == 1
    requires at + |ZeroRecord(q, true)| <= |r| && r[at..at + |ZeroRecord(q, true)|] == ZeroRecord(q, true)
    ensures Scanned(r, at, 1, c, q).Ok? <==> Labels(r, 12) < 127
    ensures Scanned(r, at, 1, c, q).Ok? ==>
              Scanned(r, at, 1, c, q).value == (SyntheticScan(q, true, NO_EDNS), at + |ZeroRecord(q, true)|)
  {
    hide RecordAt;
    hide SlotAt;
    hide NameAt;
    hide QuestionOf;
    hide Plain;
    hide Dword;
    ZeroRecordReads(r, q, at);
    assert Scanned(r, at, 0, c, q) == Ok((NOTHING, at));
    assert |ZeroRecord(q, true)| == 12 + AddressSize(q.kind);
    if Labels(r, 12) < 127 {
      var record := RecordAt(r, at).value;
      assert Step(r, NOTHING, record, 0, c, q) == Ok(SyntheticScan(q, true, NO_EDNS)) by {
        assert record.Data() == at + 12 && NOTHING.addresses + [(q.name, Zeros(AddressSize(q.kind)))]
            == SyntheticScan(q, true, NO_EDNS).addresses;
      }
    }
  }

  /** Scanning the OPT record behind it. */
  lemma ScanOpt(r: Packet, q: Question, edns: Edns, from: nat, n: nat, at: nat, acc: Scan, c: Counts)
    requires edns.present && edns.payload < 0x1_0000 && !acc.opt && acc.extended == 0
    requires Scanned(r, from, n, c, q) == Ok((acc, at)) && c.answers + c.authority == n
    requires at + 11 <= |r| && r[at..at + 11] == OptRecord(edns)
    ensures Scanned(r, from, n + 1, c, q) == Ok((acc.(opt := true), at + 11))
  {
    hide RecordAt;
    hide SlotAt;
    hide NameAt;
    hide Dword;
    OptRecordReads(r, edns, at);
    var record := RecordAt(r, at).value;
    assert r[record.slot.at + 4] == 0;
  }

  /** A header counts `answers` answers, and one additional record exactly when there is an OPT record. */
  predicate Counted(c: Counts, answers: nat, edns: Edns)
  {
    c.answers == answers && c.authority == 0 && c.additional == if edns.present then 1 else 0
  }

  /** Scanning the OPT record, if there is one, as the last record. */
  lemma ScanTail(r: Packet, q: Question, edns: Edns, from: nat, n: nat, at: nat, acc: Scan, c: Counts)
    requires edns.payload < 0x1_0000 && !acc.opt && acc.extended == 0
    requires Scanned(r, from, n, c, q) == Ok((acc, at)) && Counted(c, n, edns)
    requires at <= |r| && r[at..] == OptRecord(edns)
    ensures Scanned(r, from, c.Total(), c, q) == Ok((acc.(opt := edns.present), |r|))
  {
    hide Scanned;
    if edns.present {
      assert r[at..at + 11] == r[at..];
      ScanOpt(r, q, edns, from, n, at, acc, c);
    }
  }

  lemma TwoParts(r: Packet, at: nat, a: Packet, b: Packet)
    requires at <= |r| && r[at..] == a + b
    ensures at + |a| <= |r| && r[at..at + |a|] == a && r[at + |a|..] == b
  {
    assert r[at..at + |a|] == r[at..][..|a|];
    assert r[at + |a|..] == r[at..][|a|..];
  }

  /** Scanning the whole of a zero-address reply. */
  lemma ZeroReplyScans(r: Packet, q: Question, edns: Edns, c: Counts)
    requires QuestionOf(r) == Ok(q) && Plain(r, 12) && 12 < q.end && edns.payload < 0x1_0000 && Zeroed(q, true)
    requires Counted(c, 1, edns)
    requires q.end <= |r| && r[q.end..] == ZeroRecord(q, true) + OptRecord(edns)
    ensures var scanned := Scanned(r, q.end, c.Total(), c, q);
            && (scanned.Ok? <==> Labels(r, 12) < 127)
            && (scanned.Ok? ==> scanned.value == (SyntheticScan(q, true, edns), |r|))
  {
    hide Scanned;
    hide QuestionOf;
    hide Plain;
    hide ZeroRecord;
    hide OptRecord;
    hide Labels;
    hide SyntheticScan;
    hide Zeroed;
    TwoParts(r, q.end, ZeroRecord(q, true), OptRecord(edns));
    ScanZero(r, q, q.end, c);
    if Labels(r, 12) < 127 {
      ScanWithOpt(q, edns);
      ScanTail(r, q, edns, q.end, 1, q.end + |ZeroRecord(q, true)|, SyntheticScan(q, true, NO_EDNS), c);
    } else {
      ScanFails(r, q.end, 1, c.Total(), c, q);
    }
  }

  lemma ScanWithOpt(q: Question, edns: Edns)
    ensures SyntheticScan(q, true, edns) == SyntheticScan(q, true, NO_EDNS).(opt := edns.present)
    ensures !SyntheticScan(q, true, NO_EDNS).opt && SyntheticScan(q, true, NO_EDNS).extended == 0
  {
  }

  lemma ScanNothing(r: Packet, at: nat, c: Counts, q: Question)
    ensures Scanned(r, at, 0, c, q) == Ok((NOTHING, at))
  {
  }

  /** Scanning a reply without an answer. */
  lemma BareReplyScans(r: Packet, q: Question, edns: Edns, c: Counts)
    requires edns.payload < 0x1_0000
    requires Counted(c, 0, edns)
    requires q.end <= |r| && r[q.end..] == OptRecord(edns)
    ensures Scanned(r, q.end, c.Total(), c, q) == Ok((NOTHING.(opt := edns.present), |r|))
  {
    ScanNothing(r, q.end, c, q);
    hide Scanned;
    hide OptRecord;
    ScanTail(r, q, edns, q.end, 0, q.end, NOTHING, c);
  }

  lemma OnlyOptRecord(r: Packet, q: Question, zero: bool, edns: Edns)
    requires !Zeroed(q, zero) && edns.payload < 0x1_0000
    requires q.end <= |r| && r[q.end..] == ZeroRecord(q, zero) + OptRecord(edns)
    ensures r[q.end..] == OptRecord(edns)
  {
    hide OptRecord;
    assert ZeroRecord(q, zero) == [];
  }

  /** The bytes of a synthetic reply. */
  lemma SyntheticShape(p: Packet, rcode: nat, zero: bool)
    requires SyntheticOf(p, rcode, zero).Ok?
    ensures QuestionOf(p).Ok? && rcode <= 15 && EdnsOf(p, QuestionOf(p).value).Ok?
    ensures var r, q := SyntheticOf(p, rcode, zero).value, QuestionOf(p).value;
            var edns := EdnsOf(p, q).value;
            && q.end <= |r| <= 310 && 17 <= q.end
            && Agree(Bare(p, q.end, ReplyFlags(q.flags, rcode)), r, 0, 6) && Agree(p, r, 12, q.end)
            && r[q.end..] == ZeroRecord(q, zero) + OptRecord(edns)
            && Counted(CountsOf(r), if Zeroed(q, zero) then 1 else 0, edns) && RecordCount(r) <= MAX_RECORDS
  {
    hide NameAt;
    hide EdnsOf;
    hide ZeroRecord;
    hide OptRecord;
    hide QuestionOf;
    hide ReplyFlags;
    QuestionShape(p);
    var r, q := SyntheticOf(p, rcode, zero).value, QuestionOf(p).value;
    assert Word(r, 6) == (if Zeroed(q, zero) then 1 else 0) && Word(r, 8) == 0;
  }

  /** The answer a synthetic reply is meant to give: its code, and the zero address exactly when asked for. */
  function MeantAnswer(q: Question, rcode: nat, zero: bool): (a: Answer)
  {
    Answer(rcode, false, false, if Zeroed(q, zero) then [Zeros(AddressSize(q.kind))] else [], false, 0)
  }

  /** The verdict on a scanned synthetic reply. */
  lemma SyntheticVerdict(r: Packet, q: Question, q': Question, rcode: nat, zero: bool, edns: Edns, c: Counts)
    requires QuestionOf(r) == Ok(q') && rcode <= 15 && q' == q.(flags := q'.flags) && PlainReply(q'.flags, rcode)
    requires CountsOf(r) == c && RecordCount(r) == c.Total() <= MAX_RECORDS
    requires Scanned(r, q.end, c.Total(), c, q) == Ok((SyntheticScan(q, zero, edns), |r|))
    ensures ResponseOf(r, q) == Ok(MeantAnswer(q, rcode, zero))
  {
    hide Scanned;
    hide QuestionOf;
    hide SyntheticScan;
    hide ResponseOf;
    hide MeantAnswer;
    hide Cyclic;
    hide Verdict;
    hide PlainReply;
    var acc := SyntheticScan(q, zero, edns);
    NoAliases(q.name);
    SyntheticAliases(q, zero, edns);
    WholeScan(r, q, q', rcode, acc, c);
    OneAddress(acc.addresses, acc.aliases, q.name);
    MeantVerdict(q, q', rcode, zero, edns, ReachedAddresses(acc.addresses, acc.aliases, q.name));
  }

  lemma SyntheticAliases(q: Question, zero: bool, edns: Edns)
    ensures var acc := SyntheticScan(q, zero, edns);
            && acc.aliases == map[]
            && acc.addresses == if Zeroed(q, zero) then [(q.name, Zeros(AddressSize(q.kind)))] else []
  {
    hide Zeros;
  }

  /** A response scanned to its end, without aliases, is down to its verdict. */
  lemma WholeScan(r: Packet, q: Question, q': Question, rcode: nat, acc: Scan, c: Counts)
    requires QuestionOf(r) == Ok(q') && rcode <= 15 && q' == q.(flags := q'.flags) && PlainReply(q'.flags, rcode)
    requires CountsOf(r) == c && RecordCount(r) == c.Total() <= MAX_RECORDS
    requires Scanned(r, q.end, c.Total(), c, q) == Ok((acc, |r|)) && !Cyclic(acc.aliases, q.name)
    ensures ResponseOf(r, q) == Ok(Verdict(q', q, acc, ReachedAddresses(acc.addresses, acc.aliases, q.name)))
  {
    hide Scanned;
    hide QuestionOf;
    hide Cyclic;
    hide Verdict;
    hide ReachedAddresses;
  }

  lemma MeantVerdict(q: Question, q': Question, rcode: nat, zero: bool, edns: Edns, addresses: seq<Packet>)
    requires rcode <= 15 && q' == q.(flags := q'.flags) && PlainReply(q'.flags, rcode)
    requires addresses == if Zeroed(q, zero) then [Zeros(AddressSize(q.kind))] else []
    ensures Verdict(q', q, SyntheticScan(q, zero, edns), addresses) == MeantAnswer(q, rcode, zero)
  {
    hide Zeros;
  }

  /** Any packet with the bytes of a synthetic reply. */
  lemma ReplyVerdict(p: Packet, r: Packet, q: Question, q': Question, edns: Edns, c: Counts, rcode: nat, zero: bool)
    requires QuestionOf(r) == Ok(q') && Plain(r, 12) && 12 < q.end <= |r| && rcode <= 15
    requires q' == q.(flags := q'.flags) && PlainReply(q'.flags, rcode) && edns.payload < 0x1_0000
    requires Counted(c, if Zeroed(q, zero) then 1 else 0, edns)
    requires CountsOf(r) == c && RecordCount(r) == c.Total() <= MAX_RECORDS
    requires r[q.end..] == ZeroRecord(q, zero) + OptRecord(edns)
    ensures if Zeroed(q, zero) && Labels(r, 12) >= 127 then ResponseOf(r, q).Err?
            else ResponseOf(r, q) == Ok(MeantAnswer(q, rcode, zero))
  {
    hide Scanned;
    hide OptRecord;
    hide QuestionOf;
    hide SyntheticScan;
    hide Labels;
    hide Plain;
    hide PlainReply;
    hide ResponseOf;
    hide CountsOf;
    hide RecordCount;
    hide ZeroRecord;
    hide MeantAnswer;
    hide Counted;
    SameRecord(q, q', zero, edns);
    ScanIgnoresFlags(r, q.end, c.Total(), c, q, q');
    if Zeroed(q, zero) {
      ZeroReplyScans(r, q', edns, c);
    } else {
      OnlyOptRecord(r, q, zero, edns);
      BareReplyScans(r, q', edns, c);
    }
    if Zeroed(q, zero) && Labels(r, 12) >= 127 {
      UnscannedFails(r, q, c, rcode);
    } else {
      SyntheticVerdict(r, q, q', rcode, zero, edns, c);
    }
  }

  lemma SameRecord(q: Question, q': Question, zero: bool, edns: Edns)
    requires q' == q.(flags := q'.flags)
    ensures ZeroRecord(q, zero) == ZeroRecord(q', zero) && Zeroed(q, zero) == Zeroed(q', zero)
    ensures SyntheticScan(q, zero, edns) == SyntheticScan(q', zero, edns)
    ensures !Zeroed(q, zero) ==> SyntheticScan(q, zero, edns) == NOTHING.(opt := edns.present)
    ensures Zeroed(q, zero) ==> zero
  {
  }

  /**
   A synthetic reply is a sound response to its query, with the code asked for, no address unless a zero address is
   asked for, and never cached - except that the answer of a zero-address reply cannot be read when the question
   name has 127 labels: its pointer to that name is one hop too many.
   */
  lemma SyntheticReplyParses(p: Packet, rcode: nat, zero: bool)
    requires SyntheticOf(p, rcode, zero).Ok?
    ensures QuestionOf(p).Ok? && Plain(p, 12) && Labels(p, 12) <= 127
    ensures |SyntheticOf(p, rcode, zero).value| <= 310
    ensures var r, q := SyntheticOf(p, rcode, zero).value, QuestionOf(p).value;
            if Zeroed(q, zero) && Labels(p, 12) == 127 then ResponseOf(r, q).Err?
            else ResponseOf(r, q) == Ok(MeantAnswer(q, rcode, zero))
  {
    hide Bare;
    hide EdnsOf;
    hide ZeroRecord;
    hide OptRecord;
    hide QuestionOf;
    hide SyntheticOf;
    hide Labels;
    hide Plain;
    hide ResponseOf;
    hide CountsOf;
    hide RecordCount;
    hide MeantAnswer;
    SyntheticShape(p, rcode, zero);
    QuestionShape(p);
    var r, q := SyntheticOf(p, rcode, zero).value, QuestionOf(p).value;
    var flags, edns := ReplyFlags(q.flags, rcode), EdnsOf(p, q).value;
    var c := CountsOf(r);
    ReplyFlagsArePlain(q.flags, rcode);
    ReplyAsks(p, r, flags);
    hide PlainReply;
    hide ReplyFlags;
    ReplyVerdict(p, r, q, q.(flags := flags), edns, c, rcode, zero);
  }

  lemma UnscannedFails(r: Packet, q: Question, c: Counts, rcode: nat)
    requires QuestionOf(r).Ok? && PlainReply(QuestionOf(r).value.flags, rcode)
    requires CountsOf(r) == c && RecordCount(r) == c.Total()
    requires Scanned(r, QuestionOf(r).value.end, c.Total(), c, q).Err?
    ensures ResponseOf(r, q).Err?
  {
    hide Scanned;
    hide QuestionOf;
  }

  lemma StepIgnoresFlags(p: Packet, acc: Scan, r: Record, i: nat, c: Counts, one: Question, other: Question)
    requires one.kind == other.kind && one.klass == other.klass && r.slot.Next() <= |p|
    ensures Step(p, acc, r, i, c, one) == Step(p, acc, r, i, c, other)
  {
    hide NameAt;
    hide SoaFixed;
  }

  /** The scan looks only at the type and class of the question. */
  lemma {:induction false} ScanIgnoresFlags(p: Packet, from: nat, n: nat, c: Counts, one: Question, other: Question)
    requires one.kind == other.kind && one.klass == other.klass
    ensures Scanned(p, from, n, c, one) == Scanned(p, from, n, c, other)
  {
    hide RecordAt;
    hide SlotAt;
    hide Step;
    if n > 0 {
      ScanIgnoresFlags(p, from, n - 1, c, one, other);
      match Scanned(p, from, n - 1, c, one)
      case Err(_) =>
      case Ok((acc, at)) =>
        if RecordAt(p, at).Ok? {
          StepIgnoresFlags(p, acc, RecordAt(p, at).value, n - 1, c, one, other);
        }
    }
  }

  lemma NoAliases(name: string)
    ensures !Cyclic(map[], name)
  {
    forall k: nat | k > 0
      ensures Follow(map[], name, k) == None
    {
      ChainEnds(map[], name, 0, k);
    }
  }

  /** Addresses owned by the question name itself are always reached. */
  lemma OneAddress(addresses: seq<(string, Packet)>, aliases: map<string, string>, name: string)
    requires addresses == [] || (|addresses| == 1 && addresses[0].0 == name)
    ensures ReachedAddresses(addresses, aliases, name) == if addresses == [] then [] else [addresses[0].1]
  {
    assert Follow(aliases, name, 0) == Some(name);
    if addresses != [] {
      assert addresses[..0] == [];
    }
  }

  // ---- Block and error replies ----

  datatype BlockMode = ZeroAddress | Nxdomain | Refused | SilentDrop

  const NXDOMAIN := 3

  const REFUSED := 5

  /** An error reply is made for every sound query; it has the code asked for and no address, and is never cached. */
  method MakeErrorResponse(p: Packet, rcode: nat) returns (r: Result<Packet>)
    ensures r == SyntheticOf(p, rcode, false)
    ensures r.Ok? ==>
              && QuestionOf(p).Ok? && |r.value| <= 310
              && ResponseOf(r.value, QuestionOf(p).value) == Ok(Answer(rcode, false, false, [], false, 0))
  {
    hide SyntheticOf;
    hide ResponseOf;
    hide QuestionOf;
    hide Labels;
    hide Plain;
    r := SyntheticResponse(p, rcode, false);
    if r.Ok? {
      SyntheticReplyParses(p, rcode, false);
    }
  }

  /** The code a block mode answers with. */
  function BlockCode(mode: BlockMode): (rcode: nat) { if mode == Nxdomain then 3 else if mode == Refused then 5 else 0 }

  /**
   A silent drop has no reply. In any other mode a reply is made for every sound query: it says NXDOMAIN or REFUSED when
   the mode is called that, and otherwise answers with the zero address.
   */
  method MakeBlockResponse(p: Packet, mode: BlockMode) returns (r: Result<Packet>)
    ensures mode == SilentDrop ==> r == Err("CONFIG")
    ensures mode != SilentDrop ==> r == SyntheticOf(p, BlockCode(mode), mode == ZeroAddress)
    ensures r.Ok? ==>
              && mode != SilentDrop && QuestionOf(p).Ok? && |r.value| <= 310 && Plain(p, 12)
              && var q := QuestionOf(p).value;
                 if Zeroed(q, mode == ZeroAddress) && Labels(p, 12) == 127 then ResponseOf(r.value, q).Err?
                 else ResponseOf(r.value, q) == Ok(MeantAnswer(q, BlockCode(mode), mode == ZeroAddress))
  {
    hide SyntheticOf;
    hide ResponseOf;
    hide QuestionOf;
    hide Labels;
    hide Plain;
    if mode == SilentDrop {
      return Err("CONFIG");
    }
    var rcode := if mode == Nxdomain then NXDOMAIN else if mode == Refused then REFUSED else 0;
    r := SyntheticResponse(p, rcode, mode == ZeroAddress);
    if r.Ok? {
      SyntheticReplyParses(p, rcode, mode == ZeroAddress);
    }
  }

  // ---- Fitting a reply into a datagram ----

  /** The largest reply the client of this request accepts over UDP. */
  ghost function PayloadLimit(p: Packet): (r: Result<nat>)
    ensures r.Ok? ==> MIN_PAYLOAD <= r.value <= MAX_PAYLOAD
  {
    var q :- QuestionOf(p);
    if IsReply(q.flags) then Err(MALFORMED) else
    var edns :- EdnsOf(p, q);
    Ok(if edns.present then edns.payload else MIN_PAYLOAD)
  }

  method ClientUdpPayloadSize(p: Packet) returns (r: Result<nat>)
    ensures r == PayloadLimit(p)
  {
    hide NameAt;
    var q :- ParseQuestion(p);
    if IsReply(q.flags) {
      return Err(MALFORMED);
    }
    var edns :- EdnsRequest(p, q);
    return Ok(if edns.present then edns.payload else MIN_PAYLOAD);
  }

  function WithTruncated(flags: nat): (w: nat)
    requires flags < 0x1_0000
    ensures w < 0x1_0000
  {
    if IsTruncated(flags) then flags else flags + 0x200
  }

  ghost function FittedOf(request: Packet, response: Packet): (r: Result<Packet>)
  {
    var limit :- PayloadLimit(request);
    if |response| <= limit then Ok(response) else
    var expected := QuestionOf(request).value;
    var actual :- QuestionOf(response);
    if !Matches(actual, expected) then Err("DNS_MISMATCH")
    else Ok(Bare(response, actual.end, WithTruncated(Word(response, 2))))
  }

  method FitUdpResponse(request: Packet, response: Packet) returns (r: Result<Packet>)
    ensures r == FittedOf(request, response)
  {
    hide NameAt;
    var limit :- ClientUdpPayloadSize(request);
    if |response| <= limit {
      return Ok(response);
    }
    var parsed := ParseQuestion(request);
    var expected := parsed.value;
    var actual :- ParseQuestion(response);
    if !Matches(actual, expected) {
      return Err("DNS_MISMATCH");
    }
    var flags := WithTruncated(Word(response, 2));
    var truncated := CutAfterQuestion(response, actual.end, flags);
    return Ok(truncated);
  }

  /**
   A fitted reply never exceeds what the client accepts. It is the reply itself whenever that fits; otherwise it is
   the bare question, at most 271 bytes, marked truncated, with the reply's own code, and parses so for the client.
   */
  lemma FittedReply(request: Packet, response: Packet)
    requires FittedOf(request, response).Ok?
    ensures QuestionOf(request).Ok? && PayloadLimit(request).Ok?
    ensures MIN_PAYLOAD <= PayloadLimit(request).value <= MAX_PAYLOAD
    ensures |FittedOf(request, response).value| <= PayloadLimit(request).value
    ensures |response| <= PayloadLimit(request).value ==> FittedOf(request, response).value == response
    ensures |response| > PayloadLimit(request).value ==>
              var fitted, expected := FittedOf(request, response).value, QuestionOf(request).value;
              && |fitted| <= 271
              && ResponseOf(fitted, expected).Ok? && ResponseOf(fitted, expected).value.truncated
              && ResponseOf(fitted, expected).value.rcode == Word(response, 2) % 16
              && RecordCount(fitted) == 0
  {
    hide NameAt;
    hide EdnsOf;
    hide RecordCount;
    hide Bare;
    if |response| > PayloadLimit(request).value {
      var fitted, actual := FittedOf(request, response).value, QuestionOf(response).value;
      var flags := WithTruncated(Word(response, 2));
      TruncatedFlags(Word(response, 2));
      QuestionShape(response);
      BareAsks(response, flags);
    }
  }

  lemma TruncatedFlags(flags: nat)
    requires flags < 0x1_0000
    ensures var w := WithTruncated(flags);
            && IsTruncated(w) && (IsReply(w) <==> IsReply(flags)) && w % 16 == flags % 16
            && w / 0x800 % 16 == flags / 0x800 % 16
  {
    if !IsTruncated(flags) {
      var q := flags / 0x400;
      assert flags == q * 0x400 + flags % 0x400 && flags % 0x400 < 0x200;
      assert (flags + 0x200) / 0x400 == q;
      assert (flags + 0x200) / 0x800 == q / 2 && (flags + 0x200) / 0x8000 == q / 0x20;
    }
  }

  lemma BareAsks(p: Packet, flags: nat)
    requires QuestionOf(p).Ok? && flags < 0x1_0000 && flags / 0x800 % 16 == 0
    ensures QuestionOf(p).value.end <= |p|
    ensures var bare := Bare(p, QuestionOf(p).value.end, flags);
            && QuestionOf(bare) == Ok(QuestionOf(p).value.(flags := flags))
            && RecordCount(bare) == 0
  {
    hide QuestionOf;
    QuestionShape(p);
    var bare := Bare(p, QuestionOf(p).value.end, flags);
    assert Word(bare, 6) == 0 && Word(bare, 8) == 0 && Word(bare, 10) == 0;
    ReplyAsks(p, bare, flags);
  }
}
