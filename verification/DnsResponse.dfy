/** Reading a response: `parse_response` of dns_packet.cpp. */
module DnsResponse {
  import opened Bytes
  import opened DnsName
  import opened DnsQuestion
  import opened DnsAgeing
  import opened AliasChain

  const NO_TTL := 0xffff_ffff

  const A := 1
  const CNAME := 5
  const SOA := 6
  const AAAA := 28

  /** One record: its owner, its fixed part, its class and its TTL. */
  datatype Record = Record(owner: string, slot: Slot, klass: nat, ttl: nat) {
    function Data(): nat { slot.at + 10 }
  }

  /** The section counts of a header. */
  datatype Counts = Counts(answers: nat, authority: nat, additional: nat) {
    function Total(): nat { answers + authority + additional }
  }

  function CountsOf(p: Packet): (c: Counts)
    requires |p| >= 12
    ensures c.Total() == RecordCount(p)
  {
    Counts(Word(p, 6), Word(p, 8), Word(p, 10))
  }

  /** What the record loop has gathered. */
  datatype Scan = Scan(
    addresses: seq<(string, Packet)>,
    aliases: map<string, string>,
    opt: bool,
    extended: nat,
    requested: bool,
    signed: bool,
    positive: nat,
    negative: nat)

  const NOTHING := Scan([], map[], false, 0, false, false, NO_TTL, NO_TTL)

  datatype Answer = Answer(
    rcode: nat,
    truncated: bool,
    authenticated: bool,
    addresses: seq<Packet>,
    cacheable: bool,
    cacheTtl: nat)

  function Min(a: nat, b: nat): (m: nat)
    ensures m <= a && m <= b && (m == a || m == b)
  {
    if b < a then b else a
  }

  ghost function RecordAt(p: Packet, at: nat): (r: Result<Record>)
    ensures r.Ok? ==> SlotAt(p, at) == Ok(r.value.slot)
    ensures r.Err? ==> r.code == MALFORMED
  {
    var s :- SlotAt(p, at);
    Ok(Record(NameAt(p, at).value.0, s, Word(p, s.at + 2), Dword(p, s.at + 4)))
  }

  /** Record types whose data is one name: NS, CNAME and PTR. */
  predicate NamesTarget(kind: nat) { kind == 5 || kind == 2 || kind == 12 }

  predicate IsAddress(r: Record, wanted: nat)
  {
    (r.slot.kind == A || r.slot.kind == AAAA) && r.klass == 1 && r.slot.kind == wanted
  }

  predicate IsAlias(r: Record) { r.slot.kind == CNAME && r.klass == 1 }

  /** Signed transactions, TKEY and TSIG, are never cached. */
  predicate IsSignature(r: Record) { r.slot.kind == 249 || r.slot.kind == 250 }

  predicate IsNegativeSoa(r: Record, i: nat, c: Counts, klass: nat)
  {
    r.slot.kind == SOA && c.answers <= i < c.answers + c.authority && r.klass == klass
  }

  /** The offset of the MINIMUM field of a SOA record: 20 bytes behind two names that fill the rest of the data. */
  ghost function SoaFixed(p: Packet, data: nat, end: nat): (r: Result<nat>)
    ensures r.Ok? ==> r.value + 20 == end
    ensures r.Err? ==> r.code == MALFORMED
  {
    var (_, second) :- NameAt(p, data);
    var (_, fixed) :- NameAt(p, second);
    if fixed + 20 != end then Err(MALFORMED) else Ok(fixed)
  }

  /** One record, the `i`-th of the message, added to what is gathered. */
  ghost function Step(p: Packet, acc: Scan, r: Record, i: nat, c: Counts, wanted: Question): (res: Result<Scan>)
    requires r.slot.Next() <= |p|
    ensures res.Err? ==> res.code == MALFORMED
  {
    var kind, length, data := r.slot.kind, r.slot.length, r.Data();
    if (kind == A && length != 4) || (kind == AAAA && length != 16) then Err(MALFORMED)
    else if kind == OPT && (acc.opt || r.owner != "" || i < c.answers + c.authority) then Err(MALFORMED)
    else
      var named :- if NamesTarget(kind) then NameAt(p, data) else Ok(("", data + length));
      if named.1 != data + length then Err(MALFORMED)
      else
        var fixed :- if IsNegativeSoa(r, i, c, wanted.klass) then SoaFixed(p, data, data + length) else Ok(0);
        Ok(Scan(
          if i < c.answers && IsAddress(r, wanted.kind) then acc.addresses + [(r.owner, p[data..data + length])] else acc.addresses,
          if i < c.answers && IsAlias(r) then acc.aliases[r.owner := named.0] else acc.aliases,
          acc.opt || kind == OPT,
          if kind == OPT then p[r.slot.at + 4] else acc.extended,
          acc.requested || (i < c.answers && kind == wanted.kind && r.klass == wanted.klass),
          acc.signed || IsSignature(r),
          if i < c.answers then Min(acc.positive, r.ttl) else acc.positive,
          if IsNegativeSoa(r, i, c, wanted.klass) then Min(acc.negative, Min(r.ttl, Dword(p, fixed + 16))) else acc.negative))
  }

  /** What is gathered, and the cursor, after `n` records. */
  ghost function Scanned(p: Packet, from: nat, n: nat, c: Counts, wanted: Question): (r: Result<(Scan, nat)>)
    ensures r.Err? ==> r.code == MALFORMED
  {
    if n == 0 then Ok((NOTHING, from)) else
    var (acc, at) :- Scanned(p, from, n - 1, c, wanted);
    var record :- RecordAt(p, at);
    var next :- Step(p, acc, record, n - 1, c, wanted);
    Ok((next, record.slot.Next()))
  }

  predicate Matches(q: Question, wanted: Question)
  {
    IsReply(q.flags) && q.id == wanted.id && q.name == wanted.name && q.kind == wanted.kind && q.klass == wanted.klass
  }

  /** What is left to decide once all records are read: the answer code and how long it may be cached. */
  function Verdict(q: Question, wanted: Question, acc: Scan, addresses: seq<Packet>): (a: Answer)
  {
    var rcode := q.flags % 16 + 16 * acc.extended;
    var negative := rcode == 3 || (rcode == 0 && !acc.requested && acc.negative != NO_TTL);
    var ttl := if negative then acc.negative else acc.positive;
    var cacheable := !acc.signed && wanted.kind != 251 && wanted.kind != 252
                     && (rcode == 0 || rcode == 3) && ttl != NO_TTL && ttl != 0;
    Answer(rcode, false, IsAuthenticated(q.flags), addresses, cacheable, if cacheable then ttl else 0)
  }

  /** The values of those addresses whose owner the alias chain reaches. */
  ghost function ReachedAddresses(addresses: seq<(string, Packet)>, aliases: map<string, string>, name: string): (r: seq<Packet>)
  {
    if addresses == [] then []
    else
      var last := addresses[|addresses| - 1];
      ReachedAddresses(addresses[..|addresses| - 1], aliases, name) + if Reachable(aliases, name, last.0) then [last.1] else []
  }

  ghost function ResponseOf(p: Packet, wanted: Question): (r: Result<Answer>)
  {
    var q :- QuestionOf(p);
    if !Matches(q, wanted) then Err("DNS_MISMATCH")
    else if IsTruncated(q.flags) then Ok(Answer(q.flags % 16, true, IsAuthenticated(q.flags), [], false, 0))
    else if RecordCount(p) > MAX_RECORDS then Err(MALFORMED)
    else
      var (acc, at) :- Scanned(p, q.end, RecordCount(p), CountsOf(p), wanted);
      if at != |p| || Cyclic(acc.aliases, wanted.name) then Err(MALFORMED)
      else Ok(Verdict(q, wanted, acc, ReachedAddresses(acc.addresses, acc.aliases, wanted.name)))
  }

  // ---- The parser ----

  method ReadRecord(p: Packet, at: nat) returns (r: Result<Record>)
    ensures r == RecordAt(p, at)
  {
    hide NameText;
    hide NameEnd;
    var named :- ReadName(p, at);
    var e := named.1;
    if e + 10 > |p| || Word(p, e + 8) > |p| - (e + 10) {
      return Err(MALFORMED);
    }
    return Ok(Record(named.0, Slot(e, Word(p, e), Word(p, e + 8)), Word(p, e + 2), Dword(p, e + 4)));
  }

  method ReadSoa(p: Packet, data: nat, end: nat) returns (r: Result<nat>)
    ensures r == SoaFixed(p, data, end)
  {
    hide NameAt;
    var first :- ReadName(p, data);
    var second :- ReadName(p, first.1);
    if second.1 > end || end - second.1 != 20 {
      return Err(MALFORMED);
    }
    return Ok(second.1);
  }

  method ScanRecord(p: Packet, acc: Scan, r: Record, i: nat, c: Counts, wanted: Question) returns (res: Result<Scan>)
    requires r.slot.Next() <= |p|
    ensures res == Step(p, acc, r, i, c, wanted)
  {
    hide NameAt;
    hide SoaFixed;
    var kind, length, data := r.slot.kind, r.slot.length, r.Data();
    var next := acc;
    if (kind == A && length != 4) || (kind == AAAA && length != 16) {
      return Err(MALFORMED);
    }
    if IsAddress(r, wanted.kind) && i < c.answers {
      next := next.(addresses := next.addresses + [(r.owner, p[data..data + length])]);
    } else if NamesTarget(kind) {
      var target :- ReadName(p, data);
      if target.1 != data + length {
        return Err(MALFORMED);
      }
      if IsAlias(r) && i < c.answers {
        next := next.(aliases := next.aliases[r.owner := target.0]);
      }
    } else if kind == OPT {
      if acc.opt || r.owner != "" || i < c.answers + c.authority {
        return Err(MALFORMED);
      }
      next := next.(opt := true, extended := p[r.slot.at + 4]);
    }
    if i < c.answers && kind != OPT {
      next := next.(positive := Min(next.positive, r.ttl));
      if kind == wanted.kind && r.klass == wanted.klass {
        next := next.(requested := true);
      }
    }
    if IsSignature(r) {
      next := next.(signed := true);
    }
    if IsNegativeSoa(r, i, c, wanted.klass) {
      var fixed :- ReadSoa(p, data, data + length);
      next := next.(negative := Min(next.negative, Min(r.ttl, Dword(p, fixed + 16))));
    }
    return Ok(next);
  }

  method ScanRecords(p: Packet, from: nat, c: Counts, wanted: Question) returns (r: Result<(Scan, nat)>)
    ensures r == Scanned(p, from, c.Total(), c, wanted)
  {
    hide RecordAt;
    hide SlotAt;
    hide Step;
    var acc, at := NOTHING, from;
    var i: nat := 0;
    while i < c.Total()
      invariant i <= c.Total()
      invariant Scanned(p, from, i, c, wanted) == Ok((acc, at))
    {
      var record := ReadRecord(p, at);
      if record.Err? {
        ScanFails(p, from, i + 1, c.Total(), c, wanted);
        return Err(MALFORMED);
      }
      var next := ScanRecord(p, acc, record.value, i, c, wanted);
      if next.Err? {
        ScanFails(p, from, i + 1, c.Total(), c, wanted);
        return Err(MALFORMED);
      }
      acc, at := next.value, record.value.slot.Next();
      i := i + 1;
    }
    return Ok((acc, at));
  }

  lemma {:induction false} ScanFails(p: Packet, from: nat, m: nat, n: nat, c: Counts, wanted: Question)
    requires m <= n && Scanned(p, from, m, c, wanted).Err?
    ensures Scanned(p, from, n, c, wanted).Err?
    decreases n
  {
    hide RecordAt;
    hide SlotAt;
    hide Step;
    if m < n {
      ScanFails(p, from, m, n - 1, c, wanted);
    }
  }

  method ParseResponse(p: Packet, wanted: Question) returns (r: Result<Answer>)
    ensures r == ResponseOf(p, wanted)
  {
    hide Scanned;
    hide QuestionOf;
    var q :- ParseQuestion(p);
    if !Matches(q, wanted) {
      return Err("DNS_MISMATCH");
    }
    assert |p| >= 12 by { QuestionShape(p); }
    var rcode, authenticated := q.flags % 16, IsAuthenticated(q.flags);
    if IsTruncated(q.flags) {
      return Ok(Answer(rcode, true, authenticated, [], false, 0));
    }
    var c := CountsOf(p);
    if c.Total() > MAX_RECORDS {
      return Err(MALFORMED);
    }
    var scanned :- ScanRecords(p, q.end, c, wanted);
    var (acc, at) := scanned;
    if at != |p| {
      return Err(MALFORMED);
    }
    var reachable :- Chase(acc.aliases, wanted.name);
    var addresses := [];
    var i: nat := 0;
    while i < |acc.addresses|
      invariant i <= |acc.addresses|
      invariant addresses == ReachedAddresses(acc.addresses[..i], acc.aliases, wanted.name)
    {
      var (owner, value) := acc.addresses[i];
      if owner in reachable {
        addresses := addresses + [value];
      }
      assert acc.addresses[..i + 1][..i] == acc.addresses[..i];
      i := i + 1;
    }
    assert acc.addresses[..i] == acc.addresses;
    return Ok(Verdict(q, wanted, acc, addresses));
  }

  // ---- What a parsed response says about the records of the packet ----

  /** The first `n` records from `from` on, and the offset behind them. */
  ghost function Records(p: Packet, from: nat, n: nat): (r: Result<(seq<Record>, nat)>)
    ensures r.Ok? ==> |r.value.0| == n
  {
    if n == 0 then Ok(([], from)) else
    var (records, at) :- Records(p, from, n - 1);
    var record :- RecordAt(p, at);
    Ok((records + [record], record.slot.Next()))
  }

  /** The target of the last CNAME record that `owner` has among `answers`. */
  ghost function LastTarget(p: Packet, answers: seq<Record>, owner: string): (r: Option<string>)
  {
    if answers == [] then None
    else
      var last := answers[|answers| - 1];
      if last.slot.kind == 5 && last.klass == 1 && last.owner == owner && NameAt(p, last.Data()).Ok? then Some(NameAt(p, last.Data()).value.0)
      else LastTarget(p, answers[..|answers| - 1], owner)
  }

  /** The owner and value of each requested-type address record among `answers`, in order. */
  ghost function AddressRecords(p: Packet, answers: seq<Record>, wanted: nat): (r: seq<(string, Packet)>)
    requires forall k :: 0 <= k < |answers| ==> answers[k].slot.Next() <= |p|
  {
    if answers == [] then []
    else
      var last := answers[|answers| - 1];
      assert last.Data() <= last.slot.Next() <= |p|;
      AddressRecords(p, answers[..|answers| - 1], wanted) +
      if last.slot.kind == wanted && wanted in {1, 28} && last.klass == 1 then [(last.owner, p[last.Data()..last.slot.Next()])]
      else []
  }

  /** `map` is the alias relation of `answers`. */
  ghost predicate IsAliasMap(p: Packet, answers: seq<Record>, aliases: map<string, string>)
  {
    forall owner :: LastTarget(p, answers, owner) == if owner in aliases then Some(aliases[owner]) else None
  }

  /** What the answers say about addresses, lifetimes and the type asked for. */
  ghost predicate AnswersTell(p: Packet, acc: Scan, answers: seq<Record>, wanted: Question)
  {
    && (forall k :: 0 <= k < |answers| ==> answers[k].slot.Next() <= |p|)
    && acc.addresses == AddressRecords(p, answers, wanted.kind)
    && IsAliasMap(p, answers, acc.aliases)
    && (forall k :: 0 <= k < |answers| ==> acc.positive <= answers[k].ttl)
    && (acc.positive == NO_TTL || exists k :: 0 <= k < |answers| && answers[k].ttl == acc.positive)
    && (acc.requested <==> exists k :: 0 <= k < |answers| && answers[k].slot.kind == wanted.kind && answers[k].klass == wanted.klass)
  }

  /** What all the records say about signatures and negative answers. */
  ghost predicate RecordsTell(p: Packet, acc: Scan, records: seq<Record>, c: Counts, wanted: Question)
  {
    && (forall k :: 0 <= k < |records| ==> records[k].slot.Next() <= |p|)
    && (acc.signed <==> exists k :: 0 <= k < |records| && IsSignature(records[k]))
    && (forall k :: 0 <= k < |records| && IsNegativeSoa(records[k], k, c, wanted.klass) ==> acc.negative <= records[k].ttl)
  }

  /** The gathered facts, in terms of the records gathered from. */
  ghost predicate Describes(p: Packet, acc: Scan, records: seq<Record>, c: Counts, wanted: Question)
  {
    AnswersTell(p, acc, records[..Min(|records|, c.answers)], wanted) && RecordsTell(p, acc, records, c, wanted)
  }

  lemma AliasStep(p: Packet, answers: seq<Record>, aliases: map<string, string>, r: Record)
    requires IsAliasMap(p, answers, aliases) && (IsAlias(r) ==> NameAt(p, r.Data()).Ok?)
    ensures IsAliasMap(p, answers + [r], if IsAlias(r) then aliases[r.owner := NameAt(p, r.Data()).value.0] else aliases)
  {
    hide NameAt;
    assert (answers + [r])[..|answers|] == answers;
  }

  /** What one step gathers from an answer. */
  lemma AnswerStepped(p: Packet, acc: Scan, r: Record, i: nat, c: Counts, wanted: Question)
    requires r.slot.Next() <= |p| && Step(p, acc, r, i, c, wanted).Ok? && i < c.answers
    ensures IsAlias(r) ==> NameAt(p, r.Data()).Ok?
    ensures var next := Step(p, acc, r, i, c, wanted).value;
            && next.addresses == (if IsAddress(r, wanted.kind) then acc.addresses + [(r.owner, p[r.Data()..r.Data() + r.slot.length])]
                                  else acc.addresses)
            && next.aliases == (if IsAlias(r) then acc.aliases[r.owner := NameAt(p, r.Data()).value.0] else acc.aliases)
            && next.requested == (acc.requested || (r.slot.kind == wanted.kind && r.klass == wanted.klass))
            && next.positive == Min(acc.positive, r.ttl)
  {
    hide NameAt;
    hide SoaFixed;
    hide Dword;
  }

  lemma AddressStep(p: Packet, answers: seq<Record>, r: Record, wanted: nat)
    requires r.slot.Next() <= |p| && forall k :: 0 <= k < |answers| ==> answers[k].slot.Next() <= |p|
    ensures AddressRecords(p, answers + [r], wanted) == AddressRecords(p, answers, wanted) +
            if IsAddress(r, wanted) then [(r.owner, p[r.Data()..r.Data() + r.slot.length])] else []
  {
    assert (answers + [r])[..|answers|] == answers;
  }

  /** One more answer. */
  lemma AnswersStep(p: Packet, acc: Scan, answers: seq<Record>, r: Record, i: nat, c: Counts, wanted: Question)
    requires AnswersTell(p, acc, answers, wanted) && r.slot.Next() <= |p| && Step(p, acc, r, i, c, wanted).Ok? && i < c.answers
    ensures AnswersTell(p, Step(p, acc, r, i, c, wanted).value, answers + [r], wanted)
  {
    hide NameAt;
    hide Step;
    hide IsAliasMap;
    hide IsAlias;
    hide IsAddress;
    hide AddressRecords;
    AnswerStepped(p, acc, r, i, c, wanted);
    AddressStep(p, answers, r, wanted.kind);
    var more := answers + [r];
    assert more[|answers|] == r && forall k :: 0 <= k < |answers| ==> more[k] == answers[k];
    AliasStep(p, answers, acc.aliases, r);
  }

  /** A record behind the answers tells nothing about them. */
  lemma AnswersStay(p: Packet, acc: Scan, answers: seq<Record>, r: Record, i: nat, c: Counts, wanted: Question)
    requires AnswersTell(p, acc, answers, wanted) && r.slot.Next() <= |p| && Step(p, acc, r, i, c, wanted).Ok? && i >= c.answers
    ensures AnswersTell(p, Step(p, acc, r, i, c, wanted).value, answers, wanted)
  {
    hide NameAt;
    hide SoaFixed;
    hide Word;
    hide Dword;
    hide IsAliasMap;
    hide AddressRecords;
  }

  lemma RecordsStep(p: Packet, acc: Scan, records: seq<Record>, r: Record, c: Counts, wanted: Question)
    requires RecordsTell(p, acc, records, c, wanted) && r.slot.Next() <= |p|
    requires Step(p, acc, r, |records|, c, wanted).Ok?
    ensures RecordsTell(p, Step(p, acc, r, |records|, c, wanted).value, records + [r], c, wanted)
  {
    hide NameAt;
    hide SoaFixed;
    hide Word;
    hide Dword;
    var more := records + [r];
    assert more[|records|] == r && forall k :: 0 <= k < |records| ==> more[k] == records[k];
    if acc.signed {
      var k :| 0 <= k < |records| && IsSignature(records[k]);
      assert IsSignature(more[k]);
    }
  }

  lemma DescribesStep(p: Packet, acc: Scan, records: seq<Record>, r: Record, c: Counts, wanted: Question)
    requires Describes(p, acc, records, c, wanted) && r.slot.Next() <= |p|
    requires Step(p, acc, r, |records|, c, wanted).Ok?
    ensures Describes(p, Step(p, acc, r, |records|, c, wanted).value, records + [r], c, wanted)
  {
    hide AnswersTell;
    hide RecordsTell;
    hide Step;
    var answers, answers' := records[..Min(|records|, c.answers)], (records + [r])[..Min(|records| + 1, c.answers)];
    RecordsStep(p, acc, records, r, c, wanted);
    if |records| < c.answers {
      assert answers' == answers + [r];
      AnswersStep(p, acc, answers, r, |records|, c, wanted);
    } else {
      assert answers' == answers;
      AnswersStay(p, acc, answers, r, |records|, c, wanted);
    }
  }

  lemma {:induction false} ScanDescribes(p: Packet, from: nat, n: nat, c: Counts, wanted: Question)
    requires Scanned(p, from, n, c, wanted).Ok?
    ensures Records(p, from, n).Ok? 
    ensures Scanned(p, from, n, c, wanted).value.1 == Records(p, from, n).value.1
    ensures Describes(p, Scanned(p, from, n, c, wanted).value.0, Records(p, from, n).value.0, c, wanted)
  {
    hide RecordAt;
    hide SlotAt;
    hide Step;
    if n > 0 {
      ScanDescribes(p, from, n - 1, c, wanted);
      var acc, at := Scanned(p, from, n - 1, c, wanted).value.0, Scanned(p, from, n - 1, c, wanted).value.1;
      DescribesStep(p, acc, Records(p, from, n - 1).value.0, RecordAt(p, at).value, c, wanted);
    }
  }

  /** Reading fewer records gives a prefix. */
  lemma {:induction false} RecordsPrefix(p: Packet, from: nat, m: nat, n: nat)
    requires m <= n && Records(p, from, n).Ok?
    ensures Records(p, from, m).Ok?
    ensures Records(p, from, m).value.0 == Records(p, from, n).value.0[..m]
    decreases n
  {
    hide RecordAt;
    hide SlotAt;
    if m < n {
      RecordsPrefix(p, from, m, n - 1);
      assert Records(p, from, n).value.0[..n - 1] == Records(p, from, n - 1).value.0;
    }
  }

  /** Records and layout advance together. */
  lemma {:induction false} RecordsAndLayout(p: Packet, from: nat, n: nat)
    requires Records(p, from, n).Ok?
    ensures |Layout(p, from, n).0| == n && Layout(p, from, n).1 == Records(p, from, n).value.1
  {
    hide RecordAt;
    hide SlotAt;
    hide NameEnd;
    hide Word;
    if n > 0 {
      RecordsAndLayout(p, from, n - 1);
    }
  }

  lemma LastRecordInLayout(p: Packet, from: nat, k: nat)
    requires Records(p, from, k + 1).Ok?
    ensures |Layout(p, from, k + 1).0| == k + 1
    ensures var record := Records(p, from, k + 1).value.0[k];
            && record.slot == Layout(p, from, k + 1).0[k] && record.slot.Next() <= |p|
            && record.ttl == Dword(p, record.slot.at + 4)
  {
    hide NameAt;
    hide NameEnd;
    hide Dword;
    hide Word;
    RecordsAndLayout(p, from, k);
    RecordsAndLayout(p, from, k + 1);
  }

  /** The `k`-th record read is the `k`-th slot of the layout with owner, class and TTL added. */
  lemma RecordInLayout(p: Packet, from: nat, n: nat, k: nat)
    requires k < n && Records(p, from, n).Ok?
    ensures |Layout(p, from, n).0| == n
    ensures var record := Records(p, from, n).value.0[k];
            && record.slot == Layout(p, from, n).0[k] && record.slot.Next() <= |p|
            && record.ttl == Dword(p, record.slot.at + 4)
  {
    hide Records;
    hide Layout;
    hide Dword;
    RecordsAndLayout(p, from, n);
    RecordsPrefix(p, from, k + 1, n);
    LayoutPrefix(p, from, k + 1, n);
    LastRecordInLayout(p, from, k);
  }

  /** The answer section of a message. */
  ghost function AnswerRecords(p: Packet): (r: seq<Record>)
    requires QuestionOf(p).Ok?
  {
    match Records(p, QuestionOf(p).value.end, CountsOf(p).answers)
    case Ok((records, _)) => records
    case Err(_) => []
  }

  /** A response that parses without truncation has all its records in place, and its answers described by the scan. */
  lemma ResponseScanned(p: Packet, wanted: Question)
    requires ResponseOf(p, wanted).Ok? && !ResponseOf(p, wanted).value.truncated
    ensures QuestionOf(p).Ok? && Matches(QuestionOf(p).value, wanted) && RecordCount(p) <= MAX_RECORDS
    ensures var q := QuestionOf(p).value;
            var answers := AnswerRecords(p);
            var scanned := Scanned(p, q.end, RecordCount(p), CountsOf(p), wanted);
            && scanned.Ok? && scanned.value.1 == |p| && !Cyclic(scanned.value.0.aliases, wanted.name)
            && var acc := scanned.value.0;
            && ResponseOf(p, wanted).value == Verdict(q, wanted, acc, ReachedAddresses(acc.addresses, acc.aliases, wanted.name))
            && |answers| == CountsOf(p).answers
            && (forall k :: 0 <= k < |answers| ==> answers[k].slot.Next() <= |p|)
            && acc.addresses == AddressRecords(p, answers, wanted.kind) && IsAliasMap(p, answers, acc.aliases)
            && (forall k :: 0 <= k < |answers| ==> acc.positive <= answers[k].ttl)
            && (acc.requested <==> exists k :: 0 <= k < |answers| && answers[k].slot.kind == wanted.kind && answers[k].klass == wanted.klass)
  {
    hide RecordAt;
    hide SlotAt;
    hide Step;
    hide NameAt;
    hide IsAliasMap;
    hide AddressRecords;
    hide Verdict;
    hide Scanned;
    hide Records;
    var from := QuestionOf(p).value.end;
    ScanDescribes(p, from, RecordCount(p), CountsOf(p), wanted);
    RecordsPrefix(p, from, CountsOf(p).answers, RecordCount(p));
  }

  /**
   The alias closure: a parsed response lists, in order, exactly the values of the requested-type address answers
   whose owner the chain of CNAME answers reaches from the question name, and that chain has no cycle.
   */
  lemma AddressesFollowAliases(p: Packet, wanted: Question) returns (aliases: map<string, string>)
    requires ResponseOf(p, wanted).Ok? && !ResponseOf(p, wanted).value.truncated
    ensures QuestionOf(p).Ok? && forall k :: 0 <= k < |AnswerRecords(p)| ==> AnswerRecords(p)[k].slot.Next() <= |p|
    ensures IsAliasMap(p, AnswerRecords(p), aliases)
    ensures forall other :: IsAliasMap(p, AnswerRecords(p), other) ==> other == aliases
    ensures !Cyclic(aliases, wanted.name)
    ensures ResponseOf(p, wanted).value.addresses
         == ReachedAddresses(AddressRecords(p, AnswerRecords(p), wanted.kind), aliases, wanted.name)
  {
    hide AnswerRecords;
    hide ResponseOf;
    hide LastTarget;
    ResponseScanned(p, wanted);
    aliases := Scanned(p, QuestionOf(p).value.end, RecordCount(p), CountsOf(p), wanted).value.0.aliases;
    forall other | IsAliasMap(p, AnswerRecords(p), other)
      ensures other == aliases
    {
      AliasMapUnique(p, AnswerRecords(p), aliases, other);
    }
  }

  lemma AliasMapUnique(p: Packet, answers: seq<Record>, one: map<string, string>, other: map<string, string>)
    requires IsAliasMap(p, answers, one) && IsAliasMap(p, answers, other)
    ensures one == other
  {
    hide LastTarget;
    forall owner: string
      ensures owner in one <==> owner in other
      ensures owner in one ==> one[owner] == other[owner]
    {
      assert LastTarget(p, answers, owner) == LastTarget(p, answers, owner);
    }
  }

  /** A positive answer is cached no longer than any of its answer records lives. */
  lemma CachedNoLongerThanAnswers(p: Packet, wanted: Question)
    requires ResponseOf(p, wanted).Ok? && !ResponseOf(p, wanted).value.truncated && ResponseOf(p, wanted).value.cacheable
    requires ResponseOf(p, wanted).value.rcode == 0
    requires exists k :: 0 <= k < |AnswerRecords(p)|
               && AnswerRecords(p)[k].slot.kind == wanted.kind && AnswerRecords(p)[k].klass == wanted.klass
    ensures var (slots, _) := RecordLayout(p);
            && CountsOf(p).answers <= |slots| && AllInside(slots, |p|)
            && ResponseOf(p, wanted).value.cacheTtl > 0
            && forall k :: 0 <= k < CountsOf(p).answers ==> ResponseOf(p, wanted).value.cacheTtl <= Dword(p, slots[k].at + 4)
  {
    hide RecordAt;
    hide SlotAt;
    hide Scanned;
    hide ResponseOf;
    hide IsAliasMap;
    hide AddressRecords;
    hide LastTarget;
    hide Dword;
    hide Layout;
    hide Records;
    ResponseScanned(p, wanted);
    AnswersInLayout(p, wanted);
  }

  /** The answers are the first records of the layout. */
  lemma AnswersInLayout(p: Packet, wanted: Question)
    requires ResponseOf(p, wanted).Ok? && !ResponseOf(p, wanted).value.truncated
    ensures QuestionOf(p).Ok? && |RecordLayout(p).0| == RecordCount(p) >= |AnswerRecords(p)| == CountsOf(p).answers
    ensures AllInside(RecordLayout(p).0, |p|)
    ensures forall k :: 0 <= k < CountsOf(p).answers ==>
              && AnswerRecords(p)[k].slot == RecordLayout(p).0[k]
              && AnswerRecords(p)[k].ttl == Dword(p, RecordLayout(p).0[k].at + 4)
  {
    hide RecordAt;
    hide SlotAt;
    hide Scanned;
    hide ResponseOf;
    hide Dword;
    hide Layout;
    hide Records;
    hide QuestionOf;
    hide Describes;
    ResponseScanned(p, wanted);
    QuestionShape(p);
    var from, c, n := QuestionOf(p).value.end, CountsOf(p), RecordCount(p);
    ScanDescribes(p, from, n, c, wanted);
    RecordsPrefix(p, from, c.answers, n);
    RecordsAndLayout(p, from, n);
    LayoutOrdered(p, from, n);
    forall k | 0 <= k < c.answers
      ensures AnswerRecords(p)[k].slot == RecordLayout(p).0[k]
      ensures AnswerRecords(p)[k].ttl == Dword(p, RecordLayout(p).0[k].at + 4)
    {
      RecordInLayout(p, from, n, k);
      assert AnswerRecords(p)[k] == Records(p, from, n).value.0[k];
    }
  }
}
