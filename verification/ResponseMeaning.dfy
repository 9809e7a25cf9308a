/**
 What `parse_response` of dns_packet.cpp means, told of the records of a packet one by one: which responses are accepted, and
 what is made of code and cache time. Numbers are those of RFC 1035, section 5 of RFC 2308 and section 6.1.2 of RFC 6891.
 */
module ResponseMeaning {
  import opened Bytes
  import opened DnsName
  import opened DnsQuestion
  import opened DnsAgeing
  import opened AliasChain
  import opened DnsResponse

  // ---- One record among others ----

  ghost predicate AllIn(p: Packet, records: seq<Record>) { forall k :: 0 <= k < |records| ==> records[k].slot.Next() <= |p| }

  /** A SOA record of the authority section, for the class asked for. */
  predicate SoaAt(records: seq<Record>, k: nat, c: Counts, klass: nat)
    requires k < |records|
  {
    records[k].slot.kind == 6 && c.answers <= k < c.answers + c.authority && records[k].klass == klass
  }

  /** Two names and 20 bytes. */
  ghost predicate SoaData(p: Packet, from: nat, to: nat)
  {
    NameAt(p, from).Ok? && NameAt(p, NameAt(p, from).value.1).Ok? && NameAt(p, NameAt(p, from).value.1).value.1 + 20 == to
  }

  /** What makes the `k`-th record acceptable. */
  ghost predicate SoundRecord(p: Packet, records: seq<Record>, k: nat, c: Counts, klass: nat)
    requires k < |records|
  {
    var s := records[k].slot;
    var from, to := s.at + 10, s.at + 10 + s.length;
    && (s.kind == 1 ==> s.length == 4) && (s.kind == 28 ==> s.length == 16)
    && (s.kind in {2, 5, 12} ==> NameAt(p, from).Ok? && NameAt(p, from).value.1 == to)
    && (s.kind == 41 ==>
          records[k].owner == "" && k >= c.answers + c.authority && forall j :: 0 <= j < k ==> records[j].slot.kind != 41)
    && (SoaAt(records, k, c, klass) ==> SoaData(p, from, to))
  }

  /** How long a SOA record lets a negative answer be kept: its own TTL and its last field bound it. */
  function SoaTtl(p: Packet, r: Record): (ttl: nat)
    requires r.slot.length >= 4 && r.slot.Next() <= |p|
  {
    if Dword(p, r.slot.Next() - 4) < r.ttl then Dword(p, r.slot.Next() - 4) else r.ttl
  }

  /** What the scan gathers beyond the answers: about the OPT record, and about negative answers. */
  ghost predicate Gathers(p: Packet, acc: Scan, records: seq<Record>, c: Counts, klass: nat)
  {
    AllIn(p, records) && GathersOpt(p, acc, records) && GathersSoas(p, acc, records, c, klass) && acc.positive <= 0xffff_ffff
  }

  ghost predicate GathersOpt(p: Packet, acc: Scan, records: seq<Record>)
    requires AllIn(p, records)
  {
    && (acc.opt <==> exists k :: 0 <= k < |records| && records[k].slot.kind == 41)
    && (!acc.opt ==> acc.extended == 0)
    && (forall k :: 0 <= k < |records| && records[k].slot.kind == 41 ==> acc.extended == p[records[k].slot.at + 4])
  }

  ghost predicate GathersSoas(p: Packet, acc: Scan, records: seq<Record>, c: Counts, klass: nat)
    requires AllIn(p, records)
  {
    && (forall k :: 0 <= k < |records| && SoaAt(records, k, c, klass) ==>
          records[k].slot.length >= 20 && acc.negative <= SoaTtl(p, records[k]))
    && (acc.negative == 0xffff_ffff
        || exists k :: 0 <= k < |records| && SoaAt(records, k, c, klass) && records[k].slot.length >= 20 && acc.negative == SoaTtl(p, records[k]))
    && acc.negative <= 0xffff_ffff
  }

  lemma SoaIsLong(p: Packet, from: nat, to: nat)
    requires SoaData(p, from, to)
    ensures to >= from + 20
  {
    hide NameText;
    EndGoesOn(p, from);
    EndGoesOn(p, NameAt(p, from).value.1);
  }

  lemma EndGoesOn(p: Packet, at: nat)
    requires NameAt(p, at).Ok?
    ensures at <= NameAt(p, at).value.1
  {
    hide NameText;
  }

  lemma StepAccepts(p: Packet, acc: Scan, records: seq<Record>, r: Record, c: Counts, wanted: Question)
    requires r.slot.Next() <= |p| && (acc.opt <==> exists k :: 0 <= k < |records| && records[k].slot.kind == 41)
    ensures Step(p, acc, r, |records|, c, wanted).Ok? <==> SoundRecord(p, records + [r], |records|, c, wanted.klass)
  {
    hide NameAt;
    hide Dword;
    var more := records + [r];
    assert more[|records|] == r && forall k :: 0 <= k < |records| ==> more[k] == records[k];
  }

  lemma StepGathers(p: Packet, acc: Scan, records: seq<Record>, r: Record, c: Counts, wanted: Question)
    requires r.slot.Next() <= |p| && Gathers(p, acc, records, c, wanted.klass)
    requires Step(p, acc, r, |records|, c, wanted).Ok?
    ensures Gathers(p, Step(p, acc, r, |records|, c, wanted).value, records + [r], c, wanted.klass)
  {
    hide Step;
    hide GathersOpt;
    hide GathersSoas;
    hide SoaTtl;
    StepFields(p, acc, r, |records|, c, wanted);
    var more := records + [r];
    var next := Step(p, acc, r, |records|, c, wanted).value;
    assert more[|records|] == r && forall k :: 0 <= k < |records| ==> more[k] == records[k];
    OptStep(p, acc, records, r, next);
    if r.slot.kind == 6 && c.answers <= |records| < c.answers + c.authority && r.klass == wanted.klass {
      SoaStep(p, acc, records, r, c, wanted.klass, next);
    } else {
      NoSoaStep(p, acc, records, r, c, wanted.klass, next);
    }
  }

  lemma OptStep(p: Packet, acc: Scan, records: seq<Record>, r: Record, next: Scan)
    requires AllIn(p, records) && AllIn(p, records + [r]) && r.slot.Next() <= |p| && GathersOpt(p, acc, records)
    requires next.opt == (acc.opt || r.slot.kind == 41)
    requires if r.slot.kind == 41 then !acc.opt && next.extended == p[r.slot.at + 4] else next.extended == acc.extended
    ensures GathersOpt(p, next, records + [r])
  {
    var more := records + [r];
    assert more[|records|] == r && forall k :: 0 <= k < |records| ==> more[k] == records[k];
  }

  lemma SoaStep(p: Packet, acc: Scan, records: seq<Record>, r: Record, c: Counts, klass: nat, next: Scan)
    requires AllIn(p, records) && AllIn(p, records + [r]) && r.slot.Next() <= |p| && GathersSoas(p, acc, records, c, klass)
    requires r.slot.kind == 6 && c.answers <= |records| < c.answers + c.authority && r.klass == klass
    requires r.slot.length >= 20 && next.negative == Min(acc.negative, SoaTtl(p, r))
    ensures GathersSoas(p, next, records + [r], c, klass)
  {
    hide SoaTtl;
    var more := records + [r];
    assert more[|records|] == r && forall k :: 0 <= k < |records| ==> more[k] == records[k];
    assert SoaAt(more, |records|, c, klass);
    assert forall k :: 0 <= k < |records| ==> (SoaAt(more, k, c, klass) <==> SoaAt(records, k, c, klass));
  }

  lemma NoSoaStep(p: Packet, acc: Scan, records: seq<Record>, r: Record, c: Counts, klass: nat, next: Scan)
    requires AllIn(p, records) && AllIn(p, records + [r]) && r.slot.Next() <= |p| && GathersSoas(p, acc, records, c, klass)
    requires !(r.slot.kind == 6 && c.answers <= |records| < c.answers + c.authority && r.klass == klass)
    requires next.negative == acc.negative
    ensures GathersSoas(p, next, records + [r], c, klass)
  {
    hide SoaTtl;
    var more := records + [r];
    assert more[|records|] == r && forall k :: 0 <= k < |records| ==> more[k] == records[k];
    assert !SoaAt(more, |records|, c, klass);
    assert forall k :: 0 <= k < |records| ==> (SoaAt(more, k, c, klass) <==> SoaAt(records, k, c, klass));
  }

  lemma StepFields(p: Packet, acc: Scan, r: Record, i: nat, c: Counts, wanted: Question)
    requires r.slot.Next() <= |p| && Step(p, acc, r, i, c, wanted).Ok?
    ensures var next := Step(p, acc, r, i, c, wanted).value;
            && next.opt == (acc.opt || r.slot.kind == 41)
            && (r.slot.kind == 41 ==> !acc.opt && next.extended == p[r.slot.at + 4])
            && (r.slot.kind != 41 ==> next.extended == acc.extended)
            && (if r.slot.kind == 6 && c.answers <= i < c.answers + c.authority && r.klass == wanted.klass
                then r.slot.length >= 20 && next.negative == Min(acc.negative, SoaTtl(p, r)) else next.negative == acc.negative)
            && next.positive <= acc.positive
  {
    hide NameAt;
    hide Dword;
    if IsNegativeSoa(r, i, c, wanted.klass) {
      assert SoaData(p, r.Data(), r.slot.Next());
      SoaIsLong(p, r.Data(), r.slot.Next());
    }
  }

  /** All of them. */
  ghost predicate SoundRecords(p: Packet, records: seq<Record>, c: Counts, klass: nat)
  {
    forall k :: 0 <= k < |records| ==> SoundRecord(p, records, k, c, klass)
  }

  lemma SoundSnoc(p: Packet, records: seq<Record>, r: Record, c: Counts, klass: nat)
    ensures SoundRecords(p, records + [r], c, klass)
       <==> SoundRecords(p, records, c, klass) && SoundRecord(p, records + [r], |records|, c, klass)
  {
    hide NameAt;
    var more := records + [r];
    assert more[|records|] == r && forall k :: 0 <= k < |records| ==> more[k] == records[k];
    forall k | 0 <= k < |records|
      ensures SoundRecord(p, more, k, c, klass) <==> SoundRecord(p, records, k, c, klass)
    {
      assert SoaAt(more, k, c, klass) <==> SoaAt(records, k, c, klass);
    }
    if SoundRecords(p, more, c, klass) {
      forall k | 0 <= k < |records|
        ensures SoundRecord(p, records, k, c, klass)
      {
        assert SoundRecord(p, more, k, c, klass);
      }
    }
  }

  /** The scan succeeds exactly when every record can be read and is sound. */
  lemma {:induction false} ScannedExactly(p: Packet, from: nat, n: nat, c: Counts, wanted: Question)
    ensures Scanned(p, from, n, c, wanted).Ok?
       <==> Records(p, from, n).Ok? && SoundRecords(p, Records(p, from, n).value.0, c, wanted.klass)
    ensures Scanned(p, from, n, c, wanted).Ok? ==>
              && Scanned(p, from, n, c, wanted).value.1 == Records(p, from, n).value.1
              && Gathers(p, Scanned(p, from, n, c, wanted).value.0, Records(p, from, n).value.0, c, wanted.klass)
  {
    hide *;
    if n == 0 {
      NothingGathered(p, c, wanted.klass);
      NothingScanned(p, from, c, wanted);
    } else {
      ScannedExactly(p, from, n - 1, c, wanted);
      RecordsUnrolled(p, from, n);
      ScannedUnrolled(p, from, n, c, wanted);
      if Records(p, from, n).Ok? {
        var records, at := Records(p, from, n - 1).value.0, Records(p, from, n - 1).value.1;
        InPlace(p, at);
        SoundSnoc(p, records, RecordAt(p, at).value, c, wanted.klass);
        if Scanned(p, from, n - 1, c, wanted).Ok? {
          NextGathered(p, Scanned(p, from, n - 1, c, wanted).value.0, records, RecordAt(p, at).value, c, wanted);
        }
      }
    }
  }

  lemma NothingScanned(p: Packet, from: nat, c: Counts, wanted: Question)
    ensures Scanned(p, from, 0, c, wanted) == Ok((NOTHING, from)) && Records(p, from, 0) == Ok(([], from))
  {
  }

  lemma RecordsUnrolled(p: Packet, from: nat, n: nat)
    requires n > 0
    ensures Records(p, from, n).Ok? <==> Records(p, from, n - 1).Ok? && RecordAt(p, Records(p, from, n - 1).value.1).Ok?
    ensures Records(p, from, n).Ok? ==>
              var (records, at) := Records(p, from, n - 1).value;
              |records| == n - 1 && Records(p, from, n).value == (records + [RecordAt(p, at).value], RecordAt(p, at).value.slot.Next())
  {
    hide RecordAt;
  }

  lemma ScannedUnrolled(p: Packet, from: nat, n: nat, c: Counts, wanted: Question)
    requires n > 0
    ensures Scanned(p, from, n, c, wanted).Ok? ==> Scanned(p, from, n - 1, c, wanted).Ok?
    ensures Scanned(p, from, n - 1, c, wanted).Ok? ==>
              var (acc, at) := Scanned(p, from, n - 1, c, wanted).value;
              && (RecordAt(p, at).Err? ==> Scanned(p, from, n, c, wanted).Err?)
              && (RecordAt(p, at).Ok? ==>
                    var r := RecordAt(p, at).value;
                    r.slot.Next() <= |p|
                    && (Scanned(p, from, n, c, wanted).Ok? <==> Step(p, acc, r, n - 1, c, wanted).Ok?)
                    && (Scanned(p, from, n, c, wanted).Ok? ==>
                          Scanned(p, from, n, c, wanted).value == (Step(p, acc, r, n - 1, c, wanted).value, r.slot.Next())))
  {
    hide RecordAt;
    hide Step;
  }

  lemma NextGathered(p: Packet, acc: Scan, records: seq<Record>, r: Record, c: Counts, wanted: Question)
    requires Gathers(p, acc, records, c, wanted.klass) && r.slot.Next() <= |p|
    ensures Step(p, acc, r, |records|, c, wanted).Ok? <==> SoundRecord(p, records + [r], |records|, c, wanted.klass)
    ensures Step(p, acc, r, |records|, c, wanted).Ok? ==>
              Gathers(p, Step(p, acc, r, |records|, c, wanted).value, records + [r], c, wanted.klass)
  {
    hide *;
    KnowsOpt(p, acc, records, c, wanted.klass);
    StepAccepts(p, acc, records, r, c, wanted);
    if Step(p, acc, r, |records|, c, wanted).Ok? {
      StepGathers(p, acc, records, r, c, wanted);
    }
  }

  lemma NothingGathered(p: Packet, c: Counts, klass: nat)
    ensures Gathers(p, NOTHING, [], c, klass) && SoundRecords(p, [], c, klass)
  {
  }

  lemma KnowsOpt(p: Packet, acc: Scan, records: seq<Record>, c: Counts, klass: nat)
    requires Gathers(p, acc, records, c, klass)
    ensures acc.opt <==> exists k :: 0 <= k < |records| && records[k].slot.kind == 41
  {
  }

  lemma InPlace(p: Packet, at: nat)
    requires RecordAt(p, at).Ok?
    ensures RecordAt(p, at).value.slot.Next() <= |p|
  {
    hide NameAt;
  }

  // ---- Whole responses ----

  /** The records of a packet, if they can be read, and the offset behind them. */
  ghost function AllRecords(p: Packet): (r: Result<(seq<Record>, nat)>)
    requires QuestionOf(p).Ok?
  {
    Records(p, QuestionOf(p).value.end, RecordCount(p))
  }

  /** The alias map of the answers, whichever map it is. */
  ghost predicate NoAliasCycle(p: Packet, answers: seq<Record>, name: string)
  {
    forall aliases :: IsAliasMap(p, answers, aliases) ==> !Cyclic(aliases, name)
  }

  /** A response to the question: the same ID, name, type and class, with the QR bit set. */
  predicate RespondsTo(q: Question, wanted: Question)
  {
    q.flags / 0x8000 % 2 == 1 && q.id == wanted.id && q.name == wanted.name && q.kind == wanted.kind && q.klass == wanted.klass
  }

  /** There are at most 4096 records, they fill the packet, each is sound, and the aliases lead nowhere in circles. */
  ghost predicate SoundSections(p: Packet, wanted: Question)
    requires QuestionOf(p).Ok?
  {
    && |p| >= 12 && Word(p, 6) + Word(p, 8) + Word(p, 10) <= 4096
    && AllRecords(p).Ok? && AllRecords(p).value.1 == |p|
    && var records := AllRecords(p).value.0;
       && Word(p, 6) <= |records|
       && SoundRecords(p, records, Counts(Word(p, 6), Word(p, 8), Word(p, 10)), wanted.klass)
       && NoAliasCycle(p, records[..Word(p, 6)], wanted.name)
  }

  /**
   A response is accepted exactly when it responds to the question and either is marked truncated or has sound sections.
   */
  lemma AcceptedExactly(p: Packet, wanted: Question)
    ensures ResponseOf(p, wanted).Ok? <==>
              && QuestionOf(p).Ok? && RespondsTo(QuestionOf(p).value, wanted)
              && (QuestionOf(p).value.flags / 0x200 % 2 == 1 || SoundSections(p, wanted))
    ensures QuestionOf(p).Ok? && ResponseOf(p, wanted).Err? ==>
              ResponseOf(p, wanted).code == if RespondsTo(QuestionOf(p).value, wanted) then "DNS_MALFORMED" else "DNS_MISMATCH"
  {
    hide QuestionOf;
    hide SoundRecords;
    hide Scanned;
    hide Cyclic;
    hide IsAliasMap;
    hide Records;
    hide Gathers;
    hide AnswersTell;
    hide RecordsTell;
    if QuestionOf(p).Ok? {
      QuestionShape(p);
      var from, n, c := QuestionOf(p).value.end, RecordCount(p), CountsOf(p);
      ScannedExactly(p, from, n, c, wanted);
      if Scanned(p, from, n, c, wanted).Ok? {
        ScanDescribes(p, from, n, c, wanted);
        var acc, records := Scanned(p, from, n, c, wanted).value.0, Records(p, from, n).value.0;
        AnswersHaveAliases(p, acc, records[..c.answers], wanted);
        OneAliasMap(p, records[..c.answers], acc.aliases, wanted.name);
      }
    }
  }

  lemma AnswersHaveAliases(p: Packet, acc: Scan, answers: seq<Record>, wanted: Question)
    requires AnswersTell(p, acc, answers, wanted)
    ensures IsAliasMap(p, answers, acc.aliases)
  {
    hide IsAliasMap;
    hide AddressRecords;
  }

  lemma OneAliasMap(p: Packet, answers: seq<Record>, aliases: map<string, string>, name: string)
    requires IsAliasMap(p, answers, aliases)
    ensures NoAliasCycle(p, answers, name) <==> !Cyclic(aliases, name)
  {
    hide IsAliasMap;
    hide Cyclic;
    forall other | IsAliasMap(p, answers, other)
      ensures other == aliases
    {
      AliasMapUnique(p, answers, aliases, other);
    }
  }

  // ---- Code and cache time ----

  /** The least of some TTLs: it is one of them, and none is below it. */
  ghost predicate LeastTtl(ttls: set<nat>, ttl: nat) { ttl in ttls && forall t :: t in ttls ==> ttl <= t }

  /** The TTLs of the answers. */
  ghost function AnswerTtls(records: seq<Record>, c: Counts): (r: set<nat>)
    requires c.answers <= |records|
  {
    set k | 0 <= k < c.answers :: records[k].ttl
  }

  /** What the SOA records of the authority section allow. */
  ghost function SoaTtls(p: Packet, records: seq<Record>, c: Counts, klass: nat): (r: set<nat>)
    requires AllIn(p, records) && forall k :: 0 <= k < |records| && SoaAt(records, k, c, klass) ==> records[k].slot.length >= 20
  {
    set k | 0 <= k < |records| && SoaAt(records, k, c, klass) :: SoaTtl(p, records[k])
  }

  /** Four bits of the code are in the header, eight in the TTL field of the OPT record, if there is one. */
  ghost predicate RightCode(p: Packet, rcode: nat, flags: nat, records: seq<Record>)
    requires AllIn(p, records)
  {
    && (forall k :: 0 <= k < |records| && records[k].slot.kind == 41 ==> rcode == flags % 16 + 16 * p[records[k].slot.at + 4] as int)
    && ((forall k :: 0 <= k < |records| ==> records[k].slot.kind != 41) ==> rcode == flags % 16)
  }

  /** Some answer is of the type and class asked for. */
  ghost predicate Given(records: seq<Record>, c: Counts, wanted: Question)
    requires c.answers <= |records|
  {
    exists k :: 0 <= k < c.answers && records[k].slot.kind == wanted.kind && records[k].klass == wanted.klass
  }

  /** Code 3, or code 0 without an answer that was asked for but with a SOA record to go by. */
  ghost predicate Negative(rcode: nat, given: bool, soas: set<nat>)
  {
    rcode == 3 || (rcode == 0 && !given && exists t :: t in soas && t < 0xffff_ffff)
  }

  /** The cache time is the least of the TTLs; without one, or where it is 0 or 2 ^ 32 - 1, there is none. */
  ghost predicate RightCacheTime(a: Answer, ttls: set<nat>, records: seq<Record>, kind: nat)
  {
    && (a.cacheable ==> LeastTtl(ttls, a.cacheTtl))
    && (!a.cacheable ==> a.cacheTtl == 0)
    && (a.cacheable <==>
          && a.rcode in {0, 3} && kind !in {251, 252} && (forall k :: 0 <= k < |records| ==> records[k].slot.kind !in {249, 250})
          && (forall t :: t in ttls ==> t > 0) && (exists t :: t in ttls && t < 0xffff_ffff))
  }

  ghost predicate RightAnswer(p: Packet, a: Answer, flags: nat, records: seq<Record>, c: Counts, wanted: Question)
    requires c.answers <= |records|
  {
    && AllIn(p, records) && (forall k :: 0 <= k < |records| && SoaAt(records, k, c, wanted.klass) ==> records[k].slot.length >= 20)
    && a.authenticated == (flags / 0x20 % 2 == 1) && RightCode(p, a.rcode, flags, records)
    && var soas := SoaTtls(p, records, c, wanted.klass);
       RightCacheTime(a, if Negative(a.rcode, Given(records, c, wanted), soas) then soas else AnswerTtls(records, c), records, wanted.kind)
  }

  /**
   What is made of an accepted, untruncated response. The answer is negative when the code is 3, or 0 with no answer of the
   type and class asked for and a SOA record to go by. Its cache time is the least a SOA record allows when negative, and the
   least TTL of an answer otherwise; it may not be cached for other codes, for types 251 and 252, and beside TKEY and TSIG.
   */
  lemma CodeAndCacheTime(p: Packet, wanted: Question)
    requires ResponseOf(p, wanted).Ok? && !ResponseOf(p, wanted).value.truncated
    ensures QuestionOf(p).Ok? && |p| >= 12 && AllRecords(p).Ok? && Word(p, 6) <= |AllRecords(p).value.0|
    ensures RightAnswer(p, ResponseOf(p, wanted).value, QuestionOf(p).value.flags, AllRecords(p).value.0,
                        Counts(Word(p, 6), Word(p, 8), Word(p, 10)), wanted)
  {
    hide QuestionOf;
    hide SoundRecords;
    hide Scanned;
    hide Cyclic;
    hide Records;
    hide Gathers;
    hide AnswersTell;
    hide RecordsTell;
    hide ReachedAddresses;
    hide RightAnswer;
    hide Verdict;
    QuestionShape(p);
    var q := QuestionOf(p).value;
    var from, n, c := q.end, RecordCount(p), CountsOf(p);
    ScannedExactly(p, from, n, c, wanted);
    ScanDescribes(p, from, n, c, wanted);
    var acc, records := Scanned(p, from, n, c, wanted).value.0, Records(p, from, n).value.0;
    VerdictTold(p, q, wanted, acc, records, c, ReachedAddresses(acc.addresses, acc.aliases, wanted.name));
  }

  lemma VerdictTold(p: Packet, q: Question, wanted: Question, acc: Scan, records: seq<Record>, c: Counts, addresses: seq<Packet>)
    requires Gathers(p, acc, records, c, wanted.klass) && c.answers <= |records|
    requires AnswersTell(p, acc, records[..c.answers], wanted) && RecordsTell(p, acc, records, c, wanted)
    ensures RightAnswer(p, Verdict(q, wanted, acc, addresses), q.flags, records, c, wanted)
  {
    SoasTold(p, acc, records, c, wanted.klass);
    AnswersTold(p, acc, records, c, wanted);
    SignedTold(p, acc, records, c, wanted);
    CodeTold(p, acc, records, c, wanted.klass);
    hide Gathers;
    hide AnswersTell;
    hide RecordsTell;
    hide SoaTtls;
    hide AnswerTtls;
    hide SoaAt;
    hide Given;
    BoundsTell(SoaTtls(p, records, c, wanted.klass), acc.negative);
    BoundsTell(AnswerTtls(records, c), acc.positive);
    hide Bounds;
    hide LeastTtl;
  }

  lemma BoundsTell(ttls: set<nat>, ttl: nat)
    requires Bounds(ttls, ttl)
    ensures ttl < 0xffff_ffff ==> LeastTtl(ttls, ttl)
    ensures ttl == 0 <==> !forall t :: t in ttls ==> t > 0
    ensures ttl < 0xffff_ffff <==> exists t :: t in ttls && t < 0xffff_ffff
  {
  }

  /** A lower bound that is one of the TTLs, or no TTL at all. */
  ghost predicate Bounds(ttls: set<nat>, ttl: nat)
  {
    && (forall t :: t in ttls ==> ttl <= t)
    && (ttl in ttls || ttl == 0xffff_ffff) && ttl <= 0xffff_ffff
  }

  lemma SoasTold(p: Packet, acc: Scan, records: seq<Record>, c: Counts, klass: nat)
    requires Gathers(p, acc, records, c, klass)
    ensures AllIn(p, records)
    ensures forall k :: 0 <= k < |records| && SoaAt(records, k, c, klass) ==> records[k].slot.length >= 20
    ensures Bounds(SoaTtls(p, records, c, klass), acc.negative)
  {
    hide Dword;
  }

  lemma AnswersTold(p: Packet, acc: Scan, records: seq<Record>, c: Counts, wanted: Question)
    requires c.answers <= |records| && AnswersTell(p, acc, records[..c.answers], wanted) && acc.positive <= 0xffff_ffff
    ensures Bounds(AnswerTtls(records, c), acc.positive)
    ensures acc.requested <==> Given(records, c, wanted)
  {
    hide AddressRecords;
    hide IsAliasMap;
    var answers := records[..c.answers];
    forall t | t in AnswerTtls(records, c)
      ensures acc.positive <= t
    {
      var k :| 0 <= k < c.answers && records[k].ttl == t;
      assert answers[k].ttl == t;
    }
    if acc.positive != NO_TTL {
      var k :| 0 <= k < |answers| && answers[k].ttl == acc.positive;
      assert records[k].ttl == acc.positive;
    }
    if acc.requested {
      var k :| 0 <= k < |answers| && answers[k].slot.kind == wanted.kind && answers[k].klass == wanted.klass;
      assert records[k] == answers[k];
    }
    if k :| 0 <= k < c.answers && records[k].slot.kind == wanted.kind && records[k].klass == wanted.klass {
      assert answers[k] == records[k];
    }
  }

  lemma SignedTold(p: Packet, acc: Scan, records: seq<Record>, c: Counts, wanted: Question)
    requires RecordsTell(p, acc, records, c, wanted)
    ensures acc.signed <==> !forall k :: 0 <= k < |records| ==> records[k].slot.kind !in {249, 250}
  {
  }

  lemma CodeTold(p: Packet, acc: Scan, records: seq<Record>, c: Counts, klass: nat)
    requires Gathers(p, acc, records, c, klass)
    ensures AllIn(p, records)
    ensures forall k :: 0 <= k < |records| && records[k].slot.kind == 41 ==> acc.extended == p[records[k].slot.at + 4]
    ensures (forall k :: 0 <= k < |records| ==> records[k].slot.kind != 41) ==> acc.extended == 0
  {
  }

  /** Where the `k`-th record starts. */
  ghost function StartOf(p: Packet, k: nat): (at: nat)
    requires QuestionOf(p).Ok? && AllRecords(p).Ok? && k < |AllRecords(p).value.0|
  {
    if k == 0 then QuestionOf(p).value.end else AllRecords(p).value.0[k - 1].slot.Next()
  }

  /** The fields of the records are the bytes of the packet: section 4.1.3 of RFC 1035. */
  lemma FieldsOfRecord(p: Packet, k: nat)
    requires QuestionOf(p).Ok? && AllRecords(p).Ok? && k < |AllRecords(p).value.0|
    ensures FieldsAre(p, StartOf(p, k), AllRecords(p).value.0[k])
  {
    hide *;
    RecordsRead(p, k);
    FieldsAt(p, StartOf(p, k));
  }

  ghost predicate FieldsAre(p: Packet, at: nat, r: Record)
  {
    && NameAt(p, at) == Ok((r.owner, r.slot.at)) && r.slot.at + 10 + r.slot.length <= |p|
    && r.slot.kind == Word(p, r.slot.at) && r.klass == Word(p, r.slot.at + 2)
    && r.ttl == Dword(p, r.slot.at + 4) && r.slot.length == Word(p, r.slot.at + 8)
  }

  lemma RecordsRead(p: Packet, k: nat)
    requires QuestionOf(p).Ok? && AllRecords(p).Ok? && k < |AllRecords(p).value.0|
    ensures RecordAt(p, StartOf(p, k)) == Ok(AllRecords(p).value.0[k])
  {
    hide QuestionOf;
    hide RecordAt;
    hide Records;
    var from, n := QuestionOf(p).value.end, RecordCount(p);
    RecordsPrefix(p, from, k + 1, n);
    RecordsEnd(p, from, k);
  }

  lemma RecordsEnd(p: Packet, from: nat, k: nat)
    requires Records(p, from, k + 1).Ok?
    ensures Records(p, from, k).Ok?
    ensures var records := Records(p, from, k + 1).value.0;
            RecordAt(p, if k == 0 then from else records[k - 1].slot.Next()) == Ok(records[k])
  {
    hide RecordAt;
  }

  lemma FieldsAt(p: Packet, at: nat)
    requires RecordAt(p, at).Ok?
    ensures FieldsAre(p, at, RecordAt(p, at).value)
  {
    hide NameText;
    hide NameEnd;
    hide Word;
    hide Dword;
  }

  /** A truncated response to the question is told by its flags alone: no addresses, and nothing to cache. */
  lemma TruncatedMeans(p: Packet, wanted: Question)
    requires ResponseOf(p, wanted).Ok?
    ensures QuestionOf(p).Ok?
    ensures var flags := QuestionOf(p).value.flags;
            && ResponseOf(p, wanted).value.truncated == (flags / 0x200 % 2 == 1)
            && (flags / 0x200 % 2 == 1 ==> ResponseOf(p, wanted) == Ok(Answer(flags % 16, true, flags / 0x20 % 2 == 1, [], false, 0)))
  {
    hide QuestionOf;
    hide Scanned;
    hide Cyclic;
    hide ReachedAddresses;
  }
}
