/** Synthetic replies to the queries the client itself makes: `make_query` and `synthetic_response` of dns_packet.cpp together. */
module QueryReplies {
  import opened Bytes
  import opened DnsName
  import opened DnsQuestion
  import opened DnsAgeing
  import opened DnsResponse
  import opened DnsReply
  import opened HostName
  import opened DnsQuery

  /** A query has no records and so no options. */
  lemma QueryHasNoEdns(hostname: string, kind: nat, id: nat)
    requires id < 0x1_0000 && kind < 0x1_0000 && QueryOf(hostname, kind, id).Ok?
    ensures var p := QueryOf(hostname, kind, id).value;
            QuestionOf(p).Ok? && EdnsOf(p, QuestionOf(p).value).Ok?
  {
    hide EncodedName;
    hide QuestionOf;
    hide EdnsOf;
    hide LabelsOk;
    hide Trimmed;
    hide Plain;
    hide Labels;
    QueryRoundTrip(hostname, kind, id);
    var p := QueryOf(hostname, kind, id).value;
    var name := EncodedName(DnsNameOf(hostname, false).value);
    HeaderCountsNothing(id, p, name + WordBytes(kind) + WordBytes(1));
    NoRecordsNoEdns(p, QuestionOf(p).value);
  }

  lemma HeaderCountsNothing(id: nat, p: Packet, rest: Packet)
    requires id < 0x1_0000 && p == QueryHeader(id) + rest
    ensures |p| >= 12 && Word(p, 6) == 0 && Word(p, 8) == 0 && Word(p, 10) == 0
  {
  }

  lemma {:induction false} NoRecordsNoEdns(p: Packet, q: Question)
    requires |p| >= 12 && Word(p, 6) == 0 && Word(p, 8) == 0 && Word(p, 10) == 0 && q.end == |p|
    ensures EdnsOf(p, q).Ok?
  {
    NoRecords(p);
    NothingToScan(p, q.end, CountsOf(p));
    hide EdnsScanned;
    hide Word;
    hide CountsOf;
    hide RecordCount;
  }

  lemma {:induction false} NothingToScan(p: Packet, from: nat, c: Counts)
    ensures EdnsScanned(p, from, 0, c) == Ok((NO_EDNS, from))
  {
    hide RecordAt;
    hide EdnsStep;
  }

  lemma NoRecords(p: Packet)
    requires |p| >= 12 && Word(p, 6) == 0 && Word(p, 8) == 0 && Word(p, 10) == 0
    ensures RecordCount(p) == 0
  {
    hide Word;
  }

  /**
   Every query for a name that is accepted gets a reply for every code, and the reply means what was asked for - except,
   exactly, a zero address for a name of 127 labels.
   */
  lemma QueriesAreAnswered(hostname: string, kind: nat, id: nat, rcode: nat, zero: bool)
    requires id < 0x1_0000 && kind < 0x1_0000 && rcode <= 15 && QueryOf(hostname, kind, id).Ok?
    ensures var p, host := QueryOf(hostname, kind, id).value, DnsNameOf(hostname, false).value;
            && QuestionOf(p).Ok? && SyntheticOf(p, rcode, zero).Ok?
            && var r, q := SyntheticOf(p, rcode, zero).value, QuestionOf(p).value;
               && (ResponseOf(r, q).Err? <==> zero && (kind == A || kind == AAAA) && LabelCount(host) == 127)
               && (ResponseOf(r, q).Ok? ==> ResponseOf(r, q).value == MeantAnswer(q, rcode, zero))
  {
    hide QueryOf;
    hide QuestionOf;
    hide ResponseOf;
    hide EdnsOf;
    hide Plain;
    hide Labels;
    hide MeantAnswer;
    hide Bare;
    hide Assembled;
    QueryRoundTrip(hostname, kind, id);
    QueryHasNoEdns(hostname, kind, id);
    var p := QueryOf(hostname, kind, id).value;
    assert SyntheticOf(p, rcode, zero).Ok?;
    SyntheticReplyParses(p, rcode, zero);
  }

  /** The failing case: a name of 127 labels, asked for its address, cannot be answered with the zero address. */
  lemma LongestNameIsNotBlocked(id: nat)
    requires id < 0x1_0000
    ensures QueryOf(Letters(127), A, id).Ok?
    ensures var p := QueryOf(Letters(127), A, id).value;
            && QuestionOf(p).Ok? && SyntheticOf(p, 0, true).Ok?
            && ResponseOf(SyntheticOf(p, 0, true).value, QuestionOf(p).value).Err?
  {
    hide QueryOf;
    hide QuestionOf;
    hide ResponseOf;
    hide SyntheticOf;
    hide LabelCount;
    hide LabelsOk;
    hide LowerAll;
    LettersAreCanonical(127);
    assert Trimmed(Letters(127)) == Letters(127);
    HopLimitIsReached(A, id);
    QueriesAreAnswered(Letters(127), A, id, 0, true);
  }
}
