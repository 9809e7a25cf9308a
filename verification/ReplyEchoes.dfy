/**
 What synthetic and fitted replies take over from the request, byte by byte and bit by bit: sections 4.1.1 of RFC 1035, 6.1.2
 and 6.1.3 of RFC 6891, and 3.2 of RFC 4035, as dns_packet.cpp follows them.
 */
module ReplyEchoes {
  import opened Bytes
  import opened DnsName
  import opened DnsQuestion
  import opened DnsAgeing
  import opened DnsResponse
  import opened DnsReply
  import opened ResponseMeaning

  // ---- The options of a request ----

  /** An OPT record stands among the additional records, belongs to the root, and is the only one. */
  ghost predicate OptSound(records: seq<Record>, k: nat, c: Counts)
    requires k < |records|
  {
    records[k].slot.kind == 41 ==>
      && records[k].owner == "" && k >= c.answers + c.authority && forall j :: 0 <= j < k ==> records[j].slot.kind != 41
  }

  ghost predicate OptsSound(records: seq<Record>, c: Counts) { forall k :: 0 <= k < |records| ==> OptSound(records, k, c) }

  /** The DO bit and the payload size, between 512 and 1232, of the OPT record; without one, no bit and 512 bytes. */
  ghost predicate OptionsAre(p: Packet, e: Edns, records: seq<Record>)
  {
    && AllIn(p, records)
    && (e.present <==> exists k :: 0 <= k < |records| && records[k].slot.kind == 41)
    && (!e.present ==> !e.doBit && e.payload == 512)
    && (forall k :: 0 <= k < |records| && records[k].slot.kind == 41 ==>
          && e.doBit == (p[records[k].slot.at + 6] >= 0x80)
          && e.payload == if records[k].klass < 512 then 512 else if records[k].klass > 1232 then 1232 else records[k].klass)
  }

  lemma NextOption(p: Packet, acc: Edns, records: seq<Record>, r: Record, c: Counts)
    requires OptionsAre(p, acc, records) && r.slot.Next() <= |p|
    ensures EdnsStep(p, acc, r, |records|, c).Ok? <==> OptSound(records + [r], |records|, c)
    ensures EdnsStep(p, acc, r, |records|, c).Ok? ==> OptionsAre(p, EdnsStep(p, acc, r, |records|, c).value, records + [r])
  {
    var more := records + [r];
    assert more[|records|] == r && forall k :: 0 <= k < |records| ==> more[k] == records[k];
  }

  lemma OptsSnoc(records: seq<Record>, r: Record, c: Counts)
    ensures OptsSound(records + [r], c) <==> OptsSound(records, c) && OptSound(records + [r], |records|, c)
  {
    var more := records + [r];
    assert more[|records|] == r && forall k :: 0 <= k < |records| ==> more[k] == records[k];
    forall k | 0 <= k < |records|
      ensures OptSound(more, k, c) <==> OptSound(records, k, c)
    {
    }
    if OptsSound(more, c) {
      forall k | 0 <= k < |records|
        ensures OptSound(records, k, c)
      {
        assert OptSound(more, k, c);
      }
    }
  }

  lemma {:induction false} EdnsExactly(p: Packet, from: nat, n: nat, c: Counts)
    ensures EdnsScanned(p, from, n, c).Ok? <==> Records(p, from, n).Ok? && OptsSound(Records(p, from, n).value.0, c)
    ensures EdnsScanned(p, from, n, c).Ok? ==>
              && EdnsScanned(p, from, n, c).value.1 == Records(p, from, n).value.1
              && OptionsAre(p, EdnsScanned(p, from, n, c).value.0, Records(p, from, n).value.0)
  {
    hide *;
    if n == 0 {
      NoOptions(p, from, c);
    } else {
      EdnsExactly(p, from, n - 1, c);
      RecordsUnrolled(p, from, n);
      if EdnsScanned(p, from, n - 1, c).Ok? {
        EdnsRound(p, from, n - 1, c);
      } else {
        EdnsFailsOn(p, from, n, c);
      }
      if Records(p, from, n).Ok? {
        var records, at := Records(p, from, n - 1).value.0, Records(p, from, n - 1).value.1;
        InPlace(p, at);
        OptsSnoc(records, RecordAt(p, at).value, c);
        if EdnsScanned(p, from, n - 1, c).Ok? {
          NextOption(p, EdnsScanned(p, from, n - 1, c).value.0, records, RecordAt(p, at).value, c);
        }
      }
    }
  }

  lemma NoOptions(p: Packet, from: nat, c: Counts)
    ensures EdnsScanned(p, from, 0, c) == Ok((NO_EDNS, from)) && Records(p, from, 0) == Ok(([], from))
    ensures OptionsAre(p, NO_EDNS, []) && OptsSound([], c)
  {
  }

  /** At most 4096 records that fill the message, and sound OPT records. */
  ghost predicate SoundOptions(p: Packet)
    requires QuestionOf(p).Ok?
  {
    && |p| >= 12 && Word(p, 6) + Word(p, 8) + Word(p, 10) <= 4096 && AllRecords(p).Ok? && AllRecords(p).value.1 == |p|
    && OptsSound(AllRecords(p).value.0, Counts(Word(p, 6), Word(p, 8), Word(p, 10)))
  }

  /** The options of a request are accepted exactly when they are sound, and are those of its OPT record. */
  lemma OptionsExactly(p: Packet)
    requires QuestionOf(p).Ok?
    ensures |p| >= 12 && (EdnsOf(p, QuestionOf(p).value).Ok? <==> SoundOptions(p))
    ensures SoundOptions(p) ==> OptionsAre(p, EdnsOf(p, QuestionOf(p).value).value, AllRecords(p).value.0)
  {
    hide QuestionOf;
    hide OptsSound;
    hide OptionsAre;
    hide Records;
    hide EdnsScanned;
    QuestionShape(p);
    EdnsExactly(p, QuestionOf(p).value.end, RecordCount(p), CountsOf(p));
  }

  // ---- Synthetic replies ----

  /** One bit of the flags. */
  predicate Bit(flags: nat, mask: nat)
    requires mask > 0
  {
    flags / mask % 2 == 1
  }

  /** QR and RA are set, RD and CD are those of the query, all other flags and the opcode are zero, and the code is there. */
  predicate ReplyBits(flags: nat, query: nat, rcode: nat)
  {
    && Bit(flags, 0x8000) && flags / 0x800 % 16 == 0 && !Bit(flags, 0x400) && !Bit(flags, 0x200)
    && Bit(flags, 0x100) == Bit(query, 0x100)
    && Bit(flags, 0x80) && !Bit(flags, 0x40) && !Bit(flags, 0x20) && Bit(flags, 0x10) == Bit(query, 0x10)
    && flags % 16 == rcode
  }

  lemma FlagsEcho(query: nat, rcode: nat)
    requires rcode <= 15
    ensures ReplyBits(ReplyFlags(query, rcode), query, rcode)
  {
    hide ReplyBits;
    if WantsRecursion(query) {
      BitsOf(if ChecksDisabled(query) then 0x819 else 0x818, query, rcode);
    } else {
      BitsOf(if ChecksDisabled(query) then 0x809 else 0x808, query, rcode);
    }
  }

  lemma BitsOf(high: nat, query: nat, rcode: nat)
    requires rcode <= 15 && high in {0x808, 0x809, 0x818, 0x819}
    requires Bit(query, 0x100) == (high in {0x818, 0x819}) && Bit(query, 0x10) == (high in {0x809, 0x819})
    ensures ReplyBits(high * 16 + rcode, query, rcode)
  {
    var w := high * 16 + rcode;
    assert w / 0x10 == high && w / 0x20 == high / 2 && w / 0x40 == high / 4 && w / 0x80 == high / 8;
    assert w / 0x100 == high / 16 && w / 0x200 == high / 0x20 && w / 0x400 == high / 0x40;
    assert w / 0x800 == high / 0x80 && w / 0x8000 == high / 0x800;
  }

  /**
   A synthetic reply is made exactly for a sound query and a code of four bits. It has the ID and the question of the query,
   bit for bit, its RD and CD flags, and the DO bit and payload size of its OPT record, in an OPT record of its own.
   */
  lemma SyntheticEchoes(p: Packet, rcode: nat, zero: bool)
    ensures SyntheticOf(p, rcode, zero).Ok? <==>
              && rcode <= 15 && QuestionOf(p).Ok? && QuestionOf(p).value.flags / 0x8000 % 2 == 0 && SoundOptions(p)
    ensures SyntheticOf(p, rcode, zero).Ok? ==>
              var r, q, e := SyntheticOf(p, rcode, zero).value, QuestionOf(p).value, EdnsOf(p, QuestionOf(p).value).value;
              && q.end <= |p| && q.end <= |r| && r[..2] == p[..2] && r[12..q.end] == p[12..q.end]
              && ReplyBits(Word(r, 2), q.flags, rcode)
              && r[4..12] == [0, 1, 0, if zero && q.klass == 1 && q.kind in {1, 28} then 1 else 0, 0, 0, 0, if e.present then 1 else 0]
              && (e.present ==> |r| >= q.end + 11 && r[|r| - 11..] == EchoedOpt(e.payload, e.doBit))
              && |r| == q.end + (if e.present then 11 else 0)
                        + (if zero && q.klass == 1 && q.kind == 1 then 16 else if zero && q.klass == 1 && q.kind == 28 then 28 else 0)
  {
    hide QuestionOf;
    hide SoundOptions;
    hide OptionsAre;
    if QuestionOf(p).Ok? {
      OptionsExactly(p);
      QuestionShape(p);
      if SyntheticOf(p, rcode, zero).Ok? {
        var q, e := QuestionOf(p).value, EdnsOf(p, QuestionOf(p).value).value;
        FlagsEcho(q.flags, rcode);
        AssembledEchoes(p, q, ReplyFlags(q.flags, rcode), zero, e);
      }
    }
  }

  /** The OPT record of a reply: the root name, type 41, the payload size as class, no extended code, version 0, the DO bit. */
  function EchoedOpt(payload: nat, doBit: bool): (r: Packet)
    requires payload < 0x1_0000
  {
    [0, 0, 41, payload / 256, payload % 256, 0, 0, if doBit then 0x80 else 0, 0, 0, 0]
  }

  lemma AssembledEchoes(p: Packet, q: Question, flags: nat, zero: bool, e: Edns)
    requires 12 <= q.end <= |p| && flags < 0x1_0000 && e.payload < 0x1_0000
    ensures var r := Assembled(Bare(p, q.end, flags), q, zero, e);
            && q.end <= |r| && r[..2] == p[..2] && r[12..q.end] == p[12..q.end] && Word(r, 2) == flags
            && r[4..12] == [0, 1, 0, if zero && q.klass == 1 && q.kind in {1, 28} then 1 else 0, 0, 0, 0, if e.present then 1 else 0]
            && (e.present ==> |r| >= q.end + 11 && r[|r| - 11..] == EchoedOpt(e.payload, e.doBit))
            && |r| == q.end + (if e.present then 11 else 0)
                      + (if zero && q.klass == 1 && q.kind == 1 then 16 else if zero && q.klass == 1 && q.kind == 28 then 28 else 0)
  {
    var bare := Bare(p, q.end, flags);
    var head := bare[7 := if Zeroed(q, zero) then 1 else 0][11 := if e.present then 1 else 0];
    var z, o := ZeroRecord(q, zero), OptRecord(e);
    OptEchoed(e);
    ZeroLength(q, zero);
    hide OptRecord;
    hide ZeroRecord;
    var r := head + z + o;
    assert r == Assembled(bare, q, zero, e);
    assert r[..q.end] == head;
    assert head[..2] == p[..2] && head[12..] == p[12..q.end];
    assert r[..2] == r[..q.end][..2] && r[12..q.end] == r[..q.end][12..] && r[4..12] == r[..q.end][4..12];
    assert r[|r| - |o|..] == o;
  }

  lemma OptEchoed(e: Edns)
    requires e.payload < 0x1_0000
    ensures OptRecord(e) == if e.present then EchoedOpt(e.payload, e.doBit) else []
  {
  }

  lemma ZeroLength(q: Question, zero: bool)
    ensures |ZeroRecord(q, zero)| == if zero && q.klass == 1 && q.kind == 1 then 16 else if zero && q.klass == 1 && q.kind == 28 then 28 else 0
  {
  }

  // ---- The client's size ----

  /** A client accepts what its OPT record says, between 512 and 1232 bytes, and 512 bytes without one. */
  lemma ClientSizeExactly(p: Packet)
    ensures PayloadLimit(p).Ok? <==> QuestionOf(p).Ok? && QuestionOf(p).value.flags / 0x8000 % 2 == 0 && SoundOptions(p)
    ensures PayloadLimit(p).Ok? ==>
              var records := AllRecords(p).value.0;
              && ((forall k :: 0 <= k < |records| ==> records[k].slot.kind != 41) ==> PayloadLimit(p).value == 512)
              && (forall k :: 0 <= k < |records| && records[k].slot.kind == 41 ==>
                    PayloadLimit(p).value
                    == if records[k].klass < 512 then 512 else if records[k].klass > 1232 then 1232 else records[k].klass)
  {
    hide QuestionOf;
    hide SoundOptions;
    hide Records;
    if QuestionOf(p).Ok? {
      OptionsExactly(p);
    }
  }

  // ---- Fitted replies ----

  /**
   A response is fitted exactly for a client whose size is known and, if it is too long, when it responds to the request. A
   fitted response that was too long is its own question under its own ID and flags, with TC set and no records.
   */
  lemma FittedExactly(request: Packet, response: Packet)
    ensures FittedOf(request, response).Ok? <==>
              && PayloadLimit(request).Ok?
              && (|response| > PayloadLimit(request).value ==>
                    QuestionOf(response).Ok? && RespondsTo(QuestionOf(response).value, QuestionOf(request).value))
    ensures FittedOf(request, response).Ok? && |response| > PayloadLimit(request).value ==>
              var r, q := FittedOf(request, response).value, QuestionOf(response).value;
              && |r| == q.end <= |response| && |r| >= 12 && r[..2] == response[..2] && r[12..] == response[12..q.end]
              && Word(r, 2) == Word(response, 2) + (if Word(response, 2) / 0x200 % 2 == 1 then 0 else 0x200)
              && r[4..12] == [0, 1, 0, 0, 0, 0, 0, 0]
  {
    hide QuestionOf;
    hide EdnsOf;
    if PayloadLimit(request).Ok? && |response| > PayloadLimit(request).value && QuestionOf(response).Ok? {
      QuestionShape(response);
    }
  }
}
