/** The header and question of a DNS message: `parse_question` of dns_packet.cpp. */
module DnsQuestion {
  import opened Bytes
  import opened DnsName

  datatype Question = Question(id: nat, flags: nat, kind: nat, klass: nat, name: string, end: nat)

  const MAX_PACKET := 65535

  /** One question and an opcode of QUERY, in a packet of legal size. */
  predicate HeaderOk(p: Packet)
  {
    12 <= |p| <= MAX_PACKET && Word(p, 4) == 1 && Word(p, 2) / 0x800 % 16 == 0
  }

  ghost function QuestionOf(p: Packet): (r: Result<Question>)
    ensures r.Ok? ==> 12 <= r.value.end <= |p|
  {
    if !(12 <= |p| <= MAX_PACKET) || Word(p, 4) != 1 then Err(MALFORMED)
    else if !HeaderOk(p) then Err("DNS_OPCODE")
    else
      var (text, at) :- NameAt(p, 12);
      if at + 4 > |p| then Err(MALFORMED)
      else Ok(Question(Word(p, 0), Word(p, 2), Word(p, at), Word(p, at + 2), text, at + 4))
  }

  method ParseQuestion(p: Packet) returns (r: Result<Question>)
    ensures r == QuestionOf(p)
  {
    if |p| < 12 || |p| > MAX_PACKET || Word(p, 4) != 1 {
      return Err(MALFORMED);
    }
    if Word(p, 2) / 0x800 % 16 != 0 {
      return Err("DNS_OPCODE");
    }
    var named :- ReadName(p, 12);
    var (text, at) := named;
    if at + 2 > |p| {
      return Err(MALFORMED);
    }
    var kind := Word(p, at);
    if at + 4 > |p| {
      return Err(MALFORMED);
    }
    return Ok(Question(Word(p, 0), Word(p, 2), kind, Word(p, at + 2), text, at + 4));
  }

  /**
   A question is accepted exactly in a packet of 12 to 65535 bytes that counts one, has an opcode of zero, and goes on for four
   bytes behind its name.
   */
  lemma QuestionExactly(p: Packet, q: Question)
    ensures QuestionOf(p) == Ok(q) <==>
              && 12 <= |p| <= 65535 && p[4] == 0 && p[5] == 1 && p[2] as int / 8 % 16 == 0
              && NameAt(p, 12).Ok? && NameAt(p, 12).value.1 + 4 <= |p|
              && var (text, at) := NameAt(p, 12).value;
                 q == Question(p[0] as int * 256 + p[1], p[2] as int * 256 + p[3], p[at] as int * 256 + p[at + 1],
                               p[at + 2] as int * 256 + p[at + 3], text, at + 4)
    ensures QuestionOf(p).Err? ==> QuestionOf(p).code in {"DNS_MALFORMED", "DNS_OPCODE"}
    ensures QuestionOf(p) == Err("DNS_OPCODE") <==> 12 <= |p| <= 65535 && p[4] == 0 && p[5] == 1 && p[2] as int / 8 % 16 != 0
  {
    hide NameAt;
  }

  /** A parsed question is uncompressed, at most 271 bytes long with the header, and inside the packet. */
  lemma QuestionShape(p: Packet)
    requires QuestionOf(p).Ok?
    ensures var q := QuestionOf(p).value;
            && Plain(p, 12) && Labels(p, 12) < MAX_HOPS
            && NameEnd(p, 12) + 4 == q.end <= |p|
            && 17 <= q.end <= 271
            && |q.name| <= MAX_TEXT
  {
    FirstNameIsPlain(p);
    PlainHops(p, 12, 0, "");
    PlainLength(p, 12, 0, "");
  }

  /** Any packet with the same question bytes and a sound header of its own asks the same question. */
  lemma QuestionIsLocal(p: Packet, q: Packet)
    requires QuestionOf(p).Ok?
    requires Agree(p, q, 12, QuestionOf(p).value.end) && HeaderOk(q)
    ensures QuestionOf(q) == Ok(QuestionOf(p).value.(id := Word(q, 0), flags := Word(q, 2)))
  {
    var at := NameAt(p, 12).value.1;
    NameAtIsLocal(p, q, 12);
    assert Word(q, at) == Word(p, at) && Word(q, at + 2) == Word(p, at + 2);
  }

  /** The packet cut after its question, with one question and no records counted. */
  function QuestionOnly(p: Packet, end: nat): (r: Packet)
    requires 12 <= end <= |p|
    ensures |r| == end
  {
    p[..4] + [0, 1, 0, 0, 0, 0, 0, 0] + p[12..end]
  }

  /** The bytes up to `end` alone, once the counts are reset, parse to the very same question. */
  lemma QuestionPrefixParses(p: Packet)
    requires QuestionOf(p).Ok?
    ensures QuestionOf(p).value.end <= |p|
    ensures QuestionOf(QuestionOnly(p, QuestionOf(p).value.end)) == QuestionOf(p)
    ensures |QuestionOnly(p, QuestionOf(p).value.end)| <= 271
  {
    QuestionShape(p);
    QuestionIsLocal(p, QuestionOnly(p, QuestionOf(p).value.end));
  }
}
