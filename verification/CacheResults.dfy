/** What the safety of the cache protocol means for its callers. */
module CacheResults {
  import opened Bytes
  import opened ConfigModel
  import opened DnsName
  import opened DnsQuestion
  import opened DnsAgeing
  import opened DnsResponse
  import opened DnsClamping
  import opened CacheKey
  import opened CacheLedger
  import opened CacheProtocol
  import opened CacheSafety
  import opened CacheRuns

  /** Two live leaders never ask for the same key. */
  lemma OneLeaderPerKey(s: State, i: nat, j: nat)
    requires Safe(s) && i < |s.calls| && j < |s.calls|
    requires s.calls[i].role.Leads? && s.calls[j].role.Leads? && s.calls[i].key == s.calls[j].key
    ensures i == j
  {
    hide Key;
    hide EntriesOk;
    hide CallOk;
    LeaderInFlight(s, i);
    LeaderInFlight(s, j);
    LeaderHasCell(s.options, s.calls, s.cells, s.pending, i);
    LeaderHasCell(s.options, s.calls, s.cells, s.pending, j);
  }

  /** What is in flight has a live leader asking for it, is not cached, and there are at most 256 of it. */
  lemma InFlightIsLed(s: State, k: string)
    requires Safe(s) && k in s.pending
    ensures s.pending[k] < |s.cells| && s.cells[s.pending[k]].leader < |s.calls|
    ensures s.calls[s.cells[s.pending[k]].leader].role == Leads(s.pending[k])
    ensures s.calls[s.cells[s.pending[k]].leader].key == k
    ensures k !in s.cache && |s.pending| <= 256
  {
    hide Key;
    hide EntriesOk;
    hide CallOk;
    assert PendingOk(s.calls, s.cells, s.pending, k);
    assert CellOk(s.calls, s.cells, s.pending[k]);
  }

  /** A filled cell gives every follower the packet of its leader, or its error. */
  lemma FollowersShareTheOutcome(s: State, c: nat)
    requires Safe(s) && c < |s.calls| && s.calls[c].role.Waits?
    ensures |s.calls[c].request| >= 2 && s.calls[c].role.cell < |s.cells|
    ensures var cell := s.cells[s.calls[c].role.cell];
            cell.leader < |s.calls| && s.calls[cell.leader].key == s.calls[c].key
            && if cell.done then
                 match s.calls[cell.leader].role
                 case Led(_, packet, server) =>
                   Delivered(cell, s.calls[c].request) == Handed(packet, server, s.calls[c].request, 0)
                 case Ended(result) =>
                   result.Err? && Delivered(cell, s.calls[c].request).Err?
                   && (result.code != "" ==> Delivered(cell, s.calls[c].request) == Err(result.code))
                 case _ => false
               else s.calls[cell.leader].role == Leads(s.calls[c].role.cell)
  {
    hide Key;
    hide AgedResponse;
    hide Coherent;
    hide EntriesOk;
    FollowerHasCell(s, c);
    var cell := s.cells[s.calls[c].role.cell];
    if cell.done && cell.error == "" && s.calls[cell.leader].role.Ended? {
      NothingHanded(cell.server, s.calls[c].request);
    }
  }

  /** The books are exact and never negative, and when no entry alone is too large the bytes are within their bound. */
  lemma BooksBalance(s: State)
    requires Safe(s)
    ensures s.bytes == Total(s.cache) >= 0 && |s.cache| <= 4096
    ensures (forall k :: k in s.cache ==> Size(k, s.cache[k]) <= 33_554_432) ==> s.bytes <= 33_554_432
  {
    hide Coherent;
    hide EntriesOk;
    hide Size;
    if s.bytes > 33_554_432 {
      var k :| k in s.cache;
      TotalWithout(s.cache, k);
      Fewer(s.cache, k);
      assert s.cache - {k} == map[];
      TotalOfNothing();
    }
  }

  lemma AgedHasId(p: Packet, id: nat, elapsed: nat)
    requires id < 0x1_0000 && AgedResponse(p, id, elapsed).Ok?
    ensures |AgedResponse(p, id, elapsed).value| >= 2 && Word(AgedResponse(p, id, elapsed).value, 0) == id
  {
    hide AgedResponse;
    hide NameAt;
    hide Word;
    AgedQuestion(p, id, elapsed);
  }

  /**
   The cache refines direct resolution: whatever a call is given that did not ask itself is an upstream reply, obtained by
   a call to the same upstream over the same network for the same query but for the ID, with its TTLs bounded and then
   aged - by nothing, or by less than it may be cached - under the ID of the caller.
   */
  lemma AnswersAreGenuine(s: State, c: nat) returns (l: nat, elapsed: nat)
    requires Safe(s) && c < |s.calls| && s.calls[c].role.Ended? && s.calls[c].role.result.Ok?
    requires forall i :: 0 <= i < |s.calls| ==> Reported(s.calls[i].upstream)
    ensures l < |s.calls| && s.calls[l].role.Led? && |s.calls[l].request| >= 2 && |s.calls[c].request| >= 2
    ensures SameUpstream(s.calls[l].upstream, s.calls[c].upstream) && s.calls[l].request[2..] == s.calls[c].request[2..]
    ensures ClampedResponse(s.calls[l].role.raw, s.options.ttlMin, s.options.ttlMax) == Ok(s.calls[l].role.packet)
    ensures Lively(s.calls[l], elapsed)
    ensures var (packet, server) := s.calls[c].role.result.value;
            && AgedResponse(s.calls[l].role.packet, Word(s.calls[c].request, 0), elapsed) == Ok(packet)
            && server == s.calls[l].role.server
            && |packet| >= 2 && Word(packet, 0) == Word(s.calls[c].request, 0)
  {
    hide Key;
    hide AgedResponse;
    hide ClampedResponse;
    hide QuestionOf;
    hide ResponseOf;
    hide EntriesOk;
    hide Bounded;
    hide CellOk;
    hide PendingOk;
    hide Lively;
    hide Reported;
    hide SameUpstream;
    assert CallOk(s.options, s.calls, s.cells, s.pending, c);
    var call := s.calls[c];
    var r := call.role.result.value;
    assert Genuine(s.calls, call.key, call.request, r.0, r.1);
    l, elapsed :| 0 <= l < |s.calls| && ComesFrom(s.calls[l], call.key, call.request, r.0, r.1, elapsed);
    assert CallOk(s.options, s.calls, s.cells, s.pending, l);
    KeyInjective(s.calls[l].upstream, s.calls[l].request, call.upstream, call.request);
    AgedHasId(s.calls[l].role.packet, Word(call.request, 0), elapsed);
  }

  /** A leader is given the reply to its own query, with its TTLs bounded. */
  lemma LeadersAreAnswered(s: State, c: nat)
    requires Safe(s) && c < |s.calls| && s.calls[c].role.Led?
    ensures ClampedResponse(s.calls[c].role.raw, s.options.ttlMin, s.options.ttlMax) == Ok(s.calls[c].role.packet)
    ensures QuestionOf(s.calls[c].request).Ok? && QuestionOf(s.calls[c].role.packet).Ok?
    ensures Matches(QuestionOf(s.calls[c].role.packet).value, QuestionOf(s.calls[c].request).value)
  {
    hide Key;
    hide ClampedResponse;
    hide QuestionOf;
    hide EntriesOk;
    hide Scanned;
    assert CallOk(s.options, s.calls, s.cells, s.pending, c);
  }

  /** Some answer of a response is of the requested type. */
  ghost predicate Positive(p: Packet, wanted: Question)
    requires QuestionOf(p).Ok?
  {
    exists k :: 0 <= k < |AnswerRecords(p)|
      && AnswerRecords(p)[k].slot.kind == wanted.kind && AnswerRecords(p)[k].klass == wanted.klass
  }

  /** The data behind a positive answer that may be cached: how long each of its answers lives. */
  lemma AnswersOutlast(p: Packet, wanted: Question, elapsed: nat)
    requires ResponseOf(p, wanted).Ok? && ResponseOf(p, wanted).value.cacheable && ResponseOf(p, wanted).value.rcode == 0
    requires Positive(p, wanted) && elapsed < ResponseOf(p, wanted).value.cacheTtl
    ensures CountsOf(p).answers <= |RecordLayout(p).0| && AllInside(RecordLayout(p).0, |p|)
    ensures forall k :: 0 <= k < CountsOf(p).answers ==> elapsed < Dword(p, RecordLayout(p).0[k].at + 4)
  {
    hide QuestionOf;
    hide Dword;
    hide Layout;
    hide Scanned;
    hide RecordAt;
    CachedNoLongerThanAnswers(p, wanted);
  }

  lemma AgedAsks(p: Packet, id: nat, elapsed: nat)
    requires id < 0x1_0000 && AgedResponse(p, id, elapsed).Ok?
    ensures QuestionOf(p).Ok?
  {
    hide QuestionOf;
    hide Aged;
  }

  /**
   What a lookup finds in the cache is younger than the response may be cached; the packet handed out has each TTL lowered
   by the whole seconds it was stored, and in a positive answer no answer record but an OPT reaches zero.
   */
  lemma HitsAreFresh(s: State, u: Upstream, request: Packet, now: int, later: int, r: State) returns (l: nat, elapsed: nat)
    requires Safe(s) && s.now <= now <= later && |request| >= 2 && Lookup(s, u, request, now, later, r)
    requires Key(u, request) in Fresh(s.cache, now) && r.calls[|s.calls|].role.Ended? && r.calls[|s.calls|].role.result.Ok?
    ensures var e := s.cache[Key(u, request)];
            && l < |s.calls| && Backs(s.calls[l], Key(u, request), e) && elapsed == Elapsed(e, now)
    ensures var p, q := s.calls[l].role.packet, r.calls[|s.calls|].role.result.value.0;
            && QuestionOf(p).Ok? && QuestionOf(s.calls[l].request).Ok?
            && var wanted := QuestionOf(s.calls[l].request).value;
               && ResponseOf(p, wanted).Ok? && elapsed < ResponseOf(p, wanted).value.cacheTtl && elapsed < 86400
               && TtlsRewritten(p, q, Lower(elapsed), 2)
               && (ResponseOf(p, wanted).value.rcode == 0 && Positive(p, wanted) ==> AnswersLeft(p, q, elapsed))
    ensures |r.calls[|s.calls|].role.result.value.0| >= 2
            && Word(r.calls[|s.calls|].role.result.value.0, 0) == Word(request, 0)
  {
    hide Key;
    hide AgedResponse;
    hide Safe;
    hide Backs;
    hide QuestionOf;
    hide ResponseOf;
    hide Word;
    hide Elapsed;
    hide TtlsRewritten;
    hide AnswersLeft;
    hide Positive;
    var key := Key(u, request);
    var e := s.cache[key];
    elapsed := Elapsed(e, now);
    HitIs(s, u, request, now, later, r);
    l := EntryIsYoung(s, key, now);
    BackedPacket(s.calls[l], key, e);
    AgedHasId(e.packet, Word(request, 0), elapsed);
    HandedIsFresh(e.packet, s.calls[l].request, Word(request, 0), elapsed);
  }

  /** The hit branch of a lookup. */
  lemma HitIs(s: State, u: Upstream, request: Packet, now: int, later: int, r: State)
    requires |request| >= 2 && Lookup(s, u, request, now, later, r) && Key(u, request) in Fresh(s.cache, now)
    requires r.calls[|s.calls|].role.Ended? && r.calls[|s.calls|].role.result.Ok?
    ensures Key(u, request) in s.cache && s.cache[Key(u, request)].expires > now
    ensures AgedResponse(s.cache[Key(u, request)].packet, Word(request, 0), Elapsed(s.cache[Key(u, request)], now))
            == Ok(r.calls[|s.calls|].role.result.value.0)
    ensures Word(request, 0) < 0x1_0000
  {
    hide Key;
    hide AgedResponse;
    hide Elapsed;
    hide Total;
  }

  lemma BackedPacket(leader: Call, key: string, e: Entry)
    requires Backs(leader, key, e)
    ensures leader.role.Led? && leader.role.packet == e.packet && QuestionOf(leader.request).Ok?
    ensures ResponseOf(e.packet, QuestionOf(leader.request).value).Ok?
    ensures ResponseOf(e.packet, QuestionOf(leader.request).value).value.cacheable
  {
    hide QuestionOf;
    hide ResponseOf;
  }

  /** A response that is still to be cached, handed out. */
  lemma HandedIsFresh(p: Packet, request: Packet, id: nat, elapsed: nat)
    requires id < 0x1_0000 && AgedResponse(p, id, elapsed).Ok? && QuestionOf(request).Ok?
    requires ResponseOf(p, QuestionOf(request).value).Ok? && ResponseOf(p, QuestionOf(request).value).value.cacheable
    requires elapsed < ResponseOf(p, QuestionOf(request).value).value.cacheTtl
    ensures QuestionOf(p).Ok?
    ensures var r, wanted := AgedResponse(p, id, elapsed).value, QuestionOf(request).value;
            && TtlsRewritten(p, r, Lower(elapsed), 2)
            && (ResponseOf(p, wanted).value.rcode == 0 && Positive(p, wanted) ==> AnswersLeft(p, r, elapsed))
  {
    hide AgedResponse;
    hide QuestionOf;
    hide ResponseOf;
    hide TtlsRewritten;
    hide AnswersLeft;
    hide Positive;
    hide Layout;
    AgedAsks(p, id, elapsed);
    AgeingLaw(p, id, elapsed);
    var wanted := QuestionOf(request).value;
    if ResponseOf(p, wanted).value.rcode == 0 && Positive(p, wanted) {
      AnswersOutlast(p, wanted, elapsed);
      AnswersStay(p, AgedResponse(p, id, elapsed).value, elapsed);
    }
  }

  /** Each answer record of the aged packet has what is left of its TTL, and something is left. */
  ghost predicate AnswersLeft(p: Packet, r: Packet, elapsed: nat)
    requires QuestionOf(p).Ok?
  {
    var slots := RecordLayout(p).0;
    && CountsOf(p).answers <= |slots| && AllInside(slots, |p|) && |r| == |p|
    && forall k :: 0 <= k < CountsOf(p).answers ==>
         && Dword(p, slots[k].at + 4) > elapsed
         && (slots[k].kind != OPT ==> Dword(r, slots[k].at + 4) == Dword(p, slots[k].at + 4) - elapsed)
  }

  lemma AnswersStay(p: Packet, r: Packet, elapsed: nat)
    requires QuestionOf(p).Ok? && TtlsRewritten(p, r, Lower(elapsed), 2)
    requires CountsOf(p).answers <= |RecordLayout(p).0| && AllInside(RecordLayout(p).0, |p|)
    requires forall k :: 0 <= k < CountsOf(p).answers ==> elapsed < Dword(p, RecordLayout(p).0[k].at + 4)
    ensures AnswersLeft(p, r, elapsed)
  {
    hide QuestionOf;
    hide Layout;
    hide Dword;
    hide RecordCount;
  }
}
