/**
 What single steps and whole runs of the cache protocol give a caller, in figures: who hits, waits, leads or is refused, what a
 leader stores, and when a follower gets what its leader got. `Router::exchange_cached` in router.cpp.
 */
module CacheFollowers {
  import opened Bytes
  import opened ConfigModel
  import opened DnsName
  import opened DnsQuestion
  import opened DnsAgeing
  import DnsResponse
  import opened DnsClamping
  import opened AgeingAcceptance
  import opened CacheKey
  import opened CacheLedger
  import opened CacheProtocol
  import opened CacheSafety
  import opened CacheRuns

  // ---- A lookup ----

  /** The whole seconds from one time to another. */
  ghost predicate WholeSeconds(from: int, to: int, seconds: nat)
  {
    if to < from then seconds == 0 else seconds * 1_000_000_000 <= to - from < (seconds + 1) * 1_000_000_000
  }

  /** What a call is handed: a packet aged by so many seconds under its own ID. */
  ghost predicate IsHanded(result: Result<(Packet, nat)>, packet: Packet, server: nat, request: Packet, seconds: nat)
    requires |request| >= 2
  {
    match AgedResponse(packet, Word(request, 0), seconds)
    case Ok(aged) => result == Ok((aged, server))
    case Err(code) => result == Err(code)
  }

  /**
   A call hits what has not expired; otherwise it waits at most 120 seconds on who asks already; otherwise, and only when 256
   other keys are in flight, it is refused; otherwise it leads.
   */
  lemma LookupDecides(s: State, u: Upstream, request: Packet, now: int, later: int, r: State) returns (seconds: nat)
    requires Safe(s) && s.now <= now <= later && |request| >= 2 && Lookup(s, u, request, now, later, r)
    ensures |r.calls| == |s.calls| + 1 && r.calls[..|s.calls|] == s.calls
    ensures var key, call := Key(u, request), r.calls[|s.calls|];
            && call.upstream == u && call.request == request && call.key == key
            && if key in s.cache && s.cache[key].expires > now then
                 && WholeSeconds(s.cache[key].stored, now, seconds) && r.pending == s.pending
                 && call.role.Ended? && IsHanded(call.role.result, s.cache[key].packet, s.cache[key].server, request, seconds)
               else if key in s.pending then
                 call.role == Waits(s.pending[key], later + 120_000_000_000) && r.pending == s.pending
               else if |s.pending| >= 256 then
                 call.role == Ended(Err("UPSTREAM_BUSY")) && r.pending == s.pending
               else
                 call.role == Leads(|s.cells|) && r.pending == s.pending[key := |s.cells|]
    ensures forall k :: k in r.cache <==> k in s.cache && s.cache[k].expires > now
  {
    hide Key;
    hide AgedResponse;
    hide Safe;
    hide Total;
    var key := Key(u, request);
    seconds := if key in s.cache && s.cache[key].stored <= now then (now - s.cache[key].stored) / 1_000_000_000 else 0;
    if key in s.cache && s.cache[key].stored <= now {
      SecondsAreWhole(now - s.cache[key].stored);
    }
  }

  lemma SecondsAreWhole(n: nat)
    ensures n / 1_000_000_000 * 1_000_000_000 <= n < (n / 1_000_000_000 + 1) * 1_000_000_000
  {
  }

  // ---- The return of a leader ----

  /**
   A leader whose reply is sound and may be cached stores it for the cache time, a day at most; nothing else goes where fewer
   than 4096 entries and enough of 32 MiB are taken.
   */
  lemma LeaderStores(s: State, c: nat, reply: Result<(Packet, nat)>, now: int, r: State)
    requires Safe(s) && s.now <= now && c < |s.calls| && s.calls[c].role.Leads? && s.calls[c].role.cell < |s.cells|
    requires Finish(s, c, reply, now, r) && |s.calls[c].request| >= 2
    requires Outcome(s.options, s.calls[c].request, reply).Ok? && Outcome(s.options, s.calls[c].request, reply).value.1.cacheable
    ensures var (packet, answer) := Outcome(s.options, s.calls[c].request, reply).value;
            var key := s.calls[c].key;
            && reply.Ok? && key in r.cache
            && r.cache[key].packet == packet && r.cache[key].server == reply.value.1 && r.cache[key].stored == now
            && r.cache[key].expires == now + (if answer.cacheTtl < 86400 then answer.cacheTtl else 86400) * 1_000_000_000
            && (|s.cache| < 4096 && s.bytes + |packet| + |key| <= 33_554_432 ==> forall k :: k in s.cache ==> k in r.cache && r.cache[k] == s.cache[k])
            && (forall k :: k in r.cache ==> k == key || (k in s.cache && r.cache[k] == s.cache[k]))
  {
    hide Key;
    hide Outcome;
    hide Safe;
    hide Total;
    hide Evicted;
    hide Finish;
    hide Stored;
    hide Size;
    BooksBalanced(s);
    assert reply.Ok? by { OutcomeIsServed(s.options, s.calls[c].request, reply); }
    var (packet, answer) := Outcome(s.options, s.calls[c].request, reply).value;
    var key, e := s.calls[c].key, Stored(packet, answer.cacheTtl, now, reply.value.1);
    FinishMakesRoom(s, c, reply, now, r);
    var room: Cache :| Evicted(s.cache, Size(key, e), room) && r.cache == room[key := e];
    StoredEntry(packet, answer.cacheTtl, now, reply.value.1, key);
    LeaderIsUncached(s, c);
    RoomMade(s.cache, room, key, e);
  }

  lemma LeaderIsUncached(s: State, c: nat)
    requires Safe(s) && c < |s.calls| && s.calls[c].role.Leads?
    ensures s.calls[c].key !in s.cache
  {
    hide Key;
    hide Coherent;
    hide EntriesOk;
    LeaderInFlight(s, c);
  }

  lemma RoomMade(before: Cache, room: Cache, key: string, e: Entry)
    requires Evicted(before, Size(key, e), room) && key !in before
    ensures var after := room[key := e];
            && (|before| < 4096 && Total(before) + Size(key, e) <= 33_554_432 ==> forall k :: k in before ==> k in after && after[k] == before[k])
            && forall k :: k in after ==> k == key || (k in before && after[k] == before[k])
  {
    hide Evicted;
    hide Total;
    hide Size;
    EvictedPart(before, Size(key, e), room);
    if |before| < 4096 && Total(before) + Size(key, e) <= 33_554_432 {
      EvictedInNeed(before, Size(key, e), room);
    }
  }

  lemma FinishMakesRoom(s: State, c: nat, reply: Result<(Packet, nat)>, now: int, r: State)
    requires OptionsOk(s.options) && c < |s.calls| && s.calls[c].role.Leads? && s.calls[c].role.cell < |s.cells|
    requires Finish(s, c, reply, now, r) && reply.Ok?
    requires Outcome(s.options, s.calls[c].request, reply).Ok? && Outcome(s.options, s.calls[c].request, reply).value.1.cacheable
    ensures var (packet, answer) := Outcome(s.options, s.calls[c].request, reply).value;
            var key, e := s.calls[c].key, Stored(packet, answer.cacheTtl, now, reply.value.1);
            exists room: Cache :: Evicted(s.cache, Size(key, e), room) && r.cache == room[key := e]
  {
    hide Outcome;
    hide Settled;
    hide Stored;
    hide Size;
    hide Total;
    hide Evicted;
  }

  lemma BooksBalanced(s: State)
    requires Safe(s)
    ensures s.bytes == Total(s.cache) && OptionsOk(s.options)
  {
    hide Coherent;
    hide EntriesOk;
    hide Total;
  }

  lemma StoredEntry(packet: Packet, ttl: nat, now: int, server: nat, key: string)
    ensures var e := Stored(packet, ttl, now, server);
            && e.packet == packet && e.server == server && e.stored == now
            && e.expires == now + (if ttl < 86400 then ttl else 86400) * 1_000_000_000
            && Size(key, e) == |packet| + |key|
  {
  }

  /** Room is only made where there is none. */
  lemma EvictedInNeed(before: Cache, room: nat, after: Cache)
    requires Evicted(before, room, after) && |before| < 4096 && Total(before) + room <= 33_554_432
    ensures after == before
  {
    hide Total;
    if after != before {
      var last :| last in before && last !in after && !Fits(after[last := before[last]], room);
      var part := after[last := before[last]];
      PartIsSmaller(part, before);
    }
  }

  // ---- Followers ----

  /** A follower that has not ended is as it was when it joined. */
  lemma WaiterStays(s: State, e: Event, r: State, c: nat)
    requires Step(s, e, r) && c < |s.calls|
    ensures |s.calls| <= |r.calls|
    ensures r.calls[c].role.Waits? ==> r.calls[c] == s.calls[c]
  {
    hide Lookup;
    hide Finish;
    hide Wake;
    match e
    case Enters(u, request, now, later) => EnteringKeeps(s, u, request, now, later, r);
    case Returns(l, reply, now) => ReturningKeeps(s, l, reply, now, r);
    case Wakes(w, cancelled, now) => WakingKeeps(s, w, cancelled, now, r);
  }

  lemma EnteringKeeps(s: State, u: Upstream, request: Packet, now: int, later: int, r: State)
    requires |request| >= 2 && Lookup(s, u, request, now, later, r)
    ensures |r.calls| == |s.calls| + 1 && r.calls[..|s.calls|] == s.calls
  {
    hide Key;
    hide Handed;
    hide Total;
    hide Fresh;
  }

  lemma ReturningKeeps(s: State, l: nat, reply: Result<(Packet, nat)>, now: int, r: State)
    requires OptionsOk(s.options) && l < |s.calls| && s.calls[l].role.Leads? && s.calls[l].role.cell < |s.cells|
    requires Finish(s, l, reply, now, r)
    ensures |r.calls| == |s.calls| && !r.calls[l].role.Waits?
    ensures forall c :: 0 <= c < |s.calls| && c != l ==> r.calls[c] == s.calls[c]
  {
    hide Outcome;
    hide Evicted;
    hide Total;
    hide Size;
    hide Stored;
  }

  lemma WakingKeeps(s: State, w: nat, cancelled: bool, now: int, r: State)
    requires w < |s.calls| && s.calls[w].role.Waits? && s.calls[w].role.cell < |s.cells| && |s.calls[w].request| >= 2
    requires Wake(s, w, cancelled, now, r)
    ensures |r.calls| == |s.calls| && (r.calls[w].role.Waits? ==> r.calls[w] == s.calls[w])
    ensures forall c :: 0 <= c < |s.calls| && c != w ==> r.calls[c] == s.calls[c]
  {
    hide Delivered;
  }

  lemma {:induction false} WaiterStayed(o: Options, states: seq<State>, events: seq<Event>, i: nat, j: nat, c: nat)
    requires IsRun(o, states, events) && i <= j < |states| && c < |states[i].calls|
    ensures |states[i].calls| <= |states[j].calls|
    ensures states[j].calls[c].role.Waits? ==> states[j].calls[c] == states[i].calls[c]
    decreases j
  {
    hide Step;
    if i < j {
      WaiterStayed(o, states, events, i, j - 1, c);
      assert Step(states[j - 1], events[j - 1], states[j - 1 + 1]);
      WaiterStays(states[j - 1], events[j - 1], states[j], c);
    }
  }

  /** What has become of a follower after a wake-up. */
  ghost predicate Awoken(s: State, c: nat, r: State)
    requires c < |s.calls| && c < |r.calls| && s.calls[c].role.Waits? && s.calls[c].role.cell < |s.cells|
    requires s.cells[s.calls[c].role.cell].leader < |s.calls| && |s.calls[c].request| >= 2
  {
    var leader := s.calls[s.cells[s.calls[c].role.cell].leader];
    && leader.key == s.calls[c].key
    && match leader.role
       case Leads(_) => r.calls[c] == s.calls[c]
       case Led(_, packet, server) =>
         r.calls[c].role.Ended? && IsHanded(r.calls[c].role.result, packet, server, s.calls[c].request, 0)
       case Ended(result) =>
         result.Err? && r.calls[c].role.Ended? && r.calls[c].role.result.Err?
         && (result.code != "" ==> r.calls[c].role.result == result)
       case Waits(_, _) => false
  }

  lemma WakesWell(s: State, c: nat, now: int, r: State)
    requires Safe(s) && s.now <= now && c < |s.calls| && s.calls[c].role.Waits? && s.calls[c].role.cell < |s.cells|
    requires |s.calls[c].request| >= 2 && Wake(s, c, false, now, r)
    ensures |r.calls| == |s.calls| && s.cells[s.calls[c].role.cell].leader < |s.calls|
    ensures now < s.calls[c].role.deadline ==> Awoken(s, c, r)
    ensures now >= s.calls[c].role.deadline ==> r.calls[c].role == Ended(Err("TIMEOUT"))
  {
    hide Key;
    hide AgedResponse;
    hide EntriesOk;
    hide Bounded;
    hide Genuine;
    hide Served;
    FollowerHasCell(s, c);
    hide Coherent;
    var cell := s.cells[s.calls[c].role.cell];
    if cell.done && cell.error == "" && s.calls[cell.leader].role.Ended? {
      NothingHanded(cell.server, s.calls[c].request);
    }
  }

  /**
   In every run: a follower that joined at one time and wakes up, not cancelled, less than 120 seconds later keeps waiting
   while its leader asks, and ends with its leader's packet under its own ID, or its leader's error, once that is there. From
   then on, and only then, it ends with TIMEOUT.
   */
  lemma FollowersAreServed(o: Options, states: seq<State>, events: seq<Event>, i: nat, j: nat)
    requires OptionsOk(o) && IsRun(o, states, events) && i < j < |events|
    requires events[i].Enters? && |states[i].calls| < |states[i + 1].calls| && states[i + 1].calls[|states[i].calls|].role.Waits?
    requires events[j] == Wakes(|states[i].calls|, false, events[j].now)
    ensures var c, s, r := |states[i].calls|, states[j], states[j + 1];
            && c < |s.calls| && c < |r.calls| && s.calls[c].role.Waits? && s.calls[c].role.cell < |s.cells|
            && s.cells[s.calls[c].role.cell].leader < |s.calls| && |s.calls[c].request| >= 2
            && s.calls[c].request == events[i].request
            && if events[j].now < events[i].later + 120_000_000_000 then Awoken(s, c, r)
               else r.calls[c].role == Ended(Err("TIMEOUT"))
  {
    hide Step;
    hide Safe;
    hide Awoken;
    RunsAreSafe(o, states, events);
    assert Step(states[i], events[i], states[i + 1]) && Step(states[j], events[j], states[j + 1]);
    var c, s := |states[i].calls|, states[j];
    Entered(states[i], events[i], states[i + 1]);
    WaiterStayed(o, states, events, i + 1, j, c);
    Woken(s, events[j], states[j + 1]);
    WakesWell(s, c, events[j].now, states[j + 1]);
  }

  lemma Entered(s: State, e: Event, r: State)
    requires Safe(s) && Step(s, e, r) && e.Enters? && |s.calls| < |r.calls| && r.calls[|s.calls|].role.Waits?
    ensures r.calls[|s.calls|].role.deadline == e.later + 120_000_000_000 && r.calls[|s.calls|].request == e.request
  {
    hide Safe;
    hide Lookup;
    var seconds := LookupDecides(s, e.upstream, e.request, e.now, e.later, r);
  }

  lemma Woken(s: State, e: Event, r: State)
    requires Step(s, e, r) && e.Wakes?
    ensures e.call < |s.calls| && s.calls[e.call].role.Waits? && s.calls[e.call].role.cell < |s.cells|
    ensures |s.calls[e.call].request| >= 2 && s.now <= e.now && Wake(s, e.call, e.cancelled, e.now, r)
  {
    hide Wake;
  }

  /** A follower of a leader with an untruncated reply never fails on it: the packet can be handed on at once. */
  lemma LedPacketsHandOn(s: State, l: nat, request: Packet)
    requires Safe(s) && l < |s.calls| && s.calls[l].role.Led? && |request| >= 2
    requires QuestionOf(s.calls[l].role.packet).Ok? && QuestionOf(s.calls[l].role.packet).value.flags / 0x200 % 2 != 1
    ensures AgedResponse(s.calls[l].role.packet, Word(request, 0), 0).Ok?
  {
    hide Key;
    hide AgedResponse;
    hide ClampedResponse;
    hide QuestionOf;
    hide EntriesOk;
    hide DnsResponse.Scanned;
    assert CallOk(s.options, s.calls, s.cells, s.pending, l);
    var call := s.calls[l];
    ResponsesAge(call.role.packet, QuestionOf(call.request).value, Word(request, 0), 0);
  }
}
