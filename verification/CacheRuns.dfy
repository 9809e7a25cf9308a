/** Runs of the cache protocol, and what can be read off any state of one. */
module CacheRuns {
  import opened Bytes
  import opened ConfigModel
  import opened DnsQuestion
  import opened DnsAgeing
  import opened DnsResponse
  import opened DnsClamping
  import opened CacheKey
  import opened CacheLedger
  import opened CacheProtocol
  import opened CacheSafety

  lemma SweepKeeps(s: State, now: int)
    requires Safe(s) && s.now <= now
    ensures Safe(Swept(s, now))
  {
    hide Total;
    hide Coherent;
    hide Backed;
    var cache := Fresh(s.cache, now);
    BoundedPart(cache, s.cache);
    EntriesGrown(s.calls, s.calls, s.cache, cache, s.now, now);
  }

  /** A call that does not lead: what it is given is right if what it comes from is. */
  lemma MadeKeeps(s: State, u: Upstream, request: Packet, role: Role, now: int)
    requires Safe(s) && s.now <= now && |request| >= 2
    requires match role
             case Waits(x, _) => Key(u, request) in s.pending && s.pending[Key(u, request)] == x
             case Ended(result) => result.Ok? ==> Genuine(s.calls, Key(u, request), request, result.value.0, result.value.1)
             case _ => false
    ensures Safe(Made(s.(now := now), u, request, role))
  {
    hide Key;
    hide Genuine;
    hide Coherent;
    hide EntriesOk;
    hide Bounded;
    var c := Call(u, request, Key(u, request), role);
    AddCall(s.options, s.calls, s.cells, s.pending, c);
    EntriesGrown(s.calls, s.calls + [c], s.cache, s.cache, s.now, now);
  }

  lemma LeaderKeeps(s: State, u: Upstream, request: Packet)
    requires Safe(s) && |request| >= 2
    requires Key(u, request) !in s.pending && Key(u, request) !in s.cache && |s.pending| < MAX_PENDING
    ensures Safe(Made(s.(pending := s.pending[Key(u, request) := |s.cells|],
                         cells := s.cells + [Cell(|s.calls|, false, [], 0, "")]), u, request, Leads(|s.cells|)))
  {
    hide Key;
    hide Coherent;
    hide EntriesOk;
    hide Bounded;
    var c := Call(u, request, Key(u, request), Leads(|s.cells|));
    AddLeader(s.options, s.calls, s.cells, s.pending, c);
    EntriesGrown(s.calls, s.calls + [c], s.cache, s.cache, s.now, s.now);
  }

  /** An entry that has not expired is younger than the response may be cached. */
  lemma EntryIsYoung(s: State, key: string, now: int) returns (l: nat)
    requires Safe(s) && s.now <= now && key in s.cache && s.cache[key].expires > now
    ensures l < |s.calls| && Backs(s.calls[l], key, s.cache[key])
    ensures Elapsed(s.cache[key], now) < ResponseOf(s.cache[key].packet, QuestionOf(s.calls[l].request).value).value.cacheTtl
    ensures Elapsed(s.cache[key], now) < MAX_TTL
  {
    hide Coherent;
    hide QuestionOf;
    hide ResponseOf;
    var e := s.cache[key];
    assert Backed(s.calls, key, e);
    l :| 0 <= l < |s.calls| && Backs(s.calls[l], key, e);
  }

  /** A hit hands out what the leader behind the entry got. */
  lemma HitIsGenuine(s: State, key: string, request: Packet, now: int)
    requires Safe(s) && s.now <= now && key in s.cache && s.cache[key].expires > now && |request| >= 2
    requires Handed(s.cache[key].packet, s.cache[key].server, request, Elapsed(s.cache[key], now)).Ok?
    ensures var r := Handed(s.cache[key].packet, s.cache[key].server, request, Elapsed(s.cache[key], now)).value;
            Genuine(s.calls, key, request, r.0, r.1)
  {
    hide Safe;
    hide Elapsed;
    hide QuestionOf;
    hide ResponseOf;
    hide AgedResponse;
    var e, elapsed := s.cache[key], Elapsed(s.cache[key], now);
    var l := EntryIsYoung(s, key, now);
    var r := Handed(e.packet, e.server, request, elapsed).value;
    assert ComesFrom(s.calls[l], key, request, r.0, r.1, elapsed);
  }

  lemma LookupKeeps(s: State, u: Upstream, request: Packet, now: int, later: int, r: State)
    requires Safe(s) && s.now <= now <= later && |request| >= 2 && Lookup(s, u, request, now, later, r)
    ensures Safe(r)
  {
    hide Key;
    hide Safe;
    hide Handed;
    hide Made;
    hide Swept;
    hide Genuine;
    var key, t := Key(u, request), Swept(s, now);
    SweepKeeps(s, now);
    SweptFields(s, now);
    if key in t.cache {
      var e := t.cache[key];
      if Handed(e.packet, e.server, request, Elapsed(e, now)).Ok? {
        assert e.expires > now by { FreshLasts(s, key, now); }
        HitIsGenuine(t, key, request, now);
      }
      MadeKeeps(t, u, request, Ended(Handed(e.packet, e.server, request, Elapsed(e, now))), now);
    } else if key in t.pending {
      MadeKeeps(t, u, request, Waits(t.pending[key], later + PATIENCE), later);
    } else if |t.pending| >= MAX_PENDING {
      MadeKeeps(t, u, request, Ended(Err("UPSTREAM_BUSY")), now);
    } else {
      LeaderKeeps(t, u, request);
    }
  }

  lemma FreshLasts(s: State, key: string, now: int)
    requires key in Swept(s, now).cache
    ensures Swept(s, now).cache[key].expires > now
  {
    hide Total;
  }

  lemma SweptFields(s: State, now: int)
    ensures Swept(s, now).now == now
  {
  }

  lemma OutcomeIsServed(o: Options, request: Packet, reply: Result<(Packet, nat)>)
    requires OptionsOk(o) && Outcome(o, request, reply).Ok?
    ensures var (packet, answer) := Outcome(o, request, reply).value;
            && reply.Ok? && Served(o, request, reply.value.0, packet)
            && ResponseOf(packet, QuestionOf(request).value) == Ok(answer)
  {
    hide QuestionOf;
    hide ResponseOf;
    hide ClampedResponse;
  }

  /** Settling a leader, whatever it brings. */
  lemma SettleKeeps(s: State, c: nat, role: Role, cell: Cell, now: int)
    requires Safe(s) && s.now <= now && c < |s.calls| && s.calls[c].role.Leads? && |s.calls[c].request| >= 2
    requires Turned(s.options, s.calls, s.calls[c], role)
    requires cell.leader == c && cell.done && Carries(cell, role)
    ensures s.calls[c].role.cell < |s.cells|
    ensures Safe(Settled(s, c, role, cell).(now := now)) && s.calls[c].key !in s.cache
    ensures Safe(Settled(s, c, role, cell))
  {
    hide Key;
    hide Coherent;
    hide EntriesOk;
    hide Bounded;
    hide Turned;
    hide Carries;
    LeaderSettles(s.options, s.calls, s.cells, s.pending, c, role, cell);
    LeaderInFlight(s, c);
    var calls := s.calls[c := s.calls[c].(role := role)];
    EntriesGrown(s.calls, calls, s.cache, s.cache, s.now, now);
    EntriesGrown(s.calls, calls, s.cache, s.cache, s.now, s.now);
    Less(s.pending, s.calls[c].key);
  }

  lemma Less(pending: map<string, nat>, key: string)
    ensures |pending - {key}| <= |pending|
  {
    assert (pending - {key}).Keys == pending.Keys - {key};
    assert |(pending - {key}).Keys| == |pending - {key}|;
    assert |pending.Keys| == |pending|;
  }

  /** A live leader has its request in flight, its cell is empty, and its call is well formed. */
  lemma LeaderInFlight(s: State, c: nat)
    requires Safe(s) && c < |s.calls| && s.calls[c].role.Leads?
    ensures |s.calls[c].request| >= 2 && s.calls[c].key == Key(s.calls[c].upstream, s.calls[c].request)
    ensures s.calls[c].role.cell < |s.cells| && !s.cells[s.calls[c].role.cell].done
    ensures s.calls[c].key in s.pending && s.pending[s.calls[c].key] == s.calls[c].role.cell
    ensures OptionsOk(s.options)
  {
    hide Key;
    hide CallOk;
    hide EntriesOk;
    hide Bounded;
    LeaderHasCell(s.options, s.calls, s.cells, s.pending, c);
  }

  /** Storing what a leader got, with nothing cached under its key. */
  lemma StoreKeeps(s: State, c: nat, answer: Answer, now: int, room: Cache)
    requires Safe(s) && s.now == now && c < |s.calls| && s.calls[c].role.Led?
    requires s.calls[c].key !in s.cache && s.calls[c].key !in s.pending && answer.cacheable
    requires QuestionOf(s.calls[c].request).Ok?
    requires ResponseOf(s.calls[c].role.packet, QuestionOf(s.calls[c].request).value) == Ok(answer)
    requires var e := Stored(s.calls[c].role.packet, answer.cacheTtl, now, s.calls[c].role.server);
             Evicted(s.cache, Size(s.calls[c].key, e), room)
    ensures var e := Stored(s.calls[c].role.packet, answer.cacheTtl, now, s.calls[c].role.server);
            Safe(s.(cache := room[s.calls[c].key := e],
                    bytes := s.bytes - (Total(s.cache) - Total(room)) + Size(s.calls[c].key, e)))
  {
    hide Coherent;
    hide EntriesOk;
    hide QuestionOf;
    hide ResponseOf;
    hide Total;
    hide Size;
    hide Stored;
    var call := s.calls[c];
    var e := Stored(call.role.packet, answer.cacheTtl, now, call.role.server);
    RoomIsEnough(s.cache, call.key, e, room);
    EvictedPart(s.cache, Size(call.key, e), room);
    EntriesGrown(s.calls, s.calls, s.cache, room, now, now);
    LedBacks(call, answer, now);
    hide Backs;
    assert Backed(s.calls, call.key, e);
    StoredBacked(s.calls, room, call.key, e, now);
    hide Backed;
  }

  lemma EvictedPart(before: Cache, size: nat, room: Cache)
    requires Evicted(before, size, room)
    ensures Part(room, before)
  {
  }

  /** What a leader got backs the entry that is stored for it. */
  lemma LedBacks(call: Call, answer: Answer, now: int)
    requires call.role.Led? && answer.cacheable && QuestionOf(call.request).Ok?
    requires ResponseOf(call.role.packet, QuestionOf(call.request).value) == Ok(answer)
    ensures var e := Stored(call.role.packet, answer.cacheTtl, now, call.role.server);
            e.stored == now && Backs(call, call.key, e)
  {
    hide QuestionOf;
    hide ResponseOf;
  }

  lemma StoredBacked(calls: seq<Call>, room: Cache, key: string, e: Entry, now: int)
    requires EntriesOk(calls, room, now) && e.stored <= now && Backed(calls, key, e)
    ensures EntriesOk(calls, room[key := e], now)
  {
    hide Backed;
  }

  lemma FinishKeeps(s: State, c: nat, reply: Result<(Packet, nat)>, now: int, r: State)
    requires Safe(s) && s.now <= now && c < |s.calls| && s.calls[c].role.Leads? && s.calls[c].role.cell < |s.cells|
    requires Finish(s, c, reply, now, r)
    ensures Safe(r)
  {
    hide Key;
    hide Safe;
    hide Outcome;
    hide Evicted;
    hide Served;
    hide QuestionOf;
    hide ResponseOf;
    hide Total;
    hide Size;
    hide Stored;
    LeaderInFlight(s, c);
    var call := s.calls[c];
    match Outcome(s.options, call.request, reply) {
      case Err(code) =>
        SettleKeeps(s, c, Ended(Err(code)), Cell(c, true, [], 0, code), s.now);
      case Ok((packet, answer)) =>
        OutcomeIsServed(s.options, call.request, reply);
        ServedAsks(s.options, call.request, reply.value.0, packet);
        var role, cell := Led(reply.value.0, packet, reply.value.1), Cell(c, true, packet, reply.value.1, "");
        SettleKeeps(s, c, role, cell, now);
        if answer.cacheable {
          var t := Settled(s, c, role, cell).(now := now);
          var e := Stored(packet, answer.cacheTtl, now, reply.value.1);
          var room :| Evicted(s.cache, Size(call.key, e), room)
            && r == t.(cache := room[call.key := e], bytes := s.bytes - (Total(s.cache) - Total(room)) + Size(call.key, e));
          StoreKeeps(t, c, answer, now, room);
        }
    }
  }

  lemma ServedAsks(o: Options, request: Packet, raw: Packet, packet: Packet)
    requires OptionsOk(o) && Served(o, request, raw, packet)
    ensures QuestionOf(request).Ok?
  {
  }

  /** A follower has a cell to wait on, led under its own key. */
  lemma FollowerHasCell(s: State, c: nat)
    requires Safe(s) && c < |s.calls| && s.calls[c].role.Waits?
    ensures |s.calls[c].request| >= 2 && s.calls[c].key == Key(s.calls[c].upstream, s.calls[c].request)
    ensures s.calls[c].role.cell < |s.cells| && CellOk(s.calls, s.cells, s.calls[c].role.cell)
    ensures s.cells[s.calls[c].role.cell].leader < |s.calls| && s.calls[s.cells[s.calls[c].role.cell].leader].key == s.calls[c].key
  {
    hide Key;
    hide EntriesOk;
    hide Bounded;
    hide CellOk;
    hide Genuine;
    hide Served;
    assert CallOk(s.options, s.calls, s.cells, s.pending, c);
  }

  lemma NothingHanded(server: nat, request: Packet)
    requires |request| >= 2
    ensures Handed([], server, request, 0).Err?
  {
  }

  /** What a filled cell gives a follower is what its leader got. */
  lemma DeliveredIsGenuine(calls: seq<Call>, cells: seq<Cell>, x: nat, key: string, request: Packet)
    requires x < |cells| && CellOk(calls, cells, x) && cells[x].done && calls[cells[x].leader].key == key && |request| >= 2
    requires Delivered(cells[x], request).Ok?
    ensures var r := Delivered(cells[x], request).value;
            Genuine(calls, key, request, r.0, r.1)
  {
    hide AgedResponse;
    var cell := cells[x];
    var leader := calls[cell.leader];
    if leader.role.Ended? {
      NothingHanded(cell.server, request);
    }
    var r := Delivered(cell, request).value;
    assert ComesFrom(leader, key, request, r.0, r.1, 0);
  }

  lemma WakeKeeps(s: State, c: nat, cancelled: bool, now: int, r: State)
    requires Safe(s) && s.now <= now && c < |s.calls| && s.calls[c].role.Waits? && s.calls[c].role.cell < |s.cells|
    requires |s.calls[c].request| >= 2 && Wake(s, c, cancelled, now, r)
    ensures Safe(r)
  {
    hide Key;
    hide Safe;
    hide Delivered;
    hide CellOk;
    hide Genuine;
    hide EntriesOk;
    FollowerHasCell(s, c);
    var call := s.calls[c];
    var cell := s.cells[call.role.cell];
    if cancelled {
      EndKeeps(s, c, Err("CANCELLED"), s.now);
    } else if now >= call.role.deadline {
      EndKeeps(s, c, Err("TIMEOUT"), now);
    } else if cell.done {
      if Delivered(cell, call.request).Ok? {
        DeliveredIsGenuine(s.calls, s.cells, call.role.cell, call.key, call.request);
      }
      EndKeeps(s, c, Delivered(cell, call.request), now);
    } else {
      TimePasses(s, now);
    }
  }

  lemma TimePasses(s: State, now: int)
    requires Safe(s) && s.now <= now
    ensures Safe(s.(now := now))
  {
    hide Coherent;
    hide Bounded;
    EntriesGrown(s.calls, s.calls, s.cache, s.cache, s.now, now);
  }

  lemma EndKeeps(s: State, c: nat, result: Result<(Packet, nat)>, now: int)
    requires Safe(s) && s.now <= now && c < |s.calls| && s.calls[c].role.Waits? && |s.calls[c].request| >= 2
    requires result.Ok? ==> Genuine(s.calls, s.calls[c].key, s.calls[c].request, result.value.0, result.value.1)
    ensures Safe(s.(now := now, calls := s.calls[c := s.calls[c].(role := Ended(result))]))
  {
    hide Coherent;
    hide EntriesOk;
    hide Bounded;
    hide Genuine;
    FollowerEnds(s.options, s.calls, s.cells, s.pending, c, result);
    EntriesGrown(s.calls, s.calls[c := s.calls[c].(role := Ended(result))], s.cache, s.cache, s.now, now);
  }

  // ---- Runs ----

  /** What can happen next: a thread enters, a leader returns from upstream, or a follower wakes up. */
  datatype Event =
    | Enters(upstream: Upstream, request: Packet, now: int, later: int)
    | Returns(call: nat, reply: Result<(Packet, nat)>, now: int)
    | Wakes(call: nat, cancelled: bool, now: int)

  ghost predicate Step(s: State, e: Event, r: State)
  {
    && s.now <= e.now && OptionsOk(s.options)
    && match e
       case Enters(u, request, now, later) => |request| >= 2 && now <= later && Lookup(s, u, request, now, later, r)
       case Returns(c, reply, now) =>
         c < |s.calls| && s.calls[c].role.Leads? && s.calls[c].role.cell < |s.cells| && Finish(s, c, reply, now, r)
       case Wakes(c, cancelled, now) =>
         c < |s.calls| && s.calls[c].role.Waits? && s.calls[c].role.cell < |s.cells| && |s.calls[c].request| >= 2
         && Wake(s, c, cancelled, now, r)
  }

  ghost predicate IsRun(o: Options, states: seq<State>, events: seq<Event>)
  {
    && |states| == |events| + 1 && states[0] == Initial(o)
    && forall i :: 0 <= i < |events| ==> Step(states[i], events[i], states[i + 1])
  }

  /** In every interleaving of lookups, returns and wake-ups every state is safe. */
  lemma {:induction false} RunsAreSafe(o: Options, states: seq<State>, events: seq<Event>)
    requires OptionsOk(o) && IsRun(o, states, events)
    ensures forall i :: 0 <= i < |states| ==> Safe(states[i])
    decreases |events|
  {
    hide Step;
    hide Safe;
    if events == [] {
      assert Safe(Initial(o)) by { InitialIsSafe(o); }
    } else {
      var n := |events| - 1;
      RunsAreSafe(o, states[..n + 1], events[..n]);
      assert states[..n + 1][n] == states[n];
      StepKeeps(states[n], events[n], states[n + 1]);
      forall i | 0 <= i < |states|
        ensures Safe(states[i])
      {
        if i <= n {
          assert states[..n + 1][i] == states[i];
        }
      }
    }
  }

  lemma InitialIsSafe(o: Options)
    requires OptionsOk(o)
    ensures Safe(Initial(o))
  {
    TotalOfNothing();
  }

  lemma StepKeeps(s: State, e: Event, r: State)
    requires Safe(s) && Step(s, e, r)
    ensures Safe(r)
  {
    hide Safe;
    hide Lookup;
    hide Finish;
    hide Wake;
    match e
    case Enters(u, request, now, later) => LookupKeeps(s, u, request, now, later, r);
    case Returns(c, reply, now) => FinishKeeps(s, c, reply, now, r);
    case Wakes(c, cancelled, now) => WakeKeeps(s, c, cancelled, now, r);
  }
}
