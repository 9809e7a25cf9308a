/** The locked regions of `Router::exchange_cached` in router.cpp as methods on the shared state of a snapshot. */
module ResolverCache {
  import opened Bytes
  import opened ConfigModel
  import opened DnsQuestion
  import opened DnsAgeing
  import opened DnsResponse
  import opened DnsClamping
  import opened CacheKey
  import opened CacheLedger
  import opened CacheProtocol
  import opened CacheSafety
  import opened CacheRuns

  /** How a call gets on after its first look at the cache. */
  datatype Admission =
    | Answered(result: Result<(Packet, nat)>)
    | Follower(cell: nat, deadline: int)
    | Leader(cell: nat)

  function RoleOf(a: Admission): (r: Role)
  {
    match a
    case Answered(result) => Ended(result)
    case Follower(cell, deadline) => Waits(cell, deadline)
    case Leader(cell) => Leads(cell)
  }

  method Hand(packet: Packet, server: nat, request: Packet, elapsed: nat) returns (r: Result<(Packet, nat)>)
    requires |request| >= 2
    ensures r == Handed(packet, server, request, elapsed)
  {
    hide AgedResponse;
    var p :- AgeDnsResponse(packet, Word(request, 0), elapsed);
    return Ok((p, server));
  }

  method Digest(o: Options, request: Packet, reply: Result<(Packet, nat)>) returns (r: Result<(Packet, Answer)>)
    requires OptionsOk(o)
    ensures r == Outcome(o, request, reply)
  {
    hide ClampedResponse;
    hide ResponseOf;
    hide QuestionOf;
    var raw :- reply;
    var packet :- ClampDnsTtl(raw.0, o.ttlMin, o.ttlMax);
    var wanted :- ParseQuestion(request);
    var answer :- ParseResponse(packet, wanted);
    return Ok((packet, answer));
  }

  lemma BooksAreRight(s: State)
    requires Safe(s)
    ensures s.bytes == Total(s.cache) && OptionsOk(s.options)
  {
    hide Coherent;
    hide EntriesOk;
    hide Total;
  }

  /** The books are in order, and what a live leader asks for is not cached. */
  lemma LeaderIsUncached(s: State, c: nat)
    requires Safe(s) && c < |s.calls| && s.calls[c].role.Leads?
    ensures s.bytes == Total(s.cache) && s.calls[c].key !in s.cache
  {
    hide Key;
    hide Coherent;
    hide EntriesOk;
    hide Total;
    LeaderInFlight(s, c);
  }

  lemma FinishesInError(s: State, c: nat, reply: Result<(Packet, nat)>, now: int, r: State)
    requires OptionsOk(s.options) && c < |s.calls| && s.calls[c].role.Leads? && s.calls[c].role.cell < |s.cells|
    requires Outcome(s.options, s.calls[c].request, reply).Err?
    requires var code := Outcome(s.options, s.calls[c].request, reply).code;
             r == Settled(s, c, Ended(Err(code)), Cell(c, true, [], 0, code))
    ensures Finish(s, c, reply, now, r)
  {
    hide Outcome;
    hide Settled;
  }

  /** The cache as a leader leaves it, with its reply or as it was. */
  ghost predicate Keeps(s: State, key: string, e: Entry, cacheable: bool, r: State)
  {
    if !cacheable then r.cache == s.cache && r.bytes == s.bytes
    else
      exists room: Cache ::
        && Evicted(s.cache, Size(key, e), room) && r.cache == room[key := e]
        && r.bytes == s.bytes - (Total(s.cache) - Total(room)) + Size(key, e)
  }

  lemma FinishesWell(s: State, c: nat, reply: Result<(Packet, nat)>, now: int, r: State)
    requires OptionsOk(s.options) && c < |s.calls| && s.calls[c].role.Leads? && s.calls[c].role.cell < |s.cells|
    requires Outcome(s.options, s.calls[c].request, reply).Ok? && reply.Ok?
    requires var (packet, answer) := Outcome(s.options, s.calls[c].request, reply).value;
             var server, key := reply.value.1, s.calls[c].key;
             && r.options == s.options && r.now == now && r.pending == s.pending - {key}
             && r.cells == s.cells[s.calls[c].role.cell := Cell(c, true, packet, server, "")]
             && r.calls == s.calls[c := s.calls[c].(role := Led(reply.value.0, packet, server))]
             && Keeps(s, key, Stored(packet, answer.cacheTtl, now, server), answer.cacheable, r)
    ensures Finish(s, c, reply, now, r)
  {
    hide Outcome;
    hide Evicted;
    hide Total;
    hide Size;
    hide Stored;
    var (packet, answer) := Outcome(s.options, s.calls[c].request, reply).value;
    var server, key := reply.value.1, s.calls[c].key;
    var t := Settled(s, c, Led(reply.value.0, packet, server), Cell(c, true, packet, server, "")).(now := now);
    assert r == t.(cache := r.cache, bytes := r.bytes);
  }

  /** The shared, mutable part of a configuration snapshot. Tickets number the calls. */
  class Snapshot {
    const options: Options
    const ledger: Ledger
    var pending: map<string, nat>
    var cells: seq<Cell>
    var tickets: nat
    ghost var calls: seq<Call>
    ghost var now: int

    ghost function Current(): (s: State)
      reads this, ledger
    {
      State(options, now, ledger.cache, ledger.bytes, pending, cells, calls)
    }

    ghost predicate Valid()
      reads this, ledger
    {
      Safe(Current()) && tickets == |calls|
    }

    constructor (o: Options)
      requires OptionsOk(o)
      ensures Valid() && fresh(ledger) && Current() == Initial(o)
    {
      options := o;
      var books := new Ledger();
      ledger := books;
      pending, cells, tickets, calls, now := map[], [], 0, [], 0;
      new;
      InitialIsSafe(o);
    }

    /** The first locked region. `time` and `later` are its looks at the clock. */
    method Enter(u: Upstream, request: Packet, time: int, later: int) returns (a: Admission)
      requires Valid() && now <= time <= later
      modifies this, ledger
      ensures Valid()
      ensures |request| < 2 ==> a == Answered(Err(MALFORMED)) && Current() == old(Current())
      ensures |request| >= 2 ==>
                && Lookup(old(Current()), u, request, time, later, Current())
                && |calls| == old(|calls|) + 1 && calls[old(|calls|)] == Call(u, request, Key(u, request), RoleOf(a))
    {
      if |request| < 2 {
        return Answered(Err(MALFORMED));
      }
      a := EnterLocked(u, request, time, later);
    }

    method EnterLocked(u: Upstream, request: Packet, time: int, later: int) returns (a: Admission)
      requires Valid() && now <= time <= later && |request| >= 2
      modifies this, ledger
      ensures Valid() && Lookup(old(Current()), u, request, time, later, Current())
      ensures |calls| == old(|calls|) + 1 && calls[old(|calls|)] == Call(u, request, Key(u, request), RoleOf(a))
    {
      hide Key;
      hide Safe;
      hide Handed;
      hide Total;
      hide Fresh;
      ghost var before := Current();
      BooksAreRight(before);
      var key := Key(u, request);
      ledger.Sweep(time);
      now := time;
      assert Current() == Swept(before, time);
      if key in ledger.cache {
        var e := ledger.cache[key];
        var r := Hand(e.packet, e.server, request, Elapsed(e, time));
        a := Answered(r);
      } else if key in pending {
        a := Follower(pending[key], later + PATIENCE);
        now := later;
      } else if |pending| >= MAX_PENDING {
        a := Answered(Err("UPSTREAM_BUSY"));
      } else {
        a := Leader(|cells|);
        pending := pending[key := |cells|];
        cells := cells + [Cell(tickets, false, [], 0, "")];
      }
      tickets := tickets + 1;
      calls := calls + [Call(u, request, key, RoleOf(a))];
      assert Lookup(before, u, request, time, later, Current());
      LookupKeeps(before, u, request, time, later, Current());
    }
  
    /** The leader with this ticket is back from upstream: it stores and shares the reply, or shares the error. */
    method Return(ticket: nat, cell: nat, u: Upstream, request: Packet, reply: Result<(Packet, nat)>, time: int)
      returns (r: Result<(Packet, nat)>)
      requires Valid() && now <= time && |request| >= 2
      requires ticket < |calls| && calls[ticket] == Call(u, request, Key(u, request), Leads(cell))
      modifies this, ledger
      ensures Valid() && old(Current()).calls[ticket].role.cell < |old(Current()).cells|
      ensures Finish(old(Current()), ticket, reply, time, Current())
      ensures r == match Outcome(options, request, reply)
                   case Err(code) => Err(code)
                   case Ok((packet, answer)) => Ok((packet, reply.value.1))
    {
      hide Key;
      hide Safe;
      hide Outcome;
      hide Finish;
      ghost var before := Current();
      LeaderInFlight(before, ticket);
      r := ReturnLocked(ticket, cell, Key(u, request), request, reply, time);
      FinishKeeps(before, ticket, reply, time, Current());
    }

    /** What a leader does once it holds the lock again. */
    method ReturnLocked(ticket: nat, cell: nat, key: string, request: Packet, reply: Result<(Packet, nat)>, time: int)
      returns (r: Result<(Packet, nat)>)
      requires Safe(Current()) && ticket < |calls| && calls[ticket].request == request && calls[ticket].key == key
      requires calls[ticket].role == Leads(cell) && cell < |cells| && OptionsOk(options)
      modifies this, ledger
      ensures tickets == old(tickets) && |calls| == old(|calls|)
      ensures Finish(old(Current()), ticket, reply, time, Current())
      ensures r == match Outcome(options, request, reply)
                   case Err(code) => Err(code)
                   case Ok((packet, answer)) => Ok((packet, reply.value.1))
    {
      hide Key;
      hide Safe;
      hide Outcome;
      hide Total;
      hide Stored;
      hide Keeps;
      hide Finish;
      ghost var before := Current();
      LeaderIsUncached(before, ticket);
      var outcome := Digest(options, request, reply);
      match outcome {
        case Err(code) =>
          Settle(ticket, cell, key, Ended(Err(code)), Cell(ticket, true, [], 0, code));
          r := Err(code);
          FinishesInError(before, ticket, reply, time, Current());
        case Ok((packet, answer)) =>
          OutcomeIsServed(options, request, reply);
          Share(ticket, cell, key, reply, packet, answer, time);
          r := Ok((packet, reply.value.1));
          FinishesWell(before, ticket, reply, time, Current());
      }
    }

    /** A reply is stored, if it may be, and shared. */
    method Share(ticket: nat, cell: nat, key: string, reply: Result<(Packet, nat)>, packet: Packet, answer: Answer, time: int)
      requires reply.Ok? && ledger.Balanced() && key !in ledger.cache && ticket < |calls| && cell < |cells|
      modifies this, ledger
      ensures tickets == old(tickets) && now == time && pending == old(pending) - {key}
      ensures cells == old(cells)[cell := Cell(ticket, true, packet, reply.value.1, "")]
      ensures calls == old(calls)[ticket := old(calls)[ticket].(role := Led(reply.value.0, packet, reply.value.1))]
      ensures Keeps(old(Current()), key, Stored(packet, answer.cacheTtl, time, reply.value.1), answer.cacheable, Current())
    {
      hide Total;
      hide Size;
      hide Evicted;
      hide Stored;
      var server := reply.value.1;
      now := time;
      if answer.cacheable {
        Store(key, Stored(packet, answer.cacheTtl, time, server));
      }
      Settle(ticket, cell, key, Led(reply.value.0, packet, server), Cell(ticket, true, packet, server, ""));
    }

    /** Room is made for an entry, and it is stored. */
    method Store(key: string, e: Entry)
      requires ledger.Balanced() && key !in ledger.cache
      modifies ledger
      ensures exists room: Cache ::
                && Evicted(old(ledger.cache), Size(key, e), room) && ledger.cache == room[key := e]
                && ledger.bytes == old(ledger.bytes) - (Total(old(ledger.cache)) - Total(room)) + Size(key, e)
    {
      hide Total;
      hide Size;
      ledger.MakeRoom(Size(key, e));
      ghost var room := ledger.cache;
      assert key !in room;
      ledger.Insert(key, e);
    }

    /** The cell is filled and the request no longer in flight. */
    method Settle(ticket: nat, cell: nat, key: string, ghost role: Role, filled: Cell)
      requires ticket < |calls| && cell < |cells|
      modifies `pending, `cells, `calls
      ensures pending == old(pending) - {key} && cells == old(cells)[cell := filled]
      ensures calls == old(calls)[ticket := old(calls)[ticket].(role := role)]
    {
      cells := cells[cell := filled];
      pending := pending - {key};
      calls := calls[ticket := calls[ticket].(role := role)];
    }

    /** A follower looks at its cell after waiting; nothing is returned while it has to wait on. */
    method Wake(ticket: nat, cell: nat, deadline: int, u: Upstream, request: Packet, cancelled: bool, time: int)
      returns (r: Option<Result<(Packet, nat)>>)
      requires Valid() && now <= time && |request| >= 2
      requires ticket < |calls| && calls[ticket] == Call(u, request, Key(u, request), Waits(cell, deadline))
      modifies this
      ensures Valid() && old(Current()).calls[ticket].role.cell < |old(Current()).cells|
      ensures CacheProtocol.Wake(old(Current()), ticket, cancelled, time, Current())
      ensures r.None? ==> calls == old(calls)
      ensures r.Some? ==> calls == old(calls)[ticket := old(calls)[ticket].(role := Ended(r.value))]
    {
      hide Key;
      hide Coherent;
      hide EntriesOk;
      hide Bounded;
      hide Handed;
      hide AgedResponse;
      ghost var before := Current();
      FollowerHasCell(before, ticket);
      var read := cells[cell];
      if cancelled {
        r := Some(Err("CANCELLED"));
      } else {
        now := time;
        if time >= deadline {
          r := Some(Err("TIMEOUT"));
        } else if read.done && read.error != "" {
          r := Some(Err(read.error));
        } else if read.done {
          var given := Hand(read.packet, read.server, request, 0);
          r := Some(given);
        } else {
          r := None;
        }
      }
      if r.Some? {
        calls := calls[ticket := calls[ticket].(role := Ended(r.value))];
      }
      assert CacheProtocol.Wake(before, ticket, cancelled, time, Current());
      WakeKeeps(before, ticket, cancelled, time, Current());
    }
  }
}
