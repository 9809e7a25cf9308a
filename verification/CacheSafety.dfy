/** What every run of the cache protocol keeps. */
module CacheSafety {
  import opened Bytes
  import opened ConfigModel
  import opened DnsQuestion
  import opened DnsAgeing
  import opened DnsResponse
  import opened DnsClamping
  import opened CacheKey
  import opened CacheLedger
  import opened CacheProtocol

  /** What a leader got: an upstream reply to its query, with its TTLs bounded. */
  ghost predicate Served(o: Options, request: Packet, raw: Packet, packet: Packet)
    requires OptionsOk(o)
  {
    && ClampedResponse(raw, o.ttlMin, o.ttlMax) == Ok(packet)
    && QuestionOf(request).Ok? && ResponseOf(packet, QuestionOf(request).value).Ok?
  }

  /** What a leader got may be handed out as long after: at once, or while it may be cached. */
  ghost predicate Lively(leader: Call, elapsed: nat)
    requires leader.role.Led?
  {
    elapsed > 0 ==>
      && QuestionOf(leader.request).Ok?
      && var answer := ResponseOf(leader.role.packet, QuestionOf(leader.request).value);
         answer.Ok? && answer.value.cacheable && elapsed < answer.value.cacheTtl && elapsed < 86400
  }

  /** A result comes from what a leader got under the same key: its packet, aged and given another ID. */
  ghost predicate ComesFrom(leader: Call, key: string, request: Packet, packet: Packet, server: nat, elapsed: nat)
    requires |request| >= 2
  {
    && leader.role.Led? && leader.key == key && leader.role.server == server
    && Lively(leader, elapsed)
    && AgedResponse(leader.role.packet, Word(request, 0), elapsed) == Ok(packet)
  }

  ghost predicate Genuine(calls: seq<Call>, key: string, request: Packet, packet: Packet, server: nat)
    requires |request| >= 2
  {
    exists l, elapsed :: 0 <= l < |calls| && ComesFrom(calls[l], key, request, packet, server, elapsed)
  }

  /** A filled cell holds its leader's packet or error. */
  predicate Carries(cell: Cell, role: Role)
  {
    match role
    case Led(_, packet, server) => cell.packet == packet && cell.server == server && cell.error == ""
    case Ended(result) => result == Err(cell.error) && cell.packet == []
    case _ => false
  }

  ghost predicate CallOk(o: Options, calls: seq<Call>, cells: seq<Cell>, pending: map<string, nat>, i: nat)
    requires OptionsOk(o) && i < |calls|
  {
    var c := calls[i];
    && |c.request| >= 2 && c.key == Key(c.upstream, c.request)
    && match c.role
       case Leads(x) =>
         x < |cells| && !cells[x].done && cells[x].leader == i && c.key in pending && pending[c.key] == x
       case Waits(x, _) => x < |cells| && cells[x].leader < |calls| && calls[cells[x].leader].key == c.key
       case Led(raw, packet, _) => Served(o, c.request, raw, packet)
       case Ended(result) => result.Ok? ==> Genuine(calls, c.key, c.request, result.value.0, result.value.1)
  }

  ghost predicate CellOk(calls: seq<Call>, cells: seq<Cell>, x: nat)
    requires x < |cells|
  {
    && cells[x].leader < |calls|
    && if cells[x].done then Carries(cells[x], calls[cells[x].leader].role)
       else calls[cells[x].leader].role == Leads(x)
  }

  ghost predicate PendingOk(calls: seq<Call>, cells: seq<Cell>, pending: map<string, nat>, k: string)
    requires k in pending
  {
    && pending[k] < |cells| && !cells[pending[k]].done
    && cells[pending[k]].leader < |calls| && calls[cells[pending[k]].leader].key == k
  }

  /** Calls, cells and what is in flight fit together. */
  ghost predicate Coherent(o: Options, calls: seq<Call>, cells: seq<Cell>, pending: map<string, nat>)
    requires OptionsOk(o)
  {
    && (forall i :: 0 <= i < |calls| ==> CallOk(o, calls, cells, pending, i))
    && (forall x :: 0 <= x < |cells| ==> CellOk(calls, cells, x))
    && (forall k :: k in pending ==> PendingOk(calls, cells, pending, k))
  }

  /** An entry holds what a leader got under its key, if that may be cached, for as long as it may be. */
  ghost predicate Backs(leader: Call, key: string, e: Entry)
  {
    && leader.role.Led? && leader.key == key && leader.role.packet == e.packet && leader.role.server == e.server
    && QuestionOf(leader.request).Ok?
    && var answer := ResponseOf(e.packet, QuestionOf(leader.request).value);
       answer.Ok? && answer.value.cacheable && e.expires == e.stored + Min(answer.value.cacheTtl, MAX_TTL) * SECOND
  }

  ghost predicate Backed(calls: seq<Call>, key: string, e: Entry)
  {
    exists l :: 0 <= l < |calls| && Backs(calls[l], key, e)
  }

  ghost predicate EntriesOk(calls: seq<Call>, cache: Cache, now: int)
  {
    forall k :: k in cache ==> cache[k].stored <= now && Backed(calls, k, cache[k])
  }

  ghost predicate Safe(s: State)
  {
    && OptionsOk(s.options)
    && Coherent(s.options, s.calls, s.cells, s.pending)
    && EntriesOk(s.calls, s.cache, s.now)
    && Bounded(s.cache, s.bytes)
    && |s.pending| <= MAX_PENDING
    && s.cache.Keys !! s.pending.Keys
  }

  // ---- Calls only gain ----

  /** Calls are kept and what a leader got stays. */
  ghost predicate Grown(calls: seq<Call>, calls': seq<Call>)
  {
    && |calls| <= |calls'|
    && forall i :: 0 <= i < |calls| ==>
         && calls'[i].request == calls[i].request && calls'[i].key == calls[i].key && calls'[i].upstream == calls[i].upstream
         && (calls[i].role.Led? ==> calls'[i].role == calls[i].role)
  }

  lemma GenuineGrown(calls: seq<Call>, calls': seq<Call>, key: string, request: Packet, packet: Packet, server: nat)
    requires |request| >= 2 && Grown(calls, calls') && Genuine(calls, key, request, packet, server)
    ensures Genuine(calls', key, request, packet, server)
  {
    hide AgedResponse;
    hide QuestionOf;
    hide ResponseOf;
    var l, elapsed :| 0 <= l < |calls| && ComesFrom(calls[l], key, request, packet, server, elapsed);
    assert ComesFrom(calls'[l], key, request, packet, server, elapsed);
  }

  lemma EntriesGrown(calls: seq<Call>, calls': seq<Call>, cache: Cache, cache': Cache, now: int, now': int)
    requires Grown(calls, calls') && Part(cache', cache) && now <= now' && EntriesOk(calls, cache, now)
    ensures EntriesOk(calls', cache', now')
  {
    hide QuestionOf;
    hide ResponseOf;
    forall k | k in cache'
      ensures Backed(calls', k, cache'[k])
    {
      var l :| 0 <= l < |calls| && Backs(calls[l], k, cache[k]);
      assert Backs(calls'[l], k, cache'[k]);
    }
  }

  /** A call that goes on as it was stays right while others are added or end. */
  lemma CallStays(o: Options, calls: seq<Call>, cells: seq<Cell>, pending: map<string, nat>,
                  calls': seq<Call>, cells': seq<Cell>, pending': map<string, nat>, i: nat)
    requires OptionsOk(o) && Grown(calls, calls') && i < |calls| && CallOk(o, calls, cells, pending, i)
    requires calls'[i] == calls[i]
    requires |cells| <= |cells'| && forall x :: 0 <= x < |cells| ==> cells'[x].leader == cells[x].leader
    requires calls[i].role.Leads? ==>
               && cells'[calls[i].role.cell].done == cells[calls[i].role.cell].done
               && calls[i].key in pending' && pending'[calls[i].key] == pending[calls[i].key]
    ensures CallOk(o, calls', cells', pending', i)
  {
    hide Key;
    hide Served;
    hide Genuine;
    var c := calls[i];
    if c.role.Ended? && c.role.result.Ok? {
      GenuineGrown(calls, calls', c.key, c.request, c.role.result.value.0, c.role.result.value.1);
    }
  }

  /** A call that is added without touching a cell. */
  lemma AddCall(o: Options, calls: seq<Call>, cells: seq<Cell>, pending: map<string, nat>, c: Call)
    requires OptionsOk(o) && Coherent(o, calls, cells, pending)
    requires |c.request| >= 2 && c.key == Key(c.upstream, c.request)
    requires match c.role
             case Waits(x, _) => c.key in pending && pending[c.key] == x
             case Ended(result) => result.Ok? ==> Genuine(calls, c.key, c.request, result.value.0, result.value.1)
             case _ => false
    ensures Coherent(o, calls + [c], cells, pending) && Grown(calls, calls + [c])
  {
    hide Key;
    hide Genuine;
    hide CallOk;
    hide CellOk;
    var calls' := calls + [c];
    forall i | 0 <= i < |calls'|
      ensures CallOk(o, calls', cells, pending, i)
    {
      if i < |calls| {
        CallKept(o, calls, cells, pending, calls', cells, pending, i);
      } else {
        NewCall(o, calls, cells, pending, c);
      }
    }
    forall x | 0 <= x < |cells|
      ensures CellOk(calls', cells, x)
    {
      CellHasLeader(calls, cells, x);
      CellKept(calls, cells, calls', cells, x);
    }
  }

  lemma NewCall(o: Options, calls: seq<Call>, cells: seq<Cell>, pending: map<string, nat>, c: Call)
    requires OptionsOk(o) && Coherent(o, calls, cells, pending)
    requires |c.request| >= 2 && c.key == Key(c.upstream, c.request)
    requires match c.role
             case Waits(x, _) => c.key in pending && pending[c.key] == x
             case Ended(result) => result.Ok? ==> Genuine(calls, c.key, c.request, result.value.0, result.value.1)
             case _ => false
    ensures CallOk(o, calls + [c], cells, pending, |calls|)
  {
    hide Key;
    hide Genuine;
    hide CellOk;
    if c.role.Ended? {
      if c.role.result.Ok? {
        GenuineGrown(calls, calls + [c], c.key, c.request, c.role.result.value.0, c.role.result.value.1);
      }
    } else {
      assert PendingOk(calls, cells, pending, c.key);
    }
  }

  /** `CallStays`, told apart from what a call is. */
  lemma CallKept(o: Options, calls: seq<Call>, cells: seq<Cell>, pending: map<string, nat>,
                 calls': seq<Call>, cells': seq<Cell>, pending': map<string, nat>, i: nat)
    requires OptionsOk(o) && Grown(calls, calls') && i < |calls| && CallOk(o, calls, cells, pending, i)
    requires calls'[i] == calls[i] && cells <= cells'
    requires forall k :: k in pending ==> k in pending' && pending'[k] == pending[k]
    ensures CallOk(o, calls', cells', pending', i)
  {
    hide Key;
    hide Served;
    hide Genuine;
    CallStays(o, calls, cells, pending, calls', cells', pending', i);
  }

  lemma CellKept(calls: seq<Call>, cells: seq<Cell>, calls': seq<Call>, cells': seq<Cell>, x: nat)
    requires x < |cells| && x < |cells'| && cells'[x] == cells[x] && CellOk(calls, cells, x)
    requires cells[x].leader < |calls'| && calls'[cells[x].leader].role == calls[cells[x].leader].role
    ensures CellOk(calls', cells', x)
  {
  }

  /** A call that becomes a leader, with a cell of its own. */
  lemma AddLeader(o: Options, calls: seq<Call>, cells: seq<Cell>, pending: map<string, nat>, c: Call)
    requires OptionsOk(o) && Coherent(o, calls, cells, pending)
    requires |c.request| >= 2 && c.key == Key(c.upstream, c.request)
    requires c.role == Leads(|cells|) && c.key !in pending
    ensures Coherent(o, calls + [c], cells + [Cell(|calls|, false, [], 0, "")], pending[c.key := |cells|])
    ensures Grown(calls, calls + [c])
  {
    hide Key;
    hide CallOk;
    hide CellOk;
    var calls', cells', pending' := calls + [c], cells + [Cell(|calls|, false, [], 0, "")], pending[c.key := |cells|];
    forall i | 0 <= i < |calls'|
      ensures CallOk(o, calls', cells', pending', i)
    {
      if i < |calls| {
        CallKept(o, calls, cells, pending, calls', cells', pending', i);
      } else {
        LeaderIsRight(o, calls', cells', pending', c, i);
      }
    }
    forall x | 0 <= x < |cells'|
      ensures CellOk(calls', cells', x)
    {
      if x < |cells| {
        assert CellOk(calls, cells, x);
        CellHasLeader(calls, cells, x);
        CellKept(calls, cells, calls', cells', x);
      } else {
        CellIsRight(calls', cells', c, x);
      }
    }
  }

  lemma CellHasLeader(calls: seq<Call>, cells: seq<Cell>, x: nat)
    requires x < |cells| && CellOk(calls, cells, x)
    ensures cells[x].leader < |calls|
  {
  }

  lemma LeaderIsRight(o: Options, calls: seq<Call>, cells: seq<Cell>, pending: map<string, nat>, c: Call, i: nat)
    requires OptionsOk(o) && i < |calls| && calls[i] == c && c.role.Leads? && c.role.cell < |cells|
    requires |c.request| >= 2 && c.key == Key(c.upstream, c.request)
    requires cells[c.role.cell].leader == i && !cells[c.role.cell].done && c.key in pending && pending[c.key] == c.role.cell
    ensures CallOk(o, calls, cells, pending, i)
  {
    hide Key;
  }

  lemma CellIsRight(calls: seq<Call>, cells: seq<Cell>, c: Call, x: nat)
    requires x < |cells| && cells[x].leader < |calls| && calls[cells[x].leader] == c && c.role == Leads(x) && !cells[x].done
    ensures CellOk(calls, cells, x)
  {
  }

  /** What a call may be that has changed its role. */
  ghost predicate Turned(o: Options, calls: seq<Call>, c: Call, role: Role)
    requires OptionsOk(o) && |c.request| >= 2
  {
    match role
    case Led(raw, packet, _) => Served(o, c.request, raw, packet)
    case Ended(result) => result.Ok? ==> Genuine(calls, c.key, c.request, result.value.0, result.value.1)
    case _ => false
  }

  lemma CallTurned(o: Options, calls: seq<Call>, cells: seq<Cell>, pending: map<string, nat>,
                   calls': seq<Call>, cells': seq<Cell>, pending': map<string, nat>, i: nat, role: Role)
    requires OptionsOk(o) && Grown(calls, calls') && i < |calls| && CallOk(o, calls, cells, pending, i)
    requires calls'[i] == calls[i].(role := role)
    requires Turned(o, calls, calls[i], role)
    ensures CallOk(o, calls', cells', pending', i)
  {
    hide Key;
    hide Served;
    hide Genuine;
    var c := calls[i];
    if role.Ended? && role.result.Ok? {
      GenuineGrown(calls, calls', c.key, c.request, role.result.value.0, role.result.value.1);
    }
  }

  /** A follower that ends. */
  lemma FollowerEnds(o: Options, calls: seq<Call>, cells: seq<Cell>, pending: map<string, nat>, c: nat, result: Result<(Packet, nat)>)
    requires OptionsOk(o) && Coherent(o, calls, cells, pending)
    requires c < |calls| && calls[c].role.Waits? && |calls[c].request| >= 2
    requires Turned(o, calls, calls[c], Ended(result))
    ensures Coherent(o, calls[c := calls[c].(role := Ended(result))], cells, pending)
    ensures Grown(calls, calls[c := calls[c].(role := Ended(result))])
  {
    hide CallOk;
    hide Turned;
    var calls' := calls[c := calls[c].(role := Ended(result))];
    forall i | 0 <= i < |calls'|
      ensures CallOk(o, calls', cells, pending, i)
    {
      if i == c {
        CallTurned(o, calls, cells, pending, calls', cells, pending, i, Ended(result));
      } else {
        CallKept(o, calls, cells, pending, calls', cells, pending, i);
      }
    }
    forall x | 0 <= x < |cells|
      ensures CellOk(calls', cells, x)
    {
      assert CellOk(calls, cells, x);
    }
  }

  /** The two halves of settling: what becomes of the other calls, and of the cells. */
  lemma OthersSettle(o: Options, calls: seq<Call>, cells: seq<Cell>, pending: map<string, nat>, c: nat,
                     calls': seq<Call>, cell: Cell, i: nat)
    requires OptionsOk(o) && Grown(calls, calls') && i < |calls| && i != c < |calls| && calls'[i] == calls[i]
    requires CallOk(o, calls, cells, pending, i) && CallOk(o, calls, cells, pending, c)
    requires calls[c].role.Leads? && cell.leader == c
    ensures calls[c].role.cell < |cells|
    ensures CallOk(o, calls', cells[calls[c].role.cell := cell], pending - {calls[c].key}, i)
  {
    hide Key;
    hide Served;
    hide Genuine;
    var x := calls[c].role.cell;
    CallStays(o, calls, cells, pending, calls', cells[x := cell], pending - {calls[c].key}, i);
  }

  lemma LeaderHasCell(o: Options, calls: seq<Call>, cells: seq<Cell>, pending: map<string, nat>, c: nat)
    requires OptionsOk(o) && c < |calls| && calls[c].role.Leads? && CallOk(o, calls, cells, pending, c)
    ensures |calls[c].request| >= 2 && calls[c].key == Key(calls[c].upstream, calls[c].request)
    ensures calls[c].role.cell < |cells| && !cells[calls[c].role.cell].done && cells[calls[c].role.cell].leader == c
    ensures calls[c].key in pending && pending[calls[c].key] == calls[c].role.cell
  {
    hide Key;
  }

  /** A leader that is done, its cell filled. */
  lemma LeaderSettles(o: Options, calls: seq<Call>, cells: seq<Cell>, pending: map<string, nat>, c: nat, role: Role, cell: Cell)
    requires OptionsOk(o) && Coherent(o, calls, cells, pending)
    requires c < |calls| && calls[c].role.Leads? && |calls[c].request| >= 2 && Turned(o, calls, calls[c], role)
    requires cell.leader == c && cell.done && Carries(cell, role)
    ensures calls[c].role.cell < |cells|
    ensures Coherent(o, calls[c := calls[c].(role := role)], cells[calls[c].role.cell := cell], pending - {calls[c].key})
    ensures Grown(calls, calls[c := calls[c].(role := role)])
  {
    hide CallOk;
    hide Turned;
    hide Carries;
    hide Key;
    LeaderHasCell(o, calls, cells, pending, c);
    var x := calls[c].role.cell;
    var calls', cells', pending' := calls[c := calls[c].(role := role)], cells[x := cell], pending - {calls[c].key};
    forall i | 0 <= i < |calls'|
      ensures CallOk(o, calls', cells', pending', i)
    {
      if i == c {
        CallTurned(o, calls, cells, pending, calls', cells', pending', i, role);
      } else {
        OthersSettle(o, calls, cells, pending, c, calls', cell, i);
      }
    }
    forall y | 0 <= y < |cells'|
      ensures CellOk(calls', cells', y)
    {
      if y != x {
        assert CellOk(calls, cells, y);
        OtherLeader(calls, cells, c, y);
      }
    }
    forall k | k in pending'
      ensures PendingOk(calls', cells', pending', k)
    {
      assert PendingOk(calls, cells, pending, k);
    }
  }

  /** No other cell has this leader. */
  lemma OtherLeader(calls: seq<Call>, cells: seq<Cell>, c: nat, y: nat)
    requires c < |calls| && calls[c].role.Leads? && y < |cells| && CellOk(calls, cells, y) && y != calls[c].role.cell
    ensures cells[y].leader != c
  {
  }
}
