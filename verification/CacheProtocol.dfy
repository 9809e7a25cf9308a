/**
 The cache and the coalescing of requests as a protocol: `Router::exchange_cached` in router.cpp, one step for each
 locked region. The upstream exchange between two steps of a leader brings any reply or error.
 */
module CacheProtocol {
  import opened Bytes
  import opened ConfigModel
  import opened DnsQuestion
  import opened DnsAgeing
  import opened DnsResponse
  import opened DnsClamping
  import opened CacheKey
  import opened CacheLedger

  const SECOND := 1_000_000_000
  const MAX_PENDING := 256
  const MAX_TTL := 86400
  const PATIENCE := 120 * SECOND

  /** What has become of a call. */
  datatype Role =
    | Leads(cell: nat)                                // asking upstream for itself and for all who wait on the cell
    | Waits(cell: nat, deadline: int)
    | Led(raw: Packet, packet: Packet, server: nat)   // answered from upstream: the reply, and the reply with its TTLs bounded
    | Ended(result: Result<(Packet, nat)>)            // any other end

  datatype Call = Call(upstream: Upstream, request: Packet, key: string, role: Role)

  /** A request in flight, as its leader and its followers share it. Nothing but the proofs looks at `leader`. */
  datatype Cell = Cell(leader: nat, done: bool, packet: Packet, server: nat, error: string)

  /** The shared state, and the calls ever made. */
  datatype State = State(
    options: Options,
    now: int,
    cache: Cache,
    bytes: int,
    pending: map<string, nat>,
    cells: seq<Cell>,
    calls: seq<Call>)

  function Initial(o: Options): State { State(o, 0, map[], 0, map[], [], []) }

  predicate OptionsOk(o: Options) { o.ttlMin <= o.ttlMax <= TTL_LIMIT }

  // ---- The steps ----

  /** What a leader makes of the upstream reply. */
  ghost function Outcome(o: Options, request: Packet, reply: Result<(Packet, nat)>): (r: Result<(Packet, Answer)>)
    requires OptionsOk(o)
  {
    var (raw, server) :- reply;
    var packet :- ClampedResponse(raw, o.ttlMin, o.ttlMax);
    var wanted :- QuestionOf(request);
    var answer :- ResponseOf(packet, wanted);
    Ok((packet, answer))
  }

  /** The whole seconds an entry has been stored; the clock never runs back behind that moment. */
  function Elapsed(e: Entry, now: int): (seconds: nat)
  {
    if now < e.stored then 0 else (now - e.stored) / SECOND
  }

  /** A packet as another caller gets it. */
  ghost function Handed(packet: Packet, server: nat, request: Packet, elapsed: nat): (r: Result<(Packet, nat)>)
    requires |request| >= 2
  {
    var p :- AgedResponse(packet, Word(request, 0), elapsed);
    Ok((p, server))
  }

  /** The expired entries are gone, and their sizes from the counter. */
  ghost function Swept(s: State, now: int): (r: State)
  {
    var cache := Fresh(s.cache, now);
    s.(now := now, cache := cache, bytes := s.bytes - (Total(s.cache) - Total(cache)))
  }

  function Made(s: State, u: Upstream, request: Packet, role: Role): (r: State)
    requires |request| >= 2
  {
    s.(calls := s.calls + [Call(u, request, Key(u, request), role)])
  }

  /** A call looks for a cached response, a leader to join or a place to lead. `later` is the second look at the clock. */
  ghost predicate Lookup(s: State, u: Upstream, request: Packet, now: int, later: int, r: State)
    requires |request| >= 2
  {
    var key := Key(u, request);
    var t := Swept(s, now);
    if key in t.cache then
      r == Made(t, u, request, Ended(Handed(t.cache[key].packet, t.cache[key].server, request, Elapsed(t.cache[key], now))))
    else if key in t.pending then
      r == Made(t.(now := later), u, request, Waits(t.pending[key], later + PATIENCE))
    else if |t.pending| >= MAX_PENDING then
      r == Made(t, u, request, Ended(Err("UPSTREAM_BUSY")))
    else
      r == Made(t.(pending := t.pending[key := |t.cells|], cells := t.cells + [Cell(|t.calls|, false, [], 0, "")]),
                u, request, Leads(|t.cells|))
  }

  /** The cell is filled, and what was in flight under the key is no longer. */
  function Settled(s: State, c: nat, role: Role, cell: Cell): (r: State)
    requires c < |s.calls| && s.calls[c].role.Leads? && s.calls[c].role.cell < |s.cells|
  {
    s.(cells := s.cells[s.calls[c].role.cell := cell],
       calls := s.calls[c := s.calls[c].(role := role)],
       pending := s.pending - {s.calls[c].key})
  }

  function Stored(packet: Packet, ttl: nat, now: int, server: nat): (e: Entry)
  {
    Entry(packet, now, now + Min(ttl, MAX_TTL) * SECOND, server)
  }

  /** A leader is back from upstream. */
  ghost predicate Finish(s: State, c: nat, reply: Result<(Packet, nat)>, now: int, r: State)
    requires OptionsOk(s.options) && c < |s.calls| && s.calls[c].role.Leads? && s.calls[c].role.cell < |s.cells|
  {
    match Outcome(s.options, s.calls[c].request, reply)
    case Err(code) => r == Settled(s, c, Ended(Err(code)), Cell(c, true, [], 0, code))
    case Ok((packet, answer)) =>
      var server := reply.value.1;
      var t := Settled(s, c, Led(reply.value.0, packet, server), Cell(c, true, packet, server, "")).(now := now);
      if !answer.cacheable then r == t
      else
        var e, key := Stored(packet, answer.cacheTtl, now, server), s.calls[c].key;
        exists room: Cache ::
          && Evicted(s.cache, Size(key, e), room)
          && r == t.(cache := room[key := e], bytes := s.bytes - (Total(s.cache) - Total(room)) + Size(key, e))
  }

  /** What a filled cell says to a follower. */
  ghost function Delivered(cell: Cell, request: Packet): (r: Result<(Packet, nat)>)
    requires |request| >= 2
  {
    if cell.error != "" then Err(cell.error) else Handed(cell.packet, cell.server, request, 0)
  }

  /** A follower is back from waiting: it gives up, takes what the cell holds, or waits on. */
  ghost predicate Wake(s: State, c: nat, cancelled: bool, now: int, r: State)
    requires c < |s.calls| && s.calls[c].role.Waits? && s.calls[c].role.cell < |s.cells| && |s.calls[c].request| >= 2
  {
    var call := s.calls[c];
    var cell := s.cells[call.role.cell];
    if cancelled then r == s.(calls := s.calls[c := call.(role := Ended(Err("CANCELLED")))])
    else
      var t := s.(now := now);
      if now >= call.role.deadline then r == t.(calls := s.calls[c := call.(role := Ended(Err("TIMEOUT")))])
      else if cell.done then r == t.(calls := s.calls[c := call.(role := Ended(Delivered(cell, call.request)))])
      else r == t
  }
}
