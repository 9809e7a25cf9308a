/** One call of `Router::exchange_group` in router.cpp: which servers are tried, for how long, and what it leaves behind. */
module FailoverGroup {
  import opened Bytes
  import opened Decimal
  import opened ConfigModel
  import opened RouteKeys
  import opened Failover
  import FallbackGraph
  import Rules

  function HealthKey(id: nat, route: Route): (key: string) { ToText(id) + BAR + RouteKey(route) }

  lemma KeysDiffer(a: nat, b: nat, route: Route)
    requires HealthKey(a, route) == HealthKey(b, route)
    ensures a == b
  {
    hide RouteKey;
    NumberEnds(a, RouteKey(route), b, RouteKey(route));
  }

  /** What the subscript of the health map reads. */
  function Of(health: map<string, Health>, key: string): (h: Health)
  {
    if key in health then health[key] else FRESH
  }

  /** One exchange: the server as it was asked, when this was decided, begun and ended, and what came of it. */
  datatype Attempt = Attempt(server: Server, decided: int, begun: int, ended: int, outcome: Result<Packet>)

  function Least(a: int, b: int): (m: int) { if b < a then b else a }

  /** The whole milliseconds left, but never none. */
  function TimeLeft(deadline: int, now: int): (ms: nat)
    requires now < deadline
  {
    var left := (deadline - now) / MILLISECOND;
    if left < 1 then 1 else left
  }

  function Asked(c: Server, route: Route, deadline: int, now: int): (s: Server)
    requires now < deadline
  {
    c.(route := route, timeout := Least(c.timeout, TimeLeft(deadline, now)))
  }

  function Recorded(health: map<string, Health>, route: Route, a: Attempt): (r: map<string, Health>)
  {
    var key := HealthKey(a.server.id, route);
    match a.outcome
    case Ok(_) => health[key := Succeeded(Of(health, key), (a.ended - a.begun) as real / MILLISECOND as real)]
    case Err(code) => if code == "CANCELLED" then health else health[key := Failed(Of(health, key), a.ended)]
  }

  function AllRecorded(health: map<string, Health>, route: Route, attempts: seq<Attempt>): (r: map<string, Health>)
  {
    if attempts == [] then health
    else Recorded(AllRecorded(health, route, attempts[..|attempts| - 1]), route, attempts[|attempts| - 1])
  }

  ghost predicate DistinctIds(group: seq<Server>)
  {
    forall j, k :: 0 <= j < k < |group| ==> group[j].id != group[k].id
  }

  /** The circuit of a candidate is closed at the time. */
  predicate Ready(health: map<string, Health>, route: Route, c: Server, now: int)
  {
    Of(health, HealthKey(c.id, route)).retryAfter <= now
  }

  predicate Fails(a: Attempt) { a.outcome.Err? && a.outcome.code != "CANCELLED" }

  /** The attempts go through the group in its order, each candidate once at most, and the ones before the last fail. */
  ghost predicate Follows(attempts: seq<Attempt>, tried: seq<nat>, group: seq<Server>, route: Route, deadline: int)
  {
    && |tried| == |attempts|
    && (forall k :: 0 <= k < |tried| ==>
          && tried[k] < |group| && attempts[k].decided < deadline
          && attempts[k].server == Asked(group[tried[k]], route, deadline, attempts[k].decided))
    && (forall j, k :: 0 <= j < k < |tried| ==> tried[j] < tried[k])
    && (forall k :: 0 <= k < |attempts| - 1 ==> Fails(attempts[k]))
  }

  /**
   No server is asked twice. Each is asked over the route of the call, for its own timeout or for the whole milliseconds left
   if those are fewer - but for one at least - and otherwise as it is configured.
   */
  lemma NoServerTwice(attempts: seq<Attempt>, tried: seq<nat>, group: seq<Server>, route: Route, deadline: int)
    requires Follows(attempts, tried, group, route, deadline) && DistinctIds(group)
    ensures forall j, k :: 0 <= j < k < |attempts| ==> attempts[j].server.id != attempts[k].server.id
    ensures forall k :: 0 <= k < |attempts| ==>
              && group[tried[k]].id == attempts[k].server.id
              && attempts[k].server.timeout <= group[tried[k]].timeout
              && (attempts[k].server.timeout <= 1
                  || attempts[k].decided + attempts[k].server.timeout * 1_000_000 <= deadline)
              && (attempts[k].server.timeout < group[tried[k]].timeout ==>
                    attempts[k].decided + (attempts[k].server.timeout + 1) * 1_000_000 > deadline)
              && (attempts[k].server.timeout == 0 ==> group[tried[k]].timeout == 0)
              && attempts[k].server == group[tried[k]].(route := route, timeout := attempts[k].server.timeout)
  {
  }

  /** What an attempt leaves at the server asked: latencies are told in milliseconds, and a cancellation tells nothing. */
  lemma AttemptsTell(health: map<string, Health>, route: Route, a: Attempt)
    ensures var before, after := Of(health, HealthKey(a.server.id, route)), Of(Recorded(health, route, a), HealthKey(a.server.id, route));
            match a.outcome
            case Err(code) =>
              if code == "CANCELLED" then after == before
              else after.failures == (before.failures + 1) % 0x1_0000_0000 && after.latency == before.latency
            case Ok(_) =>
              && after.failures == 0 && after.retryAfter == 0 && after.latency.Some?
              && (before.latency.None? ==> 1_000_000.0 * after.latency.value == (a.ended - a.begun) as real)
  {
    hide HealthKey;
    hide Delay;
  }

  /** An exchange changes the health of its own server only. */
  lemma {:induction false} OthersKeepHealth(health: map<string, Health>, route: Route, attempts: seq<Attempt>, id: nat)
    requires forall k :: 0 <= k < |attempts| ==> attempts[k].server.id != id
    ensures Of(AllRecorded(health, route, attempts), HealthKey(id, route)) == Of(health, HealthKey(id, route))
  {
    hide HealthKey;
    if attempts != [] {
      var last := attempts[|attempts| - 1];
      OthersKeepHealth(health, route, attempts[..|attempts| - 1], id);
      if HealthKey(last.server.id, route) == HealthKey(id, route) {
        KeysDiffer(last.server.id, id, route);
      }
    }
  }

  // ---- The group ----

  function Find(servers: seq<Server>, id: nat): (r: Option<Server>)
    ensures r.Some? ==> r.value in servers && r.value.id == id
    ensures r.None? ==> forall k :: 0 <= k < |servers| ==> servers[k].id != id
  {
    if servers == [] then None else if servers[0].id == id then Some(servers[0]) else Find(servers[1..], id)
  }

  /** The configured servers by ID, the primary standing for itself. */
  function Lookup(servers: seq<Server>, primary: Server, id: nat): (r: Option<Server>)
  {
    if id == primary.id then Some(primary) else Find(servers, id)
  }

  function GroupGraph(servers: seq<Server>, primary: Server): (g: FallbackGraph.Graph)
  {
    Rules.GraphOf(servers)[primary.id as nat := Rules.Widened(primary.fallbacks)]
  }

  /** The candidates are the enabled servers the primary leads to, each once; an enabled primary is the first. */
  ghost predicate IsGroup(servers: seq<Server>, primary: Server, group: seq<Server>)
  {
    && DistinctIds(group)
    && (forall c :: c in group ==> c.enabled && Lookup(servers, primary, c.id) == Some(c)
                                   && FallbackGraph.Reaches(GroupGraph(servers, primary), primary.id, c.id))
    && (forall id: nat :: FallbackGraph.Reaches(GroupGraph(servers, primary), primary.id, id)
          ==> Lookup(servers, primary, id).None? || !Lookup(servers, primary, id).value.enabled
              || Lookup(servers, primary, id).value in group)
    && (primary.enabled ==> group != [] && group[0] == primary)
  }

  function TotalTimeout(group: seq<Server>): (ms: nat)
  {
    if group == [] then 0 else TotalTimeout(group[..|group| - 1]) + group[|group| - 1].timeout
  }

  /** The servers of the graph are those that can be looked up. */
  lemma GraphIsKnown(servers: seq<Server>, primary: Server, id: nat)
    ensures id in GroupGraph(servers, primary) <==> Lookup(servers, primary, id).Some?
  {
    Rules.GraphKeys(servers);
  }

  // ---- Steps of one call ----

  /** The first `i` candidates are dealt with: asked in vain, or passed over while their circuit was open. */
  ghost predicate Progress(health: map<string, Health>, attempts: seq<Attempt>, tried: seq<nat>, group: seq<Server>,
                           route: Route, deadline: int, i: nat, first: int)
  {
    && Follows(attempts, tried, group, route, deadline) && i <= |group|
    && (forall k :: 0 <= k < |tried| ==> tried[k] < i && Fails(attempts[k]))
    && (forall k :: 0 <= k < i && Ready(health, route, group[k], first) ==> k in tried)
  }

  lemma Nothing(health: map<string, Health>, group: seq<Server>, route: Route, deadline: int, first: int)
    ensures Progress(health, [], [], group, route, deadline, 0, first) && AllRecorded(health, route, []) == health
  {
  }

  /** A candidate not asked yet has the health it had at the start, and a circuit once closed stays closed. */
  lemma SeesOldHealth(health: map<string, Health>, attempts: seq<Attempt>, tried: seq<nat>, group: seq<Server>, route: Route,
                      deadline: int, i: nat, first: int, now: int)
    requires Progress(health, attempts, tried, group, route, deadline, i, first) && DistinctIds(group) && first <= now
    requires i < |group|
    ensures forall j :: i <= j < |group| ==>
              Ready(AllRecorded(health, route, attempts), route, group[j], now) == Ready(health, route, group[j], now)
    ensures Ready(health, route, group[i], first) ==> Ready(health, route, group[i], now)
  {
    hide HealthKey;
    hide AllRecorded;
    NoServerTwice(attempts, tried, group, route, deadline);
    forall j | i <= j < |group|
      ensures Ready(AllRecorded(health, route, attempts), route, group[j], now) == Ready(health, route, group[j], now)
    {
      OthersKeepHealth(health, route, attempts, group[j].id);
    }
  }

  lemma StaysReady(health: map<string, Health>, route: Route, c: Server, before: int, now: int)
    requires Ready(health, route, c, before) && before <= now
    ensures Ready(health, route, c, now)
  {
  }

  lemma PassOver(health: map<string, Health>, attempts: seq<Attempt>, tried: seq<nat>, group: seq<Server>, route: Route,
                 deadline: int, i: nat, first: int)
    requires Progress(health, attempts, tried, group, route, deadline, i, first)
    requires i < |group| && !Ready(health, route, group[i], first)
    ensures Progress(health, attempts, tried, group, route, deadline, i + 1, first)
  {
    hide Ready;
    hide Follows;
  }

  lemma AskOne(health: map<string, Health>, attempts: seq<Attempt>, tried: seq<nat>, group: seq<Server>, route: Route,
               deadline: int, a: Attempt, i: nat, first: int)
    requires Progress(health, attempts, tried, group, route, deadline, i, first) && i < |group| && a.decided < deadline
    requires a.server == Asked(group[i], route, deadline, a.decided)
    ensures Follows(attempts + [a], tried + [i], group, route, deadline)
    ensures Fails(a) ==> Progress(health, attempts + [a], tried + [i], group, route, deadline, i + 1, first)
    ensures AllRecorded(health, route, attempts + [a]) == Recorded(AllRecorded(health, route, attempts), route, a)
  {
    hide Asked;
    hide Recorded;
    hide Ready;
    assert (attempts + [a])[..|attempts|] == attempts;
  }

  // ---- The circuit breaker over a call ----

  /** Whether a candidate is to be asked at its turn: its circuit is closed, or no other one's is. */
  ghost predicate MayAsk(health: map<string, Health>, group: seq<Server>, i: nat, route: Route, now: int)
    requires i < |group|
  {
    || Of(health, HealthKey(group[i].id, route)).retryAfter <= now
    || forall j :: 0 <= j < |group| && j != i ==> Of(health, HealthKey(group[j].id, route)).retryAfter > now
  }

  /** The first `m` attempts are those on candidates in front of the `i`-th. */
  ghost predicate SplitsAt(tried: seq<nat>, i: nat, m: nat)
  {
    && m <= |tried| && (forall k :: 0 <= k < m ==> tried[k] < i) && (forall k :: m <= k < |tried| ==> tried[k] >= i)
  }

  /**
   Of the candidates whose turn has come, at the given times, exactly those are asked that may be, by the health that the
   attempts before their turn have left.
   */
  ghost predicate BreakerHeld(health: map<string, Health>, attempts: seq<Attempt>, tried: seq<nat>, group: seq<Server>,
                              route: Route, times: seq<int>)
  {
    && |times| <= |group| && |tried| == |attempts|
    && (forall k :: 0 <= k < |tried| ==> tried[k] < |times| && attempts[k].decided == times[tried[k]])
    && (forall i, m :: 0 <= i < |times| && 0 <= m && SplitsAt(tried, i, m) ==>
          (i in tried <==> MayAsk(AllRecorded(health, route, attempts[..m]), group, i, route, times[i])))
  }

  lemma NoTurnYet(health: map<string, Health>, group: seq<Server>, route: Route)
    ensures BreakerHeld(health, [], [], group, route, [])
  {
  }

  lemma TurnPassed(health: map<string, Health>, attempts: seq<Attempt>, tried: seq<nat>, group: seq<Server>, route: Route,
                   times: seq<int>, now: int)
    requires BreakerHeld(health, attempts, tried, group, route, times) && |times| < |group|
    requires !MayAsk(AllRecorded(health, route, attempts), group, |times|, route, now)
    ensures BreakerHeld(health, attempts, tried, group, route, times + [now])
  {
    hide MayAsk;
    hide AllRecorded;
    var i := |times|;
    forall m | 0 <= m && SplitsAt(tried, i, m)
      ensures attempts[..m] == attempts
    {
      AllInFront(tried, i, m);
    }
  }

  lemma AllInFront(tried: seq<nat>, i: nat, m: nat)
    requires SplitsAt(tried, i, m) && forall k :: 0 <= k < |tried| ==> tried[k] < i
    ensures m == |tried|
  {
    if tried != [] {
      assert tried[|tried| - 1] < i;
    }
  }

  lemma TurnTaken(health: map<string, Health>, attempts: seq<Attempt>, tried: seq<nat>, group: seq<Server>, route: Route,
                  times: seq<int>, now: int, a: Attempt)
    requires BreakerHeld(health, attempts, tried, group, route, times) && |times| < |group| && a.decided == now
    requires MayAsk(AllRecorded(health, route, attempts), group, |times|, route, now)
    ensures BreakerHeld(health, attempts + [a], tried + [|times|], group, route, times + [now])
  {
    hide MayAsk;
    hide AllRecorded;
    var i, more, all := |times|, tried + [|times|], attempts + [a];
    assert more[|tried|] == i && forall k :: 0 <= k < |tried| ==> more[k] == tried[k];
    forall j, m | 0 <= j < i && 0 <= m && SplitsAt(more, j, m)
      ensures SplitsAt(tried, j, m) && all[..m] == attempts[..m] && (j in more <==> j in tried)
    {
      assert m <= |tried|;
    }
    forall m | 0 <= m && SplitsAt(more, i, m)
      ensures all[..m] == attempts
    {
      assert m <= |tried|;
      assert SplitsAt(tried, i, m);
      AllInFront(tried, i, m);
    }
  }

  /** How far a call is: `i` turns have come, the last of them no later than `now`. */
  ghost predicate Underway(health: map<string, Health>, attempts: seq<Attempt>, tried: seq<nat>, group: seq<Server>, route: Route,
                           deadline: int, i: nat, first: int, times: seq<int>, now: int)
  {
    && Progress(health, attempts, tried, group, route, deadline, i, first) && |tried| == |attempts|
    && BreakerHeld(health, attempts, tried, group, route, times) && |times| == i <= |group|
    && InTime(times, first, deadline) && first <= now && forall k :: 0 <= k < |times| ==> times[k] <= now
  }

  lemma Starts(health: map<string, Health>, group: seq<Server>, route: Route, deadline: int, first: int)
    ensures Underway(health, [], [], group, route, deadline, 0, first, [], first) && AllRecorded(health, route, []) == health
  {
    hide Progress;
    hide BreakerHeld;
    Nothing(health, group, route, deadline, first);
    NoTurnYet(health, group, route);
  }

  lemma Passes(health: map<string, Health>, attempts: seq<Attempt>, tried: seq<nat>, group: seq<Server>, route: Route,
               deadline: int, i: nat, first: int, times: seq<int>, before: int, now: int)
    requires Underway(health, attempts, tried, group, route, deadline, i, first, times, before) && before <= now < deadline
    requires i < |group| && !Ready(health, route, group[i], first)
    requires !MayAsk(AllRecorded(health, route, attempts), group, i, route, now)
    ensures Underway(health, attempts, tried, group, route, deadline, i + 1, first, times + [now], now)
  {
    hide Progress;
    hide BreakerHeld;
    hide MayAsk;
    hide Ready;
    hide AllRecorded;
    PassOver(health, attempts, tried, group, route, deadline, i, first);
    TurnPassed(health, attempts, tried, group, route, times, now);
  }

  /** The candidate whose turn it is is asked; what is left then if it fails, and if it does not. */
  lemma Takes(health: map<string, Health>, attempts: seq<Attempt>, tried: seq<nat>, group: seq<Server>, route: Route,
              deadline: int, i: nat, first: int, times: seq<int>, before: int, now: int, a: Attempt)
    requires Underway(health, attempts, tried, group, route, deadline, i, first, times, before) && before <= now < deadline
    requires i < |group| && a.decided == now && a.server == Asked(group[i], route, deadline, now)
    requires MayAsk(AllRecorded(health, route, attempts), group, i, route, now)
    ensures Follows(attempts + [a], tried + [i], group, route, deadline)
    ensures AllRecorded(health, route, attempts + [a]) == Recorded(AllRecorded(health, route, attempts), route, a)
    ensures BreakerHeld(health, attempts + [a], tried + [i], group, route, times + [now]) && InTime(times + [now], first, deadline)
    ensures Fails(a) ==> Underway(health, attempts + [a], tried + [i], group, route, deadline, i + 1, first, times + [now], now)
  {
    hide Progress;
    hide BreakerHeld;
    hide MayAsk;
    hide AllRecorded;
    hide Recorded;
    hide Asked;
    hide Follows;
    AskOne(health, attempts, tried, group, route, deadline, a, i, first);
    TurnTaken(health, attempts, tried, group, route, times, now, a);
  }

  lemma Goes(health: map<string, Health>, attempts: seq<Attempt>, tried: seq<nat>, group: seq<Server>, route: Route,
             deadline: int, i: nat, first: int, times: seq<int>, now: int)
    requires Underway(health, attempts, tried, group, route, deadline, i, first, times, now)
    ensures Progress(health, attempts, tried, group, route, deadline, i, first) && |tried| == |attempts| && |times| == i <= |group|
    ensures BreakerHeld(health, attempts, tried, group, route, times) && InTime(times, first, deadline) && first <= now
  {
    hide Progress;
    hide BreakerHeld;
    hide InTime;
  }

  /** The turns come in order, none before the first look at the clock and none at the deadline or later. */
  ghost predicate InTime(times: seq<int>, first: int, deadline: int)
  {
    && (forall i :: 0 <= i < |times| ==> first <= times[i] < deadline)
    && (forall i, j :: 0 <= i < j < |times| ==> times[i] <= times[j])
  }

  /** Every turn has come, or the last attempt has answered or was cancelled, or the deadline was met at the time `last`. */
  ghost predicate TurnsTaken(r: Result<(Packet, Server)>, tried: seq<nat>, group: seq<Server>, times: seq<int>, last: int, deadline: int)
  {
    if r.Err? && r.code != "CANCELLED" then |times| == |group| || last >= deadline
    else |tried| > 0 && tried[|tried| - 1] == |times| - 1
  }

  /** Entries were added for the candidates, after dropping all others when there were too many. */
  ghost predicate WithEntries(before: map<string, Health>, after: map<string, Health>, group: seq<Server>)
  {
    forall key :: Of(after, key) == if |before| + |group| > 8192 then FRESH else Of(before, key)
  }

  // ---- The call ----

  class Upstreams {
    const servers: seq<Server>
    var health: map<string, Health>

    constructor (servers: seq<Server>)
      ensures this.servers == servers && health == map[]
    {
      this.servers := servers;
      health := map[];
    }

    /** Expands the primary and drops what is disabled. Fallbacks that name no server are passed over. */
    method Candidates(primary: Server) returns (group: seq<Server>)
      ensures IsGroup(servers, primary, group)
    {
      hide FallbackGraph.Reaches;
      var ids := FallbackGraph.FallbackGroup(GroupGraph(servers, primary), primary.id);
      hide GroupGraph;
      group := [];
      var i: nat := 0;
      while i < |ids|
        invariant i <= |ids|
        invariant forall c :: c in group ==> c.enabled && Lookup(servers, primary, c.id) == Some(c) && c.id in ids[..i]
        invariant forall k :: 0 <= k < i ==>
                    && Lookup(servers, primary, ids[k]).Some?
                    && (Lookup(servers, primary, ids[k]).value.enabled ==> Lookup(servers, primary, ids[k]).value in group)
        invariant DistinctIds(group)
        invariant primary.enabled && i > 0 ==> group != [] && group[0] == primary
      {
        GraphIsKnown(servers, primary, ids[i]);
        var found := Lookup(servers, primary, ids[i]).value;
        if found.enabled {
          group := group + [found];
        }
        i := i + 1;
      }
      forall id: nat | Lookup(servers, primary, id).Some? && FallbackGraph.Reaches(GroupGraph(servers, primary), primary.id, id)
        ensures id in ids
      {
        GraphIsKnown(servers, primary, id);
      }
    }

    /** The time for the whole call: what the candidates may take one after the other, two minutes at most. */
    method Budget(group: seq<Server>) returns (ms: nat)
      ensures ms == Least(120_000, TotalTimeout(group))
    {
      ms := 0;
      var i: nat := 0;
      while i < |group|
        invariant i <= |group|
        invariant ms == Least(MAX_BUDGET, TotalTimeout(group[..i]))
      {
        assert group[..i + 1][..i] == group[..i];
        ms := Least(MAX_BUDGET, ms + group[i].timeout);
        i := i + 1;
      }
      assert group[..i] == group;
    }

    /** Makes room if need be, and an entry for every candidate that has none. */
    method Register(group: seq<Server>, route: Route)
      modifies this`health
      ensures forall c :: c in group ==> HealthKey(c.id, route) in health
      ensures WithEntries(old(health), health, group)
    {
      hide HealthKey;
      if |health| + |group| > MAX_HEALTH {
        health := map[];
      }
      ghost var cleared := health;
      var i: nat := 0;
      while i < |group|
        invariant i <= |group|
        invariant forall k :: 0 <= k < i ==> HealthKey(group[k].id, route) in health
        invariant forall key :: Of(health, key) == Of(cleared, key)
      {
        var key := HealthKey(group[i].id, route);
        if key !in health {
          health := health[key := FRESH];
        }
        i := i + 1;
      }
    }

    /** One exchange with a candidate, and what its health entry learns from it. */
    method Exchange(candidate: Server, route: Route, deadline: int, now: int, clock: nat -> int, tick: nat, outcome: Result<Packet>)
      returns (a: Attempt, tick': nat)
      requires now < deadline
      modifies this`health
      ensures a.server == Asked(candidate, route, deadline, now) && a.decided == now && a.outcome == outcome
      ensures a.begun == clock(tick) && tick < tick' && (outcome.Ok? ==> a.ended == clock(tick + 1))
      ensures health == Recorded(old(health), route, a)
    {
      hide HealthKey;
      var asked := Asked(candidate, route, deadline, now);
      var begun := clock(tick);
      var key := HealthKey(candidate.id, route);
      tick' := tick + 1;
      a := Attempt(asked, now, begun, begun, outcome);
      match outcome {
        case Ok(_) =>
          var ended := clock(tick');
          tick' := tick' + 1;
          a := a.(ended := ended);
          health := health[key := Succeeded(Of(health, key), (ended - begun) as real / MILLISECOND as real)];
        case Err(code) =>
          if code != CANCELLED {
            var failures := (Of(health, key).failures + 1) % UINT32_LIMIT;
            if failures >= 2 {
              a := a.(ended := clock(tick'));
              tick' := tick' + 1;
              health := health[key := Health(failures, a.ended + Delay(failures) * SECOND, Of(health, key).latency)];
            } else {
              health := health[key := Of(health, key).(failures := failures)];
            }
          }
      }
    }
  
    /** Some candidate other than this one has a closed circuit. */
    predicate AnotherReady(group: seq<Server>, i: nat, route: Route, now: int)
      requires i < |group|
      reads this`health
    {
      exists k :: 0 <= k < |group| && k != i && Ready(health, route, group[k], now)
    }

    /** The test of the source is the test stated. */
    lemma AsksWhenMay(health: map<string, Health>, group: seq<Server>, i: nat, route: Route, now: int)
      requires i < |group|
      ensures MayAsk(health, group, i, route, now) <==>
                Ready(health, route, group[i], now) || !exists k :: 0 <= k < |group| && k != i && Ready(health, route, group[k], now)
    {
      hide HealthKey;
    }

    /**
     Asks one candidate after the other until one answers. At the time its turn comes a candidate is asked exactly when its
     circuit is closed or no other one's is. Unless the deadline was reached, a call that fails has asked every candidate whose
     circuit was closed at the first look at the clock, and no call has asked nobody.
     */
    method TryInOrder(group: seq<Server>, route: Route, deadline: int, clock: nat -> int, tick: nat, upstream: nat -> Result<Packet>)
      returns (r: Result<(Packet, Server)>, attempts: seq<Attempt>, ghost tried: seq<nat>, ghost times: seq<int>, tick': nat)
      requires DistinctIds(group) && forall i, j :: 0 <= i <= j ==> clock(i) <= clock(j)
      modifies this`health
      ensures Follows(attempts, tried, group, route, deadline) && Answers(r, attempts, tried, group)
      ensures forall k :: 0 <= k < |attempts| ==> attempts[k].outcome == upstream(k)
      ensures health == AllRecorded(old(health), route, attempts)
      ensures tick <= tick' && (group != [] ==> tick < tick')
      ensures tick < tick' && clock(tick' - 1) < deadline && r.Err? && r.code != "CANCELLED" ==>
                forall k :: 0 <= k < |group| && Ready(old(health), route, group[k], clock(tick)) ==> k in tried
      ensures group != [] && attempts == [] ==> clock(tick' - 1) >= deadline
      ensures BreakerHeld(old(health), attempts, tried, group, route, times) && InTime(times, clock(tick), deadline)
      ensures group != [] ==> TurnsTaken(r, tried, group, times, clock(tick' - 1), deadline)
    {
      hide HealthKey;
      hide Progress;
      hide Follows;
      hide AllRecorded;
      hide Ready;
      hide Recorded;
      hide DistinctIds;
      hide Asked;
      hide BreakerHeld;
      hide MayAsk;
      hide InTime;
      hide Underway;
      var code := UNAVAILABLE;
      attempts, tried, times, tick' := [], [], [], tick;
      ghost var pledge: nat := 0;
      ghost var h, first, last := health, clock(tick), clock(tick);
      Starts(h, group, route, deadline, first);
      var i: nat := 0;
      while i < |group|
        invariant Underway(h, attempts, tried, group, route, deadline, i, first, times, last) && i <= |group| && |tried| == |attempts|
        invariant forall k :: 0 <= k < |attempts| ==> attempts[k].outcome == upstream(k)
        invariant if attempts == [] then code == UNAVAILABLE else attempts[|attempts| - 1].outcome == Err(code)
        invariant health == AllRecorded(h, route, attempts) && |times| == i
        invariant tick <= tick' && (i > 0 ==> tick < tick') && last <= clock(tick')
        invariant attempts == [] && i > 0 ==>
                    i <= pledge < |group| && Ready(h, route, group[pledge], clock(tick' - 1))
      {
        var now := clock(tick');
        tick' := tick' + 1;
        if now >= deadline {
          break;
        }
        Goes(h, attempts, tried, group, route, deadline, i, first, times, last);
        SeesOldHealth(h, attempts, tried, group, route, deadline, i, first, now);
        AsksWhenMay(health, group, i, route, now);
        if !Ready(health, route, group[i], now) && AnotherReady(group, i, route, now) {
          if i == 0 {
            pledge :| 0 <= pledge < |group| && pledge != i && Ready(health, route, group[pledge], now);
          } else if attempts == [] {
            StaysReady(h, route, group[pledge], clock(tick' - 2), now);
          }
          Passes(h, attempts, tried, group, route, deadline, i, first, times, last, now);
          times, last := times + [now], now;
          i := i + 1;
          continue;
        }
        var a, next := Exchange(group[i], route, deadline, now, clock, tick', upstream(|attempts|));
        tick' := next;
        Takes(h, attempts, tried, group, route, deadline, i, first, times, last, now, a);
        attempts, tried, times, last := attempts + [a], tried + [i], times + [now], now;
        match a.outcome {
          case Ok(packet) => return Ok((packet, group[i])), attempts, tried, times, tick';
          case Err(reason) =>
            if reason == CANCELLED {
              return Err(CANCELLED), attempts, tried, times, tick';
            }
            code := reason;
        }
        i := i + 1;
      }
      Goes(h, attempts, tried, group, route, deadline, i, first, times, last);
      Exhausted(h, attempts, tried, group, route, deadline, i, first);
      r := Err(code);
    }

    /**
     The whole call. The sort is given the health of the candidates, whether one of them is ready, and the time; it sorts
     stably wherever the comparator is a strict weak order, and may leave any permutation elsewhere. Each look at the clock has
     the next index.
     */
    method ExchangeGroup(primary: Server, sorter: (seq<Health>, bool, int) -> seq<nat>,
                         clock: nat -> int, upstream: nat -> Result<Packet>)
      returns (r: Result<(Packet, Server)>, attempts: seq<Attempt>, looks: nat,
               ghost group: seq<Server>, ghost order: seq<Server>, ghost tried: seq<nat>, ghost times: seq<int>,
               ghost registered: map<string, Health>)
      requires forall i, j :: 0 <= i <= j ==> clock(i) <= clock(j)
      requires SortsStably(sorter)
      modifies this`health
      ensures primary.id == 0 || primary.fallbacks == [] ==>
                && health == old(health) && attempts == [Attempt(primary, 0, 0, 0, upstream(0))]
                && r == match upstream(0) { case Ok(packet) => Ok((packet, primary)) case Err(code) => Err(code) }
      ensures primary.id != 0 && primary.fallbacks != [] ==> IsGroup(servers, primary, group)
      ensures primary.id != 0 && primary.fallbacks != [] && group == [] ==>
                r == Err("SERVER_DISABLED") && attempts == [] && health == old(health)
      ensures primary.id != 0 && primary.fallbacks != [] && group != [] ==>
                var deadline := clock(0) + Least(120_000, TotalTimeout(group)) * 1_000_000;
                && Reordered(order, group) && looks > 2 && Arrangement(order, group, registered, primary.route, clock(1))
                && WithEntries(old(health), registered, group) && health == AllRecorded(registered, primary.route, attempts)
                && (forall k :: 0 <= k < |attempts| ==> attempts[k].outcome == upstream(k))
                && Follows(attempts, tried, order, primary.route, deadline) && Answers(r, attempts, tried, order)
                && BreakerHeld(registered, attempts, tried, order, primary.route, times) && InTime(times, clock(2), deadline)
                && TurnsTaken(r, tried, order, times, clock(looks - 1), deadline)
                && (clock(looks - 1) < deadline ==> attempts != [])
                && (clock(looks - 1) < deadline && r.Err? && r.code != "CANCELLED" ==>
                      AskedAll(old(health), group, order, tried, primary.route, clock(2)))
    {
      hide HealthKey;
      hide IsGroup;
      hide Follows;
      hide Permutes;
      hide BreakerHeld;
      attempts, looks, group, order, tried, times, registered := [], 0, [], [], [], [], health;
      if primary.id == 0 || primary.fallbacks == [] {
        attempts := [Attempt(primary, 0, 0, 0, upstream(0))];
        match upstream(0) {
          case Ok(packet) => r := Ok((packet, primary));
          case Err(code) => r := Err(code);
        }
        return;
      }
      var candidates := Candidates(primary);
      group := candidates;
      if candidates == [] {
        r := Err("SERVER_DISABLED");
        return;
      }
      GroupIds(servers, primary, group);
      var budget := Budget(candidates);
      r, attempts, looks, order, tried, times, registered :=
        ExchangeAmong(candidates, primary.route, clock(0) + budget * MILLISECOND, sorter, clock, upstream);
    }

    /** The part behind the choice of candidates, when there are any. */
    method ExchangeAmong(group: seq<Server>, route: Route, deadline: int,
                         sorter: (seq<Health>, bool, int) -> seq<nat>,
                         clock: nat -> int, upstream: nat -> Result<Packet>)
      returns (r: Result<(Packet, Server)>, attempts: seq<Attempt>, looks: nat,
               ghost order: seq<Server>, ghost tried: seq<nat>, ghost times: seq<int>, ghost registered: map<string, Health>)
      requires DistinctIds(group) && group != []
      requires forall i, j :: 0 <= i <= j ==> clock(i) <= clock(j)
      requires SortsStably(sorter)
      modifies this`health
      ensures Reordered(order, group) && looks > 2 && Arrangement(order, group, registered, route, clock(1))
      ensures WithEntries(old(health), registered, group) && health == AllRecorded(registered, route, attempts)
      ensures forall k :: 0 <= k < |attempts| ==> attempts[k].outcome == upstream(k)
      ensures Follows(attempts, tried, order, route, deadline) && Answers(r, attempts, tried, order)
      ensures BreakerHeld(registered, attempts, tried, order, route, times) && InTime(times, clock(2), deadline)
      ensures TurnsTaken(r, tried, order, times, clock(looks - 1), deadline)
      ensures clock(looks - 1) < deadline ==> attempts != []
      ensures clock(looks - 1) < deadline && r.Err? && r.code != "CANCELLED" ==>
                AskedAll(old(health), group, order, tried, route, clock(2))
    {
      hide HealthKey;
      hide Follows;
      hide Answers;
      hide Permutes;
      hide DistinctIds;
      hide AskedAll;
      hide Reordered;
      hide WithEntries;
      hide AllRecorded;
      Register(group, route);
      registered := health;
      var entries, now := States(health, group, route), clock(1);
      var anyReady := exists k :: 0 <= k < |entries| && entries[k].retryAfter <= now;
      SortedInTurn(sorter, entries, anyReady, now);
      var places := sorter(entries, anyReady, now);
      var arranged := Arranged(group, places);
      order := arranged;
      IsArranged(group, places, registered, route, anyReady, now);
      IsReordered(group, places);
      ReorderedKeepsIds(order, group);
      hide BreakerHeld;
      r, attempts, tried, times, looks := TryInOrder(arranged, route, deadline, clock, 2, upstream);
      if clock(looks - 1) < deadline && r.Err? && r.code != CANCELLED {
        AllReadyAsked(old(health), registered, group, order, tried, route, clock(2));
      }
    }
  }

  /** Every candidate whose circuit was closed once the candidates had their entries was asked. */
  ghost predicate AskedAll(health: map<string, Health>, group: seq<Server>, order: seq<Server>, tried: seq<nat>, route: Route, now: int)
  {
    forall c :: c in group && ReadyAtStart(health, group, route, c, now) ==>
      exists k :: 0 <= k < |tried| && tried[k] < |order| && order[tried[k]] == c
  }

  lemma AllReadyAsked(health: map<string, Health>, registered: map<string, Health>, group: seq<Server>, order: seq<Server>,
                      tried: seq<nat>, route: Route, now: int)
    requires Reordered(order, group) && DistinctIds(group)
    requires WithEntries(health, registered, group)
    requires forall k :: 0 <= k < |order| && Ready(registered, route, order[k], now) ==> k in tried
    ensures AskedAll(health, group, order, tried, route, now)
  {
    hide Reordered;
    hide HealthKey;
    ReorderedKeepsIds(order, group);
    forall c | c in group && ReadyAtStart(health, group, route, c, now)
      ensures exists k :: 0 <= k < |tried| && tried[k] < |order| && order[tried[k]] == c
    {
      var i :| 0 <= i < |order| && order[i] == c;
      assert Ready(registered, route, order[i], now);
    }
  }

  /** The health of each candidate. */
  function States(health: map<string, Health>, group: seq<Server>, route: Route): (r: seq<Health>)
    ensures |r| == |group| && forall k :: 0 <= k < |group| ==> r[k] == Of(health, HealthKey(group[k].id, route))
  {
    seq(|group|, k requires 0 <= k < |group| => Of(health, HealthKey(group[k].id, route)))
  }

  /** The order in which the candidates are tried, by their health at the time of the sort. */
  ghost predicate Arrangement(order: seq<Server>, group: seq<Server>, health: map<string, Health>, route: Route, now: int)
  {
    exists places :: Permutes(places, |group|) && order == Arranged(group, places)
      && InTurn(places, States(health, group, route), AnyReady(health, group, route, now), now)
  }

  ghost predicate AnyReady(health: map<string, Health>, group: seq<Server>, route: Route, now: int)
  {
    exists k :: 0 <= k < |group| && Ready(health, route, group[k], now)
  }

  lemma IsArranged(group: seq<Server>, places: seq<nat>, health: map<string, Health>, route: Route, anyReady: bool, now: int)
    requires Permutes(places, |group|) && InTurn(places, States(health, group, route), anyReady, now)
    requires anyReady <==> exists k :: 0 <= k < |group| && States(health, group, route)[k].retryAfter <= now
    ensures Arrangement(Arranged(group, places), group, health, route, now)
  {
    hide Permutes;
    hide InTurn;
    hide Arranged;
    hide HealthKey;
    hide States;
    var states := States(health, group, route);
    forall k | 0 <= k < |group|
      ensures Ready(health, route, group[k], now) <==> states[k].retryAfter <= now
    {
    }
    assert anyReady == AnyReady(health, group, route, now);
  }

  /**
   Where the order is not confused by unknown latencies and some circuit is closed at the sort, the first candidate asked is
   the first of the order: of the least rank, and of the least latency in it, as far as latencies are known.
   */
  lemma BestIsAskedFirst(order: seq<Server>, group: seq<Server>, health: map<string, Health>, route: Route, now: int,
                         attempts: seq<Attempt>, tried: seq<nat>, times: seq<int>, deadline: int)
    requires Arrangement(order, group, health, route, now) && AnyReady(health, group, route, now)
    requires !Confusing(States(health, group, route), true, now)
    requires Follows(attempts, tried, order, route, deadline) && BreakerHeld(health, attempts, tried, order, route, times)
    requires times != [] && now <= times[0]
    ensures attempts != [] && attempts[0].server.id == order[0].id
    ensures var first := Of(health, HealthKey(order[0].id, route));
            && first.retryAfter <= now
            && forall c :: c in group ==>
                 var other := Of(health, HealthKey(c.id, route));
                 && Rank(first, true, now) <= Rank(other, true, now)
                 && (Rank(first, true, now) == Rank(other, true, now) && first.latency.Some? && other.latency.Some? ==>
                       first.latency.value <= other.latency.value)
  {
    hide HealthKey;
    hide Confusing;
    hide AllRecorded;
    hide Permutes;
    hide GoesFirst;
    hide Rank;
    hide Arranged;
    FirstGoesFirst(order, group, health, route, now);
    assert SplitsAt(tried, 0, 0);
    assert attempts[..0] == [] && AllRecorded(health, route, []) == health by { NothingRecorded(health, route); }
  }

  lemma NothingRecorded(health: map<string, Health>, route: Route)
    ensures AllRecorded(health, route, []) == health
  {
  }

  lemma FirstGoesFirst(order: seq<Server>, group: seq<Server>, health: map<string, Health>, route: Route, now: int)
    requires Arrangement(order, group, health, route, now) && AnyReady(health, group, route, now)
    requires !Confusing(States(health, group, route), true, now)
    ensures order != [] && Of(health, HealthKey(order[0].id, route)).retryAfter <= now
    ensures var first := Of(health, HealthKey(order[0].id, route));
            forall c :: c in group ==>
              var other := Of(health, HealthKey(c.id, route));
              && Rank(first, true, now) <= Rank(other, true, now)
              && (Rank(first, true, now) == Rank(other, true, now) && first.latency.Some? && other.latency.Some? ==>
                    first.latency.value <= other.latency.value)
  {
    hide HealthKey;
    hide Confusing;
    hide States;
    var states := States(health, group, route);
    var places :| Permutes(places, |group|) && order == Arranged(group, places) && InTurn(places, states, true, now);
    var first := states[places[0]];
    forall k | 0 <= k < |group|
      ensures Rank(first, true, now) <= Rank(states[k], true, now)
      ensures Rank(first, true, now) == Rank(states[k], true, now) && first.latency.Some? && states[k].latency.Some? ==>
                first.latency.value <= states[k].latency.value
    {
      assert k in places;
      var i :| 0 <= i < |places| && places[i] == k;
      assert i > 0 ==> GoesFirst(states[places[0]], places[0], states[places[i]], places[i], true, now);
    }
    var ready :| 0 <= ready < |group| && Ready(health, route, group[ready], now);
    assert Rank(states[ready], true, now) < 2;
  }

  lemma IsReordered(group: seq<Server>, places: seq<nat>)
    requires Permutes(places, |group|)
    ensures Reordered(Arranged(group, places), group)
  {
  }

  function Arranged(group: seq<Server>, places: seq<nat>): (order: seq<Server>)
    requires Permutes(places, |group|)
  {
    seq(|places|, k requires 0 <= k < |places| => group[places[k]])
  }

  /** The same candidates, each at one place again. */
  ghost predicate Reordered(order: seq<Server>, group: seq<Server>)
  {
    exists places :: Permutes(places, |group|) && order == Arranged(group, places)
  }

  lemma GroupIds(servers: seq<Server>, primary: Server, group: seq<Server>)
    requires IsGroup(servers, primary, group)
    ensures DistinctIds(group)
  {
  }

  lemma ReorderedKeepsIds(order: seq<Server>, group: seq<Server>)
    requires Reordered(order, group) && DistinctIds(group)
    ensures DistinctIds(order) && |order| == |group| && forall c :: c in group ==> c in order
  {
    var places :| Permutes(places, |group|) && order == Arranged(group, places);
    forall j, k | 0 <= j < k < |order|
      ensures order[j].id != order[k].id
    {
      assert places[j] != places[k];
    }
    forall c | c in group
      ensures c in order
    {
      var i :| 0 <= i < |group| && group[i] == c;
      assert i in places;
      var k :| 0 <= k < |places| && places[k] == i;
      assert order[k] == c;
    }
  }

  /** Whether the circuit of a candidate is closed once the candidates have their entries. */
  predicate ReadyAtStart(health: map<string, Health>, group: seq<Server>, route: Route, c: Server, now: int)
  {
    if |health| + |group| > MAX_HEALTH then FRESH.retryAfter <= now else Ready(health, route, c, now)
  }

  lemma Exhausted(health: map<string, Health>, attempts: seq<Attempt>, tried: seq<nat>, group: seq<Server>, route: Route,
                  deadline: int, i: nat, first: int)
    requires Progress(health, attempts, tried, group, route, deadline, i, first)
    ensures Follows(attempts, tried, group, route, deadline)
    ensures forall k :: 0 <= k < |attempts| ==> Fails(attempts[k])
    ensures forall k :: 0 <= k < i && Ready(health, route, group[k], first) ==> k in tried
  {
  }

  /** The result is what the last attempt brought, or its failure; without attempts the group is unavailable. */
  ghost predicate Answers(r: Result<(Packet, Server)>, attempts: seq<Attempt>, tried: seq<nat>, group: seq<Server>)
    requires |tried| == |attempts| && forall k :: 0 <= k < |tried| ==> tried[k] < |group|
  {
    if attempts == [] then r == Err("UPSTREAM_UNAVAILABLE")
    else
      var last := |attempts| - 1;
      match attempts[last].outcome
      case Ok(packet) => r == Ok((packet, group[tried[last]]))
      case Err(code) => r == Err(code)
  }
}
