/** Failover inside a group of fallback servers: `Router::exchange_group` in router.cpp. Times are in nanoseconds. */
module Failover {
  import opened Bytes
  import opened Decimal
  import opened ConfigModel
  import opened RouteKeys
  import FallbackGraph
  import Rules

  const MILLISECOND := 1_000_000
  const SECOND := 1_000_000_000
  const MAX_BUDGET := 120_000
  const MAX_HEALTH := 8192
  const CANCELLED := "CANCELLED"
  const UNAVAILABLE := "UPSTREAM_UNAVAILABLE"

  // ---- The circuit breaker of one server on one route ----

  datatype Health = Health(failures: uint32, retryAfter: int, latency: Option<real>)

  const FRESH := Health(0, 0, None)

  function Shifted(n: nat, places: nat): (r: nat)
  {
    if places == 0 then n else 2 * Shifted(n, places - 1)
  }

  /** How many seconds a server is avoided after so many failures in a row. */
  function Delay(failures: nat): (seconds: nat)
    requires failures >= 2
    ensures failures == 2 ==> seconds == 30
    ensures failures == 3 ==> seconds == 60
    ensures failures == 4 ==> seconds == 120
    ensures failures >= 5 ==> seconds == 240
  {
    var places := if failures - 2 < 3 then failures - 2 else 3;
    assert Shifted(30, 0) == 30;
    assert Shifted(30, 1) == 60;
    assert Shifted(30, 2) == 120;
    assert Shifted(30, 3) == 240;
    Shifted(30, places)
  }

  function Succeeded(h: Health, elapsed: real): (r: Health)
  {
    Health(0, 0, Some(if h.latency.Some? then h.latency.value * 0.8 + elapsed * 0.2 else elapsed))
  }

  /**
   A success clears the failures and the delay; the latency moves a fifth of the way from what it was to what was measured,
   and starts at the first measurement.
   */
  lemma LatencyMoves(h: Health, elapsed: real)
    ensures Succeeded(h, elapsed).failures == 0 && Succeeded(h, elapsed).retryAfter == 0 && Succeeded(h, elapsed).latency.Some?
    ensures h.latency.None? ==> Succeeded(h, elapsed).latency.value == elapsed
    ensures h.latency.Some? ==> 5.0 * (Succeeded(h, elapsed).latency.value - h.latency.value) == elapsed - h.latency.value
  {
  }

  function Failed(h: Health, now: int): (r: Health)
  {
    var failures := (h.failures + 1) % UINT32_LIMIT;
    Health(failures, if failures >= 2 then now + Delay(failures) * SECOND else h.retryAfter, h.latency)
  }

  /** What happens to an entry: it is dropped and made anew, or an exchange through it ends. */
  datatype Event = Reset | Success(elapsed: real) | Failure(now: nat)

  function Next(h: Health, e: Event): (r: Health)
  {
    match e
    case Reset => FRESH
    case Success(elapsed) => Succeeded(h, elapsed)
    case Failure(now) => Failed(h, now)
  }

  function After(events: seq<Event>): (h: Health)
  {
    if events == [] then FRESH else Next(After(events[..|events| - 1]), events[|events| - 1])
  }

  /** How many failures there were since the last success or reset. */
  function Streak(events: seq<Event>): (n: nat)
    ensures n <= |events|
  {
    if events == [] || !events[|events| - 1].Failure? then 0 else 1 + Streak(events[..|events| - 1])
  }

  /**
   Over every history: the counter holds the failures in a row, modulo its width; with two or more on the counter the
   delay counts from the last failure and doubles up to its fourth step; and there is no delay exactly when fewer than
   two failures in a row have happened. `CounterWraps` shows why the counter alone does not tell.
   */
  lemma {:induction false} HealthOverHistories(events: seq<Event>)
    ensures After(events).failures == Streak(events) % 0x1_0000_0000
    ensures After(events).failures >= 2 ==>
              && events[|events| - 1].Failure?
              && After(events).retryAfter == events[|events| - 1].now + Delay(After(events).failures) * 1_000_000_000
    ensures After(events).retryAfter == 0 <==> Streak(events) < 2
    ensures After(events).retryAfter >= 0
  {
    hide Delay;
    if events != [] {
      HealthOverHistories(events[..|events| - 1]);
      var last := events[|events| - 1];
      if last.Failure? {
        StreakSteps(After(events[..|events| - 1]), last.now, Streak(events[..|events| - 1]));
      }
    }
  }

  /** One more failure. */
  lemma StreakSteps(h: Health, now: nat, streak: nat)
    requires h.failures == streak % 0x1_0000_0000 && h.retryAfter >= 0 && (h.retryAfter == 0 <==> streak < 2)
    ensures var r := Failed(h, now);
            && r.failures == (streak + 1) % 0x1_0000_0000
            && (r.failures >= 2 ==> r.retryAfter == now + Delay(r.failures) * 1_000_000_000)
            && r.retryAfter >= 0 && (r.retryAfter == 0 <==> streak + 1 < 2)
  {
  }

  /** A counter below two means no delay, if and only if the failures in a row are below two or do not wrap it. */
  lemma CounterWraps(events: seq<Event>)
    ensures (After(events).failures < 2 ==> After(events).retryAfter == 0)
       <==> (Streak(events) < 2 || Streak(events) % 0x1_0000_0000 >= 2)
  {
    HealthOverHistories(events);
  }

  /** A server that fails time and again. */
  function Outage(failures: nat): (events: seq<Event>)
    ensures |events| == failures && forall k :: 0 <= k < failures ==> events[k] == Failure(0)
  {
    seq(failures, _ => Failure(0))
  }

  lemma {:induction false} OutageStreak(failures: nat)
    ensures Streak(Outage(failures)) == failures
  {
    if failures > 0 {
      OutageStreak(failures - 1);
      assert Outage(failures)[..failures - 1] == Outage(failures - 1);
    }
  }

  /** After 2 ^ 32 failures in a row the counter reads zero and the delay still stands. */
  lemma WrappedCounter()
    ensures After(Outage(UINT32_LIMIT)).failures == 0 && After(Outage(UINT32_LIMIT)).retryAfter > 0
  {
    OutageStreak(UINT32_LIMIT);
    HealthOverHistories(Outage(UINT32_LIMIT));
  }

  // ---- The order in which the group is tried ----

  /** The comparator of the sort: open circuits last, then probes first, then by latency where both are known. */
  predicate Before(a: Health, b: Health, anyReady: bool, now: int)
  {
    var aOpen, bOpen := anyReady && a.retryAfter > now, anyReady && b.retryAfter > now;
    var aProbe, bProbe := a.failures >= 2 && a.retryAfter <= now, b.failures >= 2 && b.retryAfter <= now;
    if aOpen != bOpen then !aOpen
    else if aProbe != bProbe then aProbe
    else a.latency.Some? && b.latency.Some? && a.latency.value < b.latency.value
  }

  /** What `std::stable_sort` demands of a comparator, on the elements it is given. */
  ghost predicate StrictWeak(group: seq<Health>, anyReady: bool, now: int)
  {
    && (forall a :: a in group ==> !Before(a, a, anyReady, now))
    && (forall a, b, c :: a in group && b in group && c in group && Before(a, b, anyReady, now) && Before(b, c, anyReady, now)
          ==> Before(a, c, anyReady, now))
    && (forall a, b, c :: a in group && b in group && c in group && Level(a, b, anyReady, now) && Level(b, c, anyReady, now)
          ==> Level(a, c, anyReady, now))
  }

  predicate Level(a: Health, b: Health, anyReady: bool, now: int)
  {
    !Before(a, b, anyReady, now) && !Before(b, a, anyReady, now)
  }

  predicate SameClass(a: Health, b: Health, anyReady: bool, now: int)
  {
    && (anyReady && a.retryAfter > now) == (anyReady && b.retryAfter > now)
    && (a.failures >= 2 && a.retryAfter <= now) == (b.failures >= 2 && b.retryAfter <= now)
  }

  /** An unknown latency stands beside two known, different ones. */
  ghost predicate Confusing(group: seq<Health>, anyReady: bool, now: int)
  {
    exists a, b, c :: a in group && b in group && c in group
      && SameClass(a, b, anyReady, now) && SameClass(b, c, anyReady, now)
      && a.latency.Some? && b.latency.None? && c.latency.Some? && a.latency != c.latency
  }

  /**
   The comparator is a strict weak order on a group exactly when no server of unknown latency stands in one class with
   servers of two different latencies. Where it is none, the sort
   may leave any permutation.
   */
  lemma OrderIsWeak(group: seq<Health>, anyReady: bool, now: int)
    ensures StrictWeak(group, anyReady, now) <==> !Confusing(group, anyReady, now)
  {
    if Confusing(group, anyReady, now) {
      var a, b, c :| a in group && b in group && c in group
        && SameClass(a, b, anyReady, now) && SameClass(b, c, anyReady, now)
        && a.latency.Some? && b.latency.None? && c.latency.Some? && a.latency != c.latency;
      assert Level(a, b, anyReady, now) && Level(b, c, anyReady, now) && !Level(a, c, anyReady, now);
    } else {
      UnconfusedIsWeak(group, anyReady, now);
    }
  }

  lemma UnconfusedIsWeak(group: seq<Health>, anyReady: bool, now: int)
    requires !Confusing(group, anyReady, now)
    ensures StrictWeak(group, anyReady, now)
  {
    forall a, b, c | a in group && b in group && c in group
      ensures Before(a, b, anyReady, now) && Before(b, c, anyReady, now) ==> Before(a, c, anyReady, now)
      ensures Level(a, b, anyReady, now) && Level(b, c, anyReady, now) ==> Level(a, c, anyReady, now)
    {
    }
  }

  /**
   The failing case: three servers with closed circuits and no failures, the one of unknown latency between a fast and a
   slow one. The comparator finds it level with both, and them not level with each other.
   */
  lemma UnknownLatencyConfuses()
    ensures var group := [Health(0, 0, Some(1.0)), Health(0, 0, None), Health(0, 0, Some(2.0))];
            Confusing(group, true, 0) && !StrictWeak(group, true, 0)
  {
    var a, b, c := Health(0, 0, Some(1.0)), Health(0, 0, None), Health(0, 0, Some(2.0));
    hide StrictWeak;
    var group := [a, b, c];
    assert group[0] == a && group[1] == b && group[2] == c;
    assert SameClass(a, b, true, 0) && SameClass(b, c, true, 0);
    assert a in group && b in group && c in group && a.latency != c.latency;
    OrderIsWeak(group, true, 0);
  }

  // ---- What the sort leaves ----

  ghost predicate Permutes(order: seq<nat>, n: nat)
  {
    && |order| == n && (forall k :: 0 <= k < n ==> order[k] < n)
    && (forall j, k :: 0 <= j < k < n ==> order[j] != order[k])
    && (forall k :: 0 <= k < n ==> k in order)
  }

  ghost predicate IsSorted(places: seq<nat>, group: seq<Health>, anyReady: bool, now: int)
    requires Permutes(places, |group|)
  {
    forall i, j :: 0 <= i < j < |places| ==>
      && !Before(group[places[j]], group[places[i]], anyReady, now)
      && (Level(group[places[i]], group[places[j]], anyReady, now) ==> places[i] < places[j])
  }

  /** All that is known of `std::stable_sort`: it permutes, and where the comparator is a strict weak order it sorts and is stable. */
  ghost predicate SortsStably(sorter: (seq<Health>, bool, int) -> seq<nat>)
  {
    forall group, anyReady, now ::
      && Permutes(sorter(group, anyReady, now), |group|)
      && (StrictWeak(group, anyReady, now) ==> IsSorted(sorter(group, anyReady, now), group, anyReady, now))
  }

  /** Servers that failed twice and whose delay is over are tried first; open circuits, if there are closed ones, are left for last. */
  function Rank(h: Health, anyReady: bool, now: int): (rank: nat)
  {
    if anyReady && h.retryAfter > now then 2 else if h.failures >= 2 && h.retryAfter <= now then 0 else 1
  }

  /** Lower ranks go first; within one the lower latency, where both are known and differ; and otherwise the earlier place. */
  predicate GoesFirst(a: Health, i: nat, b: Health, j: nat, anyReady: bool, now: int)
  {
    if Rank(a, anyReady, now) != Rank(b, anyReady, now) then Rank(a, anyReady, now) < Rank(b, anyReady, now)
    else if a.latency.Some? && b.latency.Some? && a.latency != b.latency then a.latency.value < b.latency.value
    else i < j
  }

  /** The places in the order in which they go, unless unknown latencies confuse it. */
  ghost predicate InTurn(places: seq<nat>, group: seq<Health>, anyReady: bool, now: int)
    requires Permutes(places, |group|)
  {
    !Confusing(group, anyReady, now) ==>
      forall i, j :: 0 <= i < j < |places| ==>
        GoesFirst(group[places[i]], places[i], group[places[j]], places[j], anyReady, now)
  }

  lemma BeforeGoesFirst(a: Health, b: Health, anyReady: bool, now: int)
    ensures Before(a, b, anyReady, now) ==> forall i, j :: GoesFirst(a, i, b, j, anyReady, now)
    ensures Level(a, b, anyReady, now) ==> forall i, j :: GoesFirst(a, i, b, j, anyReady, now) <==> i < j
  {
  }

  lemma SortedInTurn(sorter: (seq<Health>, bool, int) -> seq<nat>, group: seq<Health>, anyReady: bool, now: int)
    requires SortsStably(sorter)
    ensures Permutes(sorter(group, anyReady, now), |group|) && InTurn(sorter(group, anyReady, now), group, anyReady, now)
  {
    hide Permutes;
    hide StrictWeak;
    hide Confusing;
    hide Before;
    hide GoesFirst;
    OrderIsWeak(group, anyReady, now);
    var places := sorter(group, anyReady, now);
    assert Permutes(places, |group|);
    if !Confusing(group, anyReady, now) {
      assert IsSorted(places, group, anyReady, now);
      SortedGoes(places, group, anyReady, now);
    }
  }

  lemma SortedGoes(places: seq<nat>, group: seq<Health>, anyReady: bool, now: int)
    requires Permutes(places, |group|) && IsSorted(places, group, anyReady, now)
    ensures forall i, j :: 0 <= i < j < |places| ==>
              GoesFirst(group[places[i]], places[i], group[places[j]], places[j], anyReady, now)
  {
    hide Before;
    hide GoesFirst;
    forall i, j | 0 <= i < j < |places|
      ensures GoesFirst(group[places[i]], places[i], group[places[j]], places[j], anyReady, now)
    {
      BeforeGoesFirst(group[places[i]], group[places[j]], anyReady, now);
    }
  }
}
