/** Leases of pooled connections: `SecureTransport::acquire` in dns_secure.cpp and `limit_idle_pool` in pool_limits.hpp. */
module ConnectionPool {
  import opened Bytes
  import opened ConfigModel

  const MAX_KEYS := 128

  /** What the key text of a pool is made of. */
  datatype PoolKey = PoolKey(
    url: string,
    ip: string,
    port: nat,
    hostname: string,
    route: Route,
    bootstrap: seq<string>,
    hashes: seq<string>)

  function KeyOf(s: Server): (k: PoolKey)
    ensures k.route.generation == s.route.generation
  {
    PoolKey(s.url, s.ip, s.port, s.hostname, s.route.(interfaceName := ""), s.bootstrap, s.hashes)
  }

  /**
   Connections are shared exactly by requests to the same address over the same network, with the same bootstrap addresses and
   certificate hashes.
   */
  lemma KeysTell(a: Server, b: Server)
    ensures KeyOf(a) == KeyOf(b) <==>
              && a.url == b.url && a.ip == b.ip && a.port == b.port && a.hostname == b.hostname
              && a.bootstrap == b.bootstrap && a.hashes == b.hashes
              && a.route.interfaceId == b.route.interfaceId && a.route.index4 == b.route.index4 && a.route.index6 == b.route.index6
              && a.route.scope6 == b.route.scope6 && a.route.generation == b.route.generation
  {
    if KeyOf(a) == KeyOf(b) {
      assert a.route.(interfaceName := "") == b.route.(interfaceName := "");
    }
  }

  /** A pooled connection. Its key never changes. */
  class Entry {
    var busy: bool
    const generation: nat
    ghost const home: PoolKey

    constructor (generation: nat, ghost home: PoolKey)
      ensures this.busy && this.generation == generation && this.home == home
    {
      this.busy, this.generation, this.home := true, generation, home;
    }
  }

  type Pool = map<PoolKey, seq<Entry>>

  ghost function Objects(pool: Pool): (r: set<Entry>)
  {
    set k, i | k in pool && 0 <= i < |pool[k]| :: pool[k][i]
  }

  ghost predicate Idle(entries: seq<Entry>)
    reads entries
  {
    forall i :: 0 <= i < |entries| ==> !entries[i].busy
  }

  /** No connection of the entry is in use, and all are from another network. */
  ghost predicate Stale(entries: seq<Entry>, generation: nat)
    reads entries
  {
    forall i :: 0 <= i < |entries| ==> !entries[i].busy && entries[i].generation != generation
  }

  /** Under each key are some, but not too many, different connections made for it. */
  ghost predicate Sorted(pool: Pool, limit: nat)
  {
    forall k :: k in pool ==> BelongsTo(pool[k], k, limit)
  }

  ghost predicate BelongsTo(entries: seq<Entry>, k: PoolKey, limit: nat)
  {
    && 0 < |entries| <= limit
    && (forall i :: 0 <= i < |entries| ==> entries[i].home == k && entries[i].generation == k.route.generation)
    && (forall i, j :: 0 <= i < j < |entries| ==> entries[i] != entries[j])
  }

  /** The busy connections are the leased ones, and each of those is in the pool. */
  ghost predicate Leases(pool: Pool, leased: set<Entry>)
    reads Objects(pool)
  {
    && (forall k, i :: k in pool && 0 <= i < |pool[k]| ==> (pool[k][i].busy <==> pool[k][i] in leased))
    && (forall e :: e in leased ==> e.home in pool && e in pool[e.home])
  }

  /** A key without leased connections can go. */
  lemma DropIdle(pool: Pool, leased: set<Entry>, limit: nat, k: PoolKey)
    requires Sorted(pool, limit) && Leases(pool, leased) && k in pool && Idle(pool[k])
    ensures Sorted(pool - {k}, limit) && Leases(pool - {k}, leased)
    ensures |pool - {k}| == |pool| - 1
  {
    var rest := pool - {k};
    assert rest.Keys == pool.Keys - {k};
    assert |rest.Keys| == |rest| && |pool.Keys| == |pool|;
    hide BelongsTo;
    forall e | e in leased
      ensures e.home in rest && e in rest[e.home]
    {
      assert e.home != k;
    }
  }

  class SecureTransport {
    const limit: nat
    var pool: Pool
    ghost var leased: set<Entry>

    ghost predicate Valid()
      reads this, Objects(pool)
    {
      limit > 0 && |pool| <= 128 && Sorted(pool, limit) && Leases(pool, leased)
    }

    constructor (dot: bool)
      ensures Valid() && limit == (if dot then 4 else 8) && pool == map[] && leased == {}
    {
      limit := if dot then 4 else 8;
      pool, leased := map[], {};
    }

    /** Drops the keys whose connections are all idle and from other networks. */
    method Sweep(generation: nat)
      requires Valid()
      modifies this`pool
      ensures Valid()
      ensures forall k :: k in pool <==> k in old(pool) && !Stale(old(pool)[k], generation)
      ensures forall k :: k in pool ==> pool[k] == old(pool)[k]
    {
      hide Sorted;
      var rest := pool.Keys;
      while rest != {}
        invariant Valid() && rest <= pool.Keys
        invariant forall k :: k in pool ==> k in old(pool) && pool[k] == old(pool)[k]
        invariant forall k :: k in old(pool) ==> (k in pool <==> k in rest || !Stale(old(pool)[k], generation))
        decreases |rest|
      {
        var k :| k in rest;
        rest := rest - {k};
        var stale := forall i :: 0 <= i < |pool[k]| ==> !pool[k][i].busy && pool[k][i].generation != generation;
        if stale {
          DropIdle(pool, leased, limit, k);
          pool := pool - {k};
        }
      }
    }

    /** Makes room for a new key, if it is one and the keys are all taken, by dropping every key without a lease. */
    method LimitIdle(key: PoolKey) returns (r: Result<()>)
      requires Valid()
      modifies this`pool
      ensures Valid() && (r.Ok? ==> key in pool || |pool| < 128)
      ensures r.Err? ==> r.code == "UPSTREAM_BUSY" && key !in pool && |pool| == 128 && pool == old(pool)
                         && forall k :: k in pool ==> !Idle(pool[k])
      ensures key in old(pool) || |old(pool)| < 128 ==> pool == old(pool)
      ensures key !in old(pool) && |old(pool)| == 128 ==>
                forall k :: k in pool <==> k in old(pool) && !Idle(old(pool)[k])
      ensures forall k :: k in pool ==> k in old(pool) && pool[k] == old(pool)[k]
    {
      hide Sorted;
      if key in pool || |pool| < MAX_KEYS {
        return Ok(());
      }
      var rest := pool.Keys;
      while rest != {}
        invariant Valid() && rest <= pool.Keys
        invariant forall k :: k in pool ==> k in old(pool) && pool[k] == old(pool)[k]
        invariant forall k :: k in old(pool) ==> (k in pool <==> k in rest || !Idle(old(pool)[k]))
        invariant |pool| < MAX_KEYS || pool == old(pool)
        decreases |rest|
      {
        var k :| k in rest;
        rest := rest - {k};
        var idle := forall i :: 0 <= i < |pool[k]| ==> !pool[k][i].busy;
        if idle {
          DropIdle(pool, leased, limit, k);
          pool := pool - {k};
        }
      }
      return if |pool| >= MAX_KEYS then Err("UPSTREAM_BUSY") else Ok(());
    }

    /**
     One turn of the loop, under the lock: an idle connection of the key or a new one is leased, or there is nothing
     to do but wait, or the pool has no room for the key.
     */
    method Turn(key: PoolKey) returns (r: Result<Option<Entry>>)
      requires Valid()
      modifies this`pool, this`leased, Objects(pool)
      ensures Valid()
      ensures r.Err? ==> r.code == "UPSTREAM_BUSY" && key !in pool && |pool| == 128 && pool == old(pool) && leased == old(leased)
                         && forall k :: k in pool ==> !Idle(pool[k])
      ensures r.Ok? && r.value.None? ==>
                && pool == old(pool) && leased == old(leased)
                && key in pool && |pool[key]| == limit && forall e :: e in pool[key] ==> e in leased
      ensures r.Ok? && r.value.Some? ==>
                var e := r.value.value;
                && e !in old(leased) && leased == old(leased) + {e}
                && key in pool && e in pool[key] && e.generation == key.route.generation
                && (fresh(e) || (key in old(pool) && e in old(pool)[key]))
      ensures r.Ok? && r.value.Some? && key in old(pool) && r.value.value !in old(pool)[key] ==>
                forall e :: e in old(pool)[key] ==> e in old(leased)
    {
      hide Sorted;
      hide Leases;
      hide Idle;
      var room := LimitIdle(key);
      if room.Err? {
        return Err(room.code);
      }
      var entries := if key in pool then pool[key] else [];
      if i: nat :| i < |entries| && !entries[i].busy && forall j :: 0 <= j < i ==> entries[j].busy {
        var e := entries[i];
        TakeIdle(key, i);
        return Ok(Some(e));
      }
      assert forall j :: 0 <= j < |entries| ==> entries[j].busy by { AllBusy(entries); }
      if |entries| < limit {
        BusyAreLeased(pool, leased, key);
        var e := AddBusy(key);
        return Ok(Some(e));
      }
      FullKey(pool, leased, limit, key);
      return Ok(None);
    }

    /** Leases an idle connection. */
    method TakeIdle(key: PoolKey, i: nat)
      requires Valid() && key in pool && i < |pool[key]| && !pool[key][i].busy
      modifies this`leased, pool[key][i]
      ensures Valid() && leased == old(leased) + {pool[key][i]}
      ensures pool[key][i] !in old(leased) && pool[key][i].generation == key.route.generation
    {
      hide Sorted;
      Home(pool, limit, key, i);
      var e := pool[key][i];
      e.busy := true;
      leased := leased + {e};
    }

    /** Adds a connection and leases it. */
    method AddBusy(key: PoolKey) returns (e: Entry)
      requires Valid() && (if key in pool then |pool[key]| < limit else |pool| < 128)
      modifies this`pool, this`leased
      ensures Valid() && fresh(e) && leased == old(leased) + {e} && e.generation == key.route.generation
      ensures key in pool && e in pool[key] && e !in old(leased)
    {
      hide Sorted;
      e := new Entry(key.route.generation, key);
      ghost var before := pool;
      GrowKey(pool, limit, key, e);
      assert pool == before;
      pool := pool[key := (if key in pool then pool[key] else []) + [e]];
      leased := leased + {e};
      assert e in pool[key];
    }

    /** The end of a lease. */
    method Release(e: Entry)
      requires Valid() && e in leased
      modifies this`leased, e`busy
      ensures Valid() && leased == old(leased) - {e} && !e.busy
    {
      e.busy := false;
      leased := leased - {e};
    }

    /** The first turn of a request, behind the sweep of connections from other networks. */
    method Acquire(s: Server) returns (r: Result<Option<Entry>>)
      requires Valid()
      modifies this`pool, this`leased, Objects(pool)
      ensures Valid()
      ensures r.Ok? && r.value.Some? ==>
                && r.value.value !in old(leased) && leased == old(leased) + {r.value.value}
                && r.value.value.generation == s.route.generation
                && KeyOf(s) in pool && r.value.value in pool[KeyOf(s)]
      ensures !(r.Ok? && r.value.Some?) ==> leased == old(leased)
      ensures r.Err? ==> r.code == "UPSTREAM_BUSY" && KeyOf(s) !in pool && |pool| == 128 && forall k :: k in pool ==> !Idle(pool[k])
      ensures r.Ok? && r.value.None? ==>
                KeyOf(s) in pool && |pool[KeyOf(s)]| == limit && forall e :: e in pool[KeyOf(s)] ==> e in leased
      ensures r.Ok? && r.value.Some? && KeyOf(s) in old(pool) && r.value.value !in old(pool)[KeyOf(s)] ==>
                forall e :: e in old(pool)[KeyOf(s)] ==> e in old(leased)
    {
      hide Sorted;
      hide Leases;
      if KeyOf(s) in pool && pool[KeyOf(s)] != [] {
        Home(pool, limit, KeyOf(s), 0);
        assert !Stale(pool[KeyOf(s)], s.route.generation);
      }
      Sweep(s.route.generation);
      r := Turn(KeyOf(s));
    }

    /**
     A request is back from waiting, in whatever state others have left the pool meanwhile: it was cancelled, it is too
     late, or it takes its next turn.
     */
    method Resume(s: Server, cancelled: bool, late: bool) returns (r: Result<Option<Entry>>)
      requires Valid()
      modifies this`pool, this`leased, Objects(pool)
      ensures Valid()
      ensures cancelled || late ==> r == Err(if cancelled then "CANCELLED" else "TIMEOUT") && pool == old(pool)
      ensures r.Ok? && r.value.Some? ==>
                && r.value.value !in old(leased) && leased == old(leased) + {r.value.value}
                && r.value.value.generation == s.route.generation
                && KeyOf(s) in pool && r.value.value in pool[KeyOf(s)]
      ensures !(r.Ok? && r.value.Some?) ==> leased == old(leased) && pool == old(pool)
      ensures !cancelled && !late && r.Err? ==>
                r.code == "UPSTREAM_BUSY" && KeyOf(s) !in pool && |pool| == 128 && forall k :: k in pool ==> !Idle(pool[k])
      ensures r.Ok? && r.value.None? ==>
                KeyOf(s) in pool && |pool[KeyOf(s)]| == limit && forall e :: e in pool[KeyOf(s)] ==> e in leased
      ensures r.Ok? && r.value.Some? && KeyOf(s) in old(pool) && r.value.value !in old(pool)[KeyOf(s)] ==>
                forall e :: e in old(pool)[KeyOf(s)] ==> e in old(leased)
    {
      hide Sorted;
      hide Leases;
      if cancelled {
        return Err("CANCELLED");
      }
      if late {
        return Err("TIMEOUT");
      }
      r := Turn(KeyOf(s));
    }
  }

  lemma Home(pool: Pool, limit: nat, k: PoolKey, i: nat)
    requires Sorted(pool, limit) && k in pool && i < |pool[k]|
    ensures pool[k][i].home == k && pool[k][i].generation == k.route.generation
    ensures |pool[k]| <= limit
    ensures forall j, l :: j in pool && 0 <= l < |pool[j]| && pool[j][l] == pool[k][i] ==> j == k && l == i
  {
    assert BelongsTo(pool[k], k, limit);
    forall j, l | j in pool && 0 <= l < |pool[j]| && pool[j][l] == pool[k][i]
      ensures j == k && l == i
    {
      assert BelongsTo(pool[j], j, limit);
    }
  }

  /** With no first idle connection there is none. */
  lemma {:induction false} AllBusy(entries: seq<Entry>)
    requires forall i: nat :: i < |entries| && !entries[i].busy ==> exists j :: 0 <= j < i && !entries[j].busy
    ensures forall i :: 0 <= i < |entries| ==> entries[i].busy
  {
    forall i | 0 <= i < |entries|
      ensures entries[i].busy
    {
      BusyUpTo(entries, i);
    }
  }

  lemma {:induction false} BusyUpTo(entries: seq<Entry>, i: nat)
    requires forall i: nat :: i < |entries| && !entries[i].busy ==> exists j :: 0 <= j < i && !entries[j].busy
    requires i < |entries|
    ensures forall j :: 0 <= j <= i ==> entries[j].busy
    decreases i
  {
    if i > 0 {
      BusyUpTo(entries, i - 1);
    }
  }

  lemma BusyAreLeased(pool: Pool, leased: set<Entry>, k: PoolKey)
    requires Leases(pool, leased) && (k in pool ==> forall i :: 0 <= i < |pool[k]| ==> pool[k][i].busy)
    ensures k in pool ==> forall e :: e in pool[k] ==> e in leased
  {
  }

  lemma FullKey(pool: Pool, leased: set<Entry>, limit: nat, k: PoolKey)
    requires Sorted(pool, limit) && Leases(pool, leased) && k in pool && |pool[k]| >= limit
    requires forall i :: 0 <= i < |pool[k]| ==> pool[k][i].busy
    ensures |pool[k]| == limit && forall e :: e in pool[k] ==> e in leased
  {
    assert BelongsTo(pool[k], k, limit);
  }

  lemma GrowKey(pool: Pool, limit: nat, k: PoolKey, e: Entry)
    requires Sorted(pool, limit) && e.home == k && e.generation == k.route.generation
    requires limit > 0 && (k in pool ==> |pool[k]| < limit && e !in pool[k])
    ensures Sorted(pool[k := (if k in pool then pool[k] else []) + [e]], limit)
    ensures |pool[k := (if k in pool then pool[k] else []) + [e]]| == |pool| + if k in pool then 0 else 1
  {
    var entries := (if k in pool then pool[k] else []) + [e];
    var grown := pool[k := entries];
    assert grown.Keys == pool.Keys + {k};
    assert |grown.Keys| == |grown| && |pool.Keys| == |pool|;
    assert k in pool ==> BelongsTo(pool[k], k, limit);
    assert BelongsTo(entries, k, limit);
  }
}
