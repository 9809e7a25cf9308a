/** The entries of the response cache and their size accounting: the map and the counter of `Router::exchange_cached` in router.cpp. */
module CacheLedger {
  import opened Bytes

  const MAX_ENTRIES := 4096
  const MAX_BYTES := 32 * 1024 * 1024

  datatype Entry = Entry(packet: Packet, stored: int, expires: int, server: nat)

  type Cache = map<string, Entry>

  function Size(key: string, e: Entry): (n: nat) { |e.packet| + |key| }

  /** What the entries take up together. */
  ghost function Total(c: Cache): (n: nat)
    decreases |c|
  {
    if c == map[] then 0
    else
      var k :| k in c;
      Fewer(c, k);
      Size(k, c[k]) + Total(c - {k})
  }

  lemma Fewer(c: Cache, k: string)
    requires k in c
    ensures |c - {k}| == |c| - 1
  {
    var d := c - {k};
    assert d.Keys == c.Keys - {k};
    assert |d.Keys| == |d| && |c.Keys| == |c|;
  }

  lemma {:induction false} TotalWithout(c: Cache, k: string)
    requires k in c
    ensures Total(c) == Size(k, c[k]) + Total(c - {k})
    decreases |c|
  {
    hide Size;
    var j :| j in c && Total(c) == Size(j, c[j]) + Total(c - {j});
    if j != k {
      Fewer(c, j);
      Fewer(c, k);
      TotalWithout(c - {j}, k);
      TotalWithout(c - {k}, j);
      assert c - {j} - {k} == c - {k} - {j};
    }
  }

  lemma TotalWith(c: Cache, k: string, e: Entry)
    requires k !in c
    ensures Total(c[k := e]) == Total(c) + Size(k, e)
    ensures |c[k := e]| == |c| + 1
  {
    hide Size;
    hide Total;
    var d := c[k := e];
    TotalWithout(d, k);
    Fewer(d, k);
    assert d - {k} == c;
  }

  lemma TotalReplaced(c: Cache, k: string, e: Entry)
    ensures Total(c[k := e]) == Total(c) + Size(k, e) - if k in c then Size(k, c[k]) else 0
  {
    hide Size;
    hide Total;
    var others := c - {k};
    if k in c {
      TotalWithout(c, k);
    } else {
      assert others == c;
    }
    TotalWith(others, k, e);
    assert others[k := e] == c[k := e];
  }

  function Fresh(c: Cache, now: int): (r: Cache)
  {
    map k | k in c && c[k].expires > now :: c[k]
  }

  ghost predicate Part(part: Cache, c: Cache)
  {
    forall k :: k in part ==> k in c && part[k] == c[k]
  }

  ghost predicate Fits(c: Cache, room: nat) { |c| < 4096 && Total(c) + room <= 33_554_432 }

  predicate IsOldest(c: Cache, k: string)
  {
    k in c && forall j :: j in c ==> c[k].expires <= c[j].expires
  }

  /** Entries that expire no later than any that stays have gone, and without the last of them the new one did not fit. */
  ghost predicate Evicting(before: Cache, room: nat, after: Cache)
  {
    && Part(after, before)
    && (forall gone, kept :: gone in before && gone !in after && kept in after ==> before[gone].expires <= before[kept].expires)
    && (after != before ==> exists last :: last in before && last !in after && !Fits(after[last := before[last]], room))
  }

  /**
   Making room evicts entries that expire no later than any that stays, and no more of them than needed: nothing when the
   new entry fits, otherwise a last one without which it would not have fitted.
   */
  ghost predicate Evicted(before: Cache, room: nat, after: Cache)
  {
    Evicting(before, room, after) && (Fits(after, room) || after == map[])
  }

  /** One more eviction. */
  lemma EvictOne(before: Cache, room: nat, c: Cache, oldest: string)
    requires Evicting(before, room, c) && !Fits(c, room) && IsOldest(c, oldest)
    ensures Evicting(before, room, c - {oldest})
  {
    hide Fits;
    var after := c - {oldest};
    assert after[oldest := before[oldest]] == c;
  }

  lemma NothingEvicted(c: Cache, room: nat)
    ensures Evicting(c, room, c)
  {
  }

  lemma OldestIsThere(c: Cache, k: string)
    requires IsOldest(c, k)
    ensures k in c
  {
  }

  /** Some entry expires first. */
  lemma {:induction false} HasOldest(c: Cache)
    requires c != map[]
    ensures exists k :: IsOldest(c, k)
    decreases |c|
  {
    var j :| j in c;
    var rest := c - {j};
    Fewer(c, j);
    if rest == map[] {
      assert c.Keys == {j} + rest.Keys;
      assert IsOldest(c, j);
    } else {
      HasOldest(rest);
      var k :| IsOldest(rest, k);
      assert IsOldest(c, if c[j].expires <= c[k].expires then j else k);
    }
  }

  /** A part of a cache is no larger, in entries and in bytes. */
  lemma {:induction false} PartIsSmaller(part: Cache, c: Cache)
    requires Part(part, c)
    ensures |part| <= |c| && Total(part) <= Total(c)
    decreases |part|
  {
    hide Size;
    hide Total;
    if part == map[] {
      assert Total(part) == 0 by { TotalOfNothing(); }
    } else {
      var k :| k in part;
      Fewer(part, k);
      Fewer(c, k);
      PartIsSmaller(part - {k}, c - {k});
      TotalWithout(part, k);
      TotalWithout(c, k);
    }
  }

  lemma TotalOfNothing()
    ensures Total(map[]) == 0
  {
  }

  /** The counter is exact, and the cache within its bounds; a single entry may exceed the bytes. */
  ghost predicate Bounded(cache: Cache, bytes: int)
  {
    && bytes == Total(cache) && |cache| <= 4096
    && (bytes <= 33_554_432 || |cache| == 1)
  }

  lemma BoundedPart(part: Cache, c: Cache)
    requires Bounded(c, Total(c)) && Part(part, c)
    ensures Bounded(part, Total(part))
  {
    hide Total;
    PartIsSmaller(part, c);
    if |part| == 0 {
      assert part == map[];
      TotalOfNothing();
    }
  }

  /** Storing an entry after making room for it leaves the cache within its bounds. */
  lemma RoomIsEnough(before: Cache, key: string, e: Entry, after: Cache)
    requires Evicted(before, Size(key, e), after) && key !in before
    ensures Bounded(after[key := e], Total(after) + Size(key, e))
    ensures Total(after[key := e]) > 33_554_432 ==> Size(key, e) > 33_554_432
  {
    hide Total;
    hide Size;
    TotalWith(after, key, e);
    if after == map[] {
      TotalOfNothing();
    }
  }

  /** The map and the counter beside it. */
  class Ledger {
    var cache: Cache
    var bytes: int

    ghost predicate Balanced()
      reads this
    {
      bytes == Total(cache)
    }

    constructor ()
      ensures cache == map[] && bytes == 0 && Balanced()
    {
      cache, bytes := map[], 0;
    }

    /** Drops what has expired. */
    method Sweep(now: int)
      requires Balanced()
      modifies this
      ensures Balanced() && cache == Fresh(old(cache), now)
    {
      hide Size;
      hide Total;
      var rest := cache.Keys;
      while rest != {}
        invariant rest <= cache.Keys && bytes == Total(cache)
        invariant Part(cache, old(cache))
        invariant forall k :: k in old(cache) ==> (k in cache <==> k in rest || old(cache)[k].expires > now)
        decreases |rest|
      {
        var k :| k in rest;
        rest := rest - {k};
        if cache[k].expires <= now {
          TotalWithout(cache, k);
          bytes := bytes - Size(k, cache[k]);
          cache := cache - {k};
        }
      }
      assert cache == Fresh(old(cache), now);
    }

    /** Evicts until an entry of the size fits or nothing is left. */
    method MakeRoom(room: nat)
      requires Balanced()
      modifies this
      ensures Balanced() && Evicted(old(cache), room, cache)
    {
      hide Size;
      hide Total;
      hide Evicting;
      hide IsOldest;
      NothingEvicted(cache, room);
      while |cache| >= MAX_ENTRIES || bytes + room > MAX_BYTES
        invariant bytes == Total(cache) && Evicting(old(cache), room, cache)
        decreases |cache|
      {
        if cache == map[] {
          break;
        }
        HasOldest(cache);
        var oldest :| IsOldest(cache, oldest);
        OldestIsThere(cache, oldest);
        TotalWithout(cache, oldest);
        Fewer(cache, oldest);
        EvictOne(old(cache), room, cache, oldest);
        bytes := bytes - Size(oldest, cache[oldest]);
        cache := cache - {oldest};
      }
    }

    /** Stores an entry. The counter only grows: the books stay balanced exactly when nothing was replaced. */
    method Insert(key: string, e: Entry)
      requires Balanced()
      modifies this
      ensures cache == old(cache)[key := e] && bytes == old(bytes) + Size(key, e)
      ensures Balanced() <==> key !in old(cache) || Size(key, old(cache)[key]) == 0
    {
      hide Size;
      hide Total;
      TotalReplaced(cache, key, e);
      cache := cache[key := e];
      bytes := bytes + Size(key, e);
    }
  }
}
