/**
 * `APICache` (api/cache.py): the API's bounded in-memory cache. Every entry carries the time it
 * was set; an entry is expired once more than `ttl` time units have passed. Before each `set`
 * the expired entries are dropped, and a full cache evicts its oldest entry to make room for a
 * new key. Time is an integer clock passed to every operation.
 */
module ApiCache {
  import opened Wrappers
  import Seqs
  import OrderedDict

  datatype Entry<V> = Entry(value: V, timestamp: int)

  /** `_cache`: a Python dict, so key → entry in insertion order. */
  type Entries<V> = seq<(string, Entry<V>)>

  /** _is_expired: `now - timestamp > ttl`. */
  predicate Expired<V(!new)>(e: Entry<V>, now: int, ttl: int) {
    now - e.timestamp > ttl
  }

  // ---------------------------------------------------------------------------------------
  // _cleanup_expired

  /** The entries that are still live, in their order. */
  function Live<V(!new)>(d: Entries<V>, now: int, ttl: int): (r: Entries<V>)
    ensures |r| <= |d|
    ensures forall x :: x in r <==> x in d && !Expired(x.1, now, ttl)
  {
    if d == [] then []
    else if Expired(d[0].1, now, ttl) then Live(d[1..], now, ttl)
    else [d[0]] + Live(d[1..], now, ttl)
  }

  /** The number of expired entries. */
  function ExpiredCount<V(!new)>(d: Entries<V>, now: int, ttl: int): (n: nat)
    ensures n + |Live(d, now, ttl)| == |d|
  {
    if d == [] then 0
    else (if Expired(d[0].1, now, ttl) then 1 else 0) + ExpiredCount(d[1..], now, ttl)
  }

  lemma {:induction false} LiveUnique<V(!new)>(d: Entries<V>, now: int, ttl: int)
    requires OrderedDict.UniqueKeys(d)
    ensures OrderedDict.UniqueKeys(Live(d, now, ttl))
    decreases |d|
  {
    if d != [] {
      OrderedDict.TailUnique(d);
      LiveUnique(d[1..], now, ttl);
      if !Expired(d[0].1, now, ttl) {
        HeadNotLiveLater(d, now, ttl);
        OrderedDict.ConsUnique(d[0], Live(d[1..], now, ttl));
        assert Live(d, now, ttl) == [d[0]] + Live(d[1..], now, ttl);
      }
    }
  }

  /** With unique keys, the first key does not come back among the live later entries. */
  lemma HeadNotLiveLater<V(!new)>(d: Entries<V>, now: int, ttl: int)
    requires OrderedDict.UniqueKeys(d) && d != []
    ensures d[0].0 !in OrderedDict.Keys(Live(d[1..], now, ttl))
  {
    var keys := OrderedDict.Keys(d);
    var rest := Live(d[1..], now, ttl);
    forall i | 0 <= i < |rest| ensures OrderedDict.Keys(rest)[i] != d[0].0 {
      assert rest[i] in d[1..];
      var j :| 0 <= j < |d[1..]| && d[1..][j] == rest[i];
      assert keys[0] != keys[j + 1];
    }
  }

  /** The entries whose key is not in `gone`: what deleting each key of `gone` leaves. */
  function WithoutKeys<V(!new)>(d: Entries<V>, gone: set<string>): Entries<V> {
    if d == [] then []
    else if d[0].0 in gone then WithoutKeys(d[1..], gone)
    else [d[0]] + WithoutKeys(d[1..], gone)
  }

  /** Deleting one more key. */
  lemma {:induction false} RemoveWithoutKeys<V(!new)>(d: Entries<V>, gone: set<string>, k: string)
    ensures OrderedDict.Remove(WithoutKeys(d, gone), k) == WithoutKeys(d, gone + {k})
    decreases |d|
  {
    if d != [] {
      RemoveWithoutKeys(d[1..], gone, k);
      if d[0].0 !in gone {
        var w := [d[0]] + WithoutKeys(d[1..], gone);
        assert w[1..] == WithoutKeys(d[1..], gone);
      }
    }
  }

  /** Deleting exactly the keys of the expired entries leaves the live ones. */
  lemma {:induction false} WithoutExpiredKeys<V(!new)>(d: Entries<V>, gone: set<string>, now: int, ttl: int)
    requires forall j :: 0 <= j < |d| ==> (d[j].0 in gone <==> Expired(d[j].1, now, ttl))
    ensures WithoutKeys(d, gone) == Live(d, now, ttl)
    decreases |d|
  {
    if d != [] {
      assert forall j :: 0 <= j < |d| - 1 ==> d[1..][j] == d[j + 1];
      WithoutExpiredKeys(d[1..], gone, now, ttl);
    }
  }

  /** The keys collected by the first pass of _cleanup_expired are exactly those of expired entries. */
  lemma GoneIsExpired<V(!new)>(d: Entries<V>, gone: set<string>, now: int, ttl: int)
    requires OrderedDict.UniqueKeys(d)
    requires forall k :: k in gone <==> exists j :: 0 <= j < |d| && d[j].0 == k && Expired(d[j].1, now, ttl)
    ensures WithoutKeys(d, gone) == Live(d, now, ttl)
  {
    forall j | 0 <= j < |d| ensures d[j].0 in gone <==> Expired(d[j].1, now, ttl) {
      if d[j].0 in gone {
        var j' :| 0 <= j' < |d| && d[j'].0 == d[j].0 && Expired(d[j'].1, now, ttl);
        assert OrderedDict.Keys(d)[j'] == OrderedDict.Keys(d)[j];
      }
    }
    WithoutExpiredKeys(d, gone, now, ttl);
  }

  lemma WithoutNothing<V(!new)>(d: Entries<V>)
    ensures WithoutKeys(d, {}) == d
  {
  }

  // ---------------------------------------------------------------------------------------
  // _evict_oldest

  /** `min(keys, key=timestamp)`: the first entry with the smallest timestamp. */
  function OldestIndex<V(!new)>(d: Entries<V>): (i: nat)
    requires d != []
    ensures i < |d|
    ensures forall j :: 0 <= j < |d| ==> d[i].1.timestamp <= d[j].1.timestamp
    ensures forall j :: 0 <= j < i ==> d[j].1.timestamp > d[i].1.timestamp
  {
    if |d| == 1 then 0
    else
      var b := OldestIndex(d[..|d| - 1]);
      if d[|d| - 1].1.timestamp < d[b].1.timestamp then |d| - 1 else b
  }

  /** The cache after _evict_oldest. */
  function Evict<V(!new)>(d: Entries<V>): (r: Entries<V>)
    ensures d == [] ==> r == []
    ensures d != [] ==> r == OrderedDict.Remove(d, d[OldestIndex(d)].0)
  {
    if d == [] then d else OrderedDict.Remove(d, d[OldestIndex(d)].0)
  }

  // ---------------------------------------------------------------------------------------
  // get and set

  /** get: the value of a live entry; an expired entry is deleted and gives None. */
  function Lookup<V(!new)>(d: Entries<V>, key: string, now: int, ttl: int): (r: (Option<V>, Entries<V>))
    ensures key !in OrderedDict.Keys(d) ==> r == (None, d)
    ensures key in OrderedDict.Keys(d) && Expired(OrderedDict.Get(d, key).value, now, ttl) ==>
      r == (None, OrderedDict.Remove(d, key))
    ensures r.0.Some? ==> r.1 == d && OrderedDict.Get(d, key) == Some(Entry(r.0.value, OrderedDict.Get(d, key).value.timestamp))
  {
    match OrderedDict.Get(d, key)
    case None => (None, d)
    case Some(e) => if Expired(e, now, ttl) then (None, OrderedDict.Remove(d, key)) else (Some(e.value), d)
  }

  /** The room made for a key before it is stored: evict only when full and the key is new. */
  function MakeRoom<V(!new)>(c: Entries<V>, key: string, maxSize: int): Entries<V> {
    if |c| >= maxSize && key !in OrderedDict.Keys(c) then Evict(c) else c
  }

  /** set: drop expired entries, make room, then store the value stamped `now`. */
  function Store<V(!new)>(d: Entries<V>, key: string, value: V, now: int, maxSize: int, ttl: int): (r: Entries<V>)
    ensures OrderedDict.Get(r, key) == Some(Entry(value, now))
  {
    var c := MakeRoom(Live(d, now, ttl), key, maxSize);
    OrderedDict.PutGet(c, key, Entry(value, now), key);
    OrderedDict.Put(c, key, Entry(value, now))
  }

  /**
   * A value set at time `t` is returned by `get` at any time `t2` with `t2 - t <= ttl`, when
   * nothing touched the cache in between.
   */
  lemma StoreThenLookup<V(!new)>(d: Entries<V>, key: string, value: V, t: int, t2: int, maxSize: int, ttl: int)
    requires t2 - t <= ttl
    ensures Lookup(Store(d, key, value, t, maxSize, ttl), key, t2, ttl).0 == Some(value)
  {
  }

  /** Once the ttl has passed, `get` misses and deletes the entry. */
  lemma StoreThenLookupLate<V(!new)>(d: Entries<V>, key: string, value: V, t: int, t2: int, maxSize: int, ttl: int)
    requires t2 - t > ttl
    ensures var s := Store(d, key, value, t, maxSize, ttl);
      Lookup(s, key, t2, ttl) == (None, OrderedDict.Remove(s, key))
  {
  }

  /** |Put(d, k, v)| grows by one exactly for a new key. */
  lemma PutLength<V(!new)>(d: Entries<V>, key: string, v: Entry<V>)
    ensures |OrderedDict.Put(d, key, v)| == if key in OrderedDict.Keys(d) then |d| else |d| + 1
  {
    assert |OrderedDict.Keys(OrderedDict.Put(d, key, v))| == |OrderedDict.Put(d, key, v)|;
  }

  /** Evicting from a non-empty cache with unique keys removes exactly one entry and no new key. */
  lemma EvictShrinks<V(!new)>(c: Entries<V>)
    requires c != [] && OrderedDict.UniqueKeys(c)
    ensures OrderedDict.UniqueKeys(Evict(c)) && |Evict(c)| == |c| - 1
    ensures forall k :: k in OrderedDict.Keys(Evict(c)) ==> k in OrderedDict.Keys(c)
  {
    var oldest := c[OldestIndex(c)].0;
    assert OrderedDict.Keys(c)[OldestIndex(c)] == oldest;
    OrderedDict.RemoveLength(c, oldest);
    OrderedDict.RemoveUnique(c, oldest);
  }

  /** After making room there is a free slot for a new key (max_size >= 1). */
  lemma MakeRoomFits<V(!new)>(c: Entries<V>, key: string, maxSize: int)
    requires OrderedDict.UniqueKeys(c) && 1 <= maxSize && |c| <= maxSize
    ensures var m := MakeRoom(c, key, maxSize);
      OrderedDict.UniqueKeys(m) && (if key in OrderedDict.Keys(m) then |m| <= maxSize else |m| < maxSize)
  {
    if |c| >= maxSize && key !in OrderedDict.Keys(c) {
      EvictShrinks(c);
    }
  }

  /** With max_size >= 1, a cache within its bound stays within it after `set`, keys unique. */
  lemma StoreBounded<V(!new)>(d: Entries<V>, key: string, value: V, now: int, maxSize: int, ttl: int)
    requires OrderedDict.UniqueKeys(d) && 1 <= maxSize && |d| <= maxSize
    ensures var r := Store(d, key, value, now, maxSize, ttl);
      OrderedDict.UniqueKeys(r) && |r| <= maxSize
  {
    LiveUnique(d, now, ttl);
    var c := MakeRoom(Live(d, now, ttl), key, maxSize);
    MakeRoomFits(Live(d, now, ttl), key, maxSize);
    PutLength(c, key, Entry(value, now));
    OrderedDict.PutUnique(c, key, Entry(value, now));
  }

  /** Overwriting a live key evicts nothing: the keys are exactly the live keys. */
  lemma OverwriteKeepsLive<V(!new)>(d: Entries<V>, key: string, value: V, now: int, maxSize: int, ttl: int)
    requires key in OrderedDict.Keys(Live(d, now, ttl))
    ensures OrderedDict.Keys(Store(d, key, value, now, maxSize, ttl)) == OrderedDict.Keys(Live(d, now, ttl))
  {
  }

  /** The evicted entry has the smallest timestamp, and evicting removes only that key. */
  lemma EvictOldest<V(!new)>(d: Entries<V>, k: string)
    requires d != [] && OrderedDict.UniqueKeys(d)
    ensures var i := OldestIndex(d);
      (forall j :: 0 <= j < |d| ==> d[i].1.timestamp <= d[j].1.timestamp)
      && OrderedDict.Get(Evict(d), k) == if k == d[i].0 then None else OrderedDict.Get(d, k)
  {
    OrderedDict.RemoveGet(d, d[OldestIndex(d)].0, k);
  }

  /** `get` only ever deletes: every pair left was there before. */
  lemma LookupMembers<V(!new)>(d: Entries<V>, key: string, now: int, ttl: int)
    ensures forall x :: x in Lookup(d, key, now, ttl).1 ==> x in d
    ensures Lookup(d, key, now, ttl).0.Some? ==>
      exists ts :: (key, Entry(Lookup(d, key, now, ttl).0.value, ts)) in d
  {
    OrderedDict.RemoveMembers(d, key);
    if Lookup(d, key, now, ttl).0.Some? {
      OrderedDict.GetMember(d, key);
    }
  }

  /** `set` adds one pair and otherwise only deletes. */
  lemma StoreMembers<V(!new)>(d: Entries<V>, key: string, value: V, now: int, maxSize: int, ttl: int)
    ensures forall x :: x in Store(d, key, value, now, maxSize, ttl) ==> x in d || x == (key, Entry(value, now))
  {
    var live := Live(d, now, ttl);
    var c := MakeRoom(live, key, maxSize);
    if c != live {
      OrderedDict.RemoveMembers(live, live[OldestIndex(live)].0);
    }
    OrderedDict.PutMembers(c, key, Entry(value, now));
  }

  datatype Stats = Stats(totalItems: nat, expiredItems: nat, activeItems: int, maxSize: int, ttl: int)

  /** get_stats: expired ≤ total, and active = total − expired = the number of live entries. */
  function StatsOf<V(!new)>(d: Entries<V>, now: int, maxSize: int, ttl: int): (s: Stats)
    ensures s.expiredItems <= s.totalItems == |d|
    ensures s.expiredItems == ExpiredCount(d, now, ttl)
    ensures s.activeItems == s.totalItems - s.expiredItems == |Live(d, now, ttl)| >= 0
    ensures s.maxSize == maxSize && s.ttl == ttl
  {
    Stats(|d|, ExpiredCount(d, now, ttl), |d| - ExpiredCount(d, now, ttl), maxSize, ttl)
  }

  // ---------------------------------------------------------------------------------------
  // The object

  class APICache<V(!new)> {
    var entries: Entries<V>
    const maxSize: int
    const ttl: int

    predicate Valid()
      reads this
    {
      OrderedDict.UniqueKeys(entries) && (maxSize >= 1 ==> |entries| <= maxSize)
    }

    constructor (maxSize: int, ttl: int)
      ensures Valid() && entries == [] && this.maxSize == maxSize && this.ttl == ttl
    {
      this.maxSize := maxSize;
      this.ttl := ttl;
      entries := [];
    }

    /** The first pass of _cleanup_expired: the keys of the expired entries. */
    method ExpiredKeys(now: int) returns (expiredKeys: seq<string>)
      ensures forall k :: k in expiredKeys <==>
        exists j :: 0 <= j < |entries| && entries[j].0 == k && Expired(entries[j].1, now, ttl)
    {
      expiredKeys := [];
      for i := 0 to |entries|
        invariant forall k :: k in expiredKeys <==>
          exists j :: 0 <= j < i && entries[j].0 == k && Expired(entries[j].1, now, ttl)
      {
        if now - entries[i].1.timestamp > ttl {
          expiredKeys := expiredKeys + [entries[i].0];
        }
      }
    }

    /** _cleanup_expired: collect the expired keys, then delete them one by one. */
    method CleanupExpired(now: int)
      requires OrderedDict.UniqueKeys(entries)
      modifies this
      ensures entries == Live(old(entries), now, ttl)
    {
      var expiredKeys := ExpiredKeys(now);
      ghost var items := entries;
      ghost var gone: set<string> := {};
      WithoutNothing(items);
      for j := 0 to |expiredKeys|
        invariant forall k :: k in gone <==> k in expiredKeys[..j]
        invariant entries == WithoutKeys(items, gone)
      {
        assert expiredKeys[..j + 1] == expiredKeys[..j] + [expiredKeys[j]];
        RemoveWithoutKeys(items, gone, expiredKeys[j]);
        entries := OrderedDict.Remove(entries, expiredKeys[j]);
        gone := gone + {expiredKeys[j]};
      }
      assert expiredKeys[..|expiredKeys|] == expiredKeys;
      GoneIsExpired(items, gone, now, ttl);
    }

    /** _evict_oldest. */
    method EvictOldestEntry()
      modifies this
      ensures entries == Evict(old(entries))
    {
      if entries == [] {
        return;
      }
      var oldest := entries[OldestIndex(entries)].0;
      entries := OrderedDict.Remove(entries, oldest);
    }

    /** get. */
    method Get(key: string, now: int) returns (r: Option<V>)
      requires Valid()
      modifies this
      ensures Valid()
      ensures (r, entries) == Lookup(old(entries), key, now, ttl)
    {
      var found := OrderedDict.Get(entries, key);
      if found.None? {
        return None;
      }
      if now - found.value.timestamp > ttl {
        OrderedDict.RemoveUnique(entries, key);
        OrderedDict.RemoveLength(entries, key);
        entries := OrderedDict.Remove(entries, key);
        return None;
      }
      r := Some(found.value.value);
    }

    /** set. */
    method Set(key: string, value: V, now: int)
      requires Valid()
      modifies this
      ensures Valid()
      ensures entries == Store(old(entries), key, value, now, maxSize, ttl)
    {
      if maxSize >= 1 {
        StoreBounded(entries, key, value, now, maxSize, ttl);
      } else {
        ghost var c := MakeRoom(Live(entries, now, ttl), key, maxSize);
        LiveUnique(entries, now, ttl);
        if c != Live(entries, now, ttl) {
          var live := Live(entries, now, ttl);
          OrderedDict.RemoveUnique(live, live[OldestIndex(live)].0);
        }
        OrderedDict.PutUnique(c, key, Entry(value, now));
      }
      CleanupExpired(now);
      if |entries| >= maxSize && key !in OrderedDict.Keys(entries) {
        EvictOldestEntry();
      }
      entries := OrderedDict.Put(entries, key, Entry(value, now));
    }

    /** delete: True exactly when the key was present; it is absent afterwards. */
    method Delete(key: string) returns (ok: bool)
      requires Valid()
      modifies this
      ensures Valid()
      ensures ok <==> key in OrderedDict.Keys(old(entries))
      ensures entries == OrderedDict.Remove(old(entries), key)
      ensures OrderedDict.Get(entries, key) == None
    {
      OrderedDict.RemoveGet(entries, key, key);
      OrderedDict.RemoveUnique(entries, key);
      OrderedDict.RemoveLength(entries, key);
      ok := key in OrderedDict.Keys(entries);
      if ok {
        entries := OrderedDict.Remove(entries, key);
      } else {
        OrderedDict.RemoveAbsent(entries, key);
      }
    }

    /** clear. */
    method Clear()
      requires Valid()
      modifies this
      ensures Valid() && entries == []
    {
      entries := [];
    }

    /** get_stats. */
    method GetStats(now: int) returns (s: Stats)
      ensures s == StatsOf(entries, now, maxSize, ttl)
    {
      var expired := ExpiredCount(entries, now, ttl);
      s := Stats(|entries|, expired, |entries| - expired, maxSize, ttl);
    }
  }
}
