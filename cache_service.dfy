/**
 * The response cache of services/cache_service.py: an insertion-ordered map
 * from key to entry (least recently used first) with lazy and swept expiry,
 * capacity-driven LRU eviction and four counters; and the content key.
 * The clock is the explicit parameter `now`.
 */
module CacheService {
  import opened Prelude
  import Config

  datatype Entry<V> = Entry(value: V, expiresAt: int, createdAt: int)

  /** An entry is expired strictly after its expiry time: it is still live at `expiresAt`. */
  predicate IsExpired<V>(e: Entry<V>, now: int) {
    now > e.expiresAt
  }

  /**
   * An entry is still live at its expiry instant and expired at every later
   * one; once expired it stays expired.
   */
  lemma ExpiryIsInclusive<V>(e: Entry<V>, now: int, later: int)
    requires now <= later
    ensures !IsExpired(e, e.expiresAt) && IsExpired(e, e.expiresAt + 1)
    ensures IsExpired(e, now) ==> IsExpired(e, later)
  {
  }

  /**
   * The most entries the store can hold. A new key arriving at capacity
   * evicts before inserting, so a capacity below one still admits one entry.
   */
  function Bound(maxSize: int): (b: nat)
    ensures b >= 1 && b >= maxSize
    ensures maxSize >= 1 ==> b == maxSize
    ensures maxSize < 1 ==> b == 1
  {
    if maxSize < 1 then 1 else maxSize
  }

  ghost predicate NoDuplicates(s: seq<string>) {
    forall i, j :: 0 <= i < j < |s| ==> s[i] != s[j]
  }

  // ---------------------------------------------------------------------------
  // The order of keys

  /** `s` without the keys listed in `gone`; the others keep their relative order. */
  function Remove(s: seq<string>, gone: seq<string>): (r: seq<string>)
    ensures forall x :: x in r <==> x in s && x !in gone
    ensures |r| <= |s|
    ensures NoDuplicates(s) ==> NoDuplicates(r)
    decreases |s|
  {
    if s == [] then []
    else if s[0] in gone then Remove(s[1..], gone)
    else [s[0]] + Remove(s[1..], gone)
  }

  lemma {:induction false} RemoveAbsent(s: seq<string>, gone: seq<string>)
    requires forall x :: x in gone ==> x !in s
    ensures Remove(s, gone) == s
    decreases |s|
  {
    if s != [] {
      RemoveAbsent(s[1..], gone);
    }
  }

  /** Removing a present key from a duplicate-free order shortens it by exactly one. */
  lemma {:induction false} RemovePresent(s: seq<string>, k: string)
    requires NoDuplicates(s) && k in s
    ensures |Remove(s, [k])| == |s| - 1
    decreases |s|
  {
    if s[0] == k {
      RemoveAbsent(s[1..], [k]);
    } else {
      RemovePresent(s[1..], k);
    }
  }

  /** Removing a key keeps every other key where it was: the order is cut at that key. */
  lemma {:induction false} RemoveAt(s: seq<string>, i: nat)
    requires NoDuplicates(s) && i < |s|
    ensures Remove(s, [s[i]]) == s[..i] + s[i + 1..]
    decreases |s|
  {
    var tail := s[1..];
    if i == 0 {
      RemoveAbsent(tail, [s[0]]);
    } else {
      forall a, b | 0 <= a < b < |tail| ensures tail[a] != tail[b] {
        assert tail[a] == s[a + 1] && tail[b] == s[b + 1];
      }
      assert tail[i - 1] == s[i] && s[0] != s[i];
      RemoveAt(tail, i - 1);
      assert Remove(s, [s[i]]) == [s[0]] + Remove(tail, [s[i]]);
      assert tail[..i - 1] == s[1..i] && tail[i..] == s[i + 1..];
      assert s[..i] == [s[0]] + s[1..i];
    }
  }

  lemma {:induction false} RemoveTwice(s: seq<string>, gone: seq<string>, more: seq<string>)
    ensures Remove(Remove(s, gone), more) == Remove(s, gone + more)
    decreases |s|
  {
    if s != [] {
      RemoveTwice(s[1..], gone, more);
    }
  }

  lemma AppendFresh(s: seq<string>, k: string)
    requires NoDuplicates(s) && k !in s
    ensures NoDuplicates(s + [k])
  {
  }

  /** The keys of `order` whose entries are expired at `now`, in order (the comprehension). */
  function ExpiredKeys<V>(order: seq<string>, entries: map<string, Entry<V>>, now: int): (r: seq<string>)
    ensures forall x :: x in r <==> x in order && x in entries && IsExpired(entries[x], now)
    decreases |order|
  {
    if order == [] then []
    else if order[0] in entries && IsExpired(entries[order[0]], now) then
      [order[0]] + ExpiredKeys(order[1..], entries, now)
    else
      ExpiredKeys(order[1..], entries, now)
  }

  /** The keys of `order` still live at `now`, in order: what a sweep keeps. */
  function LiveKeys<V>(order: seq<string>, entries: map<string, Entry<V>>, now: int): (r: seq<string>)
    ensures forall x :: x in r <==> x in order && !(x in entries && IsExpired(entries[x], now))
    decreases |order|
  {
    if order == [] then []
    else if order[0] in entries && IsExpired(entries[order[0]], now) then
      LiveKeys(order[1..], entries, now)
    else
      [order[0]] + LiveKeys(order[1..], entries, now)
  }

  /** Deleting the expired keys one by one leaves exactly the live keys, in order. */
  lemma {:induction false} RemoveExpiredIsLive<V>(s: seq<string>, gone: seq<string>, entries: map<string, Entry<V>>, now: int)
    requires forall x :: x in s ==> (x in gone <==> x in entries && IsExpired(entries[x], now))
    ensures Remove(s, gone) == LiveKeys(s, entries, now)
    decreases |s|
  {
    if s != [] {
      RemoveExpiredIsLive(s[1..], gone, entries, now);
    }
  }

  /** Every key is either live or expired: the two counts add up to the whole. */
  lemma {:induction false} LiveAndExpiredPartition<V>(s: seq<string>, entries: map<string, Entry<V>>, now: int)
    ensures |LiveKeys(s, entries, now)| + |ExpiredKeys(s, entries, now)| == |s|
    decreases |s|
  {
    if s != [] {
      LiveAndExpiredPartition(s[1..], entries, now);
    }
  }

  /** The state after deleting the keys `done` from the state (`order0`, `entries0`). */
  ghost predicate Swept<V>(order: seq<string>, entries: map<string, Entry<V>>,
                           order0: seq<string>, entries0: map<string, Entry<V>>, done: seq<string>) {
    && order == Remove(order0, done)
    && (forall k :: k in entries <==> k in entries0 && k !in done)
    && (forall k :: k in entries ==> entries[k] == entries0[k])
  }

  lemma SweepStep<V>(order: seq<string>, entries: map<string, Entry<V>>,
                     order0: seq<string>, entries0: map<string, Entry<V>>, done: seq<string>, key: string)
    requires Swept(order, entries, order0, entries0, done)
    ensures Swept(Remove(order, [key]), entries - {key}, order0, entries0, done + [key])
  {
    RemoveTwice(order0, done, [key]);
  }

  /** The deletion loop of `cleanup_expired`: deletes the keys of `doomed` one at a time. */
  method DeleteEach<V>(order: seq<string>, entries: map<string, Entry<V>>, doomed: seq<string>)
    returns (order': seq<string>, entries': map<string, Entry<V>>)
    ensures Swept(order', entries', order, entries, doomed)
  {
    ghost var done: seq<string> := [];
    RemoveAbsent(order, done);
    order', entries' := order, entries;
    var rest := doomed;
    while rest != []
      invariant done + rest == doomed
      invariant Swept(order', entries', order, entries, done)
      decreases |rest|
    {
      var key := rest[0];
      assert rest == [key] + rest[1..];
      assert (done + [key]) + rest[1..] == done + rest;
      SweepStep(order', entries', order, entries, done, key);
      entries' := entries' - {key};
      order' := Remove(order', [key]);
      done, rest := done + [key], rest[1..];
    }
    assert done == doomed by { assert done + rest == done; }
  }

  /** Once every expired key is deleted, exactly the live entries remain, in order. */
  lemma SweepComplete<V>(order: seq<string>, entries: map<string, Entry<V>>,
                         order0: seq<string>, entries0: map<string, Entry<V>>, now: int)
    requires NoDuplicates(order0) && forall k :: k in entries0 <==> k in order0
    requires Swept(order, entries, order0, entries0, ExpiredKeys(order0, entries0, now))
    ensures order == LiveKeys(order0, entries0, now)
    ensures NoDuplicates(order) && forall k :: k in entries <==> k in order
    ensures forall k :: k in entries <==> k in entries0 && !IsExpired(entries0[k], now)
    ensures forall k :: k in entries ==> entries[k] == entries0[k]
    ensures |ExpiredKeys(order0, entries0, now)| + |order| == |order0|
  {
    RemoveExpiredIsLive(order0, ExpiredKeys(order0, entries0, now), entries0, now);
    LiveAndExpiredPartition(order0, entries0, now);
  }

  /** The key order, the entries and the four counters of a cache at one moment. */
  datatype Snapshot<V> = Snapshot(order: seq<string>, entries: map<string, Entry<V>>,
                                  hits: nat, misses: nat, evictions: nat, sets: nat)

  datatype Stats = Stats(size: nat, maxSize: int, hits: nat, misses: nat, evictions: nat,
                         totalSets: nat, ttlSeconds: int)

  // ---------------------------------------------------------------------------
  // The cache

  class LRUCache<V> {
    const enabled: bool
    const maxSize: int
    const ttlSeconds: int

    /** The keys from least to most recently used. */
    var order: seq<string>
    var entries: map<string, Entry<V>>

    var hits: nat
    var misses: nat
    var evictions: nat
    var sets: nat

    ghost predicate Valid()
      reads this
    {
      && NoDuplicates(order)
      && (forall k :: k in entries <==> k in order)
      && |order| <= Bound(maxSize)
      && (!enabled ==> order == [])
    }

    constructor (enabled: bool := Config.CACHE_ENABLED, maxSize: int := Config.MAX_CACHE_SIZE,
                 ttlSeconds: int := Config.CACHE_TTL_SECONDS)
      ensures Valid()
      ensures this.enabled == enabled && this.maxSize == maxSize && this.ttlSeconds == ttlSeconds
      ensures order == [] && entries == map[]
      ensures hits == 0 && misses == 0 && evictions == 0 && sets == 0
    {
      this.enabled := enabled;
      this.maxSize := maxSize;
      this.ttlSeconds := ttlSeconds;
      order := [];
      entries := map[];
      hits, misses, evictions, sets := 0, 0, 0, 0;
    }

    /** The mutable part of the cache as one value. */
    function State(): Snapshot<V>
      reads this
    {
      Snapshot(order, entries, hits, misses, evictions, sets)
    }

    /** What `Get(key, now)` returns: the stored value when the key is present and live. */
    function Peek(key: string, now: int): Option<V>
      reads this
    {
      if enabled && key in entries && !IsExpired(entries[key], now) then Some(entries[key].value) else None
    }

    /** Drops the least recently used entry, if there is one. */
    method EvictLru()
      requires Valid()
      modifies this
      ensures Valid()
      ensures old(order) == [] ==> order == [] && entries == old(entries) && evictions == old(evictions)
      ensures old(order) != [] ==>
        && order == old(order)[1..]
        && entries == old(entries) - {old(order)[0]}
        && evictions == old(evictions) + 1
      ensures hits == old(hits) && misses == old(misses) && sets == old(sets)
    {
      if order != [] {
        var key := order[0];
        assert forall x :: x in order[1..] ==> x != key;
        entries := entries - {key};
        order := order[1..];
        evictions := evictions + 1;
      }
    }

    method Get(key: string, now: int) returns (r: Option<V>)
      requires Valid()
      modifies this
      ensures Valid()
      ensures r == old(Peek(key, now))
      ensures !enabled ==> order == old(order) && entries == old(entries) && hits == old(hits) && misses == old(misses)
      // a live key: a hit, moved to the most recent end
      ensures enabled && key in old(entries) && !IsExpired(old(entries)[key], now) ==>
        && order == Remove(old(order), [key]) + [key]
        && entries == old(entries)
        && hits == old(hits) + 1 && misses == old(misses)
      // an expired key: deleted on the spot, a miss
      ensures enabled && key in old(entries) && IsExpired(old(entries)[key], now) ==>
        && order == Remove(old(order), [key])
        && entries == old(entries) - {key}
        && hits == old(hits) && misses == old(misses) + 1
      // an absent key: nothing changes but the miss count
      ensures enabled && key !in old(entries) ==>
        && order == old(order) && entries == old(entries)
        && hits == old(hits) && misses == old(misses) + 1
      ensures evictions == old(evictions) && sets == old(sets)
    {
      if !enabled {
        return None;
      }
      if key in entries {
        var entry := entries[key];
        if IsExpired(entry, now) {
          Delete(key);
          misses := misses + 1;
          return None;
        }
        MoveToEnd(key);
        hits := hits + 1;
        return Some(entry.value);
      }
      misses := misses + 1;
      return None;
    }

    /** `move_to_end`: the key becomes the most recently used one; nothing else changes. */
    method MoveToEnd(key: string)
      requires Valid() && key in entries
      modifies this
      ensures Valid()
      ensures order == Remove(old(order), [key]) + [key]
      ensures entries == old(entries)
      ensures hits == old(hits) && misses == old(misses) && evictions == old(evictions) && sets == old(sets)
    {
      RemovePresent(order, key);
      AppendFresh(Remove(order, [key]), key);
      order := Remove(order, [key]) + [key];
    }

    /** Whether `Set(key, …)` on the current state evicts an entry first. */
    ghost predicate EvictsOnSet(key: string)
      reads this
    {
      enabled && key !in entries && |order| >= maxSize && order != []
    }

    method Set(key: string, value: V, now: int, ttl: Option<int> := None)
      requires Valid()
      modifies this
      ensures Valid()
      ensures !enabled ==> order == old(order) && entries == old(entries) && evictions == old(evictions) && sets == old(sets)
      // the key becomes the most recent entry, expiring `ttl` (default: the configured TTL) from now
      ensures enabled ==>
        && key in entries && entries[key] == Entry(value, now + ttl.GetOr(ttlSeconds), now)
        && order[|order| - 1] == key
        && sets == old(sets) + 1
      // so a later `get` finds the value until the expiry time, inclusive, and not after
      ensures enabled ==> forall t :: Peek(key, t) == Some(value) <==> t <= now + ttl.GetOr(ttlSeconds)
      // overwriting an existing key never evicts
      ensures enabled && key in old(entries) ==>
        && order == Remove(old(order), [key]) + [key]
        && entries == old(entries)[key := Entry(value, now + ttl.GetOr(ttlSeconds), now)]
        && evictions == old(evictions)
      // a new key at capacity evicts the least recently used entry first
      ensures old(EvictsOnSet(key)) ==>
        && order == old(order)[1..] + [key]
        && entries == (old(entries) - {old(order)[0]})[key := Entry(value, now + ttl.GetOr(ttlSeconds), now)]
        && evictions == old(evictions) + 1
      ensures enabled && key !in old(entries) && !old(EvictsOnSet(key)) ==>
        && order == old(order) + [key]
        && entries == old(entries)[key := Entry(value, now + ttl.GetOr(ttlSeconds), now)]
        && evictions == old(evictions)
      ensures hits == old(hits) && misses == old(misses)
    {
      if !enabled {
        return;
      }
      var entry := Entry(value, now + ttl.GetOr(ttlSeconds), now);
      if key in entries {
        Overwrite(key, entry);
      } else {
        Insert(key, entry);
      }
      sets := sets + 1;
    }

    /** The overwrite half of `set`: the key moves to the most recent end with its new entry. */
    method Overwrite(key: string, entry: Entry<V>)
      requires Valid() && key in entries
      modifies this
      ensures Valid()
      ensures order == Remove(old(order), [key]) + [key]
      ensures entries == old(entries)[key := entry]
      ensures hits == old(hits) && misses == old(misses) && evictions == old(evictions) && sets == old(sets)
    {
      MoveToEnd(key);
      entries := entries[key := entry];
    }

    /** The new-key half of `set`: evict the least recently used entry when full, then append. */
    method Insert(key: string, entry: Entry<V>)
      requires Valid() && enabled && key !in entries
      modifies this
      ensures Valid()
      ensures old(EvictsOnSet(key)) ==>
        && order == old(order)[1..] + [key]
        && entries == (old(entries) - {old(order)[0]})[key := entry]
        && evictions == old(evictions) + 1
      ensures !old(EvictsOnSet(key)) ==>
        && order == old(order) + [key]
        && entries == old(entries)[key := entry]
        && evictions == old(evictions)
      ensures hits == old(hits) && misses == old(misses) && sets == old(sets)
    {
      if |order| >= maxSize {
        EvictLru();
      }
      AppendFresh(order, key);
      entries := entries[key := entry];
      order := order + [key];
    }

    /** Removes the key if present; the counters are untouched. */
    method Delete(key: string)
      requires Valid()
      modifies this
      ensures Valid()
      ensures entries == old(entries) - {key}
      ensures order == Remove(old(order), [key])
      ensures key !in old(entries) ==> order == old(order)
      ensures hits == old(hits) && misses == old(misses) && evictions == old(evictions) && sets == old(sets)
    {
      if key in entries {
        entries := entries - {key};
        order := Remove(order, [key]);
      } else {
        RemoveAbsent(order, [key]);
      }
    }

    /** Empties the store; the counters are untouched. */
    method Clear()
      requires Valid()
      modifies this
      ensures Valid()
      ensures order == [] && entries == map[]
      ensures hits == old(hits) && misses == old(misses) && evictions == old(evictions) && sets == old(sets)
    {
      entries := map[];
      order := [];
    }

    /**
     * Deletes every expired entry and returns how many there were; the
     * survivors keep their values and their order.
     */
    method PurgeExpired(now: int) returns (removed: nat)
      requires Valid()
      modifies this
      ensures Valid()
      ensures order == LiveKeys(old(order), old(entries), now)
      ensures forall k :: k in entries <==> k in old(entries) && !IsExpired(old(entries)[k], now)
      ensures forall k :: k in entries ==> entries[k] == old(entries)[k]
      ensures removed == |ExpiredKeys(old(order), old(entries), now)|
      ensures removed + |order| == |old(order)|
      ensures hits == old(hits) && misses == old(misses) && evictions == old(evictions) && sets == old(sets)
    {
      var expiredKeys := ExpiredKeys(order, entries, now);
      ghost var order0, entries0 := order, entries;
      order, entries := DeleteEach(order, entries, expiredKeys);
      SweepComplete(order, entries, order0, entries0, now);
      removed := |expiredKeys|;
    }

    /** `size()`: purges the expired entries, then counts what is left. */
    method Size(now: int) returns (n: nat)
      requires Valid()
      modifies this
      ensures Valid()
      ensures order == LiveKeys(old(order), old(entries), now)
      ensures forall k :: k in entries <==> k in old(entries) && !IsExpired(old(entries)[k], now)
      ensures forall k :: k in entries ==> entries[k] == old(entries)[k]
      ensures n == |order| && n <= Bound(maxSize)
      ensures hits == old(hits) && misses == old(misses) && evictions == old(evictions) && sets == old(sets)
    {
      var _ := PurgeExpired(now);
      n := |order|;
    }

    /** `cleanup_expired()`: purges the expired entries and returns how many were removed. */
    method CleanupExpired(now: int) returns (removed: nat)
      requires Valid()
      modifies this
      ensures Valid()
      ensures order == LiveKeys(old(order), old(entries), now)
      ensures forall k :: k in entries <==> k in old(entries) && !IsExpired(old(entries)[k], now)
      ensures forall k :: k in entries ==> entries[k] == old(entries)[k]
      ensures removed + |order| == |old(order)|
      ensures hits == old(hits) && misses == old(misses) && evictions == old(evictions) && sets == old(sets)
    {
      removed := PurgeExpired(now);
    }

    /** The integer part of `get_stats()`: no purge, so expired entries still count. */
    function GetStats(): (s: Stats)
      requires Valid()
      reads this
      ensures s.size == |order| <= Bound(maxSize)
      ensures s.hits == hits && s.misses == misses && s.evictions == evictions && s.totalSets == sets
      ensures s.maxSize == maxSize && s.ttlSeconds == ttlSeconds
    {
      Stats(|order|, maxSize, hits, misses, evictions, sets, ttlSeconds)
    }

    method ResetStats()
      requires Valid()
      modifies this
      ensures Valid()
      ensures order == old(order) && entries == old(entries)
      ensures hits == 0 && misses == 0 && evictions == 0 && sets == 0
    {
      hits, misses, evictions, sets := 0, 0, 0, 0;
    }
  }

  // ---------------------------------------------------------------------------
  // The cache key

  /** A SHA-256 digest: 32 bytes. */
  type Digest = d: Bytes | |d| == 32 witness seq(32, _ => 0)

  predicate IsHexDigit(c: char) {
    '0' <= c <= '9' || 'a' <= c <= 'f'
  }

  predicate IsLowerHex(s: string) {
    forall i :: 0 <= i < |s| ==> IsHexDigit(s[i])
  }

  /** The lower-case hexadecimal digit for a nibble. */
  function HexChar(v: nat): (c: char)
    requires v < 16
    ensures IsHexDigit(c)
  {
    if v < 10 then ('0' as int + v) as char else ('a' as int + v - 10) as char
  }

  function HexValue(c: char): (v: nat)
    requires IsHexDigit(c)
    ensures v < 16 && HexChar(v) == c
  {
    if c <= '9' then c as int - '0' as int else c as int - 'a' as int + 10
  }

  lemma HexCharValue(v: nat)
    requires v < 16
    ensures HexValue(HexChar(v)) == v
  {
  }

  /** `bytes.hex()`: two lower-case hexadecimal digits per byte, high nibble first. */
  function HexDigest(d: Bytes): (h: string)
    ensures |h| == 2 * |d|
    ensures IsLowerHex(h)
  {
    if d == [] then []
    else [HexChar(d[0] as int / 16), HexChar(d[0] as int % 16)] + HexDigest(d[1..])
  }

  /** Reads a hex string back into bytes: the partner of HexDigest. */
  function ParseHex(h: string): Bytes
    requires |h| % 2 == 0 && IsLowerHex(h)
    decreases |h|
  {
    if h == [] then []
    else [(16 * HexValue(h[0]) + HexValue(h[1])) as byte] + ParseHex(h[2..])
  }

  lemma {:induction false} HexRoundTrip(d: Bytes)
    ensures ParseHex(HexDigest(d)) == d
    decreases |d|
  {
    if d != [] {
      var hi, lo := d[0] as int / 16, d[0] as int % 16;
      var tail := HexDigest(d[1..]);
      var h := [HexChar(hi), HexChar(lo)] + tail;
      assert HexDigest(d) == h;
      assert h[2..] == tail;
      HexCharValue(hi);
      HexCharValue(lo);
      HexRoundTrip(d[1..]);
    }
  }

  /** `generate_cache_key`: the hex form of the content's SHA-256 digest. */
  function GenerateCacheKey(content: Bytes, sha256: Bytes -> Digest): (key: string)
    ensures |key| == 64 && IsLowerHex(key)
  {
    HexDigest(sha256(content))
  }

  /** Two contents get the same key exactly when their digests agree. */
  lemma CacheKeyMatchesDigest(a: Bytes, b: Bytes, sha256: Bytes -> Digest)
    ensures GenerateCacheKey(a, sha256) == GenerateCacheKey(b, sha256) <==> sha256(a) == sha256(b)
  {
    HexRoundTrip(sha256(a));
    HexRoundTrip(sha256(b));
  }
}
