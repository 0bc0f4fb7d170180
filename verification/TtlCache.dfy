/** The in-memory TTL cache, against the unbounded map it stands in for. */
module TtlCache {
  import opened Collections

  datatype Entry<+V> = Entry(value: V, expireAt: real)

  function Max(a: real, b: real): real { if a < b then b else a }

  predicate Live<K, V>(items: map<K, Entry<V>>, k: K, now: real) {
    k in items && now < items[k].expireAt
  }

  function LiveSet<K, V>(items: map<K, Entry<V>>, now: real): set<K> {
    set k | k in items && now < items[k].expireAt
  }

  /** The keys whose entries are unexpired, in dict order. */
  function LiveKeys<K, V>(keys: seq<K>, items: map<K, Entry<V>>, now: real): seq<K> {
    if keys == [] then []
    else (if Live(items, keys[0], now) then [keys[0]] else []) + LiveKeys(keys[1..], items, now)
  }

  function DeadKeys<K, V>(keys: seq<K>, items: map<K, Entry<V>>, now: real): seq<K> {
    if keys == [] then []
    else (if Live(items, keys[0], now) then [] else [keys[0]]) + DeadKeys(keys[1..], items, now)
  }

  /** Entry k is held as last set, or evicted, or ran out before the clock. */
  ghost predicate KeyOk<K, V>(items: map<K, Entry<V>>, last: map<K, Entry<V>>, evicted: set<K>, clock: real, k: K) {
    && (k in items ==> k in last && items[k] == last[k] && k !in evicted)
    && (k in last && k !in items ==> k in evicted || last[k].expireAt <= clock)
    && (k in evicted ==> k in last)
  }

  /** What pruning leaves: the unexpired entries, in their old order. */
  ghost predicate IsPruned<K(!new), V>(before: Dict<K, Entry<V>>, after: Dict<K, Entry<V>>, now: real) {
    && WellFormed(after)
    && after.keys == LiveKeys(before.keys, before.items, now)
    && forall k :: PrunedAt(before.items, after.items, now, k)
  }

  ghost predicate PrunedAt<K, V>(before: map<K, Entry<V>>, after: map<K, Entry<V>>, now: real, k: K) {
    (k in after <==> Live(before, k, now)) && (k in after ==> after[k] == before[k])
  }

  ghost predicate GoneAt<K, V>(before: map<K, Entry<V>>, after: map<K, Entry<V>>, gone: seq<K>, k: K) {
    (k in after <==> k in before && k !in gone) && (k in after ==> after[k] == before[k])
  }

  // ---------------------------------------------------------------- lemmas

  lemma {:induction false} DeadKeysFacts<K(!new), V>(keys: seq<K>, items: map<K, Entry<V>>, now: real)
    ensures forall k :: k in DeadKeys(keys, items, now) <==> k in keys && !Live(items, k, now)
    ensures NoDuplicates(keys) ==> NoDuplicates(DeadKeys(keys, items, now))
  {
    if keys != [] {
      DeadKeysFacts(keys[1..], items, now);
      assert keys == [keys[0]] + keys[1..];
      assert NoDuplicates(keys) ==> keys[0] !in keys[1..];
    }
  }

  /** Deleting the expired keys one after another leaves the unexpired ones in order. */
  function Minus<K(==)>(keys: seq<K>, gone: seq<K>): seq<K> {
    if gone == [] then keys else Without(Minus(keys, gone[..|gone| - 1]), gone[|gone| - 1])
  }

  lemma {:induction false} MinusSkips<K(!new)>(first: K, keys: seq<K>, gone: seq<K>)
    requires first !in gone
    ensures Minus([first] + keys, gone) == [first] + Minus(keys, gone)
  {
    if gone != [] {
      assert gone == gone[..|gone| - 1] + [gone[|gone| - 1]];
      MinusSkips(first, keys, gone[..|gone| - 1]);
      var rest := Minus(keys, gone[..|gone| - 1]);
      assert ([first] + rest)[1..] == rest;
    }
  }

  lemma {:induction false} MinusFirst<K(!new)>(first: K, keys: seq<K>, gone: seq<K>)
    ensures Minus([first] + keys, [first] + gone) == Minus(keys, gone)
  {
    var all := [first] + gone;
    if gone == [] {
      assert all[..0] == [];
      assert Minus([first] + keys, []) == [first] + keys;
    } else {
      assert all[..|all| - 1] == [first] + gone[..|gone| - 1];
      MinusFirst(first, keys, gone[..|gone| - 1]);
    }
  }

  lemma {:induction false} MinusDeadIsLive<K(!new), V>(keys: seq<K>, items: map<K, Entry<V>>, now: real)
    requires NoDuplicates(keys)
    ensures Minus(keys, DeadKeys(keys, items, now)) == LiveKeys(keys, items, now)
  {
    if keys != [] {
      var rest := keys[1..];
      assert keys == [keys[0]] + rest && keys[0] !in rest;
      DeadKeysFacts(rest, items, now);
      MinusDeadIsLive(rest, items, now);
      if Live(items, keys[0], now) {
        assert DeadKeys(keys, items, now) == DeadKeys(rest, items, now);
        MinusSkips(keys[0], rest, DeadKeys(rest, items, now));
      } else {
        MinusFirst(keys[0], rest, DeadKeys(rest, items, now));
      }
    }
  }

  /** The keys `gone` are deleted from the dict. */
  ghost predicate Pruning<K(!new), V>(before: Dict<K, Entry<V>>, d: Dict<K, Entry<V>>, gone: seq<K>) {
    && WellFormed(d) && d.keys == Minus(before.keys, gone)
    && forall k :: GoneAt(before.items, d.items, gone, k)
  }

  lemma PruneOne<K(!new), V>(before: Dict<K, Entry<V>>, d: Dict<K, Entry<V>>, expired: seq<K>, i: nat)
    requires i < |expired| && Pruning(before, d, expired[..i]) && NoDuplicates(expired)
    requires expired[i] in before.items
    ensures expired[i] in d.items && Pruning(before, d.Remove(expired[i]), expired[..i + 1])
  {
    var key, gone := expired[i], expired[..i + 1];
    assert gone[..i] == expired[..i] && gone == expired[..i] + [key] && key !in expired[..i];
    assert GoneAt(before.items, d.items, expired[..i], key);
    WithoutFacts(d.keys, key);
    forall k ensures GoneAt(before.items, d.Remove(key).items, gone, k) {
      assert GoneAt(before.items, d.items, expired[..i], k);
    }
  }

  lemma AllPruned<K(!new), V>(before: Dict<K, Entry<V>>, d: Dict<K, Entry<V>>, now: real)
    requires WellFormed(before) && Pruning(before, d, DeadKeys(before.keys, before.items, now))
    ensures IsPruned(before, d, now)
  {
    var gone := DeadKeys(before.keys, before.items, now);
    MinusDeadIsLive(before.keys, before.items, now);
    DeadKeysFacts(before.keys, before.items, now);
    forall k ensures PrunedAt(before.items, d.items, now, k) {
      assert GoneAt(before.items, d.items, gone, k);
    }
  }

  lemma {:induction false} LiveKeysFacts<K(!new), V>(keys: seq<K>, items: map<K, Entry<V>>, now: real)
    ensures forall k :: k in LiveKeys(keys, items, now) <==> k in keys && Live(items, k, now)
    ensures NoDuplicates(keys) ==> NoDuplicates(LiveKeys(keys, items, now))
  {
    if keys != [] {
      LiveKeysFacts(keys[1..], items, now);
      assert keys == [keys[0]] + keys[1..];
      assert NoDuplicates(keys) ==> keys[0] !in keys[1..];
    }
  }

  /** As many keys are left by pruning as there are unexpired entries. */
  lemma LiveCount<K(!new), V>(d: Dict<K, Entry<V>>, now: real)
    requires WellFormed(d)
    ensures |LiveKeys(d.keys, d.items, now)| == |LiveSet(d.items, now)| <= |d.keys|
  {
    LiveKeysFacts(d.keys, d.items, now);
    DistinctCount(LiveKeys(d.keys, d.items, now), LiveSet(d.items, now));
    NoMoreLive(d.keys, d.items, now);
  }

  lemma {:induction false} NoMoreLive<K, V>(keys: seq<K>, items: map<K, Entry<V>>, now: real)
    ensures |LiveKeys(keys, items, now)| <= |keys|
  {
    if keys != [] { NoMoreLive(keys[1..], items, now); }
  }

  lemma {:induction false} WithoutLength<K(!new)>(s: seq<K>, x: K)
    ensures |Without(s, x)| == if x in s then |s| - 1 else |s|
  {
    if s != [] {
      assert s == [s[0]] + s[1..];
      WithoutLength(s[1..], x);
    }
  }

  lemma RemoveFacts<K(!new), V>(d: Dict<K, V>, k: K)
    requires WellFormed(d)
    ensures WellFormed(d.Remove(k))
    ensures |d.Remove(k).keys| == if k in d.items then |d.keys| - 1 else |d.keys|
  {
    WithoutFacts(d.keys, k);
    WithoutLength(d.keys, k);
  }

  lemma PutFacts<K(!new), V>(d: Dict<K, V>, k: K, v: V)
    requires WellFormed(d)
    ensures WellFormed(d.Put(k, v))
    ensures |d.Put(k, v).keys| == if k in d.items then |d.keys| else |d.keys| + 1
  {
  }

  /** The entry a set pushes out of a cache of this size: the oldest unexpired one, if too many are. */
  ghost function Evicted<K, V>(d: Dict<K, Entry<V>>, now: real, maxSize: int): set<K> {
    var live := LiveKeys(d.keys, d.items, now);
    if live != [] && |live| >= maxSize then {live[0]} else {}
  }

  /** Something unexpired is pushed out if and only if maxSize unexpired entries are held (and one at
      least), and then it is the one inserted before all other unexpired ones. */
  lemma EvictsOnlyWhenFullOfLive<K(!new), V>(d: Dict<K, Entry<V>>, now: real, maxSize: int)
    requires WellFormed(d)
    ensures Evicted(d, now, maxSize) != {} <==> LiveSet(d.items, now) != {} && |LiveSet(d.items, now)| >= maxSize
    ensures forall k :: k in Evicted(d, now, maxSize) ==>
      && Live(d.items, k, now)
      && exists i :: 0 <= i < |d.keys| && d.keys[i] == k && forall j :: 0 <= j < i ==> !Live(d.items, d.keys[j], now)
  {
    LiveCount(d, now);
    LiveKeysFacts(d.keys, d.items, now);
    var live := LiveKeys(d.keys, d.items, now);
    if live != [] {
      assert live[0] in live;
      FirstLive(d.keys, d.items, now);
    }
  }

  lemma {:induction false} FirstLive<K, V>(keys: seq<K>, items: map<K, Entry<V>>, now: real)
    requires LiveKeys(keys, items, now) != []
    ensures exists i :: 0 <= i < |keys| && keys[i] == LiveKeys(keys, items, now)[0]
                        && forall j :: 0 <= j < i ==> !Live(items, keys[j], now)
  {
    if Live(items, keys[0], now) {
      assert keys[0] == LiveKeys(keys, items, now)[0];
    } else {
      FirstLive(keys[1..], items, now);
      var i :| 0 <= i < |keys| - 1 && keys[1..][i] == LiveKeys(keys[1..], items, now)[0] &&
        forall j :: 0 <= j < i ==> !Live(items, keys[1..][j], now);
      forall j | 0 <= j < i + 1 ensures !Live(items, keys[j], now) {
        if j > 0 { assert keys[1..][j - 1] == keys[j]; }
      }
      assert keys[i + 1] == keys[1..][i];
    }
  }

  lemma AfterPrune<K(!new), V>(before: Dict<K, Entry<V>>, after: Dict<K, Entry<V>>, last: map<K, Entry<V>>,
                               evicted: set<K>, clock: real, now: real)
    requires IsPruned(before, after, now)
    requires forall k :: KeyOk(before.items, last, evicted, clock, k)
    ensures forall k :: KeyOk(after.items, last, evicted, Max(clock, now), k)
  {
    forall k ensures KeyOk(after.items, last, evicted, Max(clock, now), k) {
      assert KeyOk(before.items, last, evicted, clock, k) && PrunedAt(before.items, after.items, now, k);
    }
  }

  // ---------------------------------------------------------------- the cache

  datatype SetResult = Stored | StopIteration

  class InMemoryTTLCache<K(==, !new), V(!new)> {
    var cache: Dict<K, Entry<V>>
    const defaultTtl: int
    const maxSize: int
    /** The unbounded map: each key's latest set that was not deleted. */
    ghost var last: map<K, Entry<V>>
    /** The keys pushed out by a set since they were last set or deleted. */
    ghost var evicted: set<K>
    /** The latest time any call has read. */
    ghost var clock: real

    ghost predicate Valid()
      reads this
    {
      && WellFormed(cache)
      && (maxSize >= 1 ==> |cache.keys| <= maxSize)
      && forall k :: KeyOk(cache.items, last, evicted, clock, k)
    }

    constructor (defaultTtl: int, maxSize: int)
      ensures Valid() && last == map[] && evicted == {} && cache == Dict([], map[])
      ensures this.defaultTtl == defaultTtl && this.maxSize == maxSize
    {
      this.defaultTtl, this.maxSize := defaultTtl, maxSize;
      cache := Dict([], map[]);
      last, evicted, clock := map[], {}, 0.0;
    }

    /** Deletes a key in the middle of a call. */
    method Drop(key: K)
      requires WellFormed(cache) && key in cache.items
      modifies this`cache
      ensures cache == old(cache).Remove(key) && WellFormed(cache) && |cache.keys| == |old(cache).keys| - 1
    {
      RemoveFacts(cache, key);
      cache := cache.Remove(key);
    }

    /** A hit is the latest set of the key, undeleted and unexpired; a miss means there is none, or that
        it was evicted, or that it had run out by the latest time any call has read. */
    method Get(key: K, now: real) returns (found: Option<V>)
      requires Valid()
      modifies this
      ensures Valid() && last == old(last) && evicted == old(evicted) && clock == Max(old(clock), now)
      ensures found.Some? ==> Live(last, key, now) && key !in evicted && found.value == last[key].value
      ensures found.None? ==> !Live(last, key, clock) || key in evicted
    {
      ghost var before := cache;
      assert KeyOk(cache.items, last, evicted, clock, key);
      clock := Max(clock, now);
      found := None;
      if key in cache.items {
        var entry := cache.items[key];
        if now < entry.expireAt {
          found := Some(entry.value);
        } else {
          Drop(key);
        }
      }
      forall k ensures KeyOk(cache.items, last, evicted, clock, k) {
        assert KeyOk(before.items, last, evicted, old(clock), k);
      }
    }

    /** As Get for each of the keys, at one moment. */
    method GetMany(keys: seq<K>, now: real) returns (result: map<K, V>)
      requires Valid()
      modifies this
      ensures Valid() && last == old(last) && evicted == old(evicted)
      ensures forall k :: k in result ==>
        k in keys && Live(last, k, now) && k !in evicted && result[k] == last[k].value
      ensures forall k :: k in keys && k !in result ==> !Live(last, k, clock) || k in evicted
      ensures clock == if keys == [] then old(clock) else Max(old(clock), now)
    {
      result := map[];
      for i := 0 to |keys|
        invariant Valid() && last == old(last) && evicted == old(evicted)
        invariant clock == if i == 0 then old(clock) else Max(old(clock), now)
        invariant forall k :: k in result ==>
          k in keys[..i] && Live(last, k, now) && k !in evicted && result[k] == last[k].value
        invariant forall k :: k in keys[..i] && k !in result ==> !Live(last, k, clock) || k in evicted
      {
        var found := Get(keys[i], now);
        if found.Some? {
          result := result[keys[i] := found.value];
        }
        assert keys[..i + 1] == keys[..i] + [keys[i]];
      }
      assert keys[..|keys|] == keys;
    }

    /** Collects the expired keys, then deletes them. */
    method PruneExpired(now: real)
      requires WellFormed(cache)
      modifies this`cache
      ensures IsPruned(old(cache), cache, now)
    {
      ghost var before := cache;
      var expired := DeadKeys(cache.keys, cache.items, now);
      DeadKeysFacts(cache.keys, cache.items, now);
      for i := 0 to |expired|
        invariant Pruning(before, cache, expired[..i])
      {
        PruneOne(before, cache, expired, i);
        Drop(expired[i]);
      }
      assert expired[..|expired|] == expired;
      AllPruned(before, cache, now);
    }

    /** What set does first: prune a full cache, and if it is still full delete its oldest entry. */
    method MakeRoom(now: real) returns (room: bool)
      requires Valid()
      modifies this
      ensures Valid() && last == old(last)
      ensures room <==> maxSize >= 1 || LiveSet(old(cache).items, now) != {}
      ensures maxSize >= 1 ==> |cache.keys| < maxSize
      ensures evicted == old(evicted) + Evicted(old(cache), now, maxSize)
    {
      ghost var before := cache;
      LiveCount(before, now);
      room := true;
      if |cache.keys| >= maxSize {
        PruneExpired(now);
        AfterPrune(before, cache, last, evicted, clock, now);
        clock := Max(clock, now);
        if |cache.keys| >= maxSize {
          if |cache.keys| == 0 {
            return false;
          }
          EvictOldest();
        }
      }
    }

    /** Deletes the key that comes first in the dict. */
    method EvictOldest()
      requires Valid() && cache.keys != []
      modifies this`cache, this`evicted
      ensures Valid() && evicted == old(evicted) + {old(cache).keys[0]}
      ensures |cache.keys| == |old(cache).keys| - 1
    {
      ghost var before, wasEvicted := cache, evicted;
      var oldest := cache.keys[0];
      assert oldest in cache.keys;
      Drop(oldest);
      evicted := evicted + {oldest};
      forall k ensures KeyOk(cache.items, last, evicted, clock, k) {
        assert KeyOk(before.items, last, wasEvicted, clock, k);
      }
    }

    /** A full cache first makes room, even when the key is already in it. With no room at all and nothing
        to delete it raises; otherwise the entry is the key's latest and is held. */
    method Set(key: K, value: V, ttl: Option<int>, setAt: real, prunedAt: real) returns (result: SetResult)
      requires Valid()
      modifies this
      ensures Valid()
      ensures result == StopIteration <==> maxSize <= 0 && LiveSet(old(cache).items, prunedAt) == {}
      ensures result == StopIteration ==> last == old(last) && evicted == old(evicted)
      ensures result == Stored ==>
        && last == old(last)[key := Entry(value, setAt + (if ttl.Some? then ttl.value else defaultTtl) as real)]
        && evicted == old(evicted) + Evicted(old(cache), prunedAt, maxSize) - {key}
    {
      ghost var start := cache;
      LiveCount(start, prunedAt);
      var ttlSeconds := if ttl.Some? then ttl.value else defaultTtl;
      var expireAt := setAt + ttlSeconds as real;
      var room := MakeRoom(prunedAt);
      if !room {
        return StopIteration;
      }
      Store(key, Entry(value, expireAt));
      result := Stored;
    }

    method Store(key: K, entry: Entry<V>)
      requires Valid() && (maxSize >= 1 ==> |cache.keys| < maxSize)
      modifies this`cache, this`last, this`evicted
      ensures Valid() && last == old(last)[key := entry] && evicted == old(evicted) - {key}
    {
      ghost var before, wasLast, wasEvicted := cache, last, evicted;
      PutFacts(cache, key, entry);
      cache := cache.Put(key, entry);
      last := last[key := entry];
      evicted := evicted - {key};
      forall k ensures KeyOk(cache.items, last, evicted, clock, k) {
        assert KeyOk(before.items, wasLast, wasEvicted, clock, k);
      }
    }

    method Delete(key: K)
      requires Valid()
      modifies this
      ensures Valid() && last == old(last) - {key} && evicted == old(evicted) - {key}
    {
      ghost var before, wasLast, wasEvicted := cache, last, evicted;
      RemoveFacts(cache, key);
      cache := cache.Remove(key);
      last, evicted := last - {key}, evicted - {key};
      forall k ensures KeyOk(cache.items, last, evicted, clock, k) {
        assert KeyOk(before.items, wasLast, wasEvicted, clock, k);
      }
    }

    /** The number of entries a get at this moment would hit. */
    method Size(now: real) returns (n: nat)
      requires Valid()
      ensures n == |LiveSet(cache.items, now)|
      ensures maxSize >= 1 ==> n <= maxSize
    {
      n := 0;
      for i := 0 to |cache.keys|
        invariant n == |LiveKeys(cache.keys[..i], cache.items, now)|
      {
        LiveKeysAppend(cache.keys[..i], cache.keys[i], cache.items, now);
        assert cache.keys[..i + 1] == cache.keys[..i] + [cache.keys[i]];
        assert cache.keys[i] in cache.keys;
        if now < cache.items[cache.keys[i]].expireAt {
          n := n + 1;
        }
      }
      assert cache.keys[..|cache.keys|] == cache.keys;
      LiveCount(cache, now);
    }
  }

  lemma {:induction false} LiveKeysAppend<K, V>(keys: seq<K>, k: K, items: map<K, Entry<V>>, now: real)
    ensures LiveKeys(keys + [k], items, now) == LiveKeys(keys, items, now) + (if Live(items, k, now) then [k] else [])
  {
    if keys == [] {
      assert keys + [k] == [k];
    } else {
      var all := keys + [k];
      assert all[0] == keys[0] && all[1..] == keys[1..] + [k];
      LiveKeysAppend(keys[1..], k, items, now);
    }
  }

  // ---------------------------------------------------------------- against the unbounded map

  /** Until something is evicted, the held and the remembered unexpired entries are the same ones, so no
      get after the clock differs from one on the unbounded map. */
  lemma HoldsAllLive<K(!new), V>(d: Dict<K, Entry<V>>, last: map<K, Entry<V>>, evicted: set<K>, clock: real, now: real)
    requires WellFormed(d) && forall k :: KeyOk(d.items, last, evicted, clock, k)
    requires clock <= now
    ensures LiveSet(d.items, now) == LiveSet(last, now) - evicted
  {
    forall k ensures k in LiveSet(d.items, now) <==> k in LiveSet(last, now) - evicted {
      assert KeyOk(d.items, last, evicted, clock, k);
    }
  }
}
