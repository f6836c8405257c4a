/**
 The bounded in-memory cache with expiry, from pkg/registry/docs/docs_client.go.
 */
module TtlCache {
  import opened Sequences

  const MAX_CACHE_ENTRIES: nat := 256

  type Time = int

  datatype CacheEntry<V> = CacheEntry(data: V, expiresAt: Time)

  type Store<V> = map<string, CacheEntry<V>>

  /** What a get leaves: an entry past its time is dropped. */
  function AfterGet<V>(store: Store<V>, key: string, now: Time): Store<V> {
    if key in store && now > store[key].expiresAt then store - {key} else store
  }

  function Hit<V>(store: Store<V>, key: string, now: Time): Option<V> {
    if key in store && now <= store[key].expiresAt then Some(store[key].data) else None
  }

  /** The entries that are still good after now. */
  function Unexpired<V>(store: Store<V>, now: Time): Store<V> {
    map k | k in store && store[k].expiresAt > now :: store[k]
  }

  /** An entry that expires no later than any other. */
  predicate IsOldest<V>(store: Store<V>, key: string) {
    key in store && forall k :: k in store ==> store[key].expiresAt <= store[k].expiresAt
  }

  /** Eviction drops everything that expires at or before now, and one entry with the
      least expiry more if the store is still full. */
  ghost predicate Evicts<V>(store: Store<V>, now: Time, after: Store<V>) {
    var live := Unexpired(store, now);
    if |live| < MAX_CACHE_ENTRIES then after == live
    else exists oldest :: IsOldest(live, oldest) && after == live - {oldest}
  }

  ghost predicate Sets<V(!new)>(store: Store<V>, key: string, data: V, expiresAt: Time, now: Time, after: Store<V>) {
    if key !in store && |store| >= MAX_CACHE_ENTRIES
    then exists room :: Evicts(store, now, room) && after == room[key := CacheEntry(data, expiresAt)]
    else after == store[key := CacheEntry(data, expiresAt)]
  }

  class Cache<V(!new)> {
    var store: Store<V>

    constructor ()
      ensures store == map[]
    {
      store := map[];
    }

    method Get(key: string, now: Time) returns (data: Option<V>)
      modifies this
      ensures data == Hit(old(store), key, now)
      ensures store == AfterGet(old(store), key, now)
    {
      if key !in store {
        return None;
      }
      if now > store[key].expiresAt {
        store := store - {key};
        return None;
      }
      return Some(store[key].data);
    }

    /** Visits the store in any order, and remembers the oldest of what it keeps. */
    method Evict(now: Time)
      requires |store| >= MAX_CACHE_ENTRIES
      modifies this
      ensures Evicts(old(store), now, store)
    {
      ghost var start := store;
      var oldest: Option<string> := None;
      var todo := store.Keys;
      while todo != {}
        invariant todo <= store.Keys <= start.Keys
        invariant forall k :: k in store ==> store[k] == start[k]
        invariant forall k :: k in start ==> (k in store <==> k in todo || start[k].expiresAt > now)
        invariant oldest.None? ==> store.Keys == todo
        invariant oldest.Some? ==> oldest.value in store.Keys - todo
        invariant oldest.Some? ==> forall k :: k in store.Keys - todo ==> store[oldest.value].expiresAt <= store[k].expiresAt
        decreases |todo|
      {
        var k :| k in todo;
        todo := todo - {k};
        if store[k].expiresAt <= now {
          store := store - {k};
        } else if oldest.None? || store[k].expiresAt < store[oldest.value].expiresAt {
          oldest := Some(k);
        }
      }
      assert store == Unexpired(start, now);
      if |store| >= MAX_CACHE_ENTRIES {
        assert oldest.None? ==> store == map[];
        assert IsOldest(store, oldest.value);
        store := store - {oldest.value};
      }
    }

    method Set(key: string, data: V, ttl: Time, now: Time)
      modifies this
      ensures Sets(old(store), key, data, now + ttl, now, store)
    {
      if key !in store && |store| >= MAX_CACHE_ENTRIES {
        Evict(now);
      }
      store := store[key := CacheEntry(data, now + ttl)];
    }
  }

  // ------------------------------------------------------------------
  // Runs
  // ------------------------------------------------------------------

  datatype Op<V> = Get(key: string, now: Time) | Set(key: string, data: V, expiresAt: Time, now: Time)

  ghost predicate Steps<V(!new)>(store: Store<V>, op: Op<V>, after: Store<V>) {
    match op
    case Get(key, now) => after == AfterGet(store, key, now)
    case Set(key, data, expiresAt, now) => Sets(store, key, data, expiresAt, now, after)
  }

  /** A run: a store for each point of the sequence of operations. */
  ghost predicate IsRun<V(!new)>(stores: seq<Store<V>>, ops: seq<Op<V>>) {
    && |stores| == |ops| + 1
    && forall i :: 0 <= i < |ops| ==> Steps(stores[i], ops[i], stores[i + 1])
  }

  /** The unbounded table of what was last set under each key. */
  function LastSet<V>(ops: seq<Op<V>>, key: string): Option<CacheEntry<V>> {
    if ops == [] then None
    else
      var last := ops[|ops| - 1];
      if last.Set? && last.key == key then Some(CacheEntry(last.data, last.expiresAt))
      else LastSet(ops[..|ops| - 1], key)
  }

  lemma EvictionMakesRoom<V>(store: Store<V>, now: Time, after: Store<V>)
    requires Evicts(store, now, after) && |store| <= MAX_CACHE_ENTRIES
    ensures |after| < MAX_CACHE_ENTRIES
    ensures forall k :: k in after ==> k in store && after[k] == store[k]
  {
    var live := Unexpired(store, now);
    assert live.Keys <= store.Keys;
    SubsetCardinality(live.Keys, store.Keys);
    assert |live| == |live.Keys| && |store| == |store.Keys|;
    if |live| >= MAX_CACHE_ENTRIES {
      var oldest :| IsOldest(live, oldest) && after == live - {oldest};
      assert after.Keys == live.Keys - {oldest};
      assert |after| == |after.Keys|;
    }
  }

  /** An eviction of a full store drops all that expires by now and nothing else, if there is
      such an entry; and otherwise one entry alone, than which none expires earlier. */
  lemma EvictionTakesOldest<V>(store: Store<V>, now: Time, after: Store<V>)
    requires Evicts(store, now, after) && |store| == 256
    ensures
      if exists k :: k in store && store[k].expiresAt <= now
      then forall k :: k in after <==> k in store && store[k].expiresAt > now
      else exists o :: o in store && after == store - {o} && forall k :: k in store ==> store[o].expiresAt <= store[k].expiresAt
  {
    var live := Unexpired(store, now);
    assert |live| == |live.Keys| && |store| == |store.Keys|;
    if k :| k in store && store[k].expiresAt <= now {
      assert live.Keys <= store.Keys - {k};
      SubsetCardinality(live.Keys, store.Keys - {k});
    } else {
      assert live == store;
      var oldest :| IsOldest(live, oldest) && after == live - {oldest};
    }
  }

  /** The store stays within its bound, and holds nothing but what was last set. */
  lemma StepIsSound<V(!new)>(store: Store<V>, op: Op<V>, after: Store<V>)
    requires Steps(store, op, after) && |store| <= MAX_CACHE_ENTRIES
    ensures |after| <= MAX_CACHE_ENTRIES
    ensures forall k :: k in after ==>
              if op.Set? && op.key == k then after[k] == CacheEntry(op.data, op.expiresAt) else k in store && after[k] == store[k]
  {
    if op.Set? && op.key !in store && |store| >= MAX_CACHE_ENTRIES {
      var room :| Evicts(store, op.now, room) && after == room[op.key := CacheEntry(op.data, op.expiresAt)];
      EvictionMakesRoom(store, op.now, room);
      assert after.Keys == room.Keys + {op.key};
      assert |after| == |after.Keys| && |room| == |room.Keys|;
    } else if op.Set? {
      assert after.Keys == store.Keys + {op.key};
      assert |after| == |after.Keys| && |store| == |store.Keys|;
    } else {
      SubsetCardinality(after.Keys, store.Keys);
      assert |after| == |after.Keys| && |store| == |store.Keys|;
    }
  }

  /** After any operations the cache is within its bound, and agrees with the
      unbounded table: whatever it holds is what was last set under the key. */
  lemma {:induction false} RunIsSound<V(!new)>(stores: seq<Store<V>>, ops: seq<Op<V>>)
    requires IsRun(stores, ops) && stores[0] == map[]
    ensures |stores[|ops|]| <= MAX_CACHE_ENTRIES
    ensures forall k :: k in stores[|ops|] ==> LastSet(ops, k) == Some(stores[|ops|][k])
  {
    if ops != [] {
      var n := |ops| - 1;
      assert Steps(stores[n], ops[n], stores[n + 1]);
      RunIsSound(stores[..n + 1], ops[..n]);
      StepIsSound(stores[n], ops[n], stores[n + 1]);
    }
  }

  /** A hit after any operations is the value last set under the key, with its time
      not passed. */
  lemma HitIsLastSet<V(!new)>(stores: seq<Store<V>>, ops: seq<Op<V>>, key: string, now: Time)
    requires IsRun(stores, ops) && stores[0] == map[]
    ensures
      var hit := Hit(stores[|ops|], key, now);
      hit.Some? ==> LastSet(ops, key).Some? && hit.value == LastSet(ops, key).value.data && now <= LastSet(ops, key).value.expiresAt
  {
    RunIsSound(stores, ops);
  }

  /** A value that is good after a step is lost in it only to make room where the
      store is full of such values, and then it is one that expires first. */
  lemma LostOnlyWhenFull<V(!new)>(store: Store<V>, op: Op<V>, after: Store<V>, key: string)
    requires Steps(store, op, after) && key in store && store[key].expiresAt > op.now && key !in after
    ensures op.Set? && op.key !in store && |Unexpired(store, op.now)| >= MAX_CACHE_ENTRIES
    ensures forall k :: k in Unexpired(store, op.now) ==> store[key].expiresAt <= store[k].expiresAt
  {
    var room :| Evicts(store, op.now, room) && after == room[op.key := CacheEntry(op.data, op.expiresAt)];
    assert key in Unexpired(store, op.now) && key !in room;
  }

  /** No new key is set while the store is full of entries that are still good. */
  ghost predicate NeverCrowded<V>(stores: seq<Store<V>>, ops: seq<Op<V>>)
    requires |stores| == |ops| + 1
  {
    forall i :: 0 <= i < |ops| && ops[i].Set? && ops[i].key !in stores[i] ==>
      |Unexpired(stores[i], ops[i].now)| < MAX_CACHE_ENTRIES
  }

  /** A set of a new key that finds the store full, and so evicts. */
  predicate Evicting<V>(stores: seq<Store<V>>, ops: seq<Op<V>>, i: nat)
    requires |stores| == |ops| + 1 && i < |ops|
  {
    ops[i].Set? && ops[i].key !in stores[i] && |stores[i]| >= MAX_CACHE_ENTRIES
  }

  /** Time has not passed an entry's expiry, nor reached it at an eviction. */
  ghost predicate InTime<V>(stores: seq<Store<V>>, ops: seq<Op<V>>, expiresAt: Time)
    requires |stores| == |ops| + 1
  {
    forall i :: 0 <= i < |ops| ==>
      ops[i].now <= expiresAt && (Evicting(stores, ops, i) ==> ops[i].now < expiresAt)
  }

  lemma HeldEntryStays<V(!new)>(store: Store<V>, op: Op<V>, after: Store<V>, key: string)
    requires Steps(store, op, after) && key in store && op.now <= store[key].expiresAt && !(op.Set? && op.key == key)
    requires op.Set? && op.key !in store ==> |Unexpired(store, op.now)| < MAX_CACHE_ENTRIES
    requires op.Set? && op.key !in store && |store| >= MAX_CACHE_ENTRIES ==> op.now < store[key].expiresAt
    ensures key in after && after[key] == store[key]
  {
    if op.Set? && op.key !in store && |store| >= MAX_CACHE_ENTRIES {
      var room :| Evicts(store, op.now, room) && after == room[op.key := CacheEntry(op.data, op.expiresAt)];
      assert room == Unexpired(store, op.now);
    }
  }

  lemma {:induction false} LastSetIsHeld<V(!new)>(stores: seq<Store<V>>, ops: seq<Op<V>>, key: string)
    requires IsRun(stores, ops) && stores[0] == map[] && NeverCrowded(stores, ops)
    requires LastSet(ops, key).Some? && InTime(stores, ops, LastSet(ops, key).value.expiresAt)
    ensures key in stores[|ops|] && stores[|ops|][key] == LastSet(ops, key).value
  {
    var n := |ops| - 1;
    var op, store, after := ops[n], stores[n], stores[n + 1];
    assert Steps(store, op, after);
    RunIsSound(stores[..n + 1], ops[..n]);
    StepIsSound(store, op, after);
    if op.Set? && op.key == key {
      SetIsHeld(store, op, after);
    } else {
      InTimeBefore(stores, ops, LastSet(ops, key).value.expiresAt);
      LastSetIsHeld(stores[..n + 1], ops[..n], key);
      assert Evicting(stores, ops, n) ==> op.now < LastSet(ops, key).value.expiresAt;
      HeldEntryStays(store, op, after, key);
    }
  }

  lemma SetIsHeld<V(!new)>(store: Store<V>, op: Op<V>, after: Store<V>)
    requires Steps(store, op, after) && op.Set?
    ensures op.key in after && after[op.key] == CacheEntry(op.data, op.expiresAt)
  {
  }

  lemma InTimeBefore<V>(stores: seq<Store<V>>, ops: seq<Op<V>>, expiresAt: Time)
    requires |stores| == |ops| + 1 && ops != [] && InTime(stores, ops, expiresAt)
    ensures InTime(stores[..|ops|], ops[..|ops| - 1], expiresAt)
  {
    var n := |ops| - 1;
    forall i | 0 <= i < n
      ensures ops[..n][i].now <= expiresAt
      ensures Evicting(stores[..n + 1], ops[..n], i) ==> ops[..n][i].now < expiresAt
    {
      assert Evicting(stores, ops, i) <==> Evicting(stores[..n + 1], ops[..n], i);
    }
  }

  /** As long as the cache is not crowded, a get hits exactly when the unbounded table does,
      with the same value. Only an eviction at the very time at which an entry expires may
      drop it before a get at that time. */
  lemma HitsAsUnbounded<V(!new)>(stores: seq<Store<V>>, ops: seq<Op<V>>, key: string, now: Time)
    requires IsRun(stores, ops) && stores[0] == map[] && NeverCrowded(stores, ops)
    requires forall i :: 0 <= i < |ops| ==> ops[i].now <= now
    requires forall i :: 0 <= i < |ops| && Evicting(stores, ops, i) && LastSet(ops, key).Some? ==>
               ops[i].now != LastSet(ops, key).value.expiresAt
    ensures
      var last := LastSet(ops, key);
      Hit(stores[|ops|], key, now)
      == if last.Some? && now <= last.value.expiresAt then Some(last.value.data) else None
  {
    RunIsSound(stores, ops);
    var last := LastSet(ops, key);
    if last.Some? && now <= last.value.expiresAt {
      LastSetIsHeld(stores, ops, key);
    }
  }
}
