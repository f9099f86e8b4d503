/** The cache object: its methods update the map, the list and the counters in place, one `Step` at a time. */
module ResponseCache {
  import opened Options
  import opened LruCache

  class Cache {
    const cfg: Config
    var store: map<string, Entry>
    var lruList: seq<string>
    var currentSize: nat
    var hits: nat
    var misses: nat
    var evictions: nat
    var enabled: bool
    ghost var overwritten: nat  // bytes the counter still carries for values written over

    function View(): State
      reads this
    {
      State(store, lruList, currentSize, hits, misses, evictions, enabled)
    }

    ghost predicate Valid()
      reads this
    {
      Safe(cfg, View(), overwritten)
    }

    constructor (cfg: Config)
      ensures Valid() && this.cfg == cfg && View() == EmptyState() && overwritten == 0
    {
      this.cfg := cfg;
      store, lruList, currentSize := map[], [], 0;
      hits, misses, evictions, enabled, overwritten := 0, 0, 0, true, 0;
      new;
      StartsSafe(cfg);
    }

    method UpdateAccessStats(key: string)
      modifies this`lruList
      ensures lruList == RemoveFirst(old(lruList), key) + [key]
    {
      RemoveFromLru(key);
      lruList := lruList + [key];
    }

    /** `position` finds the first occurrence and `remove` takes it out. */
    method RemoveFromLru(key: string)
      modifies this`lruList
      ensures lruList == RemoveFirst(old(lruList), key)
    {
      var pos := 0;
      while pos < |lruList| && lruList[pos] != key
        invariant 0 <= pos <= |lruList| && lruList == old(lruList)
        invariant key !in lruList[..pos]
      {
        assert lruList[..pos + 1] == lruList[..pos] + [lruList[pos]];
        pos := pos + 1;
      }
      RemoveFirstAt(lruList, key, pos);
      if pos < |lruList| {
        lruList := lruList[..pos] + lruList[pos + 1..];
      }
    }

    method Get(key: string, now: int) returns (r: Option<Entry>)
      requires Valid()
      modifies this`hits, this`misses, this`lruList
      ensures Valid() && Done(View(), ()) == Step(cfg, old(View()), Op.Get(key, now))
      ensures r == if old(enabled && key in store && now < store[key].createdAt + store[key].ttl) then Some(store[key])
                   else None
      ensures hits == old(hits) + (if r.Some? then 1 else 0) && misses == old(misses) + (if enabled && r.None? then 1 else 0)
    {
      hide Safe, RemoveFirst;
      GetSafe(cfg, View(), key, now, overwritten);
      ghost var before := View();
      if !enabled { return None; }
      if key in store && Fresh(store[key], now) {
        hits := hits + 1;
        UpdateAccessStats(key);
        assert View() == GetStep(before, key, now);
        return Some(store[key]);
      }
      misses := misses + 1;
      return None;
    }

    /** A `put` that comes back. Whether it does is decided by its eviction loop, see `HangsExactlyWhen`. */
    method Put(key: string, data: seq<bv8>, contentType: string, ttl: Option<nat>, now: int) returns (ok: bool)
      requires Valid()
      requires PutStep(cfg, View(), Op.Put(key, data, contentType, ttl, now)).Done?
      modifies this
      ensures Valid() && Done(View(), ok) == PutStep(cfg, old(View()), Op.Put(key, data, contentType, ttl, now))
      ensures overwritten >= old(overwritten)
      ensures ok ==> key in store && Holds(cfg, store[key], Op.Put(key, data, contentType, ttl, now))
    {
      PutStoredKeys(cfg, View(), Op.Put(key, data, contentType, ttl, now));
      hide Safe, Evict, Insert;
      if !enabled { return false; }
      if data != [] && (|data| < cfg.minFileSize || |data| > cfg.maxFileSize) { return false; }
      if !Cacheable(contentType) { return false; }
      MakeRoom(|data|);
      if |store| >= cfg.maxEntries || currentSize + |data| > cfg.maxSize { return false; }
      var entry := Entry(data, contentType, if ttl.Some? then ttl.value else cfg.defaultTtl, now);
      StoreEntry(key, entry);
      return true;
    }

    /** The last lines of `put`. */
    method StoreEntry(key: string, entry: Entry)
      requires Valid() && !NeedsRoom(cfg, View(), |entry.data|)
      modifies this`store, this`lruList, this`currentSize, this`overwritten
      ensures Valid() && View() == Insert(old(View()), key, entry) && overwritten >= old(overwritten)
    {
      InsertSafe(cfg, View(), key, entry, overwritten);
      hide Safe;
      overwritten := overwritten + if key in store then |store[key].data| else 0;
      currentSize := currentSize + |entry.data|;
      store := store[key := entry];
      lruList := lruList + [key];
    }

    method MakeRoom(length: nat)
      requires Valid() && Evict(cfg, View(), length).Done?
      modifies this`store, this`lruList, this`currentSize, this`evictions
      ensures Valid() && Done(View(), ()) == Evict(cfg, old(View()), length)
      ensures evictions - old(evictions) == |old(store)| - |store|
    {
      EvictCounts(cfg, View(), length);
      hide Safe, EvictOne, RemoveStep;
      while (|store| >= cfg.maxEntries || currentSize + length > cfg.maxSize) && store != map[]
        invariant Valid() && enabled == old(enabled) && overwritten == old(overwritten)
        invariant Evict(cfg, View(), length) == Evict(cfg, old(View()), length)
        decreases |store|
      {
        var candidate := lruList[0];
        EvictOneSafe(cfg, View(), overwritten);
        TakeOut(candidate);
        evictions := evictions + 1;
      }
    }

    /** Entry, bytes and the first listing of a stored key go together. */
    method TakeOut(key: string)
      requires key in store && |store[key].data| <= currentSize
      modifies this`store, this`lruList, this`currentSize
      ensures View() == RemoveStep(old(View()), key)
    {
      currentSize := currentSize - |store[key].data|;
      store := store - {key};
      RemoveFromLru(key);
    }

    method Remove(key: string) returns (r: Option<Entry>)
      requires Valid()
      modifies this`store, this`lruList, this`currentSize
      ensures Valid() && Done(View(), ()) == Step(cfg, old(View()), Op.Remove(key))
      ensures r == if key in old(store) then Some(old(store)[key]) else None
      ensures store == old(store) - {key}
    {
      RemoveSafe(cfg, View(), key, overwritten);
      hide Safe;
      if key !in store { return None; }
      r := Some(store[key]);
      TakeOut(key);
    }

    method Clear()
      modifies this
      ensures Valid() && Done(View(), ()) == Step(cfg, old(View()), Op.Clear) && overwritten == 0
      ensures View() == State(map[], [], 0, 0, 0, 0, old(enabled))
    {
      store, lruList, currentSize, hits, misses, evictions := map[], [], 0, 0, 0, 0;
      overwritten := 0;
      StartsSafe(cfg);
      SwitchSafe(cfg, EmptyState(), enabled, 0);
    }

    /** The expired keys are removed in whatever order the map yields them. */
    method CleanupExpired(now: int)
      requires Valid()
      modifies this`store, this`lruList, this`currentSize
      ensures Valid() && Done(View(), ()) == Step(cfg, old(View()), Op.CleanupExpired(now))
      ensures store == map k | k in old(store) && now < old(store)[k].createdAt + old(store)[k].ttl :: old(store)[k]
    {
      hide Safe, RemoveAll;
      var expired := set k | k in store && !Fresh(store[k], now);
      ghost var all := expired;
      RemoveAllSafe(cfg, View(), expired, overwritten);
      while expired != {}
        invariant Valid() && expired <= store.Keys
        invariant RemoveAll(View(), expired) == RemoveAll(old(View()), all)
        decreases expired
      {
        var key :| key in expired;
        RemoveAllOne(View(), expired, key);
        RemoveSafe(cfg, View(), key, overwritten);
        TakeOut(key);
        expired := expired - {key};
      }
      RemoveAllNone(View());
      ExpiredGo(old(View()), now);
    }

    method SetEnabled(on: bool)
      requires Valid()
      modifies this`enabled
      ensures Valid() && Done(View(), ()) == Step(cfg, old(View()), Op.SetEnabled(on)) && enabled == on
    {
      SwitchSafe(cfg, View(), on, overwritten);
      enabled := on;
    }
  }
}
