/** The response cache: a map, a recency list and a byte counter, as one state and its steps. */
module LruCache {
  import opened Options

  /** A cached response; times are in one unit, `createdAt + ttl` being the moment of expiry. */
  datatype Entry = Entry(data: seq<bv8>, contentType: string, ttl: nat, createdAt: int)

  datatype Config = Config(maxSize: nat, maxEntries: nat, minFileSize: nat, maxFileSize: nat, defaultTtl: nat)

  datatype State = State(store: map<string, Entry>, lru: seq<string>, size: int,
                         hits: nat, misses: nat, evictions: nat, enabled: bool)

  datatype Op =
    | Get(key: string, now: int)
    | Put(key: string, data: seq<bv8>, contentType: string, ttl: Option<nat>, now: int)
    | Remove(key: string)
    | Clear
    | CleanupExpired(now: int)
    | SetEnabled(on: bool)

  // ---------------------------------------------------------------- bytes held

  /** The stored lengths added up. */
  ghost function Bytes(m: map<string, Entry>): nat
    decreases |m|
  {
    if m == map[] then 0
    else
      var k :| k in m;
      |m[k].data| + Bytes(m - {k})
  }

  /** It does not matter which key is taken first. */
  lemma {:induction false} BytesWithout(m: map<string, Entry>, k: string)
    requires k in m
    ensures Bytes(m) == |m[k].data| + Bytes(m - {k})
    decreases |m|
  {
    var j :| j in m && Bytes(m) == |m[j].data| + Bytes(m - {j});
    if j != k {
      BytesWithout(m - {j}, k);
      BytesWithout(m - {k}, j);
      assert m - {j} - {k} == m - {k} - {j};
    }
  }

  lemma BytesWith(m: map<string, Entry>, k: string, e: Entry)
    ensures Bytes(m[k := e]) == |e.data| + Bytes(m - {k})
  {
    BytesWithout(m[k := e], k);
    assert m[k := e] - {k} == m - {k};
  }

  // ---------------------------------------------------------------- the recency list

  /** `position` and `remove`: the first occurrence goes. */
  function RemoveFirst(lru: seq<string>, k: string): (r: seq<string>)
    ensures k !in lru ==> r == lru
  {
    if lru == [] then []
    else if lru[0] == k then lru[1..]
    else [lru[0]] + RemoveFirst(lru[1..], k)
  }

  /** The first occurrence of each of the keys goes. */
  function RemoveEach(lru: seq<string>, ks: set<string>): seq<string> {
    if lru == [] then []
    else if lru[0] in ks then RemoveEach(lru[1..], ks - {lru[0]})
    else [lru[0]] + RemoveEach(lru[1..], ks)
  }

  /** Taking the keys one by one, in any order, comes to the same. */
  lemma {:induction false} RemoveEachOne(lru: seq<string>, ks: set<string>, k: string)
    requires k in ks
    ensures RemoveEach(lru, ks) == RemoveEach(RemoveFirst(lru, k), ks - {k})
  {
    if lru != [] && lru[0] != k {
      var first := [lru[0]] + RemoveFirst(lru[1..], k);
      assert first[1..] == RemoveFirst(lru[1..], k);
      if lru[0] in ks {
        RemoveEachOne(lru[1..], ks - {lru[0]}, k);
        assert ks - {lru[0]} - {k} == ks - {k} - {lru[0]};
      } else {
        RemoveEachOne(lru[1..], ks, k);
      }
    }
  }

  lemma {:induction false} RemoveEachNone(lru: seq<string>)
    ensures RemoveEach(lru, {}) == lru
  {
    if lru != [] { RemoveEachNone(lru[1..]); }
  }

  /** Where the first occurrence is, or the end, decides the rest. */
  lemma {:induction false} RemoveFirstAt(lru: seq<string>, k: string, pos: nat)
    requires pos <= |lru| && k !in lru[..pos] && (pos < |lru| ==> lru[pos] == k)
    ensures RemoveFirst(lru, k) == if pos < |lru| then lru[..pos] + lru[pos + 1..] else lru
  {
    if pos == |lru| {
      assert lru[..pos] == lru;
    } else if pos > 0 {
      assert lru[..pos] == [lru[0]] + lru[1..][..pos - 1];
      RemoveFirstAt(lru[1..], k, pos - 1);
      assert lru[0] != k && lru[1..][pos..] == lru[pos + 1..];
    }
  }

  /** Nothing else goes. */
  lemma {:induction false} RemoveFirstKeeps(lru: seq<string>, k: string, j: string)
    ensures j != k ==> (j in RemoveFirst(lru, k) <==> j in lru)
    ensures j in RemoveFirst(lru, k) ==> j in lru
  {
    if lru != [] && lru[0] != k { RemoveFirstKeeps(lru[1..], k, j); }
  }

  // ---------------------------------------------------------------- steps

  function EmptyState(): State {
    State(map[], [], 0, 0, 0, 0, true)
  }

  predicate Fresh(e: Entry, now: int) {
    e.createdAt + e.ttl > now
  }

  predicate Cacheable(contentType: string) {
    || "text/" <= contentType || "application/json" <= contentType || "application/javascript" <= contentType
    || "application/xml" <= contentType || "image/" <= contentType || "font/" <= contentType
    || "application/x-font" <= contentType
  }

  /** The size and type checks of `put`. */
  predicate Acceptable(cfg: Config, data: seq<bv8>, contentType: string) {
    && (data == [] || cfg.minFileSize <= |data| <= cfg.maxFileSize)
    && Cacheable(contentType)
  }

  predicate NeedsRoom(cfg: Config, s: State, length: nat) {
    |s.store| >= cfg.maxEntries || s.size + length > cfg.maxSize
  }

  /** A call returns with a new state and a reply, or it never returns: its eviction loop makes no progress. */
  datatype Outcome<+T> = Done(state: State, reply: T) | Hangs

  /** One eviction: the least recent key and its entry go. */
  function EvictOne(s: State): State
    requires s.lru != [] && s.lru[0] in s.store
  {
    var k := s.lru[0];
    s.(store := s.store - {k}, lru := s.lru[1..], size := s.size - |s.store[k].data|, evictions := s.evictions + 1)
  }

  /** The eviction loop. A head of the list that is not stored is never taken off, so the loop cannot pass it. */
  function Evict(cfg: Config, s: State, length: nat): Outcome<()>
    decreases |s.store|
  {
    if !(NeedsRoom(cfg, s, length) && s.store != map[]) then Done(s, ())
    else if s.lru == [] || s.lru[0] !in s.store then Hangs
    else Evict(cfg, EvictOne(s), length)
  }

  /** One turn of the loop body as it stands: without a stored key at the head nothing is done. */
  function EvictTurn(s: State): State {
    if s.lru != [] && s.lru[0] in s.store then EvictOne(s) else s
  }

  function EvictTurns(s: State, k: nat): State {
    if k == 0 then s else EvictTurn(EvictTurns(s, k - 1))
  }

  function NewEntry(cfg: Config, op: Op): Entry
    requires op.Put?
  {
    Entry(op.data, op.contentType, match op.ttl case Some(t) => t case None => cfg.defaultTtl, op.now)
  }

  /** The entry is inserted, over an older one of the same key if there is one; the key goes to the recent end. */
  function Insert(s: State, k: string, e: Entry): State {
    s.(store := s.store[k := e], size := s.size + |e.data|, lru := s.lru + [k])
  }

  function PutStep(cfg: Config, s: State, op: Op): Outcome<bool>
    requires op.Put?
  {
    if !s.enabled || !Acceptable(cfg, op.data, op.contentType) then Done(s, false)
    else
      match Evict(cfg, s, |op.data|)
      case Hangs => Hangs
      case Done(roomy, _) =>
        if NeedsRoom(cfg, roomy, |op.data|) then Done(roomy, false)
        else Done(Insert(roomy, op.key, NewEntry(cfg, op)), true)
  }

  predicate Hit(s: State, k: string, now: int) {
    s.enabled && k in s.store && Fresh(s.store[k], now)
  }

  function GetStep(s: State, k: string, now: int): State {
    if !s.enabled then s
    else if Hit(s, k, now) then s.(hits := s.hits + 1, lru := RemoveFirst(s.lru, k) + [k])
    else s.(misses := s.misses + 1)
  }

  function RemoveStep(s: State, k: string): State {
    if k in s.store then
      s.(store := s.store - {k}, size := s.size - |s.store[k].data|, lru := RemoveFirst(s.lru, k))
    else s
  }

  function Expired(s: State, now: int): set<string> {
    set k | k in s.store && !Fresh(s.store[k], now)
  }

  /** All keys of a set are removed, in whatever order the map yields them. */
  ghost function RemoveAll(s: State, ks: set<string>): State
    requires ks <= s.store.Keys
  {
    s.(store := s.store - ks, size := s.size - Bytes(s.store) + Bytes(s.store - ks), lru := RemoveEach(s.lru, ks))
  }

  lemma RemoveAllOne(s: State, ks: set<string>, k: string)
    requires ks <= s.store.Keys && k in ks
    ensures ks - {k} <= RemoveStep(s, k).store.Keys
    ensures RemoveAll(s, ks) == RemoveAll(RemoveStep(s, k), ks - {k})
  {
    BytesWithout(s.store, k);
    RemoveEachOne(s.lru, ks, k);
    assert s.store - ks == s.store - {k} - (ks - {k});
  }

  /** A cleanup leaves exactly the entries whose time is not over. */
  lemma ExpiredGo(s: State, now: int)
    ensures RemoveAll(s, Expired(s, now)).store
         == map k | k in s.store && now < s.store[k].createdAt + s.store[k].ttl :: s.store[k]
  {
    hide Bytes, RemoveEach;
  }

  lemma RemoveAllNone(s: State)
    ensures RemoveAll(s, {}) == s
  {
    RemoveEachNone(s.lru);
    assert s.store - {} == s.store;
  }

  ghost function Step(cfg: Config, s: State, op: Op): Outcome<()> {
    match op
    case Get(k, now) => Done(GetStep(s, k, now), ())
    case Put(_, _, _, _, _) => (match PutStep(cfg, s, op) case Hangs => Hangs case Done(s', _) => Done(s', ()))
    case Remove(k) => Done(RemoveStep(s, k), ())
    case Clear => Done(EmptyState().(enabled := s.enabled), ())
    case CleanupExpired(now) => Done(RemoveAll(s, Expired(s, now)), ())
    case SetEnabled(on) => Done(s.(enabled := on), ())
  }

  // ---------------------------------------------------------------- runs

  /** The state after a sequence of calls on a new cache, if all of them return. */
  ghost function Run(cfg: Config, ops: seq<Op>): Outcome<()>
    decreases |ops|
  {
    if ops == [] then Done(EmptyState(), ())
    else
      match Run(cfg, ops[..|ops| - 1])
      case Hangs => Hangs
      case Done(s, _) => Step(cfg, s, ops[|ops| - 1])
  }

  /** Call i of the run stored its value. */
  ghost predicate Stores(cfg: Config, ops: seq<Op>, i: nat)
    requires i < |ops|
  {
    && ops[i].Put?
    && var before := Run(cfg, ops[..i]);
       before.Done? && var r := PutStep(cfg, before.state, ops[i]); r.Done? && r.reply
  }

  /** The lengths of values that a later `put` of the same key wrote over, since the last clear. */
  ghost function Overwritten(cfg: Config, ops: seq<Op>): nat
    decreases |ops|
  {
    if ops == [] then 0
    else
      var last, op := |ops| - 1, ops[|ops| - 1];
      var earlier, before := Overwritten(cfg, ops[..last]), Run(cfg, ops[..last]);
      if op.Clear? then 0
      else if Stores(cfg, ops, last) then
        var roomy := Evict(cfg, before.state, |op.data|).state;
        earlier + if op.key in roomy.store then |roomy.store[op.key].data| else 0
      else earlier
  }

  /** What holds after every run, overwriting included. */
  ghost predicate Safe(cfg: Config, s: State, overwritten: nat) {
    && s.size == Bytes(s.store) + overwritten
    && s.size <= cfg.maxSize
    && |s.store| <= cfg.maxEntries
    && forall k :: k in s.store ==> k in s.lru
  }

  lemma {:induction false} MapSizes(m: map<string, Entry>, ks: set<string>)
    requires ks <= m.Keys
    ensures |m - ks| == |m| - |ks|
    ensures Bytes(m - ks) <= Bytes(m)
    decreases |ks|
  {
    if ks == {} {
      assert m - ks == m;
    } else {
      var k :| k in ks;
      MapSizes(m - {k}, ks - {k});
      assert m - {k} - (ks - {k}) == m - ks;
      assert (m - {k}).Keys == m.Keys - {k};
      assert |m.Keys| == |m| && |(m - {k}).Keys| == |m - {k}|;
      BytesWithout(m, k);
    }
  }

  lemma EvictOneSafe(cfg: Config, s: State, overwritten: nat)
    requires Safe(cfg, s, overwritten) && s.lru != [] && s.lru[0] in s.store
    ensures Safe(cfg, EvictOne(s), overwritten) && |EvictOne(s).store| < |s.store|
    ensures |s.store[s.lru[0]].data| <= s.size
    ensures RemoveStep(s, s.lru[0]).(evictions := s.evictions + 1) == EvictOne(s)
  {
    var k := s.lru[0];
    MapSizes(s.store, {k});
    BytesWithout(s.store, k);
  }

  lemma {:induction false} EvictSafe(cfg: Config, s: State, length: nat, overwritten: nat)
    requires Safe(cfg, s, overwritten)
    ensures var r := Evict(cfg, s, length);
            r.Done? ==> Safe(cfg, r.state, overwritten) && r.state.enabled == s.enabled
    decreases |s.store|
  {
    if NeedsRoom(cfg, s, length) && s.store != map[] && s.lru != [] && s.lru[0] in s.store {
      EvictOneSafe(cfg, s, overwritten);
      EvictSafe(cfg, EvictOne(s), length, overwritten);
    }
  }

  lemma InsertSafe(cfg: Config, s: State, k: string, e: Entry, overwritten: nat)
    requires Safe(cfg, s, overwritten) && !NeedsRoom(cfg, s, |e.data|)
    ensures Safe(cfg, Insert(s, k, e), overwritten + if k in s.store then |s.store[k].data| else 0)
  {
    hide Bytes;
    var r := Insert(s, k, e);
    BytesWith(s.store, k, e);
    if k in s.store { BytesWithout(s.store, k); } else { assert s.store - {k} == s.store; }
    SizeWith(s.store, k, e);
    forall j | j in r.store ensures j in r.lru {
      assert r.lru[|s.lru|] == k;
    }
  }

  lemma SizeWith(m: map<string, Entry>, k: string, e: Entry)
    ensures |m[k := e]| == |m| + if k in m then 0 else 1
  {
    assert m[k := e].Keys == m.Keys + {k};
    assert |m[k := e]| == |m[k := e].Keys| && |m| == |m.Keys|;
  }

  lemma RemoveFirstKeepsStored(s: State, k: string)
    requires forall j :: j in s.store ==> j in s.lru
    ensures forall j :: j in s.store && j != k ==> j in RemoveFirst(s.lru, k)
  {
    forall j | j in s.store && j != k ensures j in RemoveFirst(s.lru, k) {
      RemoveFirstKeeps(s.lru, k, j);
    }
  }

  lemma {:induction false} RemoveEachKeeps(lru: seq<string>, ks: set<string>, j: string)
    ensures j !in ks ==> (j in RemoveEach(lru, ks) <==> j in lru)
    ensures j in RemoveEach(lru, ks) ==> j in lru
  {
    if lru != [] {
      RemoveEachKeeps(lru[1..], ks - {lru[0]}, j);
      RemoveEachKeeps(lru[1..], ks, j);
    }
  }

  lemma RemoveAllSafe(cfg: Config, s: State, ks: set<string>, overwritten: nat)
    requires Safe(cfg, s, overwritten) && ks <= s.store.Keys
    ensures Safe(cfg, RemoveAll(s, ks), overwritten)
  {
    MapSizes(s.store, ks);
    forall j | j in s.store - ks ensures j in RemoveEach(s.lru, ks) {
      RemoveEachKeeps(s.lru, ks, j);
    }
  }

  lemma GetSafe(cfg: Config, s: State, k: string, now: int, overwritten: nat)
    requires Safe(cfg, s, overwritten)
    ensures Safe(cfg, GetStep(s, k, now), overwritten)
  {
    RemoveFirstKeepsStored(s, k);
    var r := GetStep(s, k, now);
    if Hit(s, k, now) { assert r.lru[|r.lru| - 1] == k; }
  }

  lemma RemoveSafe(cfg: Config, s: State, k: string, overwritten: nat)
    requires Safe(cfg, s, overwritten)
    ensures Safe(cfg, RemoveStep(s, k), overwritten)
    ensures k in s.store ==> |s.store[k].data| <= s.size
  {
    RemoveFirstKeepsStored(s, k);
    if k in s.store {
      BytesWithout(s.store, k);
      MapSizes(s.store, {k});
    }
  }

  /** On every run of calls that return, overwriting included: the counter is the stored lengths plus the lengths
      written over since the last clear, so it never falls below what is stored; both limits are kept; and every
      stored key is listed. */
  lemma {:induction false} SafeOnAllRuns(cfg: Config, ops: seq<Op>)
    requires Run(cfg, ops).Done?
    ensures Safe(cfg, Run(cfg, ops).state, Overwritten(cfg, ops))
    decreases |ops|
  {
    hide Bytes, RemoveFirst, RemoveEach, Acceptable, NeedsRoom, Evict, Insert, Safe, Stores;
    if ops == [] {
      StartsSafe(cfg);
    } else {
      var last, op := |ops| - 1, ops[|ops| - 1];
      SafeOnAllRuns(cfg, ops[..last]);
      var s, w := Run(cfg, ops[..last]).state, Overwritten(cfg, ops[..last]);
      if !op.Put? { NotStored(cfg, ops, last); }
      match op
      case Get(k, now) => GetSafe(cfg, s, k, now, w);
      case Put(k, _, _, _, _) => PutSafe(cfg, ops);
      case Remove(k) => RemoveSafe(cfg, s, k, w);
      case Clear => StartsSafe(cfg); SwitchSafe(cfg, EmptyState(), s.enabled, 0);
      case CleanupExpired(now) => RemoveAllSafe(cfg, s, Expired(s, now), w);
      case SetEnabled(on) => SwitchSafe(cfg, s, on, w);
    }
  }

  lemma StartsSafe(cfg: Config)
    ensures Safe(cfg, EmptyState(), 0)
  {
  }

  lemma SwitchSafe(cfg: Config, s: State, on: bool, overwritten: nat)
    requires Safe(cfg, s, overwritten)
    ensures Safe(cfg, s.(enabled := on), overwritten)
  {
  }

  lemma NotStored(cfg: Config, ops: seq<Op>, i: nat)
    requires i < |ops| && !ops[i].Put?
    ensures !Stores(cfg, ops, i)
  {
  }

  lemma PutSafe(cfg: Config, ops: seq<Op>)
    requires ops != [] && ops[|ops| - 1].Put? && Run(cfg, ops).Done?
    requires Safe(cfg, Run(cfg, ops[..|ops| - 1]).state, Overwritten(cfg, ops[..|ops| - 1]))
    ensures Safe(cfg, Run(cfg, ops).state, Overwritten(cfg, ops))
  {
    hide Bytes, Acceptable, Insert, Safe, NeedsRoom;
    var last, op := |ops| - 1, ops[|ops| - 1];
    var s, w := Run(cfg, ops[..last]).state, Overwritten(cfg, ops[..last]);
    var length := |op.data|;
    EvictSafe(cfg, s, length, w);
    var r := Evict(cfg, s, length);
    if r.Done? && !NeedsRoom(cfg, r.state, length) {
      InsertSafe(cfg, r.state, op.key, NewEntry(cfg, op), w);
    }
  }

  // ---------------------------------------------------------------- what a hit returns

  /** Entry e of key k was stored by call j, and no later call stored k again, removed it or cleared the cache. */
  ghost predicate Origin(cfg: Config, ops: seq<Op>, k: string, e: Entry, j: nat) {
    && j < |ops| && Stores(cfg, ops, j) && ops[j].key == k && e == NewEntry(cfg, ops[j])
    && forall i :: j < i < |ops| ==> Leaves(cfg, ops, i, k)
  }

  /** Call i neither clears the cache nor removes k nor stores k. */
  ghost predicate Leaves(cfg: Config, ops: seq<Op>, i: nat, k: string)
    requires i < |ops|
  {
    ops[i] != Clear && ops[i] != Remove(k) && !(Stores(cfg, ops, i) && ops[i].key == k)
  }

  lemma StoresPrefix(cfg: Config, ops: seq<Op>, n: nat, i: nat)
    requires i < n <= |ops|
    ensures Stores(cfg, ops[..n], i) == Stores(cfg, ops, i)
  {
    assert ops[..n][..i] == ops[..i];
  }

  /** An origin stays one as long as the last call does not touch the key. */
  lemma OriginStays(cfg: Config, ops: seq<Op>, k: string, e: Entry, j: nat)
    requires ops != [] && Origin(cfg, ops[..|ops| - 1], k, e, j)
    requires Leaves(cfg, ops, |ops| - 1, k)
    ensures Origin(cfg, ops, k, e, j)
  {
    hide Stores, NewEntry;
    var last := |ops| - 1;
    StoresPrefix(cfg, ops, last, j);
    forall i | j < i < last ensures Leaves(cfg, ops, i, k) {
      StoresPrefix(cfg, ops, last, i);
      assert Leaves(cfg, ops[..last], i, k) && ops[..last][i] == ops[i];
    }
  }

  /** Whatever is in the store was put there by the last call that stored its key. */
  lemma {:induction false} StoredHasOrigin(cfg: Config, ops: seq<Op>, k: string)
    requires Run(cfg, ops).Done? && k in Run(cfg, ops).state.store
    ensures exists j :: Origin(cfg, ops, k, Run(cfg, ops).state.store[k], j)
    decreases |ops|
  {
    var last, op := |ops| - 1, ops[|ops| - 1];
    var s, r := Run(cfg, ops[..last]).state, Run(cfg, ops).state;
    if op.Put? {
      PutStoredKeys(cfg, s, op);
    }
    if Stores(cfg, ops, last) && op.key == k {
      assert Origin(cfg, ops, k, r.store[k], last);
    } else {
      assert k in s.store && s.store[k] == r.store[k];
      StoredHasOrigin(cfg, ops[..last], k);
      var j: nat :| Origin(cfg, ops[..last], k, s.store[k], j);
      OriginStays(cfg, ops, k, s.store[k], j);
    }
  }

  /** A put stores the new entry if it says so and otherwise at most takes entries away. */
  lemma PutStoredKeys(cfg: Config, s: State, op: Op)
    requires op.Put? && PutStep(cfg, s, op).Done?
    ensures var r := PutStep(cfg, s, op);
            && (r.reply ==> op.key in r.state.store && r.state.store[op.key] == NewEntry(cfg, op))
            && forall k :: k in r.state.store && !(r.reply && k == op.key) ==>
                 k in s.store && r.state.store[k] == s.store[k]
  {
    EvictOnlyRemoves(cfg, s, |op.data|);
  }

  lemma {:induction false} EvictOnlyRemoves(cfg: Config, s: State, length: nat)
    ensures var r := Evict(cfg, s, length);
            r.Done? ==> forall k :: k in r.state.store ==> k in s.store && r.state.store[k] == s.store[k]
    decreases |s.store|
  {
    if NeedsRoom(cfg, s, length) && s.store != map[] && s.lru != [] && s.lru[0] in s.store {
      EvictOnlyRemoves(cfg, EvictOne(s), length);
    }
  }

  /** Entry e is what call `op` gave: its data and type, created at its time, to live as long as it said or else as long
      as the cache's default. */
  predicate Holds(cfg: Config, e: Entry, op: Op) {
    && op.Put?
    && e.data == op.data
    && e.contentType == op.contentType
    && e.createdAt == op.now
    && e.ttl == if op.ttl.Some? then op.ttl.value else cfg.defaultTtl
  }

  /** On every run: a hit returns what the last call that stored the key gave, with no later remove or clear, and its
      time is not over. */
  lemma HitReturnsLastStored(cfg: Config, ops: seq<Op>, k: string, now: int) returns (j: nat)
    requires Run(cfg, ops).Done? && Hit(Run(cfg, ops).state, k, now)
    ensures j < |ops| && Stores(cfg, ops, j) && ops[j].key == k && (forall i :: j < i < |ops| ==> Leaves(cfg, ops, i, k))
    ensures var e := Run(cfg, ops).state.store[k];
            && e.data == ops[j].data && e.contentType == ops[j].contentType && e.createdAt == ops[j].now
            && e.ttl == (if ops[j].ttl.Some? then ops[j].ttl.value else cfg.defaultTtl)
            && now < ops[j].now + e.ttl
  {
    StoredHasOrigin(cfg, ops, k);
    j :| Origin(cfg, ops, k, Run(cfg, ops).state.store[k], j);
  }

  /** Call i neither takes k away nor, being a put, may evict it. */
  predicate Spares(op: Op, k: string) {
    op.Get? || (op.Remove? && op.key != k)
  }

  /** And the other way round: after a put that says it stored, calls that spare the key leave it to be hit with what was
      given, exactly as long as its time is not over. */
  lemma {:induction false} StoredIsHit(cfg: Config, ops: seq<Op>, more: seq<Op>, now: int)
    requires ops != [] && Stores(cfg, ops, |ops| - 1)
    requires forall i :: 0 <= i < |more| ==> Spares(more[i], ops[|ops| - 1].key)
    ensures var put := ops[|ops| - 1];
            && Run(cfg, ops + more).Done?
            && var s := Run(cfg, ops + more).state;
               && s.enabled && put.key in s.store && Holds(cfg, s.store[put.key], put)
               && (Hit(s, put.key, now) <==> now < put.now + if put.ttl.Some? then put.ttl.value else cfg.defaultTtl)
    decreases |more|
  {
    hide Evict, Acceptable, NeedsRoom, RemoveFirst;
    var n := |more|;
    if n == 0 {
      assert ops + more == ops;
      PutKeepsSwitch(cfg, Run(cfg, ops[..|ops| - 1]).state, ops[|ops| - 1]);
      PutStoredKeys(cfg, Run(cfg, ops[..|ops| - 1]).state, ops[|ops| - 1]);
    } else {
      StoredIsHit(cfg, ops, more[..n - 1], now);
      assert (ops + more)[..|ops + more| - 1] == ops + more[..n - 1];
    }
  }

  lemma PutKeepsSwitch(cfg: Config, s: State, op: Op)
    requires op.Put? && PutStep(cfg, s, op).Done?
    ensures PutStep(cfg, s, op).state.enabled == s.enabled && (PutStep(cfg, s, op).reply ==> s.enabled)
  {
    EvictKeepsSwitch(cfg, s, |op.data|);
  }

  lemma {:induction false} EvictKeepsSwitch(cfg: Config, s: State, length: nat)
    ensures Evict(cfg, s, length).Done? ==> Evict(cfg, s, length).state.enabled == s.enabled
    decreases |s.store|
  {
    if NeedsRoom(cfg, s, length) && s.store != map[] && s.lru != [] && s.lru[0] in s.store {
      EvictKeepsSwitch(cfg, EvictOne(s), length);
    }
  }

  /** What is kept of a text type, a script, a picture; and what is not. */
  lemma KnownTypes()
    ensures Cacheable("text/html") && Cacheable("text/css") && Cacheable("application/json; charset=utf-8")
    ensures Cacheable("application/javascript") && Cacheable("application/xml") && Cacheable("image/png")
    ensures Cacheable("font/woff2") && Cacheable("application/x-font-ttf")
    ensures !Cacheable("video/mp4") && !Cacheable("application/octet-stream") && !Cacheable("")
  {
    assert "video/mp4"[0] == 'v';
    assert "application/octet-stream"[12] == 'o';
  }

  // ---------------------------------------------------------------- what eviction takes

  ghost predicate Distinct(ks: seq<string>) {
    forall i, j :: 0 <= i < j < |ks| ==> ks[i] != ks[j]
  }

  function Elements(ks: seq<string>): set<string> {
    set i | 0 <= i < |ks| :: ks[i]
  }

  /** The first j keys of the list are distinct and stored: the loop can take them off one by one. */
  ghost predicate Takeable(s: State, j: nat) {
    && j <= |s.lru| && Distinct(s.lru[..j])
    && forall i :: 0 <= i < j ==> s.lru[i] in s.store
  }

  /** The state without the j least recent keys. */
  ghost function Dropped(s: State, j: nat): State
    requires Takeable(s, j)
  {
    var ks := Elements(s.lru[..j]);
    s.(store := s.store - ks, lru := s.lru[j..], size := s.size - Bytes(s.store) + Bytes(s.store - ks),
       evictions := s.evictions + j)
  }

  ghost predicate Wants(cfg: Config, s: State, length: nat) {
    NeedsRoom(cfg, s, length) && s.store != map[]
  }

  lemma TakeableShorter(s: State, i: nat, j: nat)
    requires i <= j && Takeable(s, j)
    ensures Takeable(s, i)
  {
    assert forall a :: 0 <= a < i ==> s.lru[..i][a] == s.lru[..j][a];
  }

  /** Taking one more. */
  lemma DropOneMore(s: State, j: nat)
    requires Takeable(s, j + 1)
    ensures Takeable(s, j)
    ensures var d := Dropped(s, j); d.lru != [] && d.lru[0] in d.store && EvictOne(d) == Dropped(s, j + 1)
  {
    TakeableShorter(s, j, j + 1);
    var ks, k := Elements(s.lru[..j]), s.lru[j];
    forall i | 0 <= i < j ensures s.lru[..j][i] != k {
      assert s.lru[..j + 1][i] != s.lru[..j + 1][j];
    }
    assert Elements(s.lru[..j + 1]) == ks + {k} by {
      assert forall i :: 0 <= i < j ==> s.lru[..j + 1][i] == s.lru[..j][i];
      assert s.lru[..j + 1][j] == k;
    }
    assert s.store - ks - {k} == s.store - (ks + {k});
    BytesWithout(s.store - ks, k);
  }

  /** While room is wanted the loop takes the keys off from the head of the list. */
  lemma {:induction false} EvictFrom(cfg: Config, s: State, length: nat, j: nat)
    requires Takeable(s, j)
    requires forall i :: 0 <= i < j ==> Takeable(s, i) && Wants(cfg, Dropped(s, i), length)
    ensures Evict(cfg, s, length) == Evict(cfg, Dropped(s, j), length)
    decreases j
  {
    hide Evict, EvictOne, Wants, Dropped, Takeable;
    if j == 0 {
      DroppedNothing(s);
    } else {
      TakeableShorter(s, j - 1, j);
      EvictFrom(cfg, s, length, j - 1);
      DropOneMore(s, j - 1);
      EvictUnfolds(cfg, Dropped(s, j - 1), length);
    }
  }

  lemma DroppedNothing(s: State)
    ensures Takeable(s, 0) && Dropped(s, 0) == s
  {
    assert s.lru[..0] == [] && s.lru[0..] == s.lru;
    assert Elements(s.lru[..0]) == {};
    assert s.store - {} == s.store;
  }

  lemma EvictUnfolds(cfg: Config, s: State, length: nat)
    requires Wants(cfg, s, length) && s.lru != [] && s.lru[0] in s.store
    ensures Evict(cfg, s, length) == Evict(cfg, EvictOne(s), length)
  {
  }

  /** j keys are taken off: each time room was still wanted. */
  ghost predicate TakesOff(cfg: Config, s: State, length: nat, j: nat) {
    && Takeable(s, j)
    && forall i :: 0 <= i < j ==> Takeable(s, i) && Wants(cfg, Dropped(s, i), length)
  }

  /** The exact fate of the eviction loop, in any state: it takes keys off the head of the list as long as it wants
      room; it ends as soon as it wants none, and hangs at a key that is not stored (or at the end of the list). */
  lemma EvictExactly(cfg: Config, s: State, length: nat, j: nat)
    requires TakesOff(cfg, s, length, j)
    ensures !Wants(cfg, Dropped(s, j), length) ==> Evict(cfg, s, length) == Done(Dropped(s, j), ())
    ensures Wants(cfg, Dropped(s, j), length) && !Takeable(s, j + 1) ==> Evict(cfg, s, length) == Hangs
  {
    EvictFrom(cfg, s, length, j);
    var d := Dropped(s, j);
    if Wants(cfg, d, length) && d.lru != [] && d.lru[0] in d.store {
      var ks := Elements(s.lru[..j]);
      assert s.lru[j] !in ks && s.lru[j] in s.store;
      var head := s.lru[..j + 1];
      forall a, b | 0 <= a < b < |head| ensures head[a] != head[b] {
        if b < j { assert s.lru[..j][a] != s.lru[..j][b]; } else { assert s.lru[..j][a] in ks; }
      }
      assert Takeable(s, j + 1);
    }
  }

  /** One of the two always happens. */
  lemma {:induction false} EvictDecides(cfg: Config, s: State, length: nat, j: nat) returns (n: nat)
    requires TakesOff(cfg, s, length, j)
    ensures TakesOff(cfg, s, length, n) && (!Wants(cfg, Dropped(s, n), length) || !Takeable(s, n + 1))
    decreases |s.lru| - j
  {
    hide Wants, Dropped, Distinct;
    if Wants(cfg, Dropped(s, j), length) && Takeable(s, j + 1) {
      n := EvictDecides(cfg, s, length, j + 1);
    } else {
      n := j;
    }
  }

  ghost predicate WantsForEver(cfg: Config, s: State, length: nat) {
    forall k: nat :: Wants(cfg, EvictTurns(s, k), length)
  }

  lemma {:induction false} TurnsFromNext(s: State, k: nat)
    ensures EvictTurns(s, k + 1) == EvictTurns(EvictTurn(s), k)
  {
    if k > 0 {
      TurnsFromNext(s, k - 1);
    } else {
      assert EvictTurns(s, 0) == s;
    }
  }

  lemma {:induction false} StandsStill(s: State, k: nat)
    requires EvictTurn(s) == s
    ensures EvictTurns(s, k) == s
  {
    if k > 0 { StandsStill(s, k - 1); }
  }

  /** A turn that takes an entry is a step of the loop towards its end. */
  lemma OneTurn(cfg: Config, s: State, length: nat)
    requires Wants(cfg, s, length) && (Evict(cfg, s, length).Done? || (s.lru != [] && s.lru[0] in s.store))
    ensures |EvictTurn(s).store| < |s.store| && Evict(cfg, EvictTurn(s), length) == Evict(cfg, s, length)
  {
    var k := s.lru[0];
    assert s.store.Keys == (s.store - {k}).Keys + {k};
    assert |s.store| == |s.store.Keys| && |s.store - {k}| == |(s.store - {k}).Keys|;
  }

  /** `Hangs` is what it says: room is still wanted after every number of turns. */
  lemma {:induction false} HangsIsForEver(cfg: Config, s: State, length: nat)
    ensures Evict(cfg, s, length) == Hangs <==> WantsForEver(cfg, s, length)
    decreases |s.store|
  {
    assert EvictTurns(s, 0) == s;
    if Wants(cfg, s, length) {
      if s.lru == [] || s.lru[0] !in s.store {
        forall k: nat ensures Wants(cfg, EvictTurns(s, k), length) { StandsStill(s, k); }
      } else {
        hide Wants, EvictOne, Evict, EvictTurns;
        OneTurn(cfg, s, length);
        var next := EvictTurn(s);
        HangsIsForEver(cfg, next, length);
        forall k: nat ensures EvictTurns(s, k + 1) == EvictTurns(next, k) { TurnsFromNext(s, k); }
        if WantsForEver(cfg, s, length) {
          forall k: nat ensures Wants(cfg, EvictTurns(next, k), length) {
            assert Wants(cfg, EvictTurns(s, k + 1), length);
          }
        }
        if WantsForEver(cfg, next, length) {
          forall k: nat ensures Wants(cfg, EvictTurns(s, k), length) {
            if k > 0 { assert Wants(cfg, EvictTurns(next, k - 1), length); TurnsFromNext(s, k - 1); }
          }
        }
      }
    }
  }

  /** And `Done` is the first state, turn by turn, in which no room is wanted. */
  lemma {:induction false} DoneIsTheEnd(cfg: Config, s: State, length: nat) returns (k: nat)
    requires Evict(cfg, s, length).Done?
    ensures EvictTurns(s, k) == Evict(cfg, s, length).state && !Wants(cfg, EvictTurns(s, k), length)
    ensures forall i: nat :: i < k ==> Wants(cfg, EvictTurns(s, i), length)
    decreases |s.store|
  {
    assert EvictTurns(s, 0) == s;
    k := 0;
    if Wants(cfg, s, length) {
      hide Wants, EvictOne, EvictTurn, Evict, EvictTurns;
      OneTurn(cfg, s, length);
      var next := EvictTurn(s);
      k := DoneIsTheEnd(cfg, next, length);
      TurnsFromNext(s, k);
      forall i: nat | i < k + 1 ensures Wants(cfg, EvictTurns(s, i), length) {
        if i > 0 { TurnsFromNext(s, i - 1); }
      }
      k := k + 1;
    }
  }

  /** The eviction loop never ends exactly when, with room still wanted, it comes to a key that is no longer stored (or
      to the end of the list). */
  lemma HangsExactlyWhen(cfg: Config, s: State, length: nat)
    ensures WantsForEver(cfg, s, length) <==>
              exists j: nat :: TakesOff(cfg, s, length, j) && Wants(cfg, Dropped(s, j), length) && !Takeable(s, j + 1)
  {
    hide Evict, Wants, Dropped, Takeable;
    HangsIsForEver(cfg, s, length);
    assert TakesOff(cfg, s, length, 0) by { NothingTaken(s); }
    var n := EvictDecides(cfg, s, length, 0);
    EvictExactly(cfg, s, length, n);
    forall j: nat | TakesOff(cfg, s, length, j) && Wants(cfg, Dropped(s, j), length) && !Takeable(s, j + 1)
      ensures Evict(cfg, s, length) == Hangs
    {
      EvictExactly(cfg, s, length, j);
    }
  }

  lemma NothingTaken(s: State)
    ensures Takeable(s, 0)
  {
  }

  // ---------------------------------------------------------------- runs without overwriting

  /** Later in the list, touched later. */
  ghost predicate Ascending(lru: seq<string>, rank: string -> int) {
    forall i, j :: 0 <= i < j < |lru| ==> rank(lru[i]) < rank(lru[j])
  }

  /** Map, list and counter agree, and the list is in order of rank. */
  ghost predicate Agree(s: State, rank: string -> int) {
    && Ascending(s.lru, rank)
    && (forall k :: k in s.lru <==> k in s.store)
    && s.size == Bytes(s.store)
  }

  lemma AgreeTakeable(s: State, rank: string -> int, j: nat)
    requires Agree(s, rank) && j <= |s.lru|
    ensures Takeable(s, j)
  {
    var head := s.lru[..j];
    forall a, b | 0 <= a < b < |head| ensures head[a] != head[b] {
      assert rank(s.lru[a]) < rank(s.lru[b]);
    }
    forall i | 0 <= i < j ensures s.lru[i] in s.store {
      assert s.lru[i] in s.lru;
    }
  }

  lemma DroppedAgrees(s: State, rank: string -> int, j: nat)
    requires Agree(s, rank) && j <= |s.lru| && Takeable(s, j)
    ensures Agree(Dropped(s, j), rank)
    ensures j == |s.lru| ==> Dropped(s, j).store == map[]
  {
    var d := Dropped(s, j);
    hide Dropped;
    forall k ensures k in d.lru <==> k in d.store { DroppedKey(s, rank, j, k); }
    DroppedList(s, rank, j);
    if j == |s.lru| { assert forall k :: k in d.store ==> k in d.lru; }
  }

  lemma DroppedList(s: State, rank: string -> int, j: nat)
    requires Agree(s, rank) && Takeable(s, j)
    ensures Dropped(s, j).lru == s.lru[j..] && Ascending(s.lru[j..], rank)
    ensures Dropped(s, j).size == Bytes(Dropped(s, j).store)
  {
  }

  lemma DroppedKey(s: State, rank: string -> int, j: nat, k: string)
    requires Agree(s, rank) && Takeable(s, j)
    ensures k in Dropped(s, j).lru <==> k in Dropped(s, j).store
  {
    hide Bytes;
    var ks, d := Elements(s.lru[..j]), Dropped(s, j);
    if k in d.lru {
      var i :| 0 <= i < |d.lru| && d.lru[i] == k;
      assert s.lru[j + i] == k;
      forall a | 0 <= a < j ensures s.lru[..j][a] != k {
        assert rank(s.lru[a]) < rank(s.lru[j + i]);
      }
    }
    if k in d.store {
      var i :| 0 <= i < |s.lru| && s.lru[i] == k;
      forall a | 0 <= a < j ensures s.lru[a] in ks { assert s.lru[..j][a] == s.lru[a]; }
      assert d.lru[i - j] == k;
    }
  }

  /** Where map and list agree, eviction always ends, and what it takes is the shortest prefix of the list, least
      recent first, that makes room or empties the cache. */
  lemma EvictsShortestPrefix(cfg: Config, s: State, length: nat, rank: string -> int) returns (n: nat)
    requires Agree(s, rank)
    ensures TakesOff(cfg, s, length, n) && !Wants(cfg, Dropped(s, n), length)
    ensures Evict(cfg, s, length) == Done(Dropped(s, n), ())
    ensures Agree(Dropped(s, n), rank)
  {
    hide Evict, Wants, Agree, Ascending;
    NothingTaken(s);
    n := EvictDecides(cfg, s, length, 0);
    EvictExactly(cfg, s, length, n);
    DroppedAgrees(s, rank, n);
    if n < |s.lru| { AgreeTakeable(s, rank, n + 1); } else { NothingWanted(cfg, Dropped(s, n), length); }
  }

  lemma NothingWanted(cfg: Config, s: State, length: nat)
    ensures s.store == map[] ==> !Wants(cfg, s, length)
  {
  }

  lemma HeadIsLowest(lru: seq<string>, rank: string -> int)
    requires lru != [] && Ascending(lru, rank)
    ensures Ascending(lru[1..], rank) && forall w :: w in lru[1..] ==> rank(lru[0]) < rank(w)
  {
    forall w | w in lru[1..] ensures rank(lru[0]) < rank(w) {
      var i :| 0 <= i < |lru[1..]| && lru[1..][i] == w;
      assert lru[i + 1] == w;
    }
  }

  lemma LowestAhead(w: string, rest: seq<string>, rank: string -> int)
    requires Ascending(rest, rank) && forall v :: v in rest ==> rank(w) < rank(v)
    ensures Ascending([w] + rest, rank)
  {
  }

  lemma {:induction false} RemoveFirstAscending(lru: seq<string>, k: string, rank: string -> int)
    requires Ascending(lru, rank)
    ensures Ascending(RemoveFirst(lru, k), rank) && k !in RemoveFirst(lru, k)
  {
    if lru != [] {
      var rest := RemoveFirst(lru[1..], k);
      HeadIsLowest(lru, rank);
      hide Ascending;
      RemoveFirstAscending(lru[1..], k, rank);
      forall w | w in rest ensures w in lru[1..] { RemoveFirstKeeps(lru[1..], k, w); }
      LowestAhead(lru[0], rest, rank);
    }
  }

  lemma {:induction false} RemoveEachAscending(lru: seq<string>, ks: set<string>, rank: string -> int)
    requires Ascending(lru, rank)
    ensures Ascending(RemoveEach(lru, ks), rank)
    ensures forall k :: k in RemoveEach(lru, ks) <==> k in lru && k !in ks
  {
    if lru != [] {
      var ks' := if lru[0] in ks then ks - {lru[0]} else ks;
      var rest := RemoveEach(lru[1..], ks');
      HeadIsLowest(lru, rank);
      hide Ascending;
      RemoveEachAscending(lru[1..], ks', rank);
      LowestAhead(lru[0], rest, rank);
      assert lru[0] !in lru[1..];
      assert lru == [lru[0]] + lru[1..];
    }
  }

  /** Call i touched k: it was a hit on k or stored k. */
  ghost predicate Touches(cfg: Config, ops: seq<Op>, i: nat, k: string)
    requires i < |ops|
  {
    || (ops[i].Get? && ops[i].key == k &&
        var before := Run(cfg, ops[..i]); before.Done? && Hit(before.state, k, ops[i].now))
    || (Stores(cfg, ops, i) && ops[i].key == k)
  }

  /** The number of the last call that touched k, -1 if there was none. */
  ghost function LastTouch(cfg: Config, ops: seq<Op>, k: string): (r: int)
    ensures -1 <= r < |ops|
    decreases |ops|
  {
    if ops == [] then -1
    else if Touches(cfg, ops, |ops| - 1, k) then |ops| - 1
    else LastTouch(cfg, ops[..|ops| - 1], k)
  }

  ghost function Recency(cfg: Config, ops: seq<Op>): string -> int {
    (k: string) => LastTouch(cfg, ops, k)
  }

  /** `put` is only called with keys that are not stored at that moment. */
  ghost predicate NeverOverwrites(cfg: Config, ops: seq<Op>) {
    forall i: nat :: i < |ops| ==> PutsNewKey(cfg, ops, i)
  }

  ghost predicate PutsNewKey(cfg: Config, ops: seq<Op>, i: nat)
    requires i < |ops|
  {
    ops[i].Put? ==> var before := Run(cfg, ops[..i]); before.Done? ==> ops[i].key !in before.state.store
  }

  /** On every run in which `put` never meets a stored key: every call returns, the list holds exactly the stored
      keys, each once, in order of last touch, and the counter is the sum of the stored lengths. */
  lemma {:induction false} CleanRunsAgree(cfg: Config, ops: seq<Op>)
    requires NeverOverwrites(cfg, ops)
    ensures Run(cfg, ops).Done? && Agree(Run(cfg, ops).state, Recency(cfg, ops))
    decreases |ops|
  {
    hide Agree, RemoveFirst, RemoveEach, Bytes, Evict, Hit, Stores;
    if ops == [] {
      EmptyAgrees(Recency(cfg, ops));
    } else {
      var last, op := |ops| - 1, ops[|ops| - 1];
      PrefixNeverOverwrites(cfg, ops);
      CleanRunsAgree(cfg, ops[..last]);
      var s := Run(cfg, ops[..last]).state;
      match op
      case Get(k, now) => GetAgrees(cfg, ops);
      case Put(k, _, _, _, _) => assert PutsNewKey(cfg, ops, last); PutAgrees(cfg, ops);
      case Remove(k) => UntouchedRanks(cfg, ops, s); RemoveAgrees(s, k, Recency(cfg, ops));
      case Clear => EmptyAgrees(Recency(cfg, ops)); SwitchAgrees(EmptyState(), s.enabled, Recency(cfg, ops));
      case CleanupExpired(now) => UntouchedRanks(cfg, ops, s); CleanupAgrees(s, now, Recency(cfg, ops));
      case SetEnabled(on) => UntouchedRanks(cfg, ops, s); SwitchAgrees(s, on, Recency(cfg, ops));
    }
  }

  lemma PrefixNeverOverwrites(cfg: Config, ops: seq<Op>)
    requires NeverOverwrites(cfg, ops) && ops != []
    ensures NeverOverwrites(cfg, ops[..|ops| - 1])
  {
    var early := ops[..|ops| - 1];
    forall i: nat | i < |early| ensures PutsNewKey(cfg, early, i) {
      assert early[..i] == ops[..i] && PutsNewKey(cfg, ops, i);
    }
  }

  lemma EmptyAgrees(rank: string -> int)
    ensures Agree(EmptyState(), rank)
  {
  }

  lemma SwitchAgrees(s: State, on: bool, rank: string -> int)
    requires Agree(s, rank)
    ensures Agree(s.(enabled := on), rank)
  {
  }

  lemma RemoveAgrees(s: State, k: string, rank: string -> int)
    requires Agree(s, rank)
    ensures Agree(RemoveStep(s, k), rank)
  {
    RemoveFirstAscending(s.lru, k, rank);
    forall j ensures j != k ==> (j in RemoveFirst(s.lru, k) <==> j in s.lru) {
      RemoveFirstKeeps(s.lru, k, j);
    }
    if k in s.store { BytesWithout(s.store, k); }
  }

  lemma CleanupAgrees(s: State, now: int, rank: string -> int)
    requires Agree(s, rank)
    ensures Agree(RemoveAll(s, Expired(s, now)), rank)
  {
    RemoveEachAscending(s.lru, Expired(s, now), rank);
  }

  /** A call that touches nothing leaves all ranks. */
  lemma UntouchedRanks(cfg: Config, ops: seq<Op>, s: State)
    requires ops != [] && !ops[|ops| - 1].Get? && !ops[|ops| - 1].Put?
    requires Agree(s, Recency(cfg, ops[..|ops| - 1]))
    ensures Agree(s, Recency(cfg, ops))
  {
    assert TouchesNothing(cfg, ops, |ops| - 1);
    RanksWithoutTouch(cfg, ops, s);
  }

  /** Where map and list agree a put comes back, and it says that it stored exactly if the cache is on, the size is
      within its limits, the type is one that is kept, and the value alone fits an empty cache. */
  lemma PutStoresExactlyWhen(cfg: Config, s: State, op: Op, rank: string -> int)
    requires op.Put? && Agree(s, rank)
    ensures PutStep(cfg, s, op).Done?
    ensures PutStep(cfg, s, op).reply <==>
              && s.enabled && Cacheable(op.contentType)
              && (op.data == [] || cfg.minFileSize <= |op.data| <= cfg.maxFileSize)
              && 1 <= cfg.maxEntries && |op.data| <= cfg.maxSize
  {
    hide Cacheable, Dropped, Ascending;
    var n := EvictsShortestPrefix(cfg, s, |op.data|, rank);
    var d := Dropped(s, n);
    if d.store == map[] { assert d.size == 0; }
  }

  /** Every entry that goes is counted as an eviction. */
  lemma {:induction false} EvictCounts(cfg: Config, s: State, length: nat)
    ensures var r := Evict(cfg, s, length);
            r.Done? ==> r.state.evictions - s.evictions == |s.store| - |r.state.store|
    decreases |s.store|
  {
    if NeedsRoom(cfg, s, length) && s.store != map[] && s.lru != [] && s.lru[0] in s.store {
      MapSizes(s.store, {s.lru[0]});
      EvictCounts(cfg, EvictOne(s), length);
    }
  }

  /** A touched key moves to the end with the highest rank of all. */
  lemma TouchedLast(lru: seq<string>, k: string, rank: string -> int, rank': string -> int)
    requires Ascending(lru, rank) && k !in lru
    requires forall j :: j != k ==> rank'(j) == rank(j) < rank'(k)
    ensures Ascending(lru + [k], rank')
  {
    var all := lru + [k];
    forall i, j | 0 <= i < j < |all| ensures rank'(all[i]) < rank'(all[j]) {
      assert all[i] == lru[i] && lru[i] in lru;
      if j < |lru| { assert all[j] == lru[j] && lru[j] in lru; }
    }
  }

  ghost predicate TouchesNothing(cfg: Config, ops: seq<Op>, i: nat)
    requires i < |ops|
  {
    forall k :: !Touches(cfg, ops, i, k)
  }

  lemma RanksAfterTouch(cfg: Config, ops: seq<Op>, k: string)
    requires ops != [] && Touches(cfg, ops, |ops| - 1, k)
    ensures forall j :: j != k ==> Recency(cfg, ops)(j) == Recency(cfg, ops[..|ops| - 1])(j) < Recency(cfg, ops)(k)
  {
    assert Recency(cfg, ops)(k) == |ops| - 1;
    forall j | j != k
      ensures Recency(cfg, ops)(j) == Recency(cfg, ops[..|ops| - 1])(j) < Recency(cfg, ops)(k)
    {
      assert !Touches(cfg, ops, |ops| - 1, j);
    }
  }

  lemma RanksWithoutTouch(cfg: Config, ops: seq<Op>, s: State)
    requires ops != [] && TouchesNothing(cfg, ops, |ops| - 1)
    requires Agree(s, Recency(cfg, ops[..|ops| - 1]))
    ensures Agree(s, Recency(cfg, ops))
  {
    forall k ensures Recency(cfg, ops)(k) == Recency(cfg, ops[..|ops| - 1])(k) {
      assert !Touches(cfg, ops, |ops| - 1, k);
    }
    hide LastTouch, Touches, Bytes;
  }

  lemma GetAgrees(cfg: Config, ops: seq<Op>)
    requires ops != [] && ops[|ops| - 1].Get? && Run(cfg, ops[..|ops| - 1]).Done?
    requires Agree(Run(cfg, ops[..|ops| - 1]).state, Recency(cfg, ops[..|ops| - 1]))
    ensures Run(cfg, ops).Done? && Agree(Run(cfg, ops).state, Recency(cfg, ops))
  {
    var last, op := |ops| - 1, ops[|ops| - 1];
    var s, rank := Run(cfg, ops[..last]).state, Recency(cfg, ops[..last]);
    if Hit(s, op.key, op.now) {
      assert Touches(cfg, ops, last, op.key);
      RanksAfterTouch(cfg, ops, op.key);
      RemoveFirstAscending(s.lru, op.key, rank);
      TouchedLast(RemoveFirst(s.lru, op.key), op.key, rank, Recency(cfg, ops));
      forall j ensures j != op.key ==> (j in RemoveFirst(s.lru, op.key) <==> j in s.lru) {
        RemoveFirstKeeps(s.lru, op.key, j);
      }
    } else {
      RanksWithoutTouch(cfg, ops, s);
    }
  }

  lemma PutAgrees(cfg: Config, ops: seq<Op>)
    requires ops != [] && ops[|ops| - 1].Put? && Run(cfg, ops[..|ops| - 1]).Done?
    requires PutsNewKey(cfg, ops, |ops| - 1)
    requires Agree(Run(cfg, ops[..|ops| - 1]).state, Recency(cfg, ops[..|ops| - 1]))
    ensures Run(cfg, ops).Done? && Agree(Run(cfg, ops).state, Recency(cfg, ops))
  {
    var last, op := |ops| - 1, ops[|ops| - 1];
    var s, rank := Run(cfg, ops[..last]).state, Recency(cfg, ops[..last]);
    var n := EvictsShortestPrefix(cfg, s, |op.data|, rank);
    EvictOnlyRemoves(cfg, s, |op.data|);
    var r := PutStep(cfg, s, op);
    var roomy := Evict(cfg, s, |op.data|).state;
    if r.reply {
      assert Touches(cfg, ops, last, op.key);
      RanksAfterTouch(cfg, ops, op.key);
      InsertAgrees(roomy, op.key, NewEntry(cfg, op), rank, Recency(cfg, ops));
    } else {
      assert Agree(r.state, rank);
      RanksWithoutTouch(cfg, ops, r.state);
    }
  }

  lemma InsertAgrees(s: State, k: string, e: Entry, rank: string -> int, rank': string -> int)
    requires Agree(s, rank) && k !in s.store
    requires forall j :: j != k ==> rank'(j) == rank(j) < rank'(k)
    ensures Agree(Insert(s, k, e), rank')
  {
    TouchedLast(s.lru, k, rank, rank');
    BytesWith(s.store, k, e);
    assert s.store - {k} == s.store;
    assert Insert(s, k, e).lru == s.lru + [k];
  }

  // ---------------------------------------------------------------- overwriting and hanging

  lemma RunStep(cfg: Config, ops: seq<Op>, op: Op)
    requires Run(cfg, ops).Done?
    ensures Run(cfg, ops + [op]) == Step(cfg, Run(cfg, ops).state, op)
  {
    assert (ops + [op])[..|ops|] == ops;
  }

  function EmptyPut(t: string, k: string): Op {
    Put(k, [], t, None, 0)
  }

  lemma EmptyPutFits(cfg: Config, s: State, t: string, k: string)
    requires s.enabled && Cacheable(t) && !NeedsRoom(cfg, s, 0)
    ensures Step(cfg, s, EmptyPut(t, k)) == Done(Insert(s, k, Entry([], t, cfg.defaultTtl, 0)), ())
  {
  }

  /** The states of the run below: one key stored twice, a second key, and a third that evicts. */
  function Stage(t: string, n: nat): State
    requires n <= 4
  {
    var e := Entry([], t, 60, 0);
    if n == 0 then EmptyState()
    else if n == 1 then State(map["a" := e], ["a"], 0, 0, 0, 0, true)
    else if n == 2 then State(map["a" := e], ["a", "a"], 0, 0, 0, 0, true)
    else if n == 3 then State(map["a" := e, "b" := e], ["a", "a", "b"], 0, 0, 0, 0, true)
    else State(map["b" := e, "c" := e], ["a", "b", "c"], 0, 0, 0, 1, true)
  }

  lemma FirstThreePuts(t: string)
    requires Cacheable(t)
    ensures var cfg := Config(100, 2, 0, 100, 60);
            && Step(cfg, Stage(t, 0), EmptyPut(t, "a")) == Done(Stage(t, 1), ())
            && Step(cfg, Stage(t, 1), EmptyPut(t, "a")) == Done(Stage(t, 2), ())
            && Step(cfg, Stage(t, 2), EmptyPut(t, "b")) == Done(Stage(t, 3), ())
  {
    var cfg, e := Config(100, 2, 0, 100, 60), Entry([], t, 60, 0);
    EmptyPutFits(cfg, Stage(t, 0), t, "a");
    EmptyPutFits(cfg, Stage(t, 1), t, "a");
    EmptyPutFits(cfg, Stage(t, 2), t, "b");
    hide Step;
    assert Insert(Stage(t, 0), "a", e) == Stage(t, 1);
    assert Insert(Stage(t, 1), "a", e) == Stage(t, 2);
    assert Insert(Stage(t, 2), "b", e) == Stage(t, 3);
  }

  lemma FourthPut(t: string)
    requires Cacheable(t)
    ensures Step(Config(100, 2, 0, 100, 60), Stage(t, 3), EmptyPut(t, "c")) == Done(Stage(t, 4), ())
  {
    var cfg, e := Config(100, 2, 0, 100, 60), Entry([], t, 60, 0);
    var s := Stage(t, 3);
    assert s.store.Keys == {"a", "b"} && |s.store| == |s.store.Keys|;
    var roomy := State(map["b" := e], ["a", "b"], 0, 0, 0, 1, true);
    assert EvictOne(s) == roomy;
    assert roomy.store.Keys == {"b"} && |roomy.store| == |roomy.store.Keys|;
    assert Evict(cfg, roomy, 0) == Done(roomy, ());
    assert Evict(cfg, s, 0) == Done(roomy, ());
    assert Insert(roomy, "c", e) == Stage(t, 4);
  }

  lemma FifthPut(t: string)
    requires Cacheable(t)
    ensures Step(Config(100, 2, 0, 100, 60), Stage(t, 4), EmptyPut(t, "d")) == Hangs
    ensures WantsForEver(Config(100, 2, 0, 100, 60), Stage(t, 4), 0)
  {
    var s := Stage(t, 4);
    assert s.store.Keys == {"b", "c"} && |s.store| == |s.store.Keys|;
    HangsIsForEver(Config(100, 2, 0, 100, 60), s, 0);
  }

  /** Room for two entries; a key is stored twice, then two more keys: all calls return. The next one never does, because
      the overwritten key is listed twice and the second listing outlives its entry. */
  lemma OverwritingCanHang(t: string)
    requires Cacheable(t)
    ensures var cfg := Config(100, 2, 0, 100, 60);
            var ops := [EmptyPut(t, "a"), EmptyPut(t, "a"), EmptyPut(t, "b"), EmptyPut(t, "c")];
            && Run(cfg, ops).Done? && Run(cfg, ops + [EmptyPut(t, "d")]) == Hangs
            && WantsForEver(cfg, Run(cfg, ops).state, 0)
  {
    var cfg := Config(100, 2, 0, 100, 60);
    var a, b, c, d := EmptyPut(t, "a"), EmptyPut(t, "b"), EmptyPut(t, "c"), EmptyPut(t, "d");
    assert Run(cfg, []) == Done(Stage(t, 0), ());
    FirstThreePuts(t);
    FourthPut(t);
    FifthPut(t);
    hide Run, Step, Stage, EmptyPut, Cacheable;
    assert [] + [a] == [a] && [a] + [a] == [a, a] && [a, a] + [b] == [a, a, b] && [a, a, b] + [c] == [a, a, b, c];
    RunStep(cfg, [], a);
    RunStep(cfg, [a], a);
    RunStep(cfg, [a, a], b);
    RunStep(cfg, [a, a, b], c);
    RunStep(cfg, [a, a, b, c], d);
  }
}
