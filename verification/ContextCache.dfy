/**
 The two-level context cache (src/lib.rs): a bounded memory level over a bounded persistent level.
 The clock is an argument, and the store's calls may fail without effect, as `faults` says.
 Runs are sequential.
 */
module ContextCaches {
  import opened Prelude
  import opened Sums
  import opened Eviction
  import opened CacheLevels
  import opened ContextKeys
  import L = Layered

  class ContextCache {
    const maxMemory: u64
    const maxDisk: u64
    const defaultTtl: Duration
    const hasStore: bool
    const overhead: nat

    var front: Front
    var level: Level
    var tick: u64

    // Every value given to `put` since its key was last invalidated or cleared, or found at the start; whether the
    // removal of an indexed entry has failed; whether someone else has changed the store; and whether the store may
    // hold entries that the index does not know.
    ghost var trail: Trail
    // The history as a plain map, where the last write wins.
    ghost var plain: map<Key, Bytes>

    // What every operation keeps.
    ghost predicate Valid()
      reads this
    {
      && FrontOk(front, maxMemory, trail.written, tick)
      && LevelOk(level, trail, tick) && LevelBounded(level, maxDisk, trail)
      && PlainTraced(plain, trail.written)
      && (!hasStore ==> level.store == map[])
    }

    constructor (maxMemory: u64, maxDisk: u64, defaultTtl: Duration, hasStore: bool, overhead: nat, contents: Store,
                 ghost written: History, ghost plain: map<Key, Bytes>)
      requires !hasStore ==> contents == map[]
      requires Mirrors(contents, written, plain)
      ensures this.maxMemory == maxMemory && this.maxDisk == maxDisk && this.hasStore == hasStore
      ensures this.defaultTtl == defaultTtl && this.overhead == overhead
      ensures front == Front(map[], 0) && level == Level(map[], 0, contents) && tick == 0
      ensures trail == Trail(written, false, false, contents != map[]) && this.plain == plain && Valid()
    {
      this.maxMemory, this.maxDisk, this.defaultTtl := maxMemory, maxDisk, defaultTtl;
      this.hasStore, this.overhead := hasStore, overhead;
      front, level, tick := Front(map[], 0), Level(map[], 0, contents), 0;
      trail, this.plain := Trail(written, false, false, contents != map[]), plain;
      new;
      MapSumEmpty(Size, front.records);
      MapSumEmpty(Size, level.disk);
    }

    // The start indexes every unexpired entry of the store and then evicts as any write does.
    method Open(now: u64, access: map<Key, u64>, faults: StoreFaults) returns (r: Outcome)
      requires Valid() && front == Front(map[], 0) && level == Level(map[], 0, level.store) && tick == 0
      requires !trail.leaked && !trail.disturbed
      modifies this`level, this`tick, this`trail
      ensures r.Done? ==> Valid() && Part(level.store, old(level).store)
      ensures r.Done? && 0 < maxDisk && hasStore ==>
        level.store.Keys == level.disk.Keys && trail == old(trail).(stray := false)
      ensures r.Done? && 0 < maxDisk && hasStore ==>
        exists loaded: Disk ::
          && Loaded(loaded, old(level).store, old(level).store.Keys, access, overhead, now) && Latest(loaded, tick)
          && Evicted(loaded, level.disk, maxDisk)
      ensures r.Done? && !(0 < maxDisk && hasStore) ==> level == old(level) && trail == old(trail)
      ensures r.Done? && 0 < maxDisk && hasStore ==>
        faults.load.None? && Removable(old(level).store, old(level).store.Keys, now, faults)
      ensures r.Failed? ==> faults.load == Some(r.error) || FromRemoval(faults, r.error)
    {
      if !(0 < maxDisk && hasStore) {
        return Done;
      }
      if faults.load.Some? {
        return Failed(faults.load.value);
      }
      var l, t;
      r, l, t := Start(level.store, overhead, maxDisk, now, access, faults, trail);
      NoMemoryOk(front.records, front.bytes, trail.written, t);
      level, tick, trail := l, t, trail.(stray := false);
    }

    // Someone else changes the store, to entries that were written through this cache at some time or other.
    method Disturb(contents: Store)
      requires Valid() && StoreTraced(contents, trail.written) && (!hasStore ==> contents == map[])
      modifies this`level, this`trail
      ensures Valid() && level == old(level).(store := contents)
      ensures trail == old(trail).(disturbed := true, stray := true)
    {
      level := level.(store := contents);
      trail := trail.(disturbed := true, stray := true);
    }

    // ----- reading -----

    // A hit is a value written under the key since it was last invalidated or cleared; it comes from an unexpired
    // memory record, or from the entry an unexpired index record describes, and then moves up into memory.  As long
    // as nobody else changes the store, only a failing store makes the cache miss a live record.
    method Get(key: Key, now: u64, faults: StoreFaults) returns (r: Result<Option<Bytes>>)
      requires Valid()
      modifies this`front, this`level, this`tick, this`trail
      ensures Valid() && (trail == old(trail) || (trail == Leak(old(trail)) && key in faults.removes))
      ensures !ValidKey(key) ==> r == Err(InvalidInput) && front == old(front) && level == old(level)
      ensures r.Ok? && r.value.Some? ==> WasWritten(trail.written, key, r.value.value)
      ensures r.Ok? && r.value.Some? && trail.written[key] == {plain[key]} ==> r.value.value == plain[key]
      ensures ValidKey(key) ==>
        Served(old(front).records, front.records, old(level), level, maxMemory, key, now, old(tick), tick, faults, r)
      ensures !trail.disturbed && r == Ok(None) && DiskLive(old(level).disk, key, now) ==> faults.get in DAMAGE
    {
      if !ValidKey(key) {
        return Err(InvalidInput);
      }
      var f, l, t;
      ghost var g;
      r, f, l, t, g := Read(front, level, hasStore, maxMemory, maxDisk, key, now, tick, faults, trail);
      if r.Ok? && r.value.Some? {
        assert trail.written[key] == {plain[key]} ==> r.value.value == plain[key];
      }
      front, level, tick, trail := f, l, t, g;
    }

    // ----- writing -----

    // A success takes the value to both levels, each as far as it goes; a failure leaves the memory level alone.
    method Put(key: Key, value: Bytes, ttl: Option<Duration>, pinned: bool, now: u64, faults: StoreFaults)
      returns (r: Outcome)
      requires Valid()
      modifies this`front, this`level, this`tick, this`trail, this`plain
      ensures Valid() && trail.disturbed == old(trail).disturbed
      ensures !ValidKey(key) || value == [] ==>
        && r == (if ValidKey(key) then Done else Failed(InvalidInput))
        && front == old(front) && level == old(level) && trail == old(trail) && plain == old(plain)
      ensures ValidKey(key) && value != [] ==>
        trail.written == Recorded(old(trail).written, key, value) && plain == old(plain)[key := value]
      ensures ValidKey(key) && value != [] && r.Done? ==>
        Wrote(old(front).records, front.records, old(level), level, maxMemory, maxDisk, overhead, hasStore, key,
              L.StoredEntry(value, ExpiryAfter(if ttl.Some? then ttl.value else defaultTtl, now), pinned), now,
                old(tick), tick)
      ensures r.Failed? ==> front == old(front)
      ensures ValidKey(key) && value != [] && r.Done? ==>
        KeptFor(front.records, old(level), level, maxMemory, maxDisk, hasStore, key, |value|,
                if ttl.Some? then ttl.value else defaultTtl, now)
      ensures ValidKey(key) && value != [] && r.Done? && Offered(|value|, maxDisk, hasStore) ==>
        DiskLive(old(level).disk, key, now) || faults.put.None?
      ensures r.Failed? && ValidKey(key) ==>
        (faults.put == Some(r.error) || FromRemoval(faults, r.error)) && !DiskLive(old(level).disk, key, now)
      ensures trail.leaked == old(trail).leaked || faults.removes != map[]
    {
      if !ValidKey(key) {
        return Failed(InvalidInput);
      }
      if value == [] {
        return Done;
      }
      r := Write(key, value, if ttl.Some? then ttl.value else defaultTtl, pinned, now, faults);
    }

    // A write of a value under a valid key.
    method Write(key: Key, value: Bytes, ttl: Duration, pinned: bool, now: u64, faults: StoreFaults)
      returns (r: Outcome)
      requires Valid()
      modifies this`front, this`level, this`tick, this`trail, this`plain
      ensures Valid() && trail.disturbed == old(trail).disturbed
      ensures trail.written == Recorded(old(trail).written, key, value) && plain == old(plain)[key := value]
      ensures r.Done? ==>
        && Wrote(old(front).records, front.records, old(level), level, maxMemory, maxDisk, overhead, hasStore, key,
                 L.StoredEntry(value, ExpiryAfter(ttl, now), pinned), now, old(tick), tick)
        && KeptFor(front.records, old(level), level, maxMemory, maxDisk, hasStore, key, |value|, ttl, now)
        && (Offered(|value|, maxDisk, hasStore) ==> DiskLive(old(level).disk, key, now) || faults.put.None?)
      ensures r.Failed? ==> front == old(front)
      ensures r.Failed? ==>
        (faults.put == Some(r.error) || FromRemoval(faults, r.error)) && !DiskLive(old(level).disk, key, now)
      ensures trail.leaked == old(trail).leaked || faults.removes != map[]
    {
      var entry := L.StoredEntry(value, ExpiryAfter(ttl, now), pinned);
      ghost var noted := trail.(written := Recorded(trail.written, key, value));
      Noted(front, level, maxMemory, trail, plain, tick, key, value);
      var f, l, t;
      ghost var g;
      r, f, l, t, g := WriteBoth(front, level, hasStore, maxMemory, maxDisk, overhead, key, entry, now, tick, faults,
        noted, ttl);
      front, level, tick, trail, plain := f, l, t, g, plain[key := value];
    }

    // ----- forgetting -----

    // After a success nothing is left of the key, so no later read can return an earlier value.
    method Invalidate(key: Key, faults: StoreFaults) returns (r: Outcome)
      requires Valid()
      modifies this`front, this`level, this`trail, this`plain
      ensures Valid()
      ensures r.Done? <==> ValidKey(key) && !(hasStore && key in faults.removes)
      ensures r.Done? ==> front.records == old(front).records - {key} && level.disk == old(level).disk - {key}
      ensures r.Done? ==> level.store == old(level).store - {key} && plain == old(plain) - {key}
      ensures r.Done? ==> trail == old(trail).(written := old(trail).written - {key})
      ensures r.Failed? ==> front == old(front) && level == old(level) && trail == old(trail) && plain == old(plain)
    {
      if !ValidKey(key) {
        return Failed(InvalidInput);
      }
      if hasStore {
        if key in faults.removes {
          return Failed(faults.removes[key]);
        }
      }
      var f := DropMemory(front, maxMemory, key, trail.written, tick);
      MemoryOkForgets(f.records, f.bytes, trail.written, tick, key);
      var l := RemoveBoth(level, maxDisk, key, trail, tick);
      StoreForgets(l.store, plain, trail.written, key);
      assert l.store - {key} == l.store;
      assert !hasStore ==> level.store - {key} == level.store;
      front, level := f, l;
      trail, plain := trail.(written := trail.written - {key}), plain - {key};
      return Done;
    }

    // Everything goes, and with it whatever failed removals had left counted.
    method Clear(faults: StoreFaults) returns (r: Outcome)
      requires Valid()
      modifies this`front, this`level, this`trail, this`plain
      ensures Valid()
      ensures r.Done? <==> !(hasStore && faults.clear.Some?)
      ensures r.Done? ==> front == Front(map[], 0) && level == Level(map[], 0, map[])
      ensures r.Done? ==> trail == Trail(map[], false, false, false) && plain == map[]
      ensures r.Failed? ==> front == old(front) && level == old(level) && trail == old(trail) && plain == old(plain)
    {
      if hasStore {
        if faults.clear.Some? {
          return Failed(faults.clear.value);
        }
      }
      front, level := Front(map[], 0), Level(map[], 0, map[]);
      trail, plain := Trail(map[], false, false, false), map[];
      MapSumEmpty(Size, front.records);
      MapSumEmpty(Size, level.disk);
      return Done;
    }
  }

  // The history gains a write.
  lemma Noted(f: Front, l: Level, cap: nat, g: Trail, plain: map<Key, Bytes>, tick: u64, key: Key, value: Bytes)
    requires FrontOk(f, cap, g.written, tick) && LevelOk(l, g, tick) && PlainTraced(plain, g.written)
    ensures var g' := g.(written := Recorded(g.written, key, value));
      && FrontOk(f, cap, g'.written, tick) && LevelOk(l, g', tick) && PlainTraced(plain[key := value], g'.written)
      && WasWritten(g'.written, key, value)
  {
    MemoryOkRecorded(f.records, f.bytes, g.written, tick, key, value);
    StoreRecorded(l.store, plain, g.written, key, value);
  }

  lemma NoMemoryOk(m: Memory, bytes: nat, written: History, tick: u64)
    requires m == map[] && MemoryExact(m, bytes)
    ensures MemoryOk(m, bytes, written, tick)
  {
  }

  // What a read that memory cannot answer does to both levels.
  ghost predicate ReadFrom(m: Memory, m': Memory, l: Level, l': Level, cap: nat, key: Key, now: u64, tick: u64,
                           tick': u64, faults: StoreFaults, r: Result<Option<Bytes>>)
  {
    if r.Ok? && r.value.Some? then
      && DiskLive(l.disk, key, now) && InStep(l.disk, l.store, key) && r.value.value == l.store[key].value
      && Renewed(l.disk, l'.disk, key, tick) && l'.store == l.store
      && Admitted(m, m', cap, key, l.store[key].value, l.store[key].expiresAt, l.store[key].pinned, SatAdd(tick, 1),
        tick')
    else
      m' == m && Missed(l, l', key, now, faults, r)
  }

  // The rest of a read whose key is not in memory.
  method ReadPersistent(f: Front, l: Level, hasStore: bool, maxMemory: u64, maxDisk: u64, key: Key, now: u64, tick: u64,
                        faults: StoreFaults, ghost g: Trail)
    returns (r: Result<Option<Bytes>>, f': Front, l': Level, tick': u64, ghost g': Trail)
    requires FrontOk(f, maxMemory, g.written, tick) && LevelOk(l, g, tick) && LevelBounded(l, maxDisk, g)
    requires key !in f.records && (!hasStore ==> l.store == map[])
    ensures FrontOk(f', maxMemory, g.written, tick') && LevelOk(l', g', tick') && LevelBounded(l', maxDisk, g')
    ensures (!hasStore ==> l'.store == map[])
    ensures g' == g || (g' == Leak(g) && key in faults.removes)
    ensures r.Ok? && r.value.Some? ==> WasWritten(g.written, key, r.value.value)
    ensures ReadFrom(f.records, f'.records, l, l', maxMemory, key, now, tick, tick', faults, r)
    ensures !g.disturbed && r == Ok(None) && DiskLive(l.disk, key, now) ==> faults.get in DAMAGE
  {
    var found;
    found, l', tick', g' := Lookup(l, hasStore, maxDisk, key, now, tick, faults, g);
    f' := f;
    FrontOkLater(f, maxMemory, g.written, tick, tick');
    if found.Err? {
      return Err(found.error), f', l', tick', g';
    }
    if found.value.None? {
      return Ok(None), f', l', tick', g';
    }
    var entry, t := found.value.value, tick';
    assert WasWritten(g.written, key, l.store[key].value);
    f', tick' := Admit(f, maxMemory, key, entry.value, entry.expiresAt, entry.pinned, t, g.written);
    LevelOkLater(l', g', t, tick');
    r := Ok(Some(entry.value));
  }

  // What a read does: a live memory record answers it and is renewed; otherwise an expired one goes, and the
  // persistent level is asked.
  ghost predicate Served(m: Memory, m': Memory, l: Level, l': Level, cap: nat, key: Key, now: u64, tick: u64,
                         tick': u64, faults: StoreFaults, r: Result<Option<Bytes>>)
  {
    if MemoryLive(m, key, now) then
      r == Ok(Some(m[key].value)) && l' == l && tick' == SatAdd(tick, 1) && m' == m[key := m[key].(lastAccess := tick')]
    else ReadFrom(m - {key}, m', l, l', cap, key, now, tick, tick', faults, r)
  }

  method Read(f: Front, l: Level, hasStore: bool, maxMemory: u64, maxDisk: u64, key: Key, now: u64, tick: u64,
              faults: StoreFaults, ghost g: Trail)
    returns (r: Result<Option<Bytes>>, f': Front, l': Level, tick': u64, ghost g': Trail)
    requires FrontOk(f, maxMemory, g.written, tick) && LevelOk(l, g, tick) && LevelBounded(l, maxDisk, g)
    requires (!hasStore ==> l.store == map[])
    ensures FrontOk(f', maxMemory, g.written, tick') && LevelOk(l', g', tick') && LevelBounded(l', maxDisk, g')
    ensures (!hasStore ==> l'.store == map[])
    ensures g' == g || (g' == Leak(g) && key in faults.removes)
    ensures r.Ok? && r.value.Some? ==> WasWritten(g.written, key, r.value.value)
    ensures Served(f.records, f'.records, l, l', maxMemory, key, now, tick, tick', faults, r)
    ensures !g.disturbed && r == Ok(None) && DiskLive(l.disk, key, now) ==> faults.get in DAMAGE
  {
    f' := f;
    if key in f.records {
      var record := f.records[key];
      if !IsExpired(record.expiresAt, now) {
        f' := RenewMemory(f, maxMemory, key, tick, g.written);
        LevelOkLater(l, g, tick, SatAdd(tick, 1));
        return Ok(Some(record.value)), f', l, SatAdd(tick, 1), g;
      }
      f' := DropMemory(f, maxMemory, key, g.written, tick);
    } else {
      assert f.records - {key} == f.records;
    }
    r, f', l', tick', g' := ReadPersistent(f', l, hasStore, maxMemory, maxDisk, key, now, tick, faults, g);
  }

  // The persistent level is asked to take a value of this size.
  predicate Offered(size: nat, maxDisk: nat, hasStore: bool) { 0 < maxDisk && size <= maxDisk && hasStore }

  // What a successful write does to both levels.
  ghost predicate Wrote(m: Memory, m': Memory, l: Level, l': Level, maxMemory: nat, maxDisk: nat, overhead: nat,
                        hasStore: bool, key: Key, e: StoredEntry, now: u64, tick: u64, tick': u64)
  {
    var stores := Offered(|e.value|, maxDisk, hasStore) && Stores(l.disk, l.store, key, now);
    var between := if stores then SatAdd(tick, 1) else tick;
    && (if Offered(|e.value|, maxDisk, hasStore) then Persisted(l, l', maxDisk, overhead, key, e, now, tick, between)
        else l' == l)
    && Admitted(m, m', maxMemory, key, e.value, e.expiresAt, e.pinned, between, tick')
  }

  // The record is alive exactly for its lifetime.
  ghost predicate LivesFor(records: Records, key: Key, lifetime: Duration, now: u64) {
    forall t: u64 :: t >= now ==> (MemoryLive(records, key, t) <==> Lives(lifetime, now, t))
  }

  // Whichever level took the value has it alive exactly for its lifetime.
  ghost predicate KeptFor(m': Memory, l: Level, l': Level, maxMemory: nat, maxDisk: nat, hasStore: bool, key: Key,
                          size: nat, lifetime: Duration, now: u64)
  {
    && (0 < maxMemory && size <= maxMemory && key in m' ==> LivesFor(m', key, lifetime, now))
    && (Offered(size, maxDisk, hasStore) && Stores(l.disk, l.store, key, now) && key in l'.disk ==>
          LivesFor(l'.disk, key, lifetime, now))
  }

  lemma WroteLasts(m: Memory, m': Memory, l: Level, l': Level, maxMemory: nat, maxDisk: nat, overhead: nat,
                   hasStore: bool, key: Key, e: StoredEntry, lifetime: Duration, now: u64, tick: u64, tick': u64)
    requires Wrote(m, m', l, l', maxMemory, maxDisk, overhead, hasStore, key, e, now, tick, tick')
    requires e.expiresAt == ExpiryAfter(lifetime, now)
    ensures KeptFor(m', l, l', maxMemory, maxDisk, hasStore, key, |e.value|, lifetime, now)
  {
    forall t: u64 | t >= now ensures Lives(lifetime, now, t) <==> !IsExpired(e.expiresAt, t) {
      LivesUntilExpiry(lifetime, now, t);
    }
  }

  method WriteBoth(f: Front, l: Level, hasStore: bool, maxMemory: u64, maxDisk: u64, overhead: nat, key: Key,
                   e: StoredEntry, now: u64, tick: u64, faults: StoreFaults, ghost g: Trail,
                   ghost lifetime: Duration)
    returns (r: Outcome, f': Front, l': Level, tick': u64, ghost g': Trail)
    requires FrontOk(f, maxMemory, g.written, tick) && LevelOk(l, g, tick) && LevelBounded(l, maxDisk, g)
    requires WasWritten(g.written, key, e.value) && (!hasStore ==> l.store == map[])
    ensures FrontOk(f', maxMemory, g.written, tick') && LevelOk(l', g', tick') && LevelBounded(l', maxDisk, g')
    ensures (!hasStore ==> l'.store == map[])
    ensures g' == g || (g' == Leak(g) && faults.removes != map[])
    ensures r.Done? && Offered(|e.value|, maxDisk, hasStore) ==> DiskLive(l.disk, key, now) || faults.put.None?
    ensures r.Done? ==>
            Wrote(f.records, f'.records, l, l', maxMemory, maxDisk, overhead, hasStore, key, e, now, tick, tick')
    ensures r.Done? && e.expiresAt == ExpiryAfter(lifetime, now) ==>
            KeptFor(f'.records, l, l', maxMemory, maxDisk, hasStore, key, |e.value|, lifetime, now)
    ensures r.Failed? ==> f' == f && (faults.put == Some(r.error) || FromRemoval(faults, r.error))
    ensures r.Failed? ==> !DiskLive(l.disk, key, now)
  {
    f', l', tick', g', r := f, l, tick, g, Done;
    if 0 < maxDisk && |e.value| <= maxDisk && hasStore {
      r, l', tick', g' := Persist(l, maxDisk, overhead, key, e, now, tick, faults, g);
      FrontOkLater(f, maxMemory, g.written, tick, tick');
      if r.Failed? {
        return;
      }
    }
    var t := tick';
    f', tick' := Admit(f, maxMemory, key, e.value, e.expiresAt, e.pinned, t, g.written);
    LevelOkLater(l', g', t, tick');
    if e.expiresAt == ExpiryAfter(lifetime, now) {
      WroteLasts(f.records, f'.records, l, l', maxMemory, maxDisk, overhead, hasStore, key, e, lifetime, now, tick,
        tick');
    }
  }

  // Invalidation takes the key out of the index and the store.
  method RemoveBoth(l: Level, cap: nat, key: Key, ghost g: Trail, ghost tick: u64) returns (l': Level)
    requires LevelOk(l, g, tick) && LevelBounded(l, cap, g)
    ensures l'.disk == l.disk - {key} && l'.store == l.store - {key}
    ensures LevelOk(l', g.(written := g.written - {key}), tick) && LevelOk(l', g, tick) && LevelBounded(l', cap, g)
  {
    if key in l.disk {
      LevelOkDrop(l, g, tick, key);
      l' := Level(l.disk - {key}, SatSub(l.bytes, l.disk[key].size), l.store - {key});
    } else {
      assert l.disk - {key} == l.disk;
      LevelOkWithout(l, g, tick, key);
      l' := l.(store := l.store - {key});
    }
    StoreForgetsKey(l', g, tick, key);
  }

  lemma LevelOkWithout(l: Level, g: Trail, tick: u64, key: Key)
    requires LevelOk(l, g, tick) && key !in l.disk
    ensures LevelOk(l.(store := l.store - {key}), g, tick)
  {
    StoreDrops(l.store, g.written, key);
    if !g.disturbed {
      SyncedDrop(l.disk, l.store, key);
      assert l.disk - {key} == l.disk;
    }
  }

  lemma StoreForgetsKey(l: Level, g: Trail, tick: u64, key: Key)
    requires LevelOk(l, g, tick) && key !in l.store
    ensures LevelOk(l, g.(written := g.written - {key}), tick)
  {
    forall j | j in l.store ensures WasWritten(g.written - {key}, j, l.store[j].value) {
      assert WasWritten(g.written, j, l.store[j].value);
    }
  }

  // ----- reading what was written -----

  const NO_FAULTS: StoreFaults := StoreFaults(None, None, None, map[], None)

  // A write that is about to be made, and whether its lifetime will have ended when it is read at `later`.
  datatype Writing = Writing(key: Key, value: Bytes, pinned: bool, now: u64, later: u64, lives: bool)

  // The persistent level will answer with the value: it has the value already under a record that is alive until then,
  // which a write does not touch, or it takes the new record and that stays.
  ghost predicate PersistentGives(l: Level, maxDisk: nat, overhead: nat, hasStore: bool, w: Writing) {
    || (DiskLive(l.disk, w.key, w.later) && w.key in l.store && l.store[w.key].value == w.value)
    || (&& Offered(|w.value|, maxDisk, hasStore) && Stores(l.disk, l.store, w.key, w.now) && w.lives
        && Lasts(l.disk, w.key, overhead + |w.value|, w.pinned, Room(maxDisk, l.bytes, l.disk)))
  }

  // Reading back what is about to be written, in terms of the state before the write.  A value that stays in memory
  // is read back while it lives; one that memory cannot hold is hidden by whatever record memory has of the key while
  // that lives; and otherwise the persistent level decides.
  ghost predicate ReadsBack(m: Memory, l: Level, maxMemory: nat, maxDisk: nat, overhead: nat, hasStore: bool,
                            w: Writing)
  {
    var fits := 0 < maxMemory && |w.value| <= maxMemory;
    if fits && Lasts(m, w.key, |w.value|, w.pinned, maxMemory) && w.lives then true
    else if !fits && MemoryLive(m, w.key, w.later) then m[w.key].value == w.value
    else PersistentGives(l, maxDisk, overhead, hasStore, w)
  }

  lemma PersistedGives(l: Level, l': Level, maxDisk: nat, overhead: nat, w: Writing, e: StoredEntry, tick: u64,
                       tick': u64)
    requires Persisted(l, l', maxDisk, overhead, w.key, e, w.now, tick, tick') && DiskTimed(l.disk, tick)
    requires tick < U64_MAX && Synced(l.disk, l.store) && w.now <= w.later
    requires e.value == w.value && e.pinned == w.pinned && (w.lives <==> !IsExpired(e.expiresAt, w.later))
    ensures DiskLive(l'.disk, w.key, w.later) && w.key in l'.store && l'.store[w.key].value == w.value <==>
      || (DiskLive(l.disk, w.key, w.later) && w.key in l.store && l.store[w.key].value == w.value)
      || (&& Stores(l.disk, l.store, w.key, w.now) && w.lives
          && Lasts(l.disk, w.key, overhead + |w.value|, w.pinned, Room(maxDisk, l.bytes, l.disk)))
  {
    if Stores(l.disk, l.store, w.key, w.now) {
      var others, record := l.disk - {w.key}, RecordOf(e, overhead, tick');
      forall j | j in others ensures others[j].lastAccess < record.lastAccess {
        assert l.disk[j].lastAccess <= tick;
      }
      NewestSurvivesIff(others, w.key, record, l'.disk, Room(maxDisk, l.bytes, l.disk));
      assert others - {w.key} == others;
    }
  }

  // The answer to a read without faults.
  function Answer(m: Memory, l: Level, key: Key, now: u64): Option<Bytes> {
    if MemoryLive(m, key, now) then Some(m[key].value)
    else if DiskLive(l.disk, key, now) && key in l.store then Some(l.store[key].value)
    else None
  }

  lemma ServedIsAnswer(m: Memory, m': Memory, l: Level, l': Level, cap: nat, key: Key, now: u64, t: u64, t': u64,
                       r: Result<Option<Bytes>>)
    requires Served(m, m', l, l', cap, key, now, t, t', NO_FAULTS, r) && Synced(l.disk, l.store)
    ensures r == Ok(Answer(m, l, key, now))
  {
    assert DiskLive(l.disk, key, now) ==> InStep(l.disk, l.store, key);
  }

  // The entry of a write.
  ghost predicate Writes(w: Writing, e: StoredEntry) {
    e.value == w.value && e.pinned == w.pinned && (w.lives <==> !IsExpired(e.expiresAt, w.later)) && w.now <= w.later
  }

  // What the persistent level answers after the write, in terms of the state before.
  lemma WrittenLevel(m: Memory, m1: Memory, l: Level, l1: Level, maxMemory: nat, maxDisk: nat, overhead: nat,
                     hasStore: bool, w: Writing, e: StoredEntry, t: u64, t1: u64)
    requires Wrote(m, m1, l, l1, maxMemory, maxDisk, overhead, hasStore, w.key, e, w.now, t, t1) && Writes(w, e)
    requires DiskTimed(l.disk, t) && Synced(l.disk, l.store) && t + 1 < U64_MAX
    ensures DiskLive(l1.disk, w.key, w.later) && w.key in l1.store && l1.store[w.key].value == w.value <==>
            PersistentGives(l, maxDisk, overhead, hasStore, w)
  {
    if Offered(|e.value|, maxDisk, hasStore) {
      var between := if Stores(l.disk, l.store, w.key, w.now) then SatAdd(t, 1) else t;
      PersistedGives(l, l1, maxDisk, overhead, w, e, t, between);
    }
  }

  // What memory answers after the write.
  lemma WrittenFront(m: Memory, m1: Memory, cap: nat, w: Writing, e: StoredEntry, t: u64, t1: u64)
    requires Admitted(m, m1, cap, w.key, e.value, e.expiresAt, e.pinned, t, t1) && t < U64_MAX && Writes(w, e)
    ensures MemoryAnswers(m, m1, cap, w)
  {
  }

  ghost predicate MemoryAnswers(m: Memory, m1: Memory, cap: nat, w: Writing) {
    var fits := 0 < cap && |w.value| <= cap;
    && (fits ==> (MemoryLive(m1, w.key, w.later) <==> Lasts(m, w.key, |w.value|, w.pinned, cap) && w.lives))
    && (fits && w.key in m1 ==> m1[w.key].value == w.value)
    && (!fits ==> m1 == m)
  }

  lemma WrittenMemory(m: Memory, m1: Memory, l: Level, l1: Level, maxMemory: nat, maxDisk: nat, overhead: nat,
                      hasStore: bool, w: Writing, e: StoredEntry, t: u64, t1: u64)
    requires Wrote(m, m1, l, l1, maxMemory, maxDisk, overhead, hasStore, w.key, e, w.now, t, t1) && Writes(w, e)
    requires t + 1 < U64_MAX
    ensures MemoryAnswers(m, m1, maxMemory, w)
  {
    var stores := Offered(|e.value|, maxDisk, hasStore) && Stores(l.disk, l.store, w.key, w.now);
    WrittenFront(m, m1, maxMemory, w, e, if stores then SatAdd(t, 1) else t, t1);
  }

  // A read without faults at any time after a successful write, with nothing in between, returns the value written
  // exactly under that condition, and never fails.
  lemma ReadAfterWriteIff(m: Memory, m1: Memory, m2: Memory, l: Level, l1: Level, l2: Level,
                          maxMemory: nat, maxDisk: nat, overhead: nat, hasStore: bool,
                          w: Writing, e: StoredEntry, t: u64, t1: u64, t2: u64, r: Result<Option<Bytes>>)
    requires Wrote(m, m1, l, l1, maxMemory, maxDisk, overhead, hasStore, w.key, e, w.now, t, t1) && Writes(w, e)
    requires Served(m1, m2, l1, l2, maxMemory, w.key, w.later, t1, t2, NO_FAULTS, r)
    requires DiskTimed(l.disk, t) && Synced(l.disk, l.store) && Synced(l1.disk, l1.store) && t + 1 < U64_MAX
    ensures r.Ok?
    ensures r == Ok(Some(w.value)) <==> ReadsBack(m, l, maxMemory, maxDisk, overhead, hasStore, w)
    ensures |w.value| > maxMemory && MemoryLive(m, w.key, w.later) ==> r == Ok(Some(m[w.key].value))
  {
    ServedIsAnswer(m1, m2, l1, l2, maxMemory, w.key, w.later, t1, t2, r);
    WrittenLevel(m, m1, l, l1, maxMemory, maxDisk, overhead, hasStore, w, e, t, t1);
    WrittenMemory(m, m1, l, l1, maxMemory, maxDisk, overhead, hasStore, w, e, t, t1);
  }

  // The same for the cache: write, then read at that or any later second.
  method WriteThenRead(cache: ContextCache, key: Key, value: Bytes, ttl: Option<Duration>, pinned: bool, now: u64,
                       later: u64)
    returns (w: Outcome, r: Result<Option<Bytes>>)
    requires cache.Valid() && !cache.trail.disturbed && cache.tick + 1 < U64_MAX && ValidKey(key) && value != []
    requires now <= later
    modifies cache`front, cache`level, cache`tick, cache`trail, cache`plain
    ensures cache.Valid() && w.Done? && r.Ok?
    ensures r == Ok(Some(value)) <==>
      var lives := Lives(if ttl.Some? then ttl.value else cache.defaultTtl, now, later);
      ReadsBack(old(cache.front).records, old(cache.level), cache.maxMemory, cache.maxDisk, cache.overhead,
        cache.hasStore, Writing(key, value, pinned, now, later, lives))
    ensures |value| > cache.maxMemory && MemoryLive(old(cache.front).records, key, later) ==>
      r == Ok(Some(old(cache.front).records[key].value))
  {
    ghost var m, l, t := cache.front.records, cache.level, cache.tick;
    w := cache.Put(key, value, ttl, pinned, now, NO_FAULTS);
    ghost var m1, l1, t1 := cache.front.records, cache.level, cache.tick;
    r := cache.Get(key, later, NO_FAULTS);
    ghost var lifetime := if ttl.Some? then ttl.value else cache.defaultTtl;
    LivesUntilExpiry(lifetime, now, later);
    ReadAfterWriteIff(m, m1, cache.front.records, l, l1, cache.level, cache.maxMemory, cache.maxDisk, cache.overhead,
      cache.hasStore, Writing(key, value, pinned, now, later, Lives(lifetime, now, later)),
      L.StoredEntry(value, ExpiryAfter(lifetime, now), pinned), t, t1, cache.tick, r);
  }

  // It can fail: a second, larger value for a key leaves the first one in memory, and a read returns that.
  method StaleRead() returns (r: Result<Option<Bytes>>)
    ensures r == Ok(Some([1]))
  {
    var key: Key := seq(64, _ => 48);
    var cache := new ContextCache(4, 0, Duration(0, 0), false, 0, map[], map[], map[]);
    MapSumEmpty(PinnedSize, cache.front.records - {key});
    var w := cache.Put(key, [1], None, false, 0, NO_FAULTS);
    assert key in cache.front.records && cache.front.records[key] == InMemory([1], 0, false, 1);
    w, r := WriteThenRead(cache, key, [1, 2, 3, 4, 5], None, false, 0, 0);
  }
}
