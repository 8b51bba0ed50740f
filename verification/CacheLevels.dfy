/**
 The two levels of the context cache (src/lib.rs) and the steps on them that the code takes under its lock: the
 memory level with its byte count, and the persistent level, which is the index, its byte count and the store.
 */
module CacheLevels {
  import opened Prelude
  import opened Sums
  import opened Eviction
  import L = Layered

  type StoredEntry = L.StoredEntry

  function InMemory(value: Bytes, expiresAt: u64, pinned: bool, lastAccess: u64): Record {
    Record(value, |value|, expiresAt, pinned, lastAccess)
  }

  function OnDisk(storedBytes: nat, expiresAt: u64, pinned: bool, lastAccess: u64): Record {
    Record([], storedBytes, expiresAt, pinned, lastAccess)
  }

  // What goes wrong in the store during one operation; removals are named by their keys.
  datatype StoreFaults = StoreFaults(
    load: Option<ErrorKind>, get: Option<ErrorKind>, put: Option<ErrorKind>, removes: map<Key, ErrorKind>,
    clear: Option<ErrorKind>)

  type Memory = Records
  type Disk = Records
  type Store = map<Key, StoredEntry>

  // ----- totals -----

  lemma Adds(m: Records, k: Key, r: Record)
    requires k !in m
    ensures Total(m[k := r]) == Total(m) + Size(r)
  {
    MapSumInsert(Size, m, k, r);
  }

  lemma Drops(m: Records, k: Key)
    requires k in m
    ensures Total(m) == Total(m - {k}) + Size(m[k])
  {
    MapSumRemove(Size, m, k);
  }

  // ----- expiry -----

  predicate MemoryLive(m: Memory, k: Key, now: u64) { k in m && !IsExpired(m[k].expiresAt, now) }
  predicate DiskLive(d: Disk, k: Key, now: u64) { k in d && !IsExpired(d[k].expiresAt, now) }

  // The store still holds the entry the index describes.
  predicate InStep(d: Disk, s: Store, k: Key) {
    k in d && k in s && s[k].expiresAt == d[k].expiresAt && s[k].pinned == d[k].pinned
  }

  // Every index record describes an entry of the store.  All operations keep this; only someone else who changes
  // the store can break it.
  ghost predicate Synced(d: Disk, s: Store) {
    forall k :: k in d ==> InStep(d, s, k)
  }

  lemma SyncedDrop(d: Disk, s: Store, k: Key)
    requires Synced(d, s)
    ensures Synced(d - {k}, s) && Synced(d - {k}, s - {k})
  {
    forall j | j in d - {k} ensures InStep(d - {k}, s, j) && InStep(d - {k}, s - {k}, j) {
      assert InStep(d, s, j);
    }
  }

  lemma SyncedTouch(d: Disk, s: Store, k: Key, t: u64)
    requires Synced(d, s) && k in d
    ensures Synced(d[k := d[k].(lastAccess := t)], s)
  {
    var d' := d[k := d[k].(lastAccess := t)];
    forall j | j in d' ensures InStep(d', s, j) {
      assert InStep(d, s, j);
    }
  }

  lemma SyncedPut(d: Disk, s: Store, k: Key, r: Record, e: StoredEntry)
    requires Synced(d, s) && r.expiresAt == e.expiresAt && r.pinned == e.pinned
    ensures Synced(d[k := r], s[k := e])
  {
    var d', s' := d[k := r], s[k := e];
    forall j | j in d' ensures InStep(d', s', j) {
      assert j != k ==> InStep(d, s, j);
    }
  }

  lemma SyncedPart(d: Disk, s: Store, d': Disk, s': Store)
    requires Synced(d, s) && Part(d', d) && Part(s', s) && LostWith(s, s', d, d')
    ensures Synced(d', s')
  {
    forall j | j in d' ensures InStep(d', s', j) {
      assert InStep(d, s, j);
    }
  }

  // A write reaches the store: there is no live index record, and the store does not hold the key beside the index.
  predicate Stores(d: Disk, s: Store, k: Key, now: u64) { !DiskLive(d, k, now) && (k in s ==> k in d) }

  predicate Corrupt(e: ErrorKind) { e == InvalidData || e == Eof }

  // ----- the invariant, part by part -----

  type History = map<Key, set<Bytes>>

  predicate WasWritten(written: History, k: Key, v: Bytes) { k in written && v in written[k] }

  // Every value held was written under its key.
  ghost predicate MemoryTraced(m: Memory, written: History) {
    forall k :: k in m ==> WasWritten(written, k, m[k].value) && m[k].size == |m[k].value|
  }
  ghost predicate StoreTraced(s: Store, written: History) {
    forall k :: k in s ==> WasWritten(written, k, s[k].value)
  }

  // The plain map holds one of the written values for each key written.
  ghost predicate PlainTraced(plain: map<Key, Bytes>, written: History) {
    written.Keys == plain.Keys && forall k :: k in plain ==> WasWritten(written, k, plain[k])
  }

  // The history of a store's contents before any operation.
  ghost predicate Mirrors(s: Store, written: History, plain: map<Key, Bytes>) {
    && written.Keys == s.Keys == plain.Keys
    && forall k :: k in s ==> plain[k] == s[k].value && written[k] == {s[k].value}
  }

  predicate SameTime(m: Memory, k: Key, j: Key) { k in m && j in m && m[k].lastAccess == m[j].lastAccess }

  // Access times come from the tick, and no two memory entries share one before the tick is exhausted.
  ghost predicate MemoryTimed(m: Memory, tick: u64) {
    && (forall k :: k in m ==> m[k].lastAccess <= tick)
    && (tick < U64_MAX ==> forall k, j :: SameTime(m, k, j) ==> k == j)
  }

  ghost predicate DiskTimed(d: Disk, tick: u64) {
    forall k :: k in d ==> d[k].lastAccess <= tick
  }

  ghost predicate MemoryExact(m: Memory, bytes: nat) { bytes == Total(m) }

  // The persistent byte count never falls short, and is exact unless a removal has failed.
  ghost predicate DiskCounted(d: Disk, bytes: nat, leaked: bool) {
    Total(d) <= bytes && (!leaked ==> bytes == Total(d))
  }

  // All that is kept about the memory level.
  ghost predicate MemoryOk(m: Memory, bytes: nat, written: History, tick: u64) {
    MemoryExact(m, bytes) && MemoryTraced(m, written) && MemoryTimed(m, tick)
  }

  lemma MemoryOkPut(m: Memory, bytes: nat, written: History, tick: u64, k: Key, r: Record)
    requires MemoryOk(m, bytes, written, tick) && k !in m
    requires WasWritten(written, k, r.value) && r.size == |r.value| && r.lastAccess == SatAdd(tick, 1)
    ensures MemoryOk(m[k := r], bytes + |r.value|, written, SatAdd(tick, 1))
  {
    Adds(m, k, r);
    MemoryTimedPut(m, tick, k, r);
  }

  lemma MemoryTimedPut(m: Memory, tick: u64, k: Key, r: Record)
    requires MemoryTimed(m, tick) && k !in m && r.lastAccess == SatAdd(tick, 1)
    ensures MemoryTimed(m[k := r], SatAdd(tick, 1))
  {
    var m' := m[k := r];
    forall i, j | SameTime(m', i, j) ensures SatAdd(tick, 1) < U64_MAX ==> i == j {
      if i != k && j != k {
        assert SameTime(m, i, j);
      }
    }
  }

  lemma MemoryOkDrop(m: Memory, bytes: nat, written: History, tick: u64, k: Key)
    requires MemoryOk(m, bytes, written, tick) && k in m
    ensures |m[k].value| <= bytes && MemoryOk(m - {k}, bytes - |m[k].value|, written, tick)
  {
    Drops(m, k);
    var m' := m - {k};
    forall i, j | SameTime(m', i, j) ensures tick < U64_MAX ==> i == j {
      assert SameTime(m, i, j);
    }
  }

  // Taking out what was there and putting the new record in.
  lemma MemoryOkReplace(m: Memory, bytes: nat, written: History, tick: u64, k: Key, r: Record)
    requires MemoryOk(m, bytes, written, tick)
    requires WasWritten(written, k, r.value) && r.size == |r.value| && r.lastAccess == SatAdd(tick, 1)
    ensures k !in m ==> MemoryOk(m[k := r], bytes + |r.value|, written, SatAdd(tick, 1))
    ensures k in m ==> |m[k].value| <= bytes && (m - {k})[k := r] == m[k := r]
    ensures k in m ==> MemoryOk((m - {k})[k := r], bytes - |m[k].value| + |r.value|, written, SatAdd(tick, 1))
  {
    if k in m {
      MemoryOkDrop(m, bytes, written, tick, k);
      MemoryOkPut(m - {k}, bytes - |m[k].value|, written, tick, k, r);
    } else {
      MemoryOkPut(m, bytes, written, tick, k, r);
    }
  }

  lemma MemoryOkTouch(m: Memory, bytes: nat, written: History, tick: u64, k: Key)
    requires MemoryOk(m, bytes, written, tick) && k in m
    ensures MemoryOk(m[k := m[k].(lastAccess := SatAdd(tick, 1))], bytes, written, SatAdd(tick, 1))
  {
    MemoryOkDrop(m, bytes, written, tick, k);
    MemoryOkPut(m - {k}, bytes - |m[k].value|, written, tick, k, m[k].(lastAccess := SatAdd(tick, 1)));
    assert (m - {k})[k := m[k].(lastAccess := SatAdd(tick, 1))] == m[k := m[k].(lastAccess := SatAdd(tick, 1))];
  }

  // Memory entries have distinct times while the tick is not exhausted.
  lemma TimesDistinct(m: Memory, tick: u64)
    requires MemoryTimed(m, tick) && tick < U64_MAX
    ensures DistinctTimes(m)
  {
    forall k, j | k in m && j in m && k != j ensures m[k].lastAccess != m[j].lastAccess {
      assert !SameTime(m, k, j);
    }
  }

  // All that is kept about the persistent level.
  ghost predicate DiskOk(d: Disk, bytes: nat, leaked: bool, tick: u64)
  {
    DiskCounted(d, bytes, leaked) && DiskTimed(d, tick)
  }

  lemma DiskOkPut(d: Disk, bytes: nat, leaked: bool, tick: u64, k: Key, r: Record)
    requires DiskOk(d, bytes, leaked, tick) && k !in d
    ensures DiskOk(d[k := r], bytes + r.size, leaked, Max(tick, r.lastAccess))
  {
    Adds(d, k, r);
  }

  // Dropping a record; its bytes may stay counted.
  lemma DiskOkDrop(d: Disk, bytes: nat, leaked: bool, tick: u64, k: Key)
    requires DiskOk(d, bytes, leaked, tick) && k in d
    ensures d[k].size <= bytes && DiskOk(d - {k}, bytes - d[k].size, leaked, tick)
    ensures DiskOk(d - {k}, bytes, true, tick)
  {
    Drops(d, k);
  }

  lemma DiskOkTouch(d: Disk, bytes: nat, leaked: bool, tick: u64, k: Key)
    requires DiskOk(d, bytes, leaked, tick) && k in d
    ensures DiskOk(d[k := d[k].(lastAccess := SatAdd(tick, 1))], bytes, leaked, SatAdd(tick, 1))
  {
    DiskOkDrop(d, bytes, leaked, tick, k);
    DiskOkPut(d - {k}, bytes - d[k].size, leaked, tick, k, d[k].(lastAccess := SatAdd(tick, 1)));
    assert (d - {k})[k := d[k].(lastAccess := SatAdd(tick, 1))] == d[k := d[k].(lastAccess := SatAdd(tick, 1))];
  }

  // Fewer records keep everything but the byte counts.
  lemma MemoryOkPart(m: Memory, bytes: nat, m': Memory, bytes': nat, written: History, tick: u64)
    requires MemoryOk(m, bytes, written, tick) && Part(m', m) && MemoryExact(m', bytes')
    ensures MemoryOk(m', bytes', written, tick)
  {
    forall i, j | SameTime(m', i, j) ensures tick < U64_MAX ==> i == j {
      assert SameTime(m, i, j);
    }
  }

  lemma DiskOkPart(d: Disk, bytes: nat, leaked: bool, d': Disk, bytes': nat, leaked': bool, tick: u64)
    requires DiskOk(d, bytes, leaked, tick) && Part(d', d) && DiskCounted(d', bytes', leaked')
    ensures DiskOk(d', bytes', leaked', tick)
  {
  }

  lemma StorePart(s: Store, s': Store, written: History)
    requires StoreTraced(s, written) && Part(s', s)
    ensures StoreTraced(s', written)
  {
  }

  lemma DiskOkLater(d: Disk, bytes: nat, leaked: bool, tick: u64)
    requires DiskOk(d, bytes, leaked, tick)
    ensures DiskOk(d, bytes, leaked, SatAdd(tick, 1))
  {
  }

  // A write adds to the history.
  function Recorded(written: History, k: Key, v: Bytes): History {
    written[k := (if k in written then written[k] else {}) + {v}]
  }

  lemma MemoryOkRecorded(m: Memory, bytes: nat, written: History, tick: u64, k: Key, v: Bytes)
    requires MemoryOk(m, bytes, written, tick)
    ensures MemoryOk(m, bytes, Recorded(written, k, v), tick)
  {
    forall j | j in m ensures WasWritten(Recorded(written, k, v), j, m[j].value) && m[j].size == |m[j].value| {
      assert WasWritten(written, j, m[j].value);
    }
  }

  lemma StoreRecorded(s: Store, plain: map<Key, Bytes>, written: History, k: Key, v: Bytes)
    requires StoreTraced(s, written) && PlainTraced(plain, written)
    ensures StoreTraced(s, Recorded(written, k, v)) && PlainTraced(plain[k := v], Recorded(written, k, v))
  {
    forall j | j in s ensures WasWritten(Recorded(written, k, v), j, s[j].value) {
      assert WasWritten(written, j, s[j].value);
    }
    var plain' := plain[k := v];
    forall j | j in plain' ensures WasWritten(Recorded(written, k, v), j, plain'[j]) {
      if j != k {
        assert WasWritten(written, j, plain[j]);
      }
    }
  }

  // Without a key anywhere, its history may be forgotten.
  lemma MemoryOkForgets(m: Memory, bytes: nat, written: History, tick: u64, k: Key)
    requires MemoryOk(m, bytes, written, tick) && k !in m
    ensures MemoryOk(m, bytes, written - {k}, tick)
  {
    forall j | j in m ensures WasWritten(written - {k}, j, m[j].value) && m[j].size == |m[j].value| {
      assert WasWritten(written, j, m[j].value);
    }
  }

  lemma StoreForgets(s: Store, plain: map<Key, Bytes>, written: History, k: Key)
    requires StoreTraced(s, written) && PlainTraced(plain, written)
    ensures StoreTraced(s - {k}, written - {k}) && PlainTraced(plain - {k}, written - {k})
  {
    forall j | j in s - {k} ensures WasWritten(written - {k}, j, s[j].value) {
      assert WasWritten(written, j, s[j].value);
    }
    forall j | j in plain - {k} ensures WasWritten(written - {k}, j, plain[j]) {
      assert WasWritten(written, j, plain[j]);
    }
  }

  // The index record of a stored entry.
  function Described(e: StoredEntry, k: Key, access: map<Key, u64>, overhead: nat): Record {
    OnDisk(overhead + |e.value|, e.expiresAt, e.pinned, if k in access then access[k] else 0)
  }

  // The index that a start builds from the store's records for `keys`: those not expired, as described.
  ghost predicate Loaded(d: Disk, s: Store, keys: set<Key>, access: map<Key, u64>, overhead: nat, now: u64) {
    && (forall k :: k in d <==> k in keys && k in s && !IsExpired(s[k].expiresAt, now))
    && (forall k :: k in d ==>
          && d[k].value == [] && d[k].size == overhead + |s[k].value|
          && d[k].expiresAt == s[k].expiresAt && d[k].pinned == s[k].pinned
          && d[k].lastAccess == if k in access then access[k] else 0)
  }

  lemma LoadedIsSynced(d: Disk, s: Store, s': Store, access: map<Key, u64>, overhead: nat, now: u64)
    requires Loaded(d, s, s.Keys, access, overhead, now) && Part(s', s)
    requires forall k :: k in s && !IsExpired(s[k].expiresAt, now) ==> k in s'
    ensures Synced(d, s')
  {
  }

  lemma StoreDrops(s: Store, written: History, k: Key)
    requires StoreTraced(s, written)
    ensures StoreTraced(s - {k}, written)
  {
  }

  lemma MemoryOkLater(m: Memory, bytes: nat, written: History, tick: u64)
    requires MemoryOk(m, bytes, written, tick)
    ensures MemoryOk(m, bytes, written, SatAdd(tick, 1))
  {
  }

  // ----- the memory level's own steps -----

  datatype Front = Front(records: Memory, bytes: nat)

  ghost predicate FrontBounded(f: Front, cap: nat) { f.bytes <= cap || AllPinned(f.records) }

  // All that is kept about the memory level between operations.
  ghost predicate FrontOk(f: Front, cap: nat, written: History, tick: u64) {
    MemoryOk(f.records, f.bytes, written, tick) && FrontBounded(f, cap)
  }

  method InsertMemory(f: Front, key: Key, value: Bytes, expiresAt: u64, pinned: bool, tick: u64, ghost written: History)
    returns (f': Front)
    requires MemoryOk(f.records, f.bytes, written, tick) && WasWritten(written, key, value)
    ensures f'.records == f.records[key := InMemory(value, expiresAt, pinned, SatAdd(tick, 1))]
    ensures MemoryOk(f'.records, f'.bytes, written, SatAdd(tick, 1))
  {
    MemoryOkReplace(f.records, f.bytes, written, tick, key, InMemory(value, expiresAt, pinned, SatAdd(tick, 1)));
    f' := f;
    if key in f.records {
      f' := Front(f.records - {key}, SatSub(f.bytes, |f.records[key].value|));
    }
    f' := Front(f'.records[key := InMemory(value, expiresAt, pinned, SatAdd(tick, 1))], f'.bytes + |value|);
  }

  // The victims are the least recently used unpinned entries, and no more of them than needed.
  method EvictMemory(f: Front, cap: nat, ghost written: History, ghost tick: u64) returns (f': Front)
    requires MemoryOk(f.records, f.bytes, written, tick)
    ensures FrontOk(f', cap, written, tick) && Evicted(f.records, f'.records, cap)
  {
    var now, bytes := Shrink(f.records, f.bytes, cap);
    MemoryOkPart(f.records, f.bytes, now, bytes, written, tick);
    f' := Front(now, bytes);
  }

  // A new entry that is pinned or fits beside the pinned ones.
  ghost predicate Lasts(m: Records, k: Key, size: nat, pinned: bool, cap: int) {
    pinned || PinnedTotal(m - {k}) + size <= cap
  }

  // What the memory level becomes when it is offered a value: it takes what it can hold, at the cost of the
  // required victims, and leaves a larger value alone.
  ghost predicate Admitted(m: Memory, m': Memory, cap: nat, key: Key, value: Bytes, expiresAt: u64, pinned: bool,
                           tick: u64, tick': u64)
  {
    if 0 < cap && |value| <= cap then
      && tick' == SatAdd(tick, 1)
      && Evicted(m[key := InMemory(value, expiresAt, pinned, tick')], m', cap)
      && (key in m' ==> m'[key] == InMemory(value, expiresAt, pinned, tick'))
      && (tick < U64_MAX ==> (key in m' <==> Lasts(m, key, |value|, pinned, cap)))
    else m' == m && tick' == tick
  }

  method Admit(f: Front, cap: nat, key: Key, value: Bytes, expiresAt: u64, pinned: bool, tick: u64,
               ghost written: History)
    returns (f': Front, tick': u64)
    requires FrontOk(f, cap, written, tick) && WasWritten(written, key, value)
    ensures FrontOk(f', cap, written, tick')
    ensures Admitted(f.records, f'.records, cap, key, value, expiresAt, pinned, tick, tick')
    ensures tick <= tick' <= SatAdd(tick, 1)
  {
    if !(0 < cap && |value| <= cap) {
      return f, tick;
    }
    tick' := SatAdd(tick, 1);
    f' := InsertMemory(f, key, value, expiresAt, pinned, tick, written);
    ghost var record := InMemory(value, expiresAt, pinned, tick');
    ghost var inserted := f'.records;
    f' := EvictMemory(f', cap, written, tick');
    EvictedKeeps(inserted, f'.records, cap, key);
    if tick < U64_MAX {
      FreshIsNewest(f.records, tick, record);
      NewestSurvivesIff(f.records, key, record, f'.records, cap);
    }
  }

  lemma EvictedKeeps(before: Records, now: Records, cap: int, k: Key)
    requires Evicted(before, now, cap)
    ensures k in now ==> k in before && now[k] == before[k]
  {
  }

  lemma FreshIsNewest(m: Memory, tick: u64, r: Record)
    requires MemoryTimed(m, tick) && r.lastAccess == SatAdd(tick, 1) && tick < U64_MAX
    ensures forall j :: j in m ==> m[j].lastAccess < r.lastAccess
  {
  }

  method DropMemory(f: Front, cap: nat, key: Key, ghost written: History, ghost tick: u64) returns (f': Front)
    requires FrontOk(f, cap, written, tick)
    ensures FrontOk(f', cap, written, tick) && f'.records == f.records - {key}
  {
    if key in f.records {
      MemoryOkDrop(f.records, f.bytes, written, tick, key);
      return Front(f.records - {key}, SatSub(f.bytes, |f.records[key].value|));
    }
    assert f.records - {key} == f.records;
    return f;
  }

  method RenewMemory(f: Front, cap: nat, key: Key, tick: u64, ghost written: History) returns (f': Front)
    requires FrontOk(f, cap, written, tick) && key in f.records
    ensures FrontOk(f', cap, written, SatAdd(tick, 1)) && WasWritten(written, key, f.records[key].value)
    ensures f' == Front(f.records[key := f.records[key].(lastAccess := SatAdd(tick, 1))], f.bytes)
  {
    MemoryOkTouch(f.records, f.bytes, written, tick, key);
    f' := Front(f.records[key := f.records[key].(lastAccess := SatAdd(tick, 1))], f.bytes);
  }

  lemma FrontOkLater(f: Front, cap: nat, written: History, tick: u64, later: u64)
    requires FrontOk(f, cap, written, tick) && (later == tick || later == SatAdd(tick, 1))
    ensures FrontOk(f, cap, written, later)
  {
    MemoryOkLater(f.records, f.bytes, written, tick);
  }

  // ----- the persistent level's own steps -----

  // The index, its byte count and the store behind it.
  datatype Level = Level(disk: Disk, bytes: nat, store: Store)

  // What the proofs remember beside the state: the values written, whether a removal of an indexed entry has
  // failed, whether someone else has changed the store, and whether for one of these reasons, or because the cache has
  // not been opened, the store may hold entries that the index does not know.
  datatype Trail = Trail(written: History, leaked: bool, disturbed: bool, stray: bool)

  // The removal of an indexed entry has failed.
  function Leak(g: Trail): Trail { g.(leaked := true, stray := true) }

  // The index knows every entry of the store.
  ghost predicate Indexed(d: Disk, s: Store) { forall k :: k in s ==> k in d }

  // The store has lost exactly what the index has lost.
  ghost predicate LosesAlike(d: Disk, s: Store, d': Disk, s': Store) {
    Part(s', s) && forall k :: k in s ==> (k in s' <==> !Gone(d, d', k))
  }

  // All that is kept about the persistent level.
  ghost predicate LevelOk(l: Level, g: Trail, tick: u64) {
    && DiskOk(l.disk, l.bytes, g.leaked, tick) && StoreTraced(l.store, g.written)
    && (!g.disturbed ==> Synced(l.disk, l.store))
    && (!g.stray ==> Indexed(l.disk, l.store))
  }

  ghost predicate LevelBounded(l: Level, cap: nat, g: Trail) { !g.leaked ==> l.bytes <= cap || AllPinned(l.disk) }

  lemma LevelOkDrop(l: Level, g: Trail, tick: u64, key: Key)
    requires LevelOk(l, g, tick) && key in l.disk
    ensures l.disk[key].size <= l.bytes
    ensures LevelOk(Level(l.disk - {key}, l.bytes - l.disk[key].size, l.store - {key}), g, tick)
    ensures key !in l.store ==> LevelOk(Level(l.disk - {key}, l.bytes - l.disk[key].size, l.store), g, tick)
    ensures LevelOk(Level(l.disk - {key}, l.bytes, l.store), Leak(g), tick)
  {
    DiskOkDrop(l.disk, l.bytes, g.leaked, tick, key);
    StoreDrops(l.store, g.written, key);
    if !g.disturbed {
      SyncedDrop(l.disk, l.store, key);
    }
  }

  lemma LevelOkPut(l: Level, g: Trail, tick: u64, key: Key, r: Record, e: StoredEntry)
    requires LevelOk(l, g, tick) && key !in l.disk && WasWritten(g.written, key, e.value)
    requires r.expiresAt == e.expiresAt && r.pinned == e.pinned
    ensures LevelOk(Level(l.disk[key := r], l.bytes + r.size, l.store[key := e]), g, Max(tick, r.lastAccess))
  {
    DiskOkPut(l.disk, l.bytes, g.leaked, tick, key, r);
    if !g.disturbed {
      SyncedPut(l.disk, l.store, key, r, e);
    }
  }

  lemma LevelOkTouch(l: Level, g: Trail, tick: u64, key: Key)
    requires LevelOk(l, g, tick) && key in l.disk
    ensures LevelOk(l.(disk := l.disk[key := l.disk[key].(lastAccess := SatAdd(tick, 1))]), g, SatAdd(tick, 1))
  {
    DiskOkTouch(l.disk, l.bytes, g.leaked, tick, key);
    if !g.disturbed {
      SyncedTouch(l.disk, l.store, key, SatAdd(tick, 1));
    }
  }

  lemma LevelOkPart(l: Level, l': Level, g: Trail, g': Trail, tick: u64)
    requires LevelOk(l, g, tick) && Part(l'.disk, l.disk) && Follows(l, l') && DiskCounted(l'.disk, l'.bytes, g'.leaked)
    requires g' == Leak(g) || (g' == g && LosesAlike(l.disk, l.store, l'.disk, l'.store))
    ensures LevelOk(l', g', tick)
  {
    DiskOkPart(l.disk, l.bytes, g.leaked, l'.disk, l'.bytes, g'.leaked, tick);
    StorePart(l.store, l'.store, g.written);
    if !g.disturbed {
      SyncedPart(l.disk, l.store, l'.disk, l'.store);
    }
  }

  lemma LevelOkLater(l: Level, g: Trail, tick: u64, later: u64)
    requires LevelOk(l, g, tick) && (later == tick || later == SatAdd(tick, 1))
    ensures LevelOk(l, g, later)
  {
    DiskOkLater(l.disk, l.bytes, g.leaked, tick);
  }

  // The index record goes first: if the store then fails, its bytes stay counted.
  method RemoveDiskRecord(l: Level, hasStore: bool, key: Key, faults: StoreFaults) returns (r: Outcome, l': Level)
    requires Total(l.disk) <= l.bytes
    ensures l'.disk == l.disk - {key}
    ensures r == if key in l.disk && hasStore && key in faults.removes then Failed(faults.removes[key]) else Done
    ensures l'.store == if key in l.disk && hasStore && r.Done? then l.store - {key} else l.store
    ensures r.Done? ==> l'.bytes - Total(l'.disk) == l.bytes - Total(l.disk)
    ensures r.Failed? ==> l'.bytes == l.bytes
    ensures Total(l'.disk) <= Total(l.disk) && Total(l'.disk) <= l'.bytes
  {
    if key !in l.disk {
      assert l.disk - {key} == l.disk;
      return Done, l;
    }
    Drops(l.disk, key);
    l' := l.(disk := l.disk - {key});
    if hasStore {
      if key in faults.removes {
        return Failed(faults.removes[key]), l';
      }
      l' := l'.(store := l'.store - {key});
    }
    l' := l'.(bytes := SatSub(l'.bytes, l.disk[key].size));
    return Done, l';
  }

  // What the index may weigh for the count to be within the capacity.
  ghost function Room(cap: nat, bytes: nat, d: Disk): int { cap - (bytes - Total(d)) }

  // The store lost nothing but what the index lost.
  ghost predicate LostWith(s: Store, s': Store, d: Disk, d': Disk) {
    forall k :: k in s && k !in s' ==> k in d && k !in d'
  }

  ghost predicate Follows(l: Level, l': Level)
  {
    Part(l'.store, l.store) && LostWith(l.store, l'.store, l.disk, l'.disk)
  }

  lemma FollowsStep(start: Level, l: Level, l': Level, key: Key)
    requires Follows(start, l) && key in start.disk && l'.disk == l.disk - {key}
    requires l'.store == l.store || l'.store == l.store - {key}
    ensures Follows(start, l')
  {
  }

  lemma AlikeStep(start: Level, l: Level, l': Level, key: Key)
    requires LosesAlike(start.disk, start.store, l.disk, l.store) && key in start.disk
    requires l'.disk == l.disk - {key} && l'.store == l.store - {key}
    ensures LosesAlike(start.disk, start.store, l'.disk, l'.store)
  {
  }

  method ShrinkDisk(start: Level, hasStore: bool, cap: nat, faults: StoreFaults)
    returns (r: Outcome, l: Level, ghost last: Option<Key>)
    requires Total(start.disk) <= start.bytes
    ensures Total(l.disk) <= l.bytes
    ensures r.Done? ==> l.bytes - Total(l.disk) == start.bytes - Total(start.disk)
    ensures r.Done? ==> l.bytes <= cap || AllPinned(l.disk)
    ensures r.Failed? ==>
            hasStore && last.Some? && last.value in faults.removes && r.error == faults.removes[last.value]
    ensures Follows(start, l)
    ensures if hasStore then r.Done? ==> LosesAlike(start.disk, start.store, l.disk, l.store)
            else l.store == start.store
    ensures hasStore && r.Done? ==> forall k :: Gone(start.disk, l.disk, k) ==> k !in faults.removes
    ensures Trimmed(start.disk, l.disk, last, Room(cap, start.bytes, start.disk))
  {
    last := None;
    l := start;
    ghost var room := Room(cap, start.bytes, start.disk);
    while l.bytes > cap
      invariant Total(l.disk) <= l.bytes && Room(cap, l.bytes, l.disk) == room
      invariant Follows(start, l)
      invariant if hasStore then LosesAlike(start.disk, start.store, l.disk, l.store) else l.store == start.store
      invariant hasStore ==> forall k :: Gone(start.disk, l.disk, k) ==> k !in faults.removes
      invariant Trimmed(start.disk, l.disk, last, room)
      decreases |l.disk|
    {
      var victim := Victim(l.disk);
      if victim.None? {
        return Done, l, last;
      }
      ghost var before := l;
      TrimStep(start.disk, l.disk, last, victim.value, room);
      last := victim;
      r, l := RemoveDiskRecord(l, hasStore, victim.value, faults);
      FollowsStep(start, before, l, victim.value);
      if r.Failed? {
        return;
      }
      if hasStore {
        AlikeStep(start, before, l, victim.value);
      }
    }
    return Done, l, last;
  }

  // As for memory; the bytes that failed removals left counted make the room smaller.
  method EvictDisk(l: Level, hasStore: bool, cap: nat, faults: StoreFaults, ghost g: Trail, ghost tick: u64)
    returns (r: Outcome, l': Level, ghost g': Trail)
    requires LevelOk(l, g, tick) && (!hasStore ==> l.store == map[])
    ensures g' == (if r.Failed? then Leak(g) else g) && LevelOk(l', g', tick) && Follows(l, l')
    ensures r.Done? ==> LevelBounded(l', cap, g') && Evicted(l.disk, l'.disk, Room(cap, l.bytes, l.disk))
    ensures r.Done? ==> LosesAlike(l.disk, l.store, l'.disk, l'.store)
    ensures hasStore && r.Done? ==> forall k :: Gone(l.disk, l'.disk, k) ==> k !in faults.removes
    ensures r.Failed? ==> FromRemoval(faults, r.error)
  {
    ghost var last;
    r, l', last := ShrinkDisk(l, hasStore, cap, faults);
    g' := if r.Failed? then Leak(g) else g;
    TrimmedIsPart(l.disk, l'.disk, last, Room(cap, l.bytes, l.disk));
    LevelOkPart(l, l', g, g', tick);
  }

  ghost predicate FromRemoval(faults: StoreFaults, e: ErrorKind) {
    exists k :: k in faults.removes && faults.removes[k] == e
  }

  lemma TrimmedIsPart(before: Records, now: Records, last: Option<Key>, cap: int)
    requires Trimmed(before, now, last, cap)
    ensures Part(now, before)
  {
  }

  // An expired record goes from the index and the store.
  method Expire(l: Level, hasStore: bool, cap: nat, key: Key, faults: StoreFaults, ghost g: Trail, ghost tick: u64)
    returns (r: Outcome, l': Level, ghost g': Trail)
    requires LevelOk(l, g, tick) && LevelBounded(l, cap, g) && key in l.disk && (!hasStore ==> l.store == map[])
    ensures g' == (if r.Failed? then Leak(g) else g) && LevelOk(l', g', tick) && LevelBounded(l', cap, g')
    ensures l'.disk == l.disk - {key} && l'.store == (if r.Done? then l.store - {key} else l.store)
    ensures r == if hasStore && key in faults.removes then Failed(faults.removes[key]) else Done
    ensures r.Done? ==> Room(cap, l'.bytes, l'.disk) == Room(cap, l.bytes, l.disk)
  {
    LevelOkDrop(l, g, tick, key);
    Drops(l.disk, key);
    assert !hasStore ==> l.store - {key} == l.store;
    r, l' := RemoveDiskRecord(l, hasStore, key, faults);
    g' := if r.Failed? then Leak(g) else g;
  }

  // An index record goes; the store is as it is.
  method DropDisk(l: Level, cap: nat, key: Key, ghost g: Trail, ghost tick: u64) returns (l': Level)
    requires LevelOk(l, g, tick) && LevelBounded(l, cap, g) && key in l.disk && key !in l.store
    ensures LevelOk(l', g, tick) && LevelBounded(l', cap, g)
    ensures l'.disk == l.disk - {key} && l'.store == l.store
  {
    LevelOkDrop(l, g, tick, key);
    l' := Level(l.disk - {key}, SatSub(l.bytes, l.disk[key].size), l.store);
  }

  // An entry that is damaged or not the one the index describes goes from the store, then from the index.
  method Discard(l: Level, cap: nat, key: Key, faults: StoreFaults, ghost g: Trail, ghost tick: u64)
    returns (r: Outcome, l': Level)
    requires LevelOk(l, g, tick) && LevelBounded(l, cap, g) && key in l.disk
    ensures LevelOk(l', g, tick) && LevelBounded(l', cap, g)
    ensures r == if key in faults.removes then Failed(faults.removes[key]) else Done
    ensures r.Failed? ==> l' == l
    ensures r.Done? ==> l'.disk == l.disk - {key} && l'.store == l.store - {key}
  {
    if key in faults.removes {
      return Failed(faults.removes[key]), l;
    }
    LevelOkDrop(l, g, tick, key);
    return Done, Level(l.disk - {key}, SatSub(l.bytes, l.disk[key].size), l.store - {key});
  }

  // The record has a new access time.
  ghost predicate Renewed(before: Disk, after: Disk, k: Key, tick: u64) {
    k in before && after == before[k := before[k].(lastAccess := SatAdd(tick, 1))]
  }

  // What a read of the persistent level does: it returns the entry that an unexpired index record describes, and
  // renews that record; it misses such a record only if the store fails or holds something else.
  ghost predicate LookedUp(l: Level, l': Level, key: Key, now: u64, tick: u64, tick': u64, faults: StoreFaults,
                           r: Result<Option<StoredEntry>>)
  {
    if r.Ok? && r.value.Some? then
      && DiskLive(l.disk, key, now) && InStep(l.disk, l.store, key) && r.value.value == l.store[key]
      && Renewed(l.disk, l'.disk, key, tick) && l'.store == l.store && tick' == SatAdd(tick, 1)
    else tick' == tick && Missed(l, l', key, now, faults, r)
  }

  // A read of the persistent level that gives nothing.  A miss leaves nothing of the key there: its record had
  // expired, the store reported damage or held something else.  An error comes from the store and leaves the level as
  // it is, save for an expired record, which goes although its entry does not.
  ghost predicate Missed<T>(l: Level, l': Level, key: Key, now: u64, faults: StoreFaults, r: Result<Option<T>>) {
    match r
    case Ok(_) =>
      && l'.disk == l.disk - {key} && l'.store == (if key in l.disk then l.store - {key} else l.store)
      && (DiskLive(l.disk, key, now) ==> faults.get in DAMAGE || !InStep(l.disk, l.store, key))
      && (key in l.disk && key in l.store ==> key !in faults.removes)
    case Err(e) =>
      && key in l.disk && l'.store == l.store
      && l'.disk == (if DiskLive(l.disk, key, now) then l.disk else l.disk - {key})
      && (if faults.get.Some? && faults.get !in DAMAGE && DiskLive(l.disk, key, now) then faults.get == Some(e)
          else key in faults.removes && faults.removes[key] == e
               && (DiskLive(l.disk, key, now) ==> faults.get.Some? || !InStep(l.disk, l.store, key)))
  }

  // What the store reports of an entry it can no longer read.
  const DAMAGE: set<Option<ErrorKind>> := {Some(InvalidData), Some(Eof)}

  method Lookup(l: Level, hasStore: bool, cap: nat, key: Key, now: u64, tick: u64, faults: StoreFaults, ghost g: Trail)
    returns (r: Result<Option<StoredEntry>>, l': Level, tick': u64, ghost g': Trail)
    requires LevelOk(l, g, tick) && LevelBounded(l, cap, g) && (!hasStore ==> l.store == map[])
    ensures LevelOk(l', g', tick') && LevelBounded(l', cap, g')
    ensures g' == g || (g' == Leak(g) && key in faults.removes)
    ensures !hasStore ==> r == Ok(None)
    ensures LookedUp(l, l', key, now, tick, tick', faults, r)
  {
    tick', g', l' := tick, g, l;
    if key !in l.disk {
      return Ok(None), l, tick, g;
    }
    if IsExpired(l.disk[key].expiresAt, now) {
      var expired;
      expired, l', g' := Expire(l, hasStore, cap, key, faults, g, tick);
      return if expired.Done? then Ok(None) else Err(expired.error), l', tick, g';
    }
    if !hasStore {
      l' := DropDisk(l, cap, key, g, tick);
      return Ok(None), l', tick, g;
    }
    r, l', tick' := Fetch(l, cap, key, now, tick, faults, g);
  }

  // The store's answer for a key with an unexpired index record.
  method Fetch(l: Level, cap: nat, key: Key, ghost now: u64, tick: u64, faults: StoreFaults, ghost g: Trail)
    returns (r: Result<Option<StoredEntry>>, l': Level, tick': u64)
    requires LevelOk(l, g, tick) && LevelBounded(l, cap, g) && DiskLive(l.disk, key, now)
    ensures LevelOk(l', g, tick') && LevelBounded(l', cap, g)
    ensures LookedUp(l, l', key, now, tick, tick', faults, r)
  {
    l', tick' := l, tick;
    var record := l.disk[key];
    if faults.get.Some? {
      if !Corrupt(faults.get.value) {
        return Err(faults.get.value), l, tick;
      }
      var discarded;
      discarded, l' := Discard(l, cap, key, faults, g, tick);
      return if discarded.Done? then Ok(None) else Err(discarded.error), l', tick;
    }
    if key !in l.store {
      l' := DropDisk(l, cap, key, g, tick);
      return Ok(None), l', tick;
    }
    var entry := l.store[key];
    if entry.expiresAt != record.expiresAt || entry.pinned != record.pinned {
      var discarded;
      discarded, l' := Discard(l, cap, key, faults, g, tick);
      return if discarded.Done? then Ok(None) else Err(discarded.error), l', tick;
    }
    LevelOkTouch(l, g, tick, key);
    l' := l.(disk := l.disk[key := record.(lastAccess := SatAdd(tick, 1))]);
    return Ok(Some(entry)), l', SatAdd(tick, 1);
  }

  // What a write does to the persistent level.  Where it stores, the index gains the new record at the cost of the
  // required victims, and if the record is still there the store holds exactly the entry.  Where a live record
  // exists already, or the store holds the key without the index, nothing changes.
  ghost predicate Persisted(l: Level, l': Level, cap: nat, overhead: nat, key: Key, e: StoredEntry, now: u64,
                            tick: u64, tick': u64)
  {
    if Stores(l.disk, l.store, key, now) then
      && tick' == SatAdd(tick, 1)
      && Evicted((l.disk - {key})[key := RecordOf(e, overhead, tick')], l'.disk, Room(cap, l.bytes, l.disk))
      && LosesAlike((l.disk - {key})[key := RecordOf(e, overhead, tick')], l.store[key := e], l'.disk, l'.store)
      && (key in l'.disk ==> l'.disk[key] == RecordOf(e, overhead, tick') && key in l'.store && l'.store[key] == e)
    else l' == l && tick' == tick
  }

  function RecordOf(e: StoredEntry, overhead: nat, tick: u64): Record {
    OnDisk(overhead + |e.value|, e.expiresAt, e.pinned, tick)
  }

  method Persist(l: Level, cap: nat, overhead: nat, key: Key, e: StoredEntry, now: u64, tick: u64,
                 faults: StoreFaults, ghost g: Trail)
    returns (r: Outcome, l': Level, tick': u64, ghost g': Trail)
    requires LevelOk(l, g, tick) && LevelBounded(l, cap, g) && WasWritten(g.written, key, e.value)
    ensures LevelOk(l', g', tick') && LevelBounded(l', cap, g') && tick <= tick' <= SatAdd(tick, 1)
    ensures g' == g || (g' == Leak(g) && faults.removes != map[])
    ensures r.Done? ==> Persisted(l, l', cap, overhead, key, e, now, tick, tick')
    ensures r.Done? ==> DiskLive(l.disk, key, now) || faults.put.None?
    ensures r.Failed? ==> (faults.put == Some(r.error) || FromRemoval(faults, r.error)) && !DiskLive(l.disk, key, now)
  {
    l', tick', g', r := l, tick, g, Done;
    if key in l.disk && IsExpired(l.disk[key].expiresAt, now) {
      r, l', g' := Expire(l, true, cap, key, faults, g, tick);
      if r.Failed? {
        return;
      }
    } else {
      assert key !in l.disk ==> l.disk - {key} == l.disk;
    }
    if key !in l'.disk {
      if faults.put.Some? {
        return Failed(faults.put.value), l', tick, g';
      }
      if key !in l'.store {
        assert l'.disk == l.disk - {key} && l'.store[key := e] == l.store[key := e];
        r, l', tick', g' := Append(l', cap, overhead, key, e, tick, faults, g');
        assert Stores(l.disk, l.store, key, now);
      }
    }
  }

  // The store takes a new entry, the index its record, and then eviction runs.
  method Append(l: Level, cap: nat, overhead: nat, key: Key, e: StoredEntry, tick: u64, faults: StoreFaults,
                ghost g: Trail)
    returns (r: Outcome, l': Level, tick': u64, ghost g': Trail)
    requires LevelOk(l, g, tick) && key !in l.disk && key !in l.store && WasWritten(g.written, key, e.value)
    ensures tick' == SatAdd(tick, 1) && LevelOk(l', g', tick') && LevelBounded(l', cap, g')
    ensures g' == (if r.Failed? then Leak(g) else g) && (r.Failed? ==> FromRemoval(faults, r.error))
    ensures r.Done? ==> Evicted(l.disk[key := RecordOf(e, overhead, tick')], l'.disk, Room(cap, l.bytes, l.disk))
    ensures r.Done? ==>
      LosesAlike(l.disk[key := RecordOf(e, overhead, tick')], l.store[key := e], l'.disk, l'.store)
    ensures r.Done? && key in l'.disk ==>
      l'.disk[key] == RecordOf(e, overhead, tick') && key in l'.store && l'.store[key] == e
  {
    tick' := SatAdd(tick, 1);
    var record := RecordOf(e, overhead, tick');
    LevelOkPut(l, g, tick, key, record, e);
    Adds(l.disk, key, record);
    var grown := Level(l.disk[key := record], l.bytes + record.size, l.store[key := e]);
    r, l', g' := EvictDisk(grown, true, cap, faults, g, tick');
    if r.Done? {
      EvictedKeeps(grown.disk, l'.disk, Room(cap, grown.bytes, grown.disk), key);
    }
  }

  // The start: expired entries go, the others are indexed, and then eviction runs.
  method Start(contents: Store, overhead: nat, cap: nat, now: u64, access: map<Key, u64>, faults: StoreFaults,
               ghost g: Trail)
    returns (r: Outcome, l: Level, tick: u64)
    requires StoreTraced(contents, g.written) && !g.leaked
    ensures r.Done? ==>
      LevelOk(l, g.(stray := false), tick) && LevelBounded(l, cap, g) && Synced(l.disk, l.store)
    ensures r.Done? ==> Part(l.store, contents) && l.store.Keys == l.disk.Keys
    ensures r.Done? ==>
      exists loaded: Disk ::
        && Loaded(loaded, contents, contents.Keys, access, overhead, now) && Latest(loaded, tick)
        && Evicted(loaded, l.disk, cap)
    ensures r.Done? ==> Removable(contents, contents.Keys, now, faults)
    ensures r.Failed? ==> FromRemoval(faults, r.error)
  {
    r, l, tick := Index(contents, overhead, now, access, faults);
    if r.Failed? {
      return;
    }
    StorePart(contents, l.store, g.written);
    ghost var indexed, g' := l, g.(disturbed := false, stray := false);
    r, l, g' := EvictDisk(l, true, cap, faults, g', tick);
    if r.Done? {
      PartOfPart(l.store, indexed.store, contents);
    }
  }

  lemma PartOfPart<K, V>(a: map<K, V>, b: map<K, V>, c: map<K, V>)
    requires Part(a, b) && Part(b, c)
    ensures Part(a, c)
  {
  }

  method Index(contents: Store, overhead: nat, now: u64, access: map<Key, u64>, faults: StoreFaults)
    returns (r: Outcome, l: Level, tick: u64)
    ensures r.Done? ==> DiskOk(l.disk, l.bytes, false, tick) && Synced(l.disk, l.store) && Part(l.store, contents)
    ensures r.Done? ==> Loaded(l.disk, contents, contents.Keys, access, overhead, now) && Latest(l.disk, tick)
    ensures r.Done? ==> forall k :: k in l.store <==> k in contents && !IsExpired(contents[k].expiresAt, now)
    ensures r.Done? ==> Removable(contents, contents.Keys, now, faults)
    ensures r.Failed? ==> FromRemoval(faults, r.error)
  {
    l, tick := Level(map[], 0, contents), 0;
    MapSumEmpty(Size, l.disk);
    var todo := contents.Keys;
    while todo != {}
      invariant todo <= contents.Keys && Indexing(l, tick, contents, todo, access, overhead, now, faults)
      decreases |todo|
    {
      var k :| k in todo;
      var entry := contents[k];
      if IsExpired(entry.expiresAt, now) {
        if k in faults.removes {
          return Failed(faults.removes[k]), l, tick;
        }
        IndexExpired(l, tick, contents, todo, access, overhead, now, faults, k);
        l := l.(store := l.store - {k});
      } else {
        IndexLive(l, tick, contents, todo, access, overhead, now, faults, k);
        var record := Described(entry, k, access, overhead);
        tick := Max(tick, record.lastAccess);
        l := l.(bytes := l.bytes + record.size, disk := l.disk[k := record]);
      }
      todo := todo - {k};
    }
    LoadedIsSynced(l.disk, contents, l.store, access, overhead, now);
    return Done, l, tick;
  }

  // The tick goes on from the latest access.
  ghost predicate Latest(d: Disk, tick: u64) {
    (forall k :: k in d ==> d[k].lastAccess <= tick) && (tick == 0 || exists k :: k in d && d[k].lastAccess == tick)
  }

  // What holds while the records of `todo` are still to come.
  ghost predicate Indexing(l: Level, tick: u64, contents: Store, todo: set<Key>, access: map<Key, u64>, overhead: nat,
                           now: u64, faults: StoreFaults)
  {
    && DiskOk(l.disk, l.bytes, false, tick) && Latest(l.disk, tick) && Cleaned(l.store, contents, todo, now)
    && Loaded(l.disk, contents, contents.Keys - todo, access, overhead, now)
    && Removable(contents, contents.Keys - todo, now, faults)
  }

  lemma IndexExpired(l: Level, tick: u64, contents: Store, todo: set<Key>, access: map<Key, u64>, overhead: nat,
                     now: u64, faults: StoreFaults, k: Key)
    requires Indexing(l, tick, contents, todo, access, overhead, now, faults) && k in todo && todo <= contents.Keys
    requires IsExpired(contents[k].expiresAt, now) && k !in faults.removes
    ensures Indexing(l.(store := l.store - {k}), tick, contents, todo - {k}, access, overhead, now, faults)
  {
    CleanedNext(l.store, contents, todo, now, k);
  }

  lemma LatestNext(d: Disk, tick: u64, k: Key, record: Record)
    requires Latest(d, tick) && k !in d
    ensures Latest(d[k := record], Max(tick, record.lastAccess))
  {
    var d' := d[k := record];
    assert d'[k].lastAccess == record.lastAccess;
    if tick > record.lastAccess {
      var j :| j in d && d[j].lastAccess == tick;
      assert d'[j].lastAccess == tick;
    }
  }

  lemma IndexLive(l: Level, tick: u64, contents: Store, todo: set<Key>, access: map<Key, u64>, overhead: nat,
                  now: u64, faults: StoreFaults, k: Key)
    requires Indexing(l, tick, contents, todo, access, overhead, now, faults) && k in todo && todo <= contents.Keys
    requires !IsExpired(contents[k].expiresAt, now)
    ensures var record := Described(contents[k], k, access, overhead);
      Indexing(Level(l.disk[k := record], l.bytes + record.size, l.store), Max(tick, record.lastAccess), contents,
               todo - {k}, access, overhead, now, faults)
  {
    CleanedNext(l.store, contents, todo, now, k);
    var record := Described(contents[k], k, access, overhead);
    DiskOkPut(l.disk, l.bytes, false, tick, k, record);
    LatestNext(l.disk, tick, k, record);
  }

  // No removal of an expired entry under one of these keys fails.
  ghost predicate Removable(contents: Store, keys: set<Key>, now: u64, faults: StoreFaults) {
    forall k :: k in keys && k in contents && IsExpired(contents[k].expiresAt, now) ==> k !in faults.removes
  }

  // The store without the expired entries met so far.
  ghost predicate Cleaned(s: Store, contents: Store, todo: set<Key>, now: u64) {
    && Part(s, contents)
    && forall k :: k in contents ==> (k in s <==> k in todo || !IsExpired(contents[k].expiresAt, now))
  }

  lemma CleanedNext(s: Store, contents: Store, todo: set<Key>, now: u64, k: Key)
    requires Cleaned(s, contents, todo, now) && k in todo && k in contents
    ensures Cleaned(if IsExpired(contents[k].expiresAt, now) then s - {k} else s, contents, todo - {k}, now)
  {
  }
}
