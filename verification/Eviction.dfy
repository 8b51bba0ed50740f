/** Which entries eviction takes (src/policy.rs and the eviction loops of src/lib.rs), for either level of the cache. */
module Eviction {
  import opened Prelude
  import opened Sums

  type Key = Bytes

  // A record of either level.  One in memory carries its value, a persistent one only what the store holds of it.
  datatype Record = Record(value: Bytes, size: nat, expiresAt: u64, pinned: bool, lastAccess: u64)

  type Records = map<Key, Record>

  datatype Candidate = Candidate(key: Key, lastAccess: u64, size: nat)

  function Size(r: Record): nat { r.size }

  ghost function Total(m: Records): nat { MapSum(Size, m) }

  predicate AllPinned(m: Records) { forall k :: k in m ==> m[k].pinned }

  // ----- the least recently used candidate -----

  // The first of the oldest candidates.
  method ChooseVictim(candidates: seq<Candidate>) returns (r: Option<nat>)
    ensures r.None? <==> candidates == []
    ensures r.Some? ==> r.value < |candidates|
    ensures r.Some? ==> forall i :: 0 <= i < |candidates| ==> candidates[r.value].lastAccess <= candidates[i].lastAccess
    ensures r.Some? ==> forall i :: 0 <= i < r.value ==> candidates[r.value].lastAccess < candidates[i].lastAccess
  {
    if candidates == [] {
      return None;
    }
    var best := 0;
    for i := 1 to |candidates|
      invariant best < i
      invariant forall j :: 0 <= j < i ==> candidates[best].lastAccess <= candidates[j].lastAccess
      invariant forall j :: 0 <= j < best ==> candidates[best].lastAccess < candidates[j].lastAccess
    {
      if candidates[i].lastAccess < candidates[best].lastAccess {
        best := i;
      }
    }
    return Some(best);
  }

  // The candidates are the unpinned entries, in whatever order the map yields them.
  method Candidates(records: Records) returns (cs: seq<Candidate>)
    ensures forall i :: 0 <= i < |cs| ==>
            cs[i].key in records && !records[cs[i].key].pinned && cs[i].lastAccess == records[cs[i].key].lastAccess
    ensures forall k :: k in records && !records[k].pinned ==> exists i :: 0 <= i < |cs| && cs[i].key == k
  {
    cs := [];
    var todo := records.Keys;
    while todo != {}
      invariant todo <= records.Keys
      invariant forall i :: 0 <= i < |cs| ==>
                cs[i].key in records && !records[cs[i].key].pinned && cs[i].lastAccess == records[cs[i].key].lastAccess
      invariant forall k :: k in records && !records[k].pinned && k !in todo ==>
                exists i :: 0 <= i < |cs| && cs[i].key == k
      decreases |todo|
    {
      var k :| k in todo;
      if !records[k].pinned {
        ghost var former := cs;
        cs := cs + [Candidate(k, records[k].lastAccess, Size(records[k]))];
        assert cs[|former|].key == k;
        assert forall i :: 0 <= i < |former| ==> cs[i] == former[i];
      }
      todo := todo - {k};
    }
  }

  // An oldest unpinned entry, or none when everything is pinned.
  method Victim(records: Records) returns (r: Option<Key>)
    ensures r.None? <==> AllPinned(records)
    ensures r.Some? ==> Oldest(records, r.value)
  {
    var candidates := Candidates(records);
    var index := ChooseVictim(candidates);
    if index.None? {
      return None;
    }
    return Some(candidates[index.value].key);
  }

  predicate Oldest(records: Records, k: Key) {
    k in records && !records[k].pinned
      && forall u :: u in records && !records[u].pinned ==> records[k].lastAccess <= records[u].lastAccess
  }

  // ----- what an eviction may do -----

  ghost predicate Part<K, V>(now: map<K, V>, before: map<K, V>) {
    forall k :: k in now ==> k in before && now[k] == before[k]
  }

  ghost predicate Gone(before: Records, now: Records, k: Key) { k in before && k !in now }

  ghost predicate Youngest(before: Records, now: Records, w: Key) {
    Gone(before, now, w) && forall v :: Gone(before, now, v) ==> before[v].lastAccess <= before[w].lastAccess
  }

  // An entry that may go: it is not pinned and no older one stays.
  ghost predicate Fair(before: Records, now: Records, v: Key)
    requires v in before
  {
    !before[v].pinned && forall u :: u in now && !now[u].pinned ==> before[v].lastAccess <= now[u].lastAccess
  }

  // Only such entries went, and the last to go did not fit.
  ghost predicate Trimmed(before: Records, now: Records, last: Option<Key>, cap: int) {
    && Part(now, before)
    && (forall v :: Gone(before, now, v) ==> Fair(before, now, v))
    && (last.None? ==> now == before)
    && (last.Some? ==> Youngest(before, now, last.value) && Total(now) + Size(before[last.value]) > cap)
  }

  // Trimmed until the rest fits or nothing more may go.
  ghost predicate Evicted(before: Records, now: Records, cap: int) {
    (exists last :: Trimmed(before, now, last, cap)) && (Total(now) <= cap || AllPinned(now))
  }

  // One turn of the loop.
  lemma TrimStep(before: Records, now: Records, last: Option<Key>, w: Key, cap: int)
    requires Trimmed(before, now, last, cap) && Oldest(now, w) && Total(now) > cap
    ensures Trimmed(before, now - {w}, Some(w), cap) && Total(now - {w}) + Size(now[w]) == Total(now)
  {
    var after := now - {w};
    MapSumRemove(Size, now, w);
    forall v | Gone(before, after, v) ensures Fair(before, after, v) && before[v].lastAccess <= before[w].lastAccess {
      assert v == w || Gone(before, now, v);
    }
  }

  // The eviction loop of the memory level.
  method Shrink(before: Records, count: nat, cap: nat) returns (now: Records, bytes: nat)
    requires count == Total(before)
    ensures bytes == Total(now) && Evicted(before, now, cap)
  {
    now, bytes := before, count;
    ghost var last: Option<Key> := None;
    while bytes > cap
      invariant bytes == Total(now) && Trimmed(before, now, last, cap)
      decreases |now|
    {
      var victim := Victim(now);
      if victim.None? {
        return;
      }
      TrimStep(before, now, last, victim.value, cap);
      bytes := SatSub(bytes, now[victim.value].size);
      now := now - {victim.value};
      last := victim;
    }
  }

  // ----- sums over parts of a map -----

  lemma {:induction false} MapSumLe<K, V>(f: V -> nat, g: V -> nat, a: map<K, V>, b: map<K, V>)
    requires forall k :: k in a ==> f(a[k]) == 0 || (k in b && f(a[k]) <= g(b[k]))
    ensures MapSum(f, a) <= MapSum(g, b)
    decreases |a|
  {
    if a == map[] {
      MapSumEmpty(f, a);
    } else {
      var x :| x in a;
      MapSumRemove(f, a, x);
      if f(a[x]) == 0 {
        MapSumLe(f, g, a - {x}, b);
      } else {
        MapSumRemove(g, b, x);
        MapSumLe(f, g, a - {x}, b - {x});
      }
    }
  }

  // ----- the victims are determined -----

  predicate DistinctTimes(m: Records)
  {
    forall k, j :: k in m && j in m && k != j ==> m[k].lastAccess != m[j].lastAccess
  }

  // If one outcome keeps an entry that the other evicts, it keeps the other's last victim and all the other keeps.
  lemma KeepsMore(before: Records, a: Records, b: Records, cap: int, k: Key, w: Key, j: Key)
    requires Evicted(before, a, cap) && Evicted(before, b, cap) && DistinctTimes(before)
    requires Gone(before, b, k) && k in a && Youngest(before, b, w)
    ensures w in a && !a[w].pinned
    ensures j in b ==> j in a && j != w
  {
    assert w !in a ==> Gone(before, a, w);
    assert j in b && j !in a ==> Gone(before, a, j);
  }

  lemma NotMore(before: Records, a: Records, b: Records, cap: int, k: Key)
    requires Evicted(before, a, cap) && Evicted(before, b, cap) && DistinctTimes(before)
    ensures Gone(before, b, k) ==> Gone(before, a, k)
  {
    if Gone(before, b, k) && k in a {
      var w :| Youngest(before, b, w) && Total(b) + Size(before[w]) > cap;
      forall j | j in b ensures j in a && j != w {
        KeepsMore(before, a, b, cap, k, w, j);
      }
      KeepsMore(before, a, b, cap, k, w, k);
      MapSumRemove(Size, a, w);
      MapSumLe(Size, Size, b, a - {w});
    }
  }

  // Which entries are evicted depends on the entries alone, not on the order a map yields them in.
  lemma EvictionUnique(before: Records, a: Records, b: Records, cap: int)
    requires Evicted(before, a, cap) && Evicted(before, b, cap) && DistinctTimes(before)
    ensures a == b
  {
    forall k ensures k in a <==> k in b {
      NotMore(before, a, b, cap, k);
      NotMore(before, b, a, cap, k);
    }
    assert a.Keys == b.Keys;
  }

  // ----- a new entry goes last -----

  function PinnedSize(r: Record): nat { if r.pinned then Size(r) else 0 }

  ghost function PinnedTotal(m: Records): nat { MapSum(PinnedSize, m) }

  // An entry newer than all others survives exactly if it is pinned or fits beside the pinned ones.
  lemma NewestSurvivesIff(m: Records, k: Key, record: Record, now: Records, cap: int)
    requires forall j :: j in m ==> m[j].lastAccess < record.lastAccess
    requires Evicted(m[k := record], now, cap)
    ensures k in now <==> record.pinned || PinnedTotal(m - {k}) + Size(record) <= cap
  {
    var before := m[k := record];
    var others := m - {k};
    if record.pinned {
      assert k !in now ==> Gone(before, now, k);
    } else if k in now {
      MapSumRemove(Size, now, k);
      forall j | j in others && others[j].pinned ensures j in now - {k} {
        assert j !in now ==> Gone(before, now, j);
      }
      MapSumLe(PinnedSize, Size, others, now - {k});
    } else {
      assert Gone(before, now, k);
      var last :| Trimmed(before, now, last, cap);
      assert Fair(before, now, k) && before[k].lastAccess <= before[last.value].lastAccess;
      assert last == Some(k);
      MapSumLe(Size, PinnedSize, now, others);
    }
  }
}
