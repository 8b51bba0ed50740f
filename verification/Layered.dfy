/**
 The layered store (src/store.rs): reads search the backends in order, writes go to all of them.
 A backend is a map whose every call may fail without effect; a call that works may change access times.
 One operation calls each backend at most once per kind of call, so its faults are sets of backend numbers.
 */
module Layered {
  import opened Prelude
  import opened Sums

  type Key = Bytes

  datatype StoredEntry = StoredEntry(value: Bytes, expiresAt: u64, pinned: bool)

  // `overhead` is what the backend stores besides the value: nothing in memory, a header in a file.
  datatype Backend = Backend(overhead: u64, entries: map<Key, StoredEntry>, access: map<Key, nat>, tick: nat)

  datatype Faults = Faults(gets: set<nat>, puts: set<nat>, removes: set<nat>, loads: set<nat>)

  datatype PutOutcome = PutOutcome(inserted: bool, storedBytes: u64)

  datatype Record = Record(storedBytes: u64, expiresAt: u64, pinned: bool, lastAccess: nat)

  function SizeIn(b: Backend, e: StoredEntry): u64 { SatAdd(b.overhead, |e.value|) }

  function RecordIn(b: Backend, k: Key): Record
    requires k in b.entries
  {
    var e := b.entries[k];
    Record(SizeIn(b, e), e.expiresAt, e.pinned, if k in b.access then b.access[k] else 0)
  }

  function Touched(b: Backend, k: Key): Backend {
    b.(tick := b.tick + 1, access := if k in b.entries then b.access[k := b.tick + 1] else b.access)
  }

  function Inserted(b: Backend, k: Key, e: StoredEntry): Backend {
    if k in b.entries then b.(tick := b.tick + 1)
    else b.(tick := b.tick + 1, entries := b.entries[k := e], access := b.access[k := b.tick + 1])
  }

  // A lookup has made the key, if the backend has it, the one most recently used, and has changed nothing else.
  ghost predicate LookedUp(b: Backend, b': Backend, key: Key) {
    && b'.entries == b.entries && b'.overhead == b.overhead && b'.tick == b.tick + 1
    && forall k :: AccessIn(b', k) == if k == key && k in b.entries then b'.tick else AccessIn(b, k)
  }

  // Same entries everywhere; access times may differ.
  ghost predicate SameEntries(a: seq<Backend>, b: seq<Backend>) {
    |a| == |b| && forall i :: 0 <= i < |a| ==> a[i].entries == b[i].entries && a[i].overhead == b[i].overhead
  }

  ghost predicate Agrees(b: Backend, k: Key, e: StoredEntry) { k in b.entries ==> b.entries[k] == e }

  // ----- the merged index -----

  function Combine(a: Record, b: Record): Record {
    a.(storedBytes := SatAdd(a.storedBytes, b.storedBytes), lastAccess := Max(a.lastAccess, b.lastAccess))
  }

  // What the index says about one key after the first backends have been merged.
  function Merged(bs: seq<Backend>, k: Key): Option<Record> {
    if bs == [] then None
    else
      var former, b := Merged(bs[..|bs| - 1], k), bs[|bs| - 1];
      if k !in b.entries then former
      else if former.None? then Some(RecordIn(b, k))
      else Some(Combine(former.value, RecordIn(b, k)))
  }

  // What a backend really stores for a key.
  function HeldBytes(k: Key, b: Backend): nat { if k in b.entries then b.overhead + |b.entries[k].value| else 0 }

  function AccessIn(b: Backend, k: Key): nat { if k in b.access then b.access[k] else 0 }

  ghost function BytesUnder(k: Key): Backend -> nat { (b: Backend) => HeldBytes(k, b) }

  // The index knows a key exactly when a backend holds it; its size is the saturated total over all backends.
  lemma {:induction false} MergedMeans(bs: seq<Backend>, k: Key)
    ensures Merged(bs, k).Some? <==> exists i :: 0 <= i < |bs| && k in bs[i].entries
    ensures Merged(bs, k).Some? ==>
      && Merged(bs, k).value.storedBytes == Min(U64_MAX, SumOf(BytesUnder(k), bs))
      && (exists i :: 0 <= i < |bs| && k in bs[i].entries
            && bs[i].entries[k].expiresAt == Merged(bs, k).value.expiresAt
            && bs[i].entries[k].pinned == Merged(bs, k).value.pinned)
      && (forall i :: 0 <= i < |bs| && k in bs[i].entries ==> AccessIn(bs[i], k) <= Merged(bs, k).value.lastAccess)
      && (exists i :: 0 <= i < |bs| && k in bs[i].entries && AccessIn(bs[i], k) == Merged(bs, k).value.lastAccess)
    ensures Merged(bs, k).None? ==> SumOf(BytesUnder(k), bs) == 0
  {
    SumUnfolds(BytesUnder(k), bs);
    if bs != [] {
      var front, n := bs[..|bs| - 1], |bs| - 1;
      MergedMeans(front, k);
      assert forall i :: 0 <= i < n ==> front[i] == bs[i];
      if k in bs[n].entries {
        assert Merged(bs, k).value.lastAccess == AccessIn(bs[n], k) || Merged(front, k).Some?;
      }
    }
  }

  // All copies of a key carry the same expiry and pin.
  ghost predicate Coherent(bs: seq<Backend>, k: Key) {
    forall i, j :: 0 <= i < |bs| && 0 <= j < |bs| && k in bs[i].entries && k in bs[j].entries ==>
      bs[i].entries[k].expiresAt == bs[j].entries[k].expiresAt && bs[i].entries[k].pinned == bs[j].entries[k].pinned
  }

  // ----- writing to the backends -----

  // A backend takes an entry under a key that it does not have, and then has it as the one most recently used; an
  // entry that is there stays.  The size it reports is that of the entry it has.
  lemma InsertedMeans(b: Backend, key: Key, entry: StoredEntry)
    ensures var b' := Inserted(b, key, entry);
      && b'.entries == (if key in b.entries then b.entries else b.entries[key := entry])
      && b'.overhead == b.overhead && b'.tick == b.tick + 1
      && SizeIn(b', b'.entries[key]) == Min(U64_MAX, HeldBytes(key, b'))
      && forall k :: AccessIn(b', k) == if k == key && key !in b.entries then b.tick + 1 else AccessIn(b, k)
  {
  }

  method PutInto(b: Backend, key: Key, entry: StoredEntry, fails: bool) returns (r: Result<PutOutcome>, b': Backend)
    ensures r.Ok? <==> !fails
    ensures fails ==> b' == b
    ensures !fails ==>
            b' == Inserted(b, key, entry) && r.value == PutOutcome(key !in b.entries, SizeIn(b', b'.entries[key]))
  {
    if fails {
      var e: ErrorKind := *;
      return Err(e), b;
    }
    b' := Inserted(b, key, entry);
    return Ok(PutOutcome(key !in b.entries, SizeIn(b', b'.entries[key]))), b';
  }

  // Undoing: the indices are those of backends that did not hold the key before.  A backend keeps the new copy
  // exactly if its removal fails.
  method RollBack(bs: seq<Backend>, key: Key, inserted: seq<nat>, faults: Faults, ghost before: seq<Backend>)
    returns (bs': seq<Backend>)
    requires |bs| == |before|
    requires forall j :: 0 <= j < |inserted| ==> inserted[j] < |before| && key !in before[inserted[j]].entries
    requires forall i :: 0 <= i < |before| ==> Written(before[i], bs[i], key)
    requires forall i :: 0 <= i < |before| ==> (i in inserted <==> key in bs[i].entries && key !in before[i].entries)
    ensures |bs'| == |before|
    ensures forall i :: 0 <= i < |before| ==> Written(before[i], bs'[i], key)
    ensures forall i :: 0 <= i < |before| ==>
      (key in bs'[i].entries <==> key in before[i].entries || (i in inserted && i in faults.removes))
  {
    bs' := bs;
    for j := 0 to |inserted|
      invariant |bs'| == |before|
      invariant forall i :: 0 <= i < |before| ==> Written(before[i], bs'[i], key)
      invariant forall i :: 0 <= i < |before| ==>
        (key in bs'[i].entries <==>
          key in before[i].entries || (i in inserted && (i in faults.removes || i !in inserted[..j])))
    {
      assert inserted[..j + 1] == inserted[..j] + [inserted[j]];
      var i := inserted[j];
      if i !in faults.removes {
        bs' := bs'[i := bs'[i].(entries := bs'[i].entries - {key})];
      }
    }
    assert inserted[..|inserted|] == inserted;
  }

  // The first i backends have the entry, and those of them that did not have it are listed.
  ghost predicate WrittenUpTo(bs: seq<Backend>, bs': seq<Backend>, i: nat, inserted: seq<nat>, key: Key,
                              entry: StoredEntry)
  {
    && |bs'| == |bs| && i <= |bs|
    && (forall m :: 0 <= m < i ==> bs'[m] == Inserted(bs[m], key, entry))
    && (forall m :: i <= m < |bs| ==> bs'[m] == bs[m])
    && (forall m :: m in inserted <==> 0 <= m < i && key !in bs[m].entries)
  }

  lemma WriteStep(bs: seq<Backend>, bs': seq<Backend>, i: nat, inserted: seq<nat>, key: Key, entry: StoredEntry)
    requires WrittenUpTo(bs, bs', i, inserted, key, entry) && i < |bs|
    ensures WrittenUpTo(bs, bs'[i := Inserted(bs'[i], key, entry)], i + 1,
                        if key !in bs[i].entries then inserted + [i] else inserted, key, entry)
  {
  }

  lemma WrittenEverywhere(bs: seq<Backend>, bs': seq<Backend>, inserted: seq<nat>, key: Key, entry: StoredEntry)
    requires WrittenUpTo(bs, bs', |bs|, inserted, key, entry) && forall i :: 0 <= i < |bs| ==> Agrees(bs[i], key, entry)
    ensures BytesOf(Merged(bs', key)) == CopyBytes(bs, entry, |bs|) && (bs != [] ==> Merged(bs', key).Some?)
    ensures inserted != [] <==> exists i :: 0 <= i < |bs| && key !in bs[i].entries
  {
    CopiesMerge(bs, bs', key, entry, |bs|);
    assert bs'[..|bs|] == bs';
    assert inserted != [] ==> inserted[0] in inserted;
  }

  method Undo(bs: seq<Backend>, written: seq<Backend>, i: nat, inserted: seq<nat>, key: Key, ghost entry: StoredEntry,
              faults: Faults)
    returns (bs': seq<Backend>)
    requires WrittenUpTo(bs, written, i, inserted, key, entry)
    ensures |bs'| == |bs| && forall m :: 0 <= m < |bs| ==> Written(bs[m], bs'[m], key)
    ensures forall m :: 0 <= m < |bs| && m !in faults.removes ==> (key in bs'[m].entries <==> key in bs[m].entries)
  {
    PartlyWritten(bs, written, i, key, entry);
    forall j | 0 <= j < |inserted| ensures inserted[j] < |bs| && key !in bs[inserted[j]].entries {
      assert inserted[j] in inserted;
    }
    bs' := RollBack(written, key, inserted, faults, bs);
  }

  // The second pass: write everywhere, or undo at the first failure.
  method WriteAll(bs: seq<Backend>, key: Key, entry: StoredEntry, faults: Faults)
    returns (r: Result<PutOutcome>, bs': seq<Backend>)
    requires forall i :: 0 <= i < |bs| ==> Agrees(bs[i], key, entry)
    ensures |bs'| == |bs|
    ensures r.Ok? <==> forall i :: 0 <= i < |bs| ==> i !in faults.puts
    ensures r.Ok? ==> forall i :: 0 <= i < |bs| ==> bs'[i] == Inserted(bs[i], key, entry)
    ensures r.Ok? ==> (r.value.inserted <==> exists i :: 0 <= i < |bs| && key !in bs[i].entries)
    ensures r.Ok? ==> r.value.storedBytes == BytesOf(Merged(bs', key)) && (bs != [] ==> Merged(bs', key).Some?)
    ensures r.Err? ==> forall i :: 0 <= i < |bs| ==> Written(bs[i], bs'[i], key)
    ensures r.Err? ==> forall i :: 0 <= i < |bs| && i !in faults.removes ==>
            (key in bs'[i].entries <==> key in bs[i].entries)
  {
    var error, written, i, inserted, storedBytes := WriteUntilFailure(bs, key, entry, faults);
    if error.Some? {
      bs' := Undo(bs, written, i, inserted, key, entry, faults);
      return Err(error.value), bs';
    }
    WrittenEverywhere(bs, written, inserted, key, entry);
    return Ok(PutOutcome(inserted != [], storedBytes)), written;
  }

  // The loop, up to the first failure.
  method WriteUntilFailure(bs: seq<Backend>, key: Key, entry: StoredEntry, faults: Faults)
    returns (error: Option<ErrorKind>, bs': seq<Backend>, n: nat, inserted: seq<nat>, storedBytes: u64)
    requires forall i :: 0 <= i < |bs| ==> Agrees(bs[i], key, entry)
    ensures WrittenUpTo(bs, bs', n, inserted, key, entry) && storedBytes == CopyBytes(bs, entry, n)
    ensures forall m :: 0 <= m < n ==> m !in faults.puts
    ensures if error.Some? then n < |bs| && n in faults.puts else n == |bs|
  {
    bs', inserted, storedBytes, n := bs, [], 0, 0;
    while n < |bs|
      invariant WrittenUpTo(bs, bs', n, inserted, key, entry) && storedBytes == CopyBytes(bs, entry, n)
      invariant forall m :: 0 <= m < n ==> m !in faults.puts
    {
      var put, b := PutInto(bs'[n], key, entry, n in faults.puts);
      if put.Err? {
        return Some(put.error), bs', n, inserted, storedBytes;
      }
      WriteStep(bs, bs', n, inserted, key, entry);
      bs' := bs'[n := b];
      storedBytes := SatAdd(storedBytes, put.value.storedBytes);
      if put.value.inserted {
        inserted := inserted + [n];
      }
      n := n + 1;
    }
    error := None;
  }

  class LayeredStore {
    var backends: seq<Backend>

    // ----- calls into one backend -----

    method GetAt(i: nat, key: Key, faults: Faults) returns (r: Result<Option<StoredEntry>>)
      requires i < |backends|
      modifies this
      ensures SameEntries(old(backends), backends)
      ensures r.Ok? ==> r.value == if key in backends[i].entries then Some(backends[i].entries[key]) else None
      ensures r.Ok? <==> i !in faults.gets
      ensures r.Err? ==> backends == old(backends)
      ensures r.Ok? ==> backends == old(backends)[i := backends[i]] && LookedUp(old(backends)[i], backends[i], key)
    {
      if i in faults.gets {
        var e: ErrorKind := *;
        return Err(e);
      }
      backends := backends[i := Touched(backends[i], key)];
      return Ok(if key in backends[i].entries then Some(backends[i].entries[key]) else None);
    }

    method RemoveAt(i: nat, key: Key, faults: Faults) returns (r: Outcome)
      requires i < |backends|
      modifies this
      ensures r.Done? ==> backends == old(backends)[i := old(backends)[i].(entries := old(backends)[i].entries - {key})]
      ensures r.Done? <==> i !in faults.removes
      ensures r.Failed? ==> backends == old(backends)
    {
      if i in faults.removes {
        var e: ErrorKind := *;
        return Failed(e);
      }
      backends := backends[i := backends[i].(entries := backends[i].entries - {key})];
      return Done;
    }

    // ----- reading -----

    // The entry of the first backend that has one; nothing a later read can see changes.
    method Get(key: Key, faults: Faults) returns (r: Result<Option<StoredEntry>>)
      modifies this
      ensures SameEntries(old(backends), backends)
      ensures r.Err? ==>
              exists i :: 0 <= i < |backends| && i in faults.gets &&
                forall j :: 0 <= j < i ==> key !in backends[j].entries
      ensures r == Ok(None) ==> forall i :: 0 <= i < |backends| ==> key !in backends[i].entries
      ensures r.Ok? && r.value.Some? ==>
        exists i :: 0 <= i < |backends| && key in backends[i].entries && backends[i].entries[key] == r.value.value
                    && (forall j :: 0 <= j < i ==> key !in backends[j].entries)
                    && (forall j :: 0 <= j <= i ==> LookedUp(old(backends)[j], backends[j], key))
                    && (forall j :: i < j < |backends| ==> backends[j] == old(backends)[j])
    {
      var i := 0;
      while i < |backends|
        invariant SameEntries(old(backends), backends)
        invariant i <= |backends|
        invariant forall j :: 0 <= j < i ==> key !in backends[j].entries
        invariant forall j :: 0 <= j < i ==> LookedUp(old(backends)[j], backends[j], key)
        invariant forall j :: i <= j < |backends| ==> backends[j] == old(backends)[j]
        decreases |backends| - i
      {
        var found := GetAt(i, key, faults);
        if found.Err? {
          return Err(found.error);
        }
        if found.value.Some? {
          return found;
        }
        i := i + 1;
      }
      return Ok(None);
    }

    // ----- writing -----

    // The first pass: every existing copy must equal the entry.
    method CheckCopies(key: Key, entry: StoredEntry, faults: Faults) returns (r: Outcome)
      modifies this
      ensures SameEntries(old(backends), backends)
      ensures r.Done? <==> forall i :: 0 <= i < |backends| ==> Agrees(backends[i], key, entry) && i !in faults.gets
      ensures r.Failed? && (forall i :: 0 <= i < |backends| ==> i !in faults.gets) ==> r.error == InvalidData
    {
      var i := 0;
      while i < |backends|
        invariant SameEntries(old(backends), backends)
        invariant i <= |backends|
        invariant forall j :: 0 <= j < i ==> Agrees(backends[j], key, entry) && j !in faults.gets
        decreases |backends| - i
      {
        var found := GetAt(i, key, faults);
        if found.Err? {
          return Failed(found.error);
        }
        if found.value.Some? && found.value.value != entry {
          assert !Agrees(backends[i], key, entry);
          return Failed(InvalidData);
        }
        i := i + 1;
      }
      return Done;
    }

    // All or nothing.  The call succeeds exactly if no backend holds another entry and no call fails; then
    // the entry is in every backend and the reported size is that of the merged index.  Otherwise every
    // backend holds what it held, save those that were written and whose undoing removal failed, and even
    // there no earlier copy is lost and no other key is touched.
    method PutIfAbsent(key: Key, entry: StoredEntry, faults: Faults) returns (r: Result<PutOutcome>)
      modifies this
      ensures |backends| == |old(backends)|
      ensures r.Ok? <==> forall i :: 0 <= i < |backends| ==>
        Agrees(old(backends)[i], key, entry) && i !in faults.gets && i !in faults.puts
      ensures r.Ok? ==> forall i :: 0 <= i < |backends| ==>
              backends[i].entries == old(backends)[i].entries[key := entry]
      ensures r.Ok? ==> (r.value.inserted <==> exists i :: 0 <= i < |backends| && key !in old(backends)[i].entries)
      ensures r.Ok? ==>
              r.value.storedBytes == BytesOf(Merged(backends, key)) && (backends != [] ==> Merged(backends, key).Some?)
      ensures r.Err? ==> forall i :: 0 <= i < |backends| && i !in faults.removes ==>
              backends[i].entries == old(backends)[i].entries
      ensures r.Err? && (exists i :: 0 <= i < |backends| && !Agrees(old(backends)[i], key, entry)) ==>
        SameEntries(old(backends), backends)
      ensures forall i :: 0 <= i < |backends| ==> Written(old(backends)[i], backends[i], key)
    {
      var checked := CheckCopies(key, entry, faults);
      if checked.Failed? {
        return Err(checked.error);
      }
      ghost var start := backends;
      r, backends := WriteAll(backends, key, entry, faults);
      if r.Ok? {
        PutEverywhere(old(backends), start, backends, key, entry);
      } else {
        PutNowhere(old(backends), start, backends, key, faults);
      }
    }

    // ----- removing -----

    // Every backend is tried; success means the key is gone everywhere.
    method Remove(key: Key, faults: Faults) returns (r: Outcome)
      modifies this
      ensures |backends| == |old(backends)|
      ensures forall i :: 0 <= i < |backends| ==>
        backends[i].entries == if i in faults.removes then old(backends)[i].entries
          else old(backends)[i].entries - {key}
      ensures r.Done? <==> forall i :: 0 <= i < |backends| ==> i !in faults.removes
    {
      var firstError: Option<ErrorKind> := None;
      var i := 0;
      while i < |backends|
        invariant |backends| == |old(backends)| && i <= |backends|
        invariant forall m :: 0 <= m < i ==>
          backends[m].entries == if m in faults.removes then old(backends)[m].entries
            else old(backends)[m].entries - {key}
        invariant firstError.None? <==> forall m :: 0 <= m < i ==> m !in faults.removes
        invariant forall m :: i <= m < |backends| ==> backends[m] == old(backends)[m]
        decreases |backends| - i
      {
        var removed := RemoveAt(i, key, faults);
        if removed.Failed? && firstError.None? {
          firstError := Some(removed.error);
        }
        i := i + 1;
      }
      return if firstError.Some? then Failed(firstError.value) else Done;
    }

    // ----- the index -----

    // The index is the merge of all backends, and exists exactly when all copies agree on expiry and pin.
    method LoadIndex(faults: Faults) returns (r: Result<map<Key, Record>>)
      ensures r.Ok? <==> (forall k :: Coherent(backends, k)) && forall i :: 0 <= i < |backends| ==> i !in faults.loads
      ensures r.Ok? ==> forall k :: AtKey(r.value, k) == Merged(backends, k)
      ensures r.Err? && (forall i :: 0 <= i < |backends| ==> i !in faults.loads) ==> r.error == InvalidData
    {
      var merged: map<Key, Record> := map[];
      var i := 0;
      while i < |backends|
        invariant i <= |backends| && forall j :: 0 <= j < i ==> j !in faults.loads
        invariant forall k :: AtKey(merged, k) == Merged(backends[..i], k)
        invariant forall k, j :: 0 <= j < i && k in backends[j].entries ==>
                  k in merged && Matches(merged[k], backends[j].entries[k])
      {
        if i in faults.loads {
          var e: ErrorKind := *;
          return Err(e);
        }
        var next := MergeSnapshot(merged, backends[i]);
        if next.Err? {
          MismatchShows(backends, i, merged);
          return Err(next.error);
        }
        assert backends[..i + 1][..i] == backends[..i];
        merged := next.value;
        i := i + 1;
      }
      assert backends[..i] == backends;
      forall k ensures Coherent(backends, k) {
        MatchingIsCoherent(backends, merged, k);
      }
      return Ok(merged);
    }
  }

  function BytesOf(r: Option<Record>): u64 { if r.Some? then r.value.storedBytes else 0 }

  function AtKey(m: map<Key, Record>, k: Key): Option<Record> { if k in m then Some(m[k]) else None }

  predicate Matches(r: Record, e: StoredEntry) { e.expiresAt == r.expiresAt && e.pinned == r.pinned }

  // One record of a snapshot merged into the index.
  function Added(merged: map<Key, Record>, b: Backend, k: Key): Record
    requires k in b.entries
  {
    if k in merged then Combine(merged[k], RecordIn(b, k)) else RecordIn(b, k)
  }

  // The inner loop: the records of one snapshot, in whatever order they come.
  method MergeSnapshot(merged: map<Key, Record>, b: Backend) returns (r: Result<map<Key, Record>>)
    ensures r.Ok? ==> forall k ::
            AtKey(r.value, k) == if k in b.entries then Some(Added(merged, b, k)) else AtKey(merged, k)
    ensures r.Ok? ==> forall k :: k in b.entries && k in merged ==> Matches(merged[k], b.entries[k])
    ensures r.Err? ==>
            r.error == InvalidData && exists k :: k in b.entries && k in merged && !Matches(merged[k], b.entries[k])
  {
    var result := merged;
    var todo := b.entries.Keys;
    while todo != {}
      invariant todo <= b.entries.Keys
      invariant forall k ::
                AtKey(result, k) == if k in b.entries && k !in todo then Some(Added(merged, b, k)) else AtKey(merged, k)
      invariant forall k :: k in b.entries && k !in todo && k in merged ==> Matches(merged[k], b.entries[k])
      decreases |todo|
    {
      var k :| k in todo;
      assert AtKey(result, k) == AtKey(merged, k);
      if k !in result {
        result := result[k := RecordIn(b, k)];
      } else {
        if !Matches(result[k], b.entries[k]) {
          return Err(InvalidData);
        }
        result := result[k := Combine(result[k], RecordIn(b, k))];
      }
      todo := todo - {k};
    }
    return Ok(result);
  }

  // A record that does not match the index so far is two copies that do not agree.
  lemma MismatchShows(bs: seq<Backend>, i: nat, merged: map<Key, Record>)
    requires i < |bs| && forall k :: AtKey(merged, k) == Merged(bs[..i], k)
    requires exists k :: k in bs[i].entries && k in merged && !Matches(merged[k], bs[i].entries[k])
    ensures exists k :: !Coherent(bs, k)
  {
    var k :| k in bs[i].entries && k in merged && !Matches(merged[k], bs[i].entries[k]);
    assert AtKey(merged, k) == Merged(bs[..i], k);
    MergedMeans(bs[..i], k);
    var j :| 0 <= j < i && k in bs[..i][j].entries
        && bs[..i][j].entries[k].expiresAt == merged[k].expiresAt && bs[..i][j].entries[k].pinned == merged[k].pinned;
    assert bs[..i][j] == bs[j];
    assert !Coherent(bs, k);
  }

  // A backend after an unfinished write: as before, or with the key added where there was none.
  ghost predicate Written(before: Backend, after: Backend, key: Key) {
    && after.overhead == before.overhead
    && (key in before.entries ==> after.entries == before.entries)
    && after.entries - {key} == before.entries - {key}
  }

  lemma NothingNew(a: Backend, b: Backend, key: Key)
    requires Written(a, b, key) && (key in b.entries <==> key in a.entries)
    ensures b.entries == a.entries
  {
    if key !in a.entries {
      assert a.entries - {key} == a.entries && b.entries - {key} == b.entries;
    }
  }

  lemma PutEverywhere(before: seq<Backend>, start: seq<Backend>, after: seq<Backend>, key: Key, entry: StoredEntry)
    requires SameEntries(before, start) && |after| == |start|
    requires forall i :: 0 <= i < |start| ==> Agrees(start[i], key, entry) && after[i] == Inserted(start[i], key, entry)
    ensures forall i :: 0 <= i < |before| ==>
            after[i].entries == before[i].entries[key := entry] && Written(before[i], after[i], key)
  {
  }

  lemma PutNowhere(before: seq<Backend>, start: seq<Backend>, after: seq<Backend>, key: Key, faults: Faults)
    requires SameEntries(before, start) && |after| == |start|
    requires forall i :: 0 <= i < |start| ==> Written(start[i], after[i], key)
    requires forall i :: 0 <= i < |start| && i !in faults.removes ==>
             (key in after[i].entries <==> key in start[i].entries)
    ensures forall i :: 0 <= i < |before| ==> Written(before[i], after[i], key)
    ensures forall i :: 0 <= i < |before| && i !in faults.removes ==> after[i].entries == before[i].entries
  {
    forall i | 0 <= i < |start| && i !in faults.removes ensures after[i].entries == start[i].entries {
      NothingNew(start[i], after[i], key);
    }
  }

  lemma PartlyWritten(before: seq<Backend>, after: seq<Backend>, i: nat, key: Key, entry: StoredEntry)
    requires |before| == |after| && i <= |before|
    requires forall m :: 0 <= m < i ==> after[m] == Inserted(before[m], key, entry)
    requires forall m :: i <= m < |before| ==> after[m] == before[m]
    ensures forall m :: 0 <= m < |before| ==> Written(before[m], after[m], key)
    ensures forall m :: 0 <= m < |before| ==> (key in after[m].entries <==> m < i || key in before[m].entries)
  {
  }

  lemma MatchingIsCoherent(bs: seq<Backend>, merged: map<Key, Record>, k: Key)
    requires forall j :: 0 <= j < |bs| && k in bs[j].entries ==> k in merged && Matches(merged[k], bs[j].entries[k])
    ensures Coherent(bs, k)
  {
  }

  // What the copies of an entry in the first backends take.
  ghost function CopyBytes(bs: seq<Backend>, e: StoredEntry, n: nat): u64
    requires n <= |bs|
  {
    if n == 0 then 0 else SatAdd(CopyBytes(bs, e, n - 1), SizeIn(bs[n - 1], e))
  }

  lemma {:induction false} CopiesMerge(before: seq<Backend>, bs: seq<Backend>, key: Key, e: StoredEntry, n: nat)
    requires n <= |bs| == |before|
    requires forall i :: 0 <= i < n ==> bs[i] == Inserted(before[i], key, e) && Agrees(before[i], key, e)
    ensures BytesOf(Merged(bs[..n], key)) == CopyBytes(before, e, n)
    ensures Merged(bs[..n], key).Some? <==> n > 0
  {
    if n > 0 {
      CopiesMerge(before, bs, key, e, n - 1);
      assert bs[..n][..n - 1] == bs[..n - 1] && bs[..n][n - 1] == bs[n - 1];
      InsertedMeans(before[n - 1], key, e);
    }
  }
}
