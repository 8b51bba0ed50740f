/**
 The device tier over host device memory (src/device.rs) as a protocol.  The entry map and the buffer map
 have separate locks and no lock is held across a call, so calls interleave between any two steps.
 */
module Device {
  import opened Prelude

  type Handle = nat
  type Key = Bytes
  type CallId = nat

  datatype Entry = Entry(handle: Handle, len: nat, expiresAt: u64, pinned: bool)

  // Where one call stands.
  datatype Pc =
    | Reserved(key: Key, bytes: Bytes, expiresAt: u64, pinned: bool, handle: Handle)  // handle number drawn
    | Filled(key: Key, bytes: Bytes, expiresAt: u64, pinned: bool, handle: Handle)    // zeroed buffer inserted
    | Uploaded(key: Key, bytes: Bytes, expiresAt: u64, pinned: bool, handle: Handle)  // bytes copied
    | Freeing(handles: set<Handle>)                                                   // still to be freed
    | Holding(key: Key, entry: Entry, seen: Bytes)                                    // a get after its lookup
    | Got(key: Key, entry: Entry, bytes: Bytes, seen: Bytes)                          // a get that succeeded
    | Ended

  // Who is responsible for a handle.
  datatype Owner = Drawn(c: CallId) | Private(c: CallId) | Indexed(key: Key) | Dying(c: CallId) | Freed

  datatype State = State(
    next: Handle, buffers: map<Handle, Bytes>, entries: map<Key, Entry>, calls: map<CallId, Pc>,
    owner: map<Handle, Owner>)

  datatype Action =
    | Draw(c: CallId, key: Key, bytes: Bytes, expiresAt: u64, pinned: bool)
    | Fill(c: CallId)
    | Upload(c: CallId)
    | Publish(c: CallId)
    | Remove(c: CallId, key: Key)
    | Clear(c: CallId)
    | Free(c: CallId, handle: Handle)
    | Lookup(c: CallId, key: Key)
    | Download(c: CallId)

  function Init(): State { State(1, map[], map[], map[], map[]) }

  predicate Enabled(s: State, a: Action) {
    match a
    case Draw(c, _, bytes, _, _) => c !in s.calls && bytes != [] && s.next < U64_MAX
    case Fill(c) => c in s.calls && s.calls[c].Reserved?
    case Upload(c) => c in s.calls && s.calls[c].Filled?
    case Publish(c) => c in s.calls && s.calls[c].Uploaded?
    case Remove(c, _) => c !in s.calls
    case Clear(c) => c !in s.calls
    case Free(c, h) => c in s.calls && s.calls[c].Freeing? && h in s.calls[c].handles
    case Lookup(c, _) => c !in s.calls
    case Download(c) => c in s.calls && s.calls[c].Holding?
  }

  function HandlesOf(entries: map<Key, Entry>): set<Handle> { set k | k in entries :: entries[k].handle }

  // HostDeviceMemory::allocate, first half: the handle counter.
  function DoDraw(s: State, c: CallId, key: Key, bytes: Bytes, expiresAt: u64, pinned: bool): State {
    s.(next := s.next + 1, calls := s.calls[c := Reserved(key, bytes, expiresAt, pinned, s.next)],
       owner := s.owner[s.next := Drawn(c)])
  }

  // HostDeviceMemory::allocate, second half: a zeroed buffer.
  function DoFill(s: State, c: CallId): State
    requires c in s.calls && s.calls[c].Reserved?
  {
    var p := s.calls[c];
    s.(buffers := s.buffers[p.handle := seq(|p.bytes|, _ => 0)], owner := s.owner[p.handle := Private(c)],
       calls := s.calls[c := Filled(p.key, p.bytes, p.expiresAt, p.pinned, p.handle)])
  }

  // Copying into the buffer, or giving the buffer up when it is not there.
  function DoUpload(s: State, c: CallId): State
    requires c in s.calls && s.calls[c].Filled?
  {
    var p := s.calls[c];
    if p.handle in s.buffers then
      s.(buffers := s.buffers[p.handle := p.bytes],
         calls := s.calls[c := Uploaded(p.key, p.bytes, p.expiresAt, p.pinned, p.handle)])
    else s.(owner := s.owner[p.handle := Dying(c)], calls := s.calls[c := Freeing({p.handle})])
  }

  // The insert into the entry map, which also tells the call what it replaced.
  function DoPublish(s: State, c: CallId): State
    requires c in s.calls && s.calls[c].Uploaded?
  {
    var p := s.calls[c];
    var added := Entry(p.handle, |p.bytes|, p.expiresAt, p.pinned);
    if p.key in s.entries then
      var former := s.entries[p.key].handle;
      s.(entries := s.entries[p.key := added], calls := s.calls[c := Freeing({former})],
         owner := s.owner[former := Dying(c)][p.handle := Indexed(p.key)])
    else
      s.(entries := s.entries[p.key := added], calls := s.calls[c := Ended],
        owner := s.owner[p.handle := Indexed(p.key)])
  }

  function DoRemove(s: State, c: CallId, key: Key): State {
    if key in s.entries then
      s.(entries := s.entries - {key}, calls := s.calls[c := Freeing({s.entries[key].handle})],
         owner := s.owner[s.entries[key].handle := Dying(c)])
    else s.(calls := s.calls[c := Ended])
  }

  function StillToFree(handles: set<Handle>): Pc { if handles == {} then Ended else Freeing(handles) }

  function DoClear(s: State, c: CallId): State {
    s.(entries := map[], calls := s.calls[c := StillToFree(HandlesOf(s.entries))],
       owner := map h | h in s.owner :: if s.owner[h].Indexed? then Dying(c) else s.owner[h])
  }

  function DoFree(s: State, c: CallId, h: Handle): State
    requires c in s.calls && s.calls[c].Freeing?
  {
    s.(buffers := s.buffers - {h}, owner := s.owner[h := Freed],
       calls := s.calls[c := StillToFree(s.calls[c].handles - {h})])
  }

  // The bytes that are current for a key.
  function Current(s: State, key: Key): (b: Option<Bytes>) {
    if key in s.entries && s.entries[key].handle in s.buffers then Some(s.buffers[s.entries[key].handle]) else None
  }

  // The lookup copies the entry and nothing else; `seen` records what was current, for the theorems below.
  function DoLookup(s: State, c: CallId, key: Key): State {
    if key in s.entries then
      var current := Current(s, key);
      s.(calls := s.calls[c := Holding(key, s.entries[key], if current.Some? then current.value else [])])
    else s.(calls := s.calls[c := Ended])
  }

  // Downloading finds the buffer or reports that it is gone.
  function DoDownload(s: State, c: CallId): State
    requires c in s.calls && s.calls[c].Holding?
  {
    var p := s.calls[c];
    if p.entry.handle in s.buffers && |s.buffers[p.entry.handle]| == p.entry.len then
      s.(calls := s.calls[c := Got(p.key, p.entry, s.buffers[p.entry.handle], p.seen)])
    else s.(calls := s.calls[c := Ended])
  }

  function Next(s: State, a: Action): State
    requires Enabled(s, a)
  {
    match a
    case Draw(c, key, bytes, expiresAt, pinned) => DoDraw(s, c, key, bytes, expiresAt, pinned)
    case Fill(c) => DoFill(s, c)
    case Upload(c) => DoUpload(s, c)
    case Publish(c) => DoPublish(s, c)
    case Remove(c, key) => DoRemove(s, c, key)
    case Clear(c) => DoClear(s, c)
    case Free(c, h) => DoFree(s, c, h)
    case Lookup(c, key) => DoLookup(s, c, key)
    case Download(c) => DoDownload(s, c)
  }

  // ----- the invariant -----

  ghost predicate Domain(s: State) {
    && s.next >= 1 && (forall h: Handle :: h in s.owner <==> 1 <= h < s.next)
    && (forall h :: h in s.buffers ==> h in s.owner)
  }

  // A drawn handle has a buffer until it is freed, and its owner knows about it.
  ghost predicate HandleOk(s: State, h: Handle)
    requires h in s.owner
  {
    && (h in s.buffers <==> !s.owner[h].Drawn? && !s.owner[h].Freed?)
    && match s.owner[h]
       case Drawn(c) => c in s.calls && s.calls[c].Reserved? && s.calls[c].handle == h
       case Private(c) => c in s.calls && (s.calls[c].Filled? || s.calls[c].Uploaded?) && s.calls[c].handle == h
       case Indexed(k) => k in s.entries && s.entries[k].handle == h
       case Dying(c) => c in s.calls && s.calls[c].Freeing? && h in s.calls[c].handles
       case Freed => true
  }

  ghost predicate KeyOk(s: State, k: Key)
    requires k in s.entries
  {
    var e := s.entries[k];
    && e.handle in s.owner && s.owner[e.handle] == Indexed(k)
    && e.handle in s.buffers && |s.buffers[e.handle]| == e.len
  }

  // Handles whose bytes are final.
  predicate Settled(o: Owner) { o.Indexed? || o.Dying? || o.Freed? }

  ghost predicate CallOk(s: State, c: CallId)
    requires c in s.calls
  {
    match s.calls[c]
    case Reserved(_, _, _, _, h) => h in s.owner && s.owner[h] == Drawn(c)
    case Filled(_, _, _, _, h) => h in s.owner && s.owner[h] == Private(c)
    case Uploaded(_, bytes, _, _, h) =>
      h in s.owner && s.owner[h] == Private(c) && h in s.buffers && s.buffers[h] == bytes
    case Freeing(hs) => hs != {} && forall h :: h in hs ==> h in s.owner && s.owner[h] == Dying(c)
    case Holding(_, e, seen) =>
      && e.handle in s.owner && Settled(s.owner[e.handle])
      && (e.handle in s.buffers ==> s.buffers[e.handle] == seen && |seen| == e.len)
    case Got(_, _, bytes, seen) => bytes == seen
    case Ended => true
  }

  ghost predicate Inv(s: State) {
    && Domain(s)
    && (forall h :: h in s.owner ==> HandleOk(s, h))
    && (forall k :: k in s.entries ==> KeyOk(s, k))
    && (forall c :: c in s.calls ==> CallOk(s, c))
  }

  lemma InitInv()
    ensures Inv(Init())
  {
  }

  // ----- every step keeps it -----

  // What a step may do to a handle it does not own, a key it does not touch and a call that is not its own.
  ghost predicate Leaves(s: State, s': State, mine: set<Handle>, c: CallId) {
    && (forall x :: x in s.calls && x != c ==> x in s'.calls && s'.calls[x] == s.calls[x])
    && (forall h :: h in s.owner && h !in mine ==> h in s'.owner && s'.owner[h] == s.owner[h])
    && (forall h :: h in s.owner && h !in mine && h in s'.buffers ==> h in s.buffers)
    && (forall h :: h in s.buffers && h !in mine ==> h in s'.buffers && s'.buffers[h] == s.buffers[h])
  }

  // The step may touch handle `h` as far as call `x` is concerned: the handle is not in that call's hands,
  // and if its bytes were final they stay or go but do not change.
  ghost predicate Yields(s: State, s': State, h: Handle, x: CallId) {
    h in s.owner ==>
      && s.owner[h] != Drawn(x) && s.owner[h] != Private(x) && s.owner[h] != Dying(x)
      && (Settled(s.owner[h]) ==> h in s'.owner && Settled(s'.owner[h]))
      && (Settled(s.owner[h]) && h in s'.buffers ==> h in s.buffers && s'.buffers[h] == s.buffers[h])
  }

  // A call that is not the step's own keeps its invariant.
  lemma OtherCall(s: State, s': State, mine: set<Handle>, c: CallId, x: CallId)
    requires x in s.calls && x != c && CallOk(s, x) && Leaves(s, s', mine, c)
    requires forall h :: h in mine ==> Yields(s, s', h, x)
    ensures x in s'.calls && CallOk(s', x)
  {
  }

  lemma StepDraw(s: State, c: CallId, key: Key, bytes: Bytes, expiresAt: u64, pinned: bool)
    requires Inv(s) && c !in s.calls
    ensures Inv(DoDraw(s, c, key, bytes, expiresAt, pinned))
  {
    var s' := DoDraw(s, c, key, bytes, expiresAt, pinned);
    forall h | h in s'.owner ensures HandleOk(s', h) {
      if h != s.next {
        DrawHandle(s, c, key, bytes, expiresAt, pinned, h);
      }
    }
    forall k | k in s'.entries ensures KeyOk(s', k) {
      OtherKey(s, s', k);
    }
    forall x | x in s'.calls ensures CallOk(s', x) {
      if x != c {
        DrawCall(s, c, key, bytes, expiresAt, pinned, x);
      }
    }
  }

  // An entry whose handle is left alone.
  lemma OtherKey(s: State, s': State, k: Key)
    requires k in s.entries && KeyOk(s, k) && k in s'.entries && s'.entries[k] == s.entries[k]
    requires var h := s.entries[k].handle;
             h in s'.owner && s'.owner[h] == s.owner[h] && h in s'.buffers && s'.buffers[h] == s.buffers[h]
    ensures KeyOk(s', k)
  {
  }

  lemma DrawHandle(s: State, c: CallId, key: Key, bytes: Bytes, expiresAt: u64, pinned: bool, h: Handle)
    requires Domain(s) && c !in s.calls && h in s.owner && HandleOk(s, h)
    ensures HandleOk(DoDraw(s, c, key, bytes, expiresAt, pinned), h)
  {
  }

  lemma DrawCall(s: State, c: CallId, key: Key, bytes: Bytes, expiresAt: u64, pinned: bool, x: CallId)
    requires Domain(s) && c !in s.calls && x in s.calls && CallOk(s, x)
    ensures CallOk(DoDraw(s, c, key, bytes, expiresAt, pinned), x)
  {
    OtherCall(s, DoDraw(s, c, key, bytes, expiresAt, pinned), {s.next}, c, x);
  }

  lemma FillHandle(s: State, c: CallId, h: Handle)
    requires c in s.calls && s.calls[c].Reserved? && CallOk(s, c) && h in s.owner && HandleOk(s, h)
    ensures h in DoFill(s, c).owner && HandleOk(DoFill(s, c), h)
  {
  }

  lemma FillCall(s: State, c: CallId, x: CallId)
    requires c in s.calls && s.calls[c].Reserved? && CallOk(s, c) && HandleOk(s, s.calls[c].handle)
    requires x in s.calls && x != c && CallOk(s, x)
    ensures CallOk(DoFill(s, c), x)
  {
    OtherCall(s, DoFill(s, c), {s.calls[c].handle}, c, x);
  }

  lemma StepFill(s: State, c: CallId)
    requires Inv(s) && c in s.calls && s.calls[c].Reserved?
    ensures Inv(DoFill(s, c))
  {
    var s' := DoFill(s, c);
    assert CallOk(s, c) && HandleOk(s, s.calls[c].handle);
    forall h | h in s'.owner ensures HandleOk(s', h) {
      FillHandle(s, c, h);
    }
    forall k | k in s'.entries ensures KeyOk(s', k) {
      assert KeyOk(s, k);
      OtherKey(s, s', k);
    }
    forall x | x in s'.calls ensures CallOk(s', x) {
      if x != c {
        FillCall(s, c, x);
      }
    }
  }

  lemma UploadHandle(s: State, c: CallId, h: Handle)
    requires c in s.calls && s.calls[c].Filled? && CallOk(s, c) && HandleOk(s, s.calls[c].handle)
    requires h in s.owner && HandleOk(s, h)
    ensures h in DoUpload(s, c).owner && HandleOk(DoUpload(s, c), h)
  {
  }

  lemma UploadCall(s: State, c: CallId, x: CallId)
    requires c in s.calls && s.calls[c].Filled? && CallOk(s, c) && HandleOk(s, s.calls[c].handle)
    requires x in s.calls && x != c && CallOk(s, x)
    ensures CallOk(DoUpload(s, c), x)
  {
    OtherCall(s, DoUpload(s, c), {s.calls[c].handle}, c, x);
  }

  lemma StepUpload(s: State, c: CallId)
    requires Inv(s) && c in s.calls && s.calls[c].Filled?
    ensures Inv(DoUpload(s, c))
  {
    var s' := DoUpload(s, c);
    assert CallOk(s, c) && HandleOk(s, s.calls[c].handle);
    forall h | h in s'.owner ensures HandleOk(s', h) {
      UploadHandle(s, c, h);
    }
    forall k | k in s'.entries ensures KeyOk(s', k) {
      assert KeyOk(s, k);
      OtherKey(s, s', k);
    }
    forall x | x in s'.calls ensures CallOk(s', x) {
      if x != c {
        UploadCall(s, c, x);
      }
    }
  }

  lemma PublishNewHandle(s: State, c: CallId, h: Handle)
    requires c in s.calls && s.calls[c].Uploaded? && s.calls[c].key !in s.entries && CallOk(s, c)
    requires h in s.owner && HandleOk(s, h)
    ensures h in DoPublish(s, c).owner && HandleOk(DoPublish(s, c), h)
  {
  }

  lemma PublishNewCall(s: State, c: CallId, x: CallId)
    requires c in s.calls && s.calls[c].Uploaded? && s.calls[c].key !in s.entries && CallOk(s, c)
    requires x in s.calls && x != c && CallOk(s, x)
    ensures CallOk(DoPublish(s, c), x)
  {
    OtherCall(s, DoPublish(s, c), {s.calls[c].handle}, c, x);
  }

  lemma StepPublishNew(s: State, c: CallId)
    requires Inv(s) && c in s.calls && s.calls[c].Uploaded? && s.calls[c].key !in s.entries
    ensures Inv(DoPublish(s, c))
  {
    var s' := DoPublish(s, c);
    assert CallOk(s, c);
    forall h | h in s'.owner ensures HandleOk(s', h) {
      PublishNewHandle(s, c, h);
    }
    forall k | k in s'.entries ensures KeyOk(s', k) {
      if k != s.calls[c].key {
        assert KeyOk(s, k);
        OtherKey(s, s', k);
      }
    }
    forall x | x in s'.calls ensures CallOk(s', x) {
      if x != c {
        PublishNewCall(s, c, x);
      }
    }
  }

  lemma PublishOverHandle(s: State, c: CallId, h: Handle)
    requires Inv(s) && c in s.calls && s.calls[c].Uploaded? && s.calls[c].key in s.entries && h in s.owner
    ensures h in DoPublish(s, c).owner && HandleOk(DoPublish(s, c), h)
  {
    assert CallOk(s, c) && KeyOk(s, s.calls[c].key) && HandleOk(s, h);
  }

  lemma PublishOverKey(s: State, c: CallId, k: Key)
    requires Inv(s) && c in s.calls && s.calls[c].Uploaded? && s.calls[c].key in s.entries && k in s.entries
    ensures k in DoPublish(s, c).entries && KeyOk(DoPublish(s, c), k)
  {
    assert CallOk(s, c) && KeyOk(s, s.calls[c].key) && KeyOk(s, k);
  }

  lemma PublishOverCall(s: State, c: CallId, x: CallId)
    requires c in s.calls && s.calls[c].Uploaded? && s.calls[c].key in s.entries && x in s.calls
    requires CallOk(s, c) && KeyOk(s, s.calls[c].key) && CallOk(s, x)
    ensures x in DoPublish(s, c).calls && CallOk(DoPublish(s, c), x)
  {
    var p := s.calls[c];
    var former := s.entries[p.key].handle;
    if x != c {
      PublishOverLeaves(s, c, former);
      OtherCall(s, DoPublish(s, c), {p.handle, former}, c, x);
    }
  }

  lemma PublishOverLeaves(s: State, c: CallId, former: Handle)
    requires c in s.calls && s.calls[c].Uploaded? && s.calls[c].key in s.entries
    requires former == s.entries[s.calls[c].key].handle
    ensures Leaves(s, DoPublish(s, c), {s.calls[c].handle, former}, c)
  {
  }

  lemma StepPublishOver(s: State, c: CallId)
    requires Inv(s) && c in s.calls && s.calls[c].Uploaded? && s.calls[c].key in s.entries
    ensures Inv(DoPublish(s, c))
  {
    var s' := DoPublish(s, c);
    assert CallOk(s, c) && KeyOk(s, s.calls[c].key);
    forall h | h in s'.owner ensures HandleOk(s', h) {
      PublishOverHandle(s, c, h);
    }
    forall k | k in s'.entries ensures KeyOk(s', k) {
      PublishOverKey(s, c, k);
    }
    forall x | x in s'.calls ensures CallOk(s', x) {
      assert CallOk(s, x);
      PublishOverCall(s, c, x);
    }
  }

  lemma RemoveHandle(s: State, c: CallId, key: Key, h: Handle)
    requires Inv(s) && c !in s.calls && key in s.entries && h in s.owner
    ensures h in DoRemove(s, c, key).owner && HandleOk(DoRemove(s, c, key), h)
  {
    assert KeyOk(s, key) && HandleOk(s, h);
  }

  lemma RemoveKey(s: State, c: CallId, key: Key, k: Key)
    requires Inv(s) && c !in s.calls && key in s.entries && k in s.entries && k != key
    ensures KeyOk(DoRemove(s, c, key), k)
  {
    assert KeyOk(s, key) && KeyOk(s, k);
  }

  lemma RemoveCall(s: State, c: CallId, key: Key, x: CallId)
    requires c !in s.calls && key in s.entries && KeyOk(s, key) && x in s.calls && CallOk(s, x)
    ensures CallOk(DoRemove(s, c, key), x)
  {
    OtherCall(s, DoRemove(s, c, key), {s.entries[key].handle}, c, x);
  }

  lemma StepRemove(s: State, c: CallId, key: Key)
    requires Inv(s) && c !in s.calls && key in s.entries
    ensures Inv(DoRemove(s, c, key))
  {
    var s' := DoRemove(s, c, key);
    assert KeyOk(s, key);
    forall h | h in s'.owner ensures HandleOk(s', h) {
      RemoveHandle(s, c, key, h);
    }
    forall k | k in s'.entries ensures KeyOk(s', k) {
      RemoveKey(s, c, key, k);
    }
    forall x | x in s'.calls ensures CallOk(s', x) {
      if x != c {
        assert CallOk(s, x);
        RemoveCall(s, c, key, x);
      }
    }
  }

  lemma StepMiss(s: State, c: CallId)
    requires Inv(s) && c !in s.calls
    ensures Inv(s.(calls := s.calls[c := Ended]))
  {
    var s' := s.(calls := s.calls[c := Ended]);
    forall h | h in s'.owner ensures HandleOk(s', h) {
      assert HandleOk(s, h);
    }
    forall k | k in s'.entries ensures KeyOk(s', k) {
      assert KeyOk(s, k);
    }
    forall x | x in s'.calls ensures CallOk(s', x) {
      if x != c {
        assert CallOk(s, x);
        OtherCall(s, s', {}, c, x);
      }
    }
  }

  lemma ClearLeaves(s: State, c: CallId, indexed: set<Handle>, x: CallId)
    requires c !in s.calls && indexed == (set h | h in s.owner && s.owner[h].Indexed?)
    ensures Leaves(s, DoClear(s, c), indexed, c)
    ensures forall h :: h in indexed ==> Yields(s, DoClear(s, c), h, x)
  {
  }

  lemma ClearOwn(s: State, c: CallId)
    requires forall k :: k in s.entries ==> KeyOk(s, k)
    ensures CallOk(DoClear(s, c), c)
  {
    var s' := DoClear(s, c);
    forall h | h in HandlesOf(s.entries) ensures h in s'.owner && s'.owner[h] == Dying(c) {
      var k :| k in s.entries && s.entries[k].handle == h;
      assert KeyOk(s, k);
    }
  }

  lemma ClearHandle(s: State, c: CallId, h: Handle)
    requires c !in s.calls && h in s.owner && HandleOk(s, h)
    ensures HandleOk(DoClear(s, c), h)
  {
    if s.owner[h].Indexed? {
      assert h in HandlesOf(s.entries);
    }
  }

  lemma StepClear(s: State, c: CallId)
    requires Inv(s) && c !in s.calls
    ensures Inv(DoClear(s, c))
  {
    var s' := DoClear(s, c);
    var indexed := set h | h in s.owner && s.owner[h].Indexed?;
    forall h | h in s'.owner ensures HandleOk(s', h) {
      ClearHandle(s, c, h);
    }
    forall x | x in s'.calls ensures CallOk(s', x) {
      if x != c {
        assert CallOk(s, x);
        ClearLeaves(s, c, indexed, x);
        OtherCall(s, s', indexed, c, x);
      } else {
        ClearOwn(s, c);
      }
    }
  }

  lemma FreeHandle(s: State, c: CallId, f: Handle, h: Handle)
    requires c in s.calls && s.calls[c].Freeing? && f in s.calls[c].handles && CallOk(s, c)
    requires h in s.owner && HandleOk(s, h)
    ensures h in DoFree(s, c, f).owner && HandleOk(DoFree(s, c, f), h)
  {
    assert s.owner[f] == Dying(c);
  }

  lemma FreeCall(s: State, c: CallId, f: Handle, x: CallId)
    requires c in s.calls && s.calls[c].Freeing? && f in s.calls[c].handles && CallOk(s, c)
    requires x in s.calls && CallOk(s, x)
    ensures x in DoFree(s, c, f).calls && CallOk(DoFree(s, c, f), x)
  {
    assert s.owner[f] == Dying(c);
    if x != c {
      OtherCall(s, DoFree(s, c, f), {f}, c, x);
    }
  }

  lemma StepFree(s: State, c: CallId, f: Handle)
    requires Inv(s) && c in s.calls && s.calls[c].Freeing? && f in s.calls[c].handles
    ensures Inv(DoFree(s, c, f))
  {
    var s' := DoFree(s, c, f);
    assert CallOk(s, c) && s.owner[f] == Dying(c);
    forall h | h in s'.owner ensures HandleOk(s', h) {
      FreeHandle(s, c, f, h);
    }
    forall k | k in s'.entries ensures KeyOk(s', k) {
      assert KeyOk(s, k);
      OtherKey(s, s', k);
    }
    forall x | x in s'.calls ensures CallOk(s', x) {
      FreeCall(s, c, f, x);
    }
  }

  lemma StepLookup(s: State, c: CallId, key: Key)
    requires Inv(s) && c !in s.calls && key in s.entries
    ensures Inv(DoLookup(s, c, key))
  {
    var s' := DoLookup(s, c, key);
    assert KeyOk(s, key);
    forall h | h in s'.owner ensures HandleOk(s', h) {
      assert HandleOk(s, h);
    }
    forall k | k in s'.entries ensures KeyOk(s', k) {
      assert KeyOk(s, k);
    }
    forall x | x in s'.calls ensures CallOk(s', x) {
      if x != c {
        assert CallOk(s, x);
        OtherCall(s, s', {}, c, x);
      }
    }
  }

  lemma StepDownload(s: State, c: CallId)
    requires Inv(s) && c in s.calls && s.calls[c].Holding?
    ensures Inv(DoDownload(s, c))
  {
    var s' := DoDownload(s, c);
    assert CallOk(s, c);
    forall h | h in s'.owner ensures HandleOk(s', h) {
      assert HandleOk(s, h);
    }
    forall k | k in s'.entries ensures KeyOk(s', k) {
      assert KeyOk(s, k);
    }
    forall x | x in s'.calls ensures CallOk(s', x) {
      if x != c {
        assert CallOk(s, x);
        OtherCall(s, s', {}, c, x);
      }
    }
  }

  lemma InvStep(s: State, a: Action)
    requires Inv(s) && Enabled(s, a)
    ensures Inv(Next(s, a))
  {
    match a
    case Draw(c, key, bytes, expiresAt, pinned) => StepDraw(s, c, key, bytes, expiresAt, pinned);
    case Fill(c) => StepFill(s, c);
    case Upload(c) => StepUpload(s, c);
    case Publish(c) => if s.calls[c].key in s.entries { StepPublishOver(s, c); } else { StepPublishNew(s, c); }
    case Remove(c, key) => if key in s.entries { StepRemove(s, c, key); } else { StepMiss(s, c); }
    case Clear(c) => StepClear(s, c);
    case Free(c, h) => StepFree(s, c, h);
    case Lookup(c, key) => if key in s.entries { StepLookup(s, c, key); } else { StepMiss(s, c); }
    case Download(c) => StepDownload(s, c);
  }

  // ----- runs -----

  function Exec(actions: seq<Action>): Option<State> {
    if actions == [] then Some(Init())
    else match Exec(actions[..|actions| - 1])
      case None => None
      case Some(s) => if Enabled(s, actions[|actions| - 1]) then Some(Next(s, actions[|actions| - 1])) else None
  }

  lemma {:induction false} RunInv(actions: seq<Action>)
    requires Exec(actions).Some?
    ensures Inv(Exec(actions).value)
  {
    if actions == [] {
      InitInv();
    } else {
      RunInv(actions[..|actions| - 1]);
      InvStep(Exec(actions[..|actions| - 1]).value, actions[|actions| - 1]);
    }
  }

  // ----- what the protocol guarantees -----

  // A call in progress that is responsible for a buffer: a put before it publishes, or anyone yet to free one.
  ghost predicate HeldBy(s: State, c: CallId, h: Handle) {
    && c in s.calls
    && match s.calls[c]
       case Filled(_, _, _, _, f) => f == h
       case Uploaded(_, _, _, _, f) => f == h
       case Freeing(hs) => h in hs
       case _ => false
  }

  // The live buffers are exactly the indexed ones and the held ones, and nobody shares responsibility.
  lemma LiveBuffers(s: State, h: Handle)
    requires Inv(s)
    ensures h in s.buffers <==>
            (exists k :: k in s.entries && s.entries[k].handle == h) || (exists c :: HeldBy(s, c, h))
    ensures (exists k :: k in s.entries && s.entries[k].handle == h) ==> !exists c :: HeldBy(s, c, h)
    ensures forall c, d :: HeldBy(s, c, h) && HeldBy(s, d, h) ==> c == d
    ensures forall k, l :: k in s.entries && l in s.entries && s.entries[k].handle == h && s.entries[l].handle == h ==>
            k == l
  {
    if h in s.buffers {
      assert HandleOk(s, h);
      if s.owner[h].Private? || s.owner[h].Dying? {
        assert HeldBy(s, s.owner[h].c, h);
      }
    }
    forall c | HeldBy(s, c, h)
      ensures h in s.owner && (s.owner[h] == Private(c) || s.owner[h] == Dying(c)) && h in s.buffers
    {
      HolderOwns(s, c, h);
    }
    forall k | k in s.entries && s.entries[k].handle == h
      ensures h in s.owner && s.owner[h] == Indexed(k) && h in s.buffers
    {
      assert KeyOk(s, k);
    }
  }

  lemma HolderOwns(s: State, c: CallId, h: Handle)
    requires Inv(s) && HeldBy(s, c, h)
    ensures h in s.owner && (s.owner[h] == Private(c) || s.owner[h] == Dying(c)) && h in s.buffers
  {
    assert CallOk(s, c);
    assert HandleOk(s, h);
  }

  // Nothing leaks: once no call holds a buffer, the buffers are the indexed ones.
  lemma QuietMeansNoLeak(actions: seq<Action>)
    requires Exec(actions).Some?
    requires forall c, h :: !HeldBy(Exec(actions).value, c, h)
    ensures Exec(actions).value.buffers.Keys == HandlesOf(Exec(actions).value.entries)
  {
    var s := Exec(actions).value;
    RunInv(actions);
    forall h: Handle ensures h in s.buffers <==> h in HandlesOf(s.entries) {
      LiveBuffers(s, h);
    }
  }

  // Was the handle freed by some step of the run?
  ghost predicate FreesAt(actions: seq<Action>, i: nat, h: Handle) {
    i < |actions| && actions[i].Free? && actions[i].handle == h
  }

  // A drawn handle is never drawn again, and a freed one stays freed.
  lemma OwnerForward(s: State, a: Action, h: Handle)
    requires Inv(s) && Enabled(s, a) && h in s.owner
    ensures h in Next(s, a).owner && Next(s, a).next >= s.next
    ensures s.owner[h].Freed? ==> Next(s, a).owner[h].Freed?
    ensures a.Draw? ==> a.c in Next(s, a).calls && Next(s, a).calls[a.c].handle !in s.owner
  {
    match a
    case Fill(c) => assert CallOk(s, c);
    case Upload(c) => assert CallOk(s, c); assert HandleOk(s, s.calls[c].handle);
    case Publish(c) =>
      assert CallOk(s, c);
      if s.calls[c].key in s.entries {
        assert KeyOk(s, s.calls[c].key);
      }
    case Remove(c, key) =>
      if key in s.entries {
        assert KeyOk(s, key);
      }
    case _ =>
  }

  // A freeing step removes a buffer that is there, and only that one.
  lemma FreeHits(s: State, c: CallId, h: Handle)
    requires Inv(s) && Enabled(s, Free(c, h))
    ensures h in s.buffers && Next(s, Free(c, h)).buffers == s.buffers - {h} && h in s.owner && s.owner[h] == Dying(c)
    ensures forall k :: k in s.entries ==> s.entries[k].handle != h
  {
    assert CallOk(s, c) && HandleOk(s, h);
    forall k | k in s.entries ensures s.entries[k].handle != h {
      assert KeyOk(s, k);
    }
  }

  lemma {:induction false} FreedStays(actions: seq<Action>, i: nat, h: Handle)
    requires Exec(actions).Some? && FreesAt(actions, i, h)
    ensures h in Exec(actions).value.owner && Exec(actions).value.owner[h] == Freed
  {
    var n := |actions| - 1;
    var before := actions[..n];
    RunInv(before);
    if i < n {
      FreedStays(before, i, h);
      OwnerForward(Exec(before).value, actions[n], h);
    }
  }

  // No buffer is freed twice in any interleaving.
  lemma {:induction false} FreedOnce(actions: seq<Action>, i: nat, j: nat, h: Handle)
    requires Exec(actions).Some? && FreesAt(actions, i, h) && FreesAt(actions, j, h)
    ensures i == j
  {
    if i > j {
      FreedOnce(actions, j, i, h);
    } else if i < j {
      var before := actions[..j];
      PrefixRuns(actions, j + 1);
      assert actions[..j + 1][..j] == before;
      FreedStays(before, i, h);
      RunInv(before);
      FreeHits(Exec(before).value, actions[j].c, h);
    }
  }

  lemma {:induction false} PrefixRuns(actions: seq<Action>, n: nat)
    requires Exec(actions).Some? && n <= |actions|
    ensures Exec(actions[..n]).Some?
    decreases |actions| - n
  {
    if n < |actions| {
      PrefixRuns(actions, n + 1);
      assert actions[..n + 1][..n] == actions[..n];
    } else {
      assert actions[..n] == actions;
    }
  }

  // An upload always finds its buffer, so a put of a non-empty block never fails half way.
  lemma UploadFinds(s: State, c: CallId)
    requires Inv(s) && Enabled(s, Upload(c))
    ensures Next(s, Upload(c)).calls[c].Uploaded?
  {
    assert CallOk(s, c) && HandleOk(s, s.calls[c].handle);
  }

  // What the tier holds for a key.
  datatype Stored = Stored(bytes: Bytes, expiresAt: u64, pinned: bool)

  function Contents(s: State, key: Key): Option<Stored> {
    if Current(s, key).None? then None
    else Some(Stored(Current(s, key).value, s.entries[key].expiresAt, s.entries[key].pinned))
  }

  // That changes at three kinds of step only, and at each of them at once, bytes, expiry and pin together.
  lemma ContentsChange(s: State, a: Action, key: Key)
    requires Inv(s) && Enabled(s, a)
    ensures Contents(Next(s, a), key) ==
      match a
      case Publish(c) =>
        if s.calls[c].key == key then Some(Stored(s.calls[c].bytes, s.calls[c].expiresAt, s.calls[c].pinned))
        else Contents(s, key)
      case Remove(_, k) => if k == key then None else Contents(s, key)
      case Clear(_) => None
      case _ => Contents(s, key)
  {
    if key in s.entries {
      assert KeyOk(s, key);
    }
    match a
    case Fill(c) => assert CallOk(s, c); assert HandleOk(s, s.calls[c].handle); CurrentKept(s, DoFill(s, c), key);
    case Upload(c) => assert CallOk(s, c); assert HandleOk(s, s.calls[c].handle); CurrentKept(s, DoUpload(s, c), key);
    case Publish(c) => assert CallOk(s, c); PublishContents(s, c, key);
    case Free(c, h) => FreeHits(s, c, h); CurrentKept(s, DoFree(s, c, h), key);
    case _ =>
  }

  lemma CurrentKept(s: State, s': State, key: Key)
    requires s'.entries == s.entries
    requires key in s.entries ==>
      var h := s.entries[key].handle;
          (h in s'.buffers <==> h in s.buffers) && (h in s.buffers ==> s'.buffers[h] == s.buffers[h])
    ensures Contents(s', key) == Contents(s, key)
  {
  }

  lemma PublishContents(s: State, c: CallId, key: Key)
    requires c in s.calls && s.calls[c].Uploaded? && CallOk(s, c)
    ensures Contents(DoPublish(s, c), key) ==
      if s.calls[c].key == key then Some(Stored(s.calls[c].bytes, s.calls[c].expiresAt, s.calls[c].pinned))
      else Contents(s, key)
  {
  }

  // The step of a run at which call `c` looked `key` up.
  ghost predicate LooksUp(actions: seq<Action>, i: nat, c: CallId, key: Key) {
    i < |actions| && actions[i] == Lookup(c, key)
  }

  // The key's entry and its bytes in one state.
  ghost predicate HeldNow(s: State, key: Key, entry: Entry, bytes: Bytes) {
    key in s.entries && s.entries[key] == entry && Current(s, key) == Some(bytes)
  }

  ghost predicate SawAt(actions: seq<Action>, i: nat, c: CallId, key: Key, entry: Entry, bytes: Bytes) {
    && LooksUp(actions, i, c, key) && Exec(actions[..i]).Some?
    && HeldNow(Exec(actions[..i]).value, key, entry, bytes)
  }

  // What a get returns, its bytes, its expiry and its pin, is what its key held at the get's own lookup step, all of it
  // at that one step, whatever the other calls did between the lookup and the download.
  lemma {:induction false} GetIsAtomic(actions: seq<Action>, c: CallId)
    requires Exec(actions).Some? && c in Exec(actions).value.calls && Exec(actions).value.calls[c].Got?
    ensures var got := Exec(actions).value.calls[c];
      exists i: nat :: SawAt(actions, i, c, got.key, got.entry, got.bytes)
  {
    RunInv(actions);
    assert CallOk(Exec(actions).value, c);
    LookupSeen(actions, c);
  }

  predicate AfterLookup(pc: Pc) { pc.Got? || pc.Holding? }

  lemma {:induction false} LookupSeen(actions: seq<Action>, c: CallId)
    requires Exec(actions).Some? && c in Exec(actions).value.calls && AfterLookup(Exec(actions).value.calls[c])
    ensures var p := Exec(actions).value.calls[c]; exists i: nat :: SawAt(actions, i, c, p.key, p.entry, p.seen)
  {
    var n := |actions| - 1;
    var before := actions[..n];
    var p := Exec(actions).value.calls[c];
    RunInv(before);
    SeenSince(Exec(before).value, actions[n], c);
    if actions[n] == Lookup(c, p.key) {
      assert SawAt(actions, n, c, p.key, p.entry, p.seen);
    } else {
      LookupSeen(before, c);
      var i: nat :| SawAt(before, i, c, p.key, p.entry, p.seen);
      assert before[..i] == actions[..i];
      assert SawAt(actions, i, c, p.key, p.entry, p.seen);
    }
  }

  // A get comes to hold an entry by its own lookup and carries what it saw from there.
  lemma SeenSince(s: State, a: Action, c: CallId)
    requires Inv(s) && Enabled(s, a) && c in Next(s, a).calls && AfterLookup(Next(s, a).calls[c])
    ensures var p := Next(s, a).calls[c];
      if a == Lookup(c, p.key) then HeldNow(s, p.key, p.entry, p.seen)
      else c in s.calls && AfterLookup(s.calls[c]) && SameLookup(s.calls[c], p)
  {
    var p := Next(s, a).calls[c];
    if a == Lookup(c, p.key) {
      assert KeyOk(s, p.key);
    } else {
      SeenKept(s, a, c);
    }
  }

  predicate SameLookup(p: Pc, q: Pc)
    requires AfterLookup(p) && AfterLookup(q)
  {
    p.key == q.key && p.entry == q.entry && p.seen == q.seen
  }

  lemma SeenKept(s: State, a: Action, c: CallId)
    requires Enabled(s, a) && c in Next(s, a).calls && AfterLookup(Next(s, a).calls[c])
    requires a != Lookup(c, Next(s, a).calls[c].key)
    ensures c in s.calls && AfterLookup(s.calls[c]) && SameLookup(s.calls[c], Next(s, a).calls[c])
  {
  }

  // A get misses exactly if its key holds nothing at its lookup.
  lemma {:induction false} MissesIffEmpty(actions: seq<Action>, c: CallId, key: Key)
    requires Exec(actions).Some? && Enabled(Exec(actions).value, Lookup(c, key))
    ensures var s := Exec(actions).value;
      Next(s, Lookup(c, key)).calls[c].Ended? <==> Contents(s, key).None?
  {
    RunInv(actions);
    var s := Exec(actions).value;
    assert key in s.entries ==> KeyOk(s, key);
  }

  // ----- when a get fails -----

  // A step that replaces or removes the key's entry.
  predicate Hits(s: State, a: Action, key: Key)
    requires Enabled(s, a)
  {
    match a
    case Publish(c) => s.calls[c].key == key
    case Remove(_, k) => k == key
    case Clear(_) => true
    case _ => false
  }

  ghost predicate HitAt(actions: seq<Action>, j: nat, key: Key) {
    && j < |actions| && Exec(actions[..j]).Some? && Enabled(Exec(actions[..j]).value, actions[j])
    && Hits(Exec(actions[..j]).value, actions[j], key)
  }

  // The key was hit after step i of the run.
  ghost predicate HitSince(actions: seq<Action>, i: nat, key: Key) {
    exists j: nat :: i < j && HitAt(actions, j, key)
  }

  lemma EntryKept(s: State, a: Action, key: Key)
    requires Enabled(s, a) && !Hits(s, a, key)
    ensures key in Next(s, a).entries <==> key in s.entries
    ensures key in s.entries ==> Next(s, a).entries[key] == s.entries[key]
  {
  }

  lemma HitLonger(actions: seq<Action>, a: Action, i: nat, key: Key)
    requires HitSince(actions, i, key)
    ensures HitSince(actions + [a], i, key)
  {
    var j: nat :| i < j && HitAt(actions, j, key);
    assert (actions + [a])[..j] == actions[..j];
    assert HitAt(actions + [a], j, key);
  }

  // While a get holds an entry, that is still the key's, or the key was hit since the lookup.
  lemma {:induction false} HeldOrHit(actions: seq<Action>, c: CallId)
    requires Exec(actions).Some? && c in Exec(actions).value.calls && Exec(actions).value.calls[c].Holding?
    ensures var s := Exec(actions).value; var p := s.calls[c];
      exists i: nat :: LooksUp(actions, i, c, p.key)
                       && (HitSince(actions, i, p.key) || (p.key in s.entries && s.entries[p.key] == p.entry))
  {
    var n := |actions| - 1;
    var before, a := actions[..n], actions[n];
    var s, p := Exec(before).value, Exec(actions).value.calls[c];
    assert actions == before + [a];
    RunInv(before);
    if a == Lookup(c, p.key) {
      assert LooksUp(actions, n, c, p.key);
    } else {
      SeenKept(s, a, c);
      HeldOrHit(before, c);
      var i: nat :| LooksUp(before, i, c, p.key)
                    && (HitSince(before, i, p.key) || (p.key in s.entries && s.entries[p.key] == p.entry));
      assert LooksUp(actions, i, c, p.key);
      if HitSince(before, i, p.key) {
        HitLonger(before, a, i, p.key);
      } else if Hits(s, a, p.key) {
        assert HitAt(actions, n, p.key);
      } else {
        EntryKept(s, a, p.key);
      }
    }
  }

  // A get that found an entry fails only if its key was published, removed or cleared since its lookup.
  lemma {:induction false} FailureMeansHit(actions: seq<Action>, c: CallId)
    requires Exec(actions).Some? && Enabled(Exec(actions).value, Download(c))
    requires Next(Exec(actions).value, Download(c)).calls[c].Ended?
    ensures var key := Exec(actions).value.calls[c].key;
      exists i: nat :: LooksUp(actions, i, c, key) && HitSince(actions, i, key)
  {
    var s := Exec(actions).value;
    var p := s.calls[c];
    RunInv(actions);
    HeldOrHit(actions, c);
    assert p.key in s.entries && s.entries[p.key] == p.entry ==> KeyOk(s, p.key);
  }

  // ----- where what a key holds comes from -----

  predicate Putting(pc: Pc) { pc.Reserved? || pc.Filled? || pc.Uploaded? }

  // A put carries what it was called with from step to step.
  lemma PutKeeps(s: State, a: Action, c: CallId)
    requires Enabled(s, a) && c in Next(s, a).calls && Putting(Next(s, a).calls[c])
    ensures var p := Next(s, a).calls[c];
      || a == Draw(c, p.key, p.bytes, p.expiresAt, p.pinned)
      || (&& c in s.calls && Putting(s.calls[c]) && s.calls[c].key == p.key && s.calls[c].bytes == p.bytes
          && s.calls[c].expiresAt == p.expiresAt && s.calls[c].pinned == p.pinned)
  {
  }

  lemma {:induction false} PutWasCalled(actions: seq<Action>, c: CallId) returns (i: nat)
    requires Exec(actions).Some? && c in Exec(actions).value.calls && Putting(Exec(actions).value.calls[c])
    ensures var p := Exec(actions).value.calls[c];
      i < |actions| && actions[i] == Draw(c, p.key, p.bytes, p.expiresAt, p.pinned)
  {
    var n := |actions| - 1;
    var p := Exec(actions).value.calls[c];
    PutKeeps(Exec(actions[..n]).value, actions[n], c);
    if actions[n] == Draw(c, p.key, p.bytes, p.expiresAt, p.pinned) {
      i := n;
    } else {
      i := PutWasCalled(actions[..n], c);
    }
  }

  // Call c was a put of that content under that key, published at step j, and nothing has hit the key since.
  ghost predicate LastPut(actions: seq<Action>, key: Key, content: Stored, c: CallId, i: nat, j: nat) {
    && i < j < |actions| && actions[i] == Draw(c, key, content.bytes, content.expiresAt, content.pinned)
    && actions[j] == Publish(c) && !HitSince(actions, j, key)
  }

  // In every run, what a key holds is what the last put to publish it was called with: bytes, expiry and pin.
  lemma {:induction false} HoldsLastPut(actions: seq<Action>, key: Key) returns (c: CallId, i: nat, j: nat)
    requires Exec(actions).Some? && Contents(Exec(actions).value, key).Some?
    ensures LastPut(actions, key, Contents(Exec(actions).value, key).value, c, i, j)
  {
    var n := |actions| - 1;
    var before, a := actions[..n], actions[n];
    var s := Exec(before).value;
    assert actions == before + [a] && Exec(actions) == Some(Next(s, a));
    RunInv(before);
    ContentsAfter(s, a, key);
    if Hits(s, a, key) {
      c, j := a.c, n;
      i := PutWasCalled(before, c);
    } else {
      c, i, j := HoldsLastPut(before, key);
      NoNewHit(before, a, j, key);
    }
  }

  // A key that holds something after a step held it before, or the step was the publishing of it.
  lemma ContentsAfter(s: State, a: Action, key: Key)
    requires Inv(s) && Enabled(s, a) && Contents(Next(s, a), key).Some?
    ensures if Hits(s, a, key) then
        && a.Publish? && s.calls[a.c].key == key
        && Contents(Next(s, a), key).value
           == Stored(s.calls[a.c].bytes, s.calls[a.c].expiresAt, s.calls[a.c].pinned)
      else Contents(Next(s, a), key) == Contents(s, key)
  {
    ContentsChange(s, a, key);
  }

  lemma NoNewHit(actions: seq<Action>, a: Action, j: nat, key: Key)
    requires Exec(actions).Some? && Enabled(Exec(actions).value, a) && !Hits(Exec(actions).value, a, key)
    requires !HitSince(actions, j, key)
    ensures !HitSince(actions + [a], j, key)
  {
    var all := actions + [a];
    forall k: nat | j < k ensures !HitAt(all, k, key) {
      if k < |actions| {
        assert all[..k] == actions[..k] && !HitAt(actions, k, key);
      } else if k == |actions| {
        assert all[..k] == actions;
      }
    }
  }

  // A get returns exactly what the last put that had published its key was called with, as of the get's own lookup,
  // whatever the other calls did before or after.
  lemma {:induction false} GetReturnsLastPut(actions: seq<Action>, c: CallId)
    returns (looked: nat, put: CallId, i: nat, j: nat)
    requires Exec(actions).Some? && c in Exec(actions).value.calls && Exec(actions).value.calls[c].Got?
    ensures var got := Exec(actions).value.calls[c];
      && LooksUp(actions, looked, c, got.key)
      && LastPut(actions[..looked], got.key, Stored(got.bytes, got.entry.expiresAt, got.entry.pinned), put, i, j)
  {
    GetIsAtomic(actions, c);
    var got := Exec(actions).value.calls[c];
    looked :| SawAt(actions, looked, c, got.key, got.entry, got.bytes);
    put, i, j := HoldsLastPut(actions[..looked], got.key);
  }

  function PutGet(key: Key, bytes: Bytes, expiresAt: u64, pinned: bool): seq<Action> {
    [Draw(1, key, bytes, expiresAt, pinned), Fill(1), Upload(1), Publish(1), Lookup(2, key), Download(2)]
  }

  // Such runs exist: a put of any non-empty block, undisturbed, is what a get then returns.
  lemma PutThenGet(key: Key, bytes: Bytes, expiresAt: u64, pinned: bool)
    requires bytes != []
    ensures var run := PutGet(key, bytes, expiresAt, pinned);
      && Exec(run).Some? && 2 in Exec(run).value.calls
      && Exec(run).value.calls[2] == Got(key, Entry(1, |bytes|, expiresAt, pinned), bytes, bytes)
  {
    var run := PutGet(key, bytes, expiresAt, pinned);
    assert run[..1] == [] + [run[0]] && run[..2] == run[..1] + [run[1]] && run[..3] == run[..2] + [run[2]];
    assert run[..4] == run[..3] + [run[3]] && run[..5] == run[..4] + [run[4]] && run == run[..5] + [run[5]];
    Extend([], run[0]);
    Extend(run[..1], run[1]);
    Extend(run[..2], run[2]);
    Extend(run[..3], run[3]);
    Extend(run[..4], run[4]);
    Extend(run[..5], run[5]);
  }

  lemma Extend(actions: seq<Action>, a: Action)
    requires Exec(actions).Some? && Enabled(Exec(actions).value, a)
    ensures Exec(actions + [a]) == Some(Next(Exec(actions).value, a))
  {
    assert (actions + [a])[..|actions|] == actions;
  }

  // ----- every call ends -----

  // How many steps of its own a call may still take.
  function Rank(pc: Pc): nat {
    match pc
    case Reserved(_, _, _, _, _) => 4
    case Filled(_, _, _, _, _) => 3
    case Uploaded(_, _, _, _, _) => 2
    case Freeing(handles) => |handles|
    case Holding(_, _, _) => 1
    case _ => 0
  }

  // The next step of a call that has begun.
  ghost predicate StepOf(a: Action, c: CallId) {
    a == Fill(c) || a == Upload(c) || a == Publish(c) || a == Download(c) || (a.Free? && a.c == c)
  }

  // A new call can begin in any state.
  lemma CanBegin(s: State, c: CallId, key: Key, bytes: Bytes, expiresAt: u64, pinned: bool)
    requires c !in s.calls
    ensures Enabled(s, Remove(c, key)) && Enabled(s, Clear(c)) && Enabled(s, Lookup(c, key))
    ensures Enabled(s, Draw(c, key, bytes, expiresAt, pinned)) <==> bytes != [] && s.next < U64_MAX
  {
  }

  // In every run a call that has not ended can take a step, and each of its steps brings it nearer to its end.
  lemma {:induction false} CallsEnd(actions: seq<Action>, c: CallId)
    requires Exec(actions).Some? && c in Exec(actions).value.calls
    ensures var s := Exec(actions).value;
      && (Rank(s.calls[c]) > 0 ==> exists a :: StepOf(a, c) && Enabled(s, a))
      && forall a :: StepOf(a, c) && Enabled(s, a) ==> Rank(Next(s, a).calls[c]) < Rank(s.calls[c])
  {
    RunInv(actions);
    var s := Exec(actions).value;
    assert CallOk(s, c);
    if Rank(s.calls[c]) > 0 {
      var a := NextStep(s, c);
    }
    forall a | StepOf(a, c) && Enabled(s, a) ensures Rank(Next(s, a).calls[c]) < Rank(s.calls[c]) {
      RankFalls(s, a, c);
    }
  }

  lemma NextStep(s: State, c: CallId) returns (a: Action)
    requires c in s.calls && CallOk(s, c) && Rank(s.calls[c]) > 0
    ensures StepOf(a, c) && Enabled(s, a)
  {
    match s.calls[c]
    case Reserved(_, _, _, _, _) => a := Fill(c);
    case Filled(_, _, _, _, _) => a := Upload(c);
    case Uploaded(_, _, _, _, _) => a := Publish(c);
    case Freeing(handles) =>
      var h :| h in handles;
      a := Free(c, h);
    case Holding(_, _, _) => a := Download(c);
  }

  lemma RankFalls(s: State, a: Action, c: CallId)
    requires StepOf(a, c) && Enabled(s, a)
    ensures Rank(Next(s, a).calls[c]) < Rank(s.calls[c])
  {
    if a.Free? {
      FreeRank(s.calls[c].handles, a.handle);
    }
  }

  lemma FreeRank(handles: set<Handle>, h: Handle)
    requires h in handles
    ensures Rank(StillToFree(handles - {h})) < |handles|
  {
    assert handles == (handles - {h}) + {h};
  }
}
