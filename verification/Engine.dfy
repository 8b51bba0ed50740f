/**
 The tiered KV engine (src/kv.rs).  Tiers are maps; any tier call may fail, and then has no effect.
 Because every call may fail, each intermediate state of an operation is also one of its final states.
 Operations of one engine run one after another here.  The code holds no lock across tiers, so what a copy
 does to readers when another operation came between its read and its write is CopyInvisibleIff; of a removal,
 DropInvisibleIff.  Reads alone may interleave freely: see InterleavedReads.
 */
module Engine {
  import opened Prelude
  import opened BlockKeys

  datatype Entry = Entry(key: BlockKey, bytes: Bytes, expiresAt: u64, pinned: bool)

  type Tier = map<BlockKey, Entry>

  // ----- what a reader sees -----

  // The tier's entry for the key, unless it is dead at time t.
  function Alive(tier: Tier, key: BlockKey, t: nat): Option<Entry> {
    if key in tier && !IsExpired(tier[key].expiresAt, t) then Some(tier[key]) else None
  }

  function ViewFrom(tiers: seq<Tier>, key: BlockKey, t: nat, i: nat): Option<Entry>
    requires i <= |tiers|
    decreases |tiers| - i
  {
    if i == |tiers| then None
    else if Alive(tiers[i], key, t).Some? then Alive(tiers[i], key, t)
    else ViewFrom(tiers, key, t, i + 1)
  }

  // The first live entry, in tier order.
  function View(tiers: seq<Tier>, key: BlockKey, t: nat): Option<Entry> { ViewFrom(tiers, key, t, 0) }

  ghost predicate SameViews(a: seq<Tier>, b: seq<Tier>, now: nat) {
    forall key, t: nat :: t >= now ==> View(a, key, t) == View(b, key, t)
  }

  ghost predicate WellKeyed(tiers: seq<Tier>) {
    forall i, key :: 0 <= i < |tiers| && key in tiers[i] ==> tiers[i][key].key == key
  }

  lemma {:induction false} ViewDependsOnAlive(a: seq<Tier>, b: seq<Tier>, key: BlockKey, t: nat, i: nat)
    requires |a| == |b| && i <= |a|
    requires forall j :: i <= j < |a| ==> Alive(a[j], key, t) == Alive(b[j], key, t)
    ensures ViewFrom(a, key, t, i) == ViewFrom(b, key, t, i)
    decreases |a| - i
  {
    if i < |a| {
      ViewDependsOnAlive(a, b, key, t, i + 1);
    }
  }

  lemma {:induction false} ViewIs(tiers: seq<Tier>, key: BlockKey, t: nat, i: nat, s: nat, e: Entry)
    requires i <= s < |tiers| && Alive(tiers[s], key, t) == Some(e)
    requires forall j :: i <= j < s ==> Alive(tiers[j], key, t) in {None, Some(e)}
    ensures ViewFrom(tiers, key, t, i) == Some(e)
    decreases s - i
  {
    if Alive(tiers[i], key, t) == None {
      ViewIs(tiers, key, t, i + 1, s, e);
    }
  }

  lemma {:induction false} ViewIsNone(tiers: seq<Tier>, key: BlockKey, t: nat, i: nat)
    requires i <= |tiers| && forall j :: i <= j < |tiers| ==> Alive(tiers[j], key, t) == None
    ensures ViewFrom(tiers, key, t, i) == None
    decreases |tiers| - i
  {
    if i < |tiers| {
      ViewIsNone(tiers, key, t, i + 1);
    }
  }

  // Dropping an entry that is dead by now is invisible from now on.
  lemma DropInvisible(tiers: seq<Tier>, i: nat, key: BlockKey, now: nat)
    requires i < |tiers| && key in tiers[i] && IsExpired(tiers[i][key].expiresAt, now)
    ensures SameViews(tiers, tiers[i := tiers[i] - {key}], now)
  {
    var after := tiers[i := tiers[i] - {key}];
    forall k, t: nat | t >= now ensures View(tiers, k, t) == View(after, k, t) {
      ViewDependsOnAlive(tiers, after, k, t, 0);
    }
  }

  // The copy in tier s is what a reader sees, except for equal copies and dead entries before it.
  ghost predicate Leads(tiers: seq<Tier>, e: Entry, s: nat, now: nat) {
    && s < |tiers| && e.key in tiers[s] && tiers[s][e.key] == e
    && forall j :: 0 <= j < s && e.key in tiers[j] ==> tiers[j][e.key] == e || IsExpired(tiers[j][e.key].expiresAt, now)
  }

  ghost predicate Vacant(tier: Tier, e: Entry, now: nat) {
    e.key in tier ==> tier[e.key] == e || IsExpired(tier[e.key].expiresAt, now)
  }

  // The one effect of a transfer: the entry is now in tier d.
  function Copied(tiers: seq<Tier>, e: Entry, d: nat): seq<Tier>
    requires d < |tiers|
  {
    tiers[d := tiers[d][e.key := e]]
  }

  // Copying the entry that leads into a tier that holds nothing else alive is invisible from now on.
  lemma CopyInvisible(tiers: seq<Tier>, e: Entry, s: nat, d: nat, now: nat)
    requires Leads(tiers, e, s, now) && d < |tiers| && d != s && Vacant(tiers[d], e, now)
    ensures SameViews(tiers, Copied(tiers, e, d), now)
    ensures Leads(Copied(tiers, e, d), e, s, now)
  {
    var after := Copied(tiers, e, d);
    forall k, t: nat | t >= now ensures View(tiers, k, t) == View(after, k, t) {
      if k == e.key && !IsExpired(e.expiresAt, t) {
        ViewIs(tiers, k, t, 0, s, e);
        ViewIs(after, k, t, 0, s, e);
      } else {
        ViewDependsOnAlive(tiers, after, k, t, 0);
      }
    }
  }

  // ----- exactly when a copy is invisible -----

  // The first moment from now on at which no tier before d has a live entry, if there is one.
  function Exposed(tiers: seq<Tier>, key: BlockKey, d: nat, now: nat): (t: Option<nat>)
    requires d <= |tiers|
    ensures t.Some? ==> t.value >= now
  {
    if d == 0 then Some(now) else
    var before := Exposed(tiers, key, d - 1, now);
    if before.None? || Alive(tiers[d - 1], key, before.value).None? then before
    else if tiers[d - 1][key].expiresAt == 0 then None
    else Some(tiers[d - 1][key].expiresAt)
  }

  lemma {:induction false} ExposedFrom(tiers: seq<Tier>, key: BlockKey, d: nat, now: nat, t: nat)
    requires d <= |tiers| && t >= now
    ensures (Exposed(tiers, key, d, now).Some? && Exposed(tiers, key, d, now).value <= t)
            <==> forall j :: 0 <= j < d ==> Alive(tiers[j], key, t) == None
  {
    if d > 0 {
      ExposedFrom(tiers, key, d - 1, now, t);
    }
  }

  // What a reader who finds nothing before tier d sees once e is in tier d.
  function Through(tiers: seq<Tier>, e: Entry, d: nat, t: nat): Option<Entry>
    requires d < |tiers|
  {
    if IsExpired(e.expiresAt, t) then ViewFrom(tiers, e.key, t, d + 1) else Some(e)
  }

  // If the copy is invisible at one moment, it is invisible from then on to whoever looks from tier d.
  lemma ThroughLater(tiers: seq<Tier>, e: Entry, d: nat, t: nat, u: nat)
    requires d < |tiers| && t <= u && ViewFrom(tiers, e.key, t, d) == Through(tiers, e, d, t)
    ensures ViewFrom(tiers, e.key, u, d) == Through(tiers, e, d, u)
  {
    if !IsExpired(e.expiresAt, t) {
      var s := FirstLive(tiers, e.key, t, d);
      if !IsExpired(e.expiresAt, u) {
        ViewIs(tiers, e.key, u, d, s, e);
      }
    } else if Alive(tiers[d], e.key, u).Some? {
      var s := FirstLive(tiers, e.key, t, d + 1);
      ViewIs(tiers, e.key, u, d + 1, s, tiers[d][e.key]);
    }
  }

  lemma {:induction false} FirstLive(tiers: seq<Tier>, key: BlockKey, t: nat, i: nat) returns (s: nat)
    requires i <= |tiers| && ViewFrom(tiers, key, t, i).Some?
    ensures i <= s < |tiers| && Alive(tiers[s], key, t) == ViewFrom(tiers, key, t, i)
    ensures forall j :: i <= j < s ==> Alive(tiers[j], key, t) == None
    decreases |tiers| - i
  {
    if Alive(tiers[i], key, t).Some? {
      s := i;
    } else {
      s := FirstLive(tiers, key, t, i + 1);
    }
  }

  lemma {:induction false} ViewSkips(tiers: seq<Tier>, key: BlockKey, t: nat, i: nat, d: nat)
    requires i <= d <= |tiers| && forall j :: i <= j < d ==> Alive(tiers[j], key, t) == None
    ensures ViewFrom(tiers, key, t, i) == ViewFrom(tiers, key, t, d)
    decreases d - i
  {
    if i < d {
      ViewSkips(tiers, key, t, i + 1, d);
    }
  }

  lemma {:induction false} ViewStopsBefore(a: seq<Tier>, b: seq<Tier>, key: BlockKey, t: nat, i: nat, d: nat)
    requires |a| == |b| && i <= d <= |a| && forall j :: i <= j < d ==> a[j] == b[j]
    requires exists j :: i <= j < d && Alive(a[j], key, t).Some?
    ensures ViewFrom(a, key, t, i) == ViewFrom(b, key, t, i)
    decreases d - i
  {
    if Alive(a[i], key, t).None? {
      ViewStopsBefore(a, b, key, t, i + 1, d);
    }
  }

  lemma ViewOfCopied(tiers: seq<Tier>, e: Entry, d: nat, t: nat)
    requires d < |tiers|
    ensures View(Copied(tiers, e, d), e.key, t) ==
      if forall j :: 0 <= j < d ==> Alive(tiers[j], e.key, t) == None then Through(tiers, e, d, t)
      else View(tiers, e.key, t)
  {
    var after := Copied(tiers, e, d);
    if forall j :: 0 <= j < d ==> Alive(tiers[j], e.key, t) == None {
      ViewSkips(after, e.key, t, 0, d);
      ViewDependsOnAlive(tiers, after, e.key, t, d + 1);
    } else {
      ViewStopsBefore(tiers, after, e.key, t, 0, d);
    }
  }

  // Whatever is in the tiers when an entry is written into tier d, the write is invisible from now on exactly
  // if tiers before d always hide it, or if it changes nothing at the first moment at which they do not.
  lemma CopyInvisibleIff(tiers: seq<Tier>, e: Entry, d: nat, now: nat)
    requires d < |tiers|
    ensures SameViews(tiers, Copied(tiers, e, d), now) <==>
      var first := Exposed(tiers, e.key, d, now);
      first.Some? ==> ViewFrom(tiers, e.key, first.value, d) == Through(tiers, e, d, first.value)
  {
    var after, first := Copied(tiers, e, d), Exposed(tiers, e.key, d, now);
    forall k, t: nat | t >= now && k != e.key ensures View(tiers, k, t) == View(after, k, t) {
      ViewDependsOnAlive(tiers, after, k, t, 0);
    }
    if first.Some? {
      ExposedFrom(tiers, e.key, d, now, first.value);
      ViewOfCopied(tiers, e, d, first.value);
      ViewSkips(tiers, e.key, first.value, 0, d);
    }
    if first.Some? ==> ViewFrom(tiers, e.key, first.value, d) == Through(tiers, e, d, first.value) {
      forall t: nat | t >= now ensures View(tiers, e.key, t) == View(after, e.key, t) {
        ExposedFrom(tiers, e.key, d, now, t);
        ViewOfCopied(tiers, e, d, t);
        if first.Some? && first.value <= t {
          ViewSkips(tiers, e.key, t, 0, d);
          ThroughLater(tiers, e, d, first.value, t);
        }
      }
    }
  }

  // Whatever is in the tiers when a key is removed from tier d, the removal is invisible from now on exactly if tiers
  // before d always hide it, or if the tiers behind show the same at the first moment at which they do not.
  lemma DropInvisibleIff(tiers: seq<Tier>, d: nat, key: BlockKey, now: nat)
    requires d < |tiers|
    ensures SameViews(tiers, Dropped(tiers, d, key), now) <==>
      var first := Exposed(tiers, key, d, now);
      first.Some? ==> ViewFrom(tiers, key, first.value, d) == ViewFrom(tiers, key, first.value, d + 1)
  {
    var after, first := Dropped(tiers, d, key), Exposed(tiers, key, d, now);
    forall k, t: nat | t >= now && k != key ensures View(tiers, k, t) == View(after, k, t) {
      ViewDependsOnAlive(tiers, after, k, t, 0);
    }
    if first.Some? {
      ExposedFrom(tiers, key, d, now, first.value);
      ViewOfDropped(tiers, d, key, first.value);
      ViewSkips(tiers, key, first.value, 0, d);
    }
    if first.Some? ==> ViewFrom(tiers, key, first.value, d) == ViewFrom(tiers, key, first.value, d + 1) {
      forall t: nat | t >= now ensures View(tiers, key, t) == View(after, key, t) {
        ExposedFrom(tiers, key, d, now, t);
        ViewOfDropped(tiers, d, key, t);
        if first.Some? && first.value <= t {
          ViewSkips(tiers, key, t, 0, d);
          BehindLater(tiers, d, key, first.value, t);
        }
      }
    }
  }

  function Dropped(tiers: seq<Tier>, d: nat, key: BlockKey): seq<Tier>
    requires d < |tiers|
  {
    tiers[d := tiers[d] - {key}]
  }

  lemma ViewOfDropped(tiers: seq<Tier>, d: nat, key: BlockKey, t: nat)
    requires d < |tiers|
    ensures View(Dropped(tiers, d, key), key, t) ==
      if forall j :: 0 <= j < d ==> Alive(tiers[j], key, t) == None then ViewFrom(tiers, key, t, d + 1)
      else View(tiers, key, t)
  {
    var after := Dropped(tiers, d, key);
    if forall j :: 0 <= j < d ==> Alive(tiers[j], key, t) == None {
      ViewSkips(after, key, t, 0, d + 1);
      ViewDependsOnAlive(tiers, after, key, t, d + 1);
    } else {
      ViewStopsBefore(tiers, after, key, t, 0, d);
    }
  }

  // If the tiers behind d show the same at one moment, they do from then on.
  lemma BehindLater(tiers: seq<Tier>, d: nat, key: BlockKey, t: nat, u: nat)
    requires d < |tiers| && t <= u && ViewFrom(tiers, key, t, d) == ViewFrom(tiers, key, t, d + 1)
    ensures ViewFrom(tiers, key, u, d) == ViewFrom(tiers, key, u, d + 1)
  {
    if Alive(tiers[d], key, u).Some? {
      var s := FirstLive(tiers, key, t, d + 1);
      ViewIs(tiers, key, u, d + 1, s, tiers[d][key]);
    }
  }

  // A get, prefetch or pin that saw an expired entry removes the key in a later call: a put in between loses its
  // entry.
  lemma RacingDrop(key: BlockKey, dead: Entry, e: Entry, now: nat)
    requires dead.key == key == e.key && IsExpired(dead.expiresAt, now) && !IsExpired(e.expiresAt, now)
    ensures var read: seq<Tier> := [map[key := dead]];
      && Alive(read[0], key, now) == None
      && View(Copied(read, e, 0), key, now) == Some(e)
      && View(Dropped(Copied(read, e, 0), 0, key), key, now) == None
      && !SameViews(Copied(read, e, 0), Dropped(Copied(read, e, 0), 0, key), now)
  {
    var read: seq<Tier> := [map[key := dead]];
    ViewIs(Copied(read, e, 0), key, now, 0, 0, e);
    ViewIsNone(Dropped(Copied(read, e, 0), 0, key), key, now, 0);
  }

  // Two operations on one engine can meet between the read and the write of a promotion: a get reads the
  // former entry from tier 1, then a put writes a newer one into tier 0, and the promotion overwrites it.
  // With an invalidation in between, the key comes back.
  lemma RacingPromotion(key: BlockKey, former: Entry, e: Entry, now: nat)
    requires former.key == key == e.key && former != e
    requires !IsExpired(former.expiresAt, now) && !IsExpired(e.expiresAt, now)
    ensures var read: seq<Tier> := [map[], map[key := former]];
      && View(read, key, now) == Some(former)
      && View(Copied(read, e, 0), key, now) == Some(e)
      && View(Copied(Copied(read, e, 0), former, 0), key, now) == Some(former)
      && !SameViews(Copied(read, e, 0), Copied(Copied(read, e, 0), former, 0), now)
    ensures var gone: seq<Tier> := [map[], map[]];
      View(gone, key, now) == None && View(Copied(gone, former, 0), key, now) == Some(former)
  {
    var read: seq<Tier> := [map[], map[key := former]];
    var gone: seq<Tier> := [map[], map[]];
    ViewIs(read, key, now, 0, 1, former);
    ViewIs(Copied(read, e, 0), key, now, 0, 0, e);
    ViewIs(Copied(Copied(read, e, 0), former, 0), key, now, 0, 0, former);
    ViewIsNone(gone, key, now, 0);
    ViewIs(Copied(gone, former, 0), key, now, 0, 0, former);
  }

  // ----- where bytes come from -----

  // Some tier holds these bytes for the key.
  ghost predicate Stored(tiers: seq<Tier>, key: BlockKey, bytes: Bytes) {
    exists j :: 0 <= j < |tiers| && key in tiers[j] && tiers[j][key].bytes == bytes
  }

  // Nothing is held that was not held before.
  ghost predicate NothingNew(a: seq<Tier>, b: seq<Tier>) {
    forall key, bytes :: Stored(b, key, bytes) ==> Stored(a, key, bytes)
  }

  lemma ChangeAddsNothing(a: seq<Tier>, b: seq<Tier>, d: nat, e: Option<Entry>, key: BlockKey)
    requires d < |a| == |b| && b == a[d := b[d]] && (e.Some? ==> e.value.key == key && Stored(a, key, e.value.bytes))
    requires b[d] == if e.Some? then a[d][key := e.value] else a[d] - {key}
    ensures NothingNew(a, b)
  {
    forall k, bytes | Stored(b, k, bytes) ensures Stored(a, k, bytes) {
      var j :| 0 <= j < |b| && k in b[j] && b[j][k].bytes == bytes;
      assert j != d ==> a[j] == b[j];
    }
  }

  function SetPin(e: Option<Entry>, pinned: bool): Option<Entry> {
    if e.Some? then Some(e.value.(pinned := pinned)) else None
  }

  lemma {:induction false} ViewUpToPin(a: seq<Tier>, b: seq<Tier>, key: BlockKey, t: nat, pinned: bool, i: nat)
    requires |a| == |b| && i <= |a|
    requires forall j :: i <= j < |a| ==> SetPin(Alive(a[j], key, t), pinned) == SetPin(Alive(b[j], key, t), pinned)
    ensures SetPin(ViewFrom(a, key, t, i), pinned) == SetPin(ViewFrom(b, key, t, i), pinned)
    decreases |a| - i
  {
    if i < |a| {
      assert Alive(a[i], key, t).Some? <==> Alive(b[i], key, t).Some?;
      ViewUpToPin(a, b, key, t, pinned, i + 1);
    }
  }

  function Expiry(ttl: Option<Duration>, now: u64): u64 {
    if ttl.None? then 0 else ExpiryAfter(ttl.value, now)
  }

  class KvEngine {
    var tiers: seq<Tier>
    var clock: u64
    const promoteOnRead: bool
    const writeAll: bool
    // How many tier calls have failed so far.
    ghost var faults: nat

    ghost predicate Valid()
      reads this
    {
      |tiers| > 0 && WellKeyed(tiers)
    }

    constructor (tierCount: nat, promote: bool, all: bool)
      requires tierCount > 0
      ensures Valid() && |tiers| == tierCount && promoteOnRead == promote && writeAll == all && clock == 0
      ensures forall key, t: nat :: View(tiers, key, t) == None
    {
      tiers := seq(tierCount, _ => map[]);
      clock := 0;
      promoteOnRead := promote;
      writeAll := all;
      faults := 0;
      new;
      forall key, t: nat ensures View(tiers, key, t) == None {
        ViewIsNone(tiers, key, t, 0);
      }
    }

    // ----- the environment: a monotone clock and fallible tiers -----

    method Now() returns (now: u64)
      modifies this`clock
      ensures now == clock >= old(clock)
    {
      now :| now >= clock;
      clock := now;
    }

    method TierGet(i: nat, key: BlockKey) returns (r: Result<Option<Entry>>)
      requires i < |tiers|
      modifies this`faults
      ensures r.Ok? ==> r.value == if key in tiers[i] then Some(tiers[i][key]) else None
      ensures faults == old(faults) + if r.Err? then 1 else 0
    {
      var fails: bool := *;
      if fails {
        faults := faults + 1;
        return Err(Other);
      }
      return Ok(if key in tiers[i] then Some(tiers[i][key]) else None);
    }

    method TierPut(i: nat, e: Entry) returns (r: Outcome)
      requires Valid() && i < |tiers|
      modifies this`tiers, this`faults
      ensures Valid()
      ensures faults == old(faults) + if r.Failed? then 1 else 0
      ensures tiers == if r.Done? then old(tiers)[i := old(tiers)[i][e.key := e]] else old(tiers)
    {
      var fails: bool := *;
      r := PutInto(i, e, fails);
    }

    method PutInto(i: nat, e: Entry, fails: bool) returns (r: Outcome)
      requires Valid() && i < |tiers|
      modifies this`tiers, this`faults
      ensures Valid() && (r.Failed? <==> fails)
      ensures faults == old(faults) + if fails then 1 else 0
      ensures tiers == if fails then old(tiers) else old(tiers)[i := old(tiers)[i][e.key := e]]
    {
      if fails {
        faults := faults + 1;
        return Failed(Other);
      }
      tiers := tiers[i := tiers[i][e.key := e]];
      return Done;
    }

    method TierRemove(i: nat, key: BlockKey) returns (r: Outcome)
      requires Valid() && i < |tiers|
      modifies this`tiers, this`faults
      ensures Valid()
      ensures faults == old(faults) + if r.Failed? then 1 else 0
      ensures tiers == if r.Done? then old(tiers)[i := old(tiers)[i] - {key}] else old(tiers)
    {
      var fails: bool := *;
      r := RemoveFrom(i, key, fails);
    }

    method RemoveFrom(i: nat, key: BlockKey, fails: bool) returns (r: Outcome)
      requires Valid() && i < |tiers|
      modifies this`tiers, this`faults
      ensures Valid() && (r.Failed? <==> fails)
      ensures faults == old(faults) + if fails then 1 else 0
      ensures tiers == if fails then old(tiers) else old(tiers)[i := old(tiers)[i] - {key}]
    {
      if fails {
        faults := faults + 1;
        return Failed(Other);
      }
      tiers := tiers[i := tiers[i] - {key}];
      return Done;
    }

    // ----- operations -----

    // With the copying transport and allocator the transferred entry equals the original.
    method TransferEntry(e: Entry, source: nat, destination: nat) returns (r: Outcome)
      requires Valid()
      modifies this`tiers, this`faults
      ensures Valid()
      ensures faults >= old(faults) && (r.Failed? <==>
                source >= |old(tiers)| || destination >= |old(tiers)| || faults > old(faults))
      ensures r.Done? ==> source < |old(tiers)| && destination < |old(tiers)|
      ensures tiers == if r.Done? then Copied(old(tiers), e, destination) else old(tiers)
    {
      if source >= |tiers| || destination >= |tiers| {
        return Failed(InvalidInput);
      }
      if source == destination {
        r := TierPut(destination, e);
        return;
      }
      var transported := e.bytes;
      var copied := transported;
      r := TierPut(destination, Entry(e.key, copied, e.expiresAt, e.pinned));
    }

    method Promote(e: Entry, index: nat, ghost now: nat) returns (r: Outcome)
      requires Valid() && index < |tiers|
      requires Leads(tiers, e, index, now) && forall j :: 0 <= j < index ==> e.key !in tiers[j]
      modifies this`tiers, this`faults
      ensures Valid() && |tiers| == |old(tiers)|
      ensures faults >= old(faults) && (r.Failed? <==> faults > old(faults))
      ensures SameViews(old(tiers), tiers, now) && NothingNew(old(tiers), tiers)
      ensures r.Done? ==> forall j :: 0 <= j < |tiers| ==>
                tiers[j] == if j < index then old(tiers)[j][e.key := e] else old(tiers)[j]
    {
      var destination := index;
      while destination > 0
        invariant 0 <= destination <= index < |tiers| == |old(tiers)| && Valid()
        invariant Leads(tiers, e, index, now)
        invariant forall j :: 0 <= j < destination ==> e.key !in tiers[j]
        invariant forall j :: 0 <= j < |tiers| ==>
                    tiers[j] == if destination <= j < index then old(tiers)[j][e.key := e] else old(tiers)[j]
        invariant SameViews(old(tiers), tiers, now) && faults == old(faults) && NothingNew(old(tiers), tiers)
      {
        destination := destination - 1;
        CopyInvisible(tiers, e, index, destination, now);
        ChangeAddsNothing(tiers, Copied(tiers, e, destination), destination, Some(e), e.key);
        r := TransferEntry(e, index, destination);
        if r.Failed? {
          return;
        }
      }
      return Done;
    }

    method Get(key: BlockKey) returns (r: Result<Option<Entry>>)
      requires Valid()
      modifies this`tiers, this`clock, this`faults
      ensures Valid() && |tiers| == |old(tiers)| && clock >= old(clock) && faults >= old(faults)
      ensures SameViews(old(tiers), tiers, clock) && NothingNew(old(tiers), tiers)
      ensures r.Err? <==> faults > old(faults)
      ensures r.Ok? ==> r.value == View(old(tiers), key, clock)
      ensures r.Ok? && r.value.Some? ==> r.value.value.key == key
      ensures r.Ok? ==> exists index: nat ::
                ReadUpTo(old(tiers), tiers, key, clock, index, r.value, promoteOnRead)
    {
      var now := Now();
      for index := 0 to |tiers|
        invariant |tiers| == |old(tiers)| && Valid() && clock == now && faults == old(faults)
        invariant SameViews(old(tiers), tiers, now) && NothingNew(old(tiers), tiers)
        invariant Swept(old(tiers), tiers, key, now, index)
      {
        var got := TierGet(index, key);
        if got.Err? {
          return Err(got.error);
        }
        if got.value.None? {
          SweptStep(old(tiers), tiers, key, now, index);
          continue;
        }
        var e := got.value.value;
        if IsExpired(e.expiresAt, now) {
          DropInvisible(tiers, index, key, now);
          ChangeAddsNothing(tiers, tiers[index := tiers[index] - {key}], index, None, key);
          SweptStep(old(tiers), tiers, key, now, index);
          var removed := TierRemove(index, key);
          if removed.Failed? {
            return Err(removed.error);
          }
          continue;
        }
        SweptFinds(old(tiers), tiers, key, now, index);
        if promoteOnRead && index > 0 {
          var promoted := Promote(e, index, now);
          if promoted.Failed? {
            return Err(promoted.error);
          }
        }
        assert ReadUpTo(old(tiers), tiers, key, now, index, Some(e), promoteOnRead);
        return Ok(Some(e));
      }
      assert ReadUpTo(old(tiers), tiers, key, now, |tiers|, None, promoteOnRead);
      ViewIsNone(tiers, key, now, 0);
      return Ok(None);
    }

    // The search of prefetch_worker for a live copy outside the destination.
    method FindSource(key: BlockKey, destination: nat, now: nat) returns (r: Result<Option<(nat, Entry)>>)
      requires Valid() && destination < |tiers| && key !in tiers[destination]
      modifies this`tiers, this`faults
      ensures Valid() && |tiers| == |old(tiers)| && key !in tiers[destination]
      ensures faults >= old(faults) && (r.Err? <==> faults > old(faults))
      ensures SameViews(old(tiers), tiers, now) && NothingNew(old(tiers), tiers)
      ensures r.Ok? && r.value.None? ==> forall j :: 0 <= j < |tiers| ==> key !in tiers[j]
      ensures r.Ok? && r.value.Some? ==>
                && r.value.value.0 != destination && r.value.value.1.key == key
                && Leads(tiers, r.value.value.1, r.value.value.0, now)
                && !IsExpired(r.value.value.1.expiresAt, now)
    {
      for source := 0 to |tiers|
        invariant |tiers| == |old(tiers)| && Valid() && key !in tiers[destination] && faults == old(faults)
        invariant SameViews(old(tiers), tiers, now) && NothingNew(old(tiers), tiers)
        invariant forall j :: 0 <= j < source ==> key !in tiers[j]
      {
        if source == destination {
          continue;
        }
        var got := TierGet(source, key);
        if got.Err? {
          return Err(got.error);
        }
        if got.value.Some? {
          var e := got.value.value;
          if IsExpired(e.expiresAt, now) {
            DropInvisible(tiers, source, key, now);
            ChangeAddsNothing(tiers, tiers[source := tiers[source] - {key}], source, None, key);
            var removed := TierRemove(source, key);
            if removed.Failed? {
              return Err(removed.error);
            }
            continue;
          }
          return Ok(Some((source, e)));
        }
      }
      return Ok(None);
    }

    // One key of prefetch_worker: populated is true when the destination ends up with a live copy.
    method PrefetchOne(key: BlockKey, destination: nat) returns (r: Result<bool>)
      requires Valid() && destination < |tiers|
      modifies this`tiers, this`clock, this`faults
      ensures Valid() && |tiers| == |old(tiers)| && clock >= old(clock) && faults >= old(faults)
      ensures SameViews(old(tiers), tiers, clock) && NothingNew(old(tiers), tiers)
      ensures r.Err? <==> faults > old(faults)
      ensures r.Ok? ==> (r.value <==> View(old(tiers), key, clock).Some?)
      ensures r.Ok? ==> (r.value <==> Alive(tiers[destination], key, clock).Some?)
      ensures r.Ok? ==>
                var own := Alive(old(tiers)[destination], key, clock);
                Alive(tiers[destination], key, clock) == if own.Some? then own else View(old(tiers), key, clock)
    {
      var now := Now();
      var got := TierGet(destination, key);
      if got.Err? {
        return Err(got.error);
      }
      if got.value.Some? {
        if IsExpired(got.value.value.expiresAt, now) {
          DropInvisible(tiers, destination, key, now);
          ChangeAddsNothing(tiers, tiers[destination := tiers[destination] - {key}], destination, None, key);
          var removed := TierRemove(destination, key);
          if removed.Failed? {
            return Err(removed.error);
          }
        } else {
          AliveSomewhere(tiers, key, now, destination);
          return Ok(true);
        }
      }
      var found := FindSource(key, destination, now);
      if found.Err? {
        return Err(found.error);
      }
      if found.value.None? {
        ViewIsNone(tiers, key, now, 0);
        return Ok(false);
      }
      var (source, e) := found.value.value;
      ViewIs(tiers, key, now, 0, source, e);
      CopyInvisible(tiers, e, source, destination, now);
      ChangeAddsNothing(tiers, Copied(tiers, e, destination), destination, Some(e), key);
      var moved := TransferEntry(e, source, destination);
      if moved.Failed? {
        return Err(moved.error);
      }
      return Ok(true);
    }

    // The counts are those of the keys a reader would have seen, and not have seen, when each was looked up.
    method PrefetchWorker(keys: seq<BlockKey>, destination: nat) returns (r: Result<(nat, nat)>, ghost times: seq<nat>)
      requires Valid()
      modifies this`tiers, this`clock, this`faults
      ensures Valid() && |tiers| == |old(tiers)| && clock >= old(clock) && faults >= old(faults)
      ensures SameViews(old(tiers), tiers, clock) && NothingNew(old(tiers), tiers)
      ensures destination >= |tiers| ==> r.Err? && tiers == old(tiers)
      ensures r.Err? <==> destination >= |tiers| || faults > old(faults)
      ensures forall j :: 0 <= j < |times| ==> old(clock) <= times[j] <= clock
      ensures r.Ok? ==>
                && |times| == |keys| && r.value.0 == SeenCount(old(tiers), keys, times)
                && r.value.1 == |keys| - SeenCount(old(tiers), keys, times)
    {
      times := [];
      if destination >= |tiers| {
        return Err(InvalidInput), times;
      }
      var populated, missed := 0, 0;
      for i := 0 to |keys|
        invariant Valid() && |tiers| == |old(tiers)| && clock >= old(clock) && faults == old(faults)
        invariant SameViews(old(tiers), tiers, clock) && NothingNew(old(tiers), tiers)
        invariant |times| == i && forall j :: 0 <= j < i ==> old(clock) <= times[j] <= clock
        invariant populated == SeenCount(old(tiers), keys, times) && missed == i - populated
      {
        var one := PrefetchOne(keys[i], destination);
        if one.Err? {
          return Err(one.error), times;
        }
        assert (times + [clock])[..i] == times;
        times := times + [clock];
        if one.value {
          populated := populated + 1;
        } else {
          missed := missed + 1;
        }
      }
      return Ok((populated, missed)), times;
    }

    // Moving never loses the entry: whatever call fails, the source still holds it.
    method MoveBlock(key: BlockKey, source: nat, destination: nat, removeSource: bool) returns (r: Result<bool>)
      requires Valid()
      modifies this`tiers, this`clock, this`faults
      ensures Valid() && |tiers| == |old(tiers)| && clock >= old(clock) && faults >= old(faults)
      ensures NothingNew(old(tiers), tiers)
      ensures source >= |tiers| || destination >= |tiers| ==> r == Err(InvalidInput) && tiers == old(tiers)
      ensures forall i, k :: 0 <= i < |tiers| && (k != key || (i != source && i != destination)) ==>
                (k in tiers[i] <==> k in old(tiers)[i]) && (k in tiers[i] ==> tiers[i][k] == old(tiers)[i][k])
      ensures source < |tiers| && destination < |tiers| ==>
                var e := Alive(old(tiers)[source], key, clock);
                && (r.Err? <==> faults > old(faults))
                && (r.Ok? ==> (r.value <==> e.Some?))
                && (r.Ok? && e.None? ==> SameViews(old(tiers), tiers, clock) && key !in tiers[source])
                && (r.Ok? && e.None? && source != destination ==> tiers[destination] == old(tiers)[destination])
                && (r.Ok? && e.Some? ==> Alive(tiers[destination], key, clock) == e)
                && (r.Ok? && e.Some? && source != destination ==> (key in tiers[source] <==> !removeSource))
                && (r.Err? && e.Some? ==> Alive(tiers[source], key, clock) == e)
    {
      if source >= |tiers| || destination >= |tiers| {
        return Err(InvalidInput);
      }
      var got := TierGet(source, key);
      var now := Now();
      if got.Err? {
        return Err(got.error);
      }
      if got.value.None? {
        return Ok(false);
      }
      var e := got.value.value;
      if IsExpired(e.expiresAt, now) {
        DropInvisible(tiers, source, key, now);
        ChangeAddsNothing(tiers, tiers[source := tiers[source] - {key}], source, None, key);
        var removed := TierRemove(source, key);
        return if removed.Failed? then Err(removed.error) else Ok(false);
      }
      ChangeAddsNothing(tiers, Copied(tiers, e, destination), destination, Some(e), key);
      var moved := TransferEntry(e, source, destination);
      if moved.Failed? {
        return Err(moved.error);
      }
      if removeSource && source != destination {
        ChangeAddsNothing(tiers, tiers[source := tiers[source] - {key}], source, None, key);
        var removed := TierRemove(source, key);
        if removed.Failed? {
          return Err(removed.error);
        }
      }
      return Ok(true);
    }

    // See PinnedViews for what this means to readers.
    method SetPinned(key: BlockKey, pinned: bool) returns (r: Result<bool>)
      requires Valid()
      modifies this`tiers, this`clock, this`faults
      ensures Valid() && |tiers| == |old(tiers)| && clock >= old(clock) && faults >= old(faults)
      ensures r.Err? <==> faults > old(faults)
      ensures forall j :: 0 <= j < |tiers| ==> PinStep(old(tiers)[j], tiers[j], key, pinned, clock)
      ensures r.Ok? ==> forall j :: 0 <= j < |tiers| ==> PinsTier(old(tiers)[j], tiers[j], key, pinned, clock)
      ensures r.Ok? ==> (r.value <==> View(old(tiers), key, clock).Some?)
    {
      var now := Now();
      var found := false;
      for i := 0 to |tiers|
        invariant |tiers| == |old(tiers)| && Valid() && clock == now && faults == old(faults)
        invariant forall j :: i <= j < |tiers| ==> tiers[j] == old(tiers)[j]
        invariant forall j :: 0 <= j < i ==> PinsTier(old(tiers)[j], tiers[j], key, pinned, now)
        invariant found <==> exists j :: 0 <= j < i && Alive(old(tiers)[j], key, now).Some?
      {
        var here := PinTier(i, key, pinned, now);
        if here.Err? {
          return Err(here.error);
        }
        found := found || here.value;
      }
      SeenIffAlive(old(tiers), key, now);
      return Ok(found);
    }

    // One tier of set_pinned.
    method PinTier(i: nat, key: BlockKey, pinned: bool, now: u64) returns (r: Result<bool>)
      requires Valid() && i < |tiers|
      modifies this`tiers, this`faults
      ensures Valid() && faults >= old(faults) && (r.Err? <==> faults > old(faults))
      ensures |tiers| == |old(tiers)| && tiers == old(tiers)[i := tiers[i]]
      ensures if r.Ok? then PinsTier(old(tiers)[i], tiers[i], key, pinned, now) else tiers == old(tiers)
      ensures r.Ok? ==> (r.value <==> Alive(old(tiers)[i], key, now).Some?)
    {
      var got := TierGet(i, key);
      if got.Err? {
        return Err(got.error);
      }
      if got.value.None? {
        assert tiers[i] - {key} == tiers[i];
        return Ok(false);
      }
      var e := got.value.value;
      if IsExpired(e.expiresAt, now) {
        var removed := TierRemove(i, key);
        return if removed.Failed? then Err(removed.error) else Ok(false);
      }
      var put := TierPut(i, e.(pinned := pinned));
      return if put.Failed? then Err(put.error) else Ok(true);
    }

    // A write-through that fails removes what it wrote; it does not bring back what it overwrote.  A put
    // calls each tier at most once per kind of call, so the tiers whose calls fail determine what happens.
    method Put(block: Entry, ttl: Option<Duration>, failing: PutFaults) returns (r: Outcome)
      requires Valid()
      modifies this`tiers, this`clock, this`faults
      ensures Valid() && |tiers| == |old(tiers)| && clock >= old(clock) && faults >= old(faults)
      ensures r.Failed? <==> faults > old(faults)
      ensures writeAll ==> (r.Failed? <==> exists m :: FailsAt(failing, |tiers|, m))
      ensures !writeAll ==> (r.Failed? <==> 0 in failing.puts)
      ensures r.Done? ==> forall t: nat :: t >= clock ==>
                View(tiers, block.key, t) ==
                  if ttl.None? || Lives(ttl.value, clock, t) then Some(block.(expiresAt := Expiry(ttl, clock)))
                  else if writeAll then None
                  else ViewFrom(old(tiers), block.key, t, 1)
      ensures var e := block.(expiresAt := Expiry(ttl, clock));
              && (r.Done? ==> tiers[0] == old(tiers)[0][e.key := e])
              && (r.Done? && writeAll ==> forall i :: 0 <= i < |tiers| ==> tiers[i] == old(tiers)[i][e.key := e])
              && (r.Done? && !writeAll ==> tiers[1..] == old(tiers)[1..])
              && (r.Failed? && !writeAll ==> tiers == old(tiers))
              && AddsOnly(old(tiers), tiers, e)
              && (writeAll ==> forall m :: FailsAt(failing, |tiers|, m) ==>
                RolledBack(old(tiers), tiers, e, m, failing.removes))
    {
      var now := Now();
      var e := block.(expiresAt := Expiry(ttl, now));
      if !writeAll {
        r := PutInto(0, e, 0 in failing.puts);
        if r.Done? {
          PutViews(old(tiers), tiers, block, ttl, now, writeAll);
        }
        return;
      }
      for i := 0 to |tiers|
        invariant |tiers| == |old(tiers)| && Valid() && clock == now && faults == old(faults)
        invariant forall j :: 0 <= j < i ==> tiers[j] == old(tiers)[j][e.key := e] && j !in failing.puts
        invariant forall j :: i <= j < |tiers| ==> tiers[j] == old(tiers)[j]
      {
        r := PutInto(i, e, i in failing.puts);
        if r.Failed? {
          UndoPut(old(tiers), e, i, failing.removes);
          assert FailsAt(failing, |tiers|, i);
          return;
        }
      }
      PutViews(old(tiers), tiers, block, ttl, now, writeAll);
      return Done;
    }

    // The removals of a failed write-through; their own failures are ignored.
    method UndoPut(ghost before: seq<Tier>, e: Entry, m: nat, stuck: set<nat>)
      requires Valid() && m < |tiers| == |before|
      requires forall j :: 0 <= j < m ==> tiers[j] == before[j][e.key := e]
      requires forall j :: m <= j < |tiers| ==> tiers[j] == before[j]
      modifies this`tiers, this`faults
      ensures Valid() && |tiers| == |before| && faults >= old(faults) && RolledBack(before, tiers, e, m, stuck)
    {
      for w := 0 to m
        invariant |tiers| == |before| && Valid() && faults >= old(faults)
        invariant forall j :: 0 <= j < w ==>
                  tiers[j] == if j in stuck then before[j][e.key := e] else before[j] - {e.key}
        invariant forall j :: w <= j < m ==> tiers[j] == before[j][e.key := e]
        invariant forall j :: m <= j < |tiers| ==> tiers[j] == before[j]
      {
        assert before[w][e.key := e] - {e.key} == before[w] - {e.key};
        var _ := RemoveFrom(w, e.key, w in stuck);
      }
    }

    method Invalidate(key: BlockKey) returns (r: Outcome)
      requires Valid()
      modifies this`tiers, this`faults
      ensures Valid() && |tiers| == |old(tiers)|
      ensures faults >= old(faults) && (r.Failed? <==> faults > old(faults))
      ensures forall i :: 0 <= i < |tiers| ==> tiers[i] in {old(tiers)[i], old(tiers)[i] - {key}}
      ensures NothingNew(old(tiers), tiers)
      ensures r.Done? ==> forall t: nat :: View(tiers, key, t) == None
      ensures forall k, t: nat :: k != key ==> View(tiers, k, t) == View(old(tiers), k, t)
    {
      for i := 0 to |tiers|
        invariant |tiers| == |old(tiers)| && Valid() && faults == old(faults)
        invariant forall j :: 0 <= j < i ==> tiers[j] == old(tiers)[j] - {key}
        invariant forall j :: i <= j < |tiers| ==> tiers[j] == old(tiers)[j]
      {
        r := TierRemove(i, key);
        if r.Failed? {
          OthersUntouched(old(tiers), tiers, key);
          return;
        }
      }
      OthersUntouched(old(tiers), tiers, key);
      forall t: nat ensures View(tiers, key, t) == None {
        ViewIsNone(tiers, key, t, 0);
      }
      return Done;
    }
  }

  // Every entry held was held before in the same tier, or is e.
  ghost predicate AddsOnly(before: seq<Tier>, after: seq<Tier>, e: Entry) {
    && |before| == |after|
    && forall i, k :: 0 <= i < |after| && k in after[i] ==>
         (k == e.key && after[i][k] == e) || (k in before[i] && after[i][k] == before[i][k])
  }

  // What a read of the key does that finds its entry in tier `index`, or nothing in any tier: the tiers before lose
  // whatever dead entry they have, and with promotion they get the entry; nothing else changes.
  ghost predicate ReadUpTo(before: seq<Tier>, after: seq<Tier>, key: BlockKey, now: nat, index: nat,
                           found: Option<Entry>, promote: bool)
  {
    && |before| == |after| >= index
    && found == (if index < |before| then Alive(before[index], key, now) else None)
    && (found.None? ==> index == |before|)
    && (forall j :: 0 <= j < index ==> Alive(before[j], key, now) == None)
    && (forall j :: 0 <= j < index ==>
          after[j] == if promote && found.Some? then before[j][key := found.value] else before[j] - {key})
    && (forall j :: index <= j < |before| ==> after[j] == before[j])
  }

  // The first n tiers held nothing alive for the key and have lost it.
  ghost predicate Swept(before: seq<Tier>, after: seq<Tier>, key: BlockKey, now: nat, n: nat) {
    && |before| == |after| >= n
    && (forall j :: 0 <= j < n ==> Alive(before[j], key, now) == None && after[j] == before[j] - {key})
    && (forall j :: n <= j < |before| ==> after[j] == before[j])
  }

  lemma SweptStep(before: seq<Tier>, after: seq<Tier>, key: BlockKey, now: nat, n: nat)
    requires Swept(before, after, key, now, n) && n < |before| && Alive(before[n], key, now) == None
    ensures Swept(before, after[n := after[n] - {key}], key, now, n + 1)
    ensures key !in after[n] ==> Swept(before, after, key, now, n + 1)
  {
    assert key !in after[n] ==> before[n] - {key} == before[n];
  }

  lemma SweptFinds(before: seq<Tier>, after: seq<Tier>, key: BlockKey, now: nat, n: nat)
    requires Swept(before, after, key, now, n) && n < |before| && Alive(before[n], key, now).Some?
    requires before[n][key].key == key
    ensures Leads(after, before[n][key], n, now) && View(after, key, now) == Some(before[n][key])
    ensures ReadUpTo(before, after, key, now, n, Some(before[n][key]), false)
    ensures n == 0 ==> ReadUpTo(before, after, key, now, n, Some(before[n][key]), true)
  {
    ViewIs(after, key, now, 0, n, before[n][key]);
  }

  // How many of the keys a reader would see, each at its own time.
  ghost function SeenCount(tiers: seq<Tier>, keys: seq<BlockKey>, times: seq<nat>): (n: nat)
    requires |times| <= |keys|
    ensures n <= |times|
  {
    if times == [] then 0 else
      var last := |times| - 1;
      SeenCount(tiers, keys, times[..last]) + if View(tiers, keys[last], times[last]).Some? then 1 else 0
  }

  // The tiers whose put, or whose removal while undoing, fails.
  datatype PutFaults = PutFaults(puts: set<nat>, removes: set<nat>)

  // The first failing write is that to tier m.
  predicate FailsAt(failing: PutFaults, n: nat, m: nat) {
    m < n && m in failing.puts && forall j :: 0 <= j < m ==> j !in failing.puts
  }

  // The write to tier m failed: later tiers are untouched, and earlier ones lost the key, except where even
  // the removal failed and the new entry stayed.
  ghost predicate RolledBack(before: seq<Tier>, after: seq<Tier>, e: Entry, m: nat, stuck: set<nat>) {
    && m < |before| == |after|
    && (forall j :: m <= j < |before| ==> after[j] == before[j])
    && (forall j :: 0 <= j < m ==> after[j] == if j in stuck then before[j][e.key := e] else before[j] - {e.key})
  }

  lemma OthersUntouched(a: seq<Tier>, b: seq<Tier>, key: BlockKey)
    requires |a| == |b| && forall i :: 0 <= i < |a| ==> b[i] in {a[i], a[i] - {key}}
    ensures forall k, t: nat :: k != key ==> View(b, k, t) == View(a, k, t)
    ensures NothingNew(a, b)
  {
    forall k, t: nat | k != key ensures View(b, k, t) == View(a, k, t) {
      ViewDependsOnAlive(b, a, k, t, 0);
    }
    forall k, bytes | Stored(b, k, bytes) ensures Stored(a, k, bytes) {
      var j :| 0 <= j < |b| && k in b[j] && b[j][k].bytes == bytes;
      assert b[j] in {a[j], a[j] - {key}};
    }
  }

  // A value written in front of every tier is what every later read sees while it lives.
  lemma WrittenIsSeen(before: seq<Tier>, after: seq<Tier>, e: Entry, t: nat)
    requires |before| == |after| > 0 && after[0] == before[0][e.key := e] && !IsExpired(e.expiresAt, t)
    ensures View(after, e.key, t) == Some(e)
  {
    ViewIs(after, e.key, t, 0, 0, e);
  }

  // For how long readers see what a put wrote, and what they see then.
  lemma PutViews(before: seq<Tier>, after: seq<Tier>, block: Entry, ttl: Option<Duration>, now: u64, everywhere: bool)
    requires |before| == |after| > 0
    requires var e := block.(expiresAt := Expiry(ttl, now));
             && after[0] == before[0][e.key := e]
             && forall i :: 1 <= i < |after| ==> after[i] == if everywhere then before[i][e.key := e] else before[i]
    ensures forall t: nat :: t >= now ==>
      View(after, block.key, t) ==
        if ttl.None? || Lives(ttl.value, now, t) then Some(block.(expiresAt := Expiry(ttl, now)))
        else if everywhere then None
        else ViewFrom(before, block.key, t, 1)
  {
    var e := block.(expiresAt := Expiry(ttl, now));
    forall t: nat | t >= now
      ensures View(after, e.key, t) == if ttl.None? || Lives(ttl.value, now, t) then Some(e)
                                       else if everywhere then None else ViewFrom(before, e.key, t, 1)
    {
      if ttl.Some? {
        LivesUntilExpiry(ttl.value, now, t);
      }
      if !IsExpired(e.expiresAt, t) {
        WrittenIsSeen(before, after, e, t);
      } else if everywhere {
        ViewIsNone(after, e.key, t, 0);
      } else {
        ViewDependsOnAlive(before, after, e.key, t, 1);
      }
    }
  }

  // ----- what a failed write-through does to readers -----

  // Exactly what every reader sees after a rollback.
  lemma FailedPutView(before: seq<Tier>, after: seq<Tier>, e: Entry, m: nat, stuck: set<nat>, k: BlockKey, t: nat)
    requires RolledBack(before, after, e, m, stuck)
    ensures View(after, k, t) ==
      if k != e.key then View(before, k, t)
      else if !IsExpired(e.expiresAt, t) && exists j :: 0 <= j < m && j in stuck then Some(e)
      else ViewFrom(before, k, t, m)
  {
    if k != e.key {
      ViewDependsOnAlive(before, after, k, t, 0);
    } else if j :| !IsExpired(e.expiresAt, t) && 0 <= j < m && j in stuck {
      ViewIs(after, k, t, 0, j, e);
    } else {
      ViewSkips(after, k, t, 0, m);
      ViewDependsOnAlive(before, after, k, t, m);
    }
  }

  // No tier has a live copy, or the last one has and all live copies are equal.
  ghost predicate Replicated(tiers: seq<Tier>, key: BlockKey, now: nat) {
    || (forall j :: 0 <= j < |tiers| ==> Alive(tiers[j], key, now) == None)
    || (&& tiers != [] && Alive(tiers[|tiers| - 1], key, now).Some?
        && forall j :: 0 <= j < |tiers| ==> Alive(tiers[j], key, now) in {None, Alive(tiers[|tiers| - 1], key, now)})
  }

  lemma ReplicatedView(tiers: seq<Tier>, key: BlockKey, now: nat, m: nat, t: nat)
    requires Replicated(tiers, key, now) && m < |tiers| && t >= now
    ensures ViewFrom(tiers, key, t, m) == View(tiers, key, t)
  {
    var n := |tiers| - 1;
    if Alive(tiers[n], key, t).Some? {
      ViewIs(tiers, key, t, m, n, tiers[n][key]);
      ViewIs(tiers, key, t, 0, n, tiers[n][key]);
    } else {
      forall j | 0 <= j < |tiers| ensures Alive(tiers[j], key, t) == None {
        assert Alive(tiers[j], key, now) in {None, Alive(tiers[n], key, now)};
      }
      ViewIsNone(tiers, key, t, m);
      ViewIsNone(tiers, key, t, 0);
    }
  }

  // The rollback as a function, for a failure at tier m whose removals all work.
  function Undone(before: seq<Tier>, key: BlockKey, m: nat): (after: seq<Tier>)
    requires m < |before|
    ensures |after| == |before|
    ensures forall j :: 0 <= j < |before| ==> after[j] == if j < m then before[j] - {key} else before[j]
  {
    seq(|before|, j requires 0 <= j < |before| => if j < m then before[j] - {key} else before[j])
  }

  ghost predicate KeepsViews(tiers: seq<Tier>, key: BlockKey, m: nat, now: nat) {
    m < |tiers| ==> SameViews(tiers, Undone(tiers, key, m), now)
  }

  // For one failure point whose removals all work, the old view survives exactly if the tiers from there on show it.
  lemma FailedPutKeepsViewIff(before: seq<Tier>, e: Entry, m: nat, now: nat)
    requires m < |before|
    ensures KeepsViews(before, e.key, m, now) <==>
            forall t: nat :: t >= now ==> ViewFrom(before, e.key, t, m) == View(before, e.key, t)
  {
    var after := Undone(before, e.key, m);
    assert RolledBack(before, after, e, m, {});
    forall k, t: nat ensures View(after, k, t) == if k == e.key then ViewFrom(before, k, t, m) else View(before, k, t) {
      FailedPutView(before, after, e, m, {}, k, t);
    }
  }

  // Whatever tier a write-through fails at, as long as its removals all work, readers keep their view exactly if the
  // key is replicated beforehand.
  lemma UndonePutSafeIff(before: seq<Tier>, e: Entry, now: nat)
    requires before != []
    ensures (forall m: nat :: KeepsViews(before, e.key, m, now)) <==> Replicated(before, e.key, now)
  {
    var n := |before| - 1;
    if Replicated(before, e.key, now) {
      forall m: nat ensures KeepsViews(before, e.key, m, now) {
        if m < |before| {
          FailedPutKeepsViewIff(before, e, m, now);
          forall t: nat | t >= now ensures ViewFrom(before, e.key, t, m) == View(before, e.key, t) {
            ReplicatedView(before, e.key, now, m, t);
          }
        }
      }
    } else {
      var j := Lone(before, e.key, now);
      var m := if Alive(before[n], e.key, now).None? then n else j;
      FailedPutKeepsViewIff(before, e, m, now);
      FailedPutKeepsViewIff(before, e, n, now);
      SeenIffAlive(before, e.key, now);
      assert Alive(before[j], e.key, now).Some?;
      assert ViewFrom(before, e.key, now, n) == Alive(before[n], e.key, now);
      assert ViewFrom(before, e.key, now, j) == Alive(before[j], e.key, now);
    }
  }

  // Whatever tier a write-through fails at, and whichever of its removals fail too, readers keep their view.
  ghost predicate AlwaysKeepsViews(before: seq<Tier>, e: Entry, now: nat) {
    forall m: nat, stuck: set<nat>, after ::
      RolledBack(before, after, e, m, stuck) ==> SameViews(before, after, now)
  }

  // An entry whose write may be left behind without a reader noticing: there is no earlier tier to leave it in, or it
  // is dead, or it is what readers see already.
  predicate LeavesNoTrace(before: seq<Tier>, e: Entry, now: nat) {
    |before| == 1 || IsExpired(e.expiresAt, now) || View(before, e.key, now) == Some(e)
  }

  // A failed write-through keeps every reader's view, whatever fails, exactly if the key is replicated beforehand and
  // the new entry would leave no trace.
  lemma FailedPutSafeIff(before: seq<Tier>, e: Entry, now: nat)
    requires before != []
    ensures AlwaysKeepsViews(before, e, now) <==> Replicated(before, e.key, now) && LeavesNoTrace(before, e, now)
  {
    if Replicated(before, e.key, now) && LeavesNoTrace(before, e, now) {
      forall m: nat, stuck: set<nat>, after | RolledBack(before, after, e, m, stuck)
        ensures SameViews(before, after, now)
      {
        RollbackUnseen(before, after, e, m, stuck, now);
      }
    }
    if AlwaysKeepsViews(before, e, now) {
      forall m: nat ensures KeepsViews(before, e.key, m, now) {
        if m < |before| {
          assert RolledBack(before, Undone(before, e.key, m), e, m, {});
        }
      }
      UndonePutSafeIff(before, e, now);
      if |before| > 1 {
        StuckShows(before, e, now);
      }
    }
  }

  // A rollback that leaves the new entry in the first tier shows it while it lives.
  lemma StuckShows(before: seq<Tier>, e: Entry, now: nat)
    requires |before| > 1 && AlwaysKeepsViews(before, e, now)
    ensures LeavesNoTrace(before, e, now)
  {
    var after := before[0 := before[0][e.key := e]];
    assert RolledBack(before, after, e, 1, {0});
    FailedPutView(before, after, e, 1, {0}, e.key, now);
    assert 0 in {0};
  }

  lemma RollbackUnseen(before: seq<Tier>, after: seq<Tier>, e: Entry, m: nat, stuck: set<nat>, now: nat)
    requires RolledBack(before, after, e, m, stuck) && Replicated(before, e.key, now) && LeavesNoTrace(before, e, now)
    ensures SameViews(before, after, now)
  {
    forall k, t: nat | t >= now ensures View(before, k, t) == View(after, k, t) {
      FailedPutView(before, after, e, m, stuck, k, t);
      if k == e.key {
        ReplicatedView(before, k, now, m, t);
        if !IsExpired(e.expiresAt, t) && View(before, k, now) == Some(e) {
          LastsInView(before, e, now, t);
        }
      }
    }
  }

  // An entry that readers of a replicated key see, they see for as long as it lives.
  lemma LastsInView(tiers: seq<Tier>, e: Entry, now: nat, t: nat)
    requires Replicated(tiers, e.key, now) && View(tiers, e.key, now) == Some(e)
    requires now <= t && !IsExpired(e.expiresAt, t)
    ensures View(tiers, e.key, t) == Some(e)
  {
    var s := FirstLive(tiers, e.key, now, 0);
    ViewIs(tiers, e.key, t, 0, s, e);
  }

  // A live copy that the last tier does not share.
  lemma Lone(tiers: seq<Tier>, key: BlockKey, now: nat) returns (j: nat)
    requires tiers != [] && !Replicated(tiers, key, now)
    ensures j < |tiers| && Alive(tiers[j], key, now).Some?
            && Alive(tiers[j], key, now) != Alive(tiers[|tiers| - 1], key, now)
  {
    var n := |tiers| - 1;
    if Alive(tiers[n], key, now).Some? {
      j :| 0 <= j < |tiers| && Alive(tiers[j], key, now) !in {None, Alive(tiers[n], key, now)};
    } else {
      j :| 0 <= j < |tiers| && Alive(tiers[j], key, now).Some?;
    }
  }

  // The loss happens: a live entry that only the first tier holds is gone after a write-through that fails at
  // the second, although every removal worked.
  method FailedPutForgets(engine: KvEngine, former: Entry, block: Entry, ttl: Option<Duration>) returns (r: Outcome)
    requires engine.Valid() && engine.writeAll && former.key == block.key && former.expiresAt == 0
    requires engine.tiers == [map[block.key := former], map[]]
    modifies engine`tiers, engine`clock, engine`faults
    ensures r.Failed?
    ensures forall t: nat ::
            View(old(engine.tiers), block.key, t) == Some(former) && View(engine.tiers, block.key, t) == None
  {
    ghost var before := engine.tiers;
    r := engine.Put(block, ttl, PutFaults({1}, {}));
    assert FailsAt(PutFaults({1}, {}), 2, 1);
    forall t: nat ensures View(before, block.key, t) == Some(former) && View(engine.tiers, block.key, t) == None {
      ViewIs(before, block.key, t, 0, 0, former);
      ViewIsNone(engine.tiers, block.key, t, 0);
    }
  }

  // What pinning does to one tier: a live entry gets the flag, a dead one goes.
  ghost predicate PinsTier(a: Tier, b: Tier, key: BlockKey, pinned: bool, now: nat) {
    b == match Alive(a, key, now)
         case Some(e) => a[key := e.(pinned := pinned)]
         case None => a - {key}
  }

  // Whatever fails, a tier is pinned or left alone.
  ghost predicate PinStep(a: Tier, b: Tier, key: BlockKey, pinned: bool, now: nat) {
    b == a || PinsTier(a, b, key, pinned, now)
  }

  // Pinning changes nothing but the pin flag of what readers see from now on, even when it fails midway.
  lemma PinnedViews(a: seq<Tier>, b: seq<Tier>, key: BlockKey, pinned: bool, now: nat)
    requires |a| == |b| && forall j :: 0 <= j < |a| ==> PinStep(a[j], b[j], key, pinned, now)
    ensures forall k, t: nat :: t >= now && k != key ==> View(b, k, t) == View(a, k, t)
    ensures forall t: nat :: t >= now ==> SetPin(View(b, key, t), pinned) == SetPin(View(a, key, t), pinned)
    ensures NothingNew(a, b)
  {
    forall k, bytes | Stored(b, k, bytes) ensures Stored(a, k, bytes) {
      var j :| 0 <= j < |b| && k in b[j] && b[j][k].bytes == bytes;
      assert PinStep(a[j], b[j], key, pinned, now);
    }
    forall k, t: nat | t >= now && k != key ensures View(b, k, t) == View(a, k, t) {
      forall j | 0 <= j < |a| ensures Alive(b[j], k, t) == Alive(a[j], k, t) {
        assert PinStep(a[j], b[j], key, pinned, now);
      }
      ViewDependsOnAlive(b, a, k, t, 0);
    }
    forall t: nat | t >= now ensures SetPin(View(b, key, t), pinned) == SetPin(View(a, key, t), pinned) {
      forall j | 0 <= j < |a| ensures SetPin(Alive(b[j], key, t), pinned) == SetPin(Alive(a[j], key, t), pinned) {
        assert PinStep(a[j], b[j], key, pinned, now);
      }
      ViewUpToPin(b, a, key, t, pinned, 0);
    }
  }

  lemma AliveSomewhere(tiers: seq<Tier>, key: BlockKey, t: nat, i: nat)
    requires i < |tiers| && Alive(tiers[i], key, t).Some?
    ensures View(tiers, key, t).Some?
  {
    SeenIffAlive(tiers, key, t);
  }

  lemma SeenIffAlive(tiers: seq<Tier>, key: BlockKey, t: nat)
    ensures View(tiers, key, t).Some? <==> exists i :: 0 <= i < |tiers| && Alive(tiers[i], key, t).Some?
  {
    SeenFrom(tiers, key, t, 0);
  }

  lemma {:induction false} SeenFrom(tiers: seq<Tier>, key: BlockKey, t: nat, i: nat)
    requires i <= |tiers|
    ensures ViewFrom(tiers, key, t, i).Some? <==> exists j :: i <= j < |tiers| && Alive(tiers[j], key, t).Some?
    decreases |tiers| - i
  {
    if i < |tiers| {
      SeenFrom(tiers, key, t, i + 1);
    }
  }
}
