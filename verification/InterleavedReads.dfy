/**
 Gets and prefetches that run at the same time on one engine (src/kv.rs).  The engine holds no lock across tiers, so
 their tier calls interleave freely; each call reads the clock once, at its start, and may give up at any step when a
 tier fails.  Without a put, move, pin or invalidation in between, no interleaving changes what any reader sees.
 */
module InterleavedReads {
  import opened Prelude
  import opened BlockKeys
  import opened Engine

  type CallId = nat

  // Where one call stands, and the time it read at its start.  A prefetch carries its destination; a get has none.
  datatype Pc =
    | AtTarget(key: BlockKey, now: nat, own: nat)                          // prefetch: look at its own tier
    | Scanning(key: BlockKey, now: nat, index: nat, target: Option<nat>)   // look at this tier next
    | Dropping(key: BlockKey, now: nat, index: nat, target: Option<nat>)   // remove what had expired
    | Copying(key: BlockKey, now: nat, entry: Entry, next: nat, last: nat, target: Option<nat>)   // tier by tier
    | Got(key: BlockKey, now: nat, at: nat, found: Option<Entry>)          // a get's answer, given at this time
    | Fetched(key: BlockKey, now: nat, own: nat, copy: Option<Entry>)      // what a prefetch found or left there
    | GaveUp
  {
    predicate Unfinished() { AtTarget? || Scanning? || Dropping? || Copying? }
  }

  datatype State = State(tiers: seq<Tier>, clock: nat, promote: bool, calls: map<CallId, Pc>)

  datatype Action =
    | Tick(to: nat)
    | StartGet(c: CallId, key: BlockKey)
    | StartPrefetch(c: CallId, key: BlockKey, target: nat)
    | Look(c: CallId)
    | Drop(c: CallId)
    | Copy(c: CallId)
    | GiveUp(c: CallId)

  function Init(tiers: seq<Tier>, clock: nat, promote: bool): State { State(tiers, clock, promote, map[]) }

  predicate Enabled(s: State, a: Action) {
    match a
    case Tick(to) => s.clock <= to
    case StartGet(c, _) => c !in s.calls
    case StartPrefetch(c, _, target) => c !in s.calls && target < |s.tiers|
    case Look(c) => c in s.calls && (s.calls[c].AtTarget? || s.calls[c].Scanning?)
    case Drop(c) => c in s.calls && s.calls[c].Dropping? && s.calls[c].index < |s.tiers|
    case Copy(c) => c in s.calls && s.calls[c].Copying? && s.calls[c].next < |s.tiers|
    case GiveUp(c) => c in s.calls && s.calls[c].Unfinished()
  }

  // ----- one look at a tier -----

  // What a prefetch finds in its own tier: a live copy ends it, a dead one goes, and then it searches the others.
  function AfterTarget(tiers: seq<Tier>, pc: Pc): Pc
    requires pc.AtTarget?
  {
    if pc.own >= |tiers| || pc.key !in tiers[pc.own] then Scanning(pc.key, pc.now, 0, Some(pc.own))
    else if IsExpired(tiers[pc.own][pc.key].expiresAt, pc.now) then Dropping(pc.key, pc.now, pc.own, Some(pc.own))
    else Fetched(pc.key, pc.now, pc.own, Some(tiers[pc.own][pc.key]))
  }

  // What a search finds in the next tier: nothing, a dead entry, or the entry it is looking for.
  function AfterLook(tiers: seq<Tier>, promote: bool, clock: nat, pc: Pc): Pc
    requires pc.Scanning?
  {
    if pc.index >= |tiers| then
      if pc.target.None? then Got(pc.key, pc.now, clock, None) else Fetched(pc.key, pc.now, pc.target.value, None)
    else if pc.target == Some(pc.index) || pc.key !in tiers[pc.index] then
      Scanning(pc.key, pc.now, pc.index + 1, pc.target)
    else if IsExpired(tiers[pc.index][pc.key].expiresAt, pc.now) then Dropping(pc.key, pc.now, pc.index, pc.target)
    else
      var e := tiers[pc.index][pc.key];
      if pc.target.Some? then Copying(pc.key, pc.now, e, pc.target.value, pc.target.value, pc.target)
      else if promote && pc.index > 0 then Copying(pc.key, pc.now, e, pc.index - 1, 0, None)
      else Got(pc.key, pc.now, clock, Some(e))
  }

  function AfterDrop(pc: Pc): Pc
    requires pc.Dropping?
  {
    Scanning(pc.key, pc.now, if pc.target == Some(pc.index) then 0 else pc.index + 1, pc.target)
  }

  // A promotion goes on to the tier before; when all are done, a get answers.
  function AfterCopy(clock: nat, pc: Pc): Pc
    requires pc.Copying?
  {
    if pc.next > pc.last then pc.(next := pc.next - 1)
    else if pc.target.None? then Got(pc.key, pc.now, clock, Some(pc.entry))
    else Fetched(pc.key, pc.now, pc.target.value, Some(pc.entry))
  }

  function Next(s: State, a: Action): State
    requires Enabled(s, a)
  {
    match a
    case Tick(to) => s.(clock := to)
    case StartGet(c, key) => s.(calls := s.calls[c := Scanning(key, s.clock, 0, None)])
    case StartPrefetch(c, key, target) => s.(calls := s.calls[c := AtTarget(key, s.clock, target)])
    case Look(c) =>
      var pc := s.calls[c];
      s.(calls := s.calls[c := if pc.AtTarget? then AfterTarget(s.tiers, pc)
                               else AfterLook(s.tiers, s.promote, s.clock, pc)])
    case Drop(c) =>
      var pc := s.calls[c];
      s.(tiers := Dropped(s.tiers, pc.index, pc.key), calls := s.calls[c := AfterDrop(pc)])
    case Copy(c) =>
      var pc := s.calls[c];
      s.(tiers := Copied(s.tiers, pc.entry, pc.next), calls := s.calls[c := AfterCopy(s.clock, pc)])
    case GiveUp(c) => s.(calls := s.calls[c := GaveUp])
  }

  // ----- the invariant -----

  // At the start the tier held nothing for the key that is still alive.
  ghost predicate WasDead(start: seq<Tier>, j: nat, key: BlockKey, clock: nat) {
    j < |start| && Alive(start[j], key, clock) == None
  }

  // The entry is what readers saw at the start as soon as everything else before it was dead.
  ghost predicate Leading(start: seq<Tier>, e: Entry, clock: nat) {
    exists s: nat :: Leads(start, e, s, clock)
  }

  // What readers would see at the time `now` is still alive at the time `at`, or they would see nothing.
  ghost predicate Steady(start: seq<Tier>, key: BlockKey, now: nat, at: nat) {
    var v := View(start, key, now);
    v.None? || !IsExpired(v.value.expiresAt, at)
  }

  // What a tier holds for a key: its own original, or a copy of what readers saw anyway.
  ghost predicate Explained(start: seq<Tier>, j: nat, e: Entry, clock: nat)
    requires j < |start|
  {
    (e.key in start[j] && start[j][e.key] == e) || Leading(start, e, clock)
  }

  ghost predicate EntryOk(start: seq<Tier>, tiers: seq<Tier>, clock: nat, j: nat, key: BlockKey)
    requires j < |start| == |tiers|
  {
    && (Alive(start[j], key, clock).Some? ==> Alive(tiers[j], key, clock) == Alive(start[j], key, clock))
    && (key in tiers[j] ==> tiers[j][key].key == key && Explained(start, j, tiers[j][key], clock))
  }

  ghost predicate TiersOk(start: seq<Tier>, tiers: seq<Tier>, clock: nat) {
    |start| == |tiers| && forall j: nat, key :: j < |start| ==> EntryOk(start, tiers, clock, j, key)
  }

  // The tiers a search has behind it, and a prefetch's own.
  ghost predicate Searched(start: seq<Tier>, key: BlockKey, clock: nat, index: nat, target: Option<nat>) {
    && (forall j: nat :: j < index ==> WasDead(start, j, key, clock))
    && (target.Some? ==> WasDead(start, target.value, key, clock))
  }

  ghost predicate CallOk(start: seq<Tier>, clock: nat, pc: Pc) {
    match pc
    case AtTarget(_, now, own) => now <= clock && own < |start|
    case Scanning(key, now, index, target) => now <= clock && index <= |start|
      && Searched(start, key, clock, index, target)
    case Dropping(key, now, index, target) =>
      && now <= clock && WasDead(start, index, key, clock)
      && (target != Some(index) ==> Searched(start, key, clock, index, target))
    case Copying(key, now, e, next, last, target) =>
      && now <= clock && FoundOk(start, clock, key, now, Some(e)) && last <= next
      && (target.Some? ==> target.value == next == last)
      && (target.None? && Steady(start, key, now, clock) ==> View(start, key, now) == Some(e))
      && forall j: nat :: last <= j <= next ==> WasDead(start, j, key, clock)
    case Got(key, now, at, found) =>
      && at <= clock && FoundOk(start, clock, key, now, found)
      && (Steady(start, key, now, at) ==> View(start, key, now) == found)
    case Fetched(key, now, own, Some(e)) =>
      && own < |start| && e.key == key && !IsExpired(e.expiresAt, now) && Explained(start, own, e, clock)
    case Fetched(key, now, own, None) => FoundOk(start, clock, key, now, None)
    case GaveUp => true
  }

  // What a call may have found: a leading entry that was not dead when the call began, or nothing because every
  // original is dead by now.
  ghost predicate FoundOk(start: seq<Tier>, clock: nat, key: BlockKey, now: nat, found: Option<Entry>) {
    match found
    case Some(e) => e.key == key && !IsExpired(e.expiresAt, now) && Leading(start, e, clock)
    case None => forall j: nat :: j < |start| ==> WasDead(start, j, key, clock)
  }

  ghost predicate Inv(start: seq<Tier>, s: State) {
    TiersOk(start, s.tiers, s.clock) && forall c :: c in s.calls ==> CallOk(start, s.clock, s.calls[c])
  }

  lemma InitInv(start: seq<Tier>, clock: nat, promote: bool)
    requires WellKeyed(start)
    ensures Inv(start, Init(start, clock, promote))
  {
    forall j: nat, key | j < |start| ensures EntryOk(start, start, clock, j, key) {
    }
  }

  // ----- every step keeps it -----

  lemma DeadLater(start: seq<Tier>, j: nat, key: BlockKey, clock: nat, later: nat)
    requires WasDead(start, j, key, clock) && clock <= later
    ensures WasDead(start, j, key, later)
  {
  }

  lemma LeadingLater(start: seq<Tier>, e: Entry, clock: nat, later: nat)
    requires Leading(start, e, clock) && clock <= later
    ensures Leading(start, e, later)
  {
    var s: nat :| Leads(start, e, s, clock);
    assert Leads(start, e, s, later);
  }

  lemma TiersLater(start: seq<Tier>, tiers: seq<Tier>, clock: nat, later: nat)
    requires TiersOk(start, tiers, clock) && clock <= later
    ensures TiersOk(start, tiers, later)
  {
    forall j: nat, key | j < |start| ensures EntryOk(start, tiers, later, j, key) {
      assert EntryOk(start, tiers, clock, j, key);
      if key in tiers[j] && Leading(start, tiers[j][key], clock) {
        LeadingLater(start, tiers[j][key], clock, later);
      }
    }
  }

  lemma CallLater(start: seq<Tier>, clock: nat, later: nat, pc: Pc)
    requires CallOk(start, clock, pc) && clock <= later
    ensures CallOk(start, later, pc)
  {
    forall j: nat, key | WasDead(start, j, key, clock) ensures WasDead(start, j, key, later) {
      DeadLater(start, j, key, clock, later);
    }
    forall e | Leading(start, e, clock) ensures Leading(start, e, later) {
      LeadingLater(start, e, clock, later);
    }
  }

  // A tier in which a search sees nothing, or nothing alive, held nothing alive at the start.
  lemma SeenDead(start: seq<Tier>, tiers: seq<Tier>, clock: nat, j: nat, key: BlockKey, now: nat)
    requires TiersOk(start, tiers, clock) && j < |start| && now <= clock
    requires key in tiers[j] ==> IsExpired(tiers[j][key].expiresAt, now)
    ensures WasDead(start, j, key, clock)
  {
    assert EntryOk(start, tiers, clock, j, key);
  }

  // What a search finds behind tiers that held nothing alive is what readers see.
  lemma FoundLeads(start: seq<Tier>, tiers: seq<Tier>, clock: nat, j: nat, key: BlockKey, target: Option<nat>)
    requires TiersOk(start, tiers, clock) && j < |start| && key in tiers[j] && Searched(start, key, clock, j, target)
    ensures tiers[j][key].key == key && Leading(start, tiers[j][key], clock)
  {
    var e := tiers[j][key];
    assert EntryOk(start, tiers, clock, j, key);
    if !Leading(start, e, clock) {
      forall i | 0 <= i < j && key in start[i] ensures IsExpired(start[i][key].expiresAt, clock) {
        assert WasDead(start, i, key, clock);
      }
      assert Leads(start, e, j, clock);
    }
  }

  // What a get finds alive is what readers would have seen at its own time, if that is still alive.
  lemma FoundIsView(start: seq<Tier>, tiers: seq<Tier>, clock: nat, j: nat, key: BlockKey, now: nat)
    requires TiersOk(start, tiers, clock) && j < |start| && key in tiers[j] && Searched(start, key, clock, j, None)
    requires now <= clock && !IsExpired(tiers[j][key].expiresAt, now) && Steady(start, key, now, clock)
    ensures View(start, key, now) == Some(tiers[j][key])
  {
    var e := tiers[j][key];
    FoundLeads(start, tiers, clock, j, key, None);
    var i: nat :| Leads(start, e, i, clock);
    assert Alive(start[i], key, now) == Some(e);
    SeenIffAlive(start, key, now);
    var s := FirstLive(start, key, now, 0);
    assert Alive(start[s], key, now) == View(start, key, now);
  }

  // A search that has come to its end found nothing because nothing is alive.
  lemma NothingIsView(start: seq<Tier>, clock: nat, key: BlockKey, now: nat)
    requires now <= clock && forall j: nat :: j < |start| ==> WasDead(start, j, key, clock)
    ensures Steady(start, key, now, clock) ==> View(start, key, now) == None
  {
    if View(start, key, now).Some? {
      var s := FirstLive(start, key, now, 0);
      assert WasDead(start, s, key, clock);
    }
  }

  lemma LookStep(start: seq<Tier>, s: State, pc: Pc)
    requires TiersOk(start, s.tiers, s.clock) && CallOk(start, s.clock, pc) && pc.Scanning?
    ensures CallOk(start, s.clock, AfterLook(s.tiers, s.promote, s.clock, pc))
  {
    var j := pc.index;
    if j >= |s.tiers| {
      NothingIsView(start, s.clock, pc.key, pc.now);
    } else if pc.target != Some(j) {
      if pc.key !in s.tiers[j] || IsExpired(s.tiers[j][pc.key].expiresAt, pc.now) {
        SeenDead(start, s.tiers, s.clock, j, pc.key, pc.now);
      } else {
        FoundLeads(start, s.tiers, s.clock, j, pc.key, pc.target);
        if pc.target.None? && Steady(start, pc.key, pc.now, s.clock) {
          FoundIsView(start, s.tiers, s.clock, j, pc.key, pc.now);
        }
      }
    }
  }

  lemma TargetStep(start: seq<Tier>, s: State, pc: Pc)
    requires TiersOk(start, s.tiers, s.clock) && CallOk(start, s.clock, pc) && pc.AtTarget?
    ensures CallOk(start, s.clock, AfterTarget(s.tiers, pc))
  {
    var j := pc.own;
    if pc.key !in s.tiers[j] || IsExpired(s.tiers[j][pc.key].expiresAt, pc.now) {
      SeenDead(start, s.tiers, s.clock, j, pc.key, pc.now);
    } else {
      assert EntryOk(start, s.tiers, s.clock, j, pc.key);
    }
  }

  // Removing the key from a tier that held nothing alive at the start, whatever another read has copied there since.
  lemma DropStep(start: seq<Tier>, tiers: seq<Tier>, clock: nat, d: nat, key: BlockKey)
    requires TiersOk(start, tiers, clock) && WasDead(start, d, key, clock)
    ensures TiersOk(start, Dropped(tiers, d, key), clock)
  {
    var after := Dropped(tiers, d, key);
    forall j: nat, k | j < |start| ensures EntryOk(start, after, clock, j, k) {
      assert EntryOk(start, tiers, clock, j, k);
      assert !(j == d && k == key) ==> Alive(after[j], k, clock) == Alive(tiers[j], k, clock);
    }
  }

  lemma CopyStep(start: seq<Tier>, tiers: seq<Tier>, clock: nat, d: nat, e: Entry)
    requires TiersOk(start, tiers, clock) && WasDead(start, d, e.key, clock) && Leading(start, e, clock)
    ensures TiersOk(start, Copied(tiers, e, d), clock)
  {
    var after := Copied(tiers, e, d);
    forall j: nat, k | j < |start| ensures EntryOk(start, after, clock, j, k) {
      assert EntryOk(start, tiers, clock, j, k);
      assert !(j == d && k == e.key) ==> Alive(after[j], k, clock) == Alive(tiers[j], k, clock);
    }
  }

  lemma TiersStep(start: seq<Tier>, s: State, a: Action)
    requires Inv(start, s) && Enabled(s, a)
    ensures TiersOk(start, Next(s, a).tiers, Next(s, a).clock)
  {
    match a
    case Tick(to) => TiersLater(start, s.tiers, s.clock, to);
    case Drop(c) =>
      var pc := s.calls[c];
      assert CallOk(start, s.clock, pc);
      DropStep(start, s.tiers, s.clock, pc.index, pc.key);
    case Copy(c) =>
      var pc := s.calls[c];
      assert CallOk(start, s.clock, pc);
      assert WasDead(start, pc.next, pc.key, s.clock);
      CopyStep(start, s.tiers, s.clock, pc.next, pc.entry);
    case _ =>
  }

  lemma CopiedCall(start: seq<Tier>, clock: nat, pc: Pc)
    requires CallOk(start, clock, pc) && pc.Copying?
    ensures CallOk(start, clock, AfterCopy(clock, pc))
  {
    assert WasDead(start, pc.next, pc.key, clock);
  }

  lemma CallStep(start: seq<Tier>, s: State, a: Action, c: CallId)
    requires Inv(start, s) && Enabled(s, a) && c in Next(s, a).calls
    ensures CallOk(start, Next(s, a).clock, Next(s, a).calls[c])
  {
    if a.Tick? {
      CallLater(start, s.clock, a.to, s.calls[c]);
    } else if c in s.calls {
      assert CallOk(start, s.clock, s.calls[c]);
      if a == Look(c) && s.calls[c].Scanning? {
        LookStep(start, s, s.calls[c]);
      } else if a == Look(c) {
        TargetStep(start, s, s.calls[c]);
      } else if a == Copy(c) {
        CopiedCall(start, s.clock, s.calls[c]);
      }
    }
  }

  lemma InvStep(start: seq<Tier>, s: State, a: Action)
    requires Inv(start, s) && Enabled(s, a)
    ensures Inv(start, Next(s, a))
  {
    TiersStep(start, s, a);
    forall c | c in Next(s, a).calls ensures CallOk(start, Next(s, a).clock, Next(s, a).calls[c]) {
      CallStep(start, s, a, c);
    }
  }

  // ----- what readers see -----

  // The invariant fixes every view from now on.
  lemma InvKeepsViews(start: seq<Tier>, tiers: seq<Tier>, clock: nat)
    requires TiersOk(start, tiers, clock)
    ensures SameViews(start, tiers, clock)
  {
    forall key, t: nat | t >= clock ensures View(start, key, t) == View(tiers, key, t) {
      if View(tiers, key, t).Some? {
        var i := FirstLive(tiers, key, t, 0);
        SeenAtStart(start, tiers, clock, key, t, i);
      } else {
        SeenIffAlive(tiers, key, t);
        forall j: nat | 0 <= j < |start| ensures Alive(start[j], key, t) == None {
          assert EntryOk(start, tiers, clock, j, key);
        }
        ViewIsNone(start, key, t, 0);
      }
    }
  }

  // The first live entry now is what readers would have seen at the start.
  lemma SeenAtStart(start: seq<Tier>, tiers: seq<Tier>, clock: nat, key: BlockKey, t: nat, i: nat)
    requires TiersOk(start, tiers, clock) && clock <= t && i < |start|
    requires Alive(tiers[i], key, t).Some? && forall j :: 0 <= j < i ==> Alive(tiers[j], key, t) == None
    ensures View(start, key, t) == Alive(tiers[i], key, t)
  {
    var e := tiers[i][key];
    assert EntryOk(start, tiers, clock, i, key);
    forall j: nat | 0 <= j < i ensures Alive(start[j], key, t) == None {
      assert EntryOk(start, tiers, clock, j, key);
    }
    if key in start[i] && start[i][key] == e {
      ViewIs(start, key, t, 0, i, e);
    } else {
      var s: nat :| Leads(start, e, s, clock);
      forall j: nat | 0 <= j < s ensures Alive(start[j], key, t) in {None, Some(e)} {
        assert key in start[j] ==> start[j][key] == e || IsExpired(start[j][key].expiresAt, clock);
      }
      ViewIs(start, key, t, 0, s, e);
    }
  }

  // ----- runs -----

  function Exec(start: seq<Tier>, clock: nat, promote: bool, actions: seq<Action>): Option<State> {
    if actions == [] then Some(Init(start, clock, promote))
    else
      var last := |actions| - 1;
      match Exec(start, clock, promote, actions[..last])
      case None => None
      case Some(s) => if Enabled(s, actions[last]) then Some(Next(s, actions[last])) else None
  }

  lemma {:induction false} RunInv(start: seq<Tier>, clock: nat, promote: bool, actions: seq<Action>)
    requires WellKeyed(start) && Exec(start, clock, promote, actions).Some?
    ensures Inv(start, Exec(start, clock, promote, actions).value)
  {
    if actions == [] {
      InitInv(start, clock, promote);
    } else {
      var last := |actions| - 1;
      RunInv(start, clock, promote, actions[..last]);
      InvStep(start, Exec(start, clock, promote, actions[..last]).value, actions[last]);
    }
  }

  // No interleaving of gets and prefetches changes what any reader sees, for any key and at any time from now on.
  lemma {:induction false} ReadsKeepViews(start: seq<Tier>, clock: nat, promote: bool, actions: seq<Action>)
    requires WellKeyed(start) && Exec(start, clock, promote, actions).Some?
    ensures var s := Exec(start, clock, promote, actions).value; SameViews(start, s.tiers, s.clock)
  {
    RunInv(start, clock, promote, actions);
    var s := Exec(start, clock, promote, actions).value;
    InvKeepsViews(start, s.tiers, s.clock);
  }

  // What a get answers is what every reader sees, before, between and after: the entry it returns, for as long as that
  // lives, and nothing if it returns nothing.  It never returns an entry that was dead when it began.
  lemma {:induction false} AnswerIsView(start: seq<Tier>, clock: nat, promote: bool, actions: seq<Action>, c: CallId,
                                        t: nat)
    requires WellKeyed(start) && Exec(start, clock, promote, actions).Some?
    requires var s := Exec(start, clock, promote, actions).value; c in s.calls && s.calls[c].Got? && s.clock <= t
    ensures var s := Exec(start, clock, promote, actions).value;
      match s.calls[c].found
      case None => View(start, s.calls[c].key, t) == View(s.tiers, s.calls[c].key, t) == None
      case Some(e) =>
        && !IsExpired(e.expiresAt, s.calls[c].now)
        && (IsExpired(e.expiresAt, t) || View(start, s.calls[c].key, t) == View(s.tiers, s.calls[c].key, t) == Some(e))
  {
    RunInv(start, clock, promote, actions);
    ReadsKeepViews(start, clock, promote, actions);
    var s := Exec(start, clock, promote, actions).value;
    assert CallOk(start, s.clock, s.calls[c]);
    var key, found := s.calls[c].key, s.calls[c].found;
    if found.None? {
      forall j: nat | 0 <= j < |start| ensures Alive(start[j], key, t) == None {
        assert WasDead(start, j, key, s.clock);
      }
      ViewIsNone(start, key, t, 0);
    } else if !IsExpired(found.value.expiresAt, t) {
      var i: nat :| Leads(start, found.value, i, s.clock);
      ViewIs(start, key, t, 0, i, found.value);
    }
  }

  // ----- what a call was asked for -----

  function TargetOf(pc: Pc): Option<nat>
    requires !pc.GaveUp?
  {
    if pc.AtTarget? || pc.Fetched? then Some(pc.own) else if pc.Got? then None else pc.target
  }

  // The i-th action began the call, for the key and the tier it is at work on, at the time it goes by.
  ghost predicate BeganAt(start: seq<Tier>, clock: nat, promote: bool, actions: seq<Action>, i: nat, c: CallId,
                          pc: Pc)
  {
    && i < |actions| && !pc.GaveUp? && Exec(start, clock, promote, actions[..i]).Some?
    && Exec(start, clock, promote, actions[..i]).value.clock == pc.now
    && actions[i] == match TargetOf(pc) case None => StartGet(c, pc.key) case Some(own) => StartPrefetch(c, pc.key, own)
  }

  lemma StepKeepsRequest(s: State, a: Action, c: CallId)
    requires Enabled(s, a) && c in s.calls && !Next(s, a).calls[c].GaveUp?
    ensures var pc, pc' := s.calls[c], Next(s, a).calls[c];
      !pc.GaveUp? && pc'.key == pc.key && pc'.now == pc.now && TargetOf(pc') == TargetOf(pc)
  {
  }

  // In every run, what a call is at work on and what it answers is what it was called for, by the clock of its start.
  lemma {:induction false} CallBegan(start: seq<Tier>, clock: nat, promote: bool, actions: seq<Action>, c: CallId)
    returns (i: nat)
    requires Exec(start, clock, promote, actions).Some? && c in Exec(start, clock, promote, actions).value.calls
    requires !Exec(start, clock, promote, actions).value.calls[c].GaveUp?
    ensures BeganAt(start, clock, promote, actions, i, c, Exec(start, clock, promote, actions).value.calls[c])
  {
    var last := |actions| - 1;
    var s := Exec(start, clock, promote, actions[..last]).value;
    if c in s.calls {
      StepKeepsRequest(s, actions[last], c);
      i := CallBegan(start, clock, promote, actions[..last], c);
      assert actions[..last][..i] == actions[..i];
    } else {
      i := last;
    }
  }

  // ----- what a promotion writes -----

  // At the i-th step the get looked at tier m and found its entry alive there.
  ghost predicate FoundAt(start: seq<Tier>, clock: nat, promote: bool, actions: seq<Action>, i: nat, c: CallId,
                          m: nat)
  {
    && i < |actions| && actions[i] == Look(c) && Exec(start, clock, promote, actions[..i]).Some?
    && var s := Exec(start, clock, promote, actions[..i]).value;
    && c in s.calls && s.calls[c].Scanning? && s.calls[c].target.None? && s.calls[c].index == m < |s.tiers|
    && Alive(s.tiers[m], s.calls[c].key, s.calls[c].now).Some?
  }

  // At the i-th step the call wrote its entry to tier j.
  ghost predicate WroteAt(start: seq<Tier>, clock: nat, promote: bool, actions: seq<Action>, i: nat, c: CallId,
                          j: nat)
  {
    && i < |actions| && actions[i] == Copy(c) && Exec(start, clock, promote, actions[..i]).Some?
    && var s := Exec(start, clock, promote, actions[..i]).value;
    && c in s.calls && s.calls[c].Copying? && s.calls[c].next == j
  }

  ghost predicate Found(start: seq<Tier>, clock: nat, promote: bool, actions: seq<Action>, c: CallId, m: nat) {
    exists i: nat :: FoundAt(start, clock, promote, actions, i, c, m)
  }

  ghost predicate Wrote(start: seq<Tier>, clock: nat, promote: bool, actions: seq<Action>, c: CallId, j: nat) {
    exists i: nat :: WroteAt(start, clock, promote, actions, i, c, j)
  }

  // The get found its entry in tier m and has written it to every tier between `next` and there.
  ghost predicate Promoted(start: seq<Tier>, clock: nat, promote: bool, actions: seq<Action>, c: CallId, next: nat,
                           m: nat)
  {
    && Found(start, clock, promote, actions, c, m)
    && forall j: nat :: next < j < m ==> Wrote(start, clock, promote, actions, c, j)
  }

  lemma FoundLater(start: seq<Tier>, clock: nat, promote: bool, actions: seq<Action>, a: Action, c: CallId, m: nat)
    requires Found(start, clock, promote, actions, c, m)
    ensures Found(start, clock, promote, actions + [a], c, m)
  {
    var i: nat :| FoundAt(start, clock, promote, actions, i, c, m);
    assert (actions + [a])[..i] == actions[..i];
    assert FoundAt(start, clock, promote, actions + [a], i, c, m);
  }

  lemma WroteLater(start: seq<Tier>, clock: nat, promote: bool, actions: seq<Action>, a: Action, c: CallId, j: nat)
    requires Wrote(start, clock, promote, actions, c, j)
    ensures Wrote(start, clock, promote, actions + [a], c, j)
  {
    var i: nat :| WroteAt(start, clock, promote, actions, i, c, j);
    assert (actions + [a])[..i] == actions[..i];
    assert WroteAt(start, clock, promote, actions + [a], i, c, j);
  }

  lemma PromotedLater(start: seq<Tier>, clock: nat, promote: bool, actions: seq<Action>, a: Action, c: CallId,
                      next: nat, m: nat)
    requires Promoted(start, clock, promote, actions, c, next, m)
    ensures Promoted(start, clock, promote, actions + [a], c, next, m)
  {
    FoundLater(start, clock, promote, actions, a, c, m);
    forall j: nat | next < j < m ensures Wrote(start, clock, promote, actions + [a], c, j) {
      WroteLater(start, clock, promote, actions, a, c, j);
    }
  }

  // Everything that the answer calls for has been written.
  ghost predicate FullyPromoted(start: seq<Tier>, clock: nat, promote: bool, actions: seq<Action>, c: CallId, m: nat) {
    && Found(start, clock, promote, actions, c, m)
    && (promote ==> forall j: nat :: j < m ==> Wrote(start, clock, promote, actions, c, j))
  }

  // How far a get that has found something has come with its promotion.
  ghost predicate PromotedSoFar(start: seq<Tier>, clock: nat, promote: bool, actions: seq<Action>, c: CallId, pc: Pc) {
    && (pc.Copying? && pc.target.None? ==>
          pc.last == 0 && promote && exists m: nat :: Promoted(start, clock, promote, actions, c, pc.next, m))
    && (pc.Got? && pc.found.Some? ==> exists m: nat :: FullyPromoted(start, clock, promote, actions, c, m))
  }

  // A get that answers with an entry from some tier has, if reads promote, written it to every tier before that one.
  lemma {:induction false} AnswerWasPromoted(start: seq<Tier>, clock: nat, promote: bool, actions: seq<Action>,
                                             c: CallId)
    requires Exec(start, clock, promote, actions).Some? && c in Exec(start, clock, promote, actions).value.calls
    ensures PromotedSoFar(start, clock, promote, actions, c, Exec(start, clock, promote, actions).value.calls[c])
  {
    if actions != [] {
      var last := |actions| - 1;
      var front, a := actions[..last], actions[last];
      var s := Exec(start, clock, promote, front).value;
      assert actions == front + [a];
      PromoteIsFixed(start, clock, promote, front);
      if c in s.calls {
        AnswerWasPromoted(start, clock, promote, front, c);
        PromotionStep(start, clock, promote, front, a, c);
      }
    }
  }

  lemma {:induction false} PromoteIsFixed(start: seq<Tier>, clock: nat, promote: bool, actions: seq<Action>)
    requires Exec(start, clock, promote, actions).Some?
    ensures Exec(start, clock, promote, actions).value.promote == promote
  {
    if actions != [] {
      PromoteIsFixed(start, clock, promote, actions[..|actions| - 1]);
    }
  }

  lemma {:induction false} PromotionStep(start: seq<Tier>, clock: nat, promote: bool, front: seq<Action>, a: Action,
                                         c: CallId)
    requires Exec(start, clock, promote, front).Some?
    requires var s := Exec(start, clock, promote, front).value;
      && s.promote == promote && Enabled(s, a) && c in s.calls
      && PromotedSoFar(start, clock, promote, front, c, s.calls[c])
    ensures var s := Exec(start, clock, promote, front).value;
      PromotedSoFar(start, clock, promote, front + [a], c, Next(s, a).calls[c])
  {
    var s := Exec(start, clock, promote, front).value;
    var pc := s.calls[c];
    if pc.Scanning? && pc.target.None? && a == Look(c) {
      LookPromotes(start, clock, promote, front, c);
    } else if pc.Copying? && pc.target.None? && a == Copy(c) {
      CopyPromotes(start, clock, promote, front, c);
    } else if pc.Copying? && pc.target.None? {
      var m: nat :| Promoted(start, clock, promote, front, c, pc.next, m);
      PromotedLater(start, clock, promote, front, a, c, pc.next, m);
    } else if pc.Got? && pc.found.Some? {
      var m: nat :| FullyPromoted(start, clock, promote, front, c, m);
      FullyPromotedLater(start, clock, promote, front, a, c, m);
    }
  }

  lemma FullyPromotedLater(start: seq<Tier>, clock: nat, promote: bool, actions: seq<Action>, a: Action, c: CallId,
                           m: nat)
    requires FullyPromoted(start, clock, promote, actions, c, m)
    ensures FullyPromoted(start, clock, promote, actions + [a], c, m)
  {
    FoundLater(start, clock, promote, actions, a, c, m);
    forall j: nat | promote && j < m ensures Wrote(start, clock, promote, actions + [a], c, j) {
      WroteLater(start, clock, promote, actions, a, c, j);
    }
  }

  lemma {:induction false} LookPromotes(start: seq<Tier>, clock: nat, promote: bool, front: seq<Action>, c: CallId)
    requires Exec(start, clock, promote, front).Some?
    requires var s := Exec(start, clock, promote, front).value;
      s.promote == promote && c in s.calls && s.calls[c].Scanning? && s.calls[c].target.None?
    ensures var s := Exec(start, clock, promote, front).value;
      PromotedSoFar(start, clock, promote, front + [Look(c)], c, AfterLook(s.tiers, s.promote, s.clock, s.calls[c]))
  {
    var all, s := front + [Look(c)], Exec(start, clock, promote, front).value;
    var m, pc' := s.calls[c].index, AfterLook(s.tiers, s.promote, s.clock, s.calls[c]);
    assert all[..|front|] == front;
    if pc'.Copying? || (pc'.Got? && pc'.found.Some?) {
      assert FoundAt(start, clock, promote, all, |front|, c, m);
      assert pc'.Copying? ==> Promoted(start, clock, promote, all, c, pc'.next, m);
      assert m == 0 || !promote ==> FullyPromoted(start, clock, promote, all, c, m);
    }
  }

  lemma {:induction false} CopyPromotes(start: seq<Tier>, clock: nat, promote: bool, front: seq<Action>, c: CallId)
    requires Exec(start, clock, promote, front).Some?
    requires var s := Exec(start, clock, promote, front).value;
      && c in s.calls && s.calls[c].Copying? && s.calls[c].target.None?
      && PromotedSoFar(start, clock, promote, front, c, s.calls[c])
    ensures var s := Exec(start, clock, promote, front).value;
      PromotedSoFar(start, clock, promote, front + [Copy(c)], c, AfterCopy(s.clock, s.calls[c]))
  {
    var all, s := front + [Copy(c)], Exec(start, clock, promote, front).value;
    var pc, pc' := s.calls[c], AfterCopy(s.clock, s.calls[c]);
    var m: nat :| Promoted(start, clock, promote, front, c, pc.next, m);
    PromotedLater(start, clock, promote, front, Copy(c), c, pc.next, m);
    assert all[..|front|] == front;
    assert WroteAt(start, clock, promote, all, |front|, c, pc.next);
    assert pc'.Copying? ==> Promoted(start, clock, promote, all, c, pc'.next, m);
    assert pc.next == 0 ==> FullyPromoted(start, clock, promote, all, c, m);
  }

  // ----- what a prefetch leaves -----

  // The step that ends a prefetch leaves a copy in its own tier that was alive when the prefetch began, or finds
  // nothing alive in any tier.
  lemma {:induction false} FetchedIsThere(start: seq<Tier>, clock: nat, promote: bool, actions: seq<Action>, a: Action,
                                          c: CallId)
    requires WellKeyed(start) && Exec(start, clock, promote, actions).Some?
    requires Enabled(Exec(start, clock, promote, actions).value, a)
    requires var s := Exec(start, clock, promote, actions).value;
      c in s.calls && !s.calls[c].Fetched? && Next(s, a).calls[c].Fetched?
    ensures var s := Next(Exec(start, clock, promote, actions).value, a);
      match s.calls[c].copy
      case Some(e) =>
        && s.calls[c].own < |s.tiers| && s.calls[c].key in s.tiers[s.calls[c].own]
        && s.tiers[s.calls[c].own][s.calls[c].key] == e && !IsExpired(e.expiresAt, s.calls[c].now)
      case None => forall j: nat :: j < |s.tiers| ==> Alive(s.tiers[j], s.calls[c].key, s.clock) == None
  {
    RunInv(start, clock, promote, actions);
    var before := Exec(start, clock, promote, actions).value;
    InvStep(start, before, a);
    assert CallOk(start, before.clock, before.calls[c]);
    var s := Next(before, a);
    assert CallOk(start, s.clock, s.calls[c]);
    if s.calls[c].copy.None? {
      forall j: nat | j < |s.tiers| ensures Alive(s.tiers[j], s.calls[c].key, s.clock) == None {
        DeadEverywhere(start, s, s.calls[c].key, j);
      }
    }
  }

  // Where no original is alive, no copy is.
  lemma DeadEverywhere(start: seq<Tier>, s: State, key: BlockKey, j: nat)
    requires Inv(start, s) && j < |s.tiers| && forall i: nat :: i < |start| ==> WasDead(start, i, key, s.clock)
    ensures Alive(s.tiers[j], key, s.clock) == None
  {
    assert EntryOk(start, s.tiers, s.clock, j, key) && WasDead(start, j, key, s.clock);
    if key in s.tiers[j] && Leading(start, s.tiers[j][key], s.clock) {
      var i: nat :| Leads(start, s.tiers[j][key], i, s.clock);
      assert WasDead(start, i, key, s.clock);
    }
  }

  // ----- every call ends -----

  // How many steps of its own a call may still take.
  function Rank(pc: Pc, n: nat): int {
    match pc
    case AtTarget(_, _, _) => 3 * n + 4
    case Scanning(_, _, index, _) => 3 * n + 2 - 2 * index
    case Dropping(_, _, index, target) => if target == Some(index) then 3 * n + 3 else 3 * n + 1 - 2 * index
    case Copying(_, _, _, next, last, _) => next - last + 1
    case _ => 0
  }

  // A new read can begin in any state, and a tier may fail at any step of one.
  lemma CanBegin(s: State, c: CallId, key: BlockKey, target: nat)
    ensures c !in s.calls ==> Enabled(s, StartGet(c, key))
    ensures c !in s.calls && target < |s.tiers| ==> Enabled(s, StartPrefetch(c, key, target))
    ensures c in s.calls && !s.calls[c].Got? && !s.calls[c].Fetched? && !s.calls[c].GaveUp? ==> Enabled(s, GiveUp(c))
  {
  }

  ghost predicate StepOf(a: Action, c: CallId) { a == Look(c) || a == Drop(c) || a == Copy(c) }

  // In every run an unfinished call can take a step of its own, and each such step brings it nearer to its end, which
  // is an answer unless a tier fails: no call is left behind or goes round in circles.
  lemma {:induction false} CallsEnd(start: seq<Tier>, clock: nat, promote: bool, actions: seq<Action>, c: CallId)
    requires WellKeyed(start) && Exec(start, clock, promote, actions).Some?
    requires c in Exec(start, clock, promote, actions).value.calls
    ensures var s := Exec(start, clock, promote, actions).value;
      && (s.calls[c].Got? || s.calls[c].Fetched? || s.calls[c].GaveUp? || exists a :: StepOf(a, c) && Enabled(s, a))
      && forall a :: StepOf(a, c) && Enabled(s, a) ==>
           0 <= Rank(Next(s, a).calls[c], |start|) < Rank(s.calls[c], |start|) && !Next(s, a).calls[c].GaveUp?
  {
    RunInv(start, clock, promote, actions);
    var s := Exec(start, clock, promote, actions).value;
    var pc := s.calls[c];
    assert CallOk(start, s.clock, pc);
    if pc.Copying? {
      assert WasDead(start, pc.next, pc.key, s.clock);
    }
    var step := if pc.Dropping? then Drop(c) else if pc.Copying? then Copy(c) else Look(c);
    assert pc.Unfinished() ==> StepOf(step, c) && Enabled(s, step);
    forall a | StepOf(a, c) && Enabled(s, a)
      ensures 0 <= Rank(Next(s, a).calls[c], |start|) < Rank(pc, |start|) && !Next(s, a).calls[c].GaveUp?
    {
      RankFalls(start, s, a, c);
    }
  }

  lemma RankFalls(start: seq<Tier>, s: State, a: Action, c: CallId)
    requires Inv(start, s) && StepOf(a, c) && Enabled(s, a)
    ensures 0 <= Rank(Next(s, a).calls[c], |start|) < Rank(s.calls[c], |start|) && !Next(s, a).calls[c].GaveUp?
  {
    var pc := s.calls[c];
    assert CallOk(start, s.clock, pc);
    if pc.Dropping? || pc.Copying? {
      assert !a.Look?;
    }
  }

  // ----- when a get answers with what readers saw when it began -----

  // In that run, call c is a get of the key that began at `now` and has answered at `at`.
  ghost predicate Answers(start: seq<Tier>, clock: nat, promote: bool, actions: seq<Action>, c: CallId, key: BlockKey,
                          now: nat, at: nat, found: Option<Entry>)
  {
    match Exec(start, clock, promote, actions)
    case None => false
    case Some(s) => c in s.calls && s.calls[c] == Got(key, now, at, found)
  }

  // Every get of the key that begins at `now` and answers at `at` returns what readers saw when it began.
  ghost predicate AnswersFirstView(start: seq<Tier>, clock: nat, promote: bool, key: BlockKey, now: nat, at: nat) {
    forall actions, c, found ::
      Answers(start, clock, promote, actions, c, key, now, at, found) ==> found == View(start, key, now)
  }

  // That holds, in all interleavings, exactly if what readers saw then does not die before the answer.  Otherwise
  // another read may remove it first, and the get returns an entry from a later tier, or none.
  lemma AnswersFirstViewIff(start: seq<Tier>, clock: nat, promote: bool, key: BlockKey, now: nat, at: nat)
    requires WellKeyed(start) && clock <= now <= at
    ensures AnswersFirstView(start, clock, promote, key, now, at) <==> Steady(start, key, now, at)
  {
    if Steady(start, key, now, at) {
      forall actions, c, found | Answers(start, clock, promote, actions, c, key, now, at, found)
        ensures found == View(start, key, now)
      {
        RunInv(start, clock, promote, actions);
        var s := Exec(start, clock, promote, actions).value;
        assert CallOk(start, s.clock, s.calls[c]);
      }
    } else {
      var actions, found := Overtaken(start, clock, promote, key, now, at);
    }
  }

  lemma Extend(start: seq<Tier>, clock: nat, promote: bool, actions: seq<Action>, a: Action)
    requires Exec(start, clock, promote, actions).Some? && Enabled(Exec(start, clock, promote, actions).value, a)
    ensures Exec(start, clock, promote, actions + [a]) == Some(Next(Exec(start, clock, promote, actions).value, a))
  {
    assert (actions + [a])[..|actions|] == actions;
  }

  // A get that scans without interruption comes to the first tier that holds something it takes for alive, or to the
  // end, and leaves nothing of the key behind it.
  lemma {:induction false} Sweep(start: seq<Tier>, clock: nat, promote: bool, actions: seq<Action>, c: CallId)
    returns (more: seq<Action>)
    requires Exec(start, clock, promote, actions).Some?
    requires var s := Exec(start, clock, promote, actions).value;
      && c in s.calls && s.calls[c].Scanning? && s.calls[c].target.None? && s.calls[c].index <= |s.tiers|
      && forall j :: 0 <= j < s.calls[c].index ==> s.calls[c].key !in s.tiers[j]
    ensures Exec(start, clock, promote, more).Some?
    ensures var s, s' := Exec(start, clock, promote, actions).value, Exec(start, clock, promote, more).value;
      && s'.clock == s.clock && s'.promote == s.promote && |s'.tiers| == |s.tiers|
      && c in s'.calls && s'.calls == s.calls[c := s'.calls[c]] && s'.calls[c].Scanning?
      && s'.calls[c] == Scanning(s.calls[c].key, s.calls[c].now, s'.calls[c].index, None)
      && Stopped(s'.tiers, s'.calls[c])
      && forall j :: 0 <= j < |s.tiers| ==> SweptTier(s.tiers[j], s'.tiers[j], s.calls[c].key, s.calls[c].now)
    decreases |Exec(start, clock, promote, actions).value.tiers|
              - Exec(start, clock, promote, actions).value.calls[c].index
  {
    var s := Exec(start, clock, promote, actions).value;
    var pc := s.calls[c];
    if Stopped(s.tiers, pc) {
      return actions;
    }
    Extend(start, clock, promote, actions, Look(c));
    var next := actions + [Look(c)];
    if pc.key in s.tiers[pc.index] {
      Extend(start, clock, promote, next, Drop(c));
      next := next + [Drop(c)];
    }
    more := Sweep(start, clock, promote, next, c);
  }

  // A tier has lost the key if what it held was dead, and is otherwise as it was.
  ghost predicate SweptTier(before: Tier, after: Tier, key: BlockKey, now: nat) {
    after == before || (after == before - {key} && Alive(before, key, now) == None)
  }

  ghost predicate Stopped(tiers: seq<Tier>, pc: Pc)
    requires pc.Scanning?
  {
    && pc.index <= |tiers| && (forall j :: 0 <= j < pc.index ==> pc.key !in tiers[j])
    && (pc.index < |tiers| ==> Alive(tiers[pc.index], pc.key, pc.now).Some?)
  }

  // A get that copies without interruption answers with what it copies.
  lemma {:induction false} Promotes(start: seq<Tier>, clock: nat, promote: bool, actions: seq<Action>, c: CallId)
    returns (more: seq<Action>)
    requires Exec(start, clock, promote, actions).Some?
    requires var s := Exec(start, clock, promote, actions).value;
      && c in s.calls && s.calls[c].Copying? && s.calls[c].target.None?
      && s.calls[c].last <= s.calls[c].next < |s.tiers|
    ensures var s := Exec(start, clock, promote, actions).value;
      var pc := s.calls[c];
      Answers(start, clock, promote, more, c, pc.key, pc.now, s.clock, Some(pc.entry))
    decreases Exec(start, clock, promote, actions).value.calls[c].next
  {
    var s := Exec(start, clock, promote, actions).value;
    var pc := s.calls[c];
    Extend(start, clock, promote, actions, Copy(c));
    more := actions + [Copy(c)];
    if pc.next > pc.last {
      more := Promotes(start, clock, promote, more, c);
    }
  }

  // The run in which another get comes in between: it begins when the entry is dead, removes whatever is dead by then,
  // and only then does the first one look.
  lemma {:induction false} Overtaken(start: seq<Tier>, clock: nat, promote: bool, key: BlockKey, now: nat, at: nat)
    returns (actions: seq<Action>, found: Option<Entry>)
    requires WellKeyed(start) && clock <= now <= at && !Steady(start, key, now, at)
    ensures Answers(start, clock, promote, actions, 0, key, now, at, found) && found != View(start, key, now)
  {
    actions := BothBegin(start, clock, promote, key, now, at);
    actions := Sweep(start, clock, promote, actions, 1);
    actions := Sweep(start, clock, promote, actions, 0);
    var s := Exec(start, clock, promote, actions).value;
    var pc := s.calls[0];
    found := if pc.index < |s.tiers| then Some(s.tiers[pc.index][key]) else None;
    Extend(start, clock, promote, actions, Look(0));
    actions := actions + [Look(0)];
    if Exec(start, clock, promote, actions).value.calls[0].Copying? {
      actions := Promotes(start, clock, promote, actions, 0);
    }
  }

  lemma {:induction false} BothBegin(start: seq<Tier>, clock: nat, promote: bool, key: BlockKey, now: nat, at: nat)
    returns (actions: seq<Action>)
    requires clock <= now <= at
    ensures Exec(start, clock, promote, actions) ==
      Some(State(start, at, promote, map[0 := Scanning(key, now, 0, None), 1 := Scanning(key, at, 0, None)]))
  {
    Extend(start, clock, promote, [], Tick(now));
    Extend(start, clock, promote, [] + [Tick(now)], StartGet(0, key));
    Extend(start, clock, promote, [] + [Tick(now)] + [StartGet(0, key)], Tick(at));
    Extend(start, clock, promote, [] + [Tick(now)] + [StartGet(0, key)] + [Tick(at)], StartGet(1, key));
    actions := [] + [Tick(now)] + [StartGet(0, key)] + [Tick(at)] + [StartGet(1, key)];
  }
}
