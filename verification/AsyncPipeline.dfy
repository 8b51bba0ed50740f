/**
 The asynchronous pipeline (src/async_runtime.rs) as a protocol: every shared access of a submitter, a
 worker or a taker is one atomic step, and the steps of all threads interleave freely.
 */
module AsyncPipeline {
  import opened Prelude
  import opened Sums

  type Id = nat

  datatype JobState = Pending | Running | Completed | Failed
  {
    predicate Terminal() { Completed? || Failed? }
  }

  // Where the call that submits a job stands.
  datatype SubmitPc = Allocated | Inserted | Counted | Sent | Returned | Refused | Uncounted | Aborted

  // Where the job stands on the worker side.
  datatype WorkPc = Unsent | Queued | Received | Marked | Stored | Tallied | Finished

  // Everything about one id: its two threads, its entry in the job registry, and whether it was taken.
  datatype Slot = Slot(submit: SubmitPc, work: WorkPc, ok: bool, job: Option<JobState>, taken: bool)

  datatype State = State(
    nextId: nat, slots: map<Id, Slot>, queue: seq<Id>, capacity: nat, open: bool,
    submitted: nat, completed: nat, failed: nat, inflight: int)

  datatype Action =
    | Allocate                 // next_id.fetch_add
    | Insert(id: Id)           // registry insert, Pending
    | Count(id: Id)            // inflight.fetch_add
    | Send(id: Id)             // try_send succeeds
    | Refuse(id: Id)           // shut down, full or disconnected
    | Return(id: Id)           // submitted.fetch_add, Ok(id)
    | Uncount(id: Id)          // rollback: inflight.fetch_sub
    | Forget(id: Id)           // rollback: registry remove
    | Receive                  // a worker takes the oldest job
    | MarkRunning(id: Id)
    | Store(id: Id, ok: bool)  // execute, then registry insert of the terminal snapshot
    | Tally(id: Id)            // completed or failed fetch_add
    | Release(id: Id)          // inflight.fetch_sub
    | Take(id: Id)
    | Shutdown

  function Init(capacity: nat): State {
    State(0, map[], [], capacity, true, 0, 0, 0, 0)
  }

  function Verdict(ok: bool): JobState { if ok then Completed else JobState.Failed }

  // ----- what a step does to its own slot -----

  predicate Ready(c: Slot, a: Action) {
    match a
    case Insert(_) => c.submit == Allocated
    case Count(_) => c.submit == Inserted
    case Send(_) => c.submit == Counted
    case Refuse(_) => c.submit == Counted
    case Return(_) => c.submit == Sent
    case Uncount(_) => c.submit == Refused
    case Forget(_) => c.submit == Uncounted
    case Receive => c.work == Queued
    case MarkRunning(_) => c.work == Received
    case Store(_, _) => c.work == Marked
    case Tally(_) => c.work == Stored
    case Release(_) => c.work == Tallied
    case _ => true
  }

  function Advance(c: Slot, a: Action): Slot {
    match a
    case Insert(_) => c.(submit := Inserted, job := Some(Pending))
    case Count(_) => c.(submit := Counted)
    case Send(_) => c.(submit := Sent, work := Queued)
    case Refuse(_) => c.(submit := Refused)
    case Return(_) => c.(submit := Returned)
    case Uncount(_) => c.(submit := Uncounted)
    case Forget(_) => c.(submit := Aborted, job := None)
    case Receive => c.(work := Received)
    case MarkRunning(_) => c.(work := Marked, job := if c.job.Some? then Some(Running) else None)
    case Store(_, ok) => c.(work := Stored, ok := ok, job := Some(Verdict(ok)))
    case Tally(_) => c.(work := Tallied)
    case Release(_) => c.(work := Finished)
    case Take(_) => if c.job.Some? && c.job.value.Terminal() then c.(job := None, taken := true) else c
    case _ => c
  }

  // ----- the whole system -----

  // The id a step works on, if any.
  function Subject(s: State, a: Action): Id {
    match a
    case Allocate => s.nextId + 1
    case Receive => if s.queue != [] then s.queue[0] else 0
    case Shutdown => 0
    case _ => a.id
  }

  predicate Enabled(s: State, a: Action) {
    match a
    case Allocate => s.nextId < U64_MAX
    case Send(id) => id in s.slots && Ready(s.slots[id], a) && s.open && |s.queue| < s.capacity
    case Receive => s.queue != [] && s.queue[0] in s.slots && Ready(s.slots[s.queue[0]], a)
    case Take(_) => true
    case Shutdown => true
    case _ => a.id in s.slots && Ready(s.slots[a.id], a)
  }

  function NextSlots(s: State, a: Action): map<Id, Slot> {
    var id := Subject(s, a);
    if a.Allocate? then s.slots[id := Slot(Allocated, Unsent, false, None, false)]
    else if id in s.slots then s.slots[id := Advance(s.slots[id], a)]
    else s.slots
  }

  function NextQueue(s: State, a: Action): seq<Id> {
    match a
    case Send(id) => s.queue + [id]
    case Receive => if s.queue == [] then [] else s.queue[1..]
    case _ => s.queue
  }

  function Next(s: State, a: Action): State {
    var counted :=
      match a
      case Allocate => s.(nextId := s.nextId + 1)
      case Count(_) => s.(inflight := s.inflight + 1)
      case Return(_) => s.(submitted := s.submitted + 1)
      case Uncount(_) => s.(inflight := s.inflight - 1)
      case Tally(id) =>
        if id in s.slots && s.slots[id].ok then s.(completed := s.completed + 1) else s.(failed := s.failed + 1)
      case Release(_) => s.(inflight := s.inflight - 1)
      case Shutdown => s.(open := false)
      case _ => s;
    counted.(slots := NextSlots(s, a), queue := NextQueue(s, a))
  }

  // ----- the invariant -----

  predicate Handed(c: Slot) { c.submit == Sent || c.submit == Returned }

  predicate Settled(c: Slot) { c.work == Stored || c.work == Tallied || c.work == Finished }

  // Registered and not yet picked up.
  predicate Waiting(c: Slot) {
    || c.submit == Inserted || c.submit == Counted || c.submit == Refused || c.submit == Uncounted
    || c.work == Queued || c.work == Received
  }

  // What the registry says about an id, given where its threads stand.
  predicate Consistent(c: Slot) {
    && (c.work != Unsent <==> Handed(c))
    && (c.submit == Allocated || c.submit == Aborted ==> c.job == None)
    && (Waiting(c) ==> c.job == Some(Pending))
    && (c.work == Marked ==> c.job == Some(Running))
    && (Settled(c) ==> c.job == if c.taken then None else Some(Verdict(c.ok)))
    && (c.taken ==> Settled(c))
  }

  ghost predicate Shape(s: State) {
    && (forall id: Id :: id in s.slots <==> 1 <= id <= s.nextId)
    && (forall id :: id in s.slots ==> Consistent(s.slots[id]))
  }

  // The queue holds each queued id once and nothing else.
  ghost predicate QueueOk(s: State) {
    && (forall i :: 0 <= i < |s.queue| ==> s.queue[i] in s.slots && s.slots[s.queue[i]].work == Queued)
    && (forall id :: id in s.slots && s.slots[id].work == Queued ==> id in s.queue)
    && (forall i, j :: 0 <= i < j < |s.queue| ==> s.queue[i] != s.queue[j])
  }

  // A call counted in inflight.
  predicate Live(c: Slot) { c.submit == Counted || c.submit == Refused || (Handed(c) && c.work != Finished) }

  predicate HasTally(c: Slot, ok: bool) { (c.work == Tallied || c.work == Finished) && c.ok == ok }

  function One(b: bool): nat { if b then 1 else 0 }

  ghost function LiveCount(): Slot -> nat { (c: Slot) => One(Live(c)) }
  ghost function ReturnedCount(): Slot -> nat { (c: Slot) => One(c.submit == Returned) }
  ghost function TallyCount(ok: bool): Slot -> nat { (c: Slot) => One(HasTally(c, ok)) }

  ghost predicate Counters(s: State) {
    && s.inflight == MapSum(LiveCount(), s.slots)
    && s.submitted == MapSum(ReturnedCount(), s.slots)
    && s.completed == MapSum(TallyCount(true), s.slots)
    && s.failed == MapSum(TallyCount(false), s.slots)
  }

  ghost predicate Inv(s: State) { Shape(s) && QueueOk(s) && Counters(s) }

  lemma InitInv(capacity: nat)
    ensures Inv(Init(capacity))
  {
  }

  // ----- every step keeps it -----

  lemma AdvanceKeepsConsistent(c: Slot, a: Action)
    requires Consistent(c) && Ready(c, a)
    ensures Consistent(Advance(c, a))
  {
  }

  lemma {:induction false} ShapeStep(s: State, a: Action)
    requires Shape(s) && Enabled(s, a)
    ensures Shape(Next(s, a))
  {
    var s' := Next(s, a);
    forall id: Id ensures id in s'.slots <==> 1 <= id <= s'.nextId {
      SlotAfter(s, a, id);
    }
    forall id | id in s'.slots ensures Consistent(s'.slots[id]) {
      SlotAfter(s, a, id);
      if id == Subject(s, a) && id in s.slots {
        AdvanceKeepsConsistent(s.slots[id], a);
      }
    }
  }

  // The step leaves its slot queued exactly when it says so.
  lemma AdvanceQueued(c: Slot, a: Action)
    requires Consistent(c) && Ready(c, a)
    ensures Advance(c, a).work == Queued <==> if a.Receive? then false else a.Send? || c.work == Queued
  {
  }

  lemma QueueAfterSend(s: State, id: Id)
    requires Shape(s) && QueueOk(s) && Enabled(s, Send(id))
    ensures QueueOk(Next(s, Send(id)))
  {
    var s' := Next(s, Send(id));
    assert Consistent(s.slots[id]) && s.slots[id].work != Queued;
    assert s'.queue[|s.queue|] == id;
    forall x | x in s'.slots && s'.slots[x].work == Queued ensures x in s'.queue {
      if x != id {
        assert x in s.queue;
      }
    }
  }

  lemma QueueAfterReceive(s: State)
    requires Shape(s) && QueueOk(s) && Enabled(s, Receive)
    ensures QueueOk(Next(s, Receive))
  {
    var s', head := Next(s, Receive), s.queue[0];
    assert s.queue == [head] + s'.queue;
    forall i | 0 <= i < |s'.queue| ensures s'.queue[i] in s'.slots && s'.slots[s'.queue[i]].work == Queued {
      assert s'.queue[i] == s.queue[i + 1] != head;
    }
    forall x | x in s'.slots && s'.slots[x].work == Queued ensures x in s'.queue {
      assert x != head && x in s.queue;
    }
    forall i, j | 0 <= i < j < |s'.queue| ensures s'.queue[i] != s'.queue[j] {
      assert s'.queue[i] == s.queue[i + 1] && s'.queue[j] == s.queue[j + 1];
    }
  }

  // A change to one slot that leaves it as queued or unqueued as it was leaves the queue right.
  lemma QueueKept(s: State, s': State, id: Id, c: Slot)
    requires QueueOk(s) && s'.queue == s.queue && s'.slots == s.slots[id := c]
    requires if id in s.slots then c.work == Queued <==> s.slots[id].work == Queued else c.work != Queued
    ensures QueueOk(s')
  {
  }

  lemma {:induction false} QueueStep(s: State, a: Action)
    requires Shape(s) && QueueOk(s) && Enabled(s, a)
    ensures QueueOk(Next(s, a))
  {
    var id, s' := Subject(s, a), Next(s, a);
    if a.Send? {
      QueueAfterSend(s, a.id);
    } else if a.Receive? {
      QueueAfterReceive(s);
    } else if a.Allocate? {
      QueueKept(s, s', id, Slot(Allocated, Unsent, false, None, false));
    } else if id in s.slots {
      assert Ready(s.slots[id], a);
      AdvanceQueued(s.slots[id], a);
      QueueKept(s, s', id, Advance(s.slots[id], a));
    }
  }

  // Replacing one slot moves each counter by what the slot contributes before and after.
  lemma Recount(slots: map<Id, Slot>, id: Id, c: Slot)
    requires id in slots
    ensures MapSum(LiveCount(), slots[id := c]) + One(Live(slots[id])) == MapSum(LiveCount(), slots) + One(Live(c))
    ensures MapSum(ReturnedCount(), slots[id := c]) + One(slots[id].submit == Returned)
         == MapSum(ReturnedCount(), slots) + One(c.submit == Returned)
    ensures MapSum(TallyCount(true), slots[id := c]) + One(HasTally(slots[id], true))
         == MapSum(TallyCount(true), slots) + One(HasTally(c, true))
    ensures MapSum(TallyCount(false), slots[id := c]) + One(HasTally(slots[id], false))
         == MapSum(TallyCount(false), slots) + One(HasTally(c, false))
  {
    MapSumReplace(LiveCount(), slots, id, c);
    MapSumReplace(ReturnedCount(), slots, id, c);
    MapSumReplace(TallyCount(true), slots, id, c);
    MapSumReplace(TallyCount(false), slots, id, c);
  }

  lemma CountNew(slots: map<Id, Slot>, id: Id)
    requires id !in slots
    ensures var more := slots[id := Slot(Allocated, Unsent, false, None, false)];
            && MapSum(LiveCount(), more) == MapSum(LiveCount(), slots)
            && MapSum(ReturnedCount(), more) == MapSum(ReturnedCount(), slots)
            && MapSum(TallyCount(true), more) == MapSum(TallyCount(true), slots)
            && MapSum(TallyCount(false), more) == MapSum(TallyCount(false), slots)
  {
    var c := Slot(Allocated, Unsent, false, None, false);
    MapSumInsert(LiveCount(), slots, id, c);
    MapSumInsert(ReturnedCount(), slots, id, c);
    MapSumInsert(TallyCount(true), slots, id, c);
    MapSumInsert(TallyCount(false), slots, id, c);
  }

  // What a step adds to the counters is what its slot starts or stops contributing.
  lemma AdvanceCounts(c: Slot, a: Action)
    requires Consistent(c) && Ready(c, a) && !a.Allocate? && !a.Shutdown?
    ensures One(Live(Advance(c, a))) - One(Live(c)) == One(a.Count?) - One(a.Uncount? || a.Release?)
    ensures One(Advance(c, a).submit == Returned) - One(c.submit == Returned) == One(a.Return?)
    ensures One(HasTally(Advance(c, a), true)) - One(HasTally(c, true)) == One(a.Tally? && c.ok)
    ensures One(HasTally(Advance(c, a), false)) - One(HasTally(c, false)) == One(a.Tally? && !c.ok)
  {
  }

  lemma CountersFollow(s: State, s': State, id: Id, c: Slot)
    requires Counters(s) && id in s.slots && s'.slots == s.slots[id := c]
    requires s'.inflight == s.inflight + One(Live(c)) - One(Live(s.slots[id]))
    requires s'.submitted == s.submitted + One(c.submit == Returned) - One(s.slots[id].submit == Returned)
    requires s'.completed == s.completed + One(HasTally(c, true)) - One(HasTally(s.slots[id], true))
    requires s'.failed == s.failed + One(HasTally(c, false)) - One(HasTally(s.slots[id], false))
    ensures Counters(s')
  {
    Recount(s.slots, id, c);
  }

  lemma NextCounters(s: State, a: Action)
    requires Enabled(s, a) && Subject(s, a) in s.slots && !a.Allocate? && !a.Shutdown?
    ensures var s', c := Next(s, a), s.slots[Subject(s, a)];
            && s'.slots == s.slots[Subject(s, a) := Advance(c, a)]
            && s'.inflight == s.inflight + One(a.Count?) - One(a.Uncount? || a.Release?)
            && s'.submitted == s.submitted + One(a.Return?)
            && s'.completed == s.completed + One(a.Tally? && c.ok)
            && s'.failed == s.failed + One(a.Tally? && !c.ok)
  {
  }

  lemma {:induction false} CountersStep(s: State, a: Action)
    requires Shape(s) && Counters(s) && Enabled(s, a)
    ensures Counters(Next(s, a))
  {
    var id := Subject(s, a);
    if a.Allocate? {
      assert id !in s.slots;
      CountNew(s.slots, id);
    } else if a.Shutdown? || id !in s.slots {
      assert Next(s, a).slots == s.slots;
    } else {
      AdvanceCounts(s.slots[id], a);
      NextCounters(s, a);
      CountersFollow(s, Next(s, a), id, Advance(s.slots[id], a));
    }
  }

  lemma {:induction false} InvStep(s: State, a: Action)
    requires Inv(s) && Enabled(s, a)
    ensures Inv(Next(s, a))
  {
    ShapeStep(s, a);
    QueueStep(s, a);
    CountersStep(s, a);
  }

  // ----- runs -----

  // The state after a sequence of steps, each of which must be possible when it is taken.
  function Exec(capacity: nat, actions: seq<Action>): State {
    if actions == [] then Init(capacity)
    else Next(Exec(capacity, actions[..|actions| - 1]), actions[|actions| - 1])
  }

  predicate Legal(capacity: nat, actions: seq<Action>) {
    actions == [] ||
    (Legal(capacity, actions[..|actions| - 1]) &&
     Enabled(Exec(capacity, actions[..|actions| - 1]), actions[|actions| - 1]))
  }

  lemma {:induction false} RunInv(capacity: nat, actions: seq<Action>)
    requires Legal(capacity, actions)
    ensures Inv(Exec(capacity, actions))
  {
    if actions == [] {
      InitInv(capacity);
    } else {
      RunInv(capacity, actions[..|actions| - 1]);
      InvStep(Exec(capacity, actions[..|actions| - 1]), actions[|actions| - 1]);
    }
  }

  // ----- the life of a job -----

  // What an observer of the registry can tell about an id.
  datatype Phase = Absent | Waits | Active | Over(ok: bool) | Gone
  {
    function Rank(): nat
    {
      match this
      case Absent => 0
      case Waits => 1
      case Active => 2
      case Over(_) => 3
      case Gone => 4
    }

    // The moves a single step can make.
    predicate MovesTo(p: Phase) {
      || p == this
      || (Absent? && p == Waits) || (Waits? && p == Active) || (Active? && p.Over?)
      || (Over? && p == Gone) || (Waits? && p == Gone)
    }

    // Where an id may be found later.
    predicate Precedes(p: Phase) { p == this || Rank() < p.Rank() }
  }

  function SlotPhase(c: Slot): Phase {
    if c.submit == Allocated then Absent
    else match c.job
      case None => Gone
      case Some(Pending) => Waits
      case Some(Running) => Active
      case Some(Completed) => Over(true)
      case Some(Failed) => Over(false)
  }

  function PhaseOf(s: State, id: Id): Phase { if id in s.slots then SlotPhase(s.slots[id]) else Absent }

  lemma SlotPhaseStep(c: Slot, a: Action)
    requires Consistent(c) && Ready(c, a)
    ensures SlotPhase(c).MovesTo(SlotPhase(Advance(c, a)))
  {
  }

  // A step changes its own slot, as Advance says, or creates it.
  lemma SlotAfter(s: State, a: Action, id: Id)
    requires Shape(s) && Enabled(s, a)
    ensures var s' := Next(s, a);
            if id == Subject(s, a) && (id in s.slots || a.Allocate?) then
              && id in s'.slots
              && if a.Allocate? then id !in s.slots && s'.slots[id] == Slot(Allocated, Unsent, false, None, false)
                 else Ready(s.slots[id], a) && s'.slots[id] == Advance(s.slots[id], a)
            else
              && (id in s'.slots <==> id in s.slots) && (id in s.slots ==> s'.slots[id] == s.slots[id])
  {
    assert Next(s, a).slots == NextSlots(s, a);
  }

  lemma {:induction false} PhaseStep(s: State, a: Action, id: Id)
    requires Shape(s) && Enabled(s, a)
    ensures PhaseOf(s, id).MovesTo(PhaseOf(Next(s, a), id))
  {
    SlotAfter(s, a, id);
    if id == Subject(s, a) && id in s.slots {
      SlotPhaseStep(s.slots[id], a);
    }
  }

  // Over any run an id only moves forward, and a verdict once given never changes.
  lemma {:induction false} JobsMoveForward(capacity: nat, actions: seq<Action>, i: nat, id: Id)
    requires Legal(capacity, actions) && i <= |actions|
    ensures PhaseOf(Exec(capacity, actions[..i]), id).Precedes(PhaseOf(Exec(capacity, actions), id))
  {
    if i == |actions| {
      assert actions[..i] == actions;
    } else {
      var front := actions[..|actions| - 1];
      JobsMoveForward(capacity, front, i, id);
      assert front[..i] == actions[..i];
      RunInv(capacity, front);
      var s, a := Exec(capacity, front), actions[|actions| - 1];
      PhaseStep(s, a, id);
      StillPrecedes(PhaseOf(Exec(capacity, actions[..i]), id), PhaseOf(s, id), PhaseOf(Next(s, a), id));
    }
  }

  lemma StillPrecedes(p: Phase, q: Phase, r: Phase)
    requires p.Precedes(q) && q.MovesTo(r)
    ensures p.Precedes(r)
  {
  }

  // How often a verdict was stored for the id.
  function Stores(actions: seq<Action>, id: Id): nat {
    if actions == [] then 0
    else
      var last := actions[|actions| - 1];
      Stores(actions[..|actions| - 1], id) + if last.Store? && last.id == id then 1 else 0
  }

  predicate IsSettled(s: State, id: Id) { id in s.slots && Settled(s.slots[id]) }

  lemma SettledAdvance(c: Slot, a: Action)
    requires Consistent(c) && Ready(c, a)
    ensures One(Settled(Advance(c, a))) == One(Settled(c)) + One(a.Store?)
  {
  }

  lemma {:induction false} SettledStep(s: State, a: Action, id: Id)
    requires Shape(s) && Enabled(s, a)
    ensures One(IsSettled(Next(s, a), id)) == One(IsSettled(s, id)) + One(a.Store? && a.id == id)
  {
    SlotAfter(s, a, id);
    if id == Subject(s, a) && id in s.slots {
      SettledAdvance(s.slots[id], a);
    }
  }

  // Every job is given exactly one verdict: none before it settles and one from then on.
  lemma {:induction false} OneVerdict(capacity: nat, actions: seq<Action>, id: Id)
    requires Legal(capacity, actions)
    ensures Stores(actions, id) == One(IsSettled(Exec(capacity, actions), id))
  {
    if actions != [] {
      var front := actions[..|actions| - 1];
      OneVerdict(capacity, front, id);
      RunInv(capacity, front);
      SettledStep(Exec(capacity, front), actions[|actions| - 1], id);
    }
  }

  // ----- what inflight means -----

  lemma LiveIsCounted(s: State, id: Id)
    requires Inv(s) && id in s.slots && Live(s.slots[id])
    ensures s.inflight > 0
  {
    MapSumRemove(LiveCount(), s.slots, id);
  }

  lemma IdleMeansDone(s: State, id: Id)
    requires Inv(s) && s.inflight == 0 && id in s.slots && s.slots[id].submit == Returned
    ensures s.slots[id].taken || PhaseOf(s, id) == Over(s.slots[id].ok)
  {
    assert Consistent(s.slots[id]);
    if Live(s.slots[id]) {
      LiveIsCounted(s, id);
    }
  }

  // Once inflight reads zero, every id that a submit has returned has its verdict, or has been taken.
  lemma {:induction false} QuiescentMeansDone(capacity: nat, actions: seq<Action>, id: Id)
    requires Legal(capacity, actions)
    ensures var s := Exec(capacity, actions);
            && s.inflight >= 0
            && (s.inflight == 0 && id in s.slots && s.slots[id].submit == Returned ==>
                  s.slots[id].taken || PhaseOf(s, id) == Over(s.slots[id].ok))
  {
    RunInv(capacity, actions);
    var s := Exec(capacity, actions);
    if s.inflight == 0 && id in s.slots && s.slots[id].submit == Returned {
      IdleMeansDone(s, id);
    }
  }

  // Where a job that submit has accepted can be.
  ghost predicate Somewhere(s: State, id: Id)
    requires id in s.slots
  {
    && (id in s.queue || s.slots[id].work == Received || s.slots[id].work == Marked || Settled(s.slots[id]))
    && (PhaseOf(s, id) == Gone ==> s.slots[id].taken)
  }

  lemma AcceptedIsSomewhere(s: State, id: Id)
    requires Inv(s) && id in s.slots && s.slots[id].submit == Returned
    ensures Somewhere(s, id)
  {
    assert Consistent(s.slots[id]);
  }

  // An id handed out by submit is never lost: it is queued, with a worker, or settled.
  lemma {:induction false} ReturnedIsSomewhere(capacity: nat, actions: seq<Action>, id: Id)
    requires Legal(capacity, actions)
    ensures var s := Exec(capacity, actions);
            id in s.slots && s.slots[id].submit == Returned ==> Somewhere(s, id)
  {
    RunInv(capacity, actions);
    var s := Exec(capacity, actions);
    if id in s.slots && s.slots[id].submit == Returned {
      AcceptedIsSomewhere(s, id);
    }
  }

  // A submit that was refused leaves nothing behind: its job was never queued and never gets a verdict, and once the
  // rollback is over the registry does not know it.
  lemma {:induction false} RefusedLeavesNothing(capacity: nat, actions: seq<Action>, id: Id)
    requires Legal(capacity, actions)
    ensures var s := Exec(capacity, actions);
            id in s.slots && s.slots[id].submit in {Refused, Uncounted, Aborted} ==>
              && id !in s.queue && Stores(actions, id) == 0 && !s.slots[id].taken
              && (s.slots[id].submit == Aborted ==> PhaseOf(s, id) == Gone)
  {
    RunInv(capacity, actions);
    OneVerdict(capacity, actions, id);
    var s := Exec(capacity, actions);
    if id in s.slots && s.slots[id].submit in {Refused, Uncounted, Aborted} {
      assert Consistent(s.slots[id]);
    }
  }

  // ----- taking -----

  // A take gives out the verdict of a settled job and removes the job; any other job stays as it is.
  lemma TakeGetsVerdict(s: State, id: Id)
    requires Shape(s)
    ensures var s' := Next(s, Take(id));
            if PhaseOf(s, id).Over? then IsTaken(s', id) && PhaseOf(s', id) == Gone && s' == s.(slots := s'.slots)
            else s' == s
    ensures forall other :: other != id ==> PhaseOf(Next(s, Take(id)), other) == PhaseOf(s, other)
  {
    if id in s.slots {
      assert Consistent(s.slots[id]);
      assert !PhaseOf(s, id).Over? ==> Advance(s.slots[id], Take(id)) == s.slots[id];
      assert s.slots[id := s.slots[id]] == s.slots;
    }
  }

  // How many takes of the id got a verdict.
  function Takes(capacity: nat, actions: seq<Action>, id: Id): nat {
    if actions == [] then 0
    else
      var front, last := actions[..|actions| - 1], actions[|actions| - 1];
      Takes(capacity, front, id) + One(last == Take(id) && PhaseOf(Exec(capacity, front), id).Over?)
  }

  predicate IsTaken(s: State, id: Id) { id in s.slots && s.slots[id].taken }

  lemma TakenAdvance(c: Slot, a: Action)
    requires Consistent(c) && Ready(c, a)
    ensures One(Advance(c, a).taken) == One(c.taken) + One(a.Take? && SlotPhase(c).Over?)
  {
  }

  // No verdict is given out twice.
  lemma {:induction false} TakenOnce(capacity: nat, actions: seq<Action>, id: Id)
    requires Legal(capacity, actions)
    ensures Takes(capacity, actions, id) == One(IsTaken(Exec(capacity, actions), id))
  {
    if actions != [] {
      var front, a := actions[..|actions| - 1], actions[|actions| - 1];
      TakenOnce(capacity, front, id);
      RunInv(capacity, front);
      var s := Exec(capacity, front);
      SlotAfter(s, a, id);
      if id == Subject(s, a) && id in s.slots {
        TakenAdvance(s.slots[id], a);
      }
    }
  }

  // The verdict of a job is the one its worker stored, from then on and until it is taken.
  lemma {:induction false} VerdictIsStored(capacity: nat, actions: seq<Action>, i: nat, id: Id, ok: bool)
    requires Legal(capacity, actions) && i < |actions| && actions[i] == Store(id, ok)
    ensures PhaseOf(Exec(capacity, actions), id) in {Over(ok), Gone}
  {
    JobsMoveForward(capacity, actions, i + 1, id);
    PrefixLegal(capacity, actions, i + 1);
    StoredLast(capacity, actions[..i + 1], id, ok);
  }

  lemma {:induction false} StoredLast(capacity: nat, actions: seq<Action>, id: Id, ok: bool)
    requires Legal(capacity, actions) && actions != [] && actions[|actions| - 1] == Store(id, ok)
    ensures PhaseOf(Exec(capacity, actions), id) == Over(ok)
  {
    RunInv(capacity, actions[..|actions| - 1]);
    StoreGives(Exec(capacity, actions[..|actions| - 1]), id, ok);
  }

  lemma StoreGives(s: State, id: Id, ok: bool)
    requires Shape(s) && Enabled(s, Store(id, ok))
    ensures PhaseOf(Next(s, Store(id, ok)), id) == Over(ok)
  {
    assert Consistent(s.slots[id]);
  }

  lemma {:induction false} PrefixLegal(capacity: nat, actions: seq<Action>, n: nat)
    requires Legal(capacity, actions) && n <= |actions|
    ensures Legal(capacity, actions[..n])
    decreases |actions| - n
  {
    if n < |actions| {
      PrefixLegal(capacity, actions, n + 1);
      assert actions[..n + 1][..n] == actions[..n];
    } else {
      assert actions[..n] == actions;
    }
  }

  // ----- the queue -----

  // A job that was sent has left its submitter for good.
  lemma {:induction false} SentStaysSent(capacity: nat, actions: seq<Action>, i: nat, id: Id)
    requires Legal(capacity, actions) && i < |actions| && actions[i] == Send(id)
    ensures id in Exec(capacity, actions).slots && Handed(Exec(capacity, actions).slots[id])
  {
    var n := |actions| - 1;
    var front := actions[..n];
    RunInv(capacity, front);
    if i < n {
      SentStaysSent(capacity, front, i, id);
    }
    SlotAfter(Exec(capacity, front), actions[n], id);
  }

  ghost predicate Ahead(queue: seq<Id>, a: Id, b: Id) {
    exists x, y :: 0 <= x < y < |queue| && queue[x] == a && queue[y] == b
  }

  ghost predicate Queues(s: State, id: Id) { id in s.slots && s.slots[id].work == Queued }

  lemma AheadStep(s: State, act: Action, a: Id, b: Id)
    requires QueueOk(s) && Enabled(s, act) && Ahead(s.queue, a, b) && Queues(Next(s, act), a)
    ensures Ahead(NextQueue(s, act), a, b)
  {
    var x, y :| 0 <= x < y < |s.queue| && s.queue[x] == a && s.queue[y] == b;
    var q := NextQueue(s, act);
    if act.Receive? {
      assert s.queue[0] != a;
      assert q[x - 1] == a && q[y - 1] == b;
    } else {
      assert q[x] == a && q[y] == b;
    }
  }

  lemma AheadWhenSent(s: State, a: Id, b: Id)
    requires QueueOk(s) && Queues(s, a)
    ensures Ahead(NextQueue(s, Send(b)), a, b)
  {
    var x :| 0 <= x < |s.queue| && s.queue[x] == a;
    assert NextQueue(s, Send(b))[x] == a && NextQueue(s, Send(b))[|s.queue|] == b;
  }

  lemma QueuedBefore(s: State, act: Action, a: Id)
    requires Shape(s) && Enabled(s, act) && Queues(Next(s, act), a) && a in s.slots && Handed(s.slots[a])
    ensures Queues(s, a)
  {
    SlotAfter(s, act, a);
    assert Consistent(s.slots[a]);
  }

  lemma AheadLater(s: State, act: Action, a: Id, b: Id)
    requires Shape(s) && QueueOk(s) && Enabled(s, act) && Queues(Next(s, act), a)
    requires a in s.slots && Handed(s.slots[a])
    requires act == Send(b) || (Queues(s, a) ==> Ahead(s.queue, a, b))
    ensures Ahead(Next(s, act).queue, a, b)
  {
    QueuedBefore(s, act, a);
    if act == Send(b) {
      AheadWhenSent(s, a, b);
    } else {
      AheadStep(s, act, a, b);
    }
  }

  lemma {:induction false} AheadBefore(capacity: nat, actions: seq<Action>, i: nat, j: nat, a: Id, b: Id)
    requires Legal(capacity, actions) && i < j <= |actions| && i < |actions| && actions[i] == Send(a)
    requires j < |actions| ==> actions[j] == Send(b)
    ensures var s := Exec(capacity, actions);
            && Shape(s) && QueueOk(s) && a in s.slots && Handed(s.slots[a])
            && (j < |actions| && Queues(s, a) ==> Ahead(s.queue, a, b))
    decreases |actions|, 1
  {
    RunInv(capacity, actions);
    SentStaysSent(capacity, actions, i, a);
    if j < |actions| && Queues(Exec(capacity, actions), a) {
      StaysAhead(capacity, actions, i, j, a, b);
    }
  }

  lemma {:induction false} StaysAhead(capacity: nat, actions: seq<Action>, i: nat, j: nat, a: Id, b: Id)
    requires Legal(capacity, actions) && i < j < |actions| && actions[i] == Send(a) && actions[j] == Send(b)
    requires Queues(Exec(capacity, actions), a)
    ensures Ahead(Exec(capacity, actions).queue, a, b)
    decreases |actions|, 0
  {
    var n := |actions| - 1;
    var s, act := Exec(capacity, actions[..n]), actions[n];
    LastStep(capacity, actions);
    AheadBefore(capacity, actions[..n], i, j, a, b);
    assert j == n ==> act == Send(b);
    AheadLater(s, act, a, b);
  }

  lemma {:induction false} LastStep(capacity: nat, actions: seq<Action>)
    requires Legal(capacity, actions) && actions != []
    ensures var front, last := actions[..|actions| - 1], actions[|actions| - 1];
            && Legal(capacity, front) && Enabled(Exec(capacity, front), last)
            && Exec(capacity, actions) == Next(Exec(capacity, front), last)
  {
  }

  // Jobs are taken up in the order in which they were sent: while one waits, every one sent after it waits behind it.
  lemma {:induction false} NoOvertaking(capacity: nat, actions: seq<Action>, i: nat, j: nat, a: Id, b: Id)
    requires Legal(capacity, actions) && i < j < |actions| && actions[i] == Send(a) && actions[j] == Send(b)
    requires Queues(Exec(capacity, actions), a)
    ensures Queues(Exec(capacity, actions), b) && Ahead(Exec(capacity, actions).queue, a, b)
  {
    StaysAhead(capacity, actions, i, j, a, b);
    RunInv(capacity, actions);
    assert QueueOk(Exec(capacity, actions));
  }

  // The queue never holds more than its capacity, and after a shutdown nothing is sent any more.
  lemma {:induction false} QueueBounded(capacity: nat, actions: seq<Action>)
    requires Legal(capacity, actions)
    ensures |Exec(capacity, actions).queue| <= Exec(capacity, actions).capacity == capacity
  {
    if actions != [] {
      QueueBounded(capacity, actions[..|actions| - 1]);
    }
  }

  lemma {:induction false} ClosedStays(capacity: nat, actions: seq<Action>, i: nat)
    requires Legal(capacity, actions) && i < |actions| && actions[i] == Shutdown
    ensures !Exec(capacity, actions).open
  {
    if i < |actions| - 1 {
      ClosedStays(capacity, actions[..|actions| - 1], i);
    }
  }

  lemma {:induction false} NothingSentAfterShutdown(capacity: nat, actions: seq<Action>, i: nat, j: nat)
    requires Legal(capacity, actions) && i < j < |actions| && actions[i] == Shutdown
    ensures !actions[j].Send?
  {
    PrefixLegal(capacity, actions, j + 1);
    PrefixLegal(capacity, actions, j);
    assert actions[..j + 1][..j] == actions[..j];
    ClosedStays(capacity, actions[..j], i);
  }

  // ----- every job goes on -----

  // What each thread of a job can do next: nothing but its end stops it, and a refusal is always possible.
  ghost predicate SubmitGoesOn(s: State, id: Id)
    requires id in s.slots
  {
    match s.slots[id].submit
    case Allocated => Enabled(s, Insert(id))
    case Inserted => Enabled(s, Count(id))
    case Counted => Enabled(s, Refuse(id)) && (Enabled(s, Send(id)) <==> s.open && |s.queue| < s.capacity)
    case Sent => Enabled(s, Return(id))
    case Refused => Enabled(s, Uncount(id))
    case Uncounted => Enabled(s, Forget(id))
    case _ => true
  }

  ghost predicate WorkGoesOn(s: State, id: Id)
    requires id in s.slots
  {
    match s.slots[id].work
    case Queued => Enabled(s, Receive)
    case Received => Enabled(s, MarkRunning(id))
    case Marked => Enabled(s, Store(id, true)) && Enabled(s, Store(id, false))
    case Stored => Enabled(s, Tally(id))
    case Tallied => Enabled(s, Release(id))
    case _ => true
  }

  function SubmitRank(p: SubmitPc): nat {
    match p
    case Allocated => 5
    case Inserted => 4
    case Counted => 3
    case Sent => 1
    case Refused => 2
    case Uncounted => 1
    case _ => 0
  }

  function WorkRank(p: WorkPc): nat {
    match p
    case Unsent => 6
    case Queued => 5
    case Received => 4
    case Marked => 3
    case Stored => 2
    case Tallied => 1
    case Finished => 0
  }

  // How many steps a job may still take.
  function Rank(c: Slot): nat { SubmitRank(c.submit) + WorkRank(c.work) }

  lemma RankFalls(c: Slot, a: Action)
    requires Ready(c, a) && Consistent(c) && !a.Allocate? && !a.Take? && !a.Shutdown?
    ensures Rank(Advance(c, a)) < Rank(c)
  {
  }

  // A step of the job's own threads.
  ghost predicate StepOf(s: State, a: Action, id: Id) {
    Subject(s, a) == id && !a.Allocate? && !a.Take? && !a.Shutdown?
  }

  ghost predicate Nearer(s: State, a: Action, id: Id)
    requires id in s.slots
  {
    id in Next(s, a).slots && Rank(Next(s, a).slots[id]) < Rank(s.slots[id])
  }

  lemma StepIsNearer(s: State, a: Action, id: Id)
    requires Shape(s) && id in s.slots && Enabled(s, a) && StepOf(s, a, id)
    ensures Nearer(s, a, id)
  {
    SlotAfter(s, a, id);
    RankFalls(s.slots[id], a);
  }

  lemma SubmitCanGoOn(s: State, id: Id)
    requires id in s.slots
    ensures SubmitGoesOn(s, id)
  {
  }

  lemma WorkCanGoOn(s: State, id: Id)
    requires QueueOk(s) && id in s.slots
    ensures WorkGoesOn(s, id)
  {
    if s.slots[id].work == Queued {
      assert s.queue[0] in s.slots && s.slots[s.queue[0]].work == Queued;
    }
  }

  // In every run no job is stuck: each of its threads can take its next step, and each step brings the job nearer to
  // its end.  Taking and shutting down are always possible.
  lemma {:induction false} JobsEnd(capacity: nat, actions: seq<Action>, id: Id)
    requires Legal(capacity, actions) && id in Exec(capacity, actions).slots
    ensures var s := Exec(capacity, actions);
            && SubmitGoesOn(s, id) && WorkGoesOn(s, id) && Enabled(s, Take(id)) && Enabled(s, Shutdown)
            && forall a :: Enabled(s, a) && StepOf(s, a, id) ==> Nearer(s, a, id)
  {
    var s := Exec(capacity, actions);
    assert Shape(s) && QueueOk(s) by { RunInv(capacity, actions); }
    SubmitCanGoOn(s, id);
    WorkCanGoOn(s, id);
    forall a | Enabled(s, a) && StepOf(s, a, id) ensures Nearer(s, a, id) {
      StepIsNearer(s, a, id);
    }
  }

  // ----- completed against submitted -----

  // Sent, and not yet counted by its submitter.
  ghost function SentCount(): Slot -> nat { (c: Slot) => One(c.submit == Sent) }

  // Handed over, and not yet counted by its worker.
  predicate Untallied(c: Slot) { Handed(c) && c.work != Tallied && c.work != Finished }

  ghost function UntalliedCount(): Slot -> nat { (c: Slot) => One(Untallied(c)) }

  lemma HandedAreTallied(slots: map<Id, Slot>)
    requires forall id :: id in slots ==> Consistent(slots[id])
    ensures MapSum(ReturnedCount(), slots) + MapSum(SentCount(), slots)
         == MapSum(TallyCount(true), slots) + MapSum(TallyCount(false), slots) + MapSum(UntalliedCount(), slots)
  {
    forall id | id in slots
      ensures ReturnedCount()(slots[id]) + SentCount()(slots[id])
           == TallyCount(true)(slots[id]) + TallyCount(false)(slots[id]) + UntalliedCount()(slots[id])
    {
      assert Consistent(slots[id]);
    }
    MapSumBalance(ReturnedCount(), SentCount(), TallyCount(true), TallyCount(false), UntalliedCount(), slots);
  }

  // Every job handed over is counted once on each side: by its submitter or still in the submitter's hands, and
  // by its worker or still on the way there.
  lemma {:induction false} SubmittedAgainstFinished(capacity: nat, actions: seq<Action>)
    requires Legal(capacity, actions)
    ensures var s := Exec(capacity, actions);
            s.submitted + MapSum(SentCount(), s.slots) == s.completed + s.failed + MapSum(UntalliedCount(), s.slots)
  {
    RunInv(capacity, actions);
    HandedAreTallied(Exec(capacity, actions).slots);
  }

  // So the finished jobs are within the submitted ones exactly if no more submitters than jobs lag behind.
  lemma {:induction false} FinishedWithinSubmittedIff(capacity: nat, actions: seq<Action>)
    requires Legal(capacity, actions)
    ensures var s := Exec(capacity, actions);
            s.completed + s.failed <= s.submitted <==> MapSum(SentCount(), s.slots) <= MapSum(UntalliedCount(), s.slots)
  {
    SubmittedAgainstFinished(capacity, actions);
  }

  // A system with one worker slot and one job, at the given points of its threads.
  function Sole(submit: SubmitPc, work: WorkPc, ok: bool, job: Option<JobState>, queue: seq<Id>, inflight: int): State {
    State(1, map[1 := Slot(submit, work, ok, job, false)], queue, 1, true, 0, 0, 0, inflight)
  }

  lemma SubmitSteps()
    ensures Enabled(Init(1), Allocate) && Next(Init(1), Allocate) == Sole(Allocated, Unsent, false, None, [], 0)
    ensures Next(Sole(Allocated, Unsent, false, None, [], 0), Insert(1)) ==
            Sole(Inserted, Unsent, false, Some(Pending), [], 0)
    ensures Next(Sole(Inserted, Unsent, false, Some(Pending), [], 0), Count(1)) ==
            Sole(Counted, Unsent, false, Some(Pending), [], 1)
    ensures Next(Sole(Counted, Unsent, false, Some(Pending), [], 1), Send(1)) ==
            Sole(Sent, Queued, false, Some(Pending), [1], 1)
  {
  }

  lemma ReceiveSole()
    ensures Next(Sole(Sent, Queued, false, Some(Pending), [1], 1), Receive) ==
            Sole(Sent, Received, false, Some(Pending), [], 1)
  {
    var one: seq<Id> := [1];
    assert one[1..] == [];
  }

  lemma WorkSteps()
    ensures Next(Sole(Sent, Received, false, Some(Pending), [], 1), MarkRunning(1)) ==
            Sole(Sent, Marked, false, Some(Running), [], 1)
    ensures Next(Sole(Sent, Marked, false, Some(Running), [], 1), Store(1, true)) ==
            Sole(Sent, Stored, true, Some(Completed), [], 1)
  {
  }

  lemma TallySole()
    ensures var s := Next(Sole(Sent, Stored, true, Some(Completed), [], 1), Tally(1));
            s.completed == 1 && s.submitted == 0
  {
  }

  lemma SentOnce() returns (actions: seq<Action>)
    ensures Legal(1, actions) && Exec(1, actions) == Sole(Sent, Queued, false, Some(Pending), [1], 1)
  {
    SubmitSteps();
    actions := [];
    Extend(1, actions, Allocate, Init(1));
    actions := actions + [Allocate];
    Extend(1, actions, Insert(1), Sole(Allocated, Unsent, false, None, [], 0));
    actions := actions + [Insert(1)];
    Extend(1, actions, Count(1), Sole(Inserted, Unsent, false, Some(Pending), [], 0));
    actions := actions + [Count(1)];
    Extend(1, actions, Send(1), Sole(Counted, Unsent, false, Some(Pending), [], 1));
    actions := actions + [Send(1)];
  }

  lemma ReceivedOnce() returns (actions: seq<Action>)
    ensures Legal(1, actions) && Exec(1, actions) == Sole(Sent, Received, false, Some(Pending), [], 1)
  {
    var sent := SentOnce();
    Extend(1, sent, Receive, Sole(Sent, Queued, false, Some(Pending), [1], 1));
    ReceiveSole();
    actions := sent + [Receive];
  }

  lemma StoredOnce() returns (actions: seq<Action>)
    ensures Legal(1, actions) && Exec(1, actions) == Sole(Sent, Stored, true, Some(Completed), [], 1)
  {
    WorkSteps();
    actions := ReceivedOnce();
    Extend(1, actions, MarkRunning(1), Sole(Sent, Received, false, Some(Pending), [], 1));
    actions := actions + [MarkRunning(1)];
    Extend(1, actions, Store(1, true), Sole(Sent, Marked, false, Some(Running), [], 1));
    actions := actions + [Store(1, true)];
  }

  // It can fail: a worker can finish a job before its submitter counts it.
  lemma CompletedCanLead()
    ensures exists actions :: Legal(1, actions) && Exec(1, actions).completed > Exec(1, actions).submitted
  {
    TallySole();
    var actions := StoredOnce();
    Extend(1, actions, Tally(1), Sole(Sent, Stored, true, Some(Completed), [], 1));
    assert Legal(1, actions + [Tally(1)]);
  }

  lemma {:induction false} Extend(capacity: nat, actions: seq<Action>, a: Action, s: State)
    requires Legal(capacity, actions) && Exec(capacity, actions) == s && Enabled(s, a)
    ensures Legal(capacity, actions + [a]) && Exec(capacity, actions + [a]) == Next(s, a)
  {
    assert (actions + [a])[..|actions|] == actions;
  }
}
