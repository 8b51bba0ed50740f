/**
 Capturing blocks from a runtime into the engine (src/kv.rs), and what that makes of a reuse: the bytes restored at a
 place of the query are bytes that a runtime gave for the same tokens.
 */
module Capture {
  import opened Prelude
  import opened BlockKeys
  import opened Segments
  import opened SegmentIndexes
  import opened Planner
  import opened Engine
  import opened Apply

  // The bytes that a runtime gave for one block of a request.
  datatype Captured = Captured(request: CaptureRequest, block: nat, bytes: Bytes)
  {
    predicate Proper() { request.Accepted() && block < BlockCount(|request.tokens|, request.blockTokens) }
  }

  ghost predicate CapturedAs(sha: Digest, c: Captured, key: BlockKey, bytes: Bytes) {
    c.Proper() && KeyAt(sha, c.request, c.block) == key && c.bytes == bytes
  }

  // Everything the engine holds was captured.
  ghost predicate AllCaptured(sha: Digest, tiers: seq<Tier>, log: set<Captured>) {
    forall key, bytes :: Stored(tiers, key, bytes) ==> exists c :: c in log && CapturedAs(sha, c, key, bytes)
  }

  // Every operation that adds nothing keeps it: get, prefetch, move, pin and invalidate.
  lemma StaysCaptured(sha: Digest, before: seq<Tier>, after: seq<Tier>, log: set<Captured>)
    requires AllCaptured(sha, before, log) && NothingNew(before, after)
    ensures AllCaptured(sha, after, log)
  {
  }

  lemma MoreCaptured(sha: Digest, before: seq<Tier>, after: seq<Tier>, e: Entry, log: set<Captured>, c: Captured)
    requires AllCaptured(sha, before, log) && AddsOnly(before, after, e) && CapturedAs(sha, c, e.key, e.bytes)
    ensures AllCaptured(sha, after, log + {c})
  {
    forall key, bytes | Stored(after, key, bytes) ensures exists x :: x in log + {c} && CapturedAs(sha, x, key, bytes) {
      var j :| 0 <= j < |after| && key in after[j] && after[j][key].bytes == bytes;
      if key in before[j] && after[j][key] == before[j][key] {
        assert Stored(before, key, bytes);
        var x :| x in log && CapturedAs(sha, x, key, bytes);
        assert x in log + {c};
      } else {
        assert c in log + {c};
      }
    }
  }

  // The blocks are those of the request, in order.
  predicate AnswersRequest(blocks: seq<Block>, keys: seq<BlockKey>) {
    |blocks| == |keys| && forall i :: 0 <= i < |keys| ==> blocks[i].key == keys[i]
  }

  // As many blocks as the request has, each with the key of its place.
  ghost predicate AreBlocksOf(sha: Digest, request: CaptureRequest, blocks: seq<Block>)
    requires request.Accepted()
  {
    && |blocks| == BlockCount(|request.tokens|, request.blockTokens)
    && forall i :: 0 <= i < |blocks| ==> blocks[i].key == KeyAt(sha, request, i)
  }

  lemma AnswerIff(sha: Digest, request: CaptureRequest, blocks: seq<Block>)
    requires request.Accepted()
    ensures AnswersRequest(blocks, KeysOf(sha, request)) <==> AreBlocksOf(sha, request, blocks)
  {
    var keys := KeysOf(sha, request);
    forall i | 0 <= i < |keys| ensures keys[i] == KeyAt(sha, request, i) {
      KeysUpToAt(sha, request, |keys|, i);
    }
  }

  lemma KeysDistinct(sha: Digest, request: CaptureRequest, keys: seq<BlockKey>, i: nat, j: nat)
    requires request.Accepted() && keys == KeysOf(sha, request) && i < j < |keys|
    ensures keys[i] != keys[j] && keys[i] == KeyAt(sha, request, i) && keys[j] == KeyAt(sha, request, j)
  {
    KeysUpToAt(sha, request, |keys|, i);
    KeysUpToAt(sha, request, |keys|, j);
  }

  // capture_from, given what the runtime answered.  A block that does not carry the name of its place is refused
  // before anything is written; after a success the first tier holds every block; and whatever happens, the engine
  // holds nothing that was not captured.
  method CaptureFrom(sha: Digest, engine: KvEngine, request: CaptureRequest, answer: Result<seq<Block>>,
                     ttl: Option<Duration>, pinned: bool, ghost log: set<Captured>)
    returns (r: Result<nat>, ghost log': set<Captured>)
    requires engine.Valid()
    modifies engine`tiers, engine`clock, engine`faults
    ensures engine.Valid() && log <= log'
    ensures AllCaptured(sha, old(engine.tiers), log) ==> AllCaptured(sha, engine.tiers, log')
    ensures forall c :: c in log' && c !in log ==>
      c.Proper() && c.request == request && answer.Ok? && Block(KeyAt(sha, request, c.block), c.bytes) in answer.value
    ensures !request.Accepted() || answer.Err? || !AreBlocksOf(sha, request, answer.value) ==>
      r.Err? && engine.tiers == old(engine.tiers)
    ensures r.Ok? ==> r.value == |answer.value| && forall i :: 0 <= i < r.value ==>
      InFirst(engine.tiers, answer.value[i], ttl, pinned, old(engine.clock), engine.clock)
    ensures r.Ok? ==> engine.faults == old(engine.faults)
    ensures r.Err? && request.Accepted() && answer.Ok? && AreBlocksOf(sha, request, answer.value) ==>
      engine.faults > old(engine.faults)
  {
    log' := log;
    var named := ComputeBlockKeys(sha, request);
    if named.Err? {
      return Err(named.error), log;
    }
    if answer.Err? {
      return Err(answer.error), log;
    }
    var keys, blocks := named.value, answer.value;
    AnswerIff(sha, request, blocks);
    if !AnswersRequest(blocks, keys) {
      return Err(InvalidData), log;
    }
    for i := 0 to |blocks|
      invariant engine.Valid() && log <= log' && engine.faults == old(engine.faults)
      invariant AllCaptured(sha, old(engine.tiers), log) ==> AllCaptured(sha, engine.tiers, log')
      invariant forall c :: c in log' && c !in log ==>
        c.Proper() && c.request == request && Block(KeyAt(sha, request, c.block), c.bytes) in blocks
      invariant old(engine.clock) <= engine.clock
      invariant forall j :: 0 <= j < i ==>
        InFirst(engine.tiers, blocks[j], ttl, pinned, old(engine.clock), engine.clock)
    {
      var failing: PutFaults := *;
      var put;
      put, log' := CaptureOne(sha, engine, request, keys, blocks, i, ttl, pinned, failing, log', old(engine.clock));
      if put.Failed? {
        return Err(put.error), log';
      }
    }
    return Ok(|blocks|), log';
  }

  // The first tier holds the block, with that pin, as a put within that time with that lifetime leaves it.
  ghost predicate InFirst(tiers: seq<Tier>, b: Block, ttl: Option<Duration>, pinned: bool, from: u64, until: u64) {
    && tiers != [] && b.key in tiers[0]
    && exists since: u64 :: from <= since <= until
         && tiers[0][b.key] == Entry(b.key, b.bytes, Expiry(ttl, since), pinned)
  }

  // The body of the loop.
  method CaptureOne(sha: Digest, engine: KvEngine, request: CaptureRequest, keys: seq<BlockKey>, blocks: seq<Block>,
                    i: nat, ttl: Option<Duration>, pinned: bool, failing: PutFaults, ghost log: set<Captured>,
                    ghost start: u64)
    returns (r: Outcome, ghost log': set<Captured>)
    requires engine.Valid() && request.Accepted() && keys == KeysOf(sha, request) && AnswersRequest(blocks, keys)
    requires i < |blocks| && start <= engine.clock
    requires forall j :: 0 <= j < i ==> InFirst(engine.tiers, blocks[j], ttl, pinned, start, engine.clock)
    modifies engine`tiers, engine`clock, engine`faults
    ensures engine.Valid() && engine.faults >= old(engine.faults) && (r.Failed? <==> engine.faults > old(engine.faults))
    ensures log' == log + {Captured(request, i, blocks[i].bytes)}
    ensures i < BlockCount(|request.tokens|, request.blockTokens) && blocks[i].key == KeyAt(sha, request, i)
    ensures AllCaptured(sha, old(engine.tiers), log) ==> AllCaptured(sha, engine.tiers, log')
    ensures engine.clock >= old(engine.clock)
    ensures r.Done? ==> forall j :: 0 <= j <= i ==>
      InFirst(engine.tiers, blocks[j], ttl, pinned, start, engine.clock)
  {
    ghost var c, before := Captured(request, i, blocks[i].bytes), engine.tiers;
    log' := log + {c};
    KeysUpToAt(sha, request, |keys|, i);
    var entry := Entry(blocks[i].key, blocks[i].bytes, 0, pinned);
    r := engine.Put(entry, ttl, failing);
    if AllCaptured(sha, before, log) {
      MoreCaptured(sha, before, engine.tiers, entry.(expiresAt := Expiry(ttl, engine.clock)), log, c);
    }
    if r.Failed? {
      return;
    }
    OneMoreInFirst(sha, request, keys, blocks, i, before, engine.tiers, ttl, pinned, start, old(engine.clock),
      engine.clock);
  }

  lemma OneMoreInFirst(sha: Digest, request: CaptureRequest, keys: seq<BlockKey>, blocks: seq<Block>, i: nat,
                       before: seq<Tier>, after: seq<Tier>, ttl: Option<Duration>, pinned: bool, start: u64, was: u64,
                       now: u64)
    requires request.Accepted() && keys == KeysOf(sha, request) && AnswersRequest(blocks, keys) && i < |blocks|
    requires before != [] && after != [] && start <= was <= now
    requires after[0] == before[0][blocks[i].key := Entry(blocks[i].key, blocks[i].bytes, Expiry(ttl, now), pinned)]
    requires forall j :: 0 <= j < i ==> InFirst(before, blocks[j], ttl, pinned, start, was)
    ensures forall j :: 0 <= j <= i ==> InFirst(after, blocks[j], ttl, pinned, start, now)
  {
    forall j | 0 <= j <= i ensures InFirst(after, blocks[j], ttl, pinned, start, now) {
      if j < i {
        KeysDistinct(sha, request, keys, j, i);
        assert InFirst(before, blocks[j], ttl, pinned, start, was);
      }
    }
  }

  // ----- what a reuse restores -----

  // The bytes were captured for a block of tokens, layers and layout equal to those of the place they are written to.
  ghost predicate CapturedFor(log: set<Captured>, model: Bytes, q: seq<Token>, w: Write) {
    exists c :: c in log && CapturedThere(c, model, q, w)
  }

  ghost predicate CapturedThere(c: Captured, model: Bytes, q: seq<Token>, w: Write) {
    && c.Proper() && c.bytes == w.bytes && c.request.model == model
    && var start := BlockStart(c.block, c.request.blockTokens);
    var end := BlockEnd(|c.request.tokens|, c.block, c.request.blockTokens);
    && start <= end <= |c.request.tokens| && w.End() <= |q|
    && c.request.tokens[start..end] == q[w.Start()..w.End()]
    && w.slice == Slice(w.slice.tokenStart, end - start, c.request.layerStart, c.request.layerCount,
      c.request.layoutVersion)
  }

  // The digest tells the prefixes of the captured requests and of the records apart.
  ghost predicate TellsApart(sha: Digest, log: set<Captured>, records: seq<SegmentRecord>) {
    forall c, i, end :: c in log && c.Proper() && 0 <= i < |records| && 0 <= end <= |records[i].tokens| ==>
      var x := PrefixEncoding(c.request.tokens[..BlockEnd(|c.request.tokens|, c.block, c.request.blockTokens)]);
      var y := PrefixEncoding(records[i].tokens[..end]);
      sha(x) == sha(y) ==> x == y
  }

  // A good write into the runtime carries bytes that were captured for the very tokens it is written for.
  lemma RestoredWasCaptured(sha: Digest, log: set<Captured>, records: seq<SegmentRecord>, model: Bytes, q: seq<Token>,
                            tiers: seq<Tier>, from: nat, until: nat, w: Write)
    requires forall i :: 0 <= i < |records| ==> OwnKeys(sha, records[i])
    requires GoodWrite(records, model, q, tiers, from, until, w)
    requires AllCaptured(sha, tiers, log) && TellsApart(sha, log, records)
    ensures CapturedFor(log, model, q, w)
  {
    var i, key :| GoodVia(records, model, q, tiers, from, until, w, i, key);
    OwnKeyNamesPrefix(sha, records[i], key);
    var t: nat :| from <= t <= until && HeldAt(tiers, key, w.bytes, t);
    ViewIsStored(tiers, key, t);
    var c :| c in log && CapturedAs(sha, c, key, w.bytes);
    SameNameSameTokens(sha, c, records[i], key);
    KeyModel(sha, records[i], key);
    assert CapturedThere(c, model, q, w);
  }

  lemma ViewIsStored(tiers: seq<Tier>, key: BlockKey, t: nat)
    requires View(tiers, key, t).Some?
    ensures Stored(tiers, key, View(tiers, key, t).value.bytes)
  {
    var s := FirstLive(tiers, key, t, 0);
    assert key in tiers[s];
  }

  lemma KeyModel(sha: Digest, record: SegmentRecord, key: BlockKey)
    requires OwnKeys(sha, record) && key in record.keys
    ensures key.model == record.model
  {
    var request :| OwnKeysOf(sha, record, request);
    var i :| 0 <= i < |record.keys| && record.keys[i] == key;
    KeysUpToAt(sha, request, |record.keys|, i);
  }

  lemma SameNameSameTokens(sha: Digest, c: Captured, record: SegmentRecord, key: BlockKey)
    requires c.Proper() && KeyAt(sha, c.request, c.block) == key
    requires key.End() <= |record.tokens| && key.sequenceHash == sha(PrefixEncoding(record.tokens[..key.End()]))
    requires var x := PrefixEncoding(c.request.tokens[..BlockEnd(|c.request.tokens|, c.block, c.request.blockTokens)]);
             var y := PrefixEncoding(record.tokens[..key.End()]);
             sha(x) == sha(y) ==> x == y
    requires |record.tokens| <= MAX_LEN
    ensures var start := BlockStart(c.block, c.request.blockTokens);
            var end := BlockEnd(|c.request.tokens|, c.block, c.request.blockTokens);
            && key.tokenStart == start && key.End() == end <= |c.request.tokens|
            && c.request.tokens[start..end] == record.tokens[key.tokenStart..key.End()]
  {
    BlockShape(sha, c.request, c.block);
    var end := BlockEnd(|c.request.tokens|, c.block, c.request.blockTokens);
    var mine, theirs := c.request.tokens[..end], record.tokens[..key.End()];
    PrefixEncodingInjective(mine, theirs);
    assert c.request.tokens[key.tokenStart..end] == mine[key.tokenStart..];
    assert record.tokens[key.tokenStart..key.End()] == theirs[key.tokenStart..];
  }

  // Capture, register, plan and apply, end to end: if everything in the engine was captured and every record was
  // registered with its own block keys, every slice written into the runtime, even in a failed attempt, carries
  // bytes that a runtime gave for exactly the tokens the query has there.
  method ReuseCaptured(sha: Digest, index: SegmentIndex, engine: KvEngine, runtime: Runtime,
                       model: Bytes, q: seq<Token>, policy: Policy, ghost log: set<Captured>)
    returns (r: Result<bool>, plan: Option<Plan>, ghost order: seq<ReuseSpan>, ghost ws: seq<Write>)
    requires index.Valid() && engine.Valid() && |q| <= MAX_LEN
    requires forall i :: 0 <= i < |index.records| ==> OwnKeys(sha, index.records[i])
    requires AllCaptured(sha, engine.tiers, log) && TellsApart(sha, log, index.records)
    modifies engine`tiers, engine`clock, engine`faults, runtime
    ensures AllCaptured(sha, engine.tiers, log) && runtime.writes == old(runtime.writes) + ws && Ordered(ws)
    ensures forall j :: 0 <= j < |ws| ==> CapturedFor(log, model, q, ws[j])
    ensures if policy.Acceptable() then Planned(index.records, model, q, policy, order, plan)
            else r == Err(InvalidInput) && plan.None?
    ensures policy.Acceptable() && plan.None? ==> r == Ok(false)
    ensures plan.None? || r == Ok(false) ==> ws == []
    ensures plan.Some? ==>
              var missing := SomeMissing(old(engine.tiers), plan.value.spans, old(engine.clock), engine.clock);
              && (r == Ok(false) ==> missing)
              && (Placeables(index.records, old(engine.tiers), q)
                    && engine.faults == old(engine.faults) && runtime.faults == old(runtime.faults) ==>
                  r.Ok? && (r.value || missing))
    ensures r == Ok(true) ==> plan.Some? && AllWritten(plan.value.spans, |plan.value.spans|, ws)
  {
    ghost var tiers, from := engine.tiers, engine.clock;
    r, plan, order, ws := ReuseQuery(sha, index, engine, runtime, model, q, policy);
    StaysCaptured(sha, tiers, engine.tiers, log);
    forall j | 0 <= j < |ws| ensures CapturedFor(log, model, q, ws[j]) {
      RestoredWasCaptured(sha, log, index.records, model, q, tiers, from, engine.clock, ws[j]);
    }
  }
}
