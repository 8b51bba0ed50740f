/**
 Relocated restore into the runtime (src/llama_cpp.rs) and application of a reuse plan (src/quality.rs):
 what the runtime's KV slices hold once a plan has been applied.
 */
module Apply {
  import opened Prelude
  import opened BlockKeys
  import opened Segments
  import opened SegmentIndexes
  import opened Ranges
  import opened Planner
  import opened Engine
  import LongestCommonSubstring
  import Sorting

  datatype Block = Block(key: BlockKey, bytes: Bytes)

  datatype Slice = Slice(tokenStart: u32, tokenCount: u32, layerStart: u32, layerCount: u32, layoutVersion: u32)

  datatype Write = Write(slice: Slice, bytes: Bytes)
  {
    function Start(): nat { slice.tokenStart }
    function End(): nat { slice.tokenStart + slice.tokenCount }
    predicate Covers(p: nat) { Start() <= p < End() }
  }

  class Runtime {
    var writes: seq<Write>
    var recomputed: seq<seq<TokenRange>>
    // How many calls into the runtime have failed so far.
    ghost var faults: nat

    method WriteSlice(slice: Slice, bytes: Bytes) returns (r: Outcome)
      modifies this`writes, this`faults
      ensures faults == old(faults) + if r.Failed? then 1 else 0
      ensures writes == if r.Done? then old(writes) + [Write(slice, bytes)] else old(writes)
    {
      var fails: bool := *;
      if fails {
        faults := faults + 1;
        return Failed(Other);
      }
      writes := writes + [Write(slice, bytes)];
      return Done;
    }

    method RecomputeRanges(ranges: seq<TokenRange>) returns (r: Outcome)
      modifies this`recomputed, this`faults
      ensures faults == old(faults) + if r.Failed? then 1 else 0
      ensures recomputed == if r.Done? then old(recomputed) + [ranges] else old(recomputed)
    {
      var fails: bool := *;
      if fails {
        faults := faults + 1;
        return Failed(Other);
      }
      recomputed := recomputed + [ranges];
      return Done;
    }
  }

  // ----- relocated restore -----

  predicate SameShape(a: BlockKey, b: BlockKey) {
    a.model == b.model && a.layerStart == b.layerStart && a.layerCount == b.layerCount
      && a.layoutVersion == b.layoutVersion
  }

  // What validate_restore_blocks accepts.
  ghost predicate Restorable(blocks: seq<Block>) {
    && blocks != []
    && (forall i :: 0 <= i < |blocks| ==>
          && blocks[i].bytes != [] && blocks[i].key.End() <= U32_MAX
          && blocks[i].key.model == blocks[0].key.model && blocks[i].key.layerStart == blocks[0].key.layerStart
          && blocks[i].key.layerCount == blocks[0].key.layerCount
          && blocks[i].key.layoutVersion == blocks[0].key.layoutVersion)
    && (forall i, j :: 0 <= i < j < |blocks| && j == i + 1 ==> blocks[i].key.End() == blocks[j].key.tokenStart)
  }

  method ValidateRestoreBlocks(blocks: seq<Block>) returns (ok: bool)
    ensures ok <==> Restorable(blocks)
  {
    if blocks == [] {
      return false;
    }
    var first := blocks[0].key;
    var expected: nat := first.tokenStart;
    for i := 0 to |blocks|
      invariant expected == if i == 0 then first.tokenStart else blocks[i - 1].key.End()
      invariant forall k :: 0 <= k < i ==>
                  blocks[k].bytes != [] && SameShape(blocks[k].key, first) && blocks[k].key.End() <= U32_MAX
      invariant forall k, j :: 0 <= k < j < i && j == k + 1 ==> blocks[k].key.End() == blocks[j].key.tokenStart
    {
      var key := blocks[i].key;
      if blocks[i].bytes == [] || !SameShape(key, first) || key.tokenStart != expected {
        assert i > 0 && key.tokenStart != expected ==> blocks[i - 1].key.End() != blocks[i].key.tokenStart;
        return false;
      }
      if expected + key.tokenCount > U32_MAX {
        return false;
      }
      expected := expected + key.tokenCount;
    }
    return true;
  }

  // The write of block i when the blocks are restored at target.
  function Relocated(blocks: seq<Block>, target: nat, i: nat): Write
    requires i < |blocks| && blocks[0].key.tokenStart <= blocks[i].key.tokenStart
    requires target + (blocks[i].key.tokenStart - blocks[0].key.tokenStart) <= U32_MAX
  {
    var key := blocks[i].key;
    Write(Slice(target + (key.tokenStart - blocks[0].key.tokenStart), key.tokenCount,
                key.layerStart, key.layerCount, key.layoutVersion), blocks[i].bytes)
  }

  // ws are the writes of the first |ws| blocks, in order.
  ghost predicate RelocatesPrefix(blocks: seq<Block>, target: nat, ws: seq<Write>) {
    && |ws| <= |blocks|
    && forall i :: 0 <= i < |ws| ==>
         && blocks[0].key.tokenStart <= blocks[i].key.tokenStart
         && target + (blocks[i].key.tokenStart - blocks[0].key.tokenStart) <= U32_MAX
         && ws[i] == Relocated(blocks, target, i)
  }

  // The last block still starts at a 32-bit position.
  ghost predicate FitsAt(blocks: seq<Block>, target: nat) {
    forall i :: 0 <= i < |blocks| ==>
      blocks[0].key.tokenStart <= blocks[i].key.tokenStart
        && target + (blocks[i].key.tokenStart - blocks[0].key.tokenStart) <= U32_MAX
  }

  method RestoreRelocated(runtime: Runtime, blocks: seq<Block>, target: u32) returns (r: Outcome, ghost ws: seq<Write>)
    modifies runtime`writes, runtime`faults
    ensures runtime.faults >= old(runtime.faults)
    ensures r.Done? <==> Restorable(blocks) && FitsAt(blocks, target) && runtime.faults == old(runtime.faults)
    ensures runtime.writes == old(runtime.writes) + ws && RelocatesPrefix(blocks, target, ws)
    ensures r.Done? ==> Restorable(blocks) && |ws| == |blocks|
    ensures !Restorable(blocks) ==> ws == []
  {
    ws := [];
    var ok := ValidateRestoreBlocks(blocks);
    if !ok {
      return Failed(InvalidInput), [];
    }
    var sourceStart := blocks[0].key.tokenStart;
    for i := 0 to |blocks|
      invariant |ws| == i && runtime.writes == old(runtime.writes) + ws && RelocatesPrefix(blocks, target, ws)
      invariant runtime.faults == old(runtime.faults)
    {
      var key := blocks[i].key;
      if key.tokenStart < sourceStart || target + (key.tokenStart - sourceStart) > U32_MAX {
        return Failed(InvalidInput), ws;
      }
      var slice := Slice(target + (key.tokenStart - sourceStart), key.tokenCount, key.layerStart, key.layerCount,
          key.layoutVersion);
      r := runtime.WriteSlice(slice, blocks[i].bytes);
      if r.Failed? {
        return;
      }
      ws := ws + [Write(slice, blocks[i].bytes)];
    }
    r := Done;
  }

  // ----- loading the blocks of a plan -----

  // The engine held these bytes for the key at some moment of the call.
  ghost predicate Held(tiers: seq<Tier>, key: BlockKey, bytes: Bytes, from: nat, until: nat) {
    exists t: nat :: from <= t <= until && HeldAt(tiers, key, bytes, t)
  }

  predicate HeldAt(tiers: seq<Tier>, key: BlockKey, bytes: Bytes, t: nat) {
    View(tiers, key, t).Some? && View(tiers, key, t).value.bytes == bytes
  }

  ghost predicate Loaded(tiers: seq<Tier>, keys: seq<BlockKey>, blocks: seq<Block>, from: nat, until: nat) {
    && |blocks| <= |keys|
    && forall j :: 0 <= j < |blocks| ==> blocks[j].key == keys[j] && Held(tiers, keys[j], blocks[j].bytes, from, until)
  }

  lemma HeldLonger(tiers: seq<Tier>, keys: seq<BlockKey>, blocks: seq<Block>, from: nat, until: nat, later: nat)
    requires Loaded(tiers, keys, blocks, from, until) && until <= later
    ensures Loaded(tiers, keys, blocks, from, later)
  {
    forall j | 0 <= j < |blocks| ensures Held(tiers, keys[j], blocks[j].bytes, from, later) {
      var t: nat :| from <= t <= until && HeldAt(tiers, keys[j], blocks[j].bytes, t);
    }
  }

  // What a sequence of engine reads leaves behind.
  twostate predicate OnlyRead(engine: KvEngine)
    reads engine
  {
    && engine.Valid() && |engine.tiers| == |old(engine.tiers)| && engine.clock >= old(engine.clock)
    && engine.faults >= old(engine.faults) && NothingNew(old(engine.tiers), engine.tiers)
    && SameViews(old(engine.tiers), engine.tiers, engine.clock)
  }

  // A key without a live copy at some moment of the call.
  ghost predicate Missing(tiers: seq<Tier>, keys: seq<BlockKey>, from: nat, until: nat) {
    exists i, t: nat :: 0 <= i < |keys| && from <= t <= until && View(tiers, keys[i], t) == None
  }

  method LoadSpan(engine: KvEngine, keys: seq<BlockKey>) returns (r: Result<Option<seq<Block>>>)
    requires engine.Valid()
    modifies engine`tiers, engine`clock, engine`faults
    ensures OnlyRead(engine)
    ensures r.Err? <==> engine.faults > old(engine.faults)
    ensures r == Ok(None) ==> Missing(old(engine.tiers), keys, old(engine.clock), engine.clock)
    ensures r.Ok? && r.value.Some? ==>
              && |r.value.value| == |keys|
              && Loaded(old(engine.tiers), keys, r.value.value, old(engine.clock), engine.clock)
  {
    var blocks: seq<Block> := [];
    for i := 0 to |keys|
      invariant OnlyRead(engine) && engine.faults == old(engine.faults)
      invariant |blocks| == i && Loaded(old(engine.tiers), keys, blocks, old(engine.clock), engine.clock)
    {
      ghost var before := engine.clock;
      var got := engine.Get(keys[i]);
      if got.Err? {
        return Err(got.error);
      }
      if got.value.None? {
        assert View(old(engine.tiers), keys[i], engine.clock) == None;
        return Ok(None);
      }
      var block := Block(got.value.value.key, got.value.value.bytes);
      HeldLonger(old(engine.tiers), keys, blocks, old(engine.clock), before, engine.clock);
      assert HeldAt(old(engine.tiers), keys[i], block.bytes, engine.clock);
      blocks := blocks + [block];
    }
    return Ok(Some(blocks));
  }

  // ----- what the writes mean -----

  // The write carries the bytes held for block key of record i, at a place where the query has that block's tokens.
  ghost predicate GoodVia(records: seq<SegmentRecord>, model: Bytes, q: seq<Token>, tiers: seq<Tier>, from: nat,
                          until: nat, w: Write, i: int, key: BlockKey)
  {
    && 0 <= i < |records| && records[i].model == model && key in records[i].keys
    && key.End() <= |records[i].tokens| && w.End() <= |q|
    && w.slice == Slice(w.slice.tokenStart, key.tokenCount, key.layerStart, key.layerCount, key.layoutVersion)
    && q[w.Start()..w.End()] == records[i].tokens[key.tokenStart..key.End()]
    && Held(tiers, key, w.bytes, from, until)
  }

  ghost predicate GoodWrite(records: seq<SegmentRecord>, model: Bytes, q: seq<Token>, tiers: seq<Tier>, from: nat,
                            until: nat, w: Write)
  {
    exists i, key :: GoodVia(records, model, q, tiers, from, until, w, i, key)
  }

  ghost predicate InsideSpan(spans: seq<ReuseSpan>, n: nat, w: Write) {
    exists m :: 0 <= m < n && m < |spans| && spans[m].queryStart <= w.Start() && w.End() <= spans[m].QueryEnd()
  }

  // No write touches a position that an earlier one wrote.
  ghost predicate Ordered(ws: seq<Write>) {
    forall i, j :: 0 <= i < j < |ws| ==> ws[i].End() <= ws[j].Start()
  }

  ghost predicate Written(ws: seq<Write>, p: nat) {
    exists i :: 0 <= i < |ws| && ws[i].Covers(p)
  }

  // So a position that is written is written by one write only.
  lemma WrittenOnce(ws: seq<Write>, i: nat, j: nat, p: nat)
    requires Ordered(ws) && i < |ws| && j < |ws| && ws[i].Covers(p) && ws[j].Covers(p)
    ensures i == j
  {
  }

  lemma KeyInside(span: ReuseSpan, record: SegmentRecord, q: seq<Token>, j: nat)
    requires Backs(record, q, span) && j < |span.sourceKeys|
    ensures span.sourceStart <= span.sourceKeys[j].tokenStart
    ensures span.sourceKeys[j].End() <= span.sourceStart + span.matchedTokens
  {
    var keys := span.sourceKeys;
    if j > 0 {
      ContiguousReach(keys, 0, j);
    }
    if j < |keys| - 1 {
      ContiguousReach(keys, j, |keys| - 1);
    }
  }

  lemma SliceOfSpan(span: ReuseSpan, record: SegmentRecord, q: seq<Token>, x: nat, n: nat)
    requires Backs(record, q, span) && x + n <= span.matchedTokens
    ensures q[span.queryStart + x..span.queryStart + x + n] ==
            record.tokens[span.sourceStart + x..span.sourceStart + x + n]
  {
    LongestCommonSubstring.AgreeWithin(q, record.tokens, span.queryStart, span.sourceStart, span.matchedTokens, x, n);
  }

  lemma SpanWriteIsGood(records: seq<SegmentRecord>, model: Bytes, q: seq<Token>, tiers: seq<Tier>, from: nat,
                        until: nat, span: ReuseSpan, i: nat, blocks: seq<Block>, ws: seq<Write>, j: nat)
    requires BackedBy(records, model, q, span, i)
    requires |blocks| == |span.sourceKeys| && Loaded(tiers, span.sourceKeys, blocks, from, until)
    requires RelocatesPrefix(blocks, span.queryStart, ws) && j < |ws|
    ensures GoodVia(records, model, q, tiers, from, until, ws[j], i, span.sourceKeys[j])
    ensures span.queryStart <= ws[j].Start() && ws[j].End() <= span.QueryEnd()
    ensures ws[j].Start() + span.sourceStart == span.queryStart + span.sourceKeys[j].tokenStart
  {
    var key := span.sourceKeys[j];
    KeyInside(span, records[i], q, j);
    SliceOfSpan(span, records[i], q, key.tokenStart - span.sourceStart, key.tokenCount);
    assert key in span.sourceKeys;
  }

  lemma SpanWritesAreOrdered(span: ReuseSpan, blocks: seq<Block>, ws: seq<Write>)
    requires Contiguous(span.sourceKeys)
    requires |blocks| == |span.sourceKeys| && forall j :: 0 <= j < |blocks| ==> blocks[j].key == span.sourceKeys[j]
    requires RelocatesPrefix(blocks, span.queryStart, ws)
    ensures Ordered(ws)
  {
    forall a, b | 0 <= a < b < |ws| ensures ws[a].End() <= ws[b].Start() {
      ContiguousReach(span.sourceKeys, a, b);
    }
  }

  lemma {:induction false} ContiguousCovers(keys: seq<BlockKey>, x: nat, n: nat) returns (j: nat)
    requires Contiguous(keys) && 0 < n <= |keys| && keys[0].tokenStart <= x < keys[n - 1].End()
    ensures j < n && keys[j].tokenStart <= x < keys[j].End()
  {
    if x >= keys[n - 1].tokenStart {
      j := n - 1;
    } else {
      assert keys[n - 2].End() == keys[n - 1].tokenStart;
      j := ContiguousCovers(keys, x, n - 1);
    }
  }

  lemma SpanWritesCover(record: SegmentRecord, q: seq<Token>, span: ReuseSpan, blocks: seq<Block>, ws: seq<Write>,
                        p: nat)
    requires Backs(record, q, span) && Holds(span, p)
    requires |blocks| == |span.sourceKeys| == |ws|
    requires forall j :: 0 <= j < |blocks| ==> blocks[j].key == span.sourceKeys[j]
    requires RelocatesPrefix(blocks, span.queryStart, ws)
    ensures Written(ws, p)
  {
    var j := ContiguousCovers(span.sourceKeys, p - span.queryStart + span.sourceStart, |span.sourceKeys|);
    assert ws[j].Covers(p);
  }

  // The state of the runtime after the first n spans: ws are good, lie in those spans and never overlap.
  ghost predicate SoundWrites(records: seq<SegmentRecord>, model: Bytes, q: seq<Token>, tiers: seq<Tier>, from: nat,
                              until: nat, spans: seq<ReuseSpan>, n: nat, ws: seq<Write>)
  {
    && Ordered(ws)
    && (forall j :: 0 <= j < |ws| ==> GoodWrite(records, model, q, tiers, from, until, ws[j]))
    && (forall j :: 0 <= j < |ws| ==> InsideSpan(spans, n, ws[j]))
  }

  ghost predicate AllWritten(spans: seq<ReuseSpan>, n: nat, ws: seq<Write>) {
    forall m, p: nat :: 0 <= m < n && m < |spans| && Holds(spans[m], p) ==> Written(ws, p)
  }

  lemma AnotherSpan(records: seq<SegmentRecord>, model: Bytes, q: seq<Token>, tiers: seq<Tier>, from: nat, until: nat,
                    spans: seq<ReuseSpan>, n: nat, ws: seq<Write>, i: nat, blocks: seq<Block>, more: seq<Write>)
    requires Disjoint(spans) && n < |spans| && SoundWrites(records, model, q, tiers, from, until, spans, n, ws)
    requires BackedBy(records, model, q, spans[n], i)
    requires |blocks| == |spans[n].sourceKeys| && Loaded(tiers, spans[n].sourceKeys, blocks, from, until)
    requires RelocatesPrefix(blocks, spans[n].queryStart, more)
    ensures SoundWrites(records, model, q, tiers, from, until, spans, n + 1, ws + more)
  {
    var span := spans[n];
    forall j | 0 <= j < |more|
      ensures GoodWrite(records, model, q, tiers, from, until, more[j]) && InsideSpan(spans, n + 1, more[j])
      ensures span.queryStart <= more[j].Start()
    {
      SpanWriteIsGood(records, model, q, tiers, from, until, span, i, blocks, more, j);
    }
    SpanWritesAreOrdered(span, blocks, more);
    forall j | 0 <= j < |ws|
      ensures InsideSpan(spans, n + 1, ws[j]) && ws[j].End() <= span.queryStart
    {
      var m :| 0 <= m < n && m < |spans| && spans[m].queryStart <= ws[j].Start() && ws[j].End() <= spans[m].QueryEnd();
    }
  }

  lemma AnotherSpanWritten(record: SegmentRecord, q: seq<Token>, spans: seq<ReuseSpan>, n: nat, ws: seq<Write>,
                           blocks: seq<Block>, more: seq<Write>)
    requires n < |spans| && AllWritten(spans, n, ws) && Backs(record, q, spans[n])
    requires |blocks| == |spans[n].sourceKeys| == |more|
    requires forall j :: 0 <= j < |blocks| ==> blocks[j].key == spans[n].sourceKeys[j]
    requires RelocatesPrefix(blocks, spans[n].queryStart, more)
    ensures AllWritten(spans, n + 1, ws + more)
  {
    var all := ws + more;
    forall m, p: nat | 0 <= m < n + 1 && Holds(spans[m], p) ensures Written(all, p) {
      if m == n {
        SpanWritesCover(record, q, spans[n], blocks, more, p);
        var j :| 0 <= j < |more| && more[j].Covers(p);
        assert all[|ws| + j].Covers(p);
      } else {
        assert Written(ws, p);
        var j :| 0 <= j < |ws| && ws[j].Covers(p);
        assert all[j].Covers(p);
      }
    }
  }

  // ----- applying a plan -----

  ghost predicate LoadedAll(tiers: seq<Tier>, spans: seq<ReuseSpan>, loaded: seq<seq<Block>>, from: nat, until: nat) {
    && |loaded| <= |spans|
    && forall n :: 0 <= n < |loaded| ==>
         |loaded[n]| == |spans[n].sourceKeys| && Loaded(tiers, spans[n].sourceKeys, loaded[n], from, until)
  }

  ghost predicate SomeMissing(tiers: seq<Tier>, spans: seq<ReuseSpan>, from: nat, until: nat) {
    exists n :: 0 <= n < |spans| && Missing(tiers, spans[n].sourceKeys, from, until)
  }

  lemma MissingSinceStart(first: seq<Tier>, tiers: seq<Tier>, keys: seq<BlockKey>, start: nat, from: nat, until: nat)
    requires SameViews(first, tiers, from) && start <= from && Missing(tiers, keys, from, until)
    ensures Missing(first, keys, start, until)
  {
    var i, t: nat :| 0 <= i < |keys| && from <= t <= until && View(tiers, keys[i], t) == None;
    assert View(first, keys[i], t) == None;
  }

  // The first loop of apply_quality_reuse: every block of every span, before the runtime is touched.
  method LoadPlan(engine: KvEngine, spans: seq<ReuseSpan>) returns (r: Result<Option<seq<seq<Block>>>>)
    requires engine.Valid()
    modifies engine`tiers, engine`clock, engine`faults
    ensures OnlyRead(engine)
    ensures r.Err? <==> engine.faults > old(engine.faults)
    ensures r == Ok(None) ==> SomeMissing(old(engine.tiers), spans, old(engine.clock), engine.clock)
    ensures r.Ok? && r.value.Some? ==>
              |r.value.value| == |spans|
                && LoadedAll(old(engine.tiers), spans, r.value.value, old(engine.clock), engine.clock)
  {
    var loaded: seq<seq<Block>> := [];
    for n := 0 to |spans|
      invariant OnlyRead(engine) && engine.faults == old(engine.faults)
      invariant |loaded| == n && LoadedAll(old(engine.tiers), spans, loaded, old(engine.clock), engine.clock)
    {
      ghost var tiers, clock := engine.tiers, engine.clock;
      var got := LoadSpan(engine, spans[n].sourceKeys);
      if got.Err? {
        return Err(got.error);
      }
      if got.value.None? {
        MissingSinceStart(old(engine.tiers), tiers, spans[n].sourceKeys, old(engine.clock), clock, engine.clock);
        return Ok(None);
      }
      forall m | 0 <= m < n
        ensures Loaded(old(engine.tiers), spans[m].sourceKeys, loaded[m], old(engine.clock), engine.clock)
      {
        HeldLonger(old(engine.tiers), spans[m].sourceKeys, loaded[m], old(engine.clock), clock, engine.clock);
      }
      SeenSinceStart(old(engine.tiers), tiers, spans[n].sourceKeys, got.value.value, old(engine.clock), clock,
        engine.clock);
      loaded := loaded + [got.value.value];
    }
    return Ok(Some(loaded));
  }

  lemma SeenSinceStart(first: seq<Tier>, tiers: seq<Tier>, keys: seq<BlockKey>, blocks: seq<Block>, start: nat,
                       from: nat, until: nat)
    requires SameViews(first, tiers, from) && start <= from && Loaded(tiers, keys, blocks, from, until)
    ensures Loaded(first, keys, blocks, start, until)
  {
    forall j | 0 <= j < |blocks| ensures Held(first, keys[j], blocks[j].bytes, start, until) {
      var t: nat :| from <= t <= until && HeldAt(tiers, keys[j], blocks[j].bytes, t);
      assert HeldAt(first, keys[j], blocks[j].bytes, t);
    }
  }

  // The spans of a plan are backed by the index and do not overlap.
  ghost predicate PlanFor(records: seq<SegmentRecord>, model: Bytes, q: seq<Token>, spans: seq<ReuseSpan>) {
    Disjoint(spans) && forall n :: 0 <= n < |spans| ==> Backed(records, model, q, spans[n])
  }

  // The conditions under which a span's blocks are restored at its place in the query.
  ghost predicate Placeable(span: ReuseSpan, blocks: seq<Block>) {
    span.queryStart <= U32_MAX && Restorable(blocks) && FitsAt(blocks, span.queryStart)
  }

  // The second loop of apply_quality_reuse.
  method RestorePlan(runtime: Runtime, spans: seq<ReuseSpan>, loaded: seq<seq<Block>>,
                     ghost records: seq<SegmentRecord>, ghost model: Bytes, ghost q: seq<Token>,
                     ghost tiers: seq<Tier>, ghost from: nat, ghost until: nat)
    returns (r: Outcome, ghost ws: seq<Write>)
    requires |loaded| == |spans| && LoadedAll(tiers, spans, loaded, from, until)
    modifies runtime`writes, runtime`faults
    ensures runtime.faults >= old(runtime.faults)
    ensures r.Done? <==>
              runtime.faults == old(runtime.faults) && forall n :: 0 <= n < |spans| ==> Placeable(spans[n], loaded[n])
    ensures runtime.writes == old(runtime.writes) + ws
    ensures PlanFor(records, model, q, spans) ==> SoundWrites(records, model, q, tiers, from, until, spans, |spans|, ws)
    ensures PlanFor(records, model, q, spans) && r.Done? ==> AllWritten(spans, |spans|, ws)
  {
    ws := [];
    for n := 0 to |spans|
      invariant runtime.writes == old(runtime.writes) + ws && runtime.faults == old(runtime.faults)
      invariant forall m :: 0 <= m < n ==> Placeable(spans[m], loaded[m])
      invariant PlanFor(records, model, q, spans) ==> SoundWrites(records, model, q, tiers, from, until, spans, n, ws)
      invariant PlanFor(records, model, q, spans) ==> AllWritten(spans, n, ws)
    {
      if spans[n].queryStart > U32_MAX {
        MoreSpansAllowed(records, model, q, tiers, from, until, spans, n, ws);
        return Failed(InvalidInput), ws;
      }
      ghost var more;
      r, more := RestoreRelocated(runtime, loaded[n], spans[n].queryStart);
      AfterSpan(records, model, q, tiers, from, until, spans, n, ws, loaded[n], more);
      ws := ws + more;
      if r.Failed? {
        MoreSpansAllowed(records, model, q, tiers, from, until, spans, n + 1, ws);
        return;
      }
    }
    r := Done;
  }

  lemma AfterSpan(records: seq<SegmentRecord>, model: Bytes, q: seq<Token>, tiers: seq<Tier>, from: nat, until: nat,
                  spans: seq<ReuseSpan>, n: nat, ws: seq<Write>, blocks: seq<Block>, more: seq<Write>)
    requires n < |spans|
    requires PlanFor(records, model, q, spans) ==> SoundWrites(records, model, q, tiers, from, until, spans, n, ws)
    requires PlanFor(records, model, q, spans) ==> AllWritten(spans, n, ws)
    requires |blocks| == |spans[n].sourceKeys| && Loaded(tiers, spans[n].sourceKeys, blocks, from, until)
    requires RelocatesPrefix(blocks, spans[n].queryStart, more)
    ensures PlanFor(records, model, q, spans) ==>
            SoundWrites(records, model, q, tiers, from, until, spans, n + 1, ws + more)
    ensures PlanFor(records, model, q, spans) && |more| == |blocks| ==> AllWritten(spans, n + 1, ws + more)
  {
    if PlanFor(records, model, q, spans) {
      assert Backed(records, model, q, spans[n]);
      var i :| BackedBy(records, model, q, spans[n], i);
      AnotherSpan(records, model, q, tiers, from, until, spans, n, ws, i, blocks, more);
      if |more| == |blocks| {
        AnotherSpanWritten(records[i], q, spans, n, ws, blocks, more);
      }
    }
  }

  lemma MoreSpansAllowed(records: seq<SegmentRecord>, model: Bytes, q: seq<Token>, tiers: seq<Tier>, from: nat,
                         until: nat, spans: seq<ReuseSpan>, n: nat, ws: seq<Write>)
    requires n <= |spans|
    ensures SoundWrites(records, model, q, tiers, from, until, spans, n, ws) ==>
              SoundWrites(records, model, q, tiers, from, until, spans, |spans|, ws)
  {
  }

  // Records whose spans can be placed in a query with 32-bit positions, and an engine without empty blocks.
  ghost predicate Placeables(records: seq<SegmentRecord>, tiers: seq<Tier>, q: seq<Token>) {
    && |q| <= U32_MAX
    && (forall i :: 0 <= i < |records| ==> ValidRecord(records[i]) && |records[i].tokens| <= U32_MAX)
    && (forall key, t: nat :: View(tiers, key, t).Some? ==> View(tiers, key, t).value.bytes != [])
  }

  lemma BackedIsPlaceable(records: seq<SegmentRecord>, model: Bytes, q: seq<Token>, span: ReuseSpan,
                          tiers: seq<Tier>, blocks: seq<Block>, from: nat, until: nat)
    requires Backed(records, model, q, span) && Placeables(records, tiers, q)
    requires |blocks| == |span.sourceKeys| && Loaded(tiers, span.sourceKeys, blocks, from, until)
    ensures Placeable(span, blocks)
  {
    var i :| BackedBy(records, model, q, span, i);
    forall j | 0 <= j < |blocks|
      ensures blocks[j].bytes != [] && SameShape(blocks[j].key, records[i].keys[0]) && blocks[j].key.End() <= U32_MAX
      ensures span.sourceStart <= blocks[j].key.tokenStart
              && span.queryStart + (blocks[j].key.tokenStart - span.sourceStart) <= U32_MAX
    {
      KeyInside(span, records[i], q, j);
      assert span.sourceKeys[j] in span.sourceKeys;
      var m :| 0 <= m < |records[i].keys| && records[i].keys[m] == span.sourceKeys[j];
      assert KeyFits(records[i], m) && KeyFits(records[i], 0);
      var t: nat :| from <= t <= until && HeldAt(tiers, span.sourceKeys[j], blocks[j].bytes, t);
    }
  }

  // What the runtime is told to recompute: all ranges in one call, or nothing.
  function Handed(ranges: seq<TokenRange>): seq<seq<TokenRange>> { if ranges == [] then [] else [ranges] }

  method ApplyQualityReuse(engine: KvEngine, runtime: Runtime, q: seq<Token>, plan: Plan,
                           ghost records: seq<SegmentRecord>, ghost model: Bytes)
    returns (r: Result<bool>, ghost ws: seq<Write>)
    requires engine.Valid()
    modifies engine`tiers, engine`clock, engine`faults, runtime
    ensures OnlyRead(engine)
    ensures runtime.writes == old(runtime.writes) + ws
    ensures r == Ok(false) ==> ws == [] && runtime.recomputed == old(runtime.recomputed)
    ensures r == Ok(false) ==> SomeMissing(old(engine.tiers), plan.spans, old(engine.clock), engine.clock)
    ensures r.Ok? ==> engine.faults == old(engine.faults) && runtime.faults == old(runtime.faults)
    ensures (&& |q| == plan.queryTokens && plan.spans != [] && PlanFor(records, model, q, plan.spans)
             && Placeables(records, old(engine.tiers), q)
             && engine.faults == old(engine.faults) && runtime.faults == old(runtime.faults)) ==> r.Ok?
    ensures |q| != plan.queryTokens || plan.spans == [] ==> r == Err(InvalidInput) && ws == []
    ensures PlanFor(records, model, q, plan.spans) ==>
              SoundWrites(records, model, q, old(engine.tiers), old(engine.clock), engine.clock, plan.spans,
                |plan.spans|, ws)
    ensures PlanFor(records, model, q, plan.spans) && r == Ok(true) ==> AllWritten(plan.spans, |plan.spans|, ws)
    ensures r == Ok(true) ==>
              runtime.recomputed == old(runtime.recomputed) + Handed(plan.recompute)
  {
    ws := [];
    if |q| != plan.queryTokens || plan.spans == [] {
      return Err(InvalidInput), [];
    }
    var loaded := LoadPlan(engine, plan.spans);
    if loaded.Err? {
      return Err(loaded.error), [];
    }
    if loaded.value.None? {
      return Ok(false), [];
    }
    var restored;
    restored, ws := RestorePlan(runtime, plan.spans, loaded.value.value, records, model, q,
                                old(engine.tiers), old(engine.clock), engine.clock);
    if PlanFor(records, model, q, plan.spans) && Placeables(records, old(engine.tiers), q) {
      forall n | 0 <= n < |plan.spans| ensures Placeable(plan.spans[n], loaded.value.value[n]) {
        BackedIsPlaceable(records, model, q, plan.spans[n], old(engine.tiers), loaded.value.value[n],
          old(engine.clock), engine.clock);
      }
    }
    if restored.Failed? {
      return Err(restored.error), ws;
    }
    if plan.recompute != [] {
      var recomputed := runtime.RecomputeRanges(plan.recompute);
      if recomputed.Failed? {
        return Err(recomputed.error), ws;
      }
    }
    return Ok(true), ws;
  }

  // ----- end to end -----

  // The bytes written at w were held for a block whose name is the hash of a token prefix, and the query has
  // at w exactly that block's tokens.
  ghost predicate CarriesTokens(sha: Digest, q: seq<Token>, tiers: seq<Tier>, from: nat, until: nat, w: Write) {
    exists key, prefix :: CarriesVia(sha, q, tiers, from, until, w, key, prefix)
  }

  ghost predicate CarriesVia(sha: Digest, q: seq<Token>, tiers: seq<Tier>, from: nat, until: nat, w: Write,
                             key: BlockKey, prefix: seq<Token>)
  {
    && key.sequenceHash == sha(PrefixEncoding(prefix)) && |prefix| == key.End()
    && w.End() <= |q| && q[w.Start()..w.End()] == prefix[key.tokenStart..]
    && Held(tiers, key, w.bytes, from, until)
  }

  lemma OwnKeyNamesPrefix(sha: Digest, record: SegmentRecord, key: BlockKey)
    requires OwnKeys(sha, record) && key in record.keys
    ensures key.End() <= |record.tokens| && key.sequenceHash == sha(PrefixEncoding(record.tokens[..key.End()]))
  {
    var request :| OwnKeysOf(sha, record, request);
    var i :| 0 <= i < |record.keys| && record.keys[i] == key;
    OwnKeyAt(sha, record, request, i);
  }

  lemma {:induction false} OwnKeyAt(sha: Digest, record: SegmentRecord, request: CaptureRequest, i: nat)
    requires OwnKeysOf(sha, record, request) && i < |record.keys|
    ensures var key := record.keys[i];
      key.End() <= |record.tokens| && key.sequenceHash == sha(PrefixEncoding(record.tokens[..key.End()]))
  {
    KeysUpToAt(sha, request, |record.keys|, i);
    BlockShape(sha, request, i);
  }

  lemma GoodWriteCarriesTokens(sha: Digest, records: seq<SegmentRecord>, model: Bytes, q: seq<Token>,
                               tiers: seq<Tier>, from: nat, until: nat, w: Write)
    requires forall i :: 0 <= i < |records| ==> OwnKeys(sha, records[i])
    requires GoodWrite(records, model, q, tiers, from, until, w)
    ensures CarriesTokens(sha, q, tiers, from, until, w)
  {
    var i, key :| GoodVia(records, model, q, tiers, from, until, w, i, key);
    OwnKeyNamesPrefix(sha, records[i], key);
    var prefix := records[i].tokens[..key.End()];
    assert prefix[key.tokenStart..] == records[i].tokens[key.tokenStart..key.End()];
    assert CarriesVia(sha, q, tiers, from, until, w, key, prefix);
  }

  lemma GoodWritesCarryTokens(sha: Digest, records: seq<SegmentRecord>, model: Bytes, q: seq<Token>,
                              tiers: seq<Tier>, from: nat, until: nat, ws: seq<Write>)
    requires forall j :: 0 <= j < |ws| ==> GoodWrite(records, model, q, tiers, from, until, ws[j])
    ensures (forall i :: 0 <= i < |records| ==> OwnKeys(sha, records[i])) ==>
              forall j :: 0 <= j < |ws| ==> CarriesTokens(sha, q, tiers, from, until, ws[j])
  {
    if forall i :: 0 <= i < |records| ==> OwnKeys(sha, records[i]) {
      forall j | 0 <= j < |ws| ensures CarriesTokens(sha, q, tiers, from, until, ws[j]) {
        GoodWriteCarriesTokens(sha, records, model, q, tiers, from, until, ws[j]);
      }
    }
  }

  lemma SoundPlanIsPlan(records: seq<SegmentRecord>, model: Bytes, q: seq<Token>, policy: Policy, plan: Plan)
    requires SoundPlan(records, model, q, policy, plan)
    ensures PlanFor(records, model, q, plan.spans)
  {
    forall n | 0 <= n < |plan.spans| ensures Backed(records, model, q, plan.spans[n]) {
      assert Usable(records, model, q, policy.minMatch, plan.spans[n]);
    }
  }

  // Plan a query and apply the plan.  A plan that exists is applied in full unless a block of its spans is missing or
  // a call fails.  When every record was registered with its own block keys, each query position that a span holds has
  // been written, by exactly one write, from a block whose token there is the query's; and every write ever made, even
  // in a failed attempt, is of that kind.
  method ReuseQuery(sha: Digest, index: SegmentIndex, engine: KvEngine, runtime: Runtime,
                    model: Bytes, q: seq<Token>, policy: Policy)
    returns (r: Result<bool>, plan: Option<Plan>, ghost order: seq<ReuseSpan>, ghost ws: seq<Write>)
    requires index.Valid() && engine.Valid() && |q| <= MAX_LEN
    modifies engine`tiers, engine`clock, engine`faults, runtime
    ensures OnlyRead(engine) && runtime.writes == old(runtime.writes) + ws
    ensures if policy.Acceptable() then Planned(index.records, model, q, policy, order, plan)
            else r == Err(InvalidInput) && plan.None?
    ensures plan.None? ==> ws == [] && runtime.recomputed == old(runtime.recomputed)
    ensures policy.Acceptable() && plan.None? ==> r == Ok(false)
    ensures r == Ok(false) ==> ws == [] && runtime.recomputed == old(runtime.recomputed)
    ensures plan.Some? ==>
              var missing := SomeMissing(old(engine.tiers), plan.value.spans, old(engine.clock), engine.clock);
              && (r == Ok(false) ==> missing)
              && (Placeables(index.records, old(engine.tiers), q)
                    && engine.faults == old(engine.faults) && runtime.faults == old(runtime.faults) ==>
                  r.Ok? && (r.value || missing))
    ensures r == Ok(true) ==>
              && plan.Some? && AllWritten(plan.value.spans, |plan.value.spans|, ws)
              && runtime.recomputed == old(runtime.recomputed) + Handed(plan.value.recompute)
    ensures plan.Some? ==>
              SoundWrites(index.records, model, q, old(engine.tiers), old(engine.clock), engine.clock,
                          plan.value.spans, |plan.value.spans|, ws)
    ensures (forall i :: 0 <= i < |index.records| ==> OwnKeys(sha, index.records[i])) ==>
              forall j :: 0 <= j < |ws| ==>
                CarriesTokens(sha, q, old(engine.tiers), old(engine.clock), engine.clock, ws[j])
  {
    ws := [];
    var planned;
    planned, order := PlanQualityReuse(index, model, q, policy);
    if planned.Err? {
      return Err(planned.error), None, [], [];
    }
    if planned.value.None? {
      return Ok(false), None, order, [];
    }
    plan := planned.value;
    SoundPlanIsPlan(index.records, model, q, policy, plan.value);
    r, ws := ApplyQualityReuse(engine, runtime, q, plan.value, index.records, model);
    GoodWritesCarryTokens(sha, index.records, model, q, old(engine.tiers), old(engine.clock), engine.clock, ws);
  }
}
