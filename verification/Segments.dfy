/** Segment records (src/reuse.rs): validation, and the alignment of a raw match to whole blocks. */
module Segments {
  import opened Prelude
  import opened BlockKeys
  import opened LongestCommonSubstring
  import opened Utf8
  import Sorting

  datatype ReuseSpan = ReuseSpan(queryStart: nat, sourceStart: nat, matchedTokens: nat, sourceKeys: seq<BlockKey>)
  {
    function QueryEnd(): nat { queryStart + matchedTokens }
  }

  datatype SegmentRecord = SegmentRecord(model: Bytes, tokens: seq<Token>, keys: seq<BlockKey>)

  // ----- validation -----

  // The start that validate_record expects of keys[i]; the addition saturates at u32::MAX.
  function ExpectedStart(keys: seq<BlockKey>, i: nat): nat
    requires i < |keys| || (i == |keys| && i > 0)
  {
    if i == 0 then keys[0].tokenStart else SatAdd32(keys[i - 1].tokenStart, keys[i - 1].tokenCount)
  }

  predicate KeyFits(record: SegmentRecord, i: nat)
    requires i < |record.keys|
  {
    var key, first := record.keys[i], record.keys[0];
    && key.model == record.model && key.tokenCount > 0 && key.layerCount > 0
    && key.layerStart == first.layerStart && key.layerCount == first.layerCount
    && key.layoutVersion == first.layoutVersion
    && key.tokenStart == ExpectedStart(record.keys, i)
    && key.End() <= |record.tokens|
  }

  ghost predicate ValidRecord(record: SegmentRecord) {
    && !Blank(record.model) && 0 < |record.tokens| <= MAX_LEN && record.keys != []
    && forall i :: 0 <= i < |record.keys| ==> KeyFits(record, i)
  }

  method ValidateRecord(record: SegmentRecord) returns (ok: bool)
    requires |record.tokens| <= MAX_LEN
    ensures ok <==> ValidRecord(record)
  {
    if Blank(record.model) || record.tokens == [] || record.keys == [] {
      return false;
    }
    var first := record.keys[0];
    var expected: nat := first.tokenStart;
    for i := 0 to |record.keys|
      invariant expected == ExpectedStart(record.keys, i)
      invariant forall j :: 0 <= j < i ==> KeyFits(record, j)
    {
      var key := record.keys[i];
      if || key.model != record.model || key.tokenCount == 0 || key.layerCount == 0
         || key.layerStart != first.layerStart || key.layerCount != first.layerCount
         || key.layoutVersion != first.layoutVersion || key.tokenStart != expected
         || SatAdd(key.tokenStart, key.tokenCount) > |record.tokens|
      {
        assert !KeyFits(record, i);
        return false;
      }
      assert KeyFits(record, i);
      expected := SatAdd32(key.tokenStart, key.tokenCount);
    }
    return true;
  }

  // ----- alignment of a raw match to whole blocks -----

  predicate LiesIn(key: BlockKey, lo: nat, hi: nat) {
    lo <= key.tokenStart && key.End() <= hi
  }

  function Inside(keys: seq<BlockKey>, lo: nat, hi: nat): seq<BlockKey> {
    if keys == [] then
      []
    else
      var front, last := keys[..|keys| - 1], keys[|keys| - 1];
      if LiesIn(last, lo, hi) then Inside(front, lo, hi) + [last] else Inside(front, lo, hi)
  }

  lemma {:induction false} InsideMembers(keys: seq<BlockKey>, lo: nat, hi: nat, key: BlockKey)
    ensures key in Inside(keys, lo, hi) <==> key in keys && LiesIn(key, lo, hi)
  {
    if keys != [] {
      InsideMembers(keys[..|keys| - 1], lo, hi, key);
      assert keys == keys[..|keys| - 1] + [keys[|keys| - 1]];
    }
  }

  function StartOf(key: BlockKey): int { key.tokenStart }

  // n is where the contiguous run that begins with keys[0] stops.
  ghost predicate IsRun(keys: seq<BlockKey>, n: nat) {
    && 0 < n <= |keys| && Contiguous(keys[..n])
    && (n < |keys| ==> keys[n - 1].End() != keys[n].tokenStart)
  }

  ghost predicate AlignedTo(record: SegmentRecord, raw: RawMatch, r: Option<ReuseSpan>) {
    var keys := Inside(record.keys, raw.sourceStart, raw.sourceStart + raw.len);
    if keys == [] then
      r.None?
    else
      && r.Some?
      && var span := r.value;
      var n := |span.sourceKeys|;
      && IsRun(keys, n)
      && span.sourceKeys == keys[..n]
      && span.sourceStart == keys[0].tokenStart
      && span.sourceStart + span.matchedTokens == keys[n - 1].End()
      && span.queryStart + raw.sourceStart == raw.queryStart + span.sourceStart
  }

  lemma {:induction false} StartsAscend(record: SegmentRecord, i: nat, j: nat)
    requires ValidRecord(record) && i <= j < |record.keys|
    ensures record.keys[i].tokenStart <= record.keys[j].tokenStart
  {
    if i < j {
      StartsAscend(record, i, j - 1);
      assert KeyFits(record, j);
    }
  }

  lemma {:induction false} InsideSorted(keys: seq<BlockKey>, lo: nat, hi: nat)
    requires Sorting.SortedBy(StartOf, keys)
    ensures Sorting.SortedBy(StartOf, Inside(keys, lo, hi))
  {
    if keys != [] {
      var front, last := keys[..|keys| - 1], keys[|keys| - 1];
      InsideSorted(front, lo, hi);
      forall k | k in Inside(front, lo, hi) ensures StartOf(k) <= StartOf(last) {
        InsideMembers(front, lo, hi, k);
      }
    }
  }

  lemma InsideAscends(record: SegmentRecord, lo: nat, hi: nat)
    requires ValidRecord(record)
    ensures Sorting.SortedBy(StartOf, Inside(record.keys, lo, hi))
  {
    forall i, j | 0 <= i < j < |record.keys|
      ensures StartOf(record.keys[i]) <= StartOf(record.keys[j])
    {
      StartsAscend(record, i, j);
    }
    InsideSorted(record.keys, lo, hi);
  }

  lemma SortIsIdentity(record: SegmentRecord, lo: nat, hi: nat)
    requires ValidRecord(record)
    ensures Sorting.SortBy(StartOf, Inside(record.keys, lo, hi)) == Inside(record.keys, lo, hi)
  {
    InsideAscends(record, lo, hi);
    Sorting.SortByIdentity(StartOf, Inside(record.keys, lo, hi));
  }

  lemma KeptKey(record: SegmentRecord, lo: nat, hi: nat, key: BlockKey)
    requires ValidRecord(record) && key in Inside(record.keys, lo, hi)
    ensures key in record.keys && LiesIn(key, lo, hi) && key.tokenCount > 0 && key.End() <= |record.tokens|
  {
    InsideMembers(record.keys, lo, hi, key);
    var i :| 0 <= i < |record.keys| && record.keys[i] == key;
    assert KeyFits(record, i);
  }

  lemma RunStartsLow(record: SegmentRecord, keys: seq<BlockKey>, lo: nat, hi: nat, n: nat)
    requires ValidRecord(record) && keys == Inside(record.keys, lo, hi) && 0 < n <= |keys|
    ensures lo <= keys[0].tokenStart < keys[n - 1].End() <= hi
  {
    InsideAscends(record, lo, hi);
    assert StartOf(keys[0]) <= StartOf(keys[n - 1]);
    KeptKey(record, lo, hi, keys[0]);
    KeptKey(record, lo, hi, keys[n - 1]);
  }

  // The filter of align_to_blocks.
  method KeysInside(keys: seq<BlockKey>, lo: nat, hi: nat) returns (r: seq<BlockKey>)
    ensures r == Inside(keys, lo, hi)
  {
    r := [];
    for i := 0 to |keys|
      invariant r == Inside(keys[..i], lo, hi)
    {
      assert keys[..i + 1][..i] == keys[..i];
      if lo <= keys[i].tokenStart && SatAdd(keys[i].tokenStart, keys[i].tokenCount) <= hi {
        r := r + [keys[i]];
      }
    }
    assert keys[..|keys|] == keys;
  }

  // The contiguity loop of align_to_blocks.
  method LeadingRun(keys: seq<BlockKey>) returns (run: seq<BlockKey>)
    requires keys != []
    ensures IsRun(keys, |run|) && run == keys[..|run|]
  {
    var expected: nat := keys[0].tokenStart;
    run := [];
    for i := 0 to |keys|
      invariant run == keys[..i] && Contiguous(run)
      invariant expected == if i == 0 then keys[0].tokenStart else keys[i - 1].End()
    {
      if keys[i].tokenStart != expected {
        break;
      }
      expected := SatAdd(keys[i].tokenStart, keys[i].tokenCount);
      run := run + [keys[i]];
    }
  }

  method AlignToBlocks(record: SegmentRecord, raw: RawMatch) returns (r: Option<ReuseSpan>)
    requires ValidRecord(record)
    requires raw.sourceStart + raw.len <= |record.tokens| && raw.queryStart <= MAX_LEN
    ensures AlignedTo(record, raw, r)
  {
    var hi := raw.sourceStart + raw.len;
    var keys := SortedInside(record, raw.sourceStart, hi);
    if keys == [] {
      return None;
    }
    var contiguous := LeadingRun(keys);
    RunStartsLow(record, keys, raw.sourceStart, hi, |contiguous|);
    var span := PlaceRun(contiguous, raw);
    r := Some(span);
  }

  // The filter and the sort, which on a valid record changes nothing.
  method SortedInside(record: SegmentRecord, lo: nat, hi: nat) returns (keys: seq<BlockKey>)
    requires ValidRecord(record)
    ensures keys == Inside(record.keys, lo, hi)
  {
    var kept := KeysInside(record.keys, lo, hi);
    SortIsIdentity(record, lo, hi);
    keys := Sorting.SortBy(StartOf, kept);
  }

  // The span of a run of blocks inside the raw match.
  method PlaceRun(run: seq<BlockKey>, raw: RawMatch) returns (span: ReuseSpan)
    requires run != [] && raw.queryStart <= MAX_LEN && raw.sourceStart + raw.len <= MAX_LEN
    requires raw.sourceStart <= run[0].tokenStart < run[|run| - 1].End() <= raw.sourceStart + raw.len
    ensures span.sourceKeys == run && span.sourceStart == run[0].tokenStart
    ensures span.sourceStart + span.matchedTokens == run[|run| - 1].End()
    ensures span.queryStart + raw.sourceStart == raw.queryStart + span.sourceStart
  {
    var sourceStart, last := run[0].tokenStart, run[|run| - 1];
    var matched := SatSub(last.tokenStart + last.tokenCount, sourceStart);
    var queryStart := SatAdd(raw.queryStart, SatSub(sourceStart, raw.sourceStart));
    span := ReuseSpan(queryStart, sourceStart, matched, run);
  }

  // ----- what alignment keeps -----

  // No block but the last runs past u32::MAX, so no expected start of validate_record saturated.
  predicate NoOverrun(keys: seq<BlockKey>) {
    forall i :: 0 <= i < |keys| - 1 ==> keys[i].End() <= U32_MAX
  }

  lemma {:induction false} ContiguousReach(keys: seq<BlockKey>, i: nat, j: nat)
    requires Contiguous(keys) && i < j < |keys|
    ensures keys[i].End() <= keys[j].tokenStart
  {
    if i + 1 < j {
      ContiguousReach(keys, i, j - 1);
    }
    assert keys[j - 1].End() == keys[j].tokenStart;
  }

  lemma {:induction false} InsideOfContiguous(keys: seq<BlockKey>, lo: nat, hi: nat)
    requires Contiguous(keys)
    ensures Contiguous(Inside(keys, lo, hi))
  {
    if keys != [] {
      var front, last := keys[..|keys| - 1], keys[|keys| - 1];
      InsideOfContiguous(front, lo, hi);
      var kept := Inside(front, lo, hi);
      if LiesIn(last, lo, hi) && kept != [] {
        // The block before the last one lies inside too, so it is the last one kept so far.
        var before := front[|front| - 1];
        assert before == keys[|keys| - 2] && before.End() == last.tokenStart;
        InsideMembers(front, lo, hi, kept[0]);
        var i :| 0 <= i < |front| && front[i] == kept[0];
        if i < |front| - 1 {
          ContiguousReach(front, i, |front| - 1);
        }
        assert LiesIn(before, lo, hi) && kept[|kept| - 1] == before;
        var all := Inside(keys, lo, hi);
        forall x, y | 0 <= x < y < |all| && y == x + 1 ensures all[x].End() == all[y].tokenStart {
          if y < |kept| {
            assert kept[x].End() == kept[y].tokenStart;
          }
        }
      }
    }
  }

  lemma RunOfContiguous(keys: seq<BlockKey>, n: nat)
    requires Contiguous(keys) && IsRun(keys, n)
    ensures n == |keys|
  {
  }

  lemma ValidIsContiguousIffNoOverrun(record: SegmentRecord)
    requires ValidRecord(record)
    ensures Contiguous(record.keys) <==> NoOverrun(record.keys)
  {
    forall i, j | 0 <= i < j < |record.keys| && j == i + 1
      ensures record.keys[i].End() == record.keys[j].tokenStart <==> record.keys[i].End() <= U32_MAX
    {
      assert KeyFits(record, j);
    }
    if !NoOverrun(record.keys) {
      var i :| 0 <= i < |record.keys| - 1 && record.keys[i].End() > U32_MAX;
      assert record.keys[i].End() != record.keys[i + 1].tokenStart;
    }
  }

  lemma {:induction false} RunExists(keys: seq<BlockKey>, m: nat) returns (n: nat)
    requires 0 < m <= |keys| && Contiguous(keys[..m])
    ensures IsRun(keys, n)
    decreases |keys| - m
  {
    if m < |keys| && keys[m - 1].End() == keys[m].tokenStart {
      var longer := keys[..m + 1];
      forall i, j | 0 <= i < j < |longer| && j == i + 1 ensures longer[i].End() == longer[j].tokenStart {
        if j < m {
          assert keys[..m][i].End() == keys[..m][j].tokenStart;
        }
      }
      n := RunExists(keys, m + 1);
    } else {
      n := m;
    }
  }

  lemma {:induction false} InsideAll(keys: seq<BlockKey>, hi: nat)
    requires forall k :: k in keys ==> k.End() <= hi
    ensures Inside(keys, 0, hi) == keys
  {
    if keys != [] {
      InsideAll(keys[..|keys| - 1], hi);
      assert LiesIn(keys[|keys| - 1], 0, hi);
      assert keys == keys[..|keys| - 1] + [keys[|keys| - 1]];
    }
  }

  // Alignment keeps every block that lies wholly inside every raw match exactly when no inner block
  // runs past u32::MAX.  (Records of at most u32::MAX tokens always satisfy that.)
  lemma AlignmentKeepsEveryBlock(record: SegmentRecord)
    requires ValidRecord(record)
    ensures NoOverrun(record.keys) <==>
            forall raw: RawMatch, span ::
              raw.sourceStart + raw.len <= |record.tokens| && AlignedTo(record, raw, Some(span)) ==>
              span.sourceKeys == Inside(record.keys, raw.sourceStart, raw.sourceStart + raw.len)
  {
    ValidIsContiguousIffNoOverrun(record);
    if NoOverrun(record.keys) {
      forall raw: RawMatch, span | AlignedTo(record, raw, Some(span))
        ensures span.sourceKeys == Inside(record.keys, raw.sourceStart, raw.sourceStart + raw.len)
      {
        InsideOfContiguous(record.keys, raw.sourceStart, raw.sourceStart + raw.len);
        RunOfContiguous(Inside(record.keys, raw.sourceStart, raw.sourceStart + raw.len), |span.sourceKeys|);
      }
    } else {
      var raw, span := DroppedBlock(record);
      assert AlignedTo(record, raw, Some(span));
    }
  }

  lemma WholeRecordInside(record: SegmentRecord)
    requires ValidRecord(record)
    ensures Inside(record.keys, 0, |record.tokens|) == record.keys
  {
    forall k | k in record.keys ensures k.End() <= |record.tokens| {
      var i :| 0 <= i < |record.keys| && record.keys[i] == k;
      assert KeyFits(record, i);
    }
    InsideAll(record.keys, |record.tokens|);
  }

  lemma SpanOfRun(record: SegmentRecord, raw: RawMatch, keys: seq<BlockKey>, n: nat) returns (span: ReuseSpan)
    requires ValidRecord(record)
    requires keys == Inside(record.keys, raw.sourceStart, raw.sourceStart + raw.len) && IsRun(keys, n)
    ensures AlignedTo(record, raw, Some(span)) && span.sourceKeys == keys[..n]
  {
    RunStartsLow(record, keys, raw.sourceStart, raw.sourceStart + raw.len, n);
    var start := keys[0].tokenStart;
    span := ReuseSpan(raw.queryStart + (start - raw.sourceStart), start, keys[n - 1].End() - start, keys[..n]);
  }

  lemma DroppedBlock(record: SegmentRecord) returns (raw: RawMatch, span: ReuseSpan)
    requires ValidRecord(record) && !NoOverrun(record.keys)
    ensures raw.sourceStart + raw.len <= |record.tokens| && AlignedTo(record, raw, Some(span))
    ensures span.sourceKeys != Inside(record.keys, raw.sourceStart, raw.sourceStart + raw.len)
  {
    ValidIsContiguousIffNoOverrun(record);
    WholeRecordInside(record);
    var n := RunExists(record.keys, 1);
    assert record.keys[..|record.keys|] == record.keys;
    assert n < |record.keys|;
    raw := RawMatch(0, 0, |record.tokens|);
    span := SpanOfRun(record, raw, record.keys, n);
  }

  // The smallest record on which validation lets a block be dropped: its first block crosses u32::MAX.
  lemma OverrunWitness(model: Bytes, tokens: seq<Token>, hash: Bytes)
    requires !Blank(model) && U32_MAX + 1 < |tokens| <= MAX_LEN
    ensures var keys := [BlockKey(model, hash, 0, U32_MAX - 1, 3, 0, 1, 0),
            BlockKey(model, hash, 1, U32_MAX, 1, 0, 1, 0)];
            ValidRecord(SegmentRecord(model, tokens, keys)) && !NoOverrun(keys)
  {
    var keys := [BlockKey(model, hash, 0, U32_MAX - 1, 3, 0, 1, 0), BlockKey(model, hash, 1, U32_MAX, 1, 0, 1, 0)];
    var record := SegmentRecord(model, tokens, keys);
    assert KeyFits(record, 0) && KeyFits(record, 1);
    assert keys[0].End() > U32_MAX;
  }

  // ----- records registered with their own block keys -----

  ghost predicate OwnKeysOf(sha: Digest, record: SegmentRecord, request: CaptureRequest) {
    && request.Accepted() && request.model == record.model && request.tokens == record.tokens
    && record.keys == KeysOf(sha, request)
  }

  ghost predicate OwnKeys(sha: Digest, record: SegmentRecord) {
    exists request :: OwnKeysOf(sha, record, request)
  }

  lemma OwnKeysAreValid(sha: Digest, record: SegmentRecord, request: CaptureRequest)
    requires OwnKeysOf(sha, record, request) && !Blank(record.model) && record.tokens != []
    ensures ValidRecord(record) && NoOverrun(record.keys)
  {
    BlocksTile(sha, request, record.keys);
    forall i | 0 <= i < |record.keys| ensures KeyFits(record, i) && record.keys[i].End() <= U32_MAX {
      KeysUpToAt(sha, request, |record.keys|, i);
      KeysUpToAt(sha, request, |record.keys|, 0);
      BlockShape(sha, request, i);
      if i > 0 {
        assert TileAt(record.keys, |record.tokens|, request.blockTokens, i - 1);
      }
    }
  }

  lemma FirstBlockAtOrAfter(sha: Digest, request: CaptureRequest, lo: nat, hi: nat) returns (i: nat)
    requires request.Accepted() && hi <= |request.tokens| && lo + 2 * request.blockTokens - 1 <= hi
    ensures i < BlockCount(|request.tokens|, request.blockTokens)
    ensures LiesIn(KeyAt(sha, request, i), lo, hi)
    ensures KeyAt(sha, request, i).tokenStart <= lo + request.blockTokens - 1
  {
    var b := request.blockTokens;
    var q := lo / b;
    assert lo == q * b + lo % b;
    i := if lo % b == 0 then q else q + 1;
    MulSucc(q, b);
    BlockCountBound(|request.tokens|, i, b);
    BlockShape(sha, request, i);
  }

  lemma LastBlockAtOrBefore(sha: Digest, request: CaptureRequest, lo: nat, hi: nat) returns (i: nat)
    requires request.Accepted() && hi <= |request.tokens| && lo + 2 * request.blockTokens - 1 <= hi
    ensures i < BlockCount(|request.tokens|, request.blockTokens)
    ensures LiesIn(KeyAt(sha, request, i), lo, hi)
    ensures hi <= KeyAt(sha, request, i).End() + request.blockTokens - 1
  {
    var n, b := |request.tokens|, request.blockTokens;
    if hi == n {
      BlockCountBound(n, 0, b);
      i := BlockCount(n, b) - 1;
      BlockShape(sha, request, i);
    } else {
      var c := hi / b;
      assert hi == c * b + hi % b;
      assert c >= 1;
      i := c - 1;
      MulSucc(i, b);
      BlockCountBound(n, i, b);
      BlockCountBound(n, i + 1, b);
      BlockShape(sha, request, i);
    }
  }

  lemma KeptEnds(keys: seq<BlockKey>, kept: seq<BlockKey>, lo: nat, hi: nat, first: BlockKey, last: BlockKey)
    requires Contiguous(keys) && kept == Inside(keys, lo, hi)
    requires first in keys && last in keys && LiesIn(first, lo, hi) && LiesIn(last, lo, hi)
    ensures kept != [] && Contiguous(kept)
    ensures kept[0].tokenStart <= first.tokenStart && last.End() <= kept[|kept| - 1].End()
  {
    InsideOfContiguous(keys, lo, hi);
    InsideMembers(keys, lo, hi, first);
    InsideMembers(keys, lo, hi, last);
    var x :| 0 <= x < |kept| && kept[x] == first;
    var y :| 0 <= y < |kept| && kept[y] == last;
    if x > 0 {
      ContiguousReach(kept, 0, x);
    }
    if y < |kept| - 1 {
      ContiguousReach(kept, y, |kept| - 1);
    }
  }

  lemma KeptBlocks(sha: Digest, request: CaptureRequest, keys: seq<BlockKey>, lo: nat, hi: nat)
    requires request.Accepted() && keys == KeysOf(sha, request)
    requires hi <= |request.tokens| && lo + 2 * request.blockTokens - 1 <= hi
    ensures var kept := Inside(keys, lo, hi);
            && kept != [] && Contiguous(kept)
            && kept[0].tokenStart <= lo + request.blockTokens - 1
            && hi <= kept[|kept| - 1].End() + request.blockTokens - 1
  {
    var a := FirstBlockAtOrAfter(sha, request, lo, hi);
    var c := LastBlockAtOrBefore(sha, request, lo, hi);
    BlocksTile(sha, request, keys);
    TilesAreContiguous(keys, |request.tokens|, request.blockTokens);
    KeysUpToAt(sha, request, |keys|, a);
    KeysUpToAt(sha, request, |keys|, c);
    KeptEnds(keys, Inside(keys, lo, hi), lo, hi, keys[a], keys[c]);
  }

  lemma WholeRunSpan(record: SegmentRecord, raw: RawMatch, r: Option<ReuseSpan>, kept: seq<BlockKey>, slack: int)
    requires AlignedTo(record, raw, r)
    requires kept == Inside(record.keys, raw.sourceStart, raw.sourceStart + raw.len)
    requires kept != [] && Contiguous(kept)
    requires kept[0].tokenStart <= raw.sourceStart + slack
    requires raw.sourceStart + raw.len <= kept[|kept| - 1].End() + slack
    ensures r.Some? && r.value.matchedTokens >= raw.len - 2 * slack
  {
    RunOfContiguous(kept, |r.value.sourceKeys|);
  }

  // Alignment to blocks of b tokens loses at most b - 1 tokens at either end of the raw match.
  lemma AlignmentLosesLittle(sha: Digest, record: SegmentRecord, request: CaptureRequest, raw: RawMatch,
                             r: Option<ReuseSpan>)
    requires OwnKeysOf(sha, record, request)
    requires raw.sourceStart + raw.len <= |record.tokens| && AlignedTo(record, raw, r)
    requires raw.len >= 2 * request.blockTokens - 1
    ensures r.Some? && r.value.matchedTokens >= raw.len - 2 * (request.blockTokens - 1)
  {
    KeptBlocks(sha, request, record.keys, raw.sourceStart, raw.sourceStart + raw.len);
    WholeRunSpan(record, raw, r, Inside(record.keys, raw.sourceStart, raw.sourceStart + raw.len),
      request.blockTokens - 1);
  }
}
