/** Halo ranges around restored spans and their merging (src/quality.rs). */
module Ranges {
  import opened Prelude
  import opened Segments
  import Sorting

  datatype TokenRange = TokenRange(start: usize, len: usize)
  {
    function End(): (e: usize)
      ensures e >= start
    {
      SatAdd(start, len)
    }

    predicate Covers(p: nat) { start <= p < End() }

    // The range does not run past usize::MAX.
    predicate Fits() { start + len <= U64_MAX }
  }

  ghost predicate CoveredBy(ranges: seq<TokenRange>, p: nat) {
    exists i :: 0 <= i < |ranges| && ranges[i].Covers(p)
  }

  // Non-empty, in order, and with a gap between any two neighbours.
  ghost predicate Separated(ranges: seq<TokenRange>) {
    && (forall i :: 0 <= i < |ranges| ==> ranges[i].Fits() && ranges[i].len > 0)
    && (forall i, j :: 0 <= i < j < |ranges| ==> ranges[i].End() < ranges[j].start)
  }

  function StartOfRange(r: TokenRange): int { r.start }

  function NonEmpty(ranges: seq<TokenRange>): (r: seq<TokenRange>)
    ensures forall x :: x in r <==> x in ranges && x.len > 0
  {
    if ranges == [] then
      []
    else
      var front, last := ranges[..|ranges| - 1], ranges[|ranges| - 1];
      assert ranges == front + [last];
      if last.len > 0 then NonEmpty(front) + [last] else NonEmpty(front)
  }

  lemma CoveredByMember(ranges: seq<TokenRange>, p: nat)
    ensures CoveredBy(ranges, p) <==> exists r :: r in ranges && r.Covers(p)
  {
    if CoveredBy(ranges, p) {
      var i :| 0 <= i < |ranges| && ranges[i].Covers(p);
      assert ranges[i] in ranges;
    }
  }

  lemma PreparedSame(ranges: seq<TokenRange>, sorted: seq<TokenRange>, p: nat)
    requires multiset(sorted) == multiset(NonEmpty(ranges))
    ensures CoveredBy(sorted, p) <==> CoveredBy(ranges, p)
  {
    CoveredByMember(sorted, p);
    CoveredByMember(ranges, p);
    forall x ensures x in sorted <==> x in ranges && x.len > 0 {
      Sorting.SameElements(sorted, NonEmpty(ranges), x);
    }
  }

  lemma CoveredByAppend(ranges: seq<TokenRange>, r: TokenRange, p: nat)
    ensures CoveredBy(ranges + [r], p) <==> CoveredBy(ranges, p) || r.Covers(p)
  {
    var all := ranges + [r];
    if CoveredBy(ranges, p) {
      var i :| 0 <= i < |ranges| && ranges[i].Covers(p);
      assert all[i].Covers(p);
    }
    if r.Covers(p) {
      assert all[|ranges|].Covers(p);
    }
  }

  // One step of the merge loop: the range joins the last merged one when they touch, else it is appended.
  function MergeStep(merged: seq<TokenRange>, r: TokenRange): seq<TokenRange> {
    if merged != [] && r.start <= merged[|merged| - 1].End() then
      var last := merged[|merged| - 1];
      merged[|merged| - 1 := TokenRange(last.start, SatSub(Max(last.End(), r.End()), last.start))]
    else
      merged + [r]
  }

  lemma MergeStepCovers(merged: seq<TokenRange>, r: TokenRange, p: nat)
    requires merged != [] ==> merged[|merged| - 1].start <= r.start
    ensures CoveredBy(MergeStep(merged, r), p) <==> CoveredBy(merged, p) || r.Covers(p)
  {
    if merged != [] && r.start <= merged[|merged| - 1].End() {
      var front, last := merged[..|merged| - 1], merged[|merged| - 1];
      var joined := TokenRange(last.start, SatSub(Max(last.End(), r.End()), last.start));
      assert merged == front + [last] && MergeStep(merged, r) == front + [joined];
      CoveredByAppend(front, last, p);
      CoveredByAppend(front, joined, p);
      assert joined.Covers(p) <==> last.Covers(p) || r.Covers(p);
    } else {
      CoveredByAppend(merged, r, p);
    }
  }

  lemma MergeStepSeparates(merged: seq<TokenRange>, r: TokenRange)
    requires Separated(merged) && r.Fits() && r.len > 0
    requires merged != [] ==> merged[|merged| - 1].start <= r.start
    ensures Separated(MergeStep(merged, r))
    ensures MergeStep(merged, r) != [] && MergeStep(merged, r)[|MergeStep(merged, r)| - 1].start <= r.start
  {
    if merged != [] && r.start > merged[|merged| - 1].End() {
      forall i | 0 <= i < |merged| ensures merged[i].End() < r.start {
        if i < |merged| - 1 {
          assert merged[i].End() < merged[|merged| - 1].start;
        }
      }
    }
  }

  lemma MergedSoFar(merged: seq<TokenRange>, sorted: seq<TokenRange>, i: nat)
    requires i < |sorted| && (merged != [] ==> merged[|merged| - 1].start <= sorted[i].start)
    requires forall p :: CoveredBy(merged, p) <==> CoveredBy(sorted[..i], p)
    ensures forall p :: CoveredBy(MergeStep(merged, sorted[i]), p) <==> CoveredBy(sorted[..i + 1], p)
  {
    assert sorted[..i + 1] == sorted[..i] + [sorted[i]];
    forall p ensures CoveredBy(MergeStep(merged, sorted[i]), p) <==> CoveredBy(sorted[..i + 1], p) {
      MergeStepCovers(merged, sorted[i], p);
      CoveredByAppend(sorted[..i], sorted[i], p);
    }
  }

  // The loop of merge_ranges, over ranges already sorted by start.
  method MergeSorted(sorted: seq<TokenRange>) returns (merged: seq<TokenRange>)
    requires Sorting.SortedBy(StartOfRange, sorted)
    requires forall i :: 0 <= i < |sorted| ==> sorted[i].Fits() && sorted[i].len > 0
    ensures Separated(merged)
    ensures forall p :: CoveredBy(merged, p) <==> CoveredBy(sorted, p)
  {
    merged := [];
    for i := 0 to |sorted|
      invariant Separated(merged)
      invariant merged != [] && i < |sorted| ==> merged[|merged| - 1].start <= sorted[i].start
      invariant forall p :: CoveredBy(merged, p) <==> CoveredBy(sorted[..i], p)
    {
      var r := sorted[i];
      MergeStepSeparates(merged, r);
      MergedSoFar(merged, sorted, i);
      assert i + 1 < |sorted| ==> StartOfRange(sorted[i]) <= StartOfRange(sorted[i + 1]);
      if merged != [] && r.start <= merged[|merged| - 1].End() {
        var last := merged[|merged| - 1];
        var end := Max(last.End(), r.End());
        merged := merged[|merged| - 1 := TokenRange(last.start, SatSub(end, last.start))];
      } else {
        merged := merged + [r];
      }
    }
    assert sorted[..|sorted|] == sorted;
  }

  method MergeRanges(ranges: seq<TokenRange>) returns (merged: seq<TokenRange>)
    requires forall r :: r in ranges ==> r.Fits()
    ensures Separated(merged)
    ensures forall p :: CoveredBy(merged, p) <==> CoveredBy(ranges, p)
  {
    var sorted := Sorting.SortBy(StartOfRange, NonEmpty(ranges));
    Sorting.SortBySorts(StartOfRange, NonEmpty(ranges));
    forall i | 0 <= i < |sorted| ensures sorted[i].Fits() && sorted[i].len > 0 {
      Sorting.SameElements(sorted, NonEmpty(ranges), sorted[i]);
    }
    merged := MergeSorted(sorted);
    forall p ensures CoveredBy(merged, p) <==> CoveredBy(ranges, p) {
      PreparedSame(ranges, sorted, p);
    }
  }

  // p lies in the span, fewer than halo positions from its first or its last position.
  predicate NearEdge(span: ReuseSpan, halo: nat, p: nat) {
    span.queryStart <= p < span.QueryEnd() && (p < span.queryStart + halo || span.QueryEnd() <= p + halo)
  }

  ghost predicate NearSomeEdge(spans: seq<ReuseSpan>, halo: nat, p: nat) {
    exists i :: 0 <= i < |spans| && NearEdge(spans[i], halo, p)
  }

  method BoundaryRanges(spans: seq<ReuseSpan>, queryLen: nat, halo: usize) returns (r: seq<TokenRange>)
    requires queryLen <= MAX_LEN
    requires forall i :: 0 <= i < |spans| ==> spans[i].QueryEnd() <= queryLen
    ensures Separated(r)
    ensures forall p :: CoveredBy(r, p) <==> NearSomeEdge(spans, halo, p)
    ensures forall i :: 0 <= i < |r| ==> r[i].End() <= queryLen
  {
    if halo == 0 {
      return [];
    }
    var ranges: seq<TokenRange> := [];
    for i := 0 to |spans|
      invariant forall r :: r in ranges ==> r.Fits()
      invariant forall p :: CoveredBy(ranges, p) <==> NearSomeEdge(spans[..i], halo, p)
    {
      var span := spans[i];
      ghost var before := ranges;
      var end := Min(SatAdd(span.queryStart, span.matchedTokens), queryLen);
      var leftLen := Min(Min(halo, span.matchedTokens), SatSub(queryLen, span.queryStart));
      var left := TokenRange(span.queryStart, leftLen);
      if leftLen > 0 {
        ranges := ranges + [left];
      }
      ghost var middle := ranges;
      var rightLen := Min(Min(halo, span.matchedTokens), end);
      var right := TokenRange(SatSub(end, rightLen), rightLen);
      if rightLen > 0 {
        ranges := ranges + [right];
      }
      forall p ensures CoveredBy(ranges, p) <==> NearSomeEdge(spans[..i + 1], halo, p) {
        CoveredByAppend(before, left, p);
        CoveredByAppend(middle, right, p);
        NearAppend(spans, i, halo, p);
        assert NearEdge(span, halo, p) <==> left.Covers(p) || right.Covers(p);
      }
    }
    assert spans[..|spans|] == spans;
    r := MergeRanges(ranges);
    EndsInside(r, spans, halo, queryLen);
  }

  lemma NearAppend(spans: seq<ReuseSpan>, i: nat, halo: nat, p: nat)
    requires i < |spans|
    ensures NearSomeEdge(spans[..i + 1], halo, p) <==> NearSomeEdge(spans[..i], halo, p) || NearEdge(spans[i], halo, p)
  {
    if NearSomeEdge(spans[..i], halo, p) {
      var j :| 0 <= j < i && NearEdge(spans[..i][j], halo, p);
      assert NearEdge(spans[..i + 1][j], halo, p);
    }
    if NearEdge(spans[i], halo, p) {
      assert NearEdge(spans[..i + 1][i], halo, p);
    }
  }

  lemma EndsInside(r: seq<TokenRange>, spans: seq<ReuseSpan>, halo: nat, queryLen: nat)
    requires queryLen <= MAX_LEN && Separated(r)
    requires forall p :: CoveredBy(r, p) <==> NearSomeEdge(spans, halo, p)
    requires forall i :: 0 <= i < |spans| ==> spans[i].QueryEnd() <= queryLen
    ensures forall i :: 0 <= i < |r| ==> r[i].End() <= queryLen
  {
    forall i | 0 <= i < |r| ensures r[i].End() <= queryLen {
      assert r[i].Covers(r[i].End() - 1);
      assert CoveredBy(r, r[i].End() - 1);
    }
  }
}
