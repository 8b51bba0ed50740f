/** The greedy multi-span planner (src/quality.rs). */
module Planner {
  import opened Prelude
  import opened BlockKeys
  import opened Segments
  import opened SegmentIndexes
  import opened Ranges
  import opened Sums
  import Sorting

  datatype Policy = Policy(minMatch: usize, halo: usize, maxSegments: usize, minCoverage: nat)
  {
    predicate Acceptable() {
      minMatch > 0 && 0 < maxSegments <= 1024 && minCoverage <= 1000
    }
  }

  datatype Plan = Plan(spans: seq<ReuseSpan>, recompute: seq<TokenRange>, queryTokens: nat, reusedTokens: nat,
    coverage: nat)

  datatype Interval = Interval(lo: nat, hi: nat)

  // ----- what "greedy" means, in terms of the query and the spans chosen so far -----

  predicate Holds(s: ReuseSpan, p: nat) { s.queryStart <= p < s.QueryEnd() }

  ghost predicate BeginsGap(spans: seq<ReuseSpan>, lo: nat) {
    lo == 0 || exists i :: 0 <= i < |spans| && spans[i].QueryEnd() == lo
  }

  ghost predicate EndsGap(spans: seq<ReuseSpan>, n: nat, hi: nat) {
    hi == n || exists i :: 0 <= i < |spans| && spans[i].queryStart == hi
  }

  // A maximal stretch of the query that no span holds.
  ghost predicate IsGap(spans: seq<ReuseSpan>, n: nat, gap: Interval) {
    && gap.lo < gap.hi <= n && BeginsGap(spans, gap.lo) && EndsGap(spans, n, gap.hi)
    && forall i, p: nat :: 0 <= i < |spans| && gap.lo <= p < gap.hi ==> !Holds(spans[i], p)
  }

  // The index's best segment of one stretch of the query, placed in the query.
  ghost predicate BestIn(records: seq<SegmentRecord>, model: Bytes, q: seq<Token>, min: nat, gap: Interval,
                         best: Option<ReuseSpan>)
  {
    && gap.lo <= gap.hi <= |q|
    && match best
       case None => BestOf(records, model, q[gap.lo..gap.hi], min, None)
       case Some(s) => gap.lo <= s.queryStart &&
                       BestOf(records, model, q[gap.lo..gap.hi], min, Some(s.(queryStart := s.queryStart - gap.lo)))
  }

  // s is the best that any remaining gap offers.
  ghost predicate GreedyPick(records: seq<SegmentRecord>, model: Bytes, q: seq<Token>, min: nat,
                             spans: seq<ReuseSpan>, s: ReuseSpan)
  {
    && (exists gap :: IsGap(spans, |q|, gap) && BestIn(records, model, q, min, gap, Some(s)))
    && forall gap, c :: IsGap(spans, |q|, gap) && BestIn(records, model, q, min, gap, Some(c)) ==> NoWorse(s, c)
  }

  // The k-th span of an order is the best left by those before it.
  ghost predicate PickedAt(records: seq<SegmentRecord>, model: Bytes, q: seq<Token>, min: nat, order: seq<ReuseSpan>,
                           k: nat)
  {
    k < |order| && GreedyPick(records, model, q, min, order[..k], order[k])
  }

  ghost predicate Exhausted(records: seq<SegmentRecord>, model: Bytes, q: seq<Token>, min: nat, spans: seq<ReuseSpan>) {
    forall gap :: IsGap(spans, |q|, gap) ==> BestIn(records, model, q, min, gap, None)
  }

  // The order in which the planner takes its spans: each the best left, until the limit or until nothing is left.
  ghost predicate GreedyOrder(records: seq<SegmentRecord>, model: Bytes, q: seq<Token>, policy: Policy,
                              order: seq<ReuseSpan>)
  {
    && |order| <= policy.maxSegments
    && (forall k: nat :: k < |order| ==> PickedAt(records, model, q, policy.minMatch, order, k))
    && (|order| == policy.maxSegments || Exhausted(records, model, q, policy.minMatch, order))
  }

  // ----- tiling -----

  function IntervalOf(s: ReuseSpan): Interval { Interval(s.queryStart, s.QueryEnd()) }

  function Intervals(spans: seq<ReuseSpan>): (r: seq<Interval>)
    ensures |r| == |spans| && forall i :: 0 <= i < |r| ==> r[i] == IntervalOf(spans[i])
  {
    seq(|spans|, i requires 0 <= i < |spans| => IntervalOf(spans[i]))
  }

  ghost function At(p: nat): Interval -> nat {
    (x: Interval) => if x.lo <= p < x.hi then 1 else 0
  }

  ghost function Length(): Interval -> nat {
    (x: Interval) => if x.lo <= x.hi then x.hi - x.lo else 0
  }

  // How many of the intervals contain p.
  ghost function Hits(s: seq<Interval>, p: nat): nat { SumOf(At(p), s) }

  // Ranges and spans together cover every query position exactly once and nothing else.
  ghost predicate Tiles(ranges: seq<Interval>, spans: seq<ReuseSpan>, n: nat) {
    && (forall i :: 0 <= i < |ranges| ==> ranges[i].lo < ranges[i].hi <= n)
    && (forall i :: 0 <= i < |spans| ==> spans[i].matchedTokens > 0 && spans[i].QueryEnd() <= n)
    && (forall p: nat :: Hits(ranges, p) + Hits(Intervals(spans), p) == if p < n then 1 else 0)
    && SumOf(Length(), ranges) + SumOf(Length(), Intervals(spans)) == n
  }

  // Every range is bounded by spans or by the ends of the query.
  ghost predicate Bounded(ranges: seq<Interval>, spans: seq<ReuseSpan>, n: nat) {
    forall i :: 0 <= i < |ranges| ==> BeginsGap(spans, ranges[i].lo) && EndsGap(spans, n, ranges[i].hi)
  }

  lemma HitAt(s: seq<Interval>, i: nat, p: nat)
    requires i < |s| && s[i].lo <= p < s[i].hi
    ensures Hits(s, p) >= 1
  {
    SumSplit(At(p), s, i);
  }

  lemma TwoHits(s: seq<Interval>, i: nat, j: nat, p: nat)
    requires i < j < |s| && s[i].lo <= p < s[i].hi && s[j].lo <= p < s[j].hi
    ensures Hits(s, p) >= 2
  {
    SumSplit(At(p), s, j);
    var rest := s[..j] + s[j + 1..];
    assert rest[i] == s[i];
    SumSplit(At(p), rest, i);
  }

  lemma {:induction false} SomeHit(s: seq<Interval>, p: nat) returns (i: nat)
    requires Hits(s, p) >= 1
    ensures i < |s| && s[i].lo <= p < s[i].hi
  {
    SumUnfolds(At(p), s);
    var m := |s| - 1;
    if s[m].lo <= p < s[m].hi {
      i := m;
    } else {
      i := SomeHit(s[..m], p);
    }
  }

  // Under the invariants the ranges are exactly the gaps.
  lemma GapIsRange(ranges: seq<Interval>, spans: seq<ReuseSpan>, n: nat, gap: Interval) returns (i: nat)
    requires Tiles(ranges, spans, n) && Bounded(ranges, spans, n) && IsGap(spans, n, gap)
    ensures i < |ranges| && ranges[i] == gap
  {
    i := Uncovered(ranges, spans, n, gap, gap.lo);
    RangeStart(ranges, spans, n, gap, i);
    RangeEnd(ranges, spans, n, gap, i);
  }

  lemma RangeIsGap(ranges: seq<Interval>, spans: seq<ReuseSpan>, n: nat, i: nat)
    requires Tiles(ranges, spans, n) && Bounded(ranges, spans, n) && i < |ranges|
    ensures IsGap(spans, n, ranges[i])
  {
    forall j, p: nat | 0 <= j < |spans| && ranges[i].lo <= p < ranges[i].hi ensures !Holds(spans[j], p) {
      NoDouble(ranges, spans, n, i, j, p);
    }
  }

  lemma Uncovered(ranges: seq<Interval>, spans: seq<ReuseSpan>, n: nat, gap: Interval, p: nat) returns (i: nat)
    requires Tiles(ranges, spans, n) && IsGap(spans, n, gap) && gap.lo <= p < gap.hi
    ensures i < |ranges| && ranges[i].lo <= p < ranges[i].hi
  {
    if Hits(Intervals(spans), p) >= 1 {
      var j := SomeHit(Intervals(spans), p);
      assert Holds(spans[j], p);
      assert false;
    }
    i := SomeHit(ranges, p);
  }

  lemma NoDouble(ranges: seq<Interval>, spans: seq<ReuseSpan>, n: nat, i: nat, j: nat, p: nat)
    requires Tiles(ranges, spans, n) && i < |ranges| && j < |spans|
    ensures !(ranges[i].lo <= p < ranges[i].hi && Holds(spans[j], p))
  {
    if ranges[i].lo <= p < ranges[i].hi && Holds(spans[j], p) {
      HitAt(ranges, i, p);
      HitAt(Intervals(spans), j, p);
    }
  }

  lemma RangeStart(ranges: seq<Interval>, spans: seq<ReuseSpan>, n: nat, gap: Interval, i: nat)
    requires Tiles(ranges, spans, n) && IsGap(spans, n, gap)
    requires i < |ranges| && ranges[i].lo <= gap.lo < ranges[i].hi
    ensures ranges[i].lo == gap.lo
  {
    if ranges[i].lo < gap.lo {
      var j :| 0 <= j < |spans| && spans[j].QueryEnd() == gap.lo;
      NoDouble(ranges, spans, n, i, j, gap.lo - 1);
    }
  }

  lemma RangeEnd(ranges: seq<Interval>, spans: seq<ReuseSpan>, n: nat, gap: Interval, i: nat)
    requires Tiles(ranges, spans, n) && Bounded(ranges, spans, n) && IsGap(spans, n, gap)
    requires i < |ranges| && ranges[i].lo <= gap.lo < ranges[i].hi
    ensures ranges[i].hi == gap.hi
  {
    if ranges[i].hi > gap.hi {
      var j :| 0 <= j < |spans| && spans[j].queryStart == gap.hi;
      NoDouble(ranges, spans, n, i, j, gap.hi);
    } else if ranges[i].hi < gap.hi {
      var j :| 0 <= j < |spans| && spans[j].queryStart == ranges[i].hi;
      assert Holds(spans[j], ranges[i].hi);
    }
  }

  // ----- one round of the planner -----

  function SwapRemove<T>(s: seq<T>, i: nat): (r: seq<T>)
    requires i < |s|
    ensures multiset(s) == multiset(r) + multiset{s[i]}
    ensures |r| == |s| - 1
  {
    var last := |s| - 1;
    var t := s[i := s[last]];
    assert t == t[..last] + [s[last]];
    assert multiset(t) == multiset(s) - multiset{s[i]} + multiset{s[last]};
    t[..last]
  }

  function Split(ranges: seq<Interval>, i: nat, s: ReuseSpan): seq<Interval>
    requires i < |ranges|
  {
    SwapRemove(ranges, i) + LeftPart(ranges[i], s) + RightPart(ranges[i], s)
  }

  function LeftPart(r: Interval, s: ReuseSpan): seq<Interval> {
    if s.queryStart > r.lo then [Interval(r.lo, s.queryStart)] else []
  }

  function RightPart(r: Interval, s: ReuseSpan): seq<Interval> {
    if s.QueryEnd() < r.hi then [Interval(s.QueryEnd(), r.hi)] else []
  }

  // A weight that adds up over the parts of an interval adds up over a round.
  lemma SplitSum(f: Interval -> nat, ranges: seq<Interval>, i: nat, s: ReuseSpan)
    requires i < |ranges| && ranges[i].lo <= s.queryStart < s.QueryEnd() <= ranges[i].hi
    requires f(ranges[i]) == SumOf(f, LeftPart(ranges[i], s)) + f(IntervalOf(s)) + SumOf(f, RightPart(ranges[i], s))
    ensures SumOf(f, ranges) == SumOf(f, Split(ranges, i, s)) + f(IntervalOf(s))
  {
    var rest := SwapRemove(ranges, i);
    SumPermutes(f, ranges, rest + [ranges[i]]);
    SumAppend(f, rest, [ranges[i]]);
    SumOne(f, ranges[i]);
    SumAppend(f, rest + LeftPart(ranges[i], s), RightPart(ranges[i], s));
    SumAppend(f, rest, LeftPart(ranges[i], s));
  }

  lemma PartsHit(r: Interval, s: ReuseSpan, p: nat)
    requires r.lo <= s.queryStart < s.QueryEnd() <= r.hi
    ensures At(p)(r) == SumOf(At(p), LeftPart(r, s)) + At(p)(IntervalOf(s)) + SumOf(At(p), RightPart(r, s))
  {
    SumOne(At(p), Interval(r.lo, s.queryStart));
    SumOne(At(p), Interval(s.QueryEnd(), r.hi));
    SumUnfolds(At(p), []);
  }

  lemma PartsLength(r: Interval, s: ReuseSpan)
    requires r.lo <= s.queryStart < s.QueryEnd() <= r.hi
    ensures Length()(r) == SumOf(Length(), LeftPart(r, s)) + Length()(IntervalOf(s)) + SumOf(Length(), RightPart(r, s))
  {
    SumOne(Length(), Interval(r.lo, s.queryStart));
    SumOne(Length(), Interval(s.QueryEnd(), r.hi));
    SumUnfolds(Length(), []);
  }

  lemma CutOut(ranges: seq<Interval>, i: nat, s: ReuseSpan)
    requires i < |ranges| && ranges[i].lo <= s.queryStart < s.QueryEnd() <= ranges[i].hi
    ensures forall p: nat :: Hits(Split(ranges, i, s), p) == Hits(ranges, p) - if Holds(s, p) then 1 else 0
    ensures SumOf(Length(), Split(ranges, i, s)) == SumOf(Length(), ranges) - s.matchedTokens
  {
    forall p: nat ensures Hits(Split(ranges, i, s), p) == Hits(ranges, p) - if Holds(s, p) then 1 else 0 {
      PartsHit(ranges[i], s, p);
      SplitSum(At(p), ranges, i, s);
    }
    PartsLength(ranges[i], s);
    SplitSum(Length(), ranges, i, s);
  }

  lemma MoreSpans(f: Interval -> nat, spans: seq<ReuseSpan>, s: ReuseSpan)
    ensures SumOf(f, Intervals(spans + [s])) == SumOf(f, Intervals(spans)) + f(IntervalOf(s))
  {
    assert Intervals(spans + [s]) == Intervals(spans) + [IntervalOf(s)];
    SumAppend(f, Intervals(spans), [IntervalOf(s)]);
    SumOne(f, IntervalOf(s));
  }

  lemma SplitMember(ranges: seq<Interval>, i: nat, s: ReuseSpan, x: Interval)
    requires i < |ranges| && x in Split(ranges, i, s)
    ensures x in ranges || x in LeftPart(ranges[i], s) || x in RightPart(ranges[i], s)
  {
    if x in SwapRemove(ranges, i) {
      assert x in multiset(ranges);
    }
  }

  lemma {:induction false} RoundTiles(ranges: seq<Interval>, spans: seq<ReuseSpan>, n: nat, i: nat, s: ReuseSpan)
    requires Tiles(ranges, spans, n) && i < |ranges|
    requires ranges[i].lo <= s.queryStart < s.QueryEnd() <= ranges[i].hi
    ensures Tiles(Split(ranges, i, s), spans + [s], n)
    ensures SumOf(Length(), Split(ranges, i, s)) < SumOf(Length(), ranges)
  {
    var after := Split(ranges, i, s);
    CutOut(ranges, i, s);
    forall p: nat ensures Hits(after, p) + Hits(Intervals(spans + [s]), p) == if p < n then 1 else 0 {
      assert Hits(ranges, p) + Hits(Intervals(spans), p) == if p < n then 1 else 0;
      SpanHits(spans, s, p);
    }
    MoreSpans(Length(), spans, s);
    forall j | 0 <= j < |after| ensures after[j].lo < after[j].hi <= n {
      SplitMember(ranges, i, s, after[j]);
    }
  }

  lemma SpanHits(spans: seq<ReuseSpan>, s: ReuseSpan, p: nat)
    ensures Hits(Intervals(spans + [s]), p) == Hits(Intervals(spans), p) + if Holds(s, p) then 1 else 0
  {
    MoreSpans(At(p), spans, s);
  }

  lemma RoundBounded(ranges: seq<Interval>, spans: seq<ReuseSpan>, n: nat, i: nat, s: ReuseSpan)
    requires Bounded(ranges, spans, n) && i < |ranges|
    ensures Bounded(Split(ranges, i, s), spans + [s], n)
  {
    var after, more := Split(ranges, i, s), spans + [s];
    assert more[|spans|] == s;
    forall lo | BeginsGap(spans, lo) ensures BeginsGap(more, lo) {
      if lo != 0 {
        var j :| 0 <= j < |spans| && spans[j].QueryEnd() == lo;
        assert more[j].QueryEnd() == lo;
      }
    }
    forall hi | EndsGap(spans, n, hi) ensures EndsGap(more, n, hi) {
      if hi != n {
        var j :| 0 <= j < |spans| && spans[j].queryStart == hi;
        assert more[j].queryStart == hi;
      }
    }
    forall j | 0 <= j < |after| ensures BeginsGap(more, after[j].lo) && EndsGap(more, n, after[j].hi) {
      SplitMember(ranges, i, s, after[j]);
    }
  }

  // ----- the inner loop: the best choice over all ranges -----

  ghost predicate Shaped(ranges: seq<Interval>, n: nat) {
    forall i :: 0 <= i < |ranges| ==> ranges[i].lo < ranges[i].hi <= n
  }

  lemma BestInUnique(records: seq<SegmentRecord>, model: Bytes, q: seq<Token>, min: nat, gap: Interval,
                     a: Option<ReuseSpan>, b: Option<ReuseSpan>)
    requires BestIn(records, model, q, min, gap, a) && BestIn(records, model, q, min, gap, b)
    ensures a == b
  {
    var part := q[gap.lo..gap.hi];
    var x := if a.Some? then Some(a.value.(queryStart := a.value.queryStart - gap.lo)) else None;
    var y := if b.Some? then Some(b.value.(queryStart := b.value.queryStart - gap.lo)) else None;
    BestOfUnique(records, model, part, min, x, y);
  }

  method BestInRange(index: SegmentIndex, model: Bytes, q: seq<Token>, min: nat, range: Interval)
    returns (best: Option<ReuseSpan>)
    requires index.Valid() && min > 0 && |q| <= MAX_LEN && range.lo < range.hi <= |q|
    ensures BestIn(index.records, model, q, min, range, best)
  {
    if range.hi - range.lo < min {
      TooShort(index.records, model, q[range.lo..range.hi], min);
      return None;
    }
    var r := index.BestSegment(model, q[range.lo..range.hi], min);
    if r.value.None? {
      return None;
    }
    var span := r.value.value;
    ghost var i := BestIsBacked(index.records, model, q[range.lo..range.hi], min, span);
    best := Some(span.(queryStart := SatAdd(span.queryStart, range.lo)));
    assert best.value.(queryStart := best.value.queryStart - range.lo) == span;
  }

  datatype Choice = Choice(rangeIndex: nat, span: ReuseSpan)

  // choice is the best that the first n ranges offer.
  ghost predicate Chosen(records: seq<SegmentRecord>, model: Bytes, q: seq<Token>, min: nat, ranges: seq<Interval>,
                         n: nat, choice: Option<Choice>)
    requires n <= |ranges|
  {
    match choice
    case None => forall j :: 0 <= j < n ==> BestIn(records, model, q, min, ranges[j], None)
    case Some(ch) =>
      && ch.rangeIndex < n && BestIn(records, model, q, min, ranges[ch.rangeIndex], Some(ch.span))
      && forall j, c :: 0 <= j < n && BestIn(records, model, q, min, ranges[j], Some(c)) ==> NoWorse(ch.span, c)
  }

  lemma ChosenStep(records: seq<SegmentRecord>, model: Bytes, q: seq<Token>, min: nat, ranges: seq<Interval>, n: nat,
                   choice: Option<Choice>, best: Option<ReuseSpan>, choice': Option<Choice>)
    requires n < |ranges| && Chosen(records, model, q, min, ranges, n, choice)
    requires BestIn(records, model, q, min, ranges[n], best)
    requires choice' == if best.Some? && (choice.None? || Better(best.value, choice.value.span))
                        then Some(Choice(n, best.value)) else choice
    ensures Chosen(records, model, q, min, ranges, n + 1, choice')
  {
    if choice'.Some? {
      forall j, c | 0 <= j < n + 1 && BestIn(records, model, q, min, ranges[j], Some(c))
        ensures NoWorse(choice'.value.span, c)
      {
        if j == n {
          BestInUnique(records, model, q, min, ranges[n], best, Some(c));
        } else if choice.None? {
          BestInUnique(records, model, q, min, ranges[j], None, Some(c));
        }
      }
    }
  }

  method ChooseSpan(index: SegmentIndex, model: Bytes, q: seq<Token>, min: nat, ranges: seq<Interval>)
    returns (choice: Option<Choice>)
    requires index.Valid() && min > 0 && |q| <= MAX_LEN && Shaped(ranges, |q|)
    ensures Chosen(index.records, model, q, min, ranges, |ranges|, choice)
  {
    choice := None;
    for n := 0 to |ranges|
      invariant Chosen(index.records, model, q, min, ranges, n, choice)
    {
      ghost var before := choice;
      var best := BestInRange(index, model, q, min, ranges[n]);
      if best.Some? && (choice.None? || Better(best.value, choice.value.span)) {
        choice := Some(Choice(n, best.value));
      }
      ChosenStep(index.records, model, q, min, ranges, n, before, best, choice);
    }
  }

  lemma ChoiceIsGreedy(records: seq<SegmentRecord>, model: Bytes, q: seq<Token>, min: nat,
                       ranges: seq<Interval>, spans: seq<ReuseSpan>, choice: Option<Choice>)
    requires Tiles(ranges, spans, |q|) && Bounded(ranges, spans, |q|)
    requires Chosen(records, model, q, min, ranges, |ranges|, choice)
    ensures choice.None? ==> Exhausted(records, model, q, min, spans)
    ensures choice.Some? ==> GreedyPick(records, model, q, min, spans, choice.value.span)
  {
    if choice.None? {
      forall gap | IsGap(spans, |q|, gap) ensures BestIn(records, model, q, min, gap, None) {
        var i := GapIsRange(ranges, spans, |q|, gap);
      }
    } else {
      RangeIsGap(ranges, spans, |q|, choice.value.rangeIndex);
      forall gap, c | IsGap(spans, |q|, gap) && BestIn(records, model, q, min, gap, Some(c))
        ensures NoWorse(choice.value.span, c)
      {
        var i := GapIsRange(ranges, spans, |q|, gap);
      }
    }
  }

  lemma BestInsideRange(records: seq<SegmentRecord>, model: Bytes, q: seq<Token>, min: nat, range: Interval,
                        s: ReuseSpan) returns (i: nat)
    requires forall i :: 0 <= i < |records| ==> ValidRecord(records[i])
    requires BestIn(records, model, q, min, range, Some(s))
    ensures BackedBy(records, model, q, s, i) && s.matchedTokens >= min
    ensures range.lo <= s.queryStart < s.QueryEnd() <= range.hi
  {
    var part, local := q[range.lo..range.hi], s.(queryStart := s.queryStart - range.lo);
    i := BestIsBacked(records, model, part, min, local);
    SliceOfPart(q, range.lo, range.hi, local.queryStart, local.QueryEnd());
  }

  lemma SliceOfPart(q: seq<Token>, lo: nat, hi: nat, a: nat, b: nat)
    requires lo <= hi <= |q| && a <= b <= hi - lo
    ensures q[lo..hi][a..b] == q[lo + a..lo + b]
  {
    var x, y := q[lo..hi][a..b], q[lo + a..lo + b];
    forall i | 0 <= i < b - a ensures x[i] == y[i] {
    }
  }

  // ----- the greedy order is determined -----

  predicate NonEmptySpans(spans: seq<ReuseSpan>) { forall i :: 0 <= i < |spans| ==> spans[i].matchedTokens > 0 }

  // Two gaps that share a position are the same gap.
  lemma GapsMeet(spans: seq<ReuseSpan>, n: nat, g: Interval, h: Interval, p: nat)
    requires IsGap(spans, n, g) && IsGap(spans, n, h) && NonEmptySpans(spans)
    requires g.lo <= p < g.hi && h.lo <= p < h.hi
    ensures g == h
  {
    GapBegins(spans, n, g, h, p);
    GapBegins(spans, n, h, g, p);
    GapEnds(spans, n, g, h, p);
    GapEnds(spans, n, h, g, p);
  }

  lemma GapBegins(spans: seq<ReuseSpan>, n: nat, g: Interval, h: Interval, p: nat)
    requires IsGap(spans, n, g) && IsGap(spans, n, h) && NonEmptySpans(spans)
    requires g.lo <= p < g.hi && h.lo <= p < h.hi
    ensures h.lo <= g.lo
  {
    if h.lo != 0 {
      var i :| 0 <= i < |spans| && spans[i].QueryEnd() == h.lo;
      assert Holds(spans[i], h.lo - 1);
    }
  }

  lemma GapEnds(spans: seq<ReuseSpan>, n: nat, g: Interval, h: Interval, p: nat)
    requires IsGap(spans, n, g) && IsGap(spans, n, h) && NonEmptySpans(spans)
    requires g.lo <= p < g.hi && h.lo <= p < h.hi
    ensures g.hi <= h.hi
  {
    if h.hi != n {
      var i :| 0 <= i < |spans| && spans[i].queryStart == h.hi;
      assert Holds(spans[i], h.hi);
    }
  }

  // Two best picks have the same length and start, so they lie in the same gap, which has one best span.
  lemma PickUnique(records: seq<SegmentRecord>, model: Bytes, q: seq<Token>, min: nat, spans: seq<ReuseSpan>,
                   s: ReuseSpan, t: ReuseSpan)
    requires forall i :: 0 <= i < |records| ==> ValidRecord(records[i])
    requires NonEmptySpans(spans)
    requires GreedyPick(records, model, q, min, spans, s) && GreedyPick(records, model, q, min, spans, t)
    ensures s == t
  {
    var g :| IsGap(spans, |q|, g) && BestIn(records, model, q, min, g, Some(s));
    var h :| IsGap(spans, |q|, h) && BestIn(records, model, q, min, h, Some(t));
    assert NoWorse(s, t) && NoWorse(t, s);
    var _ := BestInsideRange(records, model, q, min, g, s);
    var _ := BestInsideRange(records, model, q, min, h, t);
    GapsMeet(spans, |q|, g, h, s.queryStart);
    BestInUnique(records, model, q, min, g, Some(s), Some(t));
  }

  // What greedy means for every record and every gap: nothing that a record of the model offers anywhere outside the
  // spans is longer than the pick, and nothing of its length begins earlier in the query.
  lemma PickIsLongest(records: seq<SegmentRecord>, model: Bytes, q: seq<Token>, min: nat, spans: seq<ReuseSpan>,
                      s: ReuseSpan, gap: Interval, j: nat, c: ReuseSpan)
    requires GreedyPick(records, model, q, min, spans, s) && IsGap(spans, |q|, gap)
    requires j < |records| && records[j].model == model && Candidate(records[j], q[gap.lo..gap.hi], min, c)
    ensures c.matchedTokens <= s.matchedTokens
    ensures c.matchedTokens == s.matchedTokens ==> s.queryStart <= gap.lo + c.queryStart
  {
    var best := BestExists(records, model, q[gap.lo..gap.hi], min);
    var b := best.value.(queryStart := gap.lo + best.value.queryStart);
    assert b.(queryStart := b.queryStart - gap.lo) == best.value;
    var i := BestIsLongest(records, model, q[gap.lo..gap.hi], min, best.value);
    PickBeats(records, model, q, min, spans, s, gap, b);
  }

  lemma PickBeats(records: seq<SegmentRecord>, model: Bytes, q: seq<Token>, min: nat, spans: seq<ReuseSpan>,
                  s: ReuseSpan, gap: Interval, b: ReuseSpan)
    requires GreedyPick(records, model, q, min, spans, s) && IsGap(spans, |q|, gap)
    requires BestIn(records, model, q, min, gap, Some(b))
    ensures NoWorse(s, b)
  {
  }

  lemma PickNonEmpty(records: seq<SegmentRecord>, model: Bytes, q: seq<Token>, min: nat, spans: seq<ReuseSpan>,
                     s: ReuseSpan)
    requires forall i :: 0 <= i < |records| ==> ValidRecord(records[i])
    requires GreedyPick(records, model, q, min, spans, s)
    ensures s.matchedTokens > 0
  {
    var g :| IsGap(spans, |q|, g) && BestIn(records, model, q, min, g, Some(s));
    var _ := BestInsideRange(records, model, q, min, g, s);
  }

  // Two greedy orders begin alike.
  lemma {:induction false} OrdersAgree(records: seq<SegmentRecord>, model: Bytes, q: seq<Token>, policy: Policy,
                                       a: seq<ReuseSpan>, b: seq<ReuseSpan>, k: nat)
    requires forall i :: 0 <= i < |records| ==> ValidRecord(records[i])
    requires GreedyOrder(records, model, q, policy, a) && GreedyOrder(records, model, q, policy, b)
    requires k <= |a| && k <= |b|
    ensures a[..k] == b[..k] && NonEmptySpans(a[..k])
  {
    if k > 0 {
      OrdersAgree(records, model, q, policy, a, b, k - 1);
      assert PickedAt(records, model, q, policy.minMatch, a, k - 1);
      assert PickedAt(records, model, q, policy.minMatch, b, k - 1);
      PickUnique(records, model, q, policy.minMatch, a[..k - 1], a[k - 1], b[k - 1]);
      PickNonEmpty(records, model, q, policy.minMatch, a[..k - 1], a[k - 1]);
      OneMoreAgrees(a, b, k - 1);
    }
  }

  lemma OneMoreAgrees(a: seq<ReuseSpan>, b: seq<ReuseSpan>, k: nat)
    requires k < |a| && k < |b| && a[..k] == b[..k] && a[k] == b[k]
    requires NonEmptySpans(a[..k]) && a[k].matchedTokens > 0
    ensures a[..k + 1] == b[..k + 1] && NonEmptySpans(a[..k + 1])
  {
    assert a[..k + 1] == a[..k] + [a[k]] && b[..k + 1] == b[..k] + [b[k]];
  }

  // An order that stops early leaves nothing for another to take.
  lemma NotLonger(records: seq<SegmentRecord>, model: Bytes, q: seq<Token>, policy: Policy,
                  a: seq<ReuseSpan>, b: seq<ReuseSpan>)
    requires forall i :: 0 <= i < |records| ==> ValidRecord(records[i])
    requires GreedyOrder(records, model, q, policy, a) && GreedyOrder(records, model, q, policy, b)
    ensures |b| <= |a|
  {
    if |a| < |b| {
      OrdersAgree(records, model, q, policy, a, b, |a|);
      assert a[..|a|] == a;
      assert PickedAt(records, model, q, policy.minMatch, b, |a|);
      var g :| IsGap(a, |q|, g) && BestIn(records, model, q, policy.minMatch, g, Some(b[|a|]));
      BestInUnique(records, model, q, policy.minMatch, g, Some(b[|a|]), None);
    }
  }

  // The records, the query and the policy determine the order, and with it the spans of the plan.
  lemma GreedyOrderUnique(records: seq<SegmentRecord>, model: Bytes, q: seq<Token>, policy: Policy,
                          a: seq<ReuseSpan>, b: seq<ReuseSpan>)
    requires forall i :: 0 <= i < |records| ==> ValidRecord(records[i])
    requires GreedyOrder(records, model, q, policy, a) && GreedyOrder(records, model, q, policy, b)
    ensures a == b
  {
    NotLonger(records, model, q, policy, a, b);
    NotLonger(records, model, q, policy, b, a);
    OrdersAgree(records, model, q, policy, a, b, |a|);
    assert a[..|a|] == a && b[..|b|] == b;
  }

  // ----- the planner -----

  ghost predicate Usable(records: seq<SegmentRecord>, model: Bytes, q: seq<Token>, min: nat, s: ReuseSpan) {
    s.matchedTokens >= min && Backed(records, model, q, s)
  }

  function QueryStartOf(s: ReuseSpan): int { s.queryStart }

  ghost function Reused(spans: seq<ReuseSpan>): nat { SumOf(Length(), Intervals(spans)) }

  function Coverage(reused: nat, n: nat): nat
    requires n > 0
  {
    var scaled := if reused * 1000 > U64_MAX then U64_MAX else reused * 1000;
    Min(scaled / n, 1000)
  }

  // The invariant of the outer loop.
  ghost predicate Progress(records: seq<SegmentRecord>, model: Bytes, q: seq<Token>, min: nat, ranges: seq<Interval>,
                           spans: seq<ReuseSpan>)
  {
    && Tiles(ranges, spans, |q|) && Bounded(ranges, spans, |q|)
    && (forall k: nat :: k < |spans| ==> PickedAt(records, model, q, min, spans, k))
    && (forall i :: 0 <= i < |spans| ==> Usable(records, model, q, min, spans[i]))
  }

  lemma Round(records: seq<SegmentRecord>, model: Bytes, q: seq<Token>, min: nat,
              ranges: seq<Interval>, spans: seq<ReuseSpan>, choice: Choice)
    requires forall i :: 0 <= i < |records| ==> ValidRecord(records[i])
    requires Progress(records, model, q, min, ranges, spans)
    requires Chosen(records, model, q, min, ranges, |ranges|, Some(choice))
    ensures Progress(records, model, q, min, Split(ranges, choice.rangeIndex, choice.span), spans + [choice.span])
    ensures SumOf(Length(), Split(ranges, choice.rangeIndex, choice.span)) < SumOf(Length(), ranges)
    ensures choice.span.QueryEnd() <= |q|
  {
    var i, s := choice.rangeIndex, choice.span;
    var r := BestInsideRange(records, model, q, min, ranges[i], s);
    RoundTiles(ranges, spans, |q|, i, s);
    RoundBounded(ranges, spans, |q|, i, s);
    PickGrows(records, model, q, min, ranges, spans, choice);
    MoreUsable(records, model, q, min, spans, s, r);
  }

  lemma MoreUsable(records: seq<SegmentRecord>, model: Bytes, q: seq<Token>, min: nat, spans: seq<ReuseSpan>,
                   s: ReuseSpan, r: nat)
    requires forall i :: 0 <= i < |spans| ==> Usable(records, model, q, min, spans[i])
    requires BackedBy(records, model, q, s, r) && s.matchedTokens >= min
    ensures forall i :: 0 <= i < |spans + [s]| ==> Usable(records, model, q, min, (spans + [s])[i])
  {
    assert Usable(records, model, q, min, s);
  }

  lemma PickGrows(records: seq<SegmentRecord>, model: Bytes, q: seq<Token>, min: nat,
                  ranges: seq<Interval>, spans: seq<ReuseSpan>, choice: Choice)
    requires Progress(records, model, q, min, ranges, spans)
    requires Chosen(records, model, q, min, ranges, |ranges|, Some(choice))
    ensures var more := spans + [choice.span];
            forall k: nat :: k < |more| ==> PickedAt(records, model, q, min, more, k)
  {
    ChoiceIsGreedy(records, model, q, min, ranges, spans, Some(choice));
    OrderGrows(records, model, q, min, spans, choice.span);
  }

  // The range that held the span gives way to what is left of it on either side: every position is in as many
  // ranges as before, save those of the span, which are in one less; and the ranges shrink by the span's length.
  method Cut(ranges: seq<Interval>, i: nat, span: ReuseSpan) returns (r: seq<Interval>)
    requires i < |ranges| && span.QueryEnd() <= MAX_LEN
    ensures r == Split(ranges, i, span)
    ensures ranges[i].lo <= span.queryStart < span.QueryEnd() <= ranges[i].hi ==>
              && (forall p: nat :: Hits(r, p) == Hits(ranges, p) - if Holds(span, p) then 1 else 0)
              && SumOf(Length(), r) == SumOf(Length(), ranges) - span.matchedTokens
  {
    if ranges[i].lo <= span.queryStart < span.QueryEnd() <= ranges[i].hi {
      CutOut(ranges, i, span);
    }
    var range := ranges[i];
    r := SwapRemove(ranges, i);
    var spanEnd := SatAdd(span.queryStart, span.matchedTokens);
    if span.queryStart > range.lo {
      r := r + [Interval(range.lo, span.queryStart)];
    }
    if spanEnd < range.hi {
      r := r + [Interval(spanEnd, range.hi)];
    }
  }

  // The outer loop; the spans come in the order in which it takes them.
  method TakeSpans(index: SegmentIndex, model: Bytes, q: seq<Token>, policy: Policy)
    returns (spans: seq<ReuseSpan>, ghost ranges': seq<Interval>)
    requires index.Valid() && policy.Acceptable() && 0 < |q| <= MAX_LEN
    ensures GreedyOrder(index.records, model, q, policy, spans)
    ensures Progress(index.records, model, q, policy.minMatch, ranges', spans)
  {
    spans := [];
    var ranges := [Interval(0, |q|)];
    FirstTiling(|q|);
    while ranges != [] && |spans| < policy.maxSegments
      invariant |spans| <= policy.maxSegments
      invariant Progress(index.records, model, q, policy.minMatch, ranges, spans)
      decreases SumOf(Length(), ranges)
    {
      var choice := ChooseSpan(index, model, q, policy.minMatch, ranges);
      if choice.None? {
        ChoiceIsGreedy(index.records, model, q, policy.minMatch, ranges, spans, choice);
        return spans, ranges;
      }
      Round(index.records, model, q, policy.minMatch, ranges, spans, choice.value);
      ranges := Cut(ranges, choice.value.rangeIndex, choice.value.span);
      spans := spans + [choice.value.span];
    }
    if ranges == [] {
      ChoiceIsGreedy(index.records, model, q, policy.minMatch, [], spans, None);
    }
    ranges' := ranges;
  }

  lemma FirstTiling(n: nat)
    requires n > 0
    ensures Tiles([Interval(0, n)], [], n) && Bounded([Interval(0, n)], [], n)
  {
    var whole := Interval(0, n);
    forall p: nat ensures Hits([whole], p) + Hits(Intervals([]), p) == if p < n then 1 else 0 {
      SumOne(At(p), whole);
      assert Intervals([]) == [];
    }
    SumOne(Length(), whole);
  }

  lemma OrderGrows(records: seq<SegmentRecord>, model: Bytes, q: seq<Token>, min: nat, spans: seq<ReuseSpan>,
                   s: ReuseSpan)
    requires forall k: nat :: k < |spans| ==> PickedAt(records, model, q, min, spans, k)
    requires GreedyPick(records, model, q, min, spans, s)
    ensures var more := spans + [s];
            forall k: nat :: k < |more| ==> PickedAt(records, model, q, min, more, k)
  {
    var more := spans + [s];
    forall k: nat | k < |more| ensures PickedAt(records, model, q, min, more, k) {
      if k < |spans| {
        assert PickedAt(records, model, q, min, spans, k);
        assert more[..k] == spans[..k];
      } else {
        assert more[..k] == spans;
      }
    }
  }

  // ----- from the order of choice to the plan -----

  lemma {:induction false} SumIntervals(f: Interval -> nat, g: ReuseSpan -> nat, spans: seq<ReuseSpan>)
    requires forall s :: g(s) == f(IntervalOf(s))
    ensures SumOf(f, Intervals(spans)) == SumOf(g, spans)
  {
    SumUnfolds(g, spans);
    if spans == [] {
      SumUnfolds(f, Intervals(spans));
    } else {
      var front := spans[..|spans| - 1];
      assert spans == front + [spans[|spans| - 1]];
      SumIntervals(f, g, front);
      MoreSpans(f, front, spans[|spans| - 1]);
    }
  }

  lemma IntervalsPermute(f: Interval -> nat, a: seq<ReuseSpan>, b: seq<ReuseSpan>)
    requires multiset(a) == multiset(b)
    ensures SumOf(f, Intervals(a)) == SumOf(f, Intervals(b))
  {
    var g := (s: ReuseSpan) => f(IntervalOf(s));
    SumIntervals(f, g, a);
    SumIntervals(f, g, b);
    SumPermutes(g, a, b);
  }

  lemma SortedTiles(ranges: seq<Interval>, order: seq<ReuseSpan>, spans: seq<ReuseSpan>, n: nat)
    requires Tiles(ranges, order, n) && multiset(spans) == multiset(order)
    ensures Tiles(ranges, spans, n) && Reused(spans) == Reused(order)
  {
    forall p: nat ensures Hits(ranges, p) + Hits(Intervals(spans), p) == if p < n then 1 else 0 {
      IntervalsPermute(At(p), spans, order);
      assert Hits(ranges, p) + Hits(Intervals(order), p) == if p < n then 1 else 0;
    }
    IntervalsPermute(Length(), spans, order);
    forall i | 0 <= i < |spans| ensures spans[i].matchedTokens > 0 && spans[i].QueryEnd() <= n {
      Sorting.SameElements(spans, order, spans[i]);
    }
  }

  // In query order, each span ends before the next begins.
  ghost predicate Disjoint(spans: seq<ReuseSpan>) {
    forall i, j :: 0 <= i < j < |spans| ==> spans[i].QueryEnd() <= spans[j].queryStart
  }

  lemma TilesDisjoint(ranges: seq<Interval>, spans: seq<ReuseSpan>, n: nat)
    requires Tiles(ranges, spans, n) && Sorting.SortedBy(QueryStartOf, spans)
    ensures Disjoint(spans)
  {
    forall i, j | 0 <= i < j < |spans| ensures spans[i].QueryEnd() <= spans[j].queryStart {
      var p := spans[j].queryStart;
      assert QueryStartOf(spans[i]) <= QueryStartOf(spans[j]);
      assert Hits(ranges, p) + Hits(Intervals(spans), p) == if p < n then 1 else 0;
      if p < spans[i].QueryEnd() {
        TwoHits(Intervals(spans), i, j, p);
      }
    }
  }

  // Everything the planner promises about a plan for the query.
  ghost predicate SoundPlan(records: seq<SegmentRecord>, model: Bytes, q: seq<Token>, policy: Policy, plan: Plan) {
    && 0 < |plan.spans| <= policy.maxSegments && Disjoint(plan.spans)
    && (forall i :: 0 <= i < |plan.spans| ==>
          plan.spans[i].QueryEnd() <= |q| && Usable(records, model, q, policy.minMatch, plan.spans[i]))
    && plan.queryTokens == |q| > 0
    && plan.reusedTokens == Reused(plan.spans) <= |q|
    && plan.coverage == Coverage(plan.reusedTokens, |q|) >= policy.minCoverage
    && Separated(plan.recompute)
    && (forall p :: CoveredBy(plan.recompute, p) <==> NearSomeEdge(plan.spans, policy.halo, p))
    && (forall i :: 0 <= i < |plan.recompute| ==> plan.recompute[i].End() <= |q|)
  }

  lemma SortedProgress(records: seq<SegmentRecord>, model: Bytes, q: seq<Token>, min: nat,
                       ranges: seq<Interval>, order: seq<ReuseSpan>, spans: seq<ReuseSpan>)
    requires Progress(records, model, q, min, ranges, order) && spans == Sorting.SortBy(QueryStartOf, order)
    ensures Disjoint(spans) && Reused(spans) == Reused(order) <= |q|
    ensures forall i :: 0 <= i < |spans| ==> spans[i].QueryEnd() <= |q| && Usable(records, model, q, min, spans[i])
  {
    SortedTiles(ranges, order, spans, |q|);
    Sorting.SortBySorts(QueryStartOf, order);
    TilesDisjoint(ranges, spans, |q|);
    forall i | 0 <= i < |spans| ensures Usable(records, model, q, min, spans[i]) {
      Sorting.SameElements(spans, order, spans[i]);
      var j :| 0 <= j < |order| && order[j] == spans[i];
    }
  }

  lemma PrefixReused(spans: seq<ReuseSpan>, i: nat)
    requires i < |spans|
    ensures Reused(spans[..i + 1]) == Reused(spans[..i]) + spans[i].matchedTokens <= Reused(spans)
  {
    var upTo, rest := spans[..i + 1], spans[i + 1..];
    assert upTo == spans[..i] + [spans[i]];
    MoreSpans(Length(), spans[..i], spans[i]);
    assert Intervals(spans) == Intervals(upTo) + Intervals(rest);
    SumAppend(Length(), Intervals(upTo), Intervals(rest));
  }

  method CountReused(spans: seq<ReuseSpan>) returns (total: nat)
    requires Reused(spans) <= MAX_LEN
    ensures total == Reused(spans)
  {
    total := 0;
    SumUnfolds(Length(), Intervals([]));
    for i := 0 to |spans|
      invariant total == Reused(spans[..i])
    {
      PrefixReused(spans, i);
      total := SatAdd(total, spans[i].matchedTokens);
    }
    assert spans[..|spans|] == spans;
  }

  // The plan that a query gets: the greedy spans in query order, if there are any and they reach the coverage.
  ghost predicate Planned(records: seq<SegmentRecord>, model: Bytes, q: seq<Token>, policy: Policy,
                          order: seq<ReuseSpan>, plan: Option<Plan>)
  {
    && (q == [] ==> plan.None?)
    && (q != [] ==> GreedyOrder(records, model, q, policy, order))
    && (q != [] ==> (plan.Some? <==> order != [] && Coverage(Reused(order), |q|) >= policy.minCoverage))
    && (plan.Some? ==> plan.value.spans == Sorting.SortBy(QueryStartOf, order)
                       && SoundPlan(records, model, q, policy, plan.value))
  }

  method PlanQualityReuse(index: SegmentIndex, model: Bytes, q: seq<Token>, policy: Policy)
    returns (r: Result<Option<Plan>>, ghost order: seq<ReuseSpan>)
    requires index.Valid() && |q| <= MAX_LEN
    ensures r.Err? <==> policy.minMatch == 0 || policy.maxSegments == 0 || policy.maxSegments > 1024
                        || policy.minCoverage > 1000
    ensures r.Err? ==> r.error == InvalidInput
    ensures r.Ok? ==> Planned(index.records, model, q, policy, order, r.value)
  {
    order := [];
    if !policy.Acceptable() {
      return Err(InvalidInput), [];
    }
    if q == [] {
      return Ok(None), [];
    }
    ghost var ranges;
    var spans;
    spans, ranges := TakeSpans(index, model, q, policy);
    order := spans;
    if spans == [] {
      return Ok(None), order;
    }
    spans := Sorting.SortBy(QueryStartOf, spans);
    SortedProgress(index.records, model, q, policy.minMatch, ranges, order, spans);
    var reused := CountReused(spans);
    var coverage := Coverage(reused, |q|);
    if coverage < policy.minCoverage {
      return Ok(None), order;
    }
    var recompute := BoundaryRanges(spans, |q|, policy.halo);
    r := Ok(Some(Plan(spans, recompute, |q|, reused, coverage)));
  }

  lemma QuotientBelow(a: nat, n: nat, k: nat)
    requires n > 0
    ensures a < k * n <==> a / n < k
  {
    var x := a / n;
    assert x * n <= a < x * n + n;
    MulSucc(x, n);
    if x < k {
      MulMono(x + 1, k, n);
    } else {
      MulMono(k, x, n);
    }
  }

  // The coverage is the exact per-mille share as long as the product fits in a machine word; beyond that the product
  // counts as the largest word, and the coverage falls short of 1000 even for the whole query.
  lemma CoverageIsShare(reused: nat, n: nat)
    requires n > 0 && reused <= n
    ensures reused * 1000 <= U64_MAX ==> Coverage(reused, n) == reused * 1000 / n <= 1000
    ensures reused * 1000 <= U64_MAX ==> (Coverage(reused, n) == 1000 <==> reused == n)
    ensures reused * 1000 > U64_MAX ==> Coverage(reused, n) == U64_MAX / n < 1000
  {
    if reused * 1000 <= U64_MAX {
      QuotientBelow(reused * 1000, n, 1001);
      QuotientBelow(reused * 1000, n, 1000);
    } else {
      QuotientBelow(U64_MAX, n, 1000);
    }
  }
}
