/** The registry of token segments and the search for the best reusable one (src/reuse.rs). */
module SegmentIndexes {
  import opened Prelude
  import opened BlockKeys
  import opened LongestCommonSubstring
  import opened Segments

  // The span names whole, contiguous blocks of the record that carry exactly the query's tokens.
  ghost predicate Backs(record: SegmentRecord, q: seq<Token>, span: ReuseSpan) {
    && span.matchedTokens > 0 && span.sourceKeys != []
    && span.QueryEnd() <= |q| && span.sourceStart + span.matchedTokens <= |record.tokens|
    && q[span.queryStart..span.QueryEnd()] == record.tokens[span.sourceStart..span.sourceStart + span.matchedTokens]
    && Contiguous(span.sourceKeys)
    && (forall k :: k in span.sourceKeys ==> k in record.keys)
    && span.sourceKeys[0].tokenStart == span.sourceStart
    && span.sourceKeys[|span.sourceKeys| - 1].End() == span.sourceStart + span.matchedTokens
  }

  ghost predicate CandidateVia(record: SegmentRecord, q: seq<Token>, span: ReuseSpan, raw: RawMatch) {
    FirstLongest(q, record.tokens, raw) && AlignedTo(record, raw, Some(span))
  }

  // The one span that a record offers: its longest match with the query, cut back to whole blocks.
  ghost predicate Candidate(record: SegmentRecord, q: seq<Token>, min: nat, span: ReuseSpan) {
    span.matchedTokens >= min && exists raw :: CandidateVia(record, q, span, raw)
  }

  // The test by which the code replaces the best span so far.
  predicate Better(a: ReuseSpan, b: ReuseSpan) {
    a.matchedTokens > b.matchedTokens || (a.matchedTokens == b.matchedTokens && a.queryStart < b.queryStart)
  }

  // What the winner of a search is to every other candidate: at least as long, and no later in the query than one of
  // its own length.
  predicate NoWorse(s: ReuseSpan, c: ReuseSpan) {
    s.matchedTokens >= c.matchedTokens && (s.matchedTokens == c.matchedTokens ==> s.queryStart <= c.queryStart)
  }

  // Between two candidates that differ neither in length nor in place, the older record wins.
  predicate Ties(s: ReuseSpan, c: ReuseSpan) { s.matchedTokens == c.matchedTokens && s.queryStart == c.queryStart }

  lemma AlignedBacks(record: SegmentRecord, q: seq<Token>, raw: RawMatch, span: ReuseSpan)
    requires ValidRecord(record) && CandidateVia(record, q, span, raw)
    ensures Backs(record, q, span) && span.matchedTokens <= raw.len
  {
    var lo, hi := raw.sourceStart, raw.sourceStart + raw.len;
    var keys, n := Inside(record.keys, lo, hi), |span.sourceKeys|;
    RunStartsLow(record, keys, lo, hi, n);
    forall k | k in span.sourceKeys ensures k in record.keys {
      KeptKey(record, lo, hi, k);
    }
    AgreeWithin(q, record.tokens, raw.queryStart, lo, raw.len, span.sourceStart - lo, span.matchedTokens);
  }

  lemma CandidateBacks(record: SegmentRecord, q: seq<Token>, min: nat, span: ReuseSpan)
    requires ValidRecord(record) && Candidate(record, q, min, span)
    ensures Backs(record, q, span)
  {
    var raw :| CandidateVia(record, q, span, raw);
    AlignedBacks(record, q, raw, span);
  }

  lemma CandidateUnique(record: SegmentRecord, q: seq<Token>, min: nat, a: ReuseSpan, b: ReuseSpan)
    requires Candidate(record, q, min, a) && Candidate(record, q, min, b)
    ensures a == b
  {
    var x :| CandidateVia(record, q, a, x);
    var y :| CandidateVia(record, q, b, y);
    FirstLongestUnique(q, record.tokens, x, y);
    RunUnique(Inside(record.keys, x.sourceStart, x.sourceStart + x.len), |a.sourceKeys|, |b.sourceKeys|);
  }

  lemma RunUnique(keys: seq<BlockKey>, m: nat, n: nat)
    requires IsRun(keys, m) && IsRun(keys, n)
    ensures m == n
  {
  }

  lemma CandidateShares(record: SegmentRecord, q: seq<Token>, min: nat, span: ReuseSpan)
    requires Candidate(record, q, min, span)
    ensures SharesToken(q, record.tokens)
  {
    var raw :| CandidateVia(record, q, span, raw);
    FirstLongestShares(q, record.tokens, raw);
  }

  // best is the winner of the search over the records: longest, then earliest in the query, then oldest.
  ghost predicate BestOf(records: seq<SegmentRecord>, model: Bytes, q: seq<Token>, min: nat, best: Option<ReuseSpan>) {
    match best
    case None => forall i, c :: 0 <= i < |records| && records[i].model == model ==> !Candidate(records[i], q, min, c)
    case Some(s) => exists i :: BestAt(records, model, q, min, s, i)
  }

  ghost predicate BestAt(records: seq<SegmentRecord>, model: Bytes, q: seq<Token>, min: nat, s: ReuseSpan, i: int) {
    && 0 <= i < |records| && records[i].model == model && Candidate(records[i], q, min, s)
    && forall j, c | 0 <= j < |records| && records[j].model == model && Candidate(records[j], q, min, c) ::
         NoWorse(s, c) && (Ties(s, c) ==> i <= j)
  }

  ghost predicate Offers(record: SegmentRecord, q: seq<Token>, min: nat, offer: Option<ReuseSpan>) {
    && (offer.Some? ==> Candidate(record, q, min, offer.value))
    && forall c :: Candidate(record, q, min, c) ==> offer == Some(c)
  }

  method OfferOf(record: SegmentRecord, q: seq<Token>, min: nat) returns (offer: Option<ReuseSpan>)
    requires ValidRecord(record) && |q| <= MAX_LEN
    ensures Offers(record, q, min, offer)
  {
    var raw := FindLongest(q, record.tokens);
    if raw.None? {
      forall c ensures !Candidate(record, q, min, c) {
        if Candidate(record, q, min, c) {
          CandidateShares(record, q, min, c);
        }
      }
      return None;
    }
    var aligned := AlignToBlocks(record, raw.value);
    OfferIs(record, q, min, raw.value, aligned);
    if raw.value.len < min {
      return None;
    }
    if aligned.None? || aligned.value.matchedTokens < min {
      return None;
    }
    return aligned;
  }

  lemma OfferIs(record: SegmentRecord, q: seq<Token>, min: nat, raw: RawMatch, aligned: Option<ReuseSpan>)
    requires ValidRecord(record) && FirstLongest(q, record.tokens, raw) && AlignedTo(record, raw, aligned)
    ensures Offers(record, q, min, if aligned.Some? && aligned.value.matchedTokens >= min then aligned else None)
    ensures aligned.Some? ==> aligned.value.matchedTokens <= raw.len
  {
    if aligned.Some? {
      assert CandidateVia(record, q, aligned.value, raw);
      AlignedBacks(record, q, raw, aligned.value);
    }
    forall c | Candidate(record, q, min, c)
      ensures aligned == Some(c)
    {
      var m :| CandidateVia(record, q, c, m);
      FirstLongestUnique(q, record.tokens, raw, m);
      if aligned.Some? {
        assert Candidate(record, q, 0, aligned.value) && Candidate(record, q, 0, c);
        CandidateUnique(record, q, 0, aligned.value, c);
      }
    }
  }

  lemma BestIsBound(records: seq<SegmentRecord>, model: Bytes, q: seq<Token>, min: nat, best: Option<ReuseSpan>,
                    offer: ReuseSpan)
    requires BestOf(records, model, q, min, best) && (best.Some? ==> Better(offer, best.value))
    ensures forall j, c | 0 <= j < |records| && records[j].model == model && Candidate(records[j], q, min, c) ::
              Better(offer, c)
  {
    forall j, c | 0 <= j < |records| && records[j].model == model && Candidate(records[j], q, min, c)
      ensures Better(offer, c)
    {
      assert best.Some?;
      var i :| BestAt(records, model, q, min, best.value, i);
      assert NoWorse(best.value, c);
    }
  }

  lemma NewBest(records: seq<SegmentRecord>, record: SegmentRecord, model: Bytes, q: seq<Token>, min: nat,
                best: Option<ReuseSpan>, offer: ReuseSpan)
    requires BestOf(records, model, q, min, best) && (best.Some? ==> Better(offer, best.value))
    requires record.model == model && Offers(record, q, min, Some(offer))
    ensures BestOf(records + [record], model, q, min, Some(offer))
  {
    BestIsBound(records, model, q, min, best, offer);
    var all := records + [record];
    forall j, c | 0 <= j < |all| && all[j].model == model && Candidate(all[j], q, min, c)
      ensures NoWorse(offer, c) && (Ties(offer, c) ==> |records| <= j)
    {
      if j < |records| {
        assert Candidate(records[j], q, min, c);
        assert Better(offer, c);
      }
    }
    assert BestAt(all, model, q, min, offer, |records|);
  }

  lemma KeptBest(records: seq<SegmentRecord>, record: SegmentRecord, model: Bytes, q: seq<Token>, min: nat,
                 best: Option<ReuseSpan>, offer: Option<ReuseSpan>)
    requires BestOf(records, model, q, min, best)
    requires record.model == model ==> Offers(record, q, min, offer)
    requires record.model == model && offer.Some? ==> best.Some? && !Better(offer.value, best.value)
    ensures BestOf(records + [record], model, q, min, best)
  {
    var all := records + [record];
    if best.Some? {
      var i :| BestAt(records, model, q, min, best.value, i);
      forall j, c | 0 <= j < |all| && all[j].model == model && Candidate(all[j], q, min, c)
        ensures NoWorse(best.value, c) && (Ties(best.value, c) ==> i <= j)
      {
        if j < |records| {
          assert Candidate(records[j], q, min, c);
        }
      }
      assert BestAt(all, model, q, min, best.value, i);
    } else {
      forall j, c | 0 <= j < |all| && all[j].model == model
        ensures !Candidate(all[j], q, min, c)
      {
        if j < |records| {
          assert !Candidate(records[j], q, min, c);
        }
      }
    }
  }

  function Without(records: seq<SegmentRecord>, model: Bytes, tokens: seq<Token>): seq<SegmentRecord> {
    if records == [] then
      []
    else
      var front, last := records[..|records| - 1], records[|records| - 1];
      if last.model != model || last.tokens != tokens then Without(front, model, tokens) + [last]
      else Without(front, model, tokens)
  }

  predicate Matches(r: SegmentRecord, model: Bytes, tokens: seq<Token>) { r.model == model && r.tokens == tokens }

  // No two records have the same model and tokens.
  ghost predicate Distinct(records: seq<SegmentRecord>) {
    forall i, j :: 0 <= i < j < |records| ==> !Matches(records[i], records[j].model, records[j].tokens)
  }

  lemma {:induction false} WithoutNone(records: seq<SegmentRecord>, model: Bytes, tokens: seq<Token>)
    requires forall i :: 0 <= i < |records| ==> !Matches(records[i], model, tokens)
    ensures Without(records, model, tokens) == records
  {
    if records != [] {
      var front, last := records[..|records| - 1], records[|records| - 1];
      WithoutNone(front, model, tokens);
      assert records == front + [last];
    }
  }

  lemma {:induction false} WithoutAppend(a: seq<SegmentRecord>, b: seq<SegmentRecord>, model: Bytes, tokens: seq<Token>)
    ensures Without(a + b, model, tokens) == Without(a, model, tokens) + Without(b, model, tokens)
  {
    if b == [] {
      assert a + b == a;
    } else {
      var n, m := |a + b| - 1, |b| - 1;
      WithoutAppend(a, b[..m], model, tokens);
      assert (a + b)[..n] == a + b[..m] && (a + b)[n] == b[m];
    }
  }

  // Of distinct records at most one matches; it is taken out and the others stay in their order.
  lemma WithoutOne(records: seq<SegmentRecord>, model: Bytes, tokens: seq<Token>, i: nat)
    requires i < |records| && Matches(records[i], model, tokens)
    requires forall j :: 0 <= j < |records| && j != i ==> !Matches(records[j], model, tokens)
    ensures Without(records, model, tokens) == records[..i] + records[i + 1..]
  {
    var a, b, c := records[..i], [records[i]], records[i + 1..];
    assert records == a + b + c;
    WithoutAppend(a + b, c, model, tokens);
    WithoutAppend(a, b, model, tokens);
    WithoutNone(a, model, tokens);
    WithoutNone(c, model, tokens);
    assert Without(b, model, tokens) == [];
  }

  // What registration does to the records: the one with the same model and tokens goes, if there is one, the others
  // keep their order, and the new one comes last.
  ghost predicate Registered(before: seq<SegmentRecord>, after: seq<SegmentRecord>, record: SegmentRecord) {
    || (exists i :: 0 <= i < |before| && Matches(before[i], record.model, record.tokens)
          && after == before[..i] + before[i + 1..] + [record])
    || (after == before + [record]
          && forall i :: 0 <= i < |before| ==> !Matches(before[i], record.model, record.tokens))
  }

  class SegmentIndex {
    var records: seq<SegmentRecord>

    // Every record passed validation, and no two have the same model and tokens.
    ghost predicate Valid()
      reads this
    {
      (forall i :: 0 <= i < |records| ==> ValidRecord(records[i])) && Distinct(records)
    }

    constructor ()
      ensures Valid() && records == []
    {
      records := [];
    }

    method Register(model: Bytes, tokens: seq<Token>, keys: seq<BlockKey>) returns (r: Outcome)
      requires Valid() && |tokens| <= MAX_LEN
      modifies this
      ensures Valid()
      ensures r.Done? <==> ValidRecord(SegmentRecord(model, tokens, keys))
      ensures r.Done? ==> Registered(old(records), records, SegmentRecord(model, tokens, keys))
      ensures r.Failed? ==> records == old(records) && r.error == InvalidInput
    {
      var record := SegmentRecord(model, tokens, keys);
      var ok := ValidateRecord(record);
      if !ok {
        return Failed(InvalidInput);
      }
      Registration(records, record);
      records := Without(records, model, tokens) + [record];
      return Done;
    }

    method BestSegment(model: Bytes, q: seq<Token>, min: nat) returns (r: Result<Option<ReuseSpan>>)
      requires Valid() && |q| <= MAX_LEN
      ensures r.Err? <==> min == 0
      ensures r.Ok? ==> BestOf(records, model, q, min, r.value)
    {
      if min == 0 {
        return Err(InvalidInput);
      }
      if q == [] {
        NoCandidateForEmpty(records, model, q, min);
        return Ok(None);
      }
      var best: Option<ReuseSpan> := None;
      for n := 0 to |records|
        invariant BestOf(records[..n], model, q, min, best)
      {
        assert records[..n + 1] == records[..n] + [records[n]];
        var offer := None;
        if records[n].model == model {
          offer := OfferOf(records[n], q, min);
        }
        if offer.Some? && (best.None? || Better(offer.value, best.value)) {
          NewBest(records[..n], records[n], model, q, min, best, offer.value);
          best := offer;
        } else {
          KeptBest(records[..n], records[n], model, q, min, best, offer);
        }
      }
      assert records[..|records|] == records;
      return Ok(best);
    }
  }

  lemma Registration(records: seq<SegmentRecord>, record: SegmentRecord)
    requires Distinct(records) && forall i :: 0 <= i < |records| ==> ValidRecord(records[i])
    ensures var kept := Without(records, record.model, record.tokens);
      && Registered(records, kept + [record], record) && Distinct(kept + [record])
      && forall i :: 0 <= i < |kept| ==> ValidRecord(kept[i])
  {
    var kept := Without(records, record.model, record.tokens);
    if i :| 0 <= i < |records| && Matches(records[i], record.model, record.tokens) {
      OnlyMatch(records, i);
      WithoutOne(records, record.model, record.tokens, i);
      DistinctCut(records, i);
      forall j | 0 <= j < |kept| ensures ValidRecord(kept[j]) && !Matches(kept[j], record.model, record.tokens) {
        assert kept[j] == records[if j < i then j else j + 1];
      }
    } else {
      WithoutNone(records, record.model, record.tokens);
    }
    DistinctAppend(kept, record);
  }

  lemma OnlyMatch(records: seq<SegmentRecord>, i: nat)
    requires Distinct(records) && i < |records|
    ensures forall j :: 0 <= j < |records| && j != i ==> !Matches(records[j], records[i].model, records[i].tokens)
  {
    forall j | 0 <= j < |records| && j != i ensures !Matches(records[j], records[i].model, records[i].tokens) {
      assert !Matches(records[if i < j then i else j], records[if i < j then j else i].model,
                      records[if i < j then j else i].tokens);
    }
  }

  lemma DistinctAppend(records: seq<SegmentRecord>, record: SegmentRecord)
    requires Distinct(records)
    requires forall i :: 0 <= i < |records| ==> !Matches(records[i], record.model, record.tokens)
    ensures Distinct(records + [record])
  {
  }

  lemma DistinctCut(records: seq<SegmentRecord>, i: nat)
    requires Distinct(records) && i < |records|
    ensures Distinct(records[..i] + records[i + 1..])
  {
    var cut := records[..i] + records[i + 1..];
    forall a, b | 0 <= a < b < |cut| ensures !Matches(cut[a], cut[b].model, cut[b].tokens) {
      var x, y := if a < i then a else a + 1, if b < i then b else b + 1;
      assert cut[a] == records[x] && cut[b] == records[y];
    }
  }

  lemma NoCandidateForEmpty(records: seq<SegmentRecord>, model: Bytes, q: seq<Token>, min: nat)
    requires q == []
    ensures BestOf(records, model, q, min, None)
  {
  }

  lemma BestOfUnique(records: seq<SegmentRecord>, model: Bytes, q: seq<Token>, min: nat, a: Option<ReuseSpan>,
                     b: Option<ReuseSpan>)
    requires BestOf(records, model, q, min, a) && BestOf(records, model, q, min, b)
    ensures a == b
  {
    if a.Some? && b.Some? {
      var i :| BestAt(records, model, q, min, a.value, i);
      var j :| BestAt(records, model, q, min, b.value, j);
      assert Candidate(records[i], q, min, a.value) && Candidate(records[j], q, min, b.value);
      assert NoWorse(a.value, b.value) && NoWorse(b.value, a.value);
      CandidateUnique(records[i], q, min, a.value, b.value);
    }
  }

  // There is always a winner, or no candidate at all.
  lemma {:induction false} BestExists(records: seq<SegmentRecord>, model: Bytes, q: seq<Token>, min: nat)
    returns (best: Option<ReuseSpan>)
    ensures BestOf(records, model, q, min, best)
  {
    if records == [] {
      return None;
    }
    var front, last := records[..|records| - 1], records[|records| - 1];
    best := BestExists(front, model, q, min);
    assert records == front + [last];
    if offer :| last.model == model && Candidate(last, q, min, offer) {
      forall c | Candidate(last, q, min, c) ensures c == offer {
        CandidateUnique(last, q, min, c, offer);
      }
      if best.None? || Better(offer, best.value) {
        NewBest(front, last, model, q, min, best, offer);
        return Some(offer);
      }
      KeptBest(front, last, model, q, min, best, Some(offer));
    } else {
      KeptBest(front, last, model, q, min, best, None);
    }
  }

  // The winner, spelled out: no record of the model offers a longer span, none of its length begins earlier in the
  // query, and no older record offers one that agrees in both.
  lemma BestIsLongest(records: seq<SegmentRecord>, model: Bytes, q: seq<Token>, min: nat, s: ReuseSpan) returns (i: nat)
    requires BestOf(records, model, q, min, Some(s))
    ensures i < |records| && records[i].model == model && Candidate(records[i], q, min, s)
    ensures forall j, c :: 0 <= j < |records| && records[j].model == model && Candidate(records[j], q, min, c) ==>
              && c.matchedTokens <= s.matchedTokens
              && (c.matchedTokens == s.matchedTokens ==> s.queryStart <= c.queryStart)
              && (c.matchedTokens == s.matchedTokens && c.queryStart == s.queryStart ==> i <= j)
  {
    i :| BestAt(records, model, q, min, s, i);
    forall j, c | 0 <= j < |records| && records[j].model == model && Candidate(records[j], q, min, c)
      ensures && c.matchedTokens <= s.matchedTokens
              && (c.matchedTokens == s.matchedTokens ==> s.queryStart <= c.queryStart)
              && (c.matchedTokens == s.matchedTokens && c.queryStart == s.queryStart ==> i <= j)
    {
      assert NoWorse(s, c) && (Ties(s, c) ==> i <= j);
    }
  }

  // A query shorter than the minimum has no candidate, so the planner may skip it.
  lemma TooShort(records: seq<SegmentRecord>, model: Bytes, q: seq<Token>, min: nat)
    requires forall i :: 0 <= i < |records| ==> ValidRecord(records[i])
    requires |q| < min
    ensures BestOf(records, model, q, min, None)
  {
    forall i, c | 0 <= i < |records| ensures !Candidate(records[i], q, min, c) {
      if Candidate(records[i], q, min, c) {
        CandidateBacks(records[i], q, min, c);
      }
    }
  }

  // The winner is backed by a registered record of the model.
  ghost predicate BackedBy(records: seq<SegmentRecord>, model: Bytes, q: seq<Token>, span: ReuseSpan, i: int) {
    0 <= i < |records| && records[i].model == model && Backs(records[i], q, span)
  }

  ghost predicate Backed(records: seq<SegmentRecord>, model: Bytes, q: seq<Token>, span: ReuseSpan) {
    exists i :: BackedBy(records, model, q, span, i)
  }

  lemma BestIsBacked(records: seq<SegmentRecord>, model: Bytes, q: seq<Token>, min: nat, span: ReuseSpan)
    returns (i: nat)
    requires forall i :: 0 <= i < |records| ==> ValidRecord(records[i])
    requires BestOf(records, model, q, min, Some(span))
    ensures BackedBy(records, model, q, span, i) && span.matchedTokens >= min
  {
    i :| BestAt(records, model, q, min, span, i);
    CandidateBacks(records[i], q, min, span);
  }
}
