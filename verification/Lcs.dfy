/** The two-row dynamic program that finds the longest common substring (src/reuse.rs). */
module LongestCommonSubstring {
  import opened Prelude

  datatype RawMatch = RawMatch(queryStart: nat, sourceStart: nat, len: nat)

  // q and s agree on n elements from positions i and j.
  ghost predicate AgreeAt<T>(q: seq<T>, s: seq<T>, i: nat, j: nat, n: nat) {
    i + n <= |q| && j + n <= |s| && q[i..i + n] == s[j..j + n]
  }

  // m is a common substring, none is longer, and among the longest it is the first one,
  // by position in the query and then by position in the source.
  ghost predicate FirstLongest<T>(q: seq<T>, s: seq<T>, m: RawMatch) {
    && m.len > 0
    && AgreeAt(q, s, m.queryStart, m.sourceStart, m.len)
    && (forall i: nat, j: nat, n: nat | AgreeAt(q, s, i, j, n) ::
          n <= m.len && (n == m.len ==> m.queryStart < i || (m.queryStart == i && m.sourceStart <= j)))
  }

  ghost predicate SharesToken<T>(q: seq<T>, s: seq<T>) {
    exists i, j :: 0 <= i < |q| && 0 <= j < |s| && q[i] == s[j]
  }

  // Length of the longest common suffix of q[..i] and s[..j]: the value of cell (i, j).
  ghost function SuffixLen<T>(q: seq<T>, s: seq<T>, i: nat, j: nat): (n: nat)
    requires i <= |q| && j <= |s|
    ensures n <= i && n <= j
  {
    if i == 0 || j == 0 || q[i - 1] != s[j - 1] then 0 else 1 + SuffixLen(q, s, i - 1, j - 1)
  }

  // A common run ending at (i, j) has exactly the lengths up to the cell's value.
  lemma {:induction false} SuffixLenIsLongest<T>(q: seq<T>, s: seq<T>, i: nat, j: nat, n: nat)
    requires i <= |q| && j <= |s| && n <= i && n <= j
    ensures AgreeAt(q, s, i - n, j - n, n) <==> n <= SuffixLen(q, s, i, j)
  {
    if n > 0 {
      assert q[i - n..i] == q[i - n..i - 1] + [q[i - 1]];
      assert s[j - n..j] == s[j - n..j - 1] + [s[j - 1]];
      if q[i - 1] == s[j - 1] {
        SuffixLenIsLongest(q, s, i - 1, j - 1, n - 1);
        assert q[i - n..i][..n - 1] == q[i - n..i - 1] && s[j - n..j][..n - 1] == s[j - n..j - 1];
      } else {
        assert q[i - n..i][n - 1] != s[j - n..j][n - 1];
      }
    }
  }

  // The cells already visited when the scan is about to look at (i, j).
  predicate Visited(i: nat, j: nat, i': nat, j': nat) {
    i' < i || (i' == i && j' < j)
  }

  // The whole table of cell values, of which the program keeps two rows.
  type Table = seq<seq<nat>>

  ghost predicate Shaped(cell: Table, rows: nat, columns: nat) {
    |cell| == rows + 1 && forall i :: 0 <= i <= rows ==> |cell[i]| == columns + 1
  }

  ghost function TableOf<T>(q: seq<T>, s: seq<T>): (cell: Table)
    ensures Shaped(cell, |q|, |s|)
    ensures forall i, j :: 0 <= i <= |q| && 0 <= j <= |s| ==> cell[i][j] == SuffixLen(q, s, i, j)
  {
    seq(|q| + 1, i requires 0 <= i <= |q| =>
      seq(|s| + 1, j requires 0 <= j <= |s| => SuffixLen(q, s, i, j)))
  }

  // best describes the first of the largest visited cells; a match ends one past its last element.
  ghost predicate BestSoFar(cell: Table, rows: nat, columns: nat, i: nat, j: nat, best: RawMatch)
    requires Shaped(cell, rows, columns)
  {
    && (best.len > 0 ==>
          && best.queryStart + best.len <= rows && best.sourceStart + best.len <= columns
          && Visited(i, j, best.queryStart + best.len, best.sourceStart + best.len)
          && cell[best.queryStart + best.len][best.sourceStart + best.len] == best.len)
    && (forall i', j' | 0 <= i' <= rows && 0 <= j' <= columns && Visited(i, j, i', j') ::
          && cell[i'][j'] <= best.len
          && (best.len > 0 && cell[i'][j'] == best.len ==>
                !Visited(best.queryStart + best.len, best.sourceStart + best.len, i', j')))
  }

  function Improved(best: RawMatch, i: nat, j: nat, len: nat): RawMatch {
    if len > best.len && len <= i && len <= j then RawMatch(i - len, j - len, len) else best
  }

  lemma BestStep(cell: Table, rows: nat, columns: nat, i: nat, j: nat, best: RawMatch)
    requires Shaped(cell, rows, columns)
    requires i <= rows && j <= columns && cell[i][j] <= i && cell[i][j] <= j
    requires BestSoFar(cell, rows, columns, i, j, best)
    ensures BestSoFar(cell, rows, columns, i, j + 1, Improved(best, i, j, cell[i][j]))
  {
    forall i', j' | 0 <= i' <= rows && 0 <= j' <= columns && Visited(i, j + 1, i', j')
      ensures Visited(i, j, i', j') || (i' == i && j' == j)
    {
    }
  }

  lemma NextRow(cell: Table, rows: nat, columns: nat, i: nat, best: RawMatch)
    requires Shaped(cell, rows, columns)
    requires BestSoFar(cell, rows, columns, i, columns + 1, best)
    ensures BestSoFar(cell, rows, columns, i + 1, 0, best)
  {
    forall i', j' | 0 <= i' <= rows && 0 <= j' <= columns && Visited(i + 1, 0, i', j')
      ensures cell[i'][j'] <= best.len
      ensures best.len > 0 && cell[i'][j'] == best.len ==>
                !Visited(best.queryStart + best.len, best.sourceStart + best.len, i', j')
    {
      assert Visited(i, columns + 1, i', j');
    }
  }

  // The best match when the scan is about to look at (i, j): a later cell replaces it only if it is larger.
  ghost function Scanned(cell: Table, rows: nat, columns: nat, i: nat, j: nat): RawMatch
    requires Shaped(cell, rows, columns) && j <= columns + 1 && i <= rows + 1 && (j > 0 ==> i <= rows)
    decreases i, j
  {
    if j > 0 then Improved(Scanned(cell, rows, columns, i, j - 1), i, j - 1, cell[i][j - 1])
    else if i > 0 then Scanned(cell, rows, columns, i - 1, columns + 1)
    else RawMatch(0, 0, 0)
  }

  ghost predicate Bounded(cell: Table, rows: nat, columns: nat)
    requires Shaped(cell, rows, columns)
  {
    forall i, j :: 0 <= i <= rows && 0 <= j <= columns ==> cell[i][j] <= i && cell[i][j] <= j
  }

  lemma {:induction false} ScannedIsBest(cell: Table, rows: nat, columns: nat, i: nat, j: nat)
    requires Shaped(cell, rows, columns) && Bounded(cell, rows, columns)
    requires j <= columns + 1 && i <= rows + 1 && (j > 0 ==> i <= rows)
    ensures BestSoFar(cell, rows, columns, i, j, Scanned(cell, rows, columns, i, j))
    decreases i, j
  {
    if j > 0 {
      ScannedIsBest(cell, rows, columns, i, j - 1);
      BestStep(cell, rows, columns, i, j - 1, Scanned(cell, rows, columns, i, j - 1));
    } else if i > 0 {
      ScannedIsBest(cell, rows, columns, i - 1, columns + 1);
      NextRow(cell, rows, columns, i - 1, Scanned(cell, rows, columns, i - 1, columns + 1));
    }
  }

  // The first row of the table is zero.
  lemma {:induction false} FirstRow(cell: Table, rows: nat, columns: nat, j: nat)
    requires Shaped(cell, rows, columns) && Bounded(cell, rows, columns) && j <= columns + 1
    ensures Scanned(cell, rows, columns, 0, j) == RawMatch(0, 0, 0)
  {
    if j > 0 {
      FirstRow(cell, rows, columns, j - 1);
    }
  }

  lemma ScanBounds<T>(q: seq<T>, s: seq<T>, best: RawMatch, i: nat, j: nat, n: nat)
    requires BestSoFar(TableOf(q, s), |q|, |s|, |q| + 1, 0, best) && AgreeAt(q, s, i, j, n)
    ensures n <= best.len
    ensures best.len > 0 && n == best.len ==> best.queryStart < i || (best.queryStart == i && best.sourceStart <= j)
  {
    SuffixLenIsLongest(q, s, i + n, j + n, n);
    assert Visited(|q| + 1, 0, i + n, j + n);
    if best.len > 0 && n == best.len {
      assert !Visited(best.queryStart + best.len, best.sourceStart + best.len, i + n, j + n);
    }
  }

  lemma ScanEstablishes<T>(q: seq<T>, s: seq<T>, best: RawMatch)
    requires BestSoFar(TableOf(q, s), |q|, |s|, |q| + 1, 0, best)
    ensures best.len > 0 ==> FirstLongest(q, s, best)
    ensures best.len == 0 <==> !SharesToken(q, s)
  {
    var ei, ej := best.queryStart + best.len, best.sourceStart + best.len;
    if best.len > 0 {
      SuffixLenIsLongest(q, s, ei, ej, best.len);
      assert q[best.queryStart..ei][0] == s[best.sourceStart..ej][0];
    }
    forall i: nat, j: nat, n: nat | AgreeAt(q, s, i, j, n)
      ensures n <= best.len
      ensures best.len > 0 && n == best.len ==> best.queryStart < i || (best.queryStart == i && best.sourceStart <= j)
    {
      ScanBounds(q, s, best, i, j, n);
    }
    if SharesToken(q, s) {
      var i, j :| 0 <= i < |q| && 0 <= j < |s| && q[i] == s[j];
      assert AgreeAt(q, s, i, j, 1);
    }
  }

  ghost predicate RowIs(cell: Table, i: nat, row: seq<nat>) {
    i < |cell| && row == cell[i]
  }

  // The recurrence of the dynamic program at one cell.
  ghost predicate CellStep<T>(cell: Table, q: seq<T>, s: seq<T>, i: nat, j: nat)
    requires i < |q| && j < |s| && Shaped(cell, |q|, |s|)
  {
    && cell[i + 1][j + 1] == (if q[i] == s[j] then cell[i][j] + 1 else 0)
    && cell[i + 1][j + 1] <= i + 1 && cell[i + 1][j + 1] <= j + 1
  }

  // The body of the outer loop: one row from the previous one.
  method FillRow<T(==)>(q: seq<T>, s: seq<T>, i: nat, previous: array<nat>, best0: RawMatch, ghost cell: Table)
    returns (current: array<nat>, best: RawMatch)
    requires i < |q| <= MAX_LEN && |s| <= MAX_LEN
    requires Shaped(cell, |q|, |s|) && cell[i + 1][0] == 0
    requires forall j :: 0 <= j < |s| ==> CellStep(cell, q, s, i, j)
    requires RowIs(cell, i, previous[..]) && best0 == Scanned(cell, |q|, |s|, i + 1, 0)
    ensures RowIs(cell, i + 1, current[..]) && best == Scanned(cell, |q|, |s|, i + 2, 0)
  {
    current := new nat[|s| + 1](_ => 0);
    best := best0;
    for j := 0 to |s|
      invariant forall x :: 0 <= x <= j ==> current[x] == cell[i + 1][x]
      invariant forall x :: j < x <= |s| ==> current[x] == 0
      invariant best == Scanned(cell, |q|, |s|, i + 1, j + 1)
    {
      assert CellStep(cell, q, s, i, j);
      assert previous[j] == previous[..][j] == cell[i][j];
      if q[i] == s[j] {
        var len := SatAdd(previous[j], 1);
        current[j + 1] := len;
        if len > best.len {
          best := RawMatch(i + 1 - len, j + 1 - len, len);
        }
      }
    }
  }

  method FindLongest<T(==)>(q: seq<T>, s: seq<T>) returns (r: Option<RawMatch>)
    requires |q| <= MAX_LEN && |s| <= MAX_LEN
    ensures r.Some? ==> FirstLongest(q, s, r.value)
    ensures r.None? <==> !SharesToken(q, s)
  {
    if |q| == 0 || |s| == 0 {
      return None;
    }
    var previous := new nat[|s| + 1](_ => 0);
    var best := RawMatch(0, 0, 0);
    FirstRow(TableOf(q, s), |q|, |s|, |s| + 1);
    for i := 0 to |q|
      invariant RowIs(TableOf(q, s), i, previous[..])
      invariant best == Scanned(TableOf(q, s), |q|, |s|, i + 1, 0)
    {
      previous, best := FillRow(q, s, i, previous, best, TableOf(q, s));
    }
    ScannedIsBest(TableOf(q, s), |q|, |s|, |q| + 1, 0);
    ScanEstablishes(q, s, best);
    r := if best.len > 0 then Some(best) else None;
  }

  lemma FirstLongestUnique<T>(q: seq<T>, s: seq<T>, a: RawMatch, b: RawMatch)
    requires FirstLongest(q, s, a) && FirstLongest(q, s, b)
    ensures a == b
  {
    assert AgreeAt(q, s, a.queryStart, a.sourceStart, a.len);
    assert AgreeAt(q, s, b.queryStart, b.sourceStart, b.len);
  }

  lemma AgreeWithin<T>(q: seq<T>, s: seq<T>, i: nat, j: nat, n: nat, x: nat, m: nat)
    requires AgreeAt(q, s, i, j, n) && x + m <= n
    ensures AgreeAt(q, s, i + x, j + x, m)
  {
    var a, b := q[i + x..i + x + m], s[j + x..j + x + m];
    forall k | 0 <= k < m ensures a[k] == b[k] {
      assert q[i..i + n][x + k] == s[j..j + n][x + k];
    }
  }

  lemma FirstLongestShares<T>(q: seq<T>, s: seq<T>, m: RawMatch)
    requires FirstLongest(q, s, m)
    ensures SharesToken(q, s)
  {
    assert q[m.queryStart..m.queryStart + m.len][0] == s[m.sourceStart..m.sourceStart + m.len][0];
  }
}
