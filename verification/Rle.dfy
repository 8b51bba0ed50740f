/** The run-length payload codec (src/codec.rs). */
module Rle {
  import opened Prelude

  // ----- what an encoding means -----

  function Repeat(n: nat, b: byte): (s: Bytes)
    ensures |s| == n && forall i :: 0 <= i < n ==> s[i] == b
  {
    seq(n, _ => b)
  }

  // Pairs of a non-zero run and a byte.
  predicate ValidRuns(e: Bytes) {
    |e| % 2 == 0 && forall i :: 0 <= i < |e| && i % 2 == 0 ==> e[i] != 0
  }

  function Expand(e: Bytes): Bytes {
    if |e| < 2 then [] else Expand(e[..|e| - 2]) + Repeat(e[|e| - 2], e[|e| - 1])
  }

  lemma {:induction false} ExpandCons(n: byte, b: byte, e: Bytes)
    requires |e| % 2 == 0
    ensures Expand([n, b] + e) == Repeat(n, b) + Expand(e)
  {
    var all := [n, b] + e;
    if e == [] {
      assert all[..0] == [] && all == [n, b];
    } else {
      ExpandCons(n, b, e[..|e| - 2]);
      assert all[..|all| - 2] == [n, b] + e[..|e| - 2];
      assert Expand(all) == Repeat(n, b) + Expand(e[..|e| - 2]) + Repeat(e[|e| - 2], e[|e| - 1]);
    }
  }

  // ----- the greedy encoder -----

  // The length of the run at the front of s, at most 255, given that its first n bytes agree.
  function RunFrom(s: Bytes, n: nat): (r: nat)
    requires 1 <= n <= |s| && n <= 255
    ensures n <= r <= |s| && r <= 255
    decreases |s| - n
  {
    if n < |s| && s[n] == s[0] && n < 255 then RunFrom(s, n + 1) else n
  }

  lemma {:induction false} RunIsUniform(s: Bytes, n: nat)
    requires 1 <= n <= |s| && n <= 255 && forall i :: 0 <= i < n ==> s[i] == s[0]
    ensures forall i :: 0 <= i < RunFrom(s, n) ==> s[i] == s[0]
    ensures RunFrom(s, n) < |s| && RunFrom(s, n) < 255 ==> s[RunFrom(s, n)] != s[0]
    decreases |s| - n
  {
    if n < |s| && s[n] == s[0] && n < 255 {
      RunIsUniform(s, n + 1);
    }
  }

  function Encode(s: Bytes): (e: Bytes)
    ensures |e| % 2 == 0
  {
    if s == [] then [] else [RunFrom(s, 1), s[0]] + Encode(s[RunFrom(s, 1)..])
  }

  // The inner loop of encode.
  method MeasureRun(input: Bytes, index: nat) returns (run: nat)
    requires index < |input|
    ensures run == RunFrom(input[index..], 1)
  {
    run := 1;
    while index + run < |input| && input[index + run] == input[index] && run < 255
      invariant 1 <= run <= 255 && index + run <= |input|
      invariant RunFrom(input[index..], run) == RunFrom(input[index..], 1)
    {
      run := run + 1;
    }
  }

  lemma EncodeStep(input: Bytes, index: nat)
    requires index < |input|
    ensures var run := RunFrom(input[index..], 1);
            Encode(input[index..]) == [run, input[index]] + Encode(input[index + run..])
  {
    var rest := input[index..];
    assert rest[RunFrom(rest, 1)..] == input[index + RunFrom(rest, 1)..];
  }

  method RleEncode(input: Bytes) returns (encoded: Bytes)
    ensures encoded == Encode(input)
  {
    encoded := [];
    var index := 0;
    assert input[0..] == input;
    while index < |input|
      invariant 0 <= index <= |input| && encoded + Encode(input[index..]) == Encode(input)
    {
      var run := MeasureRun(input, index);
      EncodeStep(input, index);
      Assoc(encoded, [run, input[index]], Encode(input[index + run..]));
      encoded := encoded + [run, input[index]];
      index := index + run;
    }
  }

  // Decoding accepts exactly the valid encodings of the declared length within the limit.
  function Decode(input: Bytes, expectedLen: nat, maxOutput: nat): Result<Bytes> {
    if expectedLen <= maxOutput && ValidRuns(input) && |Expand(input)| == expectedLen then Ok(Expand(input))
    else Err(InvalidData)
  }

  method RleDecode(input: Bytes, expectedLen: nat, maxOutput: nat) returns (r: Result<Bytes>)
    ensures r == Decode(input, expectedLen, maxOutput)
  {
    if expectedLen > maxOutput || |input| % 2 != 0 {
      return Err(InvalidData);
    }
    var output: Bytes := [];
    var i := 0;
    while i < |input|
      invariant 0 <= i <= |input| && i % 2 == 0
      invariant output == Expand(input[..i]) && |output| <= expectedLen
      invariant forall j :: 0 <= j < i && j % 2 == 0 ==> input[j] != 0
    {
      var run := input[i];
      assert input[..i + 2][..i] == input[..i];
      ExpandGrows(input, i + 2);
      if run == 0 || |output| + run > expectedLen {
        return Err(InvalidData);
      }
      output := output + Repeat(run, input[i + 1]);
      i := i + 2;
    }
    assert input[..|input|] == input;
    if |output| != expectedLen {
      return Err(InvalidData);
    }
    return Ok(output);
  }

  lemma {:induction false} ExpandGrows(e: Bytes, n: nat)
    requires n <= |e| && n % 2 == |e| % 2 == 0
    ensures |Expand(e[..n])| <= |Expand(e)|
    decreases |e| - n
  {
    if n < |e| {
      ExpandGrows(e[..|e| - 2], n);
      assert e[..|e| - 2][..n] == e[..n];
    } else {
      assert e[..n] == e;
    }
  }

  // ----- the round trip -----

  lemma {:induction false} EncodeIsValid(s: Bytes)
    ensures ValidRuns(Encode(s))
  {
    if s != [] {
      var run := RunFrom(s, 1);
      EncodeIsValid(s[run..]);
      var e := Encode(s[run..]);
      forall i | 0 <= i < |e| + 2 && i % 2 == 0 ensures Encode(s)[i] != 0 {
        if i >= 2 {
          assert Encode(s)[i] == e[i - 2];
        }
      }
    }
  }

  lemma DecodeInvertsEncode(s: Bytes, maxOutput: nat)
    requires |s| <= maxOutput
    ensures Decode(Encode(s), |s|, maxOutput) == Ok(s)
  {
    EncodeIsValid(s);
    ExpandInvertsEncode(s);
  }

  lemma {:induction false} ExpandInvertsEncode(s: Bytes)
    ensures Expand(Encode(s)) == s
  {
    if s != [] {
      var run := RunFrom(s, 1);
      RunIsUniform(s, 1);
      ExpandInvertsEncode(s[run..]);
      ExpandCons(run, s[0], Encode(s[run..]));
      assert Repeat(run, s[0]) == s[..run];
      assert s == s[..run] + s[run..];
    }
  }

  // ----- the greedy encoding is a shortest one -----

  // A front of s that is uniform and short enough is no longer than the greedy run.
  lemma {:induction false} RunIsLongest(s: Bytes, n: nat, k: nat)
    requires 1 <= n <= k <= |s| && k <= 255 && forall i :: 0 <= i < k ==> s[i] == s[0]
    ensures k <= RunFrom(s, n)
    decreases k - n
  {
    if n < k {
      RunIsLongest(s, n + 1, k);
    }
  }

  lemma DropDrop(s: Bytes, a: nat, b: nat)
    requires a + b <= |s|
    ensures s[a..][b..] == s[a + b..]
  {
  }

  // What is left of the first run after k of its bytes is the start of a run that reaches at least as far.
  lemma RunAfter(s: Bytes, k: nat) returns (h: nat)
    requires 0 < k < |s| && k < RunFrom(s, 1)
    ensures h == RunFrom(s[k..], 1) && RunFrom(s, 1) <= k + h <= |s|
  {
    var g := RunFrom(s, 1);
    RunIsUniform(s, 1);
    RunIsLongest(s[k..], 1, g - k);
    h := RunFrom(s[k..], 1);
  }

  // Where the greedy run that starts at k ends.
  function EndAt(s: Bytes, k: nat): (end: nat)
    requires k < |s|
    ensures k < end <= |s|
  {
    k + RunFrom(s[k..], 1)
  }

  // The length of the greedy encoding from k on.
  function GreedyFrom(s: Bytes, k: nat): nat
    requires k <= |s|
    decreases |s| - k
  {
    if k == |s| then 0 else 2 + GreedyFrom(s, EndAt(s, k))
  }

  lemma {:induction false} EncodeLength(s: Bytes, k: nat)
    requires k <= |s|
    ensures |Encode(s[k..])| == GreedyFrom(s, k)
    decreases |s| - k
  {
    if k < |s| {
      EncodeStep(s, k);
      EncodeLength(s, EndAt(s, k));
    }
  }

  // A run that starts inside another reaches at least as far.
  lemma EndsAscend(s: Bytes, k: nat, m: nat)
    requires k < m < |s| && m < EndAt(s, k)
    ensures EndAt(s, k) <= EndAt(s, m)
  {
    var h := RunAfter(s[k..], m - k);
    DropDrop(s, k, m - k);
  }

  // Starting later never takes more.
  lemma {:induction false} LaterNoLonger(s: Bytes, k: nat, m: nat)
    requires k <= m <= |s|
    ensures GreedyFrom(s, m) <= GreedyFrom(s, k)
    decreases |s| - k
  {
    if k < m < |s| {
      if m >= EndAt(s, k) {
        LaterNoLonger(s, EndAt(s, k), m);
      } else {
        EndsAscend(s, k, m);
        LaterNoLonger(s, EndAt(s, k), EndAt(s, m));
      }
    }
  }

  lemma PeelRun(s: Bytes, e: Bytes)
    requires e != [] && ValidRuns(e) && Expand(e) == s
    ensures 1 <= e[0] <= |s| && forall i :: 0 <= i < e[0] ==> s[i] == s[0]
    ensures ValidRuns(e[2..]) && Expand(e[2..]) == s[e[0]..]
  {
    var n, rest := e[0], e[2..];
    assert e == [e[0], e[1]] + rest;
    ExpandCons(e[0], e[1], rest);
    assert s == Repeat(n, e[1]) + Expand(rest);
    assert s[n..] == Expand(rest);
    TailIsValid(e);
  }

  lemma TailIsValid(e: Bytes)
    requires e != [] && ValidRuns(e)
    ensures |e| >= 2 && ValidRuns(e[2..])
  {
    var rest := e[2..];
    forall i | 0 <= i < |rest| && i % 2 == 0 ensures rest[i] != 0 {
      assert rest[i] == e[i + 2];
    }
  }

  // Starting with a shorter run never helps.
  lemma FirstRunIsBest(s: Bytes, n: nat)
    requires 1 <= n <= |s| && n <= 255 && forall i :: 0 <= i < n ==> s[i] == s[0]
    ensures GreedyFrom(s, 0) <= 2 + GreedyFrom(s, n)
  {
    assert s[0..] == s;
    RunIsLongest(s, 1, n);
    LaterNoLonger(s, n, EndAt(s, 0));
  }

  lemma {:induction false} GreedyIsShortest(s: Bytes, e: Bytes)
    requires ValidRuns(e) && Expand(e) == s
    ensures |Encode(s)| <= |e|
    decreases |e|
  {
    if e != [] {
      PeelRun(s, e);
      GreedyIsShortest(s[e[0]..], e[2..]);
      EncodeLength(s, 0);
      EncodeLength(s, e[0]);
      FirstRunIsBest(s, e[0]);
      assert s[0..] == s;
    }
  }
}
