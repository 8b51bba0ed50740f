/** Sums over sequences and maps that do not depend on the order of their elements. */
module Sums {

  // Sums go round in small steps, so that a proof that only carries a sum does not unfold it.
  ghost function SumOf<T>(f: T -> nat, s: seq<T>): nat
    decreases |s|, 2
  {
    SumVia(f, s)
  }

  ghost function SumVia<T>(f: T -> nat, s: seq<T>): nat
    decreases |s|, 1
  {
    SumStep(f, s)
  }

  ghost function SumStep<T>(f: T -> nat, s: seq<T>): nat
    decreases |s|, 0
  {
    if s == [] then 0 else SumOf(f, s[..|s| - 1]) + f(s[|s| - 1])
  }

  lemma {:induction false} SumUnfolds<T>(f: T -> nat, s: seq<T>)
    ensures SumOf(f, s) == if s == [] then 0 else SumOf(f, s[..|s| - 1]) + f(s[|s| - 1])
  {
    assert SumVia(f, s) == SumStep(f, s);
  }

  lemma {:induction false} SumAppend<T>(f: T -> nat, s: seq<T>, t: seq<T>)
    ensures SumOf(f, s + t) == SumOf(f, s) + SumOf(f, t)
  {
    SumUnfolds(f, t);
    if t == [] {
      assert s + t == s;
    } else {
      var front := t[..|t| - 1];
      SumUnfolds(f, s + t);
      assert (s + t)[..|s + t| - 1] == s + front;
      SumAppend(f, s, front);
    }
  }

  lemma SumOne<T>(f: T -> nat, x: T)
    ensures SumOf(f, [x]) == f(x)
  {
    SumUnfolds(f, [x]);
    SumUnfolds(f, [x][..0]);
  }

  lemma SplitAt<T>(s: seq<T>, i: nat)
    requires i < |s|
    ensures s == (s[..i] + [s[i]]) + s[i + 1..]
  {
  }

  lemma SumSplit<T>(f: T -> nat, s: seq<T>, i: nat)
    requires i < |s|
    ensures SumOf(f, s) == SumOf(f, s[..i] + s[i + 1..]) + f(s[i])
  {
    var a, b := s[..i], s[i + 1..];
    SplitAt(s, i);
    SumAppend(f, a + [s[i]], b);
    SumAppend(f, a, [s[i]]);
    SumAppend(f, a, b);
    SumOne(f, s[i]);
  }

  lemma MultisetSplit<T>(s: seq<T>, i: nat)
    requires i < |s|
    ensures multiset(s) == multiset(s[..i] + s[i + 1..]) + multiset{s[i]}
  {
    SplitAt(s, i);
  }

  lemma SameWithout<T>(s: seq<T>, t: seq<T>, i: nat)
    requires multiset(s) == multiset(t) && s != [] && i < |t| && t[i] == s[|s| - 1]
    ensures multiset(s[..|s| - 1]) == multiset(t[..i] + t[i + 1..])
  {
    MultisetSplit(t, i);
    assert s == s[..|s| - 1] + [s[|s| - 1]];
    assert multiset(s[..|s| - 1]) == multiset(s) - multiset{s[|s| - 1]};
  }

  lemma {:induction false} SumPermutes<T>(f: T -> nat, s: seq<T>, t: seq<T>)
    requires multiset(s) == multiset(t)
    ensures SumOf(f, s) == SumOf(f, t)
  {
    SumUnfolds(f, s);
    if s == [] {
      assert |t| == |multiset(t)| == 0;
    } else {
      var front, x := s[..|s| - 1], s[|s| - 1];
      assert s == front + [x];
      assert x in multiset(t);
      var i :| 0 <= i < |t| && t[i] == x;
      SameWithout(s, t, i);
      SumPermutes(f, front, t[..i] + t[i + 1..]);
      SumSplit(f, t, i);
    }
  }

  // ----- maps -----

  ghost function MapSum<K, V>(f: V -> nat, m: map<K, V>): nat
    decreases |m|, 2
  {
    MapSumOf(f, m)
  }

  ghost function MapSumOf<K, V>(f: V -> nat, m: map<K, V>): nat
    decreases |m|, 1
  {
    MapSumStep(f, m)
  }

  ghost function MapSumStep<K, V>(f: V -> nat, m: map<K, V>): nat
    decreases |m|, 0
  {
    if m == map[] then 0 else
      var k :| k in m;
      f(m[k]) + MapSum(f, m - {k})
  }

  lemma {:induction false} MapSumUnfolds<K, V>(f: V -> nat, m: map<K, V>)
    ensures MapSum(f, m) == MapSumStep(f, m)
  {
    assert MapSumOf(f, m) == MapSumStep(f, m);
  }

  lemma MapSumEmpty<K, V>(f: V -> nat, m: map<K, V>)
    requires m == map[]
    ensures MapSum(f, m) == 0
  {
    MapSumUnfolds(f, m);
  }

  lemma {:induction false} MapSumRemove<K, V>(f: V -> nat, m: map<K, V>, k: K)
    requires k in m
    ensures MapSum(f, m) == f(m[k]) + MapSum(f, m - {k})
    decreases |m|
  {
    MapSumUnfolds(f, m);
    var j :| j in m && MapSum(f, m) == f(m[j]) + MapSum(f, m - {j});
    if j != k {
      MapSumRemove(f, m - {j}, k);
      MapSumRemove(f, m - {k}, j);
      assert m - {j} - {k} == m - {k} - {j};
    }
  }

  lemma MapSumInsert<K, V>(f: V -> nat, m: map<K, V>, k: K, v: V)
    requires k !in m
    ensures MapSum(f, m[k := v]) == MapSum(f, m) + f(v)
  {
    MapSumRemove(f, m[k := v], k);
    assert m[k := v] - {k} == m;
  }

  lemma MapSumReplace<K, V>(f: V -> nat, m: map<K, V>, k: K, v: V)
    requires k in m
    ensures MapSum(f, m[k := v]) + f(m[k]) == MapSum(f, m) + f(v)
  {
    MapSumRemove(f, m, k);
    MapSumRemove(f, m[k := v], k);
    assert m[k := v] - {k} == m - {k};
  }

  // A pointwise balance between weights carries over to their sums.
  lemma {:induction false} MapSumBalance<K, V>(f: V -> nat, g: V -> nat, h: V -> nat, k: V -> nat, l: V -> nat,
                                               m: map<K, V>)
    requires forall x :: x in m ==> f(m[x]) + g(m[x]) == h(m[x]) + k(m[x]) + l(m[x])
    ensures MapSum(f, m) + MapSum(g, m) == MapSum(h, m) + MapSum(k, m) + MapSum(l, m)
    decreases |m|
  {
    if m == map[] {
      MapSumEmpty(f, m);
      MapSumEmpty(g, m);
      MapSumEmpty(h, m);
      MapSumEmpty(k, m);
      MapSumEmpty(l, m);
    } else {
      var x :| x in m;
      MapSumRemove(f, m, x);
      MapSumRemove(g, m, x);
      MapSumRemove(h, m, x);
      MapSumRemove(k, m, x);
      MapSumRemove(l, m, x);
      MapSumBalance(f, g, h, k, l, m - {x});
    }
  }
}
