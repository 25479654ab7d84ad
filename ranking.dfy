/** `Series.nlargest(k)` with its default `keep='first'`, as the momentum
    cascade uses it (Momentum/momentum.py:68-70, 83-85): candidates with a
    value come first, largest value first, equal values in candidate order;
    candidates without a value (NaN) follow in candidate order; the first `k`
    are kept. */
module Ranking {
  import opened Common

  /** Every ticker of `s` has a value. */
  predicate AllDefined(s: seq<Ticker>, vals: Month)
  {
    forall x | x in s :: x in vals
  }

  /** Values never increase along `s`. */
  predicate SortedDesc(s: seq<Ticker>, vals: Month)
    requires AllDefined(s, vals)
  {
    forall i, j | 0 <= i < j < |s| :: vals[s[i]] >= vals[s[j]]
  }

  /** The candidates that have a value, in candidate order. */
  function Defined(c: seq<Ticker>, vals: Month): seq<Ticker>
  {
    if c == [] then []
    else Defined(c[..|c| - 1], vals) + (if c[|c| - 1] in vals then [c[|c| - 1]] else [])
  }

  /** The candidates that have no value, in candidate order. */
  function Undefined(c: seq<Ticker>, vals: Month): seq<Ticker>
  {
    if c == [] then []
    else Undefined(c[..|c| - 1], vals) + (if c[|c| - 1] in vals then [] else [c[|c| - 1]])
  }

  /** Inserts `x` into the descending list `s` after every element whose value
      is at least that of `x`, so that earlier candidates win ties. */
  function Insert(x: Ticker, s: seq<Ticker>, vals: Month): (r: seq<Ticker>)
    requires x in vals && AllDefined(s, vals)
    ensures multiset(r) == multiset(s) + multiset{x}
  {
    if s == [] then [x]
    else if vals[s[0]] >= vals[x] then
      assert s == [s[0]] + s[1..];
      [s[0]] + Insert(x, s[1..], vals)
    else [x] + s
  }

  /** Stable descending insertion sort of tickers that all have values. */
  function SortDesc(s: seq<Ticker>, vals: Month): (r: seq<Ticker>)
    requires AllDefined(s, vals)
    ensures multiset(r) == multiset(s)
  {
    if s == [] then []
    else
      assert s == s[..|s| - 1] + [s[|s| - 1]];
      var sorted := SortDesc(s[..|s| - 1], vals);
      SubMultisetAllDefined(sorted, s, vals);
      Insert(s[|s| - 1], sorted, vals)
  }

  /** A ticker list drawn from valued tickers holds only valued tickers. */
  lemma {:induction false} SubMultisetAllDefined(a: seq<Ticker>, b: seq<Ticker>, vals: Month)
    requires multiset(a) <= multiset(b) && AllDefined(b, vals)
    ensures AllDefined(a, vals)
  {
    forall y | y in a
      ensures y in vals
    {
      assert y in multiset(a);
    }
  }

  /** An insertion into a list bounded by `b` of a value bounded by `b` stays bounded by `b`. */
  lemma {:induction false} InsertBounded(x: Ticker, s: seq<Ticker>, vals: Month, b: real)
    requires x in vals && AllDefined(s, vals)
    requires vals[x] <= b && forall y | y in s :: vals[y] <= b
    ensures forall y | y in Insert(x, s, vals) :: y in vals && vals[y] <= b
  {
    forall y | y in Insert(x, s, vals)
      ensures y in vals && vals[y] <= b
    {
      assert y in multiset(Insert(x, s, vals));
    }
  }

  /** Insertion keeps a descending list descending. */
  lemma {:induction false} InsertSorted(x: Ticker, s: seq<Ticker>, vals: Month)
    requires x in vals && AllDefined(s, vals) && SortedDesc(s, vals)
    ensures AllDefined(Insert(x, s, vals), vals) && SortedDesc(Insert(x, s, vals), vals)
  {
    if s != [] {
      var tail := s[1..];
      HeadBounds(s, vals);
      if vals[s[0]] >= vals[x] {
        InsertSorted(x, tail, vals);
        InsertBounded(x, tail, vals, vals[s[0]]);
        ConsSorted(s[0], Insert(x, tail, vals), vals);
      } else {
        ConsSorted(x, s, vals);
      }
    }
  }

  /** The head of a descending list bounds every element of it. */
  lemma {:induction false} HeadBounds(s: seq<Ticker>, vals: Month)
    requires s != [] && AllDefined(s, vals) && SortedDesc(s, vals)
    ensures forall y | y in s :: vals[y] <= vals[s[0]]
  {
    forall y | y in s
      ensures vals[y] <= vals[s[0]]
    {
      var k :| 0 <= k < |s| && s[k] == y;
    }
  }

  /** A value at least as large as every element of a descending list may be
      put in front of it. */
  lemma {:induction false} ConsSorted(h: Ticker, s: seq<Ticker>, vals: Month)
    requires h in vals && AllDefined(s, vals) && SortedDesc(s, vals)
    requires forall y | y in s :: vals[y] <= vals[h]
    ensures AllDefined([h] + s, vals) && SortedDesc([h] + s, vals)
  {
    var r := [h] + s;
    forall i, j | 0 <= i < j < |r|
      ensures vals[r[i]] >= vals[r[j]]
    {
      assert r[j] == s[j - 1];
      if i > 0 {
        assert r[i] == s[i - 1];
      }
    }
  }

  /** The sort yields a descending list. */
  lemma {:induction false} SortDescSorted(s: seq<Ticker>, vals: Month)
    requires AllDefined(s, vals)
    ensures AllDefined(SortDesc(s, vals), vals) && SortedDesc(SortDesc(s, vals), vals)
  {
    if s != [] {
      var p := s[..|s| - 1];
      assert s == p + [s[|s| - 1]];
      SortDescSorted(p, vals);
      InsertSorted(s[|s| - 1], SortDesc(p, vals), vals);
    }
  }

  /** All candidates in `nlargest` order, before truncation. */
  function Ranked(c: seq<Ticker>, vals: Month): seq<Ticker>
  {
    DefinedAllDefined(c, vals);
    SortDesc(Defined(c, vals), vals) + Undefined(c, vals)
  }

  /** The first `k` candidates of `Ranked`. */
  function NLargest(c: seq<Ticker>, vals: Month, k: nat): seq<Ticker>
  {
    var r := Ranked(c, vals);
    r[..Min(k, |r|)]
  }

  lemma {:induction false} DefinedAllDefined(c: seq<Ticker>, vals: Month)
    ensures AllDefined(Defined(c, vals), vals)
  {
    if c != [] {
      DefinedAllDefined(c[..|c| - 1], vals);
    }
  }

  /** Splitting the candidates into those with and without a value loses none. */
  lemma {:induction false} DefinedUndefinedSplit(c: seq<Ticker>, vals: Month)
    ensures multiset(Defined(c, vals)) + multiset(Undefined(c, vals)) == multiset(c)
    ensures forall x | x in Undefined(c, vals) :: x !in vals
  {
    DefinedUndefinedMultiset(c, vals);
    UndefinedHasNoValue(c, vals);
  }

  lemma {:induction false} DefinedUndefinedMultiset(c: seq<Ticker>, vals: Month)
    ensures multiset(Defined(c, vals)) + multiset(Undefined(c, vals)) == multiset(c)
  {
    if c != [] {
      var p := c[..|c| - 1];
      DefinedUndefinedMultiset(p, vals);
      assert c == p + [c[|c| - 1]];
    }
  }

  lemma {:induction false} UndefinedHasNoValue(c: seq<Ticker>, vals: Month)
    ensures forall x | x in Undefined(c, vals) :: x !in vals
  {
    if c != [] {
      UndefinedHasNoValue(c[..|c| - 1], vals);
    }
  }

  /** `Ranked` is a reordering of the candidates whose valued part comes first. */
  lemma {:induction false} RankedShape(c: seq<Ticker>, vals: Month)
    ensures multiset(Ranked(c, vals)) == multiset(c)
    ensures |Ranked(c, vals)| == |c|
  {
    DefinedUndefinedSplit(c, vals);
    DefinedAllDefined(c, vals);
    assert multiset(Ranked(c, vals)) == multiset(SortDesc(Defined(c, vals), vals)) + multiset(Undefined(c, vals));
    assert |multiset(Ranked(c, vals))| == |multiset(c)|;
  }

  /** `nlargest(k)` returns min(k, |c|) of the candidates, takes nothing that
      is not a candidate, and repeats no ticker when the candidates do not. */
  lemma {:induction false} NLargestFromCandidates(c: seq<Ticker>, vals: Month, k: nat)
    ensures |NLargest(c, vals, k)| == Min(k, |c|)
    ensures multiset(NLargest(c, vals, k)) <= multiset(c)
    ensures forall x | x in NLargest(c, vals, k) :: x in c
    ensures NoDup(c) ==> NoDup(NLargest(c, vals, k))
  {
    RankedShape(c, vals);
    var r := Ranked(c, vals);
    var m := Min(k, |r|);
    assert r == r[..m] + r[m..];
    assert multiset(r[..m]) <= multiset(r);
    forall x | x in r[..m]
      ensures x in c
    {
      assert x in multiset(r[..m]);
    }
  }

  /** In the result, valued tickers come first and in descending order: a
      valued ticker is preceded only by valued tickers that are at least as large. */
  lemma {:induction false} NLargestOrder(c: seq<Ticker>, vals: Month, k: nat)
    ensures forall i, j | 0 <= i < j < |NLargest(c, vals, k)| && NLargest(c, vals, k)[j] in vals ::
      NLargest(c, vals, k)[i] in vals && vals[NLargest(c, vals, k)[i]] >= vals[NLargest(c, vals, k)[j]]
  {
    DefinedUndefinedSplit(c, vals);
    DefinedAllDefined(c, vals);
    SortDescSorted(Defined(c, vals), vals);
    var s := SortDesc(Defined(c, vals), vals);
    var u := Undefined(c, vals);
    var r := NLargest(c, vals, k);
    forall i, j | 0 <= i < j < |r| && r[j] in vals
      ensures r[i] in vals && vals[r[i]] >= vals[r[j]]
    {
      assert r[j] == (s + u)[j];
      assert j < |s|;
      assert r[i] == s[i] && r[j] == s[j];
    }
  }

  /** Dominance: a candidate with a value that was not selected is no larger
      than any selected ticker, and every selected ticker then has a value. */
  lemma {:induction false} NLargestDominates(c: seq<Ticker>, vals: Month, k: nat)
    ensures Dominates(NLargest(c, vals, k), c, vals)
  {
    forall x, y | x in NLargest(c, vals, k) && y in c && y in vals && y !in NLargest(c, vals, k)
      ensures x in vals && vals[x] >= vals[y]
    {
      DominatesOne(c, vals, k, x, y);
    }
  }

  /** Every candidate with a value that is not in `kept` is no larger than
      any ticker of `kept`, and every ticker of `kept` then has a value. */
  ghost predicate Dominates(kept: seq<Ticker>, cands: seq<Ticker>, vals: Month)
  {
    forall x, y | x in kept && y in cands && y in vals && y !in kept :: x in vals && vals[x] >= vals[y]
  }

  lemma {:induction false} DominatesOne(c: seq<Ticker>, vals: Month, k: nat, x: Ticker, y: Ticker)
    requires x in NLargest(c, vals, k) && y in c && y in vals && y !in NLargest(c, vals, k)
    ensures x in vals && vals[x] >= vals[y]
  {
    DefinedUndefinedSplit(c, vals);
    DefinedAllDefined(c, vals);
    var d := Defined(c, vals);
    var s := SortDesc(d, vals);
    SortDescSorted(d, vals);
    var u := Undefined(c, vals);
    var r := NLargest(c, vals, k);
    assert r == (s + u)[..|r|];
    assert y in multiset(c);
    assert y !in multiset(u);
    assert y in multiset(s);
    PrefixDominates(s, u, vals, |r|, x, y);
  }

  /** Within a descending list `s` followed by anything, a prefix that misses
      `y` of `s` holds only elements of `s` at least as large as `y`. */
  lemma {:induction false} PrefixDominates(s: seq<Ticker>, u: seq<Ticker>, vals: Month, m: nat, x: Ticker, y: Ticker)
    requires AllDefined(s, vals) && SortedDesc(s, vals) && m <= |s + u|
    requires x in (s + u)[..m] && y in s && y !in (s + u)[..m]
    ensures x in vals && vals[x] >= vals[y]
  {
    var r := (s + u)[..m];
    var jy :| 0 <= jy < |s| && s[jy] == y;
    assert forall i | 0 <= i < m && i < |s| :: r[i] == s[i];
    var ix :| 0 <= ix < m && r[ix] == x;
    assert r[ix] == s[ix];
  }

  lemma {:induction false} DefinedOfAllDefined(s: seq<Ticker>, vals: Month)
    requires AllDefined(s, vals)
    ensures Defined(s, vals) == s
  {
    if s != [] {
      DefinedOfAllDefined(s[..|s| - 1], vals);
      assert s == s[..|s| - 1] + [s[|s| - 1]];
    }
  }

  lemma {:induction false} DefinedOfNoneDefined(s: seq<Ticker>, vals: Month)
    requires forall x | x in s :: x !in vals
    ensures Defined(s, vals) == []
  {
    if s != [] {
      DefinedOfNoneDefined(s[..|s| - 1], vals);
    }
  }

  lemma {:induction false} DefinedAppend(a: seq<Ticker>, b: seq<Ticker>, vals: Month)
    ensures Defined(a + b, vals) == Defined(a, vals) + Defined(b, vals)
  {
    if b == [] {
      assert a + b == a;
    } else {
      var p := b[..|b| - 1];
      assert (a + b)[..|a + b| - 1] == a + p;
      DefinedAppend(a, p, vals);
    }
  }

  /** The number of valued tickers selected is min(k, number of valued candidates). */
  lemma {:induction false} NLargestDefinedCount(c: seq<Ticker>, vals: Month, k: nat)
    ensures |Defined(NLargest(c, vals, k), vals)| == Min(k, |Defined(c, vals)|)
  {
    DefinedUndefinedSplit(c, vals);
    DefinedAllDefined(c, vals);
    var d := Defined(c, vals);
    var s := SortDesc(d, vals);
    var u := Undefined(c, vals);
    assert |s| == |d| by {
      assert |multiset(s)| == |multiset(d)|;
    }
    SubMultisetAllDefined(s, d, vals);
    if k <= |s| {
      TakeSorted(s, u, vals, k);
    } else {
      TakeSortedAndMore(s, u, vals, k);
    }
  }

  lemma {:induction false} TakeSorted(s: seq<Ticker>, u: seq<Ticker>, vals: Month, k: nat)
    requires AllDefined(s, vals) && k <= |s|
    ensures Defined((s + u)[..Min(k, |s + u|)], vals) == s[..k]
  {
    assert (s + u)[..Min(k, |s + u|)] == s[..k];
    DefinedOfAllDefined(s[..k], vals);
  }

  lemma {:induction false} TakeSortedAndMore(s: seq<Ticker>, u: seq<Ticker>, vals: Month, k: nat)
    requires AllDefined(s, vals) && |s| < k
    requires forall x | x in u :: x !in vals
    ensures Defined((s + u)[..Min(k, |s + u|)], vals) == s
  {
    var m := Min(k, |s + u|);
    var v := u[..m - |s|];
    assert (s + u)[..m] == s + v;
    DefinedAppend(s, v, vals);
    DefinedOfAllDefined(s, vals);
    DefinedOfNoneDefined(v, vals);
  }
}
