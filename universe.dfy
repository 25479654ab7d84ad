/** The ticker universe: the S&P 500 list followed by the Nasdaq-100 list,
    each ticker kept once, at its first occurrence (Momentum/momentum.py:25-31). */
module Universe {
  import opened Common

  /** The list built by walking `s` from left to right and appending every
      ticker that the list does not hold yet. */
  function Dedup(s: seq<Ticker>): seq<Ticker>
  {
    if s == [] then []
    else
      var d := Dedup(s[..|s| - 1]);
      if s[|s| - 1] in d then d else d + [s[|s| - 1]]
  }

  /** The elements of `s` that do not occur in `excluded`, in their order in `s`. */
  function Absent(s: seq<Ticker>, excluded: seq<Ticker>): seq<Ticker>
  {
    if s == [] then []
    else Absent(s[..|s| - 1], excluded) + (if s[|s| - 1] in excluded then [] else [s[|s| - 1]])
  }

  /** Position of the first occurrence of `x` in `s`. */
  function FirstIndex(s: seq<Ticker>, x: Ticker): (i: nat)
    requires x in s
    ensures i < |s| && s[i] == x && x !in s[..i]
  {
    if s[0] == x then 0 else 1 + FirstIndex(s[1..], x)
  }

  /** The merge loop of `get_data`: every S&P ticker not yet present is
      appended, then every Nasdaq ticker not yet present. */
  method MergeTickers(sp: seq<Ticker>, nasdaq: seq<Ticker>) returns (tickers: seq<Ticker>)
    ensures tickers == Dedup(sp + nasdaq)
    ensures NoDup(tickers)
    ensures forall x :: x in tickers <==> x in sp || x in nasdaq
    ensures tickers == Dedup(sp) + Absent(Dedup(nasdaq), sp)
    ensures InFirstOccurrenceOrder(tickers, sp + nasdaq)
  {
    tickers := [];
    for i := 0 to |sp|
      invariant tickers == Dedup(sp[..i])
    {
      assert sp[..i + 1][..i] == sp[..i];
      if sp[i] !in tickers {
        tickers := tickers + [sp[i]];
      }
    }
    assert sp == sp + nasdaq[..0];
    for i := 0 to |nasdaq|
      invariant tickers == Dedup(sp + nasdaq[..i])
    {
      assert (sp + nasdaq[..i + 1])[..|sp| + i] == sp + nasdaq[..i];
      if nasdaq[i] !in tickers {
        tickers := tickers + [nasdaq[i]];
      }
    }
    assert nasdaq[..|nasdaq|] == nasdaq;
    DedupNoDup(sp + nasdaq);
    DedupElements(sp + nasdaq);
    DedupAppend(sp, nasdaq);
    DedupFirstOccurrence(sp + nasdaq);
  }

  /** The merged list holds exactly the tickers of the inputs. */
  lemma {:induction false} DedupElements(s: seq<Ticker>)
    ensures forall x :: x in Dedup(s) <==> x in s
  {
    if s != [] {
      var p := s[..|s| - 1];
      DedupElements(p);
      assert s == p + [s[|s| - 1]];
    }
  }

  /** The merged list holds no ticker twice. */
  lemma {:induction false} DedupNoDup(s: seq<Ticker>)
    ensures NoDup(Dedup(s))
  {
    if s != [] {
      var p := s[..|s| - 1];
      DedupNoDup(p);
      var d := Dedup(p);
      var y := s[|s| - 1];
      if y !in d {
        assert multiset(d + [y]) == multiset(d) + multiset{y};
        assert multiset(d)[y] == 0;
      }
    }
  }

  /** Appending `y` to `s` does not move the first occurrence of a ticker already in `s`. */
  lemma {:induction false} FirstIndexSnoc(s: seq<Ticker>, y: Ticker, x: Ticker)
    requires x in s
    ensures FirstIndex(s + [y], x) == FirstIndex(s, x)
  {
    if s[0] != x {
      assert (s + [y])[1..] == s[1..] + [y];
      FirstIndexSnoc(s[1..], y, x);
    }
  }

  /** Every ticker of `r` occurs in `s`, and a ticker placed before another
      one in `r` first occurs earlier in `s`. */
  ghost predicate InFirstOccurrenceOrder(r: seq<Ticker>, s: seq<Ticker>)
  {
    (forall x | x in r :: x in s) &&
    forall i, j | 0 <= i < j < |r| :: r[i] in s && r[j] in s && FirstIndex(s, r[i]) < FirstIndex(s, r[j])
  }

  /** The merged list keeps first-occurrence order. */
  lemma {:induction false} DedupFirstOccurrence(s: seq<Ticker>)
    ensures InFirstOccurrenceOrder(Dedup(s), s)
  {
    DedupElements(s);
    if s != [] {
      var p := s[..|s| - 1];
      var y := s[|s| - 1];
      assert s == p + [y];
      DedupFirstOccurrence(p);
      DedupElements(p);
      var d := Dedup(p);
      var r := Dedup(s);
      forall x | x in p
        ensures FirstIndex(s, x) == FirstIndex(p, x)
      {
        FirstIndexSnoc(p, y, x);
      }
      if y !in d {
        assert r == d + [y];
        assert FirstIndex(s, y) == |p| by {
          assert s[..|p|] == p;
        }
        forall i, j | 0 <= i < j < |r|
          ensures r[i] in s && r[j] in s && FirstIndex(s, r[i]) < FirstIndex(s, r[j])
        {
          assert r[i] == d[i] && r[i] in p;
          if j < |d| {
            assert r[j] == d[j];
          }
        }
      } else {
        assert r == d;
        forall i, j | 0 <= i < j < |r|
          ensures r[i] in s && r[j] in s && FirstIndex(s, r[i]) < FirstIndex(s, r[j])
        {
          assert r[i] in p && r[j] in p;
        }
      }
    }
  }

  /** Filtering distributes over appending one element. */
  lemma {:induction false} AbsentSnoc(s: seq<Ticker>, y: Ticker, excluded: seq<Ticker>)
    ensures Absent(s + [y], excluded) == Absent(s, excluded) + (if y in excluded then [] else [y])
  {
    assert (s + [y])[..|s|] == s;
  }

  /** S&P tickers come first, in their own first-occurrence order, followed by
      the Nasdaq tickers that are not S&P tickers, in theirs. */
  lemma {:induction false} DedupAppend(a: seq<Ticker>, b: seq<Ticker>)
    ensures Dedup(a + b) == Dedup(a) + Absent(Dedup(b), a)
  {
    if b == [] {
      assert a + b == a;
    } else {
      var p := b[..|b| - 1];
      var y := b[|b| - 1];
      assert b == p + [y];
      assert (a + b)[..|a + b| - 1] == a + p;
      DedupAppend(a, p);
      DedupElements(a + p);
      DedupElements(p);
      var db := Dedup(p);
      if y in db {
        assert y in Dedup(a + p);
      } else if y in a {
        assert y in Dedup(a + p);
        AbsentSnoc(db, y, a);
      } else {
        assert y !in Dedup(a + p);
        AbsentSnoc(db, y, a);
      }
    }
  }

  /** Every ticker of `Absent(s, excluded)` is in `s` and not in `excluded`. */
  lemma {:induction false} AbsentElements(s: seq<Ticker>, excluded: seq<Ticker>)
    ensures forall x :: x in Absent(s, excluded) <==> x in s && x !in excluded
  {
    if s != [] {
      var p := s[..|s| - 1];
      AbsentElements(p, excluded);
      assert s == p + [s[|s| - 1]];
    }
  }
}
