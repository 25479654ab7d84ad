/** The momentum strategy (Momentum/momentum.py:10-121): the three-stage
    momentum cascade that picks ten tickers for a month, the backtest that
    scores every month's pick by the following month, and the capital
    projection over the returns of the backtest. */
module Momentum {
  import opened Common
  import opened Universe
  import opened Rolling
  import opened Ranking
  import opened Performance

  /** Window lengths, in months, of the three rolling returns. */
  const LongWindow: nat := 12
  const MidWindow: nat := 6
  const ShortWindow: nat := 3

  /** How many tickers each stage of the cascade keeps. */
  const LongCount: nat := 50
  const MidCount: nat := 30
  const ShortCount: nat := 10

  /** First stage: the 50 universe tickers with the largest 12-month return. */
  function Top50(u: seq<Ticker>, r12: Month): seq<Ticker>
  {
    NLargest(u, r12, LongCount)
  }

  /** Second stage: among those, the 30 with the largest 6-month return. */
  function Top30(u: seq<Ticker>, r12: Month, r6: Month): seq<Ticker>
  {
    NLargest(Top50(u, r12), r6, MidCount)
  }

  /** Third stage: among those, the 10 with the largest 3-month return. */
  function Cascade(u: seq<Ticker>, r12: Month, r6: Month, r3: Month): seq<Ticker>
  {
    NLargest(Top30(u, r12, r6), r3, ShortCount)
  }

  /** The ten tickers chosen at month `i` of the monthly table. */
  function TopAt(mtl: seq<Month>, u: seq<Ticker>, i: nat): seq<Ticker>
    requires i < |mtl|
  {
    Cascade(u, RollingAt(mtl, LongWindow, i), RollingAt(mtl, MidWindow, i), RollingAt(mtl, ShortWindow, i))
  }

  /** Number of backtest samples for a table of `n` months: every month but the last. */
  function SampleCount(n: nat): nat
  {
    if n == 0 then 0 else n - 1
  }

  /** The score of the pick made at month `k`: the mean multiplier of the
      picked tickers over month `k + 1`. */
  function SampleAt(mtl: seq<Month>, u: seq<Ticker>, k: nat): Option<real>
    requires k + 1 < |mtl|
  {
    Mean(TopAt(mtl, u, k), mtl[k + 1])
  }

  /** The values of `f` at 0, 1, ..., k - 1, in that order. */
  function Tabulate<T>(f: nat --> T, k: nat): (r: seq<T>)
    requires forall i | 0 <= i < k :: f.requires(i)
    ensures |r| == k
  {
    if k == 0 then [] else Tabulate(f, k - 1) + [f(k - 1)]
  }

  /** Entry `j` of a tabulation is the value of `f` at `j`. */
  lemma {:induction false} TabulateAt<T>(f: nat --> T, k: nat, j: nat)
    requires forall i | 0 <= i < k :: f.requires(i)
    requires j < k
    ensures Tabulate(f, k)[j] == f(j)
  {
    if j < k - 1 {
      TabulateAt(f, k - 1, j);
      assert (Tabulate(f, k - 1) + [f(k - 1)])[j] == Tabulate(f, k - 1)[j];
    }
  }

  /** The score of each month that has a following month. */
  function Scorer(mtl: seq<Month>, u: seq<Ticker>): nat --> Option<real>
  {
    (k: nat) requires k + 1 < |mtl| => SampleAt(mtl, u, k)
  }

  /** The scores of every month but the last, in month order. */
  function Samples(mtl: seq<Month>, u: seq<Ticker>): (r: seq<Option<real>>)
    ensures |r| == SampleCount(|mtl|)
  {
    Tabulate(Scorer(mtl, u), SampleCount(|mtl|))
  }

  /** The backtest has one score per month but the last; score `k` is the
      mean multiplier, over month `k + 1`, of the pick made at month `k`. */
  lemma {:induction false} SamplesAt(mtl: seq<Month>, u: seq<Ticker>, k: nat)
    requires k + 1 < |mtl|
    ensures |Samples(mtl, u)| == |mtl| - 1
    ensures Samples(mtl, u)[k] == Mean(TopAt(mtl, u, k), mtl[k + 1])
  {
    TabulateAt(Scorer(mtl, u), SampleCount(|mtl|), k);
  }

  /** The scores net of the monthly cost, one for one. */
  function NetSeries(scores: seq<Option<real>>): (r: seq<Option<real>>)
    ensures |r| == |scores|
  {
    seq(|scores|, k requires 0 <= k < |scores| => Net(scores[k]))
  }

  /** Net sample `k` is the score of the pick at month `k`, less the 0.01
      monthly cost; it has no value when the score has none. */
  lemma {:induction false} NetSampleAt(mtl: seq<Month>, u: seq<Ticker>, k: nat)
    requires k + 1 < |mtl|
    ensures |NetSeries(Samples(mtl, u))| == |mtl| - 1
    ensures var m := Mean(TopAt(mtl, u, k), mtl[k + 1]);
      NetSeries(Samples(mtl, u))[k] == if m.Some? then Some(m.value - 0.01) else None
  {
    SamplesAt(mtl, u, k);
  }

  /** The stages are nested inside the universe, each keeps min(k, |universe|)
      tickers, and none repeats a ticker when the universe does not. */
  lemma {:induction false} CascadeNested(u: seq<Ticker>, r12: Month, r6: Month, r3: Month)
    ensures forall x | x in Cascade(u, r12, r6, r3) :: x in Top30(u, r12, r6)
    ensures forall x | x in Top30(u, r12, r6) :: x in Top50(u, r12)
    ensures forall x | x in Top50(u, r12) :: x in u
    ensures |Top50(u, r12)| == Min(50, |u|)
    ensures |Top30(u, r12, r6)| == Min(30, |u|)
    ensures |Cascade(u, r12, r6, r3)| == Min(10, |u|)
    ensures NoDup(u) ==> NoDup(Cascade(u, r12, r6, r3))
  {
    NLargestFromCandidates(u, r12, LongCount);
    NLargestFromCandidates(Top50(u, r12), r6, MidCount);
    NLargestFromCandidates(Top30(u, r12, r6), r3, ShortCount);
  }

  /** Each stage keeps as many tickers with a value as it can: min(k, number
      of its candidates that have a value); the rest of it is made of
      candidates without a value. */
  lemma {:induction false} CascadeDefinedCounts(u: seq<Ticker>, r12: Month, r6: Month, r3: Month)
    ensures |Defined(Top50(u, r12), r12)| == Min(50, |Defined(u, r12)|)
    ensures |Defined(Top30(u, r12, r6), r6)| == Min(30, |Defined(Top50(u, r12), r6)|)
    ensures |Defined(Cascade(u, r12, r6, r3), r3)| == Min(10, |Defined(Top30(u, r12, r6), r3)|)
  {
    NLargestDefinedCount(u, r12, LongCount);
    NLargestDefinedCount(Top50(u, r12), r6, MidCount);
    NLargestDefinedCount(Top30(u, r12, r6), r3, ShortCount);
  }

  /** At every stage, a candidate with a value that was left out is no
      larger than any ticker that was kept. */
  lemma {:induction false} CascadeDominance(u: seq<Ticker>, r12: Month, r6: Month, r3: Month)
    ensures Dominates(Top50(u, r12), u, r12)
    ensures Dominates(Top30(u, r12, r6), Top50(u, r12), r6)
    ensures Dominates(Cascade(u, r12, r6, r3), Top30(u, r12, r6), r3)
  {
    NLargestDominates(u, r12, LongCount);
    NLargestDominates(Top50(u, r12), r6, MidCount);
    NLargestDominates(Top30(u, r12, r6), r3, ShortCount);
  }

  /** The ten tickers are listed best 3-month return first. */
  lemma {:induction false} CascadeOrder(u: seq<Ticker>, r12: Month, r6: Month, r3: Month)
    ensures forall i, j | 0 <= i < j < |Cascade(u, r12, r6, r3)| && Cascade(u, r12, r6, r3)[j] in r3 ::
      Cascade(u, r12, r6, r3)[i] in r3 && r3[Cascade(u, r12, r6, r3)[i]] >= r3[Cascade(u, r12, r6, r3)[j]]
  {
    NLargestOrder(Top30(u, r12, r6), r3, ShortCount);
  }

  /** The pick at month `i` uses no month after `i`. */
  lemma {:induction false} TopNoLookAhead(mtl: seq<Month>, other: seq<Month>, u: seq<Ticker>, i: nat)
    requires i < |mtl| && i < |other|
    requires mtl[..i + 1] == other[..i + 1]
    ensures TopAt(mtl, u, i) == TopAt(other, u, i)
  {
    RollingNoLookAhead(mtl, other, LongWindow, i);
    RollingNoLookAhead(mtl, other, MidWindow, i);
    RollingNoLookAhead(mtl, other, ShortWindow, i);
  }

  /** The score of month `k` uses no month after `k + 1`. */
  lemma {:induction false} SampleNoLookAhead(mtl: seq<Month>, other: seq<Month>, u: seq<Ticker>, k: nat)
    requires k + 1 < |mtl| && k + 1 < |other|
    requires mtl[..k + 2] == other[..k + 2]
    ensures SampleAt(mtl, u, k) == SampleAt(other, u, k)
  {
    assert mtl[..k + 1] == mtl[..k + 2][..k + 1];
    assert other[..k + 1] == other[..k + 2][..k + 1];
    TopNoLookAhead(mtl, other, u, k);
    assert mtl[k + 1] == mtl[..k + 2][k + 1];
    assert other[k + 1] == other[..k + 2][k + 1];
  }

  /** Every multiplier of `month` lies in [lo, hi]. */
  predicate WithinRange(month: Month, lo: real, hi: real)
  {
    forall t | t in month :: lo <= month[t] <= hi
  }

  /** A score exists exactly when one of the ten picked tickers has a value in
      the following month, and it lies within the range of that month's
      multipliers. */
  lemma {:induction false} SampleBounds(mtl: seq<Month>, u: seq<Ticker>, k: nat, lo: real, hi: real)
    requires k + 1 < |mtl|
    requires WithinRange(mtl[k + 1], lo, hi)
    ensures SampleAt(mtl, u, k).Some? <==> exists t :: t in TopAt(mtl, u, k) && t in mtl[k + 1]
    ensures SampleAt(mtl, u, k).Some? ==> lo <= SampleAt(mtl, u, k).value <= hi
  {
    MeanBounds(TopAt(mtl, u, k), mtl[k + 1], lo, hi);
  }

  /** The strategy object: the ticker universe, the monthly multiplier table,
      its rolling returns and the monthly returns of the backtest. */
  class MomentumStrategy {
    var universe: seq<Ticker>
    var mtlData: seq<Month>
    var ret12: seq<Month>
    var ret6: seq<Month>
    var ret3: seq<Month>
    var monProdReturns: seq<Option<real>>
    var monCumReturns: seq<Option<real>>

    /** The rolling tables are those of the monthly table. */
    ghost predicate Valid()
      reads this
    {
      ret12 == RollingTable(mtlData, LongWindow) &&
      ret6 == RollingTable(mtlData, MidWindow) &&
      ret3 == RollingTable(mtlData, ShortWindow)
    }

    /** Builds the universe from the two ticker lists, selects the tickers
        for `lastMonth` and runs the backtest. The monthly table stands for
        the downloaded and resampled prices. */
    constructor (sp: seq<Ticker>, nasdaq: seq<Ticker>, monthly: seq<Month>, lastMonth: nat)
      requires lastMonth < |monthly|
      ensures Valid()
      ensures universe == Dedup(sp + nasdaq) && NoDup(universe)
      ensures mtlData == monthly
      ensures monProdReturns == NetSeries(Samples(monthly, universe))
      ensures monCumReturns == CumProd(monProdReturns)
    {
      var tickers := MergeTickers(sp, nasdaq);
      universe := tickers;
      mtlData := monthly;
      ret12, ret6, ret3 := [], [], [];
      monProdReturns, monCumReturns := [], [];
      new;
      assert universe == Dedup(sp + nasdaq) && NoDup(universe);
      var top10 := GetTopPerformers(lastMonth);
      Backtest();
    }

    /** Computes the rolling tables and returns the pick for `lastMonth`. */
    method GetTopPerformers(lastMonth: nat) returns (top10: seq<Ticker>)
      requires lastMonth < |mtlData|
      modifies this`ret12, this`ret6, this`ret3
      ensures Valid()
      ensures top10 == TopAt(mtlData, universe, lastMonth)
    {
      var r12 := RollingTable(mtlData, LongWindow);
      var r6 := RollingTable(mtlData, MidWindow);
      var r3 := RollingTable(mtlData, ShortWindow);
      top10 := NLargest(NLargest(NLargest(universe, r12[lastMonth], LongCount), r6[lastMonth], MidCount), r3[lastMonth], ShortCount);
      ret12, ret6, ret3 := r12, r6, r3;
    }

    /** The pick at month `k`, read from the stored rolling tables. */
    function TopBacktest(k: nat): (top10: seq<Ticker>)
      reads this
      requires Valid() && k < |mtlData|
      ensures top10 == TopAt(mtlData, universe, k)
      ensures |top10| == Min(10, |universe|)
      ensures forall x | x in top10 :: x in universe
    {
      CascadeNested(universe, ret12[k], ret6[k], ret3[k]);
      NLargest(NLargest(NLargest(universe, ret12[k], LongCount), ret6[k], MidCount), ret3[k], ShortCount)
    }

    /** The score of the pick at month `k`: its mean over month `k + 1`. */
    function Performance(k: nat): (r: Option<real>)
      reads this
      requires Valid() && k + 1 < |mtlData|
      ensures r == SampleAt(mtlData, universe, k)
    {
      Mean(TopBacktest(k), mtlData[k + 1])
    }

    /** The loop of the backtest: the score of every month but the last, in
        month order. */
    method MonthlyScores() returns (scores: seq<Option<real>>)
      requires Valid()
      ensures scores == Samples(mtlData, universe)
    {
      scores := [];
      var count := SampleCount(|mtlData|);
      for k := 0 to count
        invariant scores == Tabulate(Scorer(mtlData, universe), k)
      {
        scores := scores + [Performance(k)];
      }
    }

    /** Scores every month but the last, then stores the net returns and
        their running product. */
    method Backtest()
      requires Valid()
      modifies this`monProdReturns, this`monCumReturns
      ensures Valid()
      ensures monProdReturns == NetSeries(Samples(mtlData, universe))
      ensures monCumReturns == CumProd(monProdReturns)
    {
      var scores := MonthlyScores();
      monProdReturns := NetSeries(scores);
      monCumReturns := CumProd(monProdReturns);
    }

    /** Projects `startingCapital` over the backtest. Without injection the
        capital is grown by the last cumulative return; with one, it is
        compounded month by month from the second net return on, adding the
        injection after each month. */
    method CapitalReturn(startingCapital: real, injection: int) returns (outcome: CapitalOutcome)
      ensures outcome == CapitalOf(startingCapital, injection, monProdReturns, monCumReturns)
    {
      if injection == 0 {
        if |monCumReturns| == 0 {
          return EmptyCumulative;
        }
        var last := monCumReturns[|monCumReturns| - 1];
        var money := if last.Some? then Some(Scale(startingCapital, last.value)) else None;
        return ReturnsUnbound(money);
      }
      var net := monProdReturns;
      var money := Some(startingCapital);
      if |net| > 0 {
        for i := 1 to |net|
          invariant money == Accumulate(Some(startingCapital), net[1..i], injection as real)
        {
          assert net[1..i + 1][..i - 1] == net[1..i];
          money := Compound(money, net[i], injection as real);
        }
        assert net[1..|net|] == net[1..];
      }
      var skipped := if |net| == 0 then [] else net[1..];
      assert money == Accumulate(Some(startingCapital), skipped, injection as real);
      outcome := Report(money, startingCapital + RepeatedLength(|net|, injection) as real);
    }
  }
}
