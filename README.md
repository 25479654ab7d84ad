# Momentum backtester — a Dafny model

This project models the selection and bookkeeping logic of the momentum
strategy in `Momentum/momentum.py` (class `momentum_stratergy`):

- **Ticker universe** (`Universe`): the S&P 500 list followed by the
  Nasdaq-100 list. A loop appends each ticker that is not there yet.
- **Rolling returns** (`Rolling`): `df.rolling(n).apply(np.prod)` over the
  monthly multiplier table. A row has a value for a ticker only when `n`
  months of history exist and every month of the window has a value.
- **The cascade** (`Ranking`, `Momentum`). It keeps the 50 tickers with the
  largest 12-month return, then 30 of those by 6-month return, then 10 of
  those by 3-month return, using pandas' `nlargest` with `keep='first'`.
- **The backtest** (`Performance`, `Momentum`). For every month but the last,
  the basket chosen at that month is scored by its mean multiplier over the
  following month. The score is reduced by the 0.01 monthly cost, and the
  running product is taken with `cumprod`.
- **The capital projection** (`Performance`, `Momentum`). It covers both
  branches of `capital_return`, including the two ways the zero-injection
  branch fails.

The monthly table is a `seq<Month>`, where `Month = map<Ticker, real>`. A
ticker missing from a month's map stands for pandas' NaN. Scores and returns
are `Option<real>`, with `None` standing for NaN. Arithmetic is over `real`.

The class `Momentum.MomentumStrategy` keeps the fields the Python object
keeps: the universe, the monthly table, the three rolling tables and the
two return series.

- The constructor runs the same steps as `__init__`.
- `GetTopPerformers` and `Backtest` update the fields in place.
- `MonthlyScores` is the backtest loop.
- `CapitalReturn` is the capital loop.

Each of these methods is proved against a specification function, and the
properties are proved as lemmas about those functions.

### How pandas behaviour is modelled

- `nlargest(k)` on a row that has NaN entries: pandas sorts the defined values
  in descending order, keeping candidate order among equal values. It then
  appends the NaN candidates in candidate order and keeps the first `k`. Each
  stage therefore returns `min(k, number of candidates)` tickers, not
  `min(k, number of defined candidates)`. The number of those tickers that
  have a value is `min(k, number of defined candidates)`
  (`Ranking.NLargestDefinedCount`).
- `mean(axis=1)` skips NaN. A basket with no values in the following month
  scores NaN (`None`).
- `cumprod` skips NaN. A NaN entry stays NaN, and the running product carries
  on over the defined entries.
- `len(returns * injection)` is `len(returns) * injection` for a positive
  injection and 0 otherwise (`Performance.RepeatedLength`).
- When `injection == 0`, line 110 reads the last cumulative return. It fails
  with an `IndexError` when that series is empty
  (`CapitalOutcome.EmptyCumulative`). Otherwise the capital is computed, and
  line 120 then fails because `returns` is only assigned in the other branch
  (`CapitalOutcome.ReturnsUnbound`). The model keeps both failures and does
  not correct them.
- The "last month" chosen from `date.today()` is an index into the monthly
  table.

## Model

| member | source | states |
|---|---|---|
| Universe.MergeTickers | Momentum/momentum.py:25-31 | The merged list is the left-to-right deduplication of `sp + nasdaq`. It has no duplicates and holds exactly the tickers of both lists. It is the deduplicated S&P list followed by the Nasdaq tickers not in the S&P list, and it keeps first-occurrence order. |
| Universe.DedupElements | Momentum/momentum.py:25-31 | A ticker is in the merged list if and only if it is in the input. |
| Universe.DedupNoDup | Momentum/momentum.py:27-28 | The merged list holds no ticker twice. |
| Universe.DedupFirstOccurrence | Momentum/momentum.py:25-31 | Tickers appear in the order of their first occurrence in the input. |
| Universe.DedupAppend | Momentum/momentum.py:25-31 | S&P tickers come first in their own order, followed by the Nasdaq tickers that are not S&P tickers, in theirs. |
| Universe.AbsentElements | Momentum/momentum.py:29-31 | The Nasdaq part holds exactly the Nasdaq tickers that are not S&P tickers. |
| Universe.FirstIndexSnoc | Momentum/momentum.py:27-31 | Appending a ticker does not move the first occurrence of one already present. |
| Rolling.RollingTable | Momentum/momentum.py:47-48 | The rolling table has one row per month, and its first `n - 1` rows hold no value. |
| Rolling.RollingAtValue | Momentum/momentum.py:47-48 | Row `i` has a value for `t` if and only if `i >= n - 1` and months `i-n+1..i` all have one. That value is the product of those `n` multipliers. |
| Rolling.WindowProductIsProduct | Momentum/momentum.py:47-48 | The window product equals the product of the window's multipliers, oldest first. |
| Rolling.WindowSplit | Momentum/momentum.py:47-48 | Splitting a window in two splits its product. |
| Rolling.RollingSplit | Momentum/momentum.py:57 | An `(a+b)`-month value is the `a`-month value `b` months earlier times the current `b`-month value. For example, the 12-month value is the 6-month value six months ago times the current 6-month value. |
| Rolling.RollingDefined | Momentum/momentum.py:47-48 | A value in row `i` implies the window is complete and defined. |
| Rolling.RollingValue | Momentum/momentum.py:47-48 | A complete, defined window gives row `i` a value equal to its product. |
| Rolling.RollingSlide | Momentum/momentum.py:47-48 | Moving one month on drops the oldest multiplier and takes in the newest. |
| Rolling.RollingNested | Momentum/momentum.py:57 | A shorter window has a value wherever a longer one does. |
| Rolling.RollingNoLookAhead | Momentum/momentum.py:47-48 | Row `i` depends only on months `0..i`. |
| Rolling.WindowSame | Momentum/momentum.py:47-48 | Equal months give equal window products. |
| Ranking.NLargestFromCandidates | Momentum/momentum.py:68-70 | `nlargest(k)` returns `min(k, |candidates|)` tickers, all drawn from the candidates, and repeats none when the candidates repeat none. |
| Ranking.NLargestOrder | Momentum/momentum.py:68-70 | Tickers with a value come first, in descending order of value. |
| Ranking.NLargestDominates | Momentum/momentum.py:83-85 | A candidate with a value that was not selected is no larger than any selected ticker, and every selected ticker then has a value. |
| Ranking.DominatesOne | Momentum/momentum.py:83-85 | The dominance property above, for one selected and one rejected ticker. |
| Ranking.PrefixDominates | Momentum/momentum.py:83-85 | A prefix of a descending list that misses `y` holds only elements at least as large as `y`. |
| Ranking.NLargestDefinedCount | Momentum/momentum.py:68-70 | The number of selected tickers with a value is `min(k, number of candidates with a value)`. |
| Ranking.RankedShape | Momentum/momentum.py:68-70 | The ranking is a permutation of the candidates. |
| Ranking.SortDescSorted | Momentum/momentum.py:68-70 | Sorting by value yields a descending list. |
| Ranking.InsertSorted | Momentum/momentum.py:68-70 | Insertion keeps a descending list descending. |
| Ranking.Insert | Momentum/momentum.py:68-70 | Insertion adds exactly one occurrence of the ticker. |
| Ranking.SortDesc | Momentum/momentum.py:68-70 | The sort is a permutation of its input. |
| Momentum.CascadeNested | Momentum/momentum.py:82-86 | top10 ⊆ top30 ⊆ top50 ⊆ universe, with sizes `min(10/30/50, |universe|)`. There are no duplicates when the universe has none. |
| Momentum.CascadeDefinedCounts | Momentum/momentum.py:82-86 | Each stage keeps `min(k, number of candidates with a value)` tickers that have a value. |
| Momentum.CascadeDominance | Momentum/momentum.py:83-85 | At every stage, a candidate that was left out is no larger than any ticker that was kept. |
| Momentum.CascadeOrder | Momentum/momentum.py:85 | The ten tickers are listed best 3-month return first. |
| Momentum.TopNoLookAhead | Momentum/momentum.py:82-86 | The pick at month `i` uses no month after `i`. |
| Momentum.TabulateAt | Momentum/momentum.py:91-92 | Entry `j` of the scores collected in month order is the score of month `j`. |
| Momentum.SamplesAt | Momentum/momentum.py:88-92 | There are `len(months) - 1` samples. Sample `k` is the mean multiplier, over month `k + 1`, of the basket picked at month `k`. |
| Momentum.NetSampleAt | Momentum/momentum.py:50-52 | Net sample `k` is that mean minus 0.01, and has no value when the mean has none. |
| Momentum.SampleNoLookAhead | Momentum/momentum.py:50-52 | The score of month `k` uses no month after `k + 1`. |
| Momentum.SampleBounds | Momentum/momentum.py:50-52 | A score exists if and only if a picked ticker has a value in the next month. It then lies within the range of that month's multipliers. |
| Performance.MeanBounds | Momentum/momentum.py:52 | The mean exists if and only if a basket ticker has a value, and it lies within the bounds of the values. |
| Performance.BasketValuesNonEmpty | Momentum/momentum.py:51-52 | The basket has values if and only if one of its tickers has a value. |
| Performance.CumProdAt | Momentum/momentum.py:95 | The cumulative series has one entry per net sample. Entry `k` is the product of the defined net samples `0..k`, and has no value where sample `k` has none. |
| Performance.CumProdFromAt | Momentum/momentum.py:95 | The same, for a running product started at any value. |
| Performance.AccumulateValues | Momentum/momentum.py:114-115 | With every return defined, the optional-valued loop equals the loop on plain numbers. |
| Performance.GrowClosedForm | Momentum/momentum.py:114-115 | The loop `money = money * r + injection` equals `c * Π(r) + injection * Σ_j Π(r after j)`. |
| Performance.StepClosedForm | Momentum/momentum.py:115 | One more loop step keeps the closed form. |
| Performance.AnnuitySnoc | Momentum/momentum.py:115 | The injections' grown value compounds as `a * x + 1` when one month is appended. |
| Performance.AccumulateClosedForm | Momentum/momentum.py:113-115 | Closed form of the capital loop when every return is defined. |
| Performance.InjectionCapital | Momentum/momentum.py:111-115 | With a non-zero injection, the final capital is the closed form over `returns[1..]`. The total investment is `starting + len(returns * injection)`. |
| Performance.FirstReturnIgnored | Momentum/momentum.py:114 | The injection branch never reads the first net return. |
| Performance.FlatMarketCapital | Momentum/momentum.py:111-120 | In a flat market, the loop adds one injection per month after the first, while the reported total counts one per month. |
| Performance.ZeroInjectionCapital | Momentum/momentum.py:109-110 | With no injection, the capital is the starting capital times the product of every net return, the first included, and then line 120 fails. |
| Momentum.MomentumStrategy.constructor | Momentum/momentum.py:11-15 | The universe is the deduplicated merge, and the rolling tables are those of the monthly table. The stored returns are the net samples and their running product. |
| Momentum.MomentumStrategy.GetTopPerformers | Momentum/momentum.py:54-80 | It stores the three rolling tables and returns the cascade at the given month. |
| Momentum.MomentumStrategy.TopBacktest | Momentum/momentum.py:82-86 | The pick at month `k`, read from the stored tables, is the cascade at `k`. It has `min(10, |universe|)` tickers, all from the universe. |
| Momentum.MomentumStrategy.Performance | Momentum/momentum.py:50-52 | The score of the pick at month `k` is its mean over month `k + 1`. |
| Momentum.MomentumStrategy.MonthlyScores | Momentum/momentum.py:89-92 | The loop collects the score of every month but the last, in month order. |
| Momentum.MomentumStrategy.Backtest | Momentum/momentum.py:88-95 | It stores the net samples and their cumulative product. |
| Momentum.MomentumStrategy.CapitalReturn | Momentum/momentum.py:108-120 | The outcome is `CapitalOf` of the stored series. This covers the compounding loop from the second return on, the reported total investment, and both zero-injection failures. |

## Left out

- Downloading the ticker lists and prices (Momentum/momentum.py:19-23, 33, 36): network I/O. The two ticker lists and the monthly multiplier table are inputs.
- The S&P 500 benchmark series (Momentum/momentum.py:36-37): downloaded data, and the same `cumprod` pattern as `Performance.CumProd`.
- Converting the index to dates and resampling daily prices to monthly multipliers (Momentum/momentum.py:41-43): calendar and pandas resampling. A month's multiplier is taken as given.
- The current date (Momentum/momentum.py:59-65): wall clock. The month to pick for is an index parameter.
- Clearing the console, printing and plotting (Momentum/momentum.py:73-77, 97-106, 117-121): output only. `CapitalOutcome` carries the values that lines 118-121 print.
- Floating-point rounding and IEEE NaN propagation: the arithmetic is over `real`, and NaN is a missing value.
- Date-label indexing of the rolling tables (`.loc[date]`) and of the cumulative series (`index=self.mtl_data.index[1:]`): rows are addressed by position.
- The column order `yf.download` gives the downloaded table: the cascade's candidates are taken in universe order, which decides ties.
- Momentum.MomentumStrategy.CapitalReturn: does not model the float conversion of `starting_capital` or of `injection`. The injection is an integer, since line 120 repeats a list by it.
