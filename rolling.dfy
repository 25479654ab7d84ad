/** Trailing rolling products of the monthly multipliers,
    `df.rolling(n).apply(np.prod)` (Momentum/momentum.py:47-48). */
module Rolling {
  import opened Common

  /** Every month of the window [lo, hi) has a value for `t`. */
  predicate WindowDefined(mtl: seq<Month>, t: Ticker, lo: nat, hi: nat)
    requires lo <= hi <= |mtl|
  {
    forall j | lo <= j < hi :: t in mtl[j]
  }

  /** The product of the multipliers of `t` over the months [lo, hi). */
  function WindowProduct(mtl: seq<Month>, t: Ticker, lo: nat, hi: nat): real
    requires lo <= hi <= |mtl| && WindowDefined(mtl, t, lo, hi)
    decreases hi - lo
  {
    if lo == hi then 1.0 else WindowProduct(mtl, t, lo, hi - 1) * mtl[hi - 1][t]
  }

  /** Row `i` of the rolling table for window `n`: a ticker has a value there
      when `n` months of history exist and every month of the window has a
      value for it (pandas' default `min_periods` equals the window). */
  function RollingAt(mtl: seq<Month>, n: nat, i: nat): Month
    requires 0 < n && i < |mtl|
  {
    if i + 1 < n then map[]
    else
      map t | t in mtl[i] && WindowDefined(mtl, t, i + 1 - n, i + 1) :: WindowProduct(mtl, t, i + 1 - n, i + 1)
  }

  /** The whole rolling table for window `n`, one row per month; the first
      `n - 1` rows hold no value. */
  function RollingTable(mtl: seq<Month>, n: nat): (r: seq<Month>)
    requires 0 < n
    ensures |r| == |mtl|
    ensures forall i | 0 <= i < |mtl| && i + 1 < n :: r[i] == map[]
  {
    seq(|mtl|, i requires 0 <= i < |mtl| => RollingAt(mtl, n, i))
  }

  /** Row `i` holds a value for `t` exactly when `i` is at least `n - 1` and
      every month of the window ending at `i` has a value for `t`; that value
      is the product of the window's multipliers, in the order of the
      sequence `Product` multiplies them. */
  lemma {:induction false} RollingAtValue(mtl: seq<Month>, n: nat, i: nat, t: Ticker)
    requires 0 < n && i < |mtl|
    ensures t in RollingAt(mtl, n, i) <==> n <= i + 1 && WindowDefined(mtl, t, i + 1 - n, i + 1)
    ensures t in RollingAt(mtl, n, i) ==>
      RollingAt(mtl, n, i)[t] == Product(seq(n, k requires 0 <= k < n => mtl[i + 1 - n + k][t]))
  {
    if n <= i + 1 && WindowDefined(mtl, t, i + 1 - n, i + 1) {
      assert t in mtl[i];
      WindowProductIsProduct(mtl, t, i + 1 - n, i + 1);
    }
  }

  /** The recursive window product agrees with the product of the window's
      multipliers listed oldest first. */
  lemma {:induction false} WindowProductIsProduct(mtl: seq<Month>, t: Ticker, lo: nat, hi: nat)
    requires lo <= hi <= |mtl| && WindowDefined(mtl, t, lo, hi)
    ensures WindowProduct(mtl, t, lo, hi) == Product(seq(hi - lo, k requires 0 <= k < hi - lo => mtl[lo + k][t]))
    decreases hi - lo
  {
    var col := seq(hi - lo, k requires 0 <= k < hi - lo => mtl[lo + k][t]);
    if lo < hi {
      var prefix := seq(hi - 1 - lo, k requires 0 <= k < hi - 1 - lo => mtl[lo + k][t]);
      WindowProductIsProduct(mtl, t, lo, hi - 1);
      assert col == prefix + [mtl[hi - 1][t]];
      ProductAppend(prefix, [mtl[hi - 1][t]]);
      assert Product([mtl[hi - 1][t]]) == mtl[hi - 1][t] * 1.0;
    }
  }

  /** Splitting a window in two splits its product. */
  lemma {:induction false} WindowSplit(mtl: seq<Month>, t: Ticker, lo: nat, mid: nat, hi: nat)
    requires lo <= mid <= hi <= |mtl| && WindowDefined(mtl, t, lo, hi)
    ensures WindowDefined(mtl, t, lo, mid) && WindowDefined(mtl, t, mid, hi)
    ensures WindowProduct(mtl, t, lo, hi) == WindowProduct(mtl, t, lo, mid) * WindowProduct(mtl, t, mid, hi)
    decreases hi - mid
  {
    if mid < hi {
      WindowSplit(mtl, t, lo, mid, hi - 1);
      Regroup(WindowProduct(mtl, t, lo, mid), WindowProduct(mtl, t, mid, hi - 1), mtl[hi - 1][t]);
    }
  }

  lemma {:induction false} Regroup(a: real, b: real, c: real)
    ensures (a * b) * c == a * (b * c)
  {
  }

  /** A window of `a + b` months is the window of `a` months ending `b` months
      earlier followed by the window of `b` months: the 12-month value is the
      6-month value six months ago times the current 6-month value. */
  lemma {:induction false} RollingSplit(mtl: seq<Month>, a: nat, b: nat, i: nat, t: Ticker)
    requires 0 < a && 0 < b && i < |mtl|
    requires t in RollingAt(mtl, a + b, i)
    ensures b <= i && t in RollingAt(mtl, a, i - b) && t in RollingAt(mtl, b, i)
    ensures RollingAt(mtl, a + b, i)[t] == RollingAt(mtl, a, i - b)[t] * RollingAt(mtl, b, i)[t]
  {
    var lo := i + 1 - (a + b);
    var mid := i + 1 - b;
    RollingDefined(mtl, a + b, i, t);
    WindowSplit(mtl, t, lo, mid, i + 1);
    RollingValue(mtl, a + b, i, t, lo, i + 1);
    RollingValue(mtl, a, i - b, t, lo, mid);
    RollingValue(mtl, b, i, t, mid, i + 1);
  }

  /** A ticker with a value in row `i` for window `n` has one in every month
      of the window. */
  lemma {:induction false} RollingDefined(mtl: seq<Month>, n: nat, i: nat, t: Ticker)
    requires 0 < n && i < |mtl| && t in RollingAt(mtl, n, i)
    ensures n <= i + 1 && WindowDefined(mtl, t, i + 1 - n, i + 1)
  {
  }

  /** The value of `t` in row `i` for window `n`, when every month of the
      window [lo, hi) has one. */
  lemma {:induction false} RollingValue(mtl: seq<Month>, n: nat, i: nat, t: Ticker, lo: nat, hi: nat)
    requires 0 < n && i < |mtl| && lo + n == hi && hi == i + 1
    requires WindowDefined(mtl, t, lo, hi)
    ensures t in RollingAt(mtl, n, i)
    ensures RollingAt(mtl, n, i)[t] == WindowProduct(mtl, t, lo, hi)
  {
    assert t in mtl[i];
  }

  /** The window slides one month at a time: moving from month `i` to month
      `i + 1` drops the oldest multiplier and takes in the newest. */
  lemma {:induction false} RollingSlide(mtl: seq<Month>, n: nat, i: nat, t: Ticker)
    requires 0 < n && i + 1 < |mtl| && n <= i + 1
    requires t in RollingAt(mtl, n, i) && t in mtl[i + 1]
    ensures t in RollingAt(mtl, n, i + 1)
    ensures RollingAt(mtl, n, i + 1)[t] * mtl[i + 1 - n][t] == RollingAt(mtl, n, i)[t] * mtl[i + 1][t]
  {
    var lo := i + 1 - n;
    RollingDefined(mtl, n, i, t);
    assert WindowDefined(mtl, t, lo, i + 2);
    RollingValue(mtl, n, i, t, lo, i + 1);
    RollingValue(mtl, n, i + 1, t, lo + 1, i + 2);
    WindowSplit(mtl, t, lo, lo + 1, i + 2);
    assert WindowProduct(mtl, t, lo, lo + 1) == WindowProduct(mtl, t, lo, lo) * mtl[lo][t];
    SwapFactors(WindowProduct(mtl, t, lo, i + 2), WindowProduct(mtl, t, lo, i + 1), mtl[i + 1][t],
                mtl[lo][t], WindowProduct(mtl, t, lo + 1, i + 2));
  }

  lemma {:induction false} SwapFactors(whole: real, a: real, b: real, c: real, d: real)
    requires whole == a * b && whole == (1.0 * c) * d
    ensures d * c == a * b
  {
  }

  /** A shorter window is defined wherever a longer one is: when a ticker has a
      12-month value it also has 6- and 3-month values. */
  lemma {:induction false} RollingNested(mtl: seq<Month>, m: nat, n: nat, i: nat, t: Ticker)
    requires 0 < m <= n && i < |mtl|
    requires t in RollingAt(mtl, n, i)
    ensures t in RollingAt(mtl, m, i)
  {
  }

  /** Row `i` depends only on the months up to and including `i`: no later
      month can change it. */
  lemma {:induction false} RollingNoLookAhead(mtl: seq<Month>, other: seq<Month>, n: nat, i: nat)
    requires 0 < n && i < |mtl| && i < |other|
    requires mtl[..i + 1] == other[..i + 1]
    ensures RollingAt(mtl, n, i) == RollingAt(other, n, i)
  {
    forall j | 0 <= j <= i
      ensures mtl[j] == other[j]
    {
      assert mtl[..i + 1][j] == other[..i + 1][j];
    }
    if n <= i + 1 {
      forall t | t in mtl[i] && WindowDefined(mtl, t, i + 1 - n, i + 1)
        ensures WindowProduct(mtl, t, i + 1 - n, i + 1) == WindowProduct(other, t, i + 1 - n, i + 1)
      {
        WindowSame(mtl, other, t, i + 1 - n, i + 1);
      }
    }
  }

  /** Windows over equal months have equal products. */
  lemma {:induction false} WindowSame(mtl: seq<Month>, other: seq<Month>, t: Ticker, lo: nat, hi: nat)
    requires lo <= hi <= |mtl| && hi <= |other| && WindowDefined(mtl, t, lo, hi)
    requires forall j | lo <= j < hi :: mtl[j] == other[j]
    ensures WindowDefined(other, t, lo, hi)
    ensures WindowProduct(mtl, t, lo, hi) == WindowProduct(other, t, lo, hi)
    decreases hi - lo
  {
    if lo < hi {
      WindowSame(mtl, other, t, lo, hi - 1);
    }
  }
}
