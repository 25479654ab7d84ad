/** Scoring a basket, the monthly cost, the cumulative series and the capital
    projection of the momentum backtester (Momentum/momentum.py:50-52, 94-95,
    108-120). Missing values stand for pandas' NaN. */
module Performance {
  import opened Common

  /** The values that the basket's tickers have in `month`, in basket order;
      tickers without a value are skipped, as `mean(axis=1)` skips NaN. */
  function BasketValues(basket: seq<Ticker>, month: Month): seq<real>
  {
    if basket == [] then []
    else
      var t := basket[|basket| - 1];
      BasketValues(basket[..|basket| - 1], month) + (if t in month then [month[t]] else [])
  }

  function Sum(s: seq<real>): real
  {
    if s == [] then 0.0 else Sum(s[..|s| - 1]) + s[|s| - 1]
  }

  /** `portfolio.mean(axis=1)` for one row: the mean of the basket's values in
      `month`, or no value when none of the basket's tickers has one. */
  function Mean(basket: seq<Ticker>, month: Month): Option<real>
  {
    var v := BasketValues(basket, month);
    if |v| == 0 then None else Some(Sum(v) / (|v| as real))
  }

  /** The basket has values in `month` exactly when one of its tickers has one. */
  lemma {:induction false} BasketValuesNonEmpty(basket: seq<Ticker>, month: Month)
    ensures (exists t :: t in basket && t in month) <==> |BasketValues(basket, month)| > 0
  {
    if basket != [] {
      var p := basket[..|basket| - 1];
      BasketValuesNonEmpty(p, month);
      assert basket == p + [basket[|basket| - 1]];
    }
  }

  /** Bounds on the tickers' values bound the basket's values. */
  lemma {:induction false} BasketValuesBounded(basket: seq<Ticker>, month: Month, lo: real, hi: real)
    requires forall t | t in basket && t in month :: lo <= month[t] <= hi
    ensures forall v | v in BasketValues(basket, month) :: lo <= v <= hi
  {
    if basket != [] {
      var p := basket[..|basket| - 1];
      assert forall t | t in p :: t in basket;
      BasketValuesBounded(p, month, lo, hi);
      assert basket[|basket| - 1] in basket;
    }
  }

  lemma {:induction false} SumBounds(s: seq<real>, lo: real, hi: real)
    requires forall v | v in s :: lo <= v <= hi
    ensures |s| as real * lo <= Sum(s) <= |s| as real * hi
  {
    if s != [] {
      var p := s[..|s| - 1];
      assert forall v | v in p :: v in s;
      SumBounds(p, lo, hi);
      assert s[|s| - 1] in s;
      var n := |p| as real;
      assert |s| as real * lo == n * lo + lo;
      assert |s| as real * hi == n * hi + hi;
    }
  }

  /** The basket's score has a value exactly when some ticker of the basket has
      a value that month, and then it lies between the smallest and the
      largest of those values. */
  lemma {:induction false} MeanBounds(basket: seq<Ticker>, month: Month, lo: real, hi: real)
    requires forall t | t in basket && t in month :: lo <= month[t] <= hi
    ensures Mean(basket, month).Some? <==> exists t :: t in basket && t in month
    ensures Mean(basket, month).Some? ==> lo <= Mean(basket, month).value <= hi
  {
    BasketValuesNonEmpty(basket, month);
    var v := BasketValues(basket, month);
    if |v| > 0 {
      BasketValuesBounded(basket, month, lo, hi);
      AverageBounds(v, lo, hi);
    }
  }

  /** The average of values in [lo, hi] lies in [lo, hi]. */
  lemma {:induction false} AverageBounds(v: seq<real>, lo: real, hi: real)
    requires |v| > 0 && forall x | x in v :: lo <= x <= hi
    ensures lo <= Sum(v) / (|v| as real) <= hi
  {
    SumBounds(v, lo, hi);
    DivBetween(Sum(v), |v| as real, lo, hi);
  }

  lemma {:induction false} DivBetween(total: real, n: real, lo: real, hi: real)
    requires 0.0 < n && n * lo <= total <= n * hi
    ensures lo <= total / n <= hi
  {
    var q := total / n;
    assert q * n == total;
    assert (q - lo) * n >= 0.0;
    assert (hi - q) * n >= 0.0;
  }

  /** The fixed monthly cost deducted from every score (line 94). */
  const Cost: real := 0.01

  /** A score net of the monthly cost; no value stays no value. */
  function Net(r: Option<real>): Option<real>
  {
    match r
    case None => None
    case Some(v) => Some(v - Cost)
  }

  /** The defined values of `s`, in order. */
  function Values(s: seq<Option<real>>): seq<real>
  {
    if s == [] then []
    else (if s[0].Some? then [s[0].value] else []) + Values(s[1..])
  }

  /** `cumprod` with pandas' default `skipna`: a missing entry stays missing,
      and the running product, started at `acc`, goes on over the others. */
  function CumProdFrom(s: seq<Option<real>>, acc: real): seq<Option<real>>
  {
    if s == [] then []
    else if s[0].Some? then [Some(acc * s[0].value)] + CumProdFrom(s[1..], acc * s[0].value)
    else [None] + CumProdFrom(s[1..], acc)
  }

  function CumProd(s: seq<Option<real>>): seq<Option<real>>
  {
    CumProdFrom(s, 1.0)
  }

  /** The running product `acc` scaled by the product of `v`. */
  function Scaled(acc: real, v: seq<real>): real
  {
    acc * Product(v)
  }

  lemma {:induction false} ScaledCons(acc: real, x: real, v: seq<real>)
    ensures Scaled(acc * x, v) == Scaled(acc, [x] + v)
  {
    assert ([x] + v)[1..] == v;
    assert Product([x] + v) == x * Product(v);
    MulAssoc(acc, x, Product(v));
  }

  lemma {:induction false} ProductEmpty()
    ensures Product([]) == 1.0
  {
  }

  lemma {:induction false} MulAssoc(a: real, b: real, c: real)
    ensures (a * b) * c == a * (b * c)
  {
  }

  lemma {:induction false} CumProdFromAt(s: seq<Option<real>>, acc: real, k: nat)
    requires k < |s|
    ensures |CumProdFrom(s, acc)| == |s|
    ensures CumProdFrom(s, acc)[k] == if s[k].Some? then Some(Scaled(acc, Values(s[..k + 1]))) else None
  {
    CumProdFromLength(s, acc);
    var acc' := if s[0].Some? then acc * s[0].value else acc;
    var first := if s[0].Some? then Some(acc * s[0].value) else None;
    assert CumProdFrom(s, acc) == [first] + CumProdFrom(s[1..], acc');
    if k == 0 {
      assert s[..1] == [s[0]];
      assert Values(s[..1]) == (if s[0].Some? then [s[0].value] else []) + Values(s[..1][1..]);
      assert s[..1][1..] == [];
      if s[0].Some? {
        var v := s[0].value;
        assert Values(s[..1]) == [v];
        assert CumProdFrom(s, acc)[0] == first;
        ScaledCons(acc, v, []);
        assert [v] + [] == [v];
        ProductEmpty();
        assert Scaled(acc', []) == acc';
        assert Scaled(acc, [v]) == acc';
        assert first == Some(acc');
      }
    } else {
      CumProdFromAt(s[1..], acc', k - 1);
      var rest := Values(s[1..][..k]);
      assert s[..k + 1] == [s[0]] + s[1..][..k];
      assert Values(s[..k + 1]) == (if s[0].Some? then [s[0].value] else []) + rest;
      assert CumProdFrom(s, acc)[k] == CumProdFrom(s[1..], acc')[k - 1];
      assert s[1..][k - 1] == s[k];
      if s[0].Some? {
        var v := s[0].value;
        assert Values(s[..k + 1]) == [v] + rest;
        ScaledCons(acc, v, rest);
        assert Scaled(acc', rest) == Scaled(acc, Values(s[..k + 1]));
      } else {
        assert Values(s[..k + 1]) == rest;
      }
    }
  }

  lemma {:induction false} CumProdFromLength(s: seq<Option<real>>, acc: real)
    ensures |CumProdFrom(s, acc)| == |s|
  {
    if s != [] {
      CumProdFromLength(s[1..], if s[0].Some? then acc * s[0].value else acc);
    }
  }

  /** The cumulative series has one entry per net sample; entry `k` is the
      product of the net samples 0..k that have a value (no value where
      sample `k` has none). */
  lemma {:induction false} CumProdAt(s: seq<Option<real>>, k: nat)
    requires k < |s|
    ensures |CumProd(s)| == |s|
    ensures CumProd(s)[k] == if s[k].Some? then Some(Product(Values(s[..k + 1]))) else None
  {
    CumProdFromAt(s, 1.0, k);
    assert Scaled(1.0, Values(s[..k + 1])) == Product(Values(s[..k + 1]));
  }

  /** One step of the capital loop, `money = (money * returns[i]) + injection`;
      a missing value makes the capital missing from then on. */
  function Compound(money: Option<real>, r: Option<real>, injection: real): Option<real>
  {
    if money.Some? && r.Some? then Some(Step(money.value, r.value, injection)) else None
  }

  /** The capital after compounding through `rs` in order. */
  function Accumulate(money: Option<real>, rs: seq<Option<real>>, injection: real): Option<real>
  {
    if rs == [] then money
    else Compound(Accumulate(money, rs[..|rs| - 1], injection), rs[|rs| - 1], injection)
  }

  /** The value, at the end, of one unit injected after each month of `v`:
      an injection made after month j grows by the months after it. */
  function Annuity(v: seq<real>): real
  {
    if v == [] then 0.0 else Product(v[1..]) + Annuity(v[1..])
  }

  /** Compounding rule of the annuity when one more month is appended. */
  lemma {:induction false} AnnuitySnoc(v: seq<real>, x: real)
    ensures Annuity(v + [x]) == Annuity(v) * x + 1.0
  {
    if v == [] {
      assert [x][1..] == [];
    } else {
      assert (v + [x])[1..] == v[1..] + [x];
      AnnuitySnoc(v[1..], x);
      ProductAppend(v[1..], [x]);
    }
  }

  /** Values of a sequence without missing entries, with one more appended. */
  lemma {:induction false} ValuesSnoc(s: seq<Option<real>>, x: real)
    ensures Values(s + [Some(x)]) == Values(s) + [x]
  {
    if s != [] {
      assert (s + [Some(x)])[1..] == s[1..] + [Some(x)];
      ValuesSnoc(s[1..], x);
    }
  }

  /** The capital loop on plain numbers. */
  function Grow(c: real, v: seq<real>, injection: real): real
  {
    if v == [] then c else Step(Grow(c, v[..|v| - 1], injection), v[|v| - 1], injection)
  }

  function Step(money: real, r: real, injection: real): real
  {
    money * r + injection
  }

  /** The closed form: the starting capital grown by every month, plus each
      injection grown by the months after it. */
  function ClosedForm(c: real, v: seq<real>, injection: real): real
  {
    c * Product(v) + injection * Annuity(v)
  }

  /** While every return has a value, the capital loop runs on the values. */
  lemma {:induction false} AccumulateValues(c: real, rs: seq<Option<real>>, injection: real)
    requires forall i | 0 <= i < |rs| :: rs[i].Some?
    ensures Accumulate(Some(c), rs, injection) == Some(Grow(c, Values(rs), injection))
  {
    if rs != [] {
      var p := rs[..|rs| - 1];
      var x := rs[|rs| - 1].value;
      assert rs == p + [Some(x)];
      AccumulateValues(c, p, injection);
      ValuesSnoc(p, x);
      var v := Values(rs);
      assert v[..|v| - 1] == Values(p);
      assert Accumulate(Some(c), rs, injection) == Compound(Some(Grow(c, Values(p), injection)), Some(x), injection);
    }
  }

  lemma {:induction false} GrowClosedForm(c: real, v: seq<real>, injection: real)
    ensures Grow(c, v, injection) == ClosedForm(c, v, injection)
  {
    if v != [] {
      var p := v[..|v| - 1];
      var x := v[|v| - 1];
      assert v == p + [x];
      GrowClosedForm(c, p, injection);
      StepClosedForm(c, p, x, injection);
    }
  }

  /** One more month of the loop keeps the closed form. */
  lemma {:induction false} StepClosedForm(c: real, v: seq<real>, x: real, injection: real)
    ensures Step(ClosedForm(c, v, injection), x, injection) == ClosedForm(c, v + [x], injection)
  {
    ProductSnoc(v, x);
    AnnuitySnoc(v, x);
    StepAlgebra(c, Product(v), Annuity(v), x, injection, Product(v + [x]), Annuity(v + [x]));
  }

  lemma {:induction false} StepAlgebra(c: real, prod: real, ann: real, x: real, injection: real, prod': real, ann': real)
    requires prod' == prod * x && ann' == ann * x + 1.0
    ensures Step(c * prod + injection * ann, x, injection) == c * prod' + injection * ann'
  {
  }

  /** Closed form of the capital loop when every return has a value: the
      starting capital grows by every month, and each injection by the months
      after it. */
  lemma {:induction false} AccumulateClosedForm(c: real, rs: seq<Option<real>>, injection: real)
    requires forall i | 0 <= i < |rs| :: rs[i].Some?
    ensures Accumulate(Some(c), rs, injection) == Some(ClosedForm(c, Values(rs), injection))
  {
    AccumulateValues(c, rs, injection);
    GrowClosedForm(c, Values(rs), injection);
  }

  lemma {:induction false} ProductSnoc(v: seq<real>, x: real)
    ensures Product(v + [x]) == Product(v) * x
  {
    ProductAppend(v, [x]);
    assert Product([x]) == x * 1.0;
  }

  /** `len(returns * injection)`: a list repeated a non-positive number of
      times is empty. */
  function RepeatedLength(n: nat, times: int): nat
  {
    if times <= 0 then 0 else n * times
  }

  /** What `capital_return` reaches with a given starting capital and monthly
      injection, from the net monthly samples and the cumulative series. */
  datatype CapitalOutcome =
    | Report(finalCapital: Option<real>, totalInvestment: real)
      // injection == 0 and an empty cumulative series: line 110 indexes past the end
    | EmptyCumulative
      // injection == 0: the capital is computed, then line 120 reads `returns`,
      // which only the injection branch assigns
    | ReturnsUnbound(finalCapital: Option<real>)

  /** The capital grown by one multiplier. */
  function Scale(capital: real, r: real): real
  {
    capital * r
  }

  function CapitalOf(startingCapital: real, injection: int, net: seq<Option<real>>, cum: seq<Option<real>>): CapitalOutcome
  {
    if injection == 0 then
      if |cum| == 0 then EmptyCumulative
      else
        var last := cum[|cum| - 1];
        ReturnsUnbound(if last.Some? then Some(Scale(startingCapital, last.value)) else None)
    else
      var skipped := if |net| == 0 then [] else net[1..];
      Report(Accumulate(Some(startingCapital), skipped, injection as real),
             startingCapital + RepeatedLength(|net|, injection) as real)
  }

  /** In a flat market (every net return exactly 1) the capital loop adds one
      injection per month after the first, while the reported total investment
      counts one injection per month. */
  lemma {:induction false} FlatMarketCapital(c: real, net: seq<Option<real>>, injection: int)
    requires 0 < injection && 0 < |net|
    requires forall i | 0 <= i < |net| :: net[i] == Some(1.0)
    ensures CapitalOf(c, injection, net, CumProd(net))
         == Report(Some(c + ((|net| - 1) * injection) as real), c + (|net| * injection) as real)
  {
    FlatAccumulate(c, net[1..], injection as real);
  }

  lemma {:induction false} FlatAccumulate(c: real, rs: seq<Option<real>>, injection: real)
    requires forall i | 0 <= i < |rs| :: rs[i] == Some(1.0)
    ensures Accumulate(Some(c), rs, injection) == Some(c + |rs| as real * injection)
  {
    if rs != [] {
      var p := rs[..|rs| - 1];
      FlatAccumulate(c, p, injection);
      assert Accumulate(Some(c), rs, injection) == Compound(Accumulate(Some(c), p, injection), Some(1.0), injection);
      assert Step(c + |p| as real * injection, 1.0, injection) == c + |rs| as real * injection;
    }
  }

  /** Without injections, and with every net return defined, the capital is
      the starting capital grown by every month's return, the first included. */
  lemma {:induction false} ZeroInjectionCapital(c: real, net: seq<Option<real>>)
    requires 0 < |net|
    requires forall i | 0 <= i < |net| :: net[i].Some?
    ensures CapitalOf(c, 0, net, CumProd(net)) == ReturnsUnbound(Some(Scaled(c, Values(net))))
  {
    var cum := CumProd(net);
    CumProdAt(net, |net| - 1);
    assert net[..|net|] == net;
    var p := Product(Values(net));
    assert cum[|cum| - 1] == Some(p);
    assert Scale(c, p) == Scaled(c, Values(net));
  }

  /** With injections, and with every net return defined, the capital is the
      closed form over the returns after the first one. */
  lemma {:induction false} InjectionCapital(c: real, net: seq<Option<real>>, injection: int)
    requires injection != 0 && 0 < |net|
    requires forall i | 0 <= i < |net| :: net[i].Some?
    ensures CapitalOf(c, injection, net, CumProd(net))
         == Report(Some(ClosedForm(c, Values(net[1..]), injection as real)), c + RepeatedLength(|net|, injection) as real)
  {
    AccumulateClosedForm(c, net[1..], injection as real);
  }

  /** The injection branch never reads the first net return: two series that
      differ only there end with the same capital. */
  lemma {:induction false} FirstReturnIgnored(c: real, injection: int, net: seq<Option<real>>, other: seq<Option<real>>, cum: seq<Option<real>>)
    requires injection != 0 && 0 < |net| == |other| && net[1..] == other[1..]
    ensures CapitalOf(c, injection, net, cum) == CapitalOf(c, injection, other, cum)
  {
  }
}
