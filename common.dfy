/** Shared vocabulary of the momentum backtester model. */
module Common {

  /** A ticker symbol, such as "AAPL". */
  type Ticker = string

  /** One month of the monthly gross-return table: the multiplier (1 + return)
      of every ticker that has a value for that month. A ticker that is not a
      key of the map has no value (NaN in the original table). */
  type Month = map<Ticker, real>

  /** A value that may be missing, standing in for a floating-point NaN. */
  datatype Option<T> = None | Some(value: T)

  /** No ticker occurs twice in `s`. */
  predicate NoDup(s: seq<Ticker>)
  {
    forall x | x in s :: multiset(s)[x] <= 1
  }

  function Min(a: int, b: int): int
  {
    if a <= b then a else b
  }

  /** The product of a sequence of multipliers (1 for the empty sequence). */
  function Product(s: seq<real>): real
  {
    if s == [] then 1.0 else s[0] * Product(s[1..])
  }

  /** The product of a concatenation is the product of the products. */
  lemma {:induction false} ProductAppend(a: seq<real>, b: seq<real>)
    ensures Product(a + b) == Product(a) * Product(b)
  {
    if a == [] {
      assert a + b == b;
    } else {
      assert (a + b)[1..] == a[1..] + b;
      ProductAppend(a[1..], b);
      calc {
        Product(a + b);
        a[0] * Product(a[1..] + b);
        a[0] * (Product(a[1..]) * Product(b));
        (a[0] * Product(a[1..])) * Product(b);
      }
    }
  }
}
