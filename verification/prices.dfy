/**
 The bar series the dashboard downloads, and the per-bar differences it
 derives from the closing prices. Prices are exact reals; an entry that the
 dashboard's floating-point series would hold as NaN is `None`.
 */
module Prices {
  import opened Options

  /** One OHLCV bar. Only `close` and `volume` feed the computations. */
  datatype Bar = Bar(open: real, high: real, low: real, close: real, volume: nat)

  /** The closing-price column of a bar series. */
  function Closes(bars: seq<Bar>): (c: seq<real>)
    ensures |c| == |bars|
    ensures forall i :: 0 <= i < |bars| ==> c[i] == bars[i].close
  {
    seq(|bars|, i requires 0 <= i < |bars| => bars[i].close)
  }

  /** Market prices are strictly positive, so every ratio of closes is defined. */
  predicate PositivePrices(c: seq<real>)
  {
    forall i :: 0 <= i < |c| ==> c[i] > 0.0
  }

  /** One-step difference of the closes. The first bar has no predecessor,
      so its difference is undefined; every later difference, added to the
      previous close, gives back the bar's close. */
  function Diff(c: seq<real>): (d: seq<Option<real>>)
    ensures |d| == |c|
    ensures |c| > 0 ==> d[0] == None
    ensures forall i {:trigger d[i]} :: 1 <= i < |c| ==> d[i].Some? && c[i - 1] + d[i].value == c[i]
  {
    seq(|c|, i requires 0 <= i < |c| => if i == 0 then None else Some(c[i] - c[i - 1]))
  }

  /** Relative change from `prev` to `cur`, as a fraction: the quantity
      behind both the "24 h" percentage and the backtest's period return. */
  function Change(prev: real, cur: real): (r: real)
    requires prev > 0.0
    ensures cur > 0.0 ==> r > -1.0
    ensures r > 0.0 <==> cur > prev
    ensures r == 0.0 <==> cur == prev
  {
    var r := (cur - prev) / prev;
    assert prev * r == cur - prev;
    PositiveFactor(prev, r);
    PositiveFactor(prev, 1.0 + r);
    r
  }

  /** Applying the relative change to the earlier price gives back the later one. */
  lemma ChangeRestores(prev: real, cur: real)
    requires prev > 0.0
    ensures prev * (1.0 + Change(prev, cur)) == cur
  {
    var r := Change(prev, cur);
    assert prev * r == cur - prev;
  }

  /** Multiplying by a positive number keeps the sign. */
  lemma PositiveFactor(a: real, b: real)
    requires a > 0.0
    ensures a * b > 0.0 <==> b > 0.0
    ensures a * b == 0.0 <==> b == 0.0
  {
    if b > 0.0 {
      assert a * b > 0.0;
    } else if b < 0.0 {
      assert a * b < 0.0;
    }
  }
}
