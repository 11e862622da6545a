/**
 The four headline figures shown above the chart, all taken at the last bar:
 price, change from the previous close in percent, volume and RSI.
 */
module Metrics {
  import opened Options
  import opened Prices
  import opened Indicators

  /** The last-bar figures. A figure the dashboard would show as NaN is `None`. */
  datatype Summary = Summary(price: real, changePct: Option<real>, volume: nat, rsi: Option<real>)

  /** A percent change read back as a factor restores the later price. */
  lemma PercentRoundTrip(prev: real, cur: real)
    requires prev > 0.0
    ensures prev * (100.0 + 100.0 * Change(prev, cur)) == 100.0 * cur
  {
    var r := Change(prev, cur);
    ChangeRestores(prev, cur);
    assert prev * (100.0 + 100.0 * r) == 100.0 * (prev * (1.0 + r));
  }

  /** Figures of the last bar of a non-empty download (an empty one stops the
      page first). The change is undefined for a single bar; otherwise it is
      the percent move from the previous close, above -100 % and positive
      exactly when the last volume bar is green. */
  function LastBarMetrics(bars: seq<Bar>): (m: Summary)
    requires |bars| > 0
    requires PositivePrices(Closes(bars))
    ensures m.price == bars[|bars| - 1].close
    ensures m.volume == bars[|bars| - 1].volume
    ensures m.changePct.Some? <==> |bars| >= 2
    ensures |bars| >= 2 ==> bars[|bars| - 2].close * (100.0 + m.changePct.value) == 100.0 * m.price
    ensures |bars| >= 2 ==> m.changePct.value > -100.0
    ensures |bars| >= 2 ==>
      (m.changePct.value > 0.0 <==> VolumeColors(Closes(bars))[|bars| - 1] == Green)
    ensures m.rsi == Rsi(Closes(bars))[|bars| - 1]
    ensures |bars| < RsiWindow ==> m.rsi.None?
  {
    var n := |bars|;
    var rsi := Rsi(Closes(bars))[n - 1];
    if n >= 2 then
      var prev, last := bars[n - 2].close, bars[n - 1].close;
      assert prev == Closes(bars)[n - 2] && last == Closes(bars)[n - 1];
      var r := Change(prev, last);
      PercentRoundTrip(prev, last);
      Summary(last, Some(100.0 * r), bars[n - 1].volume, rsi)
    else
      Summary(bars[n - 1].close, None, bars[n - 1].volume, rsi)
  }
}
