/**
 The chart indicators of the dashboard: the 20- and 50-bar simple moving
 averages of the close, the 14-bar RSI built from rolling means of gains and
 losses, and the up/down colouring of the volume bars.
 */
module Indicators {
  import opened Options
  import opened Numeric
  import opened Prices

  /** The trailing window of `w` values that ends at index `i`. */
  function Window(s: seq<real>, w: nat, i: nat): (win: seq<real>)
    requires 1 <= w && w - 1 <= i < |s|
    ensures |win| == w
  {
    s[i - w + 1..i + 1]
  }

  // ---------------------------------------------------------------------
  // Simple moving average
  // ---------------------------------------------------------------------

  /** Rolling mean with window `w` and no partial windows: undefined until
      `w` values are available, then the arithmetic mean of the trailing `w`. */
  function Sma(s: seq<real>, w: nat): (ma: seq<Option<real>>)
    requires w >= 1
    ensures |ma| == |s|
    ensures forall i :: w - 1 <= i < |s| ==> ma[i].Some? && (w as real) * ma[i].value == Sum(Window(s, w, i))
  {
    seq(|s|, i requires 0 <= i < |s| => if i < w - 1 then None else Some(Mean(Window(s, w, i))))
  }

  /** Index of the first value still inside the window after `i` values have
      been consumed. */
  function WindowStart(i: nat, w: nat): nat
  {
    if i <= w then 0 else i - w
  }

  /** Adding the newest value and dropping the one that leaves the window
      turns the previous window sum into the next one. */
  lemma {:induction false} SlideWindowSum(s: seq<real>, w: nat, i: nat)
    requires w >= 1 && i < |s|
    ensures Sum(s[WindowStart(i + 1, w)..i + 1])
         == Sum(s[WindowStart(i, w)..i]) + s[i] - (if i >= w then s[i - w] else 0.0)
  {
    var lo := WindowStart(i, w);
    assert s[lo..i + 1][..i - lo] == s[lo..i];
    assert Sum(s[lo..i + 1]) == Sum(s[lo..i]) + s[i];
    if i >= w {
      SumFront(s[i - w..i + 1]);
      assert s[i - w..i + 1][1..] == s[i - w + 1..i + 1];
    }
  }

  /** The running sum after `i + 1` values gives the moving average at `i`. */
  lemma SmaFromWindowSum(s: seq<real>, w: nat, i: nat, total: real)
    requires w >= 1 && i < |s|
    requires total == Sum(s[WindowStart(i + 1, w)..i + 1])
    ensures Sma(s, w)[i] == if i < w - 1 then None else Some(total / (w as real))
  {
    if i >= w - 1 {
      assert WindowStart(i + 1, w) == i - w + 1;
    }
  }

  /** The moving average is defined exactly from the bar that fills the
      first window, and is there the mean of the trailing `w` values. */
  lemma SmaDefinedOnceWindowFull(s: seq<real>, w: nat)
    requires w >= 1
    ensures forall i :: 0 <= i < |s| ==> (Sma(s, w)[i].Some? <==> i >= w - 1)
    ensures forall i :: w - 1 <= i < |s| ==> Sma(s, w)[i] == Some(Mean(s[i - w + 1..i + 1]))
  {
  }

  /** Growing a prefix by one element appends that element. */
  lemma PrefixStep<T>(s: seq<T>, i: nat)
    requires i < |s|
    ensures s[..i + 1] == s[..i] + [s[i]]
  {
  }

  /** One pass over the series keeping a running window sum: each new value
      is added, the value that falls out of the window is subtracted, and the
      sum is divided by `w` once the window is full. */
  method RollingMean(s: seq<real>, w: nat) returns (ma: seq<Option<real>>)
    requires w >= 1
    ensures |ma| == |s|
    ensures ma == Sma(s, w)
    ensures forall i :: 0 <= i < |s| ==> (ma[i].Some? <==> i >= w - 1)
    ensures forall i :: w - 1 <= i < |s| ==> ma[i] == Some(Mean(s[i - w + 1..i + 1]))
  {
    ma := [];
    var total := 0.0;
    var i := 0;
    ghost var expected := Sma(s, w);
    while i < |s|
      invariant 0 <= i <= |s|
      invariant ma == expected[..i]
      invariant total == Sum(s[WindowStart(i, w)..i])
    {
      SlideWindowSum(s, w, i);
      total := total + s[i] - (if i >= w then s[i - w] else 0.0);
      var entry := if i < w - 1 then None else Some(total / (w as real));
      SmaFromWindowSum(s, w, i, total);
      assert entry == expected[i];
      PrefixStep(expected, i);
      ma := ma + [entry];
      i := i + 1;
    }
    assert expected[..|s|] == expected;
    SmaDefinedOnceWindowFull(s, w);
  }

  /** A moving average never leaves the range of the values it averages. */
  lemma SmaWithinWindowRange(s: seq<real>, w: nat, i: nat, lo: real, hi: real)
    requires w >= 1 && w - 1 <= i < |s|
    requires forall j :: i - w < j <= i ==> lo <= s[j] <= hi
    ensures Sma(s, w)[i].Some?
    ensures lo <= Sma(s, w)[i].value <= hi
  {
    var win := Window(s, w, i);
    assert AllBetween(win, lo, hi) by {
      forall k | 0 <= k < |win| ensures lo <= win[k] <= hi {
        assert win[k] == s[i - w + 1 + k];
      }
    }
    MeanBetween(win, lo, hi);
  }

  /** The mean of a window of non-negative values is non-negative, and it is
      zero exactly when every value in the window is zero. */
  lemma WindowMeanZero(s: seq<real>, w: nat, i: nat)
    requires 1 <= w && w - 1 <= i < |s|
    requires AllNonNegative(s)
    ensures Mean(Window(s, w, i)) >= 0.0
    ensures Mean(Window(s, w, i)) == 0.0 <==> forall j :: i - w < j <= i ==> s[j] == 0.0
  {
    var win := Window(s, w, i);
    assert AllNonNegative(win) by {
      forall k | 0 <= k < |win| ensures win[k] >= 0.0 {
        assert win[k] == s[i - w + 1 + k];
      }
    }
    MeanNonNegative(win);
    if Mean(win) == 0.0 {
      forall j | i - w < j <= i ensures s[j] == 0.0 {
        assert s[j] == win[j - (i - w + 1)];
      }
    }
    if forall j :: i - w < j <= i ==> s[j] == 0.0 {
      forall k | 0 <= k < |win| ensures win[k] == 0.0 {
        assert win[k] == s[i - w + 1 + k];
      }
    }
  }

  /** Every defined rolling mean of non-negative values is non-negative. */
  lemma SmaNonNegative(s: seq<real>, w: nat)
    requires w >= 1
    requires AllNonNegative(s)
    ensures forall i :: 0 <= i < |s| && Sma(s, w)[i].Some? ==> Sma(s, w)[i].value >= 0.0
  {
    forall i | 0 <= i < |s| && Sma(s, w)[i].Some? ensures Sma(s, w)[i].value >= 0.0 {
      WindowMeanZero(s, w, i);
    }
  }

  // ---------------------------------------------------------------------
  // RSI
  // ---------------------------------------------------------------------

  /** Window of the RSI's rolling means of gains and losses. */
  const RsiWindow: nat := 14

  /** Positive part of the one-step difference. A comparison with the
      undefined first difference is false, so that entry becomes 0. */
  function Gain(c: seq<real>): (g: seq<real>)
    ensures |g| == |c|
    ensures AllNonNegative(g)
  {
    var d := Diff(c);
    seq(|c|, i requires 0 <= i < |c| => if d[i].Some? && d[i].value > 0.0 then d[i].value else 0.0)
  }

  /** Negated negative part of the one-step difference; the undefined first
      difference becomes 0 as in `Gain`. */
  function Loss(c: seq<real>): (l: seq<real>)
    ensures |l| == |c|
    ensures AllNonNegative(l)
  {
    var d := Diff(c);
    seq(|c|, i requires 0 <= i < |c| => if d[i].Some? && d[i].value < 0.0 then -d[i].value else 0.0)
  }

  /** Gains and losses split each move of the close: both start at 0, at
      most one of them is non-zero at a bar, their difference rebuilds the
      move, and each is positive exactly on a rise (respectively a fall). */
  lemma GainLossSplitMove(c: seq<real>)
    ensures |c| > 0 ==> Gain(c)[0] == 0.0 && Loss(c)[0] == 0.0
    ensures forall i :: 1 <= i < |c| ==> Gain(c)[i] - Loss(c)[i] == c[i] - c[i - 1]
    ensures forall i :: 1 <= i < |c| ==> Gain(c)[i] == 0.0 || Loss(c)[i] == 0.0
    ensures forall i :: 1 <= i < |c| ==> (Gain(c)[i] > 0.0 <==> c[i] > c[i - 1])
    ensures forall i :: 1 <= i < |c| ==> (Loss(c)[i] > 0.0 <==> c[i] < c[i - 1])
  {
    forall i | 1 <= i < |c|
      ensures Gain(c)[i] - Loss(c)[i] == c[i] - c[i - 1]
      ensures Gain(c)[i] == 0.0 || Loss(c)[i] == 0.0
      ensures Gain(c)[i] > 0.0 <==> c[i] > c[i - 1]
      ensures Loss(c)[i] > 0.0 <==> c[i] < c[i - 1]
    {
      MoveSplitAt(c, i);
    }
  }

  /** The split of `GainLossSplitMove` at one bar after the first. */
  lemma MoveSplitAt(c: seq<real>, i: nat)
    requires 1 <= i < |c|
    ensures Gain(c)[i] - Loss(c)[i] == c[i] - c[i - 1]
    ensures Gain(c)[i] == 0.0 || Loss(c)[i] == 0.0
    ensures Gain(c)[i] > 0.0 <==> c[i] > c[i - 1]
    ensures Loss(c)[i] > 0.0 <==> c[i] < c[i - 1]
  {
    assert Diff(c)[i] == Some(c[i] - c[i - 1]);
  }

  /** `100 - 100 / (1 + avgGain / avgLoss)` evaluated the way floating point
      does it: a zero mean loss makes the ratio infinite (RSI 100) unless the
      mean gain is zero too, where 0/0 leaves the value undefined. */
  function RsiOf(avgGain: real, avgLoss: real): (r: Option<real>)
    requires avgGain >= 0.0 && avgLoss >= 0.0
    ensures avgLoss > 0.0 ==> r.Some? && r.value == 100.0 * avgGain / (avgGain + avgLoss)
    ensures avgLoss > 0.0 ==> 0.0 <= r.value < 100.0
    ensures avgLoss == 0.0 && avgGain > 0.0 ==> r == Some(100.0)
    ensures r.None? <==> avgGain == 0.0 && avgLoss == 0.0
  {
    if avgLoss > 0.0 then
      RsiClosedForm(avgGain, avgLoss);
      Some(100.0 - 100.0 / (1.0 + avgGain / avgLoss))
    else if avgGain > 0.0 then
      Some(100.0)
    else
      None
  }

  /** The RSI formula with a positive mean loss equals `100 g / (g + l)`. */
  lemma RsiClosedForm(g: real, l: real)
    requires g >= 0.0 && l > 0.0
    ensures 1.0 + g / l > 0.0
    ensures 100.0 - 100.0 / (1.0 + g / l) == 100.0 * g / (g + l)
    ensures 0.0 <= 100.0 * g / (g + l) < 100.0
  {
    var q := g / l;
    assert q * l == g;
    assert q >= 0.0;
    var t := 100.0 / (1.0 + q);
    assert t * (1.0 + q) == 100.0;
    assert (1.0 + q) * l == l + g;
    assert t * (g + l) == 100.0 * l;
    var r := 100.0 - t;
    assert r * (g + l) == 100.0 * g;
    assert t > 0.0;
    var v := 100.0 * g / (g + l);
    assert v * (g + l) == 100.0 * g;
    assert (r - v) * (g + l) == 0.0;
    PositiveFactor(g + l, r - v);
    PositiveFactor(g + l, v);
  }

  /** The RSI series: 14-bar rolling means of gains and losses combined by
      `RsiOf`; undefined while either rolling mean is. */
  function Rsi(c: seq<real>): (rsi: seq<Option<real>>)
    ensures |rsi| == |c|
    ensures forall i :: 0 <= i < |c| && i < RsiWindow - 1 ==> rsi[i] == None
  {
    var avgGain := Sma(Gain(c), RsiWindow);
    var avgLoss := Sma(Loss(c), RsiWindow);
    SmaNonNegative(Gain(c), RsiWindow);
    SmaNonNegative(Loss(c), RsiWindow);
    seq(|c|, i requires 0 <= i < |c| =>
      if avgGain[i].Some? && avgLoss[i].Some? then RsiOf(avgGain[i].value, avgLoss[i].value) else None)
  }

  /** The close does not move over the differences of the 14-bar window
      that ends at bar `i`: 13 of them at bar 13, where the first bar has no
      predecessor, and 14 after it. */
  predicate FlatWindow(c: seq<real>, i: nat)
    requires i < |c|
  {
    forall j :: i - RsiWindow < j <= i && 1 <= j ==> c[j] == c[j - 1]
  }

  /** The close never falls over the differences of the 14-bar window that
      ends at bar `i` (13 at bar 13, 14 after it). */
  predicate NoFallWindow(c: seq<real>, i: nat)
    requires i < |c|
  {
    forall j :: i - RsiWindow < j <= i && 1 <= j ==> c[j] >= c[j - 1]
  }

  /** Gains in the window vanish exactly when the close never rises there. */
  lemma NoGainIffNoRise(c: seq<real>, i: nat)
    requires RsiWindow - 1 <= i < |c|
    ensures (forall j :: i - RsiWindow < j <= i ==> Gain(c)[j] == 0.0)
        <==> (forall j :: i - RsiWindow < j <= i && 1 <= j ==> c[j] <= c[j - 1])
  {
    GainLossSplitMove(c);
  }

  /** Losses in the window vanish exactly when the close never falls there. */
  lemma NoLossIffNoFall(c: seq<real>, i: nat)
    requires RsiWindow - 1 <= i < |c|
    ensures (forall j :: i - RsiWindow < j <= i ==> Loss(c)[j] == 0.0) <==> NoFallWindow(c, i)
  {
    GainLossSplitMove(c);
  }

  /** Once 14 bars exist, the RSI is undefined exactly when the close did not
      move at all over the window (0/0 in the formula). */
  lemma RsiUndefinedIffFlat(c: seq<real>, i: nat)
    requires RsiWindow - 1 <= i < |c|
    ensures Rsi(c)[i].None? <==> FlatWindow(c, i)
  {
    var g := Window(Gain(c), RsiWindow, i);
    var l := Window(Loss(c), RsiWindow, i);
    WindowMeanZero(Gain(c), RsiWindow, i);
    WindowMeanZero(Loss(c), RsiWindow, i);
    assert Rsi(c)[i] == RsiOf(Mean(g), Mean(l));
    NoGainIffNoRise(c, i);
    NoLossIffNoFall(c, i);
  }

  /** Once 14 bars exist, the RSI is exactly 100 when the close rose somewhere
      in the window and never fell there. */
  lemma RsiFullIffOnlyRises(c: seq<real>, i: nat)
    requires RsiWindow - 1 <= i < |c|
    ensures Rsi(c)[i] == Some(100.0) <==> NoFallWindow(c, i) && !FlatWindow(c, i)
  {
    var g := Window(Gain(c), RsiWindow, i);
    var l := Window(Loss(c), RsiWindow, i);
    WindowMeanZero(Gain(c), RsiWindow, i);
    WindowMeanZero(Loss(c), RsiWindow, i);
    assert Rsi(c)[i] == RsiOf(Mean(g), Mean(l));
    NoGainIffNoRise(c, i);
    NoLossIffNoFall(c, i);
  }

  /** Once 14 bars exist, the RSI combines the means of the gain and loss
      windows that end at bar `i`. */
  lemma RsiAt(c: seq<real>, i: nat)
    requires RsiWindow - 1 <= i < |c|
    ensures AllNonNegative(Window(Gain(c), RsiWindow, i))
    ensures AllNonNegative(Window(Loss(c), RsiWindow, i))
    ensures Mean(Window(Gain(c), RsiWindow, i)) >= 0.0
    ensures Mean(Window(Loss(c), RsiWindow, i)) >= 0.0
    ensures Rsi(c)[i] == RsiOf(Mean(Window(Gain(c), RsiWindow, i)), Mean(Window(Loss(c), RsiWindow, i)))
  {
    WindowMeanZero(Gain(c), RsiWindow, i);
    WindowMeanZero(Loss(c), RsiWindow, i);
  }

  /** A ratio of means over equally long windows is the ratio of their sums. */
  lemma ShareOfSums(mg: real, ml: real, n: real, sg: real, sl: real)
    requires n > 0.0 && mg >= 0.0 && ml > 0.0
    requires mg * n == sg && ml * n == sl
    ensures sg >= 0.0 && sl > 0.0
    ensures 100.0 * mg / (mg + ml) == 100.0 * sg / (sg + sl)
  {
    PositiveFactor(n, ml);
    PositiveFactor(n, mg);
    var v := 100.0 * mg / (mg + ml);
    assert v * (mg + ml) == 100.0 * mg;
    assert v * (sg + sl) == (v * (mg + ml)) * n;
    assert v * (sg + sl) == 100.0 * sg;
  }

  /** The share of up-moves in the 14-bar window ending at bar `i`, in
      percent: 100 times the summed gains over the summed gains and losses.
      It needs a fall in the window, which makes the summed losses positive. */
  function UpMoveShare(c: seq<real>, i: nat): real
    requires RsiWindow - 1 <= i < |c|
    requires !NoFallWindow(c, i)
  {
    var g := Sum(Window(Gain(c), RsiWindow, i));
    var l := Sum(Window(Loss(c), RsiWindow, i));
    RsiShareOfUpMoves(c, i);
    100.0 * g / (g + l)
  }

  /** When the close fell somewhere in the window, the RSI is defined and is
      the share of upward movement in the total movement of the window. */
  lemma RsiShareOfUpMoves(c: seq<real>, i: nat)
    requires RsiWindow - 1 <= i < |c|
    requires !NoFallWindow(c, i)
    ensures Sum(Window(Gain(c), RsiWindow, i)) >= 0.0
    ensures Sum(Window(Loss(c), RsiWindow, i)) > 0.0
    ensures Rsi(c)[i].Some?
    ensures Rsi(c)[i].value
         == 100.0 * Sum(Window(Gain(c), RsiWindow, i))
            / (Sum(Window(Gain(c), RsiWindow, i)) + Sum(Window(Loss(c), RsiWindow, i)))
    ensures 0.0 <= Rsi(c)[i].value < 100.0
  {
    var g := Window(Gain(c), RsiWindow, i);
    var l := Window(Loss(c), RsiWindow, i);
    RsiAt(c, i);
    WindowMeanZero(Loss(c), RsiWindow, i);
    NoLossIffNoFall(c, i);
    assert Mean(l) > 0.0;
    ShareOfSums(Mean(g), Mean(l), |g| as real, Sum(g), Sum(l));
  }

  /** Every defined RSI value lies in `[0, 100]`. */
  lemma RsiInRange(c: seq<real>)
    ensures forall i :: 0 <= i < |c| && Rsi(c)[i].Some? ==> 0.0 <= Rsi(c)[i].value <= 100.0
  {
    forall i | 0 <= i < |c| && Rsi(c)[i].Some? ensures 0.0 <= Rsi(c)[i].value <= 100.0 {
      WindowMeanZero(Gain(c), RsiWindow, i);
      WindowMeanZero(Loss(c), RsiWindow, i);
    }
  }

  /** A series that never moves has no defined RSI anywhere. */
  lemma FlatSeriesHasNoRsi(c: seq<real>)
    requires forall j :: 1 <= j < |c| ==> c[j] == c[j - 1]
    ensures forall i :: 0 <= i < |c| ==> Rsi(c)[i].None?
  {
    forall i | RsiWindow - 1 <= i < |c| ensures Rsi(c)[i].None? {
      RsiUndefinedIffFlat(c, i);
    }
  }

  // ---------------------------------------------------------------------
  // Volume-bar colours
  // ---------------------------------------------------------------------

  datatype BarColor = Green | Red

  /** Colours of the volume bars: green when the close rose strictly from
      the previous bar, red otherwise, with green prepended for the first
      bar, which has no predecessor. */
  function VolumeColors(c: seq<real>): (colors: seq<BarColor>)
    ensures |colors| == if |c| == 0 then 1 else |c|
    ensures colors[0] == Green
    ensures forall i :: 1 <= i < |c| ==> (colors[i] == Green <==> c[i] > c[i - 1])
  {
    var n := if |c| <= 1 then 0 else |c| - 1;
    [Green] + seq(n, k requires 0 <= k < n => if c[k + 1] > c[k] then Green else Red)
  }

  /** After the first bar, a volume bar is green exactly when that bar has a
      gain, and red exactly when it has a loss or the close is unchanged. */
  lemma ColorsFollowGain(c: seq<real>)
    ensures forall i :: 1 <= i < |c| ==> (VolumeColors(c)[i] == Green <==> Gain(c)[i] > 0.0)
    ensures forall i :: 1 <= i < |c| ==>
      (VolumeColors(c)[i] == Red <==> Loss(c)[i] > 0.0 || c[i] == c[i - 1])
  {
    var colors, g, l := VolumeColors(c), Gain(c), Loss(c);
    forall i | 1 <= i < |c|
      ensures (colors[i] == Green <==> g[i] > 0.0)
      ensures (colors[i] == Red <==> l[i] > 0.0 || c[i] == c[i - 1])
    {
      MoveSplitAt(c, i);
    }
  }

  // ---------------------------------------------------------------------
  // The chart panes
  // ---------------------------------------------------------------------

  const FastMaWindow: nat := 20
  const SlowMaWindow: nat := 50

  /** Everything the price, volume and RSI panes draw besides the raw bars. */
  datatype ChartSeries = ChartSeries(
    ma20: seq<Option<real>>,
    ma50: seq<Option<real>>,
    volumeColors: seq<BarColor>,
    rsi: seq<Option<real>>)

  /** The indicator series of a non-empty close series (an empty download
      stops the page before any chart is built). All are aligned with the
      bars. Each average is defined from its window's last bar on and is
      there the trailing mean. The colours are green at the first bar and
      then green exactly on a strict rise. The RSI is never defined before
      bar 13. From there on it is undefined exactly over a window where the
      close did not move, 100 where it rose and never fell, and otherwise
      the share of up-moves `100 * gains / (gains + losses)` of the window;
      every defined value lies within `[0, 100]`. */
  function Chart(c: seq<real>): (ch: ChartSeries)
    requires |c| > 0
    ensures |ch.ma20| == |c| && |ch.ma50| == |c| && |ch.volumeColors| == |c| && |ch.rsi| == |c|
    ensures forall i :: 0 <= i < |c| ==> (ch.ma20[i].Some? <==> i >= FastMaWindow - 1)
    ensures forall i :: 0 <= i < |c| ==> (ch.ma50[i].Some? <==> i >= SlowMaWindow - 1)
    ensures forall i :: FastMaWindow - 1 <= i < |c| ==> ch.ma20[i] == Some(Mean(Window(c, FastMaWindow, i)))
    ensures forall i :: SlowMaWindow - 1 <= i < |c| ==> ch.ma50[i] == Some(Mean(Window(c, SlowMaWindow, i)))
    ensures ch.volumeColors[0] == Green
    ensures forall i :: 1 <= i < |c| ==> (ch.volumeColors[i] == Green <==> c[i] > c[i - 1])
    ensures forall i :: 0 <= i < |c| && i < RsiWindow - 1 ==> ch.rsi[i].None?
    ensures forall i :: RsiWindow - 1 <= i < |c| ==> (ch.rsi[i].None? <==> FlatWindow(c, i))
    ensures forall i :: 0 <= i < |c| && ch.rsi[i].Some? ==> 0.0 <= ch.rsi[i].value <= 100.0
    ensures forall i :: RsiWindow - 1 <= i < |c| && NoFallWindow(c, i) && !FlatWindow(c, i) ==>
      ch.rsi[i] == Some(100.0)
    ensures forall i :: RsiWindow - 1 <= i < |c| && !NoFallWindow(c, i) ==>
      ch.rsi[i] == Some(UpMoveShare(c, i))
  {
    ChartRsiFacts(c);
    ChartSeries(Sma(c, FastMaWindow), Sma(c, SlowMaWindow), VolumeColors(c), Rsi(c))
  }

  /** The RSI facts the chart states, for every bar at once. */
  lemma ChartRsiFacts(c: seq<real>)
    ensures forall i :: RsiWindow - 1 <= i < |c| ==> (Rsi(c)[i].None? <==> FlatWindow(c, i))
    ensures forall i :: 0 <= i < |c| && Rsi(c)[i].Some? ==> 0.0 <= Rsi(c)[i].value <= 100.0
    ensures forall i :: RsiWindow - 1 <= i < |c| && NoFallWindow(c, i) && !FlatWindow(c, i) ==>
      Rsi(c)[i] == Some(100.0)
    ensures forall i :: RsiWindow - 1 <= i < |c| && !NoFallWindow(c, i) ==>
      Rsi(c)[i] == Some(UpMoveShare(c, i))
  {
    RsiInRange(c);
    forall i | RsiWindow - 1 <= i < |c| ensures Rsi(c)[i].None? <==> FlatWindow(c, i) {
      RsiUndefinedIffFlat(c, i);
    }
    ChartRsiFull(c);
    ChartRsiShare(c);
  }

  /** From bar 13 on, the RSI is 100 wherever the close rose and never fell. */
  lemma ChartRsiFull(c: seq<real>)
    ensures forall i :: RsiWindow - 1 <= i < |c| && NoFallWindow(c, i) && !FlatWindow(c, i) ==>
      Rsi(c)[i] == Some(100.0)
  {
    forall i | RsiWindow - 1 <= i < |c| && NoFallWindow(c, i) && !FlatWindow(c, i)
      ensures Rsi(c)[i] == Some(100.0)
    {
      RsiFullIffOnlyRises(c, i);
    }
  }

  /** From bar 13 on, wherever the close fell, the RSI is the up-move share. */
  lemma ChartRsiShare(c: seq<real>)
    ensures forall i :: RsiWindow - 1 <= i < |c| && !NoFallWindow(c, i) ==>
      Rsi(c)[i] == Some(UpMoveShare(c, i))
  {
    forall i | RsiWindow - 1 <= i < |c| && !NoFallWindow(c, i)
      ensures Rsi(c)[i] == Some(UpMoveShare(c, i))
    {
      RsiShareOfUpMoves(c, i);
    }
  }
}
