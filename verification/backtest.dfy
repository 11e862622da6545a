/**
 The moving-average crossover backtest: hold the instrument on every bar
 where the fast average is above the slow one, earn that bar's move, and
 compound the period returns into a growth curve and a total return.
 */
module Backtest {
  import opened Options
  import opened Numeric
  import opened Prices
  import opened Indicators

  /** Result of a backtest run: either the "not enough data" warning, or the
      period returns (one per bar after the first), the compounded growth
      curve and the total return in percent. */
  datatype Outcome =
    | NotEnoughData
    | Report(fast: nat, slow: nat, periodReturns: seq<real>, curve: seq<real>, totalPct: real)

  // ---------------------------------------------------------------------
  // Signal
  // ---------------------------------------------------------------------

  /** 1 where both averages are defined and the fast one is strictly above
      the slow one; 0 everywhere else, including where an average is still
      undefined (a comparison with NaN is false). */
  function Signal(c: seq<real>, fast: nat, slow: nat): (sig: seq<int>)
    requires fast >= 1 && slow >= 1
    ensures |sig| == |c|
    ensures forall i :: 0 <= i < |c| ==> sig[i] == 0 || sig[i] == 1
  {
    var maFast := Sma(c, fast);
    var maSlow := Sma(c, slow);
    seq(|c|, i requires 0 <= i < |c| =>
      if maFast[i].Some? && maSlow[i].Some? && maFast[i].value > maSlow[i].value then 1 else 0)
  }

  /** The signal is on exactly at bars where both windows are full and the
      mean of the trailing `fast` closes exceeds that of the trailing `slow`. */
  lemma SignalMeansFastAboveSlow(c: seq<real>, fast: nat, slow: nat, i: nat)
    requires fast >= 1 && slow >= 1 && i < |c|
    ensures Signal(c, fast, slow)[i] == 1
        <==> i >= fast - 1 && i >= slow - 1
             && Mean(c[i - fast + 1..i + 1]) > Mean(c[i - slow + 1..i + 1])
  {
  }

  /** With equal windows the two averages coincide, so the signal never turns on. */
  lemma EqualWindowsNeverSignal(c: seq<real>, w: nat)
    requires w >= 1
    ensures forall i :: 0 <= i < |c| ==> Signal(c, w, w)[i] == 0
  {
  }

  // ---------------------------------------------------------------------
  // Period returns and compounding
  // ---------------------------------------------------------------------

  /** Period return of every bar after the first: that bar's 0/1 signal
      times that bar's relative move. The signal is taken from the same bar
      as the move, not from the bar before. */
  function StrategyReturns(c: seq<real>, sig: seq<int>): (ret: seq<real>)
    requires |c| >= 1 && |sig| == |c|
    requires PositivePrices(c)
    ensures |ret| == |c| - 1
    ensures forall k :: 0 <= k < |ret| ==> ret[k] > -1.0
  {
    seq(|c| - 1, k requires 0 <= k < |c| - 1 => if sig[k + 1] == 1 then Change(c[k], c[k + 1]) else 0.0)
  }

  /** Compounded growth of a sequence of period returns: the product of
      `1 + r` over all of them. */
  function Growth(rs: seq<real>): real
  {
    if |rs| == 0 then 1.0 else Growth(rs[..|rs| - 1]) * (1.0 + rs[|rs| - 1])
  }

  /** One more period multiplies the growth by `1 + r`. */
  lemma {:induction false} GrowthStep(rs: seq<real>, k: nat, before: real)
    requires k < |rs|
    requires before == Growth(rs[..k])
    ensures Growth(rs[..k + 1]) == before * (1.0 + rs[k])
  {
    var p := rs[..k + 1];
    assert p[..|p| - 1] == rs[..k];
    assert p[|p| - 1] == rs[k];
  }

  /** Entry `k` is the growth over the first `k + 1` periods. */
  function GrowthsSoFar(rs: seq<real>): (g: seq<real>)
    ensures |g| == |rs|
    ensures forall k {:trigger g[k]} :: 0 <= k < |rs| ==> g[k] == Growth(rs[..k + 1])
  {
    seq(|rs|, k requires 0 <= k < |rs| => Growth(rs[..k + 1]))
  }

  /** Cumulative product of `1 + r`: entry `k` is the growth of one unit
      invested over the first `k + 1` periods. */
  function CumProd(rs: seq<real>): (curve: seq<real>)
    ensures |curve| == |rs|
    ensures |rs| > 0 ==> curve[0] == 1.0 + rs[0]
    ensures forall k :: 1 <= k < |rs| ==> curve[k] == curve[k - 1] * (1.0 + rs[k])
  {
    var curve := GrowthsSoFar(rs);
    if |rs| > 0 then
      CurveRecurrence(rs, curve);
      curve
    else
      curve
  }

  /** A curve whose every point is the growth so far (as the backtest's
      curve is) starts at `1 + r[0]` and multiplies in one `1 + r` per
      further period. */
  lemma CurveRecurrence(rs: seq<real>, curve: seq<real>)
    requires |rs| > 0 && |curve| == |rs|
    requires forall k {:trigger curve[k]} :: 0 <= k < |rs| ==> curve[k] == Growth(rs[..k + 1])
    ensures curve[0] == 1.0 + rs[0]
    ensures forall k :: 1 <= k < |rs| ==> curve[k] == curve[k - 1] * (1.0 + rs[k])
  {
    assert rs[..0] == [];
    GrowthStep(rs, 0, 1.0);
    assert curve[0] == Growth(rs[..1]);
    forall k | 1 <= k < |rs| ensures curve[k] == curve[k - 1] * (1.0 + rs[k]) {
      assert curve[k - 1] == Growth(rs[..k]);
      assert curve[k] == Growth(rs[..k + 1]);
      GrowthStep(rs, k, curve[k - 1]);
    }
  }

  /** Compounding returns that each lose less than everything keeps the
      invested amount positive. */
  lemma {:induction false} GrowthPositive(rs: seq<real>)
    requires forall k :: 0 <= k < |rs| ==> rs[k] > -1.0
    ensures Growth(rs) > 0.0
  {
    if |rs| > 0 {
      var p := rs[..|rs| - 1];
      assert forall k :: 0 <= k < |p| ==> p[k] == rs[k];
      GrowthPositive(p);
      PositiveFactor(Growth(p), 1.0 + rs[|rs| - 1]);
    }
  }

  /** Hence every point of the curve is positive. */
  lemma CurvePositive(rs: seq<real>)
    requires forall k :: 0 <= k < |rs| ==> rs[k] > -1.0
    ensures forall k :: 0 <= k < |rs| ==> CumProd(rs)[k] > 0.0
  {
    forall k | 0 <= k < |rs| ensures CumProd(rs)[k] > 0.0 {
      GrowthPositive(rs[..k + 1]);
    }
  }

  /** Compounding zero returns leaves the amount unchanged. */
  lemma {:induction false} GrowthOfZeros(rs: seq<real>)
    requires forall k :: 0 <= k < |rs| ==> rs[k] == 0.0
    ensures Growth(rs) == 1.0
  {
    if |rs| > 0 {
      var p := rs[..|rs| - 1];
      assert forall k :: 0 <= k < |p| ==> p[k] == rs[k];
      GrowthOfZeros(p);
    }
  }

  /** If `a * g == b` and `b * f == d`, then `a * (g * f) == d`. */
  lemma ChainProducts(a: real, g: real, b: real, f: real, gf: real, d: real)
    requires a * g == b && b * f == d && gf == g * f
    ensures a * gf == d
  {
    assert a * (g * f) == (a * g) * f;
  }

  /** If `a * g == b` with `a` positive, then `g == b / a`. */
  lemma DivideOut(a: real, g: real, b: real)
    requires a > 0.0 && a * g == b
    ensures g == b / a
  {
  }

  /** Each return `rs[k]` carries the level `c[k]` to the next level. */
  predicate CarriesEach(c: seq<real>, rs: seq<real>)
  {
    && |rs| == |c| - 1
    && forall k {:trigger rs[k]} :: 0 <= k < |rs| ==> c[k] * (1.0 + rs[k]) == c[k + 1]
  }

  /** One step of the telescoping product. */
  lemma TelescopeStep(c: seq<real>, rs: seq<real>, j: nat)
    requires j < |rs| && j + 1 < |c|
    requires c[0] * Growth(rs[..j]) == c[j]
    requires c[j] * (1.0 + rs[j]) == c[j + 1]
    ensures c[0] * Growth(rs[..j + 1]) == c[j + 1]
  {
    var g := Growth(rs[..j]);
    GrowthStep(rs, j, g);
    ChainProducts(c[0], g, c[j], 1.0 + rs[j], Growth(rs[..j + 1]), c[j + 1]);
  }

  /** Returns that carry each close to the next compound, over the first
      `m` periods, to the close `m` bars later over the first close. */
  lemma {:induction false} GrowthTelescopes(c: seq<real>, rs: seq<real>, m: nat)
    requires CarriesEach(c, rs) && m < |c|
    ensures c[0] * Growth(rs[..m]) == c[m]
  {
    if m == 0 {
      assert rs[..0] == [];
    } else {
      var j := m - 1;
      GrowthTelescopes(c, rs, j);
      TelescopeStep(c, rs, j);
    }
  }

  /** The whole run of returns carries the first close to the last. */
  lemma GrowthTelescopesFully(c: seq<real>, rs: seq<real>)
    requires CarriesEach(c, rs)
    ensures c[0] * Growth(rs) == c[|c| - 1]
  {
    GrowthTelescopes(c, rs, |rs|);
    assert rs[..|rs|] == rs;
  }

  /** The returns of a run over positive closes `c` that sits out before
      bar `j` and is invested from bar `j` on: 0 for the moves into the
      bars before `j`, the relative move for every later one. */
  predicate EarnsMovesFrom(c: seq<real>, rs: seq<real>, j: nat)
  {
    && PositivePrices(c)
    && 1 <= j <= |c| && |rs| == |c| - 1
    && forall k {:trigger rs[k]} :: 0 <= k < |rs| ==>
         rs[k] == if k + 1 < j then 0.0 else Change(c[k], c[k + 1])
  }

  /** The closes held flat at `c[j - 1]` up to bar `j - 1` and following
      the series from there on. */
  function HeldFrom(c: seq<real>, j: nat): (lv: seq<real>)
    requires 1 <= j <= |c|
    ensures |lv| == |c|
    ensures lv[0] == c[j - 1] && lv[|c| - 1] == c[|c| - 1]
  {
    seq(|c|, k requires 0 <= k < |c| => if k < j - 1 then c[j - 1] else c[k])
  }

  /** Each return of a run that sits out before bar `j` and is invested
      from bar `j` on carries one level of `HeldFrom` to the next. */
  lemma HeldFromStep(c: seq<real>, rs: seq<real>, j: nat, k: nat)
    requires 1 <= j <= |c| && |rs| == |c| - 1 && k < |rs|
    requires PositivePrices(c)
    requires rs[k] == if k + 1 < j then 0.0 else Change(c[k], c[k + 1])
    ensures HeldFrom(c, j)[k] * (1.0 + rs[k]) == HeldFrom(c, j)[k + 1]
  {
    if k + 1 >= j {
      ChangeRestores(c[k], c[k + 1]);
    }
  }

  /** Every return of such a run carries one level of `HeldFrom` to the next. */
  lemma HeldFromSteps(c: seq<real>, rs: seq<real>, j: nat)
    requires EarnsMovesFrom(c, rs, j)
    ensures CarriesEach(HeldFrom(c, j), rs)
  {
    forall k {:trigger rs[k]} | 0 <= k < |rs| ensures HeldFrom(c, j)[k] * (1.0 + rs[k]) == HeldFrom(c, j)[k + 1] {
      HeldFromStep(c, rs, j, k);
    }
  }

  /** Levels carried by the returns telescope from `c[j - 1]` to the last close. */
  lemma HeldFromEnds(c: seq<real>, rs: seq<real>, j: nat)
    requires 1 <= j <= |c|
    requires CarriesEach(HeldFrom(c, j), rs)
    ensures c[j - 1] * Growth(rs) == c[|c| - 1]
  {
    var lv := HeldFrom(c, j);
    GrowthTelescopesFully(lv, rs);
    SameProduct(lv[0], c[j - 1], Growth(rs), lv[|c| - 1], c[|c| - 1]);
  }

  /** Equal factors give equal products. */
  lemma SameProduct(a: real, a2: real, g: real, b: real, b2: real)
    requires a == a2 && b == b2 && a * g == b
    ensures a2 * g == b2
  {
  }

  /** Sitting out until bar `j` and then compounding every relative move of
      the closes carries the close of bar `j - 1` to the last close. */
  lemma CompoundedMovesFrom(c: seq<real>, rs: seq<real>, j: nat)
    requires EarnsMovesFrom(c, rs, j)
    ensures c[j - 1] * Growth(rs) == c[|c| - 1]
  {
    HeldFromSteps(c, rs, j);
    HeldFromEnds(c, rs, j);
  }

  /** Equivalently, such returns compound to the last close over the close
      of bar `j - 1`. */
  lemma CompoundedMovesFromRatio(c: seq<real>, rs: seq<real>, j: nat)
    requires EarnsMovesFrom(c, rs, j)
    ensures Growth(rs) == c[|c| - 1] / c[j - 1]
  {
    CompoundedMovesFrom(c, rs, j);
    DivideOut(c[j - 1], Growth(rs), c[|c| - 1]);
  }

  // ---------------------------------------------------------------------
  // The backtest
  // ---------------------------------------------------------------------

  /** Runs the crossover backtest. With fewer bars than the slow window it
      only warns. Otherwise every period return is the same-bar signal times
      the bar's move, the curve compounds them, and the total return is the
      final growth minus one, in percent, which can never reach -100 %. */
  function Run(c: seq<real>, fast: nat, slow: nat): (out: Outcome)
    requires fast >= 1 && slow >= 2
    requires PositivePrices(c)
    ensures out.NotEnoughData? <==> |c| < slow
    ensures out.Report? ==>
      && out.fast == fast && out.slow == slow
      && |out.periodReturns| == |c| - 1
      && |out.curve| == |c| - 1
    ensures out.Report? ==> forall k :: 0 <= k < |c| - 1 ==>
      (Signal(c, fast, slow)[k + 1] == 1 ==> out.periodReturns[k] == Change(c[k], c[k + 1]))
    ensures out.Report? ==> forall k :: 0 <= k < |c| - 1 ==>
      (Signal(c, fast, slow)[k + 1] == 0 ==> out.periodReturns[k] == 0.0)
    ensures out.Report? ==> forall k :: 0 <= k < |c| - 1 ==>
      out.curve[k] == Growth(out.periodReturns[..k + 1]) && out.curve[k] > 0.0
    ensures out.Report? ==> out.totalPct == (out.curve[|c| - 2] - 1.0) * 100.0
    ensures out.Report? ==> out.totalPct > -100.0
  {
    if |c| < slow then
      NotEnoughData
    else
      var ret := StrategyReturns(c, Signal(c, fast, slow));
      var curve := CumProd(ret);
      CurvePositive(ret);
      Report(fast, slow, ret, curve, (curve[|curve| - 1] - 1.0) * 100.0)
  }

  /** Before the slow window is full the strategy is never invested, so the
      curve stays at 1. */
  lemma FlatBeforeSlowWindow(c: seq<real>, fast: nat, slow: nat, k: nat)
    requires fast >= 1 && slow >= 2
    requires PositivePrices(c)
    requires |c| >= slow
    requires k + 1 < slow - 1
    ensures Run(c, fast, slow).periodReturns[k] == 0.0
    ensures Run(c, fast, slow).curve[k] == 1.0
  {
    var out := Run(c, fast, slow);
    forall j | 0 <= j <= k ensures out.periodReturns[j] == 0.0 {
      SignalMeansFastAboveSlow(c, fast, slow, j + 1);
    }
    GrowthOfZeros(out.periodReturns[..k + 1]);
  }

  /** Equal fast and slow windows never trade: every return is 0, the curve
      stays at 1 and the total return is exactly 0 %. */
  lemma EqualWindowsBreakEven(c: seq<real>, w: nat)
    requires w >= 2
    requires PositivePrices(c)
    requires |c| >= w
    ensures Run(c, w, w).Report?
    ensures forall k :: 0 <= k < |c| - 1 ==> Run(c, w, w).periodReturns[k] == 0.0
    ensures forall k :: 0 <= k < |c| - 1 ==> Run(c, w, w).curve[k] == 1.0
    ensures Run(c, w, w).totalPct == 0.0
  {
    var out := Run(c, w, w);
    EqualWindowsNeverSignal(c, w);
    forall k | 0 <= k < |c| - 1 ensures out.curve[k] == 1.0 {
      GrowthOfZeros(out.periodReturns[..k + 1]);
    }
  }

  /** A run whose signal is off before bar `j` and on from bar `j` on earns
      nothing until then and every relative move of the closes afterwards. */
  lemma InvestedFromEarnsLaterMoves(c: seq<real>, fast: nat, slow: nat, j: nat)
    requires fast >= 1 && slow >= 2
    requires PositivePrices(c)
    requires |c| >= slow && 1 <= j <= |c|
    requires forall i :: 1 <= i < |c| ==> Signal(c, fast, slow)[i] == if i < j then 0 else 1
    ensures Run(c, fast, slow).Report?
    ensures forall k {:trigger Run(c, fast, slow).periodReturns[k]} :: 0 <= k < |c| - 1 ==>
      Run(c, fast, slow).periodReturns[k] == if k + 1 < j then 0.0 else Change(c[k], c[k + 1])
  {
  }

  /** Such a run earns exactly the buy-and-hold return from the close of
      bar `j - 1`, the bar before the signal turned on, to the last close. */
  lemma InvestedFromIsBuyAndHold(c: seq<real>, fast: nat, slow: nat, j: nat)
    requires fast >= 1 && slow >= 2
    requires PositivePrices(c)
    requires |c| >= slow && 1 <= j <= |c|
    requires forall i :: 1 <= i < |c| ==> Signal(c, fast, slow)[i] == if i < j then 0 else 1
    ensures Run(c, fast, slow).totalPct == (c[|c| - 1] / c[j - 1] - 1.0) * 100.0
  {
    var out := Run(c, fast, slow);
    var ret := out.periodReturns;
    InvestedFromEarnsLaterMoves(c, fast, slow, j);
    CompoundedMovesFromRatio(c, ret, j);
    assert ret[..|c| - 1] == ret;
  }

  // ---------------------------------------------------------------------
  // A strictly rising series
  // ---------------------------------------------------------------------

  /** Every close is strictly above every earlier one. */
  predicate StrictlyRising(c: seq<real>)
  {
    forall a, b :: 0 <= a < b < |c| ==> c[a] < c[b]
  }

  /** A stretch of a rising series lies between its first and last close. */
  lemma RisingStretch(c: seq<real>, lo: nat, hi: nat)
    requires StrictlyRising(c)
    requires lo <= hi < |c|
    ensures AllBetween(c[lo..hi + 1], c[lo], c[hi])
  {
    var s := c[lo..hi + 1];
    forall k | 0 <= k < |s| ensures c[lo] <= s[k] <= c[hi] {
      assert s[k] == c[lo + k];
    }
  }

  /** Appending `nS` values that average at least `lo` to `nA` values
      summing to at most `nA * hi`, with `hi < lo`, pulls the average down. */
  lemma MeanOfOlderAndNewer(nA: real, nS: real, sA: real, sS: real, hi: real, lo: real)
    requires nA > 0.0 && nS > 0.0
    requires sA <= nA * hi && sS >= nS * lo && hi < lo
    ensures (sA + sS) / (nA + nS) < sS / nS
  {
    var m := sS / nS;
    assert sS == m * nS;
    assert m >= lo;
    assert nA * hi < nA * lo;
    assert nA * lo <= nA * m;
    assert sA + sS < (nA + nS) * m;
  }

  /** The closes of a rising series before index `end` sum to at most
      their count times the last of them. */
  lemma RisingSumBelow(c: seq<real>, start: nat, end: nat)
    requires StrictlyRising(c)
    requires start < end <= |c|
    ensures Sum(c[start..end]) <= ((end - start) as real) * c[end - 1]
  {
    RisingStretch(c, start, end - 1);
    assert c[start..end - 1 + 1] == c[start..end];
    SumBetween(c[start..end], c[start], c[end - 1]);
  }

  /** The fast window of a rising series sums to at least its length times
      its first close. */
  lemma RisingSumAbove(c: seq<real>, w: nat, i: nat)
    requires StrictlyRising(c)
    requires 1 <= w && w - 1 <= i < |c|
    ensures Sum(Window(c, w, i)) >= (w as real) * c[i - w + 1]
  {
    RisingStretch(c, i - w + 1, i);
    SumBetween(Window(c, w, i), c[i - w + 1], c[i]);
  }

  /** The slow window is the closes before the fast window followed by the
      fast window itself. */
  lemma SlowWindowSplits(c: seq<real>, fast: nat, slow: nat, i: nat)
    requires 1 <= fast < slow
    requires slow - 1 <= i < |c|
    ensures Sum(Window(c, slow, i)) == Sum(c[i - slow + 1..i - fast + 1]) + Sum(Window(c, fast, i))
  {
    assert Window(c, slow, i) == c[i - slow + 1..i - fast + 1] + Window(c, fast, i);
    SumAppend(c[i - slow + 1..i - fast + 1], Window(c, fast, i));
  }

  /** In a rising series, once both windows are full, the shorter trailing
      window has the strictly higher mean. */
  lemma RisingFastAboveSlow(c: seq<real>, fast: nat, slow: nat, i: nat)
    requires 1 <= fast < slow
    requires StrictlyRising(c)
    requires slow - 1 <= i < |c|
    ensures Mean(Window(c, fast, i)) > Mean(Window(c, slow, i))
  {
    var m := i - fast + 1;
    SlowWindowSplits(c, fast, slow, i);
    RisingSumBelow(c, i - slow + 1, m);
    RisingSumAbove(c, fast, i);
    assert c[m - 1] < c[m];
    WindowMeansCompare(Window(c, fast, i), Window(c, slow, i), Sum(c[i - slow + 1..m]), c[m - 1], c[m]);
  }

  /** A slow window made of older values summing to `sA` and the fast
      window, where the older values stay at or below `hi` and the fast
      window's at or above `lo > hi`, has the lower mean. */
  lemma WindowMeansCompare(fastWin: seq<real>, slowWin: seq<real>, sA: real, hi: real, lo: real)
    requires 0 < |fastWin| < |slowWin|
    requires Sum(slowWin) == sA + Sum(fastWin)
    requires sA <= ((|slowWin| - |fastWin|) as real) * hi
    requires Sum(fastWin) >= (|fastWin| as real) * lo
    requires hi < lo
    ensures Mean(fastWin) > Mean(slowWin)
  {
    var nA := (|slowWin| - |fastWin|) as real;
    var nS := |fastWin| as real;
    MeanOfOlderAndNewer(nA, nS, sA, Sum(fastWin), hi, lo);
    assert nA + nS == |slowWin| as real;
  }

  /** On a rising series with a fast window shorter than the slow one, the
      signal is off until the slow window fills at bar `slow - 1` and on
      at every bar from there. */
  lemma RisingSeriesSignal(c: seq<real>, fast: nat, slow: nat)
    requires 1 <= fast < slow
    requires StrictlyRising(c)
    ensures forall i :: 0 <= i < |c| ==> Signal(c, fast, slow)[i] == if i < slow - 1 then 0 else 1
  {
    forall i | 0 <= i < |c| ensures Signal(c, fast, slow)[i] == if i < slow - 1 then 0 else 1 {
      SignalMeansFastAboveSlow(c, fast, slow, i);
      if i >= slow - 1 {
        RisingFastAboveSlow(c, fast, slow, i);
      }
    }
  }

  /** Such a run earns the rise from the close of bar `slow - 2`, the bar
      before the signal turns on, to the last close. */
  lemma RisingSeriesReturn(c: seq<real>, fast: nat, slow: nat)
    requires 1 <= fast < slow
    requires PositivePrices(c) && StrictlyRising(c)
    requires |c| >= slow
    ensures Run(c, fast, slow).totalPct == (c[|c| - 1] / c[slow - 2] - 1.0) * 100.0
    ensures Run(c, fast, slow).totalPct > 0.0
  {
    var j := slow - 1;
    RisingSeriesSignal(c, fast, slow);
    assert forall i :: 1 <= i < |c| ==> Signal(c, fast, slow)[i] == if i < j then 0 else 1;
    InvestedFromIsBuyAndHold(c, fast, slow, j);
    assert c[slow - 2] < c[|c| - 1];
    RatioAboveOne(c[slow - 2], c[|c| - 1]);
  }

  /** A later price above a positive earlier one is a ratio above 1. */
  lemma RatioAboveOne(a: real, b: real)
    requires 0.0 < a < b
    ensures b / a > 1.0
  {
    assert b / a * a == b;
  }
}
