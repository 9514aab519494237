/** The indicator library of the tracker (the `Calculate` service): moving
    averages, EMA and volume-weighted EMA series, ATR, RSI and MACD over
    arrays of prices read oldest first.  Prices and volumes are reals, so the
    arithmetic is exact where PHP uses floats. */
module Calculate {
  import opened Common

  /** The smoothing factor `2 / (period + 1)`. */
  function K(period: int): real
    requires period != -1
  {
    2.0 / (period as real + 1.0)
  }

  function Last(s: seq<real>): real
    requires |s| > 0
  {
    s[|s| - 1]
  }

  // ---------------------------------------------------------------------------
  // EMA

  /** One smoothing step: `value * k + prev * (1 - k)`. */
  function EmaStep(value: real, prev: real, period: int): real
    requires period != -1
  {
    value * K(period) + prev * (1.0 - K(period))
  }

  /** The EMA series: seeded with the first value, then
      `ema[i] = values[i] * k + ema[i-1] * (1 - k)`. */
  function EmaSeries(values: seq<real>, period: int): (r: seq<real>)
    requires |values| > 0 && period != -1
    ensures |r| == |values|
    ensures r[0] == values[0]
    decreases |values|
  {
    if |values| == 1 then [values[0]]
    else
      var prev := EmaSeries(values[..|values| - 1], period);
      prev + [EmaStep(values[|values| - 1], Last(prev), period)]
  }

  lemma EmaSeriesStep(values: seq<real>, i: nat, period: int)
    requires period != -1 && 1 <= i < |values|
    ensures EmaSeries(values[..i + 1], period)
         == EmaSeries(values[..i], period) + [EmaStep(values[i], Last(EmaSeries(values[..i], period)), period)]
  {
    assert values[..i + 1][..i] == values[..i];
  }

  /** Every element after the seed follows the recurrence
      `ema[i] = values[i] * k + ema[i-1] * (1 - k)`. */
  lemma {:induction false} EmaRecurrence(values: seq<real>, period: int)
    requires |values| > 0 && period != -1
    ensures forall i :: 1 <= i < |values| ==>
      EmaSeries(values, period)[i] == EmaStep(values[i], EmaSeries(values, period)[i - 1], period)
    decreases |values|
  {
    if |values| > 1 {
      var init := values[..|values| - 1];
      EmaRecurrence(init, period);
      var r := EmaSeries(values, period);
      var prev := EmaSeries(init, period);
      assert r == prev + [EmaStep(values[|values| - 1], Last(prev), period)];
      forall i | 1 <= i < |values|
        ensures r[i] == EmaStep(values[i], r[i - 1], period)
      {
        if i < |values| - 1 {
          assert r[i] == prev[i] && r[i - 1] == prev[i - 1] && values[i] == init[i];
        }
      }
    }
  }

  /** `Calculate::EMAs`: the whole series, built by appending one value per
      input element. */
  method EMAs(values: seq<real>, period: int) returns (ema: seq<real>)
    requires |values| > 0 && period != -1
    ensures ema == EmaSeries(values, period)
  {
    ema := [values[0]];
    var i := 1;
    while i < |values|
      invariant 1 <= i <= |values|
      invariant ema == EmaSeries(values[..i], period)
    {
      EmaSeriesStep(values, i, period);
      ema := ema + [EmaStep(values[i], ema[i - 1], period)];
      i := i + 1;
    }
    assert values[..|values|] == values;
  }

  /** `Calculate::EMA`: only the running value is kept; it is the last element
      of the series. */
  method EMA(values: seq<real>, period: int) returns (ema: real)
    requires |values| > 0 && period != -1
    ensures ema == Last(EmaSeries(values, period))
  {
    ema := values[0];
    var i := 1;
    while i < |values|
      invariant 1 <= i <= |values|
      invariant ema == Last(EmaSeries(values[..i], period))
    {
      EmaSeriesStep(values, i, period);
      ema := EmaStep(values[i], ema, period);
      i := i + 1;
    }
    assert values[..|values|] == values;
  }

  lemma ConstantStep(c: real, k: real)
    ensures c * k + c * (1.0 - k) == c
  {
  }

  /** A constant input has a constant EMA series, so EMA returns that
      constant. */
  lemma {:induction false} EmaOfConstant(values: seq<real>, period: int, c: real)
    requires |values| > 0 && period != -1
    requires forall i :: 0 <= i < |values| ==> values[i] == c
    ensures forall i :: 0 <= i < |values| ==> EmaSeries(values, period)[i] == c
    decreases |values|
  {
    if |values| > 1 {
      var init := values[..|values| - 1];
      EmaOfConstant(init, period, c);
      ConstantStep(c, K(period));
      assert EmaStep(c, c, period) == c;
    }
  }

  lemma MulNonNegative(x: real, y: real)
    requires x >= 0.0 && y >= 0.0
    ensures x * y >= 0.0
  {
  }

  /** A smoothing step with 0 <= k <= 1 lands between its two inputs. */
  lemma ConvexStep(a: real, b: real, k: real, lo: real, hi: real)
    requires 0.0 <= k <= 1.0 && lo <= a <= hi && lo <= b <= hi
    ensures lo <= a * k + b * (1.0 - k) <= hi
  {
    var t := k * (a - b);
    var u := (1.0 - k) * (a - b);
    assert a * k + b * (1.0 - k) == b + t;
    assert t + u == a - b;
    if a >= b {
      MulNonNegative(k, a - b);
      MulNonNegative(1.0 - k, a - b);
    } else {
      MulNonNegative(k, b - a);
      MulNonNegative(1.0 - k, b - a);
      assert k * (b - a) == -t;
      assert (1.0 - k) * (b - a) == -u;
    }
  }

  /** For a positive period every EMA value stays within the range of the
      inputs. */
  lemma {:induction false} EmaWithinRange(values: seq<real>, period: int, lo: real, hi: real)
    requires |values| > 0 && period >= 1
    requires forall i :: 0 <= i < |values| ==> lo <= values[i] <= hi
    ensures forall i :: 0 <= i < |values| ==> lo <= EmaSeries(values, period)[i] <= hi
    decreases |values|
  {
    if |values| > 1 {
      var init := values[..|values| - 1];
      EmaWithinRange(init, period, lo, hi);
      var prev := EmaSeries(init, period);
      ConvexStep(values[|values| - 1], Last(prev), K(period), lo, hi);
      assert lo <= EmaStep(values[|values| - 1], Last(prev), period) <= hi;
    }
  }

  // ---------------------------------------------------------------------------
  // MA

  /** `Calculate::MA`: 0 while there are fewer than `period` values, else the
      mean of the last `period` values. */
  function MA(data: seq<real>, period: int): (r: real)
    requires period > 0
  {
    if |data| < period then 0.0 else Sum(TakeLast(data, period)) / period as real
  }

  /** The moving average lies between the smallest and the largest of the last
      `period` values. */
  lemma MaWithinWindow(data: seq<real>, period: int, lo: real, hi: real)
    requires period > 0 && |data| >= period
    requires forall i :: |data| - period <= i < |data| ==> lo <= data[i] <= hi
    ensures lo <= MA(data, period) <= hi
  {
    var w := TakeLast(data, period);
    assert w == data[|data| - period..];
    assert forall i :: 0 <= i < |w| ==> lo <= w[i] <= hi by {
      forall i | 0 <= i < |w| ensures lo <= w[i] <= hi {
        assert w[i] == data[|data| - period + i];
      }
    }
    SumBounds(w, lo, hi);
    QuotientBetween(Sum(w), period as real, lo, hi);
    assert MA(data, period) == Sum(w) / period as real;
  }

  /** Older values do not move the moving average once `period` values exist. */
  lemma MaIgnoresOlderData(older: seq<real>, data: seq<real>, period: int)
    requires period > 0 && |data| >= period
    ensures MA(older + data, period) == MA(data, period)
  {
    assert TakeLast(older + data, period) == TakeLast(data, period);
  }

  // ---------------------------------------------------------------------------
  // ATR

  /** One true range: the largest of high − low and the two gaps to the previous
      close. */
  function TrueRange(high: real, low: real, prevClose: real): (tr: real)
    ensures tr >= 0.0
    ensures tr >= high - low && tr >= Abs(high - prevClose) && tr >= Abs(low - prevClose)
    ensures tr == high - low || tr == Abs(high - prevClose) || tr == Abs(low - prevClose)
  {
    Max(Max(high - low, Abs(high - prevClose)), Abs(low - prevClose))
  }

  /** The true ranges of bars 1 .. n-1. */
  function TrueRanges(highs: seq<real>, lows: seq<real>, closes: seq<real>): (tr: seq<real>)
    requires |lows| == |highs| && |closes| == |highs|
    ensures |tr| == if |highs| == 0 then 0 else |highs| - 1
    ensures forall i :: 0 <= i < |tr| ==> tr[i] >= 0.0
  {
    if |highs| == 0 then []
    else seq(|highs| - 1, i requires 0 <= i < |highs| - 1 => TrueRange(highs[i + 1], lows[i + 1], closes[i]))
  }

  /** The ATR the service returns: the last `period` true ranges summed and
      divided by `period`, however many ranges there are. */
  function AtrValue(highs: seq<real>, lows: seq<real>, closes: seq<real>, period: int): real
    requires |lows| == |highs| && |closes| == |highs| && period > 0
  {
    Sum(TakeLast(TrueRanges(highs, lows, closes), period)) / period as real
  }

  /** `Calculate::ATR`. */
  method ATR(highs: seq<real>, lows: seq<real>, closes: seq<real>, period: int) returns (atr: real)
    requires |lows| == |highs| && |closes| == |highs| && period > 0
    ensures atr == AtrValue(highs, lows, closes, period)
    ensures atr >= 0.0
  {
    var tr: seq<real> := [];
    var i := 1;
    while i < |highs|
      invariant 1 <= i <= |highs| || (|highs| == 0 && i == 1)
      invariant |tr| == i - 1
      invariant forall j :: 0 <= j < |tr| ==> tr[j] == TrueRange(highs[j + 1], lows[j + 1], closes[j])
    {
      tr := tr + [TrueRange(highs[i], lows[i], closes[i - 1])];
      i := i + 1;
    }
    assert tr == TrueRanges(highs, lows, closes);
    atr := Sum(TakeLast(tr, period)) / period as real;
    AtrNonNegative(highs, lows, closes, period);
  }

  /** ATR is never negative: every true range is non-negative. */
  lemma AtrNonNegative(highs: seq<real>, lows: seq<real>, closes: seq<real>, period: int)
    requires |lows| == |highs| && |closes| == |highs| && period > 0
    ensures AtrValue(highs, lows, closes, period) >= 0.0
  {
    var w := TakeLast(TrueRanges(highs, lows, closes), period);
    SumNonNegative(w);
    DivNonNegative(Sum(w), period as real);
  }

  // ---------------------------------------------------------------------------
  // RSI

  function Gain(change: real): (g: real)
    ensures g >= 0.0
  {
    if change > 0.0 then change else 0.0
  }

  function Loss(change: real): (l: real)
    ensures l >= 0.0
  {
    if change > 0.0 then 0.0 else Abs(change)
  }

  /** The per-step gains of the price series. */
  function Gains(prices: seq<real>): (g: seq<real>)
    ensures |g| == if |prices| == 0 then 0 else |prices| - 1
    ensures forall i :: 0 <= i < |g| ==> g[i] >= 0.0
  {
    if |prices| == 0 then []
    else seq(|prices| - 1, i requires 0 <= i < |prices| - 1 => Gain(prices[i + 1] - prices[i]))
  }

  /** The per-step losses of the price series, as non-negative amounts. */
  function Losses(prices: seq<real>): (l: seq<real>)
    ensures |l| == if |prices| == 0 then 0 else |prices| - 1
    ensures forall i :: 0 <= i < |l| ==> l[i] >= 0.0
  {
    if |prices| == 0 then []
    else seq(|prices| - 1, i requires 0 <= i < |prices| - 1 => Loss(prices[i + 1] - prices[i]))
  }

  lemma DivNonNegative(x: real, y: real)
    requires x >= 0.0 && y > 0.0
    ensures x / y >= 0.0
    ensures x / y == 0.0 <==> x == 0.0
  {
  }

  lemma MulPositive(x: real, y: real)
    requires x > 0.0 && y > 0.0
    ensures x * y > 0.0
  {
  }

  /** For rs >= 0, `100 / (1 + rs)` lies in (0, 100] and is 100 iff rs is 0. */
  lemma DivBounds(rs: real)
    requires rs >= 0.0
    ensures 0.0 < 100.0 / (1.0 + rs) <= 100.0
    ensures 100.0 / (1.0 + rs) == 100.0 <==> rs == 0.0
  {
    var q := 100.0 / (1.0 + rs);
    assert q * (1.0 + rs) == 100.0;
    if rs > 0.0 {
      assert q > 0.0;
      MulPositive(q, rs);
    }
  }

  /** The RSI formula on the two averages: 100 when the average loss is 0, else
      `100 - 100 / (1 + gain / loss)`. */
  function RsiOf(averageGain: real, averageLoss: real): real
    requires averageGain >= 0.0 && averageLoss >= 0.0
  {
    if averageLoss == 0.0 then 100.0
    else
      DivNonNegative(averageGain, averageLoss);
      100.0 - 100.0 / (1.0 + averageGain / averageLoss)
  }

  /** The formula is 100 exactly when the average loss is 0, lies in [0, 100],
      and is 0 exactly when there is loss but no gain. */
  lemma RsiOfBounds(averageGain: real, averageLoss: real)
    requires averageGain >= 0.0 && averageLoss >= 0.0
    ensures RsiOf(averageGain, averageLoss) == 100.0 <==> averageLoss == 0.0
    ensures 0.0 <= RsiOf(averageGain, averageLoss) <= 100.0
    ensures RsiOf(averageGain, averageLoss) == 0.0 <==> averageGain == 0.0 && averageLoss != 0.0
  {
    if averageLoss != 0.0 {
      var rs := averageGain / averageLoss;
      DivNonNegative(averageGain, averageLoss);
      DivBounds(rs);
    }
  }

  /** The mean of the last `period` entries, dividing by `period` even when
      there are fewer: `array_sum(array_slice($s, -$period)) / $period`. */
  function TailMean(s: seq<real>, period: int): (m: real)
    requires period > 0
    requires forall i :: 0 <= i < |s| ==> s[i] >= 0.0
    ensures m >= 0.0
    ensures m == 0.0 <==> Sum(TakeLast(s, period)) == 0.0
  {
    SumNonNegative(TakeLast(s, period));
    DivNonNegative(Sum(TakeLast(s, period)), period as real);
    Sum(TakeLast(s, period)) / period as real
  }

  /** The RSI of the last `period` steps from the plain means of gain and
      loss. */
  function RsiValue(prices: seq<real>, period: int): real
    requires period > 0
  {
    RsiOf(TailMean(Gains(prices), period), TailMean(Losses(prices), period))
  }

  /** `Calculate::RSI`. */
  method RSI(prices: seq<real>, period: int) returns (rsi: real)
    requires period > 0
    ensures rsi == RsiValue(prices, period)
  {
    var gains: seq<real> := [];
    var losses: seq<real> := [];
    var i := 1;
    while i < |prices|
      invariant 1 <= i <= |prices| || (|prices| == 0 && i == 1)
      invariant gains == Gains(prices)[..i - 1] && losses == Losses(prices)[..i - 1]
    {
      var change := prices[i] - prices[i - 1];
      assert Gains(prices)[i - 1] == Gain(change) && Losses(prices)[i - 1] == Loss(change);
      if change > 0.0 {
        gains := gains + [change];
        losses := losses + [0.0];
      } else {
        gains := gains + [0.0];
        losses := losses + [Abs(change)];
      }
      assert Gains(prices)[..i] == Gains(prices)[..i - 1] + [Gains(prices)[i - 1]];
      assert Losses(prices)[..i] == Losses(prices)[..i - 1] + [Losses(prices)[i - 1]];
      i := i + 1;
    }
    assert gains == Gains(prices) && losses == Losses(prices);
    var averageGain := TailMean(gains, period);
    var averageLoss := TailMean(losses, period);
    rsi := RsiOf(averageGain, averageLoss);
  }

  /** RSI is exactly 100 iff the losses over the last `period` steps sum to 0;
      otherwise it lies in [0, 100). */
  lemma RsiRange(prices: seq<real>, period: int)
    requires period > 0
    ensures RsiValue(prices, period) == 100.0 <==> Sum(TakeLast(Losses(prices), period)) == 0.0
    ensures 0.0 <= RsiValue(prices, period) <= 100.0
  {
    var gain := TailMean(Gains(prices), period);
    var loss := TailMean(Losses(prices), period);
    RsiOfBounds(gain, loss);
  }

  /** RSI is 0 iff the last `period` steps hold no gain and at least one loss. */
  lemma RsiZero(prices: seq<real>, period: int)
    requires period > 0
    ensures RsiValue(prices, period) == 0.0
        <==> Sum(TakeLast(Gains(prices), period)) == 0.0 && Sum(TakeLast(Losses(prices), period)) != 0.0
  {
    var gain := TailMean(Gains(prices), period);
    var loss := TailMean(Losses(prices), period);
    RsiOfBounds(gain, loss);
  }

  // ---------------------------------------------------------------------------
  // MACD

  /** The latest MACD line, signal line and histogram. */
  datatype Macd = Macd(line: real, signal: real, histogram: real)

  /** `$a - $b` element-wise, as the `array_map` over two arrays does. */
  function Diff(a: seq<real>, b: seq<real>): (d: seq<real>)
    requires |a| == |b|
    ensures |d| == |a| && forall i :: 0 <= i < |a| ==> d[i] == a[i] - b[i]
  {
    seq(|a|, i requires 0 <= i < |a| => a[i] - b[i])
  }

  /** MACD from a fast and a slow series: the line is fast − slow, the signal its
      9-period EMA series, the histogram line − signal; the latest of each. */
  function MacdOf(fast: seq<real>, slow: seq<real>): (m: Macd)
    requires |fast| == |slow| > 0
    ensures m.line == Last(fast) - Last(slow)
    ensures m.signal == Last(EmaSeries(Diff(fast, slow), 9))
    ensures m.line == m.signal + m.histogram
  {
    var line := Diff(fast, slow);
    var signal := EmaSeries(line, 9);
    var histogram := Diff(line, signal);
    Macd(Last(line), Last(signal), Last(histogram))
  }

  /** `Calculate::MACD`: EMA 12 against EMA 26 of the closes. */
  function MACD(closes: seq<real>): Macd
    requires |closes| > 0
  {
    MacdOf(EmaSeries(closes, 12), EmaSeries(closes, 26))
  }

  /** Constant closes give a zero line, signal and histogram. */
  lemma MacdOfConstant(closes: seq<real>, c: real)
    requires |closes| > 0
    requires forall i :: 0 <= i < |closes| ==> closes[i] == c
    ensures MACD(closes) == Macd(0.0, 0.0, 0.0)
  {
    EmaOfConstant(closes, 12, c);
    EmaOfConstant(closes, 26, c);
    var line := Diff(EmaSeries(closes, 12), EmaSeries(closes, 26));
    assert forall i :: 0 <= i < |line| ==> line[i] == 0.0;
    EmaOfConstant(line, 9, 0.0);
  }

  // ---------------------------------------------------------------------------
  // Volume-weighted EMA

  /** The volume used in the recurrence: the bar volume, or 1 when it is not
      positive. */
  function EffectiveVolume(volume: real): real { if volume > 0.0 then volume else 1.0 }

  /** The weight a bar contributes after the seed: its price times its
      effective volume. */
  function Weight(price: real, volume: real): real { price * EffectiveVolume(volume) }

  /** The seed: the weighted first price divided by its volume, or the first
      price when the volume is not positive. */
  function VwemaSeed(price: real, volume: real): (s: real)
    ensures s == price
  {
    var weight := if volume > 0.0 then price * volume else 0.0;
    if volume > 0.0 then weight / volume else price
  }

  /** The VWEMA series: seeded as VwemaSeed, then
      `vw[i] = prices[i] * effectiveVolume[i] * k + vw[i-1] * (1 - k)`. */
  function VwemaSeries(prices: seq<real>, volumes: seq<real>, period: int): (r: seq<real>)
    requires |prices| > 0 && |volumes| == |prices| && period != -1
    ensures |r| == |prices|
    ensures r[0] == prices[0]
    decreases |prices|
  {
    if |prices| == 1 then [VwemaSeed(prices[0], volumes[0])]
    else
      var n := |prices| - 1;
      var prev := VwemaSeries(prices[..n], volumes[..n], period);
      prev + [EmaStep(Weight(prices[n], volumes[n]), Last(prev), period)]
  }

  lemma VwemaSeriesStep(prices: seq<real>, volumes: seq<real>, i: nat, period: int)
    requires |volumes| == |prices| && period != -1 && 1 <= i < |prices|
    ensures VwemaSeries(prices[..i + 1], volumes[..i + 1], period)
         == VwemaSeries(prices[..i], volumes[..i], period)
            + [EmaStep(Weight(prices[i], volumes[i]), Last(VwemaSeries(prices[..i], volumes[..i], period)), period)]
  {
    assert prices[..i + 1][..i] == prices[..i];
    assert volumes[..i + 1][..i] == volumes[..i];
  }

  /** Every element after the seed follows the recurrence
      `vw[i] = prices[i] * effectiveVolume[i] * k + vw[i-1] * (1 - k)`. */
  lemma {:induction false} VwemaRecurrence(prices: seq<real>, volumes: seq<real>, period: int)
    requires |prices| > 0 && |volumes| == |prices| && period != -1
    ensures forall i :: 1 <= i < |prices| ==>
      VwemaSeries(prices, volumes, period)[i]
        == EmaStep(Weight(prices[i], volumes[i]), VwemaSeries(prices, volumes, period)[i - 1], period)
    decreases |prices|
  {
    if |prices| > 1 {
      var n := |prices| - 1;
      VwemaRecurrence(prices[..n], volumes[..n], period);
      var r := VwemaSeries(prices, volumes, period);
      var prev := VwemaSeries(prices[..n], volumes[..n], period);
      assert r == prev + [EmaStep(Weight(prices[n], volumes[n]), Last(prev), period)];
      forall i | 1 <= i < |prices|
        ensures r[i] == EmaStep(Weight(prices[i], volumes[i]), r[i - 1], period)
      {
        if i < n {
          assert r[i] == prev[i] && r[i - 1] == prev[i - 1];
          assert prices[i] == prices[..n][i] && volumes[i] == volumes[..n][i];
        }
      }
    }
  }

  /** `Calculate::VWEMAs`. */
  method VWEMAs(prices: seq<real>, volumes: seq<real>, period: int) returns (vwemas: seq<real>)
    requires |prices| > 0 && |volumes| == |prices| && period != -1
    ensures vwemas == VwemaSeries(prices, volumes, period)
  {
    var weight0 := if volumes[0] > 0.0 then prices[0] * volumes[0] else 0.0;
    vwemas := [if volumes[0] > 0.0 then weight0 / volumes[0] else prices[0]];
    assert vwemas[0] == VwemaSeed(prices[0], volumes[0]);
    assert prices[..1] == [prices[0]] && volumes[..1] == [volumes[0]];
    var i := 1;
    while i < |prices|
      invariant 1 <= i <= |prices|
      invariant vwemas == VwemaSeries(prices[..i], volumes[..i], period)
    {
      VwemaSeriesStep(prices, volumes, i, period);
      var currentVolume := EffectiveVolume(volumes[i]);
      var currentWeight := prices[i] * currentVolume;
      assert currentWeight == Weight(prices[i], volumes[i]);
      vwemas := vwemas + [EmaStep(currentWeight, vwemas[i - 1], period)];
      i := i + 1;
    }
    assert prices[..|prices|] == prices && volumes[..|volumes|] == volumes;
  }

  /** With every volume 1 or non-positive the weights are the prices, and the
      VWEMA series is the EMA series. */
  lemma {:induction false} VwemaOfUnitVolumes(prices: seq<real>, volumes: seq<real>, period: int)
    requires |prices| > 0 && |volumes| == |prices| && period != -1
    requires forall i :: 0 <= i < |volumes| ==> volumes[i] <= 0.0 || volumes[i] == 1.0
    ensures VwemaSeries(prices, volumes, period) == EmaSeries(prices, period)
    decreases |prices|
  {
    if |prices| > 1 {
      var n := |prices| - 1;
      VwemaOfUnitVolumes(prices[..n], volumes[..n], period);
      var vw := VwemaSeries(prices[..n], volumes[..n], period);
      var ema := EmaSeries(prices[..n], period);
      assert Weight(prices[n], volumes[n]) == prices[n];
      assert VwemaSeries(prices, volumes, period) == vw + [EmaStep(Weight(prices[n], volumes[n]), Last(vw), period)];
      assert EmaSeries(prices, period) == ema + [EmaStep(prices[n], Last(ema), period)];
    }
  }

  /** `Calculate::VW_MACD`: VWEMA 12 against VWEMA 26, with an ordinary EMA 9
      signal line. */
  function VW_MACD(prices: seq<real>, volumes: seq<real>): Macd
    requires |prices| > 0 && |volumes| == |prices|
  {
    MacdOf(VwemaSeries(prices, volumes, 12), VwemaSeries(prices, volumes, 26))
  }

  /** With unit volumes VW-MACD is the ordinary MACD of the prices. */
  lemma VwMacdOfUnitVolumes(prices: seq<real>, volumes: seq<real>)
    requires |prices| > 0 && |volumes| == |prices|
    requires forall i :: 0 <= i < |volumes| ==> volumes[i] <= 0.0 || volumes[i] == 1.0
    ensures VW_MACD(prices, volumes) == MACD(prices)
  {
    VwemaOfUnitVolumes(prices, volumes, 12);
    VwemaOfUnitVolumes(prices, volumes, 26);
  }
}
