/** `alerts:update-results`: every open or partial alert is checked against the
    symbol's last traded price. The running highest and lowest prices are
    updated, then the take-profit levels are checked from tp3 down to tp1, and
    only then the stop loss. */
module UpdateAlertResults {
  import opened Common
  import opened Schema

  /** The stop-loss result code: -11 after a tp1 hit, -2 after a tp2 hit,
      else -1. */
  function StopCode(previous: Option<int>): (code: int)
    ensures code < 0
    ensures code == -11 <==> previous == Some(1)
    ensures code == -2 <==> previous == Some(2)
  {
    if previous == Some(1) then -11
    else if previous == Some(2) then -2
    else -1
  }

  /** One evaluation of an alert at the current price. */
  function Evaluate(alert: Alert, price: real): (r: Alert)
    ensures r.highestPrice == Some(Max(alert.highestPrice.GetOr(price), price))
    ensures r.lowestPrice == Some(Min(alert.lowestPrice.GetOr(price), price))
    ensures r.cryptoId == alert.cryptoId && r.trend == alert.trend && r.entry == alert.entry
    ensures r.stopLoss == alert.stopLoss && r.tp1 == alert.tp1 && r.tp2 == alert.tp2 && r.tp3 == alert.tp3
    ensures r.createdAt == alert.createdAt && r.previousTrend == alert.previousTrend
  {
    var hi := Max(alert.highestPrice.GetOr(price), price);
    var lo := Min(alert.lowestPrice.GetOr(price), price);
    var a := alert.(highestPrice := Some(hi), lowestPrice := Some(lo));
    match alert.trend
    case Bullish =>
      if hi >= a.tp3 then a.(result := Some(3), status := Closed)
      else if hi >= a.tp2 then a.(result := Some(2), status := Partial)
      else if hi >= a.tp1 then a.(result := Some(1), status := Partial)
      else if lo <= a.stopLoss then a.(result := Some(StopCode(a.result)), status := Closed)
      else a
    case Bearish =>
      if lo <= a.tp3 then a.(result := Some(3), status := Closed)
      else if lo <= a.tp2 then a.(result := Some(2), status := Partial)
      else if lo <= a.tp1 then a.(result := Some(1), status := Partial)
      else if hi >= a.stopLoss then a.(result := Some(StopCode(a.result)), status := Closed)
      else a
    case Neutral => a
  }

  /** The running extrema move outward only and bracket the current price, so
      the lowest price never exceeds the highest. */
  lemma EvaluateExtrema(alert: Alert, price: real)
    ensures var r := Evaluate(alert, price);
      r.lowestPrice.value <= price <= r.highestPrice.value &&
      (alert.highestPrice.Some? ==> r.highestPrice.value >= alert.highestPrice.value) &&
      (alert.lowestPrice.Some? ==> r.lowestPrice.value <= alert.lowestPrice.value)
  {
  }

  /** The bullish checks in priority order: tp3 closes, tp2 and tp1 make the
      alert partial, and the stop loss is reached only when no take-profit
      level is. */
  lemma BullishOutcome(alert: Alert, price: real)
    requires alert.trend == Bullish
    ensures var r := Evaluate(alert, price);
      var hi := r.highestPrice.value;
      var lo := r.lowestPrice.value;
      (hi >= alert.tp3 ==> r.result == Some(3) && r.status == Closed) &&
      (alert.tp2 <= hi < alert.tp3 ==> r.result == Some(2) && r.status == Partial) &&
      (alert.tp1 <= hi < alert.tp2 && hi < alert.tp3 ==> r.result == Some(1) && r.status == Partial) &&
      (hi < alert.tp1 && hi < alert.tp2 && hi < alert.tp3 && lo <= alert.stopLoss ==>
        r.result == Some(StopCode(alert.result)) && r.status == Closed) &&
      (hi < alert.tp1 && hi < alert.tp2 && hi < alert.tp3 && lo > alert.stopLoss ==>
        r.result == alert.result && r.status == alert.status)
  {
  }

  /** The bearish checks mirror the bullish ones on the lowest price. */
  lemma BearishOutcome(alert: Alert, price: real)
    requires alert.trend == Bearish
    ensures var r := Evaluate(alert, price);
      var hi := r.highestPrice.value;
      var lo := r.lowestPrice.value;
      (lo <= alert.tp3 ==> r.result == Some(3) && r.status == Closed) &&
      (alert.tp3 < lo <= alert.tp2 ==> r.result == Some(2) && r.status == Partial) &&
      (alert.tp3 < lo && alert.tp2 < lo <= alert.tp1 ==> r.result == Some(1) && r.status == Partial) &&
      (lo > alert.tp1 && lo > alert.tp2 && lo > alert.tp3 && hi >= alert.stopLoss ==>
        r.result == Some(StopCode(alert.result)) && r.status == Closed) &&
      (lo > alert.tp1 && lo > alert.tp2 && lo > alert.tp3 && hi < alert.stopLoss ==>
        r.result == alert.result && r.status == alert.status)
  {
  }

  /** An alert that is neither bullish nor bearish only has its extrema
      updated. */
  lemma NeutralOnlyExtrema(alert: Alert, price: real)
    requires alert.trend == Neutral
    ensures Evaluate(alert, price).result == alert.result
    ensures Evaluate(alert, price).status == alert.status
  {
  }

  /** No evaluation reopens an alert. */
  lemma NeverReopens(alert: Alert, price: real)
    requires alert.status != Open
    ensures Evaluate(alert, price).status != Open
  {
  }

  /** The take-profit level that a result in 1..3 names. */
  function Level(alert: Alert, k: int): real
    requires 1 <= k <= 3
  {
    if k == 1 then alert.tp1 else if k == 2 then alert.tp2 else alert.tp3
  }

  /** A take-profit result is backed by the running extremum that reached the
      level. */
  predicate Witnessed(alert: Alert) {
    alert.result.Some? && 1 <= alert.result.value <= 3 ==>
      match alert.trend
      case Bullish => alert.highestPrice.Some? && alert.highestPrice.value >= Level(alert, alert.result.value)
      case Bearish => alert.lowestPrice.Some? && alert.lowestPrice.value <= Level(alert, alert.result.value)
      case Neutral => true
  }

  /** The states an alert created by CrossoversAlert can be in: no result and
      open, a first or second take-profit and partial, or a third take-profit
      or a plain stop loss and closed; the extrema are both unset or ordered,
      and a take-profit result is witnessed. */
  predicate Reachable(alert: Alert) {
    (alert.result, alert.status) in
      {(None, Open), (Some(1), Partial), (Some(2), Partial), (Some(3), Closed), (Some(-1), Closed)} &&
    ((alert.highestPrice.None? && alert.lowestPrice.None?) ||
     (alert.highestPrice.Some? && alert.lowestPrice.Some? && alert.lowestPrice.value <= alert.highestPrice.value)) &&
    Witnessed(alert)
  }

  /** Once a take-profit level is hit, every later evaluation hits a
      take-profit level again, at least as high, because the extremum that
      reached it only moves outward. So the stop-loss branch, and with it the
      codes -11 and -2, cannot be reached, and evaluation keeps an alert in its
      reachable states. */
  lemma EvaluateKeepsReachable(alert: Alert, price: real)
    requires Reachable(alert)
    ensures Reachable(Evaluate(alert, price))
    ensures alert.result.Some? && 1 <= alert.result.value <= 3 && alert.trend != Neutral ==>
      Evaluate(alert, price).result.Some? &&
      alert.result.value <= Evaluate(alert, price).result.value <= 3
  {
  }

  /** What the loop does to one alert: closed alerts are not selected, and an
      alert without a price is skipped. */
  function Process(alert: Alert, price: Option<real>): (r: Alert)
    ensures alert.status == Closed ==> r == alert
    ensures price.None? ==> r == alert
    ensures alert.status != Closed && price.Some? ==> r == Evaluate(alert, price.value)
  {
    if alert.status == Closed then alert
    else match price
      case None => alert
      case Some(p) => Evaluate(alert, p)
  }

  /** The ticker price of an alert's symbol: `$tickers[$symbol]['last'] ??
      null`. A ticker without a last price is absent from the map. */
  function PriceOf(alert: Alert, cryptos: seq<Crypto>, tickers: map<string, real>): Option<real> {
    match FindCrypto(cryptos, alert.cryptoId)
    case None => None
    case Some(c) => if c.symbol in tickers then Some(tickers[c.symbol]) else None
  }

  /** The alerts table after one run. */
  function UpdatedAlerts(alerts: seq<Alert>, cryptos: seq<Crypto>, tickers: map<string, real>): (r: seq<Alert>)
    ensures |r| == |alerts|
  {
    seq(|alerts|, i requires 0 <= i < |alerts| => Process(alerts[i], PriceOf(alerts[i], cryptos, tickers)))
  }

  /** `handle`: the loop over the selected alerts. */
  method Handle(alerts: seq<Alert>, cryptos: seq<Crypto>, tickers: map<string, real>)
    returns (updated: seq<Alert>)
    ensures updated == UpdatedAlerts(alerts, cryptos, tickers)
  {
    updated := alerts;
    var i := 0;
    while i < |alerts|
      invariant 0 <= i <= |alerts| && |updated| == |alerts|
      invariant forall j :: 0 <= j < i ==> updated[j] == Process(alerts[j], PriceOf(alerts[j], cryptos, tickers))
      invariant forall j :: i <= j < |alerts| ==> updated[j] == alerts[j]
    {
      var alert := alerts[i];
      if alert.status == Open || alert.status == Partial {
        var price := PriceOf(alert, cryptos, tickers);
        if price.Some? {
          updated := updated[i := Evaluate(alert, price.value)];
        }
      }
      i := i + 1;
    }
  }

  /** A run keeps every alert of the table in its reachable states, so no
      alert ever records -11 or -2. */
  lemma UpdatedAlertsKeepReachable(alerts: seq<Alert>, cryptos: seq<Crypto>, tickers: map<string, real>)
    requires forall i :: 0 <= i < |alerts| ==> Reachable(alerts[i])
    ensures forall i :: 0 <= i < |alerts| ==> Reachable(UpdatedAlerts(alerts, cryptos, tickers)[i])
    ensures forall i :: 0 <= i < |alerts| ==>
      UpdatedAlerts(alerts, cryptos, tickers)[i].result != Some(-11) &&
      UpdatedAlerts(alerts, cryptos, tickers)[i].result != Some(-2)
  {
    forall i | 0 <= i < |alerts|
      ensures Reachable(UpdatedAlerts(alerts, cryptos, tickers)[i])
    {
      var price := PriceOf(alerts[i], cryptos, tickers);
      if alerts[i].status != Closed && price.Some? {
        EvaluateKeepsReachable(alerts[i], price.value);
      }
    }
  }

  /** An alert as CrossoversAlert creates it is in a reachable state. */
  lemma CreatedAlertReachable(alert: Alert)
    requires alert.result == None && alert.status == Open
    requires alert.highestPrice == None && alert.lowestPrice == None
    ensures Reachable(alert)
  {
  }

  /** The alert after a run at each of the given prices in turn. */
  function Track(alert: Alert, prices: seq<real>): Alert
    decreases |prices|
  {
    if prices == [] then alert
    else Process(Track(alert, prices[..|prices| - 1]), Some(prices[|prices| - 1]))
  }

  /** Over any sequence of runs a reachable alert stays reachable, and once it
      holds a take-profit result it keeps one at least as high. */
  lemma {:induction false} TrackKeepsTakeProfit(alert: Alert, prices: seq<real>)
    requires Reachable(alert) && alert.trend != Neutral
    ensures Reachable(Track(alert, prices))
    ensures alert.result.Some? && 1 <= alert.result.value <= 3 ==>
      Track(alert, prices).result.Some? && alert.result.value <= Track(alert, prices).result.value <= 3
    decreases |prices|
  {
    if prices != [] {
      var before := Track(alert, prices[..|prices| - 1]);
      TrackKeepsTakeProfit(alert, prices[..|prices| - 1]);
      if before.status != Closed {
        EvaluateKeepsReachable(before, prices[|prices| - 1]);
      }
    }
  }

  /** The example of a bullish alert with entry 100, stop loss 95 and take
      profits 110, 115 and 120, tracked at 105, 117 and then 90: the rise to
      117 records tp2, and the fall to 90 keeps it, since the highest price
      stays above tp2. */
  lemma BullishExample()
    ensures var a := Alert(1, Bullish, None, 100.0, 95.0, 110.0, 115.0, 120.0, None, None, None, Open, 0);
      Track(a, [105.0, 117.0, 90.0]).result == Some(2) &&
      Track(a, [105.0, 117.0, 90.0]).status == Partial
  {
    var a := Alert(1, Bullish, None, 100.0, 95.0, 110.0, 115.0, 120.0, None, None, None, Open, 0);
    assert [105.0, 117.0, 90.0][..2] == [105.0, 117.0];
    assert [105.0, 117.0][..1] == [105.0];
    assert [105.0][..0] == [];
    var t1 := Track(a, [105.0]);
    assert t1.highestPrice == Some(105.0) && t1.result == None;
    var t2 := Track(a, [105.0, 117.0]);
    assert t2.highestPrice == Some(117.0) && t2.result == Some(2);
  }
}
