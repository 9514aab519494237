/** `tracker:crossovers-alert`: the latest candle of every crypto is classified
    from its volume-weighted MACD, RSI and ATR. The crypto's `last_trend` is
    overwritten, and a change to a bullish or bearish trend is announced and
    recorded as an alert with a stop loss and three take-profit levels. */
module CrossoversAlert {
  import opened Common
  import opened Schema
  import Chunking

  /** Growing positive momentum: `$vwHistogram > 0 && $vwHistogram >
      $previousHistogram`, under PHP's comparison of possibly null values. */
  predicate MomentumUp(m: Meta) {
    LooseLess(Some(0.0), m.vwHistogram) && LooseLess(m.previousHistogram, m.vwHistogram)
  }

  /** Growing negative momentum. */
  predicate MomentumDown(m: Meta) {
    LooseLess(m.vwHistogram, Some(0.0)) && LooseLess(m.vwHistogram, m.previousHistogram)
  }

  /** The ATR as a percentage of the latest price. */
  function NormalizedAtr(m: Meta, latestPrice: real): real
    requires latestPrice != 0.0
  {
    Num(m.atr) / latestPrice * 100.0
  }

  /** `determineTrend`. `None` is the error that stops the command: the row has
      no meta (a method call on null) or a latest price of 0 (division by
      zero). */
  function DetermineTrend(row: VolumeData): (r: Option<Trend>)
    ensures r.None? <==> row.meta.None? || row.latestPrice == 0.0
  {
    if row.meta.None? || row.latestPrice == 0.0 then None
    else
      var m := row.meta.value;
      if NormalizedAtr(m, row.latestPrice) < 3.0 then Some(Neutral)
      else if LooseLess(m.vwSignalLine, m.vwMacdLine) && MomentumUp(m) && LooseLess(m.rsi, Some(45.0)) then Some(Bullish)
      else if LooseLess(m.vwMacdLine, m.vwSignalLine) && MomentumDown(m) && LooseLess(Some(55.0), m.rsi) then Some(Bearish)
      else Some(Neutral)
  }

  /** An ATR below 3% of the price is neutral whatever the MACD and RSI say. */
  lemma LowAtrIsNeutral(row: VolumeData)
    requires row.meta.Some? && row.latestPrice != 0.0
    requires NormalizedAtr(row.meta.value, row.latestPrice) < 3.0
    ensures DetermineTrend(row) == Some(Neutral)
  {
  }

  /** The meta keys the rule reads, all present. */
  predicate SignalKeysPresent(m: Meta) {
    m.vwMacdLine.Some? && m.vwSignalLine.Some? && m.vwHistogram.Some? &&
    m.previousHistogram.Some? && m.rsi.Some?
  }

  /** With every key present, the rule in plain numbers: bullish iff the ATR
      is at least 3% of the price, the line is above the signal, the histogram
      is positive and growing, and the RSI is below 45; bearish iff the mirror
      image holds with the RSI above 55. */
  lemma TrendIff(row: VolumeData)
    requires row.meta.Some? && row.latestPrice != 0.0 && SignalKeysPresent(row.meta.value)
    ensures var m := row.meta.value;
      var line := m.vwMacdLine.value;
      var signal := m.vwSignalLine.value;
      var h := m.vwHistogram.value;
      var previous := m.previousHistogram.value;
      var rsi := m.rsi.value;
      var strong := NormalizedAtr(m, row.latestPrice) >= 3.0;
      (DetermineTrend(row) == Some(Bullish) <==>
        strong && line > signal && h > 0.0 && h > previous && rsi < 45.0) &&
      (DetermineTrend(row) == Some(Bearish) <==>
        strong && line < signal && h < 0.0 && h < previous && rsi > 55.0)
  {
  }

  /** Without a `vw_histogram` key no momentum is seen, so the trend is never
      bullish or bearish. No command in this model writes that key. */
  lemma NoSignalWithoutVwHistogram(row: VolumeData)
    requires row.meta.Some? && row.meta.value.vwHistogram.None?
    ensures DetermineTrend(row) != Some(Bullish) && DetermineTrend(row) != Some(Bearish)
  {
  }

  function Opposite(t: Trend): Trend {
    match t
    case Bullish => Bearish
    case Bearish => Bullish
    case Neutral => Neutral
  }

  /** The candle with every MACD value negated and the RSI reflected about 50. */
  function Mirror(row: VolumeData): VolumeData
    requires row.meta.Some? && SignalKeysPresent(row.meta.value)
  {
    var m := row.meta.value;
    row.(meta := Some(m.(
      vwMacdLine := Some(-m.vwMacdLine.value),
      vwSignalLine := Some(-m.vwSignalLine.value),
      vwHistogram := Some(-m.vwHistogram.value),
      previousHistogram := Some(-m.previousHistogram.value),
      rsi := Some(100.0 - m.rsi.value))))
  }

  /** The rule is symmetric: the mirrored candle has the opposite trend. */
  lemma TrendMirror(row: VolumeData)
    requires row.meta.Some? && row.latestPrice != 0.0 && SignalKeysPresent(row.meta.value)
    ensures DetermineTrend(Mirror(row)).Some?
    ensures DetermineTrend(Mirror(row)).value == Opposite(DetermineTrend(row).value)
  {
    TrendIff(row);
    TrendIff(Mirror(row));
  }

  /** Stop loss and take-profit levels. */
  datatype Levels = Levels(stopLoss: real, tp1: real, tp2: real, tp3: real)

  /** `setup`: for a bullish trend the stop loss is 1.5 ATR below the latest
      price and take-profit N is N ATR above it; any other trend mirrors the
      levels. */
  function Setup(latestPrice: real, atr: real, trend: Trend): (r: Levels)
    ensures trend == Bullish ==>
      latestPrice - r.stopLoss == 1.5 * atr && r.tp1 - latestPrice == atr &&
      r.tp2 - latestPrice == 2.0 * atr && r.tp3 - latestPrice == 3.0 * atr
    ensures trend != Bullish ==>
      r.stopLoss - latestPrice == 1.5 * atr && latestPrice - r.tp1 == atr &&
      latestPrice - r.tp2 == 2.0 * atr && latestPrice - r.tp3 == 3.0 * atr
  {
    if trend == Bullish then
      Levels(latestPrice - 1.5 * atr, latestPrice + 1.0 * atr, latestPrice + 2.0 * atr, latestPrice + 3.0 * atr)
    else
      Levels(latestPrice + 1.5 * atr, latestPrice - 1.0 * atr, latestPrice - 2.0 * atr, latestPrice - 3.0 * atr)
  }

  /** With a positive ATR the levels bracket the entry in trade order. */
  lemma SetupOrdered(latestPrice: real, atr: real, trend: Trend)
    requires atr > 0.0
    ensures var r := Setup(latestPrice, atr, trend);
      (trend == Bullish ==> r.stopLoss < latestPrice < r.tp1 < r.tp2 < r.tp3) &&
      (trend != Bullish ==> r.stopLoss > latestPrice > r.tp1 > r.tp2 > r.tp3)
  {
  }

  /** The bearish levels are the bullish ones reflected about the entry. */
  lemma SetupMirror(latestPrice: real, atr: real)
    ensures var up := Setup(latestPrice, atr, Bullish);
      var down := Setup(latestPrice, atr, Bearish);
      down.stopLoss == 2.0 * latestPrice - up.stopLoss &&
      down.tp1 == 2.0 * latestPrice - up.tp1 &&
      down.tp2 == 2.0 * latestPrice - up.tp2 &&
      down.tp3 == 2.0 * latestPrice - up.tp3
  {
  }

  /** One detected crossover, as the message reports it. */
  datatype Crossover = Crossover(
    symbol: string,
    trend: Trend,
    previousTrend: Option<Trend>,
    ema15: Option<real>,
    ema25: Option<real>,
    ema50: Option<real>,
    price: real,
    timestamp: int,
    atr: Option<real>,
    macdLine: Option<real>,
    signalLine: Option<real>,
    histogram: Option<real>,
    rsi: Option<real>,
    entry: real,
    levels: Levels)

  function MakeCrossover(row: VolumeData, m: Meta, crypto: Crypto, trend: Trend): Crossover {
    Crossover(crypto.symbol, trend, crypto.lastTrend, row.priceEma15, row.priceEma25, row.priceEma50,
              row.close, row.timestamp, m.atr, m.vwMacdLine, m.vwSignalLine, m.vwHistogram, m.rsi,
              row.latestPrice, Setup(row.latestPrice, Num(m.atr), trend))
  }

  /** `Alert::create(...)`: only the fillable columns are taken from the
      crossover; the rest start at their defaults. */
  function NewAlert(cryptoId: nat, x: Crossover, now: int): (a: Alert)
    ensures a.cryptoId == cryptoId && a.trend == x.trend && a.previousTrend == x.previousTrend
    ensures a.entry == x.entry && a.stopLoss == x.levels.stopLoss
    ensures a.tp1 == x.levels.tp1 && a.tp2 == x.levels.tp2 && a.tp3 == x.levels.tp3
    ensures a.status == Open && a.result.None? && a.highestPrice.None? && a.lowestPrice.None?
    ensures a.createdAt == now
  {
    Alert(cryptoId, x.trend, x.previousTrend, x.entry, x.levels.stopLoss,
          x.levels.tp1, x.levels.tp2, x.levels.tp3, None, None, None, Open, now)
  }

  /** What the loop has written and collected so far. */
  datatype State = State(cryptos: seq<Crypto>, alerts: seq<Alert>, crossovers: seq<Crossover>)

  /** The state where the loop stopped; `failed` when it stopped at an error. */
  datatype Outcome = Outcome(state: State, failed: bool)

  /** One iteration of the loop over the latest candles. */
  function Step(st: State, row: VolumeData, now: int): (r: Outcome)
    ensures r.failed <==> DetermineTrend(row).None? || FindCrypto(st.cryptos, row.cryptoId).None?
    ensures r.failed ==> r.state == st
    ensures !r.failed ==>
      r.state.cryptos == UpdateCrypto(st.cryptos, row.cryptoId, (c: Crypto) => c.(lastTrend := DetermineTrend(row)))
    ensures !r.failed ==>
      var crypto := FindCrypto(st.cryptos, row.cryptoId).value;
      var trend := DetermineTrend(row).value;
      var x := MakeCrossover(row, row.meta.value, crypto, trend);
      if Fires(crypto.lastTrend, trend) then
        r.state.alerts == st.alerts + [NewAlert(row.cryptoId, x, now)] &&
        r.state.crossovers == st.crossovers + [x]
      else r.state.alerts == st.alerts && r.state.crossovers == st.crossovers
  {
    match DetermineTrend(row)
    case None => Outcome(st, true)
    case Some(trend) =>
      match FindCrypto(st.cryptos, row.cryptoId)
      case None => Outcome(st, true)
      case Some(crypto) =>
        var cryptos := UpdateCrypto(st.cryptos, row.cryptoId, (c: Crypto) => c.(lastTrend := Some(trend)));
        if Fires(crypto.lastTrend, trend) then
          var x := MakeCrossover(row, row.meta.value, crypto, trend);
          Outcome(State(cryptos, st.alerts + [NewAlert(row.cryptoId, x, now)], st.crossovers + [x]), false)
        else
          Outcome(State(cryptos, st.alerts, st.crossovers), false)
  }

  /** The loop over the given candles, stopping at the first error. */
  function Run(rows: seq<VolumeData>, st: State, now: int): Outcome
    decreases |rows|
  {
    if rows == [] then Outcome(st, false)
    else
      var before := Run(rows[..|rows| - 1], st, now);
      if before.failed then before else Step(before.state, rows[|rows| - 1], now)
  }

  /** The alert text: the header and one block per crossover. */
  function Message(crossovers: seq<Crossover>, format: Crossover -> string): string {
    Chunking.Compose(Chunking.NewAlertsHeader, crossovers, format)
  }

  /** The loop of `handle` over the given candles. */
  method Pass(recent: seq<VolumeData>, cryptos: seq<Crypto>, alerts: seq<Alert>, now: int)
    returns (outcome: Outcome)
    ensures outcome == Run(recent, State(cryptos, alerts, []), now)
  {
    var st := State(cryptos, alerts, []);
    var i := 0;
    while i < |recent|
      invariant 0 <= i <= |recent|
      invariant Run(recent[..i], State(cryptos, alerts, []), now) == Outcome(st, false)
    {
      assert recent[..i + 1][..i] == recent[..i];
      var step := Step(st, recent[i], now);
      if step.failed {
        RunStaysFailed(recent, i + 1, State(cryptos, alerts, []), now);
        assert recent[..|recent|] == recent;
        return step;
      }
      st := step.state;
      i := i + 1;
    }
    assert recent[..i] == recent;
    outcome := Outcome(st, false);
  }

  /** `handle`. Returns where the loop stopped and the chunks sent to Telegram:
      none when it failed or found no crossover. */
  method Handle(rows: seq<VolumeData>, cryptos: seq<Crypto>, alerts: seq<Alert>, now: int,
                format: Crossover -> string)
    returns (outcome: Outcome, chunks: seq<string>)
    ensures outcome == Run(LatestRows(rows), State(cryptos, alerts, []), now)
    ensures outcome.failed || outcome.state.crossovers == [] ==> chunks == []
    ensures !outcome.failed && outcome.state.crossovers != [] ==>
      chunks == Chunking.Chunks(Message(outcome.state.crossovers, format))
  {
    outcome := Pass(LatestRows(rows), cryptos, alerts, now);
    if outcome.failed || outcome.state.crossovers == [] {
      return outcome, [];
    }
    chunks := Chunking.SplitIntoChunks(Message(outcome.state.crossovers, format));
  }

  /** Once the loop has stopped, further candles change nothing. */
  lemma {:induction false} RunStaysFailed(rows: seq<VolumeData>, n: nat, st: State, now: int)
    requires n <= |rows| && Run(rows[..n], st, now).failed
    ensures Run(rows, st, now) == Run(rows[..n], st, now)
    decreases |rows| - n
  {
    if n < |rows| {
      var init := rows[..|rows| - 1];
      assert init[..n] == rows[..n];
      RunStaysFailed(init, n, st, now);
    } else {
      assert rows[..n] == rows;
    }
  }

  /** A pass that did not fail keeps the crypto ids in place. */
  lemma {:induction false} RunKeepsIds(rows: seq<VolumeData>, st: State, now: int)
    requires !Run(rows, st, now).failed
    ensures |Run(rows, st, now).state.cryptos| == |st.cryptos|
    ensures forall k :: 0 <= k < |st.cryptos| ==> Run(rows, st, now).state.cryptos[k].id == st.cryptos[k].id
    decreases |rows|
  {
    if rows != [] {
      RunKeepsIds(rows[..|rows| - 1], st, now);
    }
  }

  /** In a pass that did not fail every candle's trend is computable and its
      crypto exists. */
  lemma {:induction false} RunRowsSucceed(rows: seq<VolumeData>, st: State, now: int)
    requires !Run(rows, st, now).failed
    ensures forall i :: 0 <= i < |rows| ==> DetermineTrend(rows[i]).Some? && HasCrypto(st.cryptos, rows[i].cryptoId)
    decreases |rows|
  {
    if rows != [] {
      var init := rows[..|rows| - 1];
      var last := rows[|rows| - 1];
      var before := Run(init, st, now);
      RunRowsSucceed(init, st, now);
      RunKeepsIds(init, st, now);
      var found := FindCrypto(before.state.cryptos, last.cryptoId);
      var k0 :| 0 <= k0 < |before.state.cryptos| && before.state.cryptos[k0] == found.value;
      assert st.cryptos[k0].id == last.cryptoId;
      forall i | 0 <= i < |rows|
        ensures DetermineTrend(rows[i]).Some? && HasCrypto(st.cryptos, rows[i].cryptoId)
      {
        if i < |rows| - 1 {
          assert rows[i] == init[i];
        }
      }
    }
  }

  /** After a pass over candles of distinct cryptos that did not fail, every
      crypto's `last_trend` is the trend of its candle. */
  lemma {:induction false} RunSetsLastTrend(rows: seq<VolumeData>, st: State, now: int)
    requires !Run(rows, st, now).failed && DistinctCryptos(rows)
    ensures var fin := Run(rows, st, now).state;
      forall i, k :: 0 <= i < |rows| && 0 <= k < |fin.cryptos| && fin.cryptos[k].id == rows[i].cryptoId ==>
        fin.cryptos[k].lastTrend == DetermineTrend(rows[i])
    decreases |rows|
  {
    if rows != [] {
      var init := rows[..|rows| - 1];
      var last := rows[|rows| - 1];
      assert DistinctCryptos(init);
      RunSetsLastTrend(init, st, now);
      var before := Run(init, st, now).state;
      var fin := Run(rows, st, now).state;
      assert fin == Step(before, last, now).state;
      forall i, k | 0 <= i < |rows| && 0 <= k < |fin.cryptos| && fin.cryptos[k].id == rows[i].cryptoId
        ensures fin.cryptos[k].lastTrend == DetermineTrend(rows[i])
      {
        var c := before.cryptos[k];
        assert fin.cryptos[k] == if c.id == last.cryptoId then c.(lastTrend := DetermineTrend(last)) else c;
        if i < |rows| - 1 {
          assert rows[i] == init[i];
          assert rows[i].cryptoId != last.cryptoId;
        }
      }
    }
  }

  /** A pass over candles whose cryptos already hold their trends changes
      nothing and announces nothing. */
  lemma {:induction false} QuietPass(rows: seq<VolumeData>, st: State, now: int)
    requires forall i :: 0 <= i < |rows| ==> DetermineTrend(rows[i]).Some? && HasCrypto(st.cryptos, rows[i].cryptoId)
    requires forall i, k :: 0 <= i < |rows| && 0 <= k < |st.cryptos| && st.cryptos[k].id == rows[i].cryptoId ==>
      st.cryptos[k].lastTrend == DetermineTrend(rows[i])
    ensures Run(rows, st, now) == Outcome(st, false)
    decreases |rows|
  {
    if rows != [] {
      var init := rows[..|rows| - 1];
      var last := rows[|rows| - 1];
      QuietPass(init, st, now);
      var k0 :| 0 <= k0 < |st.cryptos| && st.cryptos[k0].id == last.cryptoId;
      assert FindCrypto(st.cryptos, last.cryptoId).Some?;
      var updated := UpdateCrypto(st.cryptos, last.cryptoId, (c: Crypto) => c.(lastTrend := DetermineTrend(last)));
      assert updated == st.cryptos;
    }
  }

  /** Running the command again on the same latest candles announces nothing
      and creates no alert, provided no two of them belong to one crypto:
      every crypto already holds the trend of its candle. The query of lines
      35-38 does not promise that premise (`TiedCandlesRepeat`). */
  lemma RerunIsQuiet(rows: seq<VolumeData>, st: State, now: int)
    requires DistinctCryptos(rows) && !Run(rows, st, now).failed
    ensures Run(rows, Run(rows, st, now).state, now) == Outcome(Run(rows, st, now).state, false)
  {
    var fin := Run(rows, st, now).state;
    RunKeepsIds(rows, st, now);
    RunRowsSucceed(rows, st, now);
    RunSetsLastTrend(rows, st, now);
    forall i | 0 <= i < |rows|
      ensures HasCrypto(fin.cryptos, rows[i].cryptoId)
    {
      var k :| 0 <= k < |st.cryptos| && st.cryptos[k].id == rows[i].cryptoId;
      assert fin.cryptos[k].id == rows[i].cryptoId;
    }
    QuietPass(rows, fin, now);
  }

  /** A candle of crypto 1 opening at 900 at a price of 100, with an ATR of
      10 and the given volume-weighted MACD values and RSI. */
  function TiedCandle(tf: string, line: real, signal: real, h: real, previous: real, rsi: real): VolumeData {
    var m := EmptyMeta.(atr := Some(10.0), previousHistogram := Some(previous), rsi := Some(rsi),
                        vwMacdLine := Some(line), vwSignalLine := Some(signal), vwHistogram := Some(h));
    VolumeData(1, Some(tf), 900, 100.0, 100.0, 100.0, 100.0, 1.0, 100.0,
               None, None, None, None, None, None, None, None, None,
               None, None, None, None, None, Some(m))
  }

  /** The bullish 15m candle of the example. */
  function TiedUp(): VolumeData { TiedCandle("15m", 2.0, 1.0, 1.0, 0.5, 40.0) }

  /** The bearish 4h candle of the example, opening at the same time. */
  function TiedDown(): VolumeData { TiedCandle("4h", -2.0, -1.0, -1.0, -0.5, 60.0) }

  /** Both tied candles are latest for their crypto. */
  lemma TiedCandlesLatest()
    ensures LatestRows([TiedUp(), TiedDown()]) == [TiedUp(), TiedDown()]
  {
    var rows := [TiedUp(), TiedDown()];
    assert IsLatestAmong(rows, rows[0], _ => true);
    assert IsLatestAmong(rows, rows[1], _ => true);
    assert rows[1..][1..] == [];
  }

  /** The trends of the tied candles. */
  lemma TiedTrends()
    ensures DetermineTrend(TiedUp()) == Some(Bullish) && DetermineTrend(TiedDown()) == Some(Bearish)
  {
    TrendIff(TiedUp());
    TrendIff(TiedDown());
  }

  /** Over the two tied candles a crypto not already bullish flips to
      bullish and then to bearish, and both changes create an alert. */
  lemma TiedPass(c: Crypto, alerts: seq<Alert>, xs: seq<Crossover>, now: int)
    requires c.id == 1 && c.lastTrend != Some(Bullish)
    ensures var r := Run([TiedUp(), TiedDown()], State([c], alerts, xs), now);
      !r.failed && r.state.cryptos == [c.(lastTrend := Some(Bearish))] &&
      |r.state.alerts| == |alerts| + 2 && |r.state.crossovers| == |xs| + 2
  {
    var up := TiedUp();
    var down := TiedDown();
    var rows := [up, down];
    TiedTrends();
    assert rows[..1] == [up];
    assert [up][..0] == [];
    var b := c.(lastTrend := Some(Bullish));
    assert FindCrypto([c], 1) == Some(c);
    assert UpdateCrypto([c], 1, (x: Crypto) => x.(lastTrend := DetermineTrend(up))) == [b];
    var first := Step(State([c], alerts, xs), up, now);
    assert first.state.cryptos == [b];
    assert |first.state.alerts| == |alerts| + 1 && |first.state.crossovers| == |xs| + 1;
    assert Run(rows[..1], State([c], alerts, xs), now) == first;
    assert FindCrypto([b], 1) == Some(b);
    assert UpdateCrypto([b], 1, (x: Crypto) => x.(lastTrend := DetermineTrend(down))) == [c.(lastTrend := Some(Bearish))];
    assert Run(rows, State([c], alerts, xs), now) == Step(first.state, down, now);
  }

  /** Two latest candles of one crypto, in timeframes that open together,
      disagree: every run flips `last_trend` twice and creates both alerts
      again, so a rerun is not quiet. */
  lemma TiedCandlesRepeat(now: int)
    ensures var rows := LatestRows([TiedUp(), TiedDown()]);
      var first := Run(rows, State([Crypto(1, "BTC/USDT", "BTC", "USDT", None, None, None, None)], [], []), now);
      var second := Run(rows, first.state, now);
      !first.failed && !second.failed && second.state.cryptos == first.state.cryptos &&
      |second.state.alerts| == |first.state.alerts| + 2
  {
    var c := Crypto(1, "BTC/USDT", "BTC", "USDT", None, None, None, None);
    TiedCandlesLatest();
    TiedPass(c, [], [], now);
    var first := Run([TiedUp(), TiedDown()], State([c], [], []), now);
    TiedPass(c.(lastTrend := Some(Bearish)), first.state.alerts, first.state.crossovers, now);
  }
}
