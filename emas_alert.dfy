/** `tracker:emas-alert`: the latest candle of every crypto is classified by
    the order of its 15, 25 and 50 period price EMAs, gated by the ATR in its
    meta. The crypto's `last_trend` is overwritten, and a change to a bullish
    or bearish trend is announced. No alert row is created. */
module EmasAlert {
  import opened Common
  import opened Schema
  import Chunking

  /** `$data->meta->get('atr') < 0.5` under PHP's comparison: a missing ATR
      is below 0.5 too. */
  predicate WeakAtr(m: Meta) {
    LooseLess(m.atr, Some(0.5))
  }

  /** `determineTrend`. `None` is the error that stops the command: the row has
      no meta (a method call on null). The EMA columns compare as PHP compares
      two decimal strings, a null one being below every value. */
  function DetermineTrend(row: VolumeData): (r: Option<Trend>)
    ensures r.None? <==> row.meta.None?
  {
    if row.meta.None? then None
    else if WeakAtr(row.meta.value) then Some(Neutral)
    else if ColumnLess(row.priceEma25, row.priceEma15) && ColumnLess(row.priceEma50, row.priceEma25) then Some(Bullish)
    else if ColumnLess(row.priceEma15, row.priceEma25) && ColumnLess(row.priceEma25, row.priceEma50) then Some(Bearish)
    else Some(Neutral)
  }

  /** An ATR below 0.5, or none at all, is neutral whatever the EMAs say. */
  lemma LowAtrIsNeutral(row: VolumeData)
    requires row.meta.Some?
    requires row.meta.value.atr.None? || row.meta.value.atr.value < 0.5
    ensures DetermineTrend(row) == Some(Neutral)
  {
  }

  /** The three EMA columns are filled. */
  predicate EmasPresent(row: VolumeData) {
    row.priceEma15.Some? && row.priceEma25.Some? && row.priceEma50.Some?
  }

  /** With the EMAs filled, the rule in plain numbers: bullish iff the ATR is
      at least 0.5 and EMA15 > EMA25 > EMA50, bearish iff the ATR is at least
      0.5 and EMA15 < EMA25 < EMA50, neutral otherwise. */
  lemma TrendIff(row: VolumeData)
    requires row.meta.Some? && EmasPresent(row)
    ensures var atr := row.meta.value.atr;
      var strong := atr.Some? && atr.value >= 0.5;
      var e15 := row.priceEma15.value;
      var e25 := row.priceEma25.value;
      var e50 := row.priceEma50.value;
      (DetermineTrend(row) == Some(Bullish) <==> strong && e15 > e25 > e50) &&
      (DetermineTrend(row) == Some(Bearish) <==> strong && e15 < e25 < e50) &&
      (DetermineTrend(row) == Some(Neutral) <==> !strong || !(e15 > e25 > e50 || e15 < e25 < e50))
  {
  }

  /** The candle with its three EMAs negated. */
  function Mirror(row: VolumeData): VolumeData
    requires EmasPresent(row)
  {
    row.(priceEma15 := Some(-row.priceEma15.value),
         priceEma25 := Some(-row.priceEma25.value),
         priceEma50 := Some(-row.priceEma50.value))
  }

  /** The rule is symmetric: the mirrored EMA stack has the opposite trend. */
  lemma TrendMirror(row: VolumeData)
    requires row.meta.Some? && EmasPresent(row)
    ensures DetermineTrend(Mirror(row)) == Some(
      match DetermineTrend(row).value
      case Bullish => Bearish
      case Bearish => Bullish
      case Neutral => Neutral)
  {
    TrendIff(row);
    TrendIff(Mirror(row));
  }

  /** One detected crossover, as the message reports it. */
  datatype Crossover = Crossover(
    symbol: string,
    trend: Trend,
    previousTrend: Option<Trend>,
    ema15: Option<real>,
    ema25: Option<real>,
    ema50: Option<real>,
    price: real,
    timestamp: int,
    atr: Option<real>)

  /** What the loop has written and collected so far. */
  datatype State = State(cryptos: seq<Crypto>, crossovers: seq<Crossover>)

  /** The state where the loop stopped; `failed` when it stopped at an error. */
  datatype Outcome = Outcome(state: State, failed: bool)

  /** One iteration of the loop over the latest candles: the trend is
      computed, `last_trend` overwritten, and a crossover recorded when the
      transition fires. */
  function Step(st: State, row: VolumeData): (r: Outcome)
    ensures r.failed <==> row.meta.None? || FindCrypto(st.cryptos, row.cryptoId).None?
    ensures r.failed ==> r.state == st
    ensures !r.failed ==>
      r.state.cryptos == UpdateCrypto(st.cryptos, row.cryptoId, (c: Crypto) => c.(lastTrend := DetermineTrend(row)))
    ensures !r.failed ==>
      var crypto := FindCrypto(st.cryptos, row.cryptoId).value;
      var trend := DetermineTrend(row).value;
      if Fires(crypto.lastTrend, trend) then
        r.state.crossovers == st.crossovers + [Crossover(crypto.symbol, trend, crypto.lastTrend,
          row.priceEma15, row.priceEma25, row.priceEma50, row.close, row.timestamp, row.meta.value.atr)]
      else r.state.crossovers == st.crossovers
  {
    match DetermineTrend(row)
    case None => Outcome(st, true)
    case Some(trend) =>
      match FindCrypto(st.cryptos, row.cryptoId)
      case None => Outcome(st, true)
      case Some(crypto) =>
        var cryptos := UpdateCrypto(st.cryptos, row.cryptoId, (c: Crypto) => c.(lastTrend := Some(trend)));
        if Fires(crypto.lastTrend, trend) then
          var x := Crossover(crypto.symbol, trend, crypto.lastTrend, row.priceEma15, row.priceEma25,
                             row.priceEma50, row.close, row.timestamp, row.meta.value.atr);
          Outcome(State(cryptos, st.crossovers + [x]), false)
        else
          Outcome(State(cryptos, st.crossovers), false)
  }

  /** The loop over the given candles, stopping at the first error. */
  function Run(rows: seq<VolumeData>, st: State): Outcome
    decreases |rows|
  {
    if rows == [] then Outcome(st, false)
    else
      var before := Run(rows[..|rows| - 1], st);
      if before.failed then before else Step(before.state, rows[|rows| - 1])
  }

  /** The alert text: the header and one block per crossover. */
  function Message(crossovers: seq<Crossover>, format: Crossover -> string): string {
    Chunking.Compose(Chunking.NewAlertsHeader, crossovers, format)
  }

  /** The loop of `handle` over the given candles. */
  method Pass(recent: seq<VolumeData>, cryptos: seq<Crypto>) returns (outcome: Outcome)
    ensures outcome == Run(recent, State(cryptos, []))
  {
    var st := State(cryptos, []);
    var i := 0;
    while i < |recent|
      invariant 0 <= i <= |recent|
      invariant Run(recent[..i], State(cryptos, [])) == Outcome(st, false)
    {
      assert recent[..i + 1][..i] == recent[..i];
      var step := Step(st, recent[i]);
      if step.failed {
        RunStaysFailed(recent, i + 1, State(cryptos, []));
        assert recent[..|recent|] == recent;
        return step;
      }
      st := step.state;
      i := i + 1;
    }
    assert recent[..i] == recent;
    outcome := Outcome(st, false);
  }

  /** `handle`. Returns where the loop stopped and the chunks sent to Telegram:
      none when it failed or found no crossover. */
  method Handle(rows: seq<VolumeData>, cryptos: seq<Crypto>, format: Crossover -> string)
    returns (outcome: Outcome, chunks: seq<string>)
    ensures outcome == Run(LatestRows(rows), State(cryptos, []))
    ensures outcome.failed || outcome.state.crossovers == [] ==> chunks == []
    ensures !outcome.failed && outcome.state.crossovers != [] ==>
      chunks == Chunking.Chunks(Message(outcome.state.crossovers, format))
  {
    outcome := Pass(LatestRows(rows), cryptos);
    if outcome.failed || outcome.state.crossovers == [] {
      return outcome, [];
    }
    chunks := Chunking.SplitIntoChunks(Message(outcome.state.crossovers, format));
  }

  /** Once the loop has stopped, further candles change nothing. */
  lemma {:induction false} RunStaysFailed(rows: seq<VolumeData>, n: nat, st: State)
    requires n <= |rows| && Run(rows[..n], st).failed
    ensures Run(rows, st) == Run(rows[..n], st)
    decreases |rows| - n
  {
    if n < |rows| {
      var init := rows[..|rows| - 1];
      assert init[..n] == rows[..n];
      RunStaysFailed(init, n, st);
    } else {
      assert rows[..n] == rows;
    }
  }

  /** A pass that did not fail keeps the crypto ids in place. */
  lemma {:induction false} RunKeepsIds(rows: seq<VolumeData>, st: State)
    requires !Run(rows, st).failed
    ensures |Run(rows, st).state.cryptos| == |st.cryptos|
    ensures forall k :: 0 <= k < |st.cryptos| ==> Run(rows, st).state.cryptos[k].id == st.cryptos[k].id
    decreases |rows|
  {
    if rows != [] {
      RunKeepsIds(rows[..|rows| - 1], st);
    }
  }

  /** In a pass that did not fail every candle has a meta and a crypto. */
  lemma {:induction false} RunRowsSucceed(rows: seq<VolumeData>, st: State)
    requires !Run(rows, st).failed
    ensures forall i :: 0 <= i < |rows| ==> rows[i].meta.Some? && HasCrypto(st.cryptos, rows[i].cryptoId)
    decreases |rows|
  {
    if rows != [] {
      var init := rows[..|rows| - 1];
      var last := rows[|rows| - 1];
      var before := Run(init, st);
      RunRowsSucceed(init, st);
      RunKeepsIds(init, st);
      var found := FindCrypto(before.state.cryptos, last.cryptoId);
      var k0 :| 0 <= k0 < |before.state.cryptos| && before.state.cryptos[k0] == found.value;
      assert st.cryptos[k0].id == last.cryptoId;
      forall i | 0 <= i < |rows|
        ensures rows[i].meta.Some? && HasCrypto(st.cryptos, rows[i].cryptoId)
      {
        if i < |rows| - 1 {
          assert rows[i] == init[i];
        }
      }
    }
  }

  /** After a pass over candles of distinct cryptos that did not fail, every
      crypto's `last_trend` is the trend of its candle, whether or not it was
      announced. */
  lemma {:induction false} RunSetsLastTrend(rows: seq<VolumeData>, st: State)
    requires !Run(rows, st).failed && DistinctCryptos(rows)
    ensures var fin := Run(rows, st).state;
      forall i, k :: 0 <= i < |rows| && 0 <= k < |fin.cryptos| && fin.cryptos[k].id == rows[i].cryptoId ==>
        fin.cryptos[k].lastTrend == DetermineTrend(rows[i])
    decreases |rows|
  {
    if rows != [] {
      var init := rows[..|rows| - 1];
      var last := rows[|rows| - 1];
      assert DistinctCryptos(init);
      RunSetsLastTrend(init, st);
      var fin := Run(rows, st).state;
      forall i, k | 0 <= i < |rows| && 0 <= k < |fin.cryptos| && fin.cryptos[k].id == rows[i].cryptoId
        ensures fin.cryptos[k].lastTrend == DetermineTrend(rows[i])
      {
        if i < |rows| - 1 {
          assert rows[i] == init[i];
          assert rows[i].cryptoId != last.cryptoId;
        }
      }
    }
  }

  /** Every announced crossover is a bullish or bearish trend that differs from
      the `last_trend` it replaced. */
  lemma {:induction false} CrossoversFire(rows: seq<VolumeData>, st: State)
    requires !Run(rows, st).failed
    requires forall j :: 0 <= j < |st.crossovers| ==> Fires(st.crossovers[j].previousTrend, st.crossovers[j].trend)
    ensures var xs := Run(rows, st).state.crossovers;
      forall j :: 0 <= j < |xs| ==> Fires(xs[j].previousTrend, xs[j].trend)
    decreases |rows|
  {
    if rows != [] {
      CrossoversFire(rows[..|rows| - 1], st);
    }
  }

  /** A pass over candles whose cryptos already hold their trends changes
      nothing and announces nothing. */
  lemma {:induction false} QuietPass(rows: seq<VolumeData>, st: State)
    requires forall i :: 0 <= i < |rows| ==> rows[i].meta.Some? && HasCrypto(st.cryptos, rows[i].cryptoId)
    requires forall i, k :: 0 <= i < |rows| && 0 <= k < |st.cryptos| && st.cryptos[k].id == rows[i].cryptoId ==>
      st.cryptos[k].lastTrend == DetermineTrend(rows[i])
    ensures Run(rows, st) == Outcome(st, false)
    decreases |rows|
  {
    if rows != [] {
      var init := rows[..|rows| - 1];
      var last := rows[|rows| - 1];
      QuietPass(init, st);
      var k0 :| 0 <= k0 < |st.cryptos| && st.cryptos[k0].id == last.cryptoId;
      assert FindCrypto(st.cryptos, last.cryptoId).Some?;
      var updated := UpdateCrypto(st.cryptos, last.cryptoId, (c: Crypto) => c.(lastTrend := DetermineTrend(last)));
      assert updated == st.cryptos;
    }
  }

  /** Running the command again on the same latest candles announces
      nothing, provided no two of them belong to one crypto. The query of
      lines 33-36 does not promise that (`TiedCandlesRepeat`). */
  lemma RerunIsQuiet(rows: seq<VolumeData>, st: State)
    requires DistinctCryptos(rows) && !Run(rows, st).failed
    ensures Run(rows, Run(rows, st).state) == Outcome(Run(rows, st).state, false)
  {
    var fin := Run(rows, st).state;
    RunKeepsIds(rows, st);
    RunRowsSucceed(rows, st);
    RunSetsLastTrend(rows, st);
    forall i | 0 <= i < |rows|
      ensures HasCrypto(fin.cryptos, rows[i].cryptoId)
    {
      var k :| 0 <= k < |st.cryptos| && st.cryptos[k].id == rows[i].cryptoId;
      assert fin.cryptos[k].id == rows[i].cryptoId;
    }
    QuietPass(rows, fin);
  }

  /** A candle of crypto 1 opening at 900, with an ATR of 1 and the price
      EMAs `e15`, 2 and `e50`. */
  function TiedCandle(tf: string, e15: real, e50: real): VolumeData {
    VolumeData(1, Some(tf), 900, 1.0, 1.0, 1.0, 1.0, 1.0, 1.0,
               None, None, None, None, None, None, None, None, None,
               None, Some(e15), Some(2.0), Some(e50), None, Some(EmptyMeta.(atr := Some(1.0))))
  }

  /** A bullish 15m candle and a bearish 4h candle that open at the same
      time: both are latest for their crypto. */
  lemma TiedCandlesLatest()
    ensures var rows := [TiedCandle("15m", 3.0, 1.0), TiedCandle("4h", 1.0, 3.0)];
      LatestRows(rows) == rows
  {
    var rows := [TiedCandle("15m", 3.0, 1.0), TiedCandle("4h", 1.0, 3.0)];
    assert IsLatestAmong(rows, rows[0], _ => true);
    assert IsLatestAmong(rows, rows[1], _ => true);
    assert rows[1..][1..] == [];
  }

  /** Over the two tied candles a crypto not already bullish flips to
      bullish and then to bearish, and both changes are announced. */
  lemma TiedPass(c: Crypto, xs: seq<Crossover>)
    requires c.id == 1 && c.lastTrend != Some(Bullish)
    ensures var rows := [TiedCandle("15m", 3.0, 1.0), TiedCandle("4h", 1.0, 3.0)];
      var r := Run(rows, State([c], xs));
      !r.failed && r.state.cryptos == [c.(lastTrend := Some(Bearish))] && |r.state.crossovers| == |xs| + 2
  {
    var up := TiedCandle("15m", 3.0, 1.0);
    var down := TiedCandle("4h", 1.0, 3.0);
    var rows := [up, down];
    assert DetermineTrend(up) == Some(Bullish);
    assert DetermineTrend(down) == Some(Bearish);
    assert rows[..1] == [up];
    assert [up][..0] == [];
    var b := c.(lastTrend := Some(Bullish));
    assert FindCrypto([c], 1) == Some(c);
    assert UpdateCrypto([c], 1, (x: Crypto) => x.(lastTrend := DetermineTrend(up))) == [b];
    var first := Step(State([c], xs), up);
    assert first.state.cryptos == [b] && |first.state.crossovers| == |xs| + 1;
    assert Run(rows[..1], State([c], xs)) == first;
    assert FindCrypto([b], 1) == Some(b);
    assert UpdateCrypto([b], 1, (x: Crypto) => x.(lastTrend := DetermineTrend(down))) == [c.(lastTrend := Some(Bearish))];
    assert Run(rows, State([c], xs)) == Step(first.state, down);
  }

  /** Two latest candles of one crypto, in timeframes that open together,
      disagree: every run flips `last_trend` twice and announces both
      crossovers again, so a rerun is not quiet. */
  lemma TiedCandlesRepeat()
    ensures var rows := [TiedCandle("15m", 3.0, 1.0), TiedCandle("4h", 1.0, 3.0)];
      var first := Run(LatestRows(rows), State([Crypto(1, "BTC/USDT", "BTC", "USDT", None, None, None, None)], []));
      var second := Run(LatestRows(rows), first.state);
      !first.failed && !second.failed && second.state.cryptos == first.state.cryptos &&
      |second.state.crossovers| == |first.state.crossovers| + 2
  {
    var c := Crypto(1, "BTC/USDT", "BTC", "USDT", None, None, None, None);
    TiedCandlesLatest();
    TiedPass(c, []);
    var first := Run([TiedCandle("15m", 3.0, 1.0), TiedCandle("4h", 1.0, 3.0)], State([c], []));
    TiedPass(c.(lastTrend := Some(Bearish)), first.state.crossovers);
  }
}
