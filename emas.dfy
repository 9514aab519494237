/** The `tracker:emas-alert` command of Emas.php (it declares the same class
    as EmasAlert.php): every candle of the last five minutes is classified by
    its 7 and 15 period price EMAs, and any change of a crypto's trend,
    neutral included, is written to `last_trend` and announced in one
    message. */
module Emas {
  import opened Common
  import opened Schema
  import Chunking

  /** `determineTrend`: bullish when EMA7 is above EMA15, bearish when below,
      neutral when neither, with the columns compared as PHP compares two
      decimal strings (a null one is below every value). */
  function DetermineTrend(row: VolumeData): Trend {
    if ColumnLess(row.priceEma15, row.priceEma7) then Bullish
    else if ColumnLess(row.priceEma7, row.priceEma15) then Bearish
    else Neutral
  }

  /** With both EMAs present: bullish iff EMA7 > EMA15, bearish iff EMA7 <
      EMA15, neutral iff they are equal. */
  lemma TrendIff(row: VolumeData)
    requires row.priceEma7.Some? && row.priceEma15.Some?
    ensures var e7 := row.priceEma7.value;
      var e15 := row.priceEma15.value;
      (DetermineTrend(row) == Bullish <==> e7 > e15) &&
      (DetermineTrend(row) == Bearish <==> e7 < e15) &&
      (DetermineTrend(row) == Neutral <==> e7 == e15)
  {
  }

  /** A candle without EMA7 (no websocket writer fills it) reads as bearish
      as soon as EMA15 is present, and as neutral when both are missing. */
  lemma MissingFastEma(row: VolumeData)
    requires row.priceEma7.None?
    ensures DetermineTrend(row) == if row.priceEma15.Some? then Bearish else Neutral
  {
  }

  /** One detected change, as the message reports it. */
  datatype Crossover = Crossover(
    symbol: string,
    trend: Trend,
    previousTrend: Option<Trend>,
    ema7: Option<real>,
    ema15: Option<real>,
    price: real,
    timestamp: int)

  datatype State = State(cryptos: seq<Crypto>, crossovers: seq<Crossover>)

  /** The state where the loop stopped; `failed` when it stopped at an error. */
  datatype Outcome = Outcome(state: State, failed: bool)

  /** One iteration of the loop. A candle without a crypto stops the command
      at line 42, where `last_trend` is read from the null crypto. The update
      is made only on a change of trend. */
  function Step(st: State, row: VolumeData): (r: Outcome)
    ensures r.failed <==> FindCrypto(st.cryptos, row.cryptoId).None?
    ensures r.failed ==> r.state == st
    ensures !r.failed ==>
      var crypto := FindCrypto(st.cryptos, row.cryptoId).value;
      var trend := DetermineTrend(row);
      if crypto.lastTrend != Some(trend) then
        r.state.crossovers == st.crossovers +
          [Crossover(crypto.symbol, trend, crypto.lastTrend, row.priceEma7, row.priceEma15, row.close, row.timestamp)]
      else r.state.crossovers == st.crossovers
  {
    match FindCrypto(st.cryptos, row.cryptoId)
    case None => Outcome(st, true)
    case Some(crypto) =>
      var trend := DetermineTrend(row);
      if Some(trend) != crypto.lastTrend then
        var x := Crossover(crypto.symbol, trend, crypto.lastTrend, row.priceEma7, row.priceEma15, row.close, row.timestamp);
        var cryptos := UpdateCrypto(st.cryptos, row.cryptoId, (c: Crypto) => c.(lastTrend := Some(trend)));
        Outcome(State(cryptos, st.crossovers + [x]), false)
      else
        Outcome(st, false)
  }

  /** Writing only on a change leaves the same table as writing the trend
      every time: afterwards the crypto holds the candle's trend and no other
      crypto changed. */
  lemma StepWritesTrend(st: State, row: VolumeData)
    requires !Step(st, row).failed && UniqueIds(st.cryptos)
    ensures Step(st, row).state.cryptos ==
      UpdateCrypto(st.cryptos, row.cryptoId, (c: Crypto) => c.(lastTrend := Some(DetermineTrend(row))))
  {
    var crypto := FindCrypto(st.cryptos, row.cryptoId).value;
    var updated := UpdateCrypto(st.cryptos, row.cryptoId, (c: Crypto) => c.(lastTrend := Some(DetermineTrend(row))));
    if crypto.lastTrend == Some(DetermineTrend(row)) {
      forall k | 0 <= k < |st.cryptos| ensures updated[k] == st.cryptos[k] {
        if st.cryptos[k].id == row.cryptoId {
          var k0 :| 0 <= k0 < |st.cryptos| && st.cryptos[k0] == crypto;
          assert k0 == k;
        }
      }
    }
  }

  /** The loop over the given candles, stopping at the first error. */
  function Run(rows: seq<VolumeData>, st: State): Outcome
    decreases |rows|
  {
    if rows == [] then Outcome(st, false)
    else
      var before := Run(rows[..|rows| - 1], st);
      if before.failed then before else Step(before.state, rows[|rows| - 1])
  }

  const Header: string := "\U{F0}\U{9F}\U{93}\U{88} *New EMA Crossover Alerts* \U{F0}\U{9F}\U{93}\U{89}\n"

  /** The loop of `handle` over the given candles. */
  method Pass(recent: seq<VolumeData>, cryptos: seq<Crypto>) returns (outcome: Outcome)
    ensures outcome == Run(recent, State(cryptos, []))
  {
    var st := State(cryptos, []);
    var i := 0;
    while i < |recent|
      invariant 0 <= i <= |recent|
      invariant Run(recent[..i], State(cryptos, [])) == Outcome(st, false)
    {
      assert recent[..i + 1][..i] == recent[..i];
      var step := Step(st, recent[i]);
      if step.failed {
        RunStaysFailed(recent, i + 1, State(cryptos, []));
        assert recent[..|recent|] == recent;
        return step;
      }
      st := step.state;
      i := i + 1;
    }
    assert recent[..i] == recent;
    outcome := Outcome(st, false);
  }

  /** `handle`. Returns where the loop stopped and the one message sent to
      Telegram: none when it failed or found no change. */
  method Handle(rows: seq<VolumeData>, cryptos: seq<Crypto>, now: int, format: Crossover -> string)
    returns (outcome: Outcome, message: Option<string>)
    ensures outcome == Run(RowsSince(rows, now - 300), State(cryptos, []))
    ensures outcome.failed || outcome.state.crossovers == [] ==> message.None?
    ensures !outcome.failed && outcome.state.crossovers != [] ==>
      message == Some(Chunking.Compose(Header, outcome.state.crossovers, format))
  {
    outcome := Pass(RowsSince(rows, now - 300), cryptos);
    if outcome.failed || outcome.state.crossovers == [] {
      return outcome, None;
    }
    message := Some(Chunking.Compose(Header, outcome.state.crossovers, format));
  }

  /** Once the loop has stopped, further candles change nothing. */
  lemma {:induction false} RunStaysFailed(rows: seq<VolumeData>, n: nat, st: State)
    requires n <= |rows| && Run(rows[..n], st).failed
    ensures Run(rows, st) == Run(rows[..n], st)
    decreases |rows| - n
  {
    if n < |rows| {
      var init := rows[..|rows| - 1];
      assert init[..n] == rows[..n];
      RunStaysFailed(init, n, st);
    } else {
      assert rows[..n] == rows;
    }
  }

  /** A pass that did not fail keeps the crypto ids in place. */
  lemma {:induction false} RunKeepsIds(rows: seq<VolumeData>, st: State)
    requires !Run(rows, st).failed
    ensures |Run(rows, st).state.cryptos| == |st.cryptos|
    ensures forall k :: 0 <= k < |st.cryptos| ==> Run(rows, st).state.cryptos[k].id == st.cryptos[k].id
    decreases |rows|
  {
    if rows != [] {
      RunKeepsIds(rows[..|rows| - 1], st);
    }
  }

  /** A pass keeps the crypto ids unique. */
  lemma RunKeepsUniqueIds(rows: seq<VolumeData>, st: State)
    requires !Run(rows, st).failed && UniqueIds(st.cryptos)
    ensures UniqueIds(Run(rows, st).state.cryptos)
  {
    RunKeepsIds(rows, st);
  }

  /** A crypto without candles in the pass is unchanged. */
  lemma {:induction false} RunLeavesOthers(rows: seq<VolumeData>, st: State, k: nat)
    requires !Run(rows, st).failed && k < |st.cryptos|
    requires forall i :: 0 <= i < |rows| ==> rows[i].cryptoId != st.cryptos[k].id
    ensures k < |Run(rows, st).state.cryptos| && Run(rows, st).state.cryptos[k] == st.cryptos[k]
    decreases |rows|
  {
    RunKeepsIds(rows, st);
    if rows != [] {
      var init := rows[..|rows| - 1];
      forall i | 0 <= i < |init| ensures init[i].cryptoId != st.cryptos[k].id {
        assert init[i] == rows[i];
      }
      RunLeavesOthers(init, st, k);
    }
  }

  /** After a pass that did not fail, a crypto holds the trend of its last
      candle in the pass. Several candles of one crypto can be in the window;
      the later ones see the trend the earlier ones wrote. */
  lemma {:induction false} RunLastTrend(rows: seq<VolumeData>, st: State, k: nat, i: nat)
    requires !Run(rows, st).failed && UniqueIds(st.cryptos) && k < |st.cryptos|
    requires i < |rows| && rows[i].cryptoId == st.cryptos[k].id
    requires forall j :: i < j < |rows| ==> rows[j].cryptoId != st.cryptos[k].id
    ensures k < |Run(rows, st).state.cryptos|
    ensures Run(rows, st).state.cryptos[k].id == st.cryptos[k].id
    ensures Run(rows, st).state.cryptos[k].lastTrend == Some(DetermineTrend(rows[i]))
    decreases |rows|
  {
    RunKeepsIds(rows, st);
    var init := rows[..|rows| - 1];
    var last := rows[|rows| - 1];
    var before := Run(init, st);
    RunKeepsIds(init, st);
    RunKeepsUniqueIds(init, st);
    StepWritesTrend(before.state, last);
    if i < |rows| - 1 {
      assert rows[i] == init[i];
      forall j | i < j < |init| ensures init[j].cryptoId != st.cryptos[k].id {
        assert init[j] == rows[j];
      }
      RunLastTrend(init, st, k, i);
    }
  }

  /** Every announced change differs from the trend it replaced. */
  lemma {:induction false} CrossoversChange(rows: seq<VolumeData>, st: State)
    requires !Run(rows, st).failed
    requires forall j :: 0 <= j < |st.crossovers| ==> st.crossovers[j].previousTrend != Some(st.crossovers[j].trend)
    ensures var xs := Run(rows, st).state.crossovers;
      forall j :: 0 <= j < |xs| ==> xs[j].previousTrend != Some(xs[j].trend)
    decreases |rows|
  {
    if rows != [] {
      CrossoversChange(rows[..|rows| - 1], st);
    }
  }

  /** A candle whose crypto already holds its trend changes nothing. */
  lemma QuietStep(st: State, row: VolumeData)
    requires exists k :: 0 <= k < |st.cryptos| && st.cryptos[k].id == row.cryptoId
    requires forall k :: 0 <= k < |st.cryptos| && st.cryptos[k].id == row.cryptoId ==>
      st.cryptos[k].lastTrend == Some(DetermineTrend(row))
    ensures Step(st, row) == Outcome(st, false)
  {
    var k0 :| 0 <= k0 < |st.cryptos| && st.cryptos[k0].id == row.cryptoId;
    assert FindCrypto(st.cryptos, row.cryptoId).Some?;
  }
}
