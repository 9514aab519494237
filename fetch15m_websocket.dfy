/** The `tracker:fetch-15m-websocket` command of Fetch15MWebSocket.php. It
    subscribes to the 15-minute kline stream of every crypto, by descending
    24-hour volume. For each event it finds the crypto by base asset, reads
    the crypto's newest 49 stored rows and computes the MACD, ATR, RSI, ADX,
    the volume averages and the price EMAs. The result is stored with
    `updateOrCreate` on (crypto_id, timestamp, '15m'). */
module Fetch15m {
  import opened Common
  import opened Schema
  import opened Ingest
  import Text
  import Calculate
  import Sorting
  import VolumeOrder

  /** Lines 24-34: no subscription for an empty table (the command exits),
      otherwise the streams of all cryptos by descending volume. */
  function Subscription(cryptos: seq<Crypto>): (r: Option<string>)
    ensures r.None? <==> cryptos == []
  {
    if cryptos == [] then None else Some(Streams(StreamNames15m(VolumeOrder.ByVolume(cryptos))))
  }

  /** The subscription splits back into one stream per crypto, in descending
      volume order, every crypto of the table included. */
  lemma SubscriptionStreams(cryptos: seq<Crypto>)
    requires cryptos != []
    ensures var names := Text.Explode(Subscription(cryptos).value, "/");
      names == StreamNames15m(VolumeOrder.ByVolume(cryptos)) && |names| == |cryptos| &&
      forall c :: c in cryptos ==> StreamName15m(c.symbol) in names
  {
    var ordered := VolumeOrder.ByVolume(cryptos);
    VolumeOrder.ByVolumeOrdered(cryptos);
    StreamsSplit(StreamNames15m(ordered));
    forall c | c in cryptos ensures StreamName15m(c.symbol) in StreamNames15m(ordered) {
      assert c in multiset(ordered);
      var i :| 0 <= i < |ordered| && ordered[i] == c;
      assert StreamNames15m(ordered)[i] == StreamName15m(c.symbol);
    }
  }

  /** Lines 66-73: the event's crypto is the first whose base asset is the
      symbol's base; without one the event is dropped. */
  function Resolve(cryptos: seq<Crypto>, k: Kline): Option<Crypto> {
    FindBase(cryptos, BaseOf(k.symbol))
  }

  /** Lines 84-87: the crypto's newest 49 rows, oldest first, of every
      timeframe and the bar's own stored row included. */
  function RecentData(rows: seq<VolumeData>, id: nat): (w: seq<VolumeData>)
    ensures |w| <= 49
  {
    Window(rows, OfCrypto(id), 49)
  }

  /** Lines 89-109 and the values of lines 117-142. */
  function Indicators(w: seq<VolumeData>, k: Kline, adx: AdxFn): Values {
    var highs := Series(w, HighOf, k.high);
    var lows := Series(w, LowOf, k.low);
    var closes := Series(w, CloseOf, k.close);
    var volumes := Series(w, VolumeOf, k.volume);
    var last := LastRow(w);
    var macd := Calculate.MACD(closes);
    var a := adx(highs, lows, closes, 14);
    var meta := EmptyMeta.(atr := Some(Calculate.AtrValue(highs, lows, closes, 14)),
                           macdLine := Some(macd.line), signalLine := Some(macd.signal),
                           histogram := Some(macd.histogram),
                           previousHistogram := Some(CarriedHistogram(last, HistogramKey)),
                           rsi := Some(Calculate.RsiValue(closes, 14)),
                           adx := Some(a.adx), plusDi := Some(a.plusDi), minusDi := Some(a.minusDi));
    Values(k.open, k.high, k.low, k.close, k.volume,
           Some(Round2(PriceChange(PreviousClose(last, k.close), k.close))),
           Calculate.MA(volumes, 15), Calculate.MA(volumes, 25), Calculate.MA(volumes, 50),
           Calculate.Last(Calculate.EmaSeries(closes, 15)), Calculate.Last(Calculate.EmaSeries(closes, 25)),
           Calculate.Last(Calculate.EmaSeries(closes, 50)), meta)
  }

  /** `processKlineData`' effect on the table. */
  function Process(rows: seq<VolumeData>, cryptos: seq<Crypto>, k: Kline, adx: AdxFn): seq<VolumeData> {
    match Resolve(cryptos, k)
    case None => rows
    case Some(c) =>
      var ts := BarTime(k.start);
      Store(rows, AtKey(c.id, ts, "15m"), c.id, Some("15m"), ts, Indicators(RecentData(rows, c.id), k, adx))
  }

  /** `processKlineData`: the window arrays get the new bar appended, the
      indicators come from `Calculate`, and the row is upserted. */
  method ProcessKlineData(rows: seq<VolumeData>, cryptos: seq<Crypto>, k: Kline, adx: AdxFn)
    returns (after: seq<VolumeData>)
    ensures after == Process(rows, cryptos, k, adx)
  {
    var found := Resolve(cryptos, k);
    if found.None? {
      return rows;
    }
    var crypto := found.value;
    var recentData := RecentData(rows, crypto.id);
    var highs := Series(recentData, HighOf, k.high);
    var lows := Series(recentData, LowOf, k.low);
    var closePrices := Series(recentData, CloseOf, k.close);
    var volumes := Series(recentData, VolumeOf, k.volume);
    var last := LastRow(recentData);
    var macdData := Calculate.MACD(closePrices);
    var atr := Calculate.ATR(highs, lows, closePrices, 14);
    var rsi := Calculate.RSI(closePrices, 14);
    var adxData := adx(highs, lows, closePrices, 14);
    var priceChange := PriceChange(PreviousClose(last, k.close), k.close);
    var ema15 := Calculate.EMA(closePrices, 15);
    var ema25 := Calculate.EMA(closePrices, 25);
    var ema50 := Calculate.EMA(closePrices, 50);
    var meta := EmptyMeta.(atr := Some(atr), macdLine := Some(macdData.line), signalLine := Some(macdData.signal),
                           histogram := Some(macdData.histogram),
                           previousHistogram := Some(CarriedHistogram(last, HistogramKey)),
                           rsi := Some(rsi), adx := Some(adxData.adx), plusDi := Some(adxData.plusDi),
                           minusDi := Some(adxData.minusDi));
    var values := Values(k.open, k.high, k.low, k.close, k.volume, Some(Round2(priceChange)),
                         Calculate.MA(volumes, 15), Calculate.MA(volumes, 25), Calculate.MA(volumes, 50),
                         ema15, ema25, ema50, meta);
    var timestamp := BarTime(k.start);
    after := Store(rows, AtKey(crypto.id, timestamp, "15m"), crypto.id, Some("15m"), timestamp, values);
  }

  /** A dropped event writes nothing. Otherwise a 15m row of the crypto at the
      bar holds the computed values, every other row is unchanged, and at
      most one row is added. */
  lemma ProcessWrites(rows: seq<VolumeData>, cryptos: seq<Crypto>, k: Kline, adx: AdxFn)
    ensures Resolve(cryptos, k).None? ==> Process(rows, cryptos, k, adx) == rows
    ensures Resolve(cryptos, k).Some? ==>
      var id := Resolve(cryptos, k).value.id;
      var ts := BarTime(k.start);
      var r := Process(rows, cryptos, k, adx);
      |rows| <= |r| <= |rows| + 1 &&
      (exists i :: 0 <= i < |r| && AtKey(id, ts, "15m")(r[i]) &&
                   Holds(r[i], Indicators(RecentData(rows, id), k, adx))) &&
      (forall i :: 0 <= i < |rows| && !AtKey(id, ts, "15m")(rows[i]) ==> r[i] == rows[i])
  {
    if Resolve(cryptos, k).Some? {
      var id := Resolve(cryptos, k).value.id;
      var ts := BarTime(k.start);
      StoreWrites(rows, AtKey(id, ts, "15m"), id, Some("15m"), ts, Indicators(RecentData(rows, id), k, adx));
    }
  }

  /** The table keeps one row per (crypto_id, timestamp, timeframe), and after
      an event that is not dropped exactly one row has its key. */
  lemma ProcessKeepsKeysUnique(rows: seq<VolumeData>, cryptos: seq<Crypto>, k: Kline, adx: AdxFn)
    requires UniqueBy(rows, KeyOf)
    ensures UniqueBy(Process(rows, cryptos, k, adx), KeyOf)
    ensures Resolve(cryptos, k).Some? ==>
      Count(Process(rows, cryptos, k, adx), AtKey(Resolve(cryptos, k).value.id, BarTime(k.start), "15m")) == 1
  {
    if Resolve(cryptos, k).Some? {
      var id := Resolve(cryptos, k).value.id;
      var ts := BarTime(k.start);
      StoreKeepsKeyUnique(rows, id, ts, "15m", Indicators(RecentData(rows, id), k, adx));
    }
  }

  /** When the table already holds a row of the crypto at the bar and none
      later, the window ends at that row: the previous close and the previous
      histogram are the bar's own earlier values. */
  lemma ReadsOwnBar(rows: seq<VolumeData>, id: nat, x: VolumeData)
    requires x in rows && x.cryptoId == id
    requires forall y :: y in rows && y.cryptoId == id ==> y.timestamp <= x.timestamp
    ensures |RecentData(rows, id)| > 0 && LastRow(RecentData(rows, id)).Some?
    ensures LastRow(RecentData(rows, id)).value.timestamp == x.timestamp
  {
    var w := RecentData(rows, id);
    assert Count(rows, OfCrypto(id)) > 0 by {
      assert x in Filter(rows, OfCrypto(id));
    }
    WindowNewest(rows, OfCrypto(id), 49, x);
    WindowRows(rows, OfCrypto(id), 49);
    assert w[|w| - 1] in rows;
  }

  // ---------------------------------------------------------------------------
  // The window as evidently intended: the 15m rows before the bar

  /** `processKlineData` with the window BinanceWebSocket reads: the crypto's
      15m rows, except the bar's own. */
  function ProcessIntended(rows: seq<VolumeData>, cryptos: seq<Crypto>, k: Kline, adx: AdxFn): seq<VolumeData> {
    match Resolve(cryptos, k)
    case None => rows
    case Some(c) =>
      var ts := BarTime(k.start);
      Store(rows, AtKey(c.id, ts, "15m"), c.id, Some("15m"), ts,
            Indicators(Window(rows, Scope(c.id, "15m", ts), 49), k, adx))
  }

  /** With that window a bar streamed twice leaves the table as the later
      event alone would. */
  lemma IntendedRepeatedBarLaterWins(rows: seq<VolumeData>, cryptos: seq<Crypto>, k1: Kline, k2: Kline, adx: AdxFn)
    requires BaseOf(k1.symbol) == BaseOf(k2.symbol) && BarTime(k1.start) == BarTime(k2.start)
    ensures ProcessIntended(ProcessIntended(rows, cryptos, k1, adx), cryptos, k2, adx) ==
            ProcessIntended(rows, cryptos, k2, adx)
  {
    if Resolve(cryptos, k1).Some? {
      var id := Resolve(cryptos, k1).value.id;
      var ts := BarTime(k1.start);
      var key := AtKey(id, ts, "15m");
      var scope := Scope(id, "15m", ts);
      var v1 := Indicators(Window(rows, scope, 49), k1, adx);
      var once := Store(rows, key, id, Some("15m"), ts, v1);
      StoreOutsideWindow(rows, key, id, Some("15m"), ts, v1, scope);
      assert Window(once, scope, 49) == Window(rows, scope, 49);
      StoreLaterWins(rows, key, id, Some("15m"), ts, v1, Indicators(Window(rows, scope, 49), k2, adx));
    }
  }

  /** A 15m row of crypto 1 at a timestamp with a close. */
  function Bar(ts: int, close: real): VolumeData {
    VolumeData(1, Some("15m"), ts, close, close, close, close, 1.0, close,
               None, None, None, None, None, None, None, None, None,
               None, None, None, None, None, None)
  }

  /** A table with a bar closed at 100 and the first tick of the next bar,
      at 110. A second tick of that bar at 110 is stored, as written, with a
      price change of 0, the change since the first tick; with the intended
      window it keeps the change of 10 percent from the previous bar. */
  lemma AsWrittenTickResetsPriceChange(k: Kline, adx: AdxFn)
    requires BaseOf(k.symbol) == "BTC" && BarTime(k.start) == 900 && k.close == 110.0
    ensures var cryptos := [Crypto(1, "BTC/USDT", "BTC", "USDT", None, None, None, None)];
      var rows := [Bar(0, 100.0), Bar(900, 110.0)];
      Process(rows, cryptos, k, adx)[1].priceChange == Some(0.0) &&
      ProcessIntended(rows, cryptos, k, adx)[1].priceChange == Some(10.0)
  {
    TickAsWritten(k, adx);
    TickIntended(k, adx);
  }

  /** The crypto and the stored row the second tick resolves to. */
  lemma TickTargets(k: Kline)
    requires BaseOf(k.symbol) == "BTC" && BarTime(k.start) == 900
    ensures var crypto := Crypto(1, "BTC/USDT", "BTC", "USDT", None, None, None, None);
      Resolve([crypto], k) == Some(crypto) &&
      FirstIndex([Bar(0, 100.0), Bar(900, 110.0)], AtKey(1, 900, "15m")) == Some(1)
  {
    var crypto := Crypto(1, "BTC/USDT", "BTC", "USDT", None, None, None, None);
    var cryptos := [crypto];
    var rows := [Bar(0, 100.0), Bar(900, 110.0)];
    assert FirstIndex(cryptos, (c: Crypto) => c.baseAsset == "BTC") == Some(0);
    var key := AtKey(1, 900, "15m");
    assert !key(rows[0]) && key(rows[1]);
    assert FirstIndex(rows[1..], key) == Some(0);
  }

  /** The price change the indicators carry: the change from the window's
      newest close. */
  lemma IndicatorsPriceChange(w: seq<VolumeData>, k: Kline, adx: AdxFn)
    ensures Indicators(w, k, adx).priceChange == Some(Round2(PriceChange(PreviousClose(LastRow(w), k.close), k.close)))
  {
  }

  /** As written: the window holds both rows, so the previous close is the
      first tick's. */
  lemma TickAsWritten(k: Kline, adx: AdxFn)
    requires BaseOf(k.symbol) == "BTC" && BarTime(k.start) == 900 && k.close == 110.0
    ensures var cryptos := [Crypto(1, "BTC/USDT", "BTC", "USDT", None, None, None, None)];
      var rows := [Bar(0, 100.0), Bar(900, 110.0)];
      Process(rows, cryptos, k, adx)[1].priceChange == Some(0.0)
  {
    var rows := [Bar(0, 100.0), Bar(900, 110.0)];
    BothBarsWindow();
    ProcessAtSecond(rows, k, adx);
    TickTargets(k);
    ChangeFrom(rows, k, adx, 110.0);
    RoundsTo(0.0, 0);
    StoredSecond(rows, Indicators(rows, k, adx));
  }

  /** As written, crypto 1's window over the two bars is both of them. */
  lemma BothBarsWindow()
    ensures RecentData([Bar(0, 100.0), Bar(900, 110.0)], 1) == [Bar(0, 100.0), Bar(900, 110.0)]
  {
    var rows := [Bar(0, 100.0), Bar(900, 110.0)];
    assert Filter(rows, OfCrypto(1)) == rows by {
      assert rows[1..][1..] == [];
    }
    Sorting.SortBySortedIdentity(rows, NoLater);
  }

  /** With the intended scope, the window over the two bars at 900 is the
      first bar alone. */
  lemma FirstBarWindow()
    ensures Window([Bar(0, 100.0), Bar(900, 110.0)], Scope(1, "15m", 900), 49) == [Bar(0, 100.0)]
  {
    var rows := [Bar(0, 100.0), Bar(900, 110.0)];
    assert Filter(rows, Scope(1, "15m", 900)) == [Bar(0, 100.0)] by {
      assert rows[1..][1..] == [];
    }
    Sorting.SortBySortedIdentity([Bar(0, 100.0)], NoLater);
  }

  /** A tick of BTC at 900 upserts crypto 1's row at 900, as written. */
  lemma ProcessAtSecond(rows: seq<VolumeData>, k: Kline, adx: AdxFn)
    requires BaseOf(k.symbol) == "BTC" && BarTime(k.start) == 900
    ensures Process(rows, [Crypto(1, "BTC/USDT", "BTC", "USDT", None, None, None, None)], k, adx)
      == Store(rows, AtKey(1, 900, "15m"), 1, Some("15m"), 900, Indicators(RecentData(rows, 1), k, adx))
  {
    TickTargets(k);
  }

  /** A tick of BTC at 900 upserts crypto 1's row at 900, with the intended
      window. */
  lemma IntendedAtSecond(rows: seq<VolumeData>, k: Kline, adx: AdxFn)
    requires BaseOf(k.symbol) == "BTC" && BarTime(k.start) == 900
    ensures ProcessIntended(rows, [Crypto(1, "BTC/USDT", "BTC", "USDT", None, None, None, None)], k, adx)
      == Store(rows, AtKey(1, 900, "15m"), 1, Some("15m"), 900, Indicators(Window(rows, Scope(1, "15m", 900), 49), k, adx))
  {
    TickTargets(k);
  }

  /** The indicators' price change over a window whose newest close is
      `prev`. */
  lemma ChangeFrom(w: seq<VolumeData>, k: Kline, adx: AdxFn, prev: real)
    requires w != [] && w[|w| - 1].close == prev
    ensures Indicators(w, k, adx).priceChange == Some(Round2(PriceChange(prev, k.close)))
  {
    IndicatorsPriceChange(w, k, adx);
  }

  /** The upsert of the second tick rewrites the second row. */
  lemma StoredSecond(rows: seq<VolumeData>, v: Values)
    requires |rows| == 2 && FirstIndex(rows, AtKey(1, 900, "15m")) == Some(1)
    requires v.priceChange.Some?
    ensures Store(rows, AtKey(1, 900, "15m"), 1, Some("15m"), 900, v)[1].priceChange == v.priceChange
  {
    assert Store(rows, AtKey(1, 900, "15m"), 1, Some("15m"), 900, v)[1] == Fill(v)(rows[1]);
  }

  /** A whole number of hundredths rounds to itself. */
  lemma RoundsTo(x: real, n: nat)
    requires x == n as real / 100.0
    ensures Round2(x) == x
  {
    assert x * 100.0 == n as real;
    assert (x * 100.0 + 0.5).Floor == n;
  }

  /** Intended: the window holds the bar before only. */
  lemma TickIntended(k: Kline, adx: AdxFn)
    requires BaseOf(k.symbol) == "BTC" && BarTime(k.start) == 900 && k.close == 110.0
    ensures var cryptos := [Crypto(1, "BTC/USDT", "BTC", "USDT", None, None, None, None)];
      var rows := [Bar(0, 100.0), Bar(900, 110.0)];
      ProcessIntended(rows, cryptos, k, adx)[1].priceChange == Some(10.0)
  {
    var rows := [Bar(0, 100.0), Bar(900, 110.0)];
    var w := [Bar(0, 100.0)];
    FirstBarWindow();
    IntendedAtSecond(rows, k, adx);
    TickTargets(k);
    ChangeFrom(w, k, adx, 100.0);
    assert PriceChange(100.0, 110.0) == 10.0;
    RoundsTo(10.0, 1000);
    StoredSecond(rows, Indicators(w, k, adx));
  }
}
