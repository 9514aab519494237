/** The `tracker:fetch-volumes-websocket` command of
    FetchVolumesWebSocket.php. It takes the 120 cryptos with the largest
    24-hour volume and queues `tracker:fetch-volumes` for those with fewer
    than 119 rows in the last 119 quarter hours. It then subscribes to their
    15-minute kline streams. For each event it reads the crypto's newest 119
    stored rows and computes the 15-minute MACD and the hourly MACD of
    averaged closes. The result is stored with `updateOrCreate` on
    (crypto_id, timestamp). */
module FetchVolumesWebSocket {
  import opened Common
  import opened Schema
  import opened Ingest
  import Calculate
  import VolumeOrder

  // ---------------------------------------------------------------------------
  // handle

  /** Lines 24-26: the 120 cryptos with the largest 24-hour volume. */
  function Top(cryptos: seq<Crypto>): (r: seq<Crypto>)
    ensures |r| == if |cryptos| <= 120 then |cryptos| else 120
    ensures forall c :: c in r ==> c in cryptos
    ensures forall i, j :: 0 <= i < j < |r| ==> VolumeOrder.VolumeFirst(r[i], r[j])
  {
    var ordered := VolumeOrder.ByVolume(cryptos);
    VolumeOrder.ByVolumeOrdered(cryptos);
    assert forall c :: c in ordered ==> c in multiset(cryptos);
    var n := if |ordered| <= 120 then |ordered| else 120;
    assert forall c :: c in ordered[..n] ==> c in ordered;
    ordered[..n]
  }

  /** Line 31: the rows counted are those of the last 119 quarter hours. */
  const Lookback: int := 119 * 15 * 60

  /** The rows of a crypto from a moment on. */
  function Since(id: nat, from: int): VolumeData -> bool {
    (x: VolumeData) => x.cryptoId == id && x.timestamp >= from
  }

  /** Lines 29-39 as a fold: the ids of the cryptos, in order, with fewer than
      119 rows since the moment. */
  function InsufficientIds(top: seq<Crypto>, rows: seq<VolumeData>, from: int): seq<nat>
    decreases |top|
  {
    if top == [] then []
    else
      var c := top[|top| - 1];
      InsufficientIds(top[..|top| - 1], rows, from) + (if Count(rows, Since(c.id, from)) < 119 then [c.id] else [])
  }

  /** An id is listed exactly when a crypto of the list has it and too few
      rows. */
  lemma {:induction false} InsufficientIff(top: seq<Crypto>, rows: seq<VolumeData>, from: int, id: nat)
    ensures id in InsufficientIds(top, rows, from) <==>
      exists c :: c in top && c.id == id && Count(rows, Since(c.id, from)) < 119
    decreases |top|
  {
    if top != [] {
      var init := top[..|top| - 1];
      InsufficientIff(init, rows, from, id);
      assert top == init + [top[|top| - 1]];
      if exists c :: c in top && c.id == id && Count(rows, Since(c.id, from)) < 119 {
        var c :| c in top && c.id == id && Count(rows, Since(c.id, from)) < 119;
        if c != top[|top| - 1] {
          assert c in init;
        }
      }
    }
  }

  /** The loop of lines 29-39. */
  method FindInsufficient(top: seq<Crypto>, rows: seq<VolumeData>, now: int) returns (ids: seq<nat>)
    ensures ids == InsufficientIds(top, rows, now - Lookback)
  {
    ids := [];
    var i := 0;
    while i < |top|
      invariant 0 <= i <= |top|
      invariant ids == InsufficientIds(top[..i], rows, now - Lookback)
    {
      assert top[..i + 1][..i] == top[..i];
      var count := Count(rows, Since(top[i].id, now - Lookback));
      if count < 119 {
        ids := ids + [top[i].id];
      }
      i := i + 1;
    }
    assert top[..i] == top;
  }

  /** The decimal spelling of a number. */
  function DecimalString(n: nat): (r: string)
    ensures forall i :: 0 <= i < |r| ==> '0' <= r[i] <= '9'
  {
    var d := ('0' as int + n % 10) as char;
    if n < 10 then [d] else DecimalString(n / 10) + [d]
  }

  /** `in_array($symbol, $ids)` without strictness: a string equals a number
      when it spells it. */
  predicate LooseIn(symbol: string, ids: seq<nat>) {
    exists id :: id in ids && symbol == DecimalString(id)
  }

  /** Line 48 as written: the cryptos whose symbol is not loosely in the list
      of ids. */
  function SubscribedAsWritten(top: seq<Crypto>, ids: seq<nat>): seq<Crypto> {
    Filter(top, (c: Crypto) => !LooseIn(c.symbol, ids))
  }

  /** As written, the list of ids excludes no pair symbol: a symbol with a
      `'/'` spells no number, so every top crypto is subscribed, those queued
      for a backfill included. */
  lemma AsWrittenExcludesNothing(top: seq<Crypto>, ids: seq<nat>)
    requires forall c :: c in top ==> '/' in c.symbol
    ensures SubscribedAsWritten(top, ids) == top
  {
    forall i | 0 <= i < |top| ensures !LooseIn(top[i].symbol, ids) {
      assert top[i] in top;
      forall id | id in ids ensures top[i].symbol != DecimalString(id) {
        var j :| 0 <= j < |top[i].symbol| && top[i].symbol[j] == '/';
      }
    }
    FilterAll(top, (c: Crypto) => !LooseIn(c.symbol, ids));
  }

  /** Line 48 as evidently intended: the cryptos whose id is not listed. */
  function Subscribed(top: seq<Crypto>, ids: seq<nat>): seq<Crypto> {
    Filter(top, (c: Crypto) => c.id !in ids)
  }

  /** With the intended filter, a top crypto is subscribed exactly when it has
      at least 119 rows in the lookback. */
  lemma SubscribedIff(top: seq<Crypto>, rows: seq<VolumeData>, from: int, c: Crypto)
    ensures c in Subscribed(top, InsufficientIds(top, rows, from)) <==>
      c in top && Count(rows, Since(c.id, from)) >= 119
  {
    InsufficientIff(top, rows, from, c.id);
  }

  /** One crypto without stored rows: it is queued for a backfill, as written
      it is still subscribed, and with the intended filter it is not. */
  lemma AsWrittenSubscribesStarved(now: int)
    ensures var c := Crypto(7, "BTC/USDT", "BTC", "USDT", None, None, None, None);
      InsufficientIds([c], [], now - Lookback) == [7] &&
      SubscribedAsWritten([c], [7]) == [c] &&
      Subscribed([c], [7]) == []
  {
    var c := Crypto(7, "BTC/USDT", "BTC", "USDT", None, None, None, None);
    assert [c][..0] == [];
    assert Count([], Since(7, now - Lookback)) == 0;
    assert c.symbol[3] == '/';
    AsWrittenExcludesNothing([c], [7]);
  }

  /** Lines 50-56: none when no crypto remains (the command exits), otherwise
      the streams joined by `'/'`. */
  function Subscription(cryptos: seq<Crypto>): (r: Option<string>)
    ensures r.None? <==> cryptos == []
  {
    if cryptos == [] then None else Some(Streams(StreamNames15m(cryptos)))
  }

  /** `handle` up to the connection, with the intended filter: the ids queued
      for `tracker:fetch-volumes`, when there are any, and the subscription. */
  method Handle(cryptos: seq<Crypto>, rows: seq<VolumeData>, now: int)
    returns (queued: Option<seq<nat>>, subscription: Option<string>)
    ensures var ids := InsufficientIds(Top(cryptos), rows, now - Lookback);
      queued == (if ids == [] then None else Some(ids)) &&
      subscription == Subscription(Subscribed(Top(cryptos), ids))
  {
    var topCryptos := Top(cryptos);
    var insufficientDataCryptos := FindInsufficient(topCryptos, rows, now);
    queued := if insufficientDataCryptos == [] then None else Some(insufficientDataCryptos);
    subscription := Subscription(Subscribed(topCryptos, insufficientDataCryptos));
  }

  // ---------------------------------------------------------------------------
  // The hourly aggregate

  /** `array_chunk($s, $n)`: consecutive pieces of n elements, the last one
      shorter when n does not divide the length. */
  function Chunk<T>(s: seq<T>, n: nat): (r: seq<seq<T>>)
    requires n > 0
    ensures forall i :: 0 <= i < |r| ==> 0 < |r[i]| <= n
    ensures forall i :: 0 <= i < |r| - 1 ==> |r[i]| == n
    decreases |s|
  {
    if |s| <= n then (if s == [] then [] else [s])
    else [s[..n]] + Chunk(s[n..], n)
  }

  function Flatten<T>(chunks: seq<seq<T>>): seq<T>
    decreases |chunks|
  {
    if chunks == [] then [] else chunks[0] + Flatten(chunks[1..])
  }

  /** The pieces, put back together, are the sequence. */
  lemma {:induction false} ChunkPartitions<T>(s: seq<T>, n: nat)
    requires n > 0
    ensures Flatten(Chunk(s, n)) == s
    decreases |s|
  {
    if |s| > n {
      ChunkPartitions(s[n..], n);
      var rest := Chunk(s[n..], n);
      assert ([s[..n]] + rest)[1..] == rest;
      assert s[..n] + s[n..] == s;
    } else if s != [] {
      assert Flatten([s]) == s + Flatten([s][1..]);
    }
  }

  /** Chunks of four: a quarter of the length, rounded up. */
  lemma {:induction false} ChunkCount<T>(s: seq<T>)
    ensures |Chunk(s, 4)| == (|s| + 3) / 4
    decreases |s|
  {
    if |s| > 4 {
      ChunkCount(s[4..]);
    }
  }

  /** The mean of a non-empty sequence. */
  function Mean(s: seq<real>): real
    requires |s| > 0
  {
    Sum(s) / |s| as real
  }

  /** Line 130: the mean close of each chunk. */
  function AggregatedCloses(chunks: seq<seq<real>>): (r: seq<real>)
    requires forall i :: 0 <= i < |chunks| ==> |chunks[i]| > 0
    ensures |r| == |chunks|
  {
    seq(|chunks|, i requires 0 <= i < |chunks| => Mean(chunks[i]))
  }

  /** Line 131: the volume of each chunk. */
  function AggregatedVolumes(chunks: seq<seq<real>>): (r: seq<real>)
    ensures |r| == |chunks|
  {
    seq(|chunks|, i requires 0 <= i < |chunks| => Sum(chunks[i]))
  }

  /** The hourly volumes add up to the quarter-hour volumes. */
  lemma {:induction false} AggregatedVolumesTotal(s: seq<real>, n: nat)
    requires n > 0
    ensures Sum(AggregatedVolumes(Chunk(s, n))) == Sum(s)
    decreases |s|
  {
    if |s| > n {
      AggregatedVolumesTotal(s[n..], n);
      var rest := AggregatedVolumes(Chunk(s[n..], n));
      assert AggregatedVolumes(Chunk(s, n)) == [Sum(s[..n])] + rest;
      SumAppend([Sum(s[..n])], rest);
      assert [Sum(s[..n])][..0] == [];
      SumAppend(s[..n], s[n..]);
      assert s[..n] + s[n..] == s;
    } else if s != [] {
      assert AggregatedVolumes(Chunk(s, n)) == [Sum(s)];
      assert [Sum(s)][..0] == [];
    }
  }

  /** A mean lies between the smallest and the largest element. */
  lemma MeanWithin(s: seq<real>)
    requires |s| > 0
    ensures MinOf(s) <= Mean(s) <= MaxOf(s)
  {
    MeanBetween(s, MinOf(s), MaxOf(s));
  }

  lemma MeanBetween(s: seq<real>, lo: real, hi: real)
    requires |s| > 0 && forall i :: 0 <= i < |s| ==> lo <= s[i] <= hi
    ensures lo <= Mean(s) <= hi
  {
    SumBounds(s, lo, hi);
    QuotientBetween(Sum(s), |s| as real, lo, hi);
  }

  /** The hourly closes: n over four of them, rounded up, each within its
      hour's closes. */
  lemma HourlyCloses(closes: seq<real>)
    ensures var hourly := AggregatedCloses(Chunk(closes, 4));
      |hourly| == (|closes| + 3) / 4 &&
      forall i :: 0 <= i < |hourly| ==>
        MinOf(Chunk(closes, 4)[i]) <= hourly[i] <= MaxOf(Chunk(closes, 4)[i])
  {
    ChunkCount(closes);
    forall i | 0 <= i < |Chunk(closes, 4)| {
      MeanWithin(Chunk(closes, 4)[i]);
    }
  }

  // ---------------------------------------------------------------------------
  // processKlineData

  /** Lines 106-109: the crypto's newest 119 rows, oldest first, of every
      timeframe and the bar's own stored row included. */
  function RecentData(rows: seq<VolumeData>, id: nat): (w: seq<VolumeData>)
    ensures |w| <= 119
  {
    Window(rows, OfCrypto(id), 119)
  }

  /** Lines 112-133 and the values of lines 140-163. The volumes passed to
      `MACD` are ignored, since it takes the closes alone; `price_change` is
      not written. */
  function Indicators(w: seq<VolumeData>, k: Kline): Values {
    var highs := Series(w, HighOf, k.high);
    var lows := Series(w, LowOf, k.low);
    var closes := Series(w, CloseOf, k.close);
    var volumes := Series(w, VolumeOf, k.volume);
    var last := LastRow(w);
    var macd := Calculate.MACD(closes);
    var hourly := Calculate.MACD(AggregatedCloses(Chunk(closes, 4)));
    var meta := EmptyMeta.(atr := Some(Calculate.AtrValue(highs, lows, closes, 14)),
                           macdLine := Some(macd.line), signalLine := Some(macd.signal),
                           histogram := Some(macd.histogram),
                           previousHistogram := Some(CarriedHistogram(last, VwHistogramKey)),
                           rsi := Some(Calculate.RsiValue(closes, 14)),
                           hourMacdLine := Some(hourly.line), hourSignalLine := Some(hourly.signal),
                           hourHistogram := Some(hourly.histogram));
    Values(k.open, k.high, k.low, k.close, k.volume, None,
           Calculate.MA(volumes, 15), Calculate.MA(volumes, 25), Calculate.MA(volumes, 50),
           Calculate.Last(Calculate.EmaSeries(closes, 15)), Calculate.Last(Calculate.EmaSeries(closes, 25)),
           Calculate.Last(Calculate.EmaSeries(closes, 50)), meta)
  }

  /** `processKlineData`' effect on the table: the row of the crypto at the
      bar, whatever its timeframe, is written; a new row has no timeframe. */
  function Process(rows: seq<VolumeData>, cryptos: seq<Crypto>, k: Kline): seq<VolumeData> {
    match FindBase(cryptos, BaseOf(k.symbol))
    case None => rows
    case Some(c) =>
      var ts := BarTime(k.start);
      Store(rows, AtBar(c.id, ts), c.id, None, ts, Indicators(RecentData(rows, c.id), k))
  }

  /** `processKlineData`: the window arrays get the new bar appended, the
      closes are also aggregated four at a time for the hourly MACD, and the
      row is upserted. */
  method ProcessKlineData(rows: seq<VolumeData>, cryptos: seq<Crypto>, k: Kline) returns (after: seq<VolumeData>)
    ensures after == Process(rows, cryptos, k)
  {
    var found := FindBase(cryptos, BaseOf(k.symbol));
    if found.None? {
      return rows;
    }
    var crypto := found.value;
    var recentData := RecentData(rows, crypto.id);
    var highs := Series(recentData, HighOf, k.high);
    var lows := Series(recentData, LowOf, k.low);
    var closePrices := Series(recentData, CloseOf, k.close);
    var volumes := Series(recentData, VolumeOf, k.volume);
    var last := LastRow(recentData);
    var macdData := Calculate.MACD(closePrices);
    var hourlyMacd := Calculate.MACD(AggregatedCloses(Chunk(closePrices, 4)));
    var atr := Calculate.ATR(highs, lows, closePrices, 14);
    var rsi := Calculate.RSI(closePrices, 14);
    var ema15 := Calculate.EMA(closePrices, 15);
    var ema25 := Calculate.EMA(closePrices, 25);
    var ema50 := Calculate.EMA(closePrices, 50);
    var meta := EmptyMeta.(atr := Some(atr), macdLine := Some(macdData.line), signalLine := Some(macdData.signal),
                           histogram := Some(macdData.histogram),
                           previousHistogram := Some(CarriedHistogram(last, VwHistogramKey)),
                           rsi := Some(rsi), hourMacdLine := Some(hourlyMacd.line),
                           hourSignalLine := Some(hourlyMacd.signal), hourHistogram := Some(hourlyMacd.histogram));
    var values := Values(k.open, k.high, k.low, k.close, k.volume, None,
                         Calculate.MA(volumes, 15), Calculate.MA(volumes, 25), Calculate.MA(volumes, 50),
                         ema15, ema25, ema50, meta);
    var timestamp := BarTime(k.start);
    after := Store(rows, AtBar(crypto.id, timestamp), crypto.id, None, timestamp, values);
  }

  /** A dropped event writes nothing. Otherwise a row of the crypto at the bar
      holds the computed values, every other row is unchanged, at most one
      row is added, and the table keeps one row per (crypto_id, timestamp). */
  lemma ProcessWrites(rows: seq<VolumeData>, cryptos: seq<Crypto>, k: Kline)
    ensures FindBase(cryptos, BaseOf(k.symbol)).None? ==> Process(rows, cryptos, k) == rows
    ensures FindBase(cryptos, BaseOf(k.symbol)).Some? ==>
      var id := FindBase(cryptos, BaseOf(k.symbol)).value.id;
      var ts := BarTime(k.start);
      var r := Process(rows, cryptos, k);
      |rows| <= |r| <= |rows| + 1 &&
      (exists i :: 0 <= i < |r| && AtBar(id, ts)(r[i]) && Holds(r[i], Indicators(RecentData(rows, id), k))) &&
      (forall i :: 0 <= i < |rows| && !AtBar(id, ts)(rows[i]) ==> r[i] == rows[i]) &&
      (UniqueBy(rows, BarOf) ==> UniqueBy(r, BarOf) && Count(r, AtBar(id, ts)) == 1)
  {
    if FindBase(cryptos, BaseOf(k.symbol)).Some? {
      var id := FindBase(cryptos, BaseOf(k.symbol)).value.id;
      var ts := BarTime(k.start);
      var v := Indicators(RecentData(rows, id), k);
      StoreWrites(rows, AtBar(id, ts), id, None, ts, v);
      if UniqueBy(rows, BarOf) {
        StoreKeepsBarUnique(rows, id, ts, None, v);
      }
    }
  }

  /** The command writes no `vw_histogram`, so a row it wrote gives the next
      event a previous histogram of 0. */
  lemma PreviousHistogramIsZero(w: seq<VolumeData>, k: Kline, x: VolumeData)
    requires Holds(x, Indicators(w, k))
    ensures CarriedHistogram(Some(x), VwHistogramKey) == 0.0
  {
  }
}
