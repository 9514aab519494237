/** The `tracker:fetch-volumes` command of FetchVolumes.php. It takes the 500
    cryptos fetched longest ago, asks the exchange for each one's last hundred
    5-minute candles and, when all hundred come back, inserts a row built from
    the newest candle with the volume and price EMAs over the hundred, then
    stamps the crypto's `last_fetched`. A failure for one crypto is logged and
    the pass goes on with the next. The exchange is a parameter: the candles
    it returns for a symbol, or `Failed` when the call throws. */
module FetchVolumes {
  import opened Common
  import opened Schema
  import Calculate
  import Sorting

  /** Line 58. */
  const BatchSize: nat := 500

  /** Line 80: fewer candles than this and the crypto is skipped. */
  const CandleCount: nat := 100

  // ---------------------------------------------------------------------------
  // The batch

  /** `orderBy('last_fetched', 'asc')`: a crypto never fetched comes first, as
      NULL sorts first ascending in MySQL and SQLite; then the oldest stamp. */
  predicate FetchedFirst(a: Crypto, b: Crypto) {
    a.lastFetched.None? || (b.lastFetched.Some? && a.lastFetched.value <= b.lastFetched.value)
  }

  lemma FetchedFirstIsPreorder()
    ensures Sorting.TotalPreorder(FetchedFirst)
  {
  }

  /** Lines 63-65: the cryptos by `last_fetched`, the first 500 of them. */
  function Batch(cryptos: seq<Crypto>): seq<Crypto> {
    var ordered := Sorting.SortBy(cryptos, FetchedFirst);
    Sorting.SortByPermutes(cryptos, FetchedFirst);
    if |ordered| <= BatchSize then ordered else ordered[..BatchSize]
  }

  /** The batch is 500 cryptos of the table, or all of them when there are
      fewer, ordered by `last_fetched`, and no crypto left out was fetched
      before a crypto of the batch. */
  lemma BatchIsOldest(cryptos: seq<Crypto>)
    ensures |Batch(cryptos)| == if |cryptos| <= BatchSize then |cryptos| else BatchSize
    ensures multiset(Batch(cryptos)) <= multiset(cryptos)
    ensures Sorting.Sorted(Batch(cryptos), FetchedFirst)
    ensures forall b, c :: b in Batch(cryptos) && c in multiset(cryptos) - multiset(Batch(cryptos)) ==>
      FetchedFirst(b, c)
  {
    var ordered := Sorting.SortBy(cryptos, FetchedFirst);
    Sorting.SortByPermutes(cryptos, FetchedFirst);
    FetchedFirstIsPreorder();
    Sorting.SortBySorted(cryptos, FetchedFirst);
    var n := if |ordered| <= BatchSize then |ordered| else BatchSize;
    assert Batch(cryptos) == ordered[..n];
    PrefixComesFirst(ordered, n, FetchedFirst);
  }

  /** In an ordered sequence the first n come no later than the rest. */
  lemma PrefixComesFirst<T>(ordered: seq<T>, n: nat, le: (T, T) -> bool)
    requires n <= |ordered| && Sorting.Sorted(ordered, le)
    ensures Sorting.Sorted(ordered[..n], le)
    ensures multiset(ordered[..n]) <= multiset(ordered)
    ensures forall b, c :: b in ordered[..n] && c in multiset(ordered) - multiset(ordered[..n]) ==> le(b, c)
  {
    var batch := ordered[..n];
    var rest := ordered[n..];
    assert ordered == batch + rest;
    assert multiset(ordered) == multiset(batch) + multiset(rest);
    forall b, c | b in batch && c in multiset(rest) ensures le(b, c) {
      var i :| 0 <= i < |batch| && batch[i] == b;
      var j :| 0 <= j < |rest| && rest[j] == c;
      assert ordered[i] == b && ordered[n + j] == c;
    }
  }

  // ---------------------------------------------------------------------------
  // One crypto

  /** A ccxt OHLCV entry `[time, open, high, low, close, volume]`; the time is
      in milliseconds. */
  datatype Candle = Candle(time: int, open: real, high: real, low: real, close: real, volume: real)

  /** What `fetch_ohlcv($symbol, '5m', null, 100)` gives: the candles, or an
      exception. */
  datatype Fetched = Failed | Candles(candles: seq<Candle>)

  /** The exchange, as a function of the symbol. */
  type Exchange = string -> Fetched

  /** Lines 79-84: the call returned and gave a hundred candles. */
  predicate Succeeds(fetched: Fetched) {
    fetched.Candles? && |fetched.candles| >= CandleCount
  }

  /** `array_column($ohlcv, 5)`. */
  function Volumes(candles: seq<Candle>): (r: seq<real>)
    ensures |r| == |candles|
    ensures forall i :: 0 <= i < |r| ==> r[i] == candles[i].volume
  {
    seq(|candles|, i requires 0 <= i < |candles| => candles[i].volume)
  }

  /** `array_column($ohlcv, 4)`. */
  function Closes(candles: seq<Candle>): (r: seq<real>)
    ensures |r| == |candles|
    ensures forall i :: 0 <= i < |r| ==> r[i] == candles[i].close
  {
    seq(|candles|, i requires 0 <= i < |candles| => candles[i].close)
  }

  /** The running value `calculateEMA` returns. */
  function Ema(values: seq<real>, period: int): real
    requires |values| > 0 && period != -1
  {
    Calculate.Last(Calculate.EmaSeries(values, period))
  }

  /** `calculateEMA` (lines 162-176): seeded with the first value, every later
      value is folded in with `$k = 2 / ($period + 1)`. It is the same loop as
      `Calculate::EMA`, and both are proved to return `Ema`. */
  method CalculateEMA(values: seq<real>, period: int) returns (ema: real)
    requires |values| > 0 && period != -1
    ensures ema == Ema(values, period)
  {
    ema := values[0];
    for index := 0 to |values|
      invariant index <= 1 ==> ema == values[0]
      invariant index >= 1 ==> ema == Ema(values[..index], period)
    {
      if index == 0 {
        assert values[..1] == [values[0]];
        continue;
      }
      Calculate.EmaSeriesStep(values, index, period);
      ema := Calculate.EmaStep(values[index], ema, period);
    }
    assert values[..|values|] == values;
  }

  /** Lines 87-133: the row `VolumeData::create` inserts. It has no timeframe,
      the newest candle's time truncated to seconds and prices, the close as
      latest price, and the EMAs over the volumes and the closes. */
  function NewRow(id: nat, candles: seq<Candle>): VolumeData
    requires |candles| > 0
  {
    var last := candles[|candles| - 1];
    var volumes := Volumes(candles);
    var closes := Closes(candles);
    VolumeData(id, None, BarTime(last.time), last.open, last.high, last.low, last.close, last.volume, last.close,
               None, None, None, None,
               Some(Ema(volumes, 7)), Some(Ema(volumes, 15)), Some(Ema(volumes, 25)),
               Some(Ema(volumes, 50)), Some(Ema(volumes, 100)),
               Some(Ema(closes, 7)), Some(Ema(closes, 15)), Some(Ema(closes, 25)),
               Some(Ema(closes, 50)), Some(Ema(closes, 100)),
               None)
  }

  /** `date('Y-m-d H:i:s', $lastCandle[0] / 1000)`: milliseconds to seconds. */
  function BarTime(time: int): int { time / 1000 }

  /** The inserted row is the newest candle's, its latest price is that
      candle's close, and each EMA lies between the smallest and the largest
      of the hundred values it is taken over. */
  lemma NewRowFromLastCandle(id: nat, candles: seq<Candle>)
    requires |candles| > 0
    ensures var row := NewRow(id, candles);
      var last := candles[|candles| - 1];
      row.cryptoId == id && row.timeframe.None? && row.meta.None? &&
      row.timestamp == BarTime(last.time) && row.latestPrice == row.close == last.close &&
      row.open == last.open && row.high == last.high && row.low == last.low && row.lastVolume == last.volume
    ensures var row := NewRow(id, candles);
      var lo := MinOf(Volumes(candles));
      var hi := MaxOf(Volumes(candles));
      forall e :: e in [row.ema7, row.ema15, row.ema25, row.ema50, row.ema100] ==>
        e.Some? && lo <= e.value <= hi
    ensures var row := NewRow(id, candles);
      var lo := MinOf(Closes(candles));
      var hi := MaxOf(Closes(candles));
      forall e :: e in [row.priceEma7, row.priceEma15, row.priceEma25, row.priceEma50, row.priceEma100] ==>
        e.Some? && lo <= e.value <= hi
  {
    var volumes := Volumes(candles);
    var closes := Closes(candles);
    EmaBetween(volumes, 7);
    EmaBetween(volumes, 15);
    EmaBetween(volumes, 25);
    EmaBetween(volumes, 50);
    EmaBetween(volumes, 100);
    EmaBetween(closes, 7);
    EmaBetween(closes, 15);
    EmaBetween(closes, 25);
    EmaBetween(closes, 50);
    EmaBetween(closes, 100);
  }

  /** An EMA lies between the smallest and the largest of its values. */
  lemma EmaBetween(values: seq<real>, period: int)
    requires |values| > 0 && period >= 1
    ensures MinOf(values) <= Ema(values, period) <= MaxOf(values)
  {
    Calculate.EmaWithinRange(values, period, MinOf(values), MaxOf(values));
    assert Calculate.EmaSeries(values, period)[|values| - 1] == Ema(values, period);
  }

  /** The rows `NewRow` builds for cryptos that all succeeded, in order. */
  function RowsFor(oks: seq<Crypto>, exchange: Exchange): (r: seq<VolumeData>)
    requires forall i :: 0 <= i < |oks| ==> Succeeds(exchange(oks[i].symbol))
    ensures |r| == |oks|
  {
    seq(|oks|, i requires 0 <= i < |oks| =>
      assert Succeeds(exchange(oks[i].symbol));
      NewRow(oks[i].id, exchange(oks[i].symbol).candles))
  }

  lemma RowsForAppend(oks: seq<Crypto>, c: Crypto, exchange: Exchange)
    requires forall i :: 0 <= i < |oks| ==> Succeeds(exchange(oks[i].symbol))
    requires Succeeds(exchange(c.symbol))
    ensures RowsFor(oks + [c], exchange) == RowsFor(oks, exchange) + [NewRow(c.id, exchange(c.symbol).candles)]
  {
    var both := oks + [c];
    assert forall i :: 0 <= i < |oks| ==> both[i] == oks[i];
  }

  // ---------------------------------------------------------------------------
  // The pass

  /** The two tables the command reads and writes. */
  datatype State = State(cryptos: seq<Crypto>, rows: seq<VolumeData>)

  /** `$crypto->update(['last_fetched' => Carbon::now()])`. */
  function Stamp(now: int): Crypto -> Crypto {
    (c: Crypto) => c.(lastFetched := Some(now))
  }

  /** The crypto's exchange call succeeds. */
  function Ok(exchange: Exchange): Crypto -> bool {
    (c: Crypto) => Succeeds(exchange(c.symbol))
  }

  /** One iteration of lines 76-143: a skipped or failed crypto changes
      nothing, otherwise the row is inserted and then the crypto stamped. */
  function Step(st: State, crypto: Crypto, fetched: Fetched, now: int): State {
    if Succeeds(fetched) then
      State(UpdateCrypto(st.cryptos, crypto.id, Stamp(now)), st.rows + [NewRow(crypto.id, fetched.candles)])
    else st
  }

  /** The iterations over a batch, in order. */
  function Run(batch: seq<Crypto>, exchange: Exchange, st: State, now: int): (r: State)
    ensures |r.cryptos| == |st.cryptos|
    decreases |batch|
  {
    if batch == [] then st
    else
      var last := batch[|batch| - 1];
      Step(Run(batch[..|batch| - 1], exchange, st, now), last, exchange(last.symbol), now)
  }

  /** Some crypto of the batch with this id succeeded. */
  predicate Fetches(batch: seq<Crypto>, exchange: Exchange, id: nat) {
    exists c :: c in batch && c.id == id && Succeeds(exchange(c.symbol))
  }

  /** The pass appends one row per crypto that succeeded, in batch order, and
      nothing else: a skipped or failed crypto leaves no row. */
  lemma {:induction false} RunRows(batch: seq<Crypto>, exchange: Exchange, st: State, now: int)
    ensures Run(batch, exchange, st, now).rows == st.rows + RowsFor(Filter(batch, Ok(exchange)), exchange)
    decreases |batch|
  {
    if batch == [] {
      assert Filter(batch, Ok(exchange)) == [];
    } else {
      var init := batch[..|batch| - 1];
      var last := batch[|batch| - 1];
      RunRows(init, exchange, st, now);
      assert batch == init + [last];
      OkRowsSnoc(init, last, exchange);
      var r0 := Run(init, exchange, st, now);
      assert Run(batch, exchange, st, now) == Step(r0, last, exchange(last.symbol), now);
    }
  }

  /** The rows of a batch with one more crypto: that crypto's row, when it
      succeeds, follows the others'. */
  lemma OkRowsSnoc(init: seq<Crypto>, last: Crypto, exchange: Exchange)
    ensures RowsFor(Filter(init + [last], Ok(exchange)), exchange) ==
      RowsFor(Filter(init, Ok(exchange)), exchange) +
      (if Succeeds(exchange(last.symbol)) then [NewRow(last.id, exchange(last.symbol).candles)] else [])
  {
    FilterAppend(init, [last], Ok(exchange));
    var before := Filter(init, Ok(exchange));
    if Succeeds(exchange(last.symbol)) {
      assert Filter([last], Ok(exchange)) == [last];
      RowsForAppend(before, last, exchange);
    } else {
      assert Filter([last], Ok(exchange)) == [];
      assert before + [] == before;
    }
  }

  /** The pass stamps `last_fetched` on exactly the cryptos that succeeded,
      with the time of the pass, and changes nothing else in the table. */
  lemma {:induction false} RunStamps(batch: seq<Crypto>, exchange: Exchange, st: State, now: int)
    ensures |Run(batch, exchange, st, now).cryptos| == |st.cryptos|
    ensures forall i :: 0 <= i < |st.cryptos| ==>
      Run(batch, exchange, st, now).cryptos[i] ==
        if Fetches(batch, exchange, st.cryptos[i].id) then st.cryptos[i].(lastFetched := Some(now))
        else st.cryptos[i]
    decreases |batch|
  {
    if batch != [] {
      var init := batch[..|batch| - 1];
      var last := batch[|batch| - 1];
      RunStamps(init, exchange, st, now);
      var before := Run(init, exchange, st, now);
      var after := Run(batch, exchange, st, now);
      forall i | 0 <= i < |st.cryptos|
        ensures after.cryptos[i] ==
          if Fetches(batch, exchange, st.cryptos[i].id) then st.cryptos[i].(lastFetched := Some(now))
          else st.cryptos[i]
      {
        var id := st.cryptos[i].id;
        if Fetches(init, exchange, id) {
          var c :| c in init && c.id == id && Succeeds(exchange(c.symbol));
          assert c in batch;
        } else if last.id == id && Succeeds(exchange(last.symbol)) {
          assert last in batch;
        } else {
          assert !Fetches(batch, exchange, id) by {
            forall c | c in batch && c.id == id ensures !Succeeds(exchange(c.symbol)) {
              var k :| 0 <= k < |batch| && batch[k] == c;
              if k < |batch| - 1 {
                assert c in init;
              }
            }
          }
        }
      }
    }
  }

  /** When no stamp lies after the time of the pass, a crypto the pass
      fetched comes after every crypto it did not, so the next batch starts
      with those. */
  lemma RunRotates(batch: seq<Crypto>, exchange: Exchange, st: State, now: int, i: nat, j: nat)
    requires forall c :: c in st.cryptos && c.lastFetched.Some? ==> c.lastFetched.value <= now
    requires i < |st.cryptos| && j < |st.cryptos|
    requires Fetches(batch, exchange, st.cryptos[j].id) && !Fetches(batch, exchange, st.cryptos[i].id)
    ensures FetchedFirst(Run(batch, exchange, st, now).cryptos[i], Run(batch, exchange, st, now).cryptos[j])
  {
    RunStamps(batch, exchange, st, now);
    assert st.cryptos[i] in st.cryptos;
  }

  /** `VolumeData::create`, not an upsert: fetching the same batch again
      appends the same rows a second time. */
  lemma RerunAppendsAgain(batch: seq<Crypto>, exchange: Exchange, st: State, now: int, later: int)
    ensures var rows := RowsFor(Filter(batch, Ok(exchange)), exchange);
      Run(batch, exchange, Run(batch, exchange, st, now), later).rows == st.rows + rows + rows
  {
    RunRows(batch, exchange, st, now);
    RunRows(batch, exchange, Run(batch, exchange, st, now), later);
  }

  /** Lines 87-133 through `calculateEMA`. */
  method BuildRow(id: nat, ohlcv: seq<Candle>) returns (row: VolumeData)
    requires |ohlcv| > 0
    ensures row == NewRow(id, ohlcv)
  {
    var lastCandle := ohlcv[|ohlcv| - 1];
    var volumes := Volumes(ohlcv);
    var closePrices := Closes(ohlcv);
    var volumeEma7 := CalculateEMA(volumes, 7);
    var volumeEma15 := CalculateEMA(volumes, 15);
    var volumeEma25 := CalculateEMA(volumes, 25);
    var volumeEma50 := CalculateEMA(volumes, 50);
    var volumeEma100 := CalculateEMA(volumes, 100);
    var priceEma7 := CalculateEMA(closePrices, 7);
    var priceEma15 := CalculateEMA(closePrices, 15);
    var priceEma25 := CalculateEMA(closePrices, 25);
    var priceEma50 := CalculateEMA(closePrices, 50);
    var priceEma100 := CalculateEMA(closePrices, 100);
    row := VolumeData(id, None, BarTime(lastCandle.time), lastCandle.open, lastCandle.high, lastCandle.low,
                      lastCandle.close, lastCandle.volume, lastCandle.close, None, None, None, None,
                      Some(volumeEma7), Some(volumeEma15), Some(volumeEma25), Some(volumeEma50), Some(volumeEma100),
                      Some(priceEma7), Some(priceEma15), Some(priceEma25), Some(priceEma50), Some(priceEma100),
                      None);
  }

  /** Lines 76-143: one iteration per crypto of the batch. */
  method Pass(batch: seq<Crypto>, exchange: Exchange, st: State, now: int) returns (after: State)
    ensures after == Run(batch, exchange, st, now)
  {
    after := st;
    var i := 0;
    while i < |batch|
      invariant 0 <= i <= |batch|
      invariant after == Run(batch[..i], exchange, st, now)
    {
      var crypto := batch[i];
      assert batch[..i + 1][..i] == batch[..i];
      assert Run(batch[..i + 1], exchange, st, now) == Step(after, crypto, exchange(crypto.symbol), now);
      var ohlcv := exchange(crypto.symbol);
      if ohlcv.Failed? || |ohlcv.candles| < CandleCount {
        i := i + 1;
        continue;
      }
      var row := BuildRow(crypto.id, ohlcv.candles);
      after := State(UpdateCrypto(after.cryptos, crypto.id, Stamp(now)), after.rows + [row]);
      i := i + 1;
    }
    assert batch[..|batch|] == batch;
  }

  /** `handle`: the batch, then one iteration per crypto. An empty table
      leaves both tables as they are. */
  method Handle(cryptos: seq<Crypto>, rows: seq<VolumeData>, exchange: Exchange, now: int) returns (after: State)
    ensures after == Run(Batch(cryptos), exchange, State(cryptos, rows), now)
    ensures cryptos == [] ==> after == State(cryptos, rows)
  {
    var batch := Batch(cryptos);
    if batch == [] {
      return State(cryptos, rows);
    }
    after := Pass(batch, exchange, State(cryptos, rows), now);
  }
}
