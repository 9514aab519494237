/** What the three websocket commands (BinanceWebSocket, Fetch15MWebSocket and
    FetchVolumesWebSocket) share: the kline event, the window of stored
    candles an event is computed over, the arrays read from that window with
    the new bar appended, the values carried over from the previous candle,
    and the `updateOrCreate` that stores the result. */
module Ingest {
  import opened Common
  import opened Schema
  import Sorting
  import Text

  /** The fields of a Binance kline event the commands read: `s`, and `t`,
      `o`, `h`, `l`, `c` and `v` of `k`. `start` is in milliseconds. */
  datatype Kline = Kline(symbol: string, start: int, open: real, high: real, low: real, close: real, volume: real)

  /** `Carbon::createFromTimestampMs($kline['t'])` stored in a timestamp
      column, in whole seconds. Kline start times are whole minutes, so
      nothing is lost. */
  function BarTime(start: int): int { start / 1000 }

  /** What `Calculate::ADX` returns. It is not defined in the shown code and is
      a parameter of the model. */
  datatype Adx = Adx(adx: real, plusDi: real, minusDi: real)

  type AdxFn = (seq<real>, seq<real>, seq<real>, int) -> Adx

  // ---------------------------------------------------------------------------
  // The window

  /** The order of `orderBy('timestamp')`. */
  predicate NoLater(a: VolumeData, b: VolumeData) { a.timestamp <= b.timestamp }

  lemma NoLaterIsPreorder()
    ensures Sorting.TotalPreorder(NoLater)
  {
  }

  /** `where(...)->orderBy('timestamp', 'desc')->take(n)->get()->reverse()`:
      the newest n rows satisfying p, oldest first. SQL leaves the order of
      rows that share a timestamp open; the model fixes one. */
  function Window(rows: seq<VolumeData>, p: VolumeData -> bool, n: nat): (w: seq<VolumeData>)
    ensures |w| == if n < Count(rows, p) then n else Count(rows, p)
  {
    Sorting.SortByPermutes(Filter(rows, p), NoLater);
    TakeLast(Sorting.SortBy(Filter(rows, p), NoLater), n)
  }

  /** The window holds rows of the table that satisfy p, oldest first. */
  lemma WindowRows(rows: seq<VolumeData>, p: VolumeData -> bool, n: nat)
    ensures var w := Window(rows, p, n);
      (forall i :: 0 <= i < |w| ==> w[i] in rows && p(w[i])) && Sorting.Sorted(w, NoLater)
  {
    var f := Filter(rows, p);
    var s := Sorting.SortBy(f, NoLater);
    SortByTime(f);
    TakeLastOfSorted(s, n, NoLater);
    var w := Window(rows, p, n);
    assert w == TakeLast(s, n);
    forall i | 0 <= i < |w| ensures w[i] in rows && p(w[i]) {
      assert w[i] in s;
      assert w[i] in multiset(f);
      var j :| 0 <= j < |f| && f[j] == w[i];
    }
  }

  /** What `TakeLast` keeps of an ordered sequence is ordered and drawn from
      it. */
  lemma TakeLastOfSorted<T>(s: seq<T>, n: nat, le: (T, T) -> bool)
    requires Sorting.Sorted(s, le)
    ensures Sorting.Sorted(TakeLast(s, n), le)
    ensures forall x :: x in TakeLast(s, n) ==> x in s
  {
    var t := TakeLast(s, n);
    var d := |s| - |t|;
    assert forall i :: 0 <= i < |t| ==> t[i] == s[d + i];
  }

  /** In an ordered sequence, an element later than the first kept by
      `TakeLast` is kept, and no element is later than the last one kept. */
  lemma TakeLastKeepsNewer(s: seq<VolumeData>, n: nat, x: VolumeData)
    requires Sorting.Sorted(s, NoLater) && x in s
    ensures var t := TakeLast(s, n);
      (|t| > 0 && t[0].timestamp < x.timestamp ==> x in t) &&
      (|t| > 0 ==> x.timestamp <= t[|t| - 1].timestamp)
  {
    var t := TakeLast(s, n);
    var d := |s| - |t|;
    var k :| 0 <= k < |s| && s[k] == x;
    if |t| > 0 {
      assert t[0] == s[d];
      if t[0].timestamp < x.timestamp {
        assert t[k - d] == x;
      }
      assert t[|t| - 1] == s[|s| - 1];
      if k < |s| - 1 {
        assert NoLater(s[k], s[|s| - 1]);
      }
    }
  }

  /** Sorting by timestamp orders and permutes. */
  lemma SortByTime(f: seq<VolumeData>)
    ensures Sorting.Sorted(Sorting.SortBy(f, NoLater), NoLater)
    ensures multiset(Sorting.SortBy(f, NoLater)) == multiset(f)
  {
    Sorting.SortByPermutes(f, NoLater);
    NoLaterIsPreorder();
    Sorting.SortBySorted(f, NoLater);
  }

  /** Every row satisfying p that is newer than the window's first row is in
      the window, and the window's last row is the newest of them all. */
  lemma WindowNewest(rows: seq<VolumeData>, p: VolumeData -> bool, n: nat, x: VolumeData)
    requires x in rows && p(x)
    ensures var w := Window(rows, p, n);
      (|w| > 0 && w[0].timestamp < x.timestamp ==> x in w) &&
      (|w| > 0 ==> x.timestamp <= w[|w| - 1].timestamp)
  {
    var f := Filter(rows, p);
    var s := Sorting.SortBy(f, NoLater);
    SortByTime(f);
    assert x in f;
    assert x in multiset(s);
    assert Window(rows, p, n) == TakeLast(s, n);
    TakeLastKeepsNewer(s, n, x);
  }

  /** With at most n rows satisfying p, the window holds all of them. */
  lemma WindowHoldsAll(rows: seq<VolumeData>, p: VolumeData -> bool, n: nat)
    requires Count(rows, p) <= n
    ensures multiset(Window(rows, p, n)) == multiset(Filter(rows, p))
  {
    Sorting.SortByPermutes(Filter(rows, p), NoLater);
  }

  /** `optional($window->last())`: the newest row of the window, if any. */
  function LastRow(w: seq<VolumeData>): (r: Option<VolumeData>)
    ensures r.None? <==> w == []
    ensures r.Some? ==> r.value in w
  {
    if w == [] then None else Some(w[|w| - 1])
  }

  /** `pluck(column)->toArray()` on the window with the new bar's value
      appended: one entry per row, oldest first, the bar last. */
  function Series(w: seq<VolumeData>, column: VolumeData -> real, latest: real): (r: seq<real>)
    ensures |r| == |w| + 1 && r[|w|] == latest
    ensures forall i :: 0 <= i < |w| ==> r[i] == column(w[i])
  {
    seq(|w|, i requires 0 <= i < |w| => column(w[i])) + [latest]
  }

  function HighOf(x: VolumeData): real { x.high }
  function LowOf(x: VolumeData): real { x.low }
  function CloseOf(x: VolumeData): real { x.close }
  function VolumeOf(x: VolumeData): real { x.lastVolume }

  /** The four arrays of a window of at most n rows have equal length, at
      most n + 1, and end with the new bar. */
  lemma SeriesShape(w: seq<VolumeData>, k: Kline, n: nat)
    requires |w| <= n
    ensures var highs := Series(w, HighOf, k.high);
      var lows := Series(w, LowOf, k.low);
      var closes := Series(w, CloseOf, k.close);
      var volumes := Series(w, VolumeOf, k.volume);
      |highs| == |lows| == |closes| == |volumes| <= n + 1 &&
      highs[|w|] == k.high && lows[|w|] == k.low && closes[|w|] == k.close && volumes[|w|] == k.volume
  {
  }

  // ---------------------------------------------------------------------------
  // Values carried over from the previous candle

  /** `$last->close ?? $close`. */
  function PreviousClose(last: Option<VolumeData>, close: real): real {
    if last.Some? then last.value.close else close
  }

  /** The percentage change `($close - $prev) / $prev * 100`, or 0 when the
      previous close is 0. */
  function PriceChange(previousClose: real, close: real): real {
    if previousClose != 0.0 then (close - previousClose) / previousClose * 100.0 else 0.0
  }

  /** Without a previous candle, or with one whose close is 0, the change is 0.
      Otherwise it is the change relative to the previous close, positive
      exactly when the price rose from a positive close. */
  lemma PriceChangeFacts(last: Option<VolumeData>, close: real)
    ensures last.None? ==> PriceChange(PreviousClose(last, close), close) == 0.0
    ensures last.Some? && last.value.close == 0.0 ==> PriceChange(PreviousClose(last, close), close) == 0.0
    ensures last.Some? && last.value.close != 0.0 ==>
      PriceChange(PreviousClose(last, close), close) * last.value.close == (close - last.value.close) * 100.0
    ensures last.Some? && last.value.close > 0.0 ==>
      (PriceChange(PreviousClose(last, close), close) > 0.0 <==> close > last.value.close)
  {
    if last.Some? && last.value.close != 0.0 {
      var p := last.value.close;
      var r := (close - p) / p * 100.0;
      assert r * p == (close - p) * 100.0;
      if p > 0.0 {
        if close > p {
          assert (close - p) / p > 0.0;
        } else {
          assert (close - p) / p <= 0.0;
        }
      }
    }
  }

  /** A key of the previous candle's `meta`, when there is a candle, it has a
      `meta` and the key is set. */
  function PreviousMeta(last: Option<VolumeData>, key: Meta -> Option<real>): Option<real> {
    if last.Some? && last.value.meta.Some? then key(last.value.meta.value) else None
  }

  /** `$last->meta[key] ?? 0`: the previous candle's value, or 0 without one. */
  function CarriedHistogram(last: Option<VolumeData>, key: Meta -> Option<real>): (r: real)
    ensures PreviousMeta(last, key).None? ==> r == 0.0
    ensures PreviousMeta(last, key).Some? ==> r == PreviousMeta(last, key).value
  {
    PreviousMeta(last, key).GetOr(0.0)
  }

  function HistogramKey(m: Meta): Option<real> { m.histogram }
  function VwHistogramKey(m: Meta): Option<real> { m.vwHistogram }
  function RecentHighKey(m: Meta): Option<real> { m.recentHigh }
  function RecentLowKey(m: Meta): Option<real> { m.recentLow }

  // ---------------------------------------------------------------------------
  // The upsert

  /** The values a command writes into a candle row; `latest_price` is the
      close. `priceChange` is None for a writer that leaves `price_change`
      alone. */
  datatype Values = Values(
    open: real, high: real, low: real, close: real, lastVolume: real,
    priceChange: Option<real>,
    vma15: real, vma25: real, vma50: real,
    priceEma15: real, priceEma25: real, priceEma50: real,
    meta: Meta)

  /** The update part of `updateOrCreate`: the written columns take the
      values, the `meta` column is replaced as a whole, the key and every
      other column stay. */
  function Fill(v: Values): VolumeData -> VolumeData {
    (x: VolumeData) => x.(open := v.open, high := v.high, low := v.low, close := v.close,
                          lastVolume := v.lastVolume, latestPrice := v.close,
                          priceChange := if v.priceChange.Some? then v.priceChange else x.priceChange,
                          vma15 := Some(v.vma15), vma25 := Some(v.vma25), vma50 := Some(v.vma50),
                          priceEma15 := Some(v.priceEma15), priceEma25 := Some(v.priceEma25),
                          priceEma50 := Some(v.priceEma50), meta := Some(v.meta))
  }

  /** The row holds the values in the columns they are written to. */
  predicate Holds(x: VolumeData, v: Values) {
    x.open == v.open && x.high == v.high && x.low == v.low && x.close == v.close &&
    x.lastVolume == v.lastVolume && x.latestPrice == v.close &&
    (v.priceChange.Some? ==> x.priceChange == v.priceChange) &&
    x.vma15 == Some(v.vma15) && x.vma25 == Some(v.vma25) && x.vma50 == Some(v.vma50) &&
    x.priceEma15 == Some(v.priceEma15) && x.priceEma25 == Some(v.priceEma25) &&
    x.priceEma50 == Some(v.priceEma50) && x.meta == Some(v.meta)
  }

  /** The row `updateOrCreate` inserts: the key attributes and the values,
      every other column null. */
  function Created(id: nat, tf: Option<string>, ts: int, v: Values): VolumeData {
    Fill(v)(VolumeData(id, tf, ts, 0.0, 0.0, 0.0, 0.0, 0.0, 0.0,
                       None, None, None, None, None, None, None, None, None,
                       None, None, None, None, None, None))
  }

  /** `VolumeData::updateOrCreate(key, values)`. */
  function Store(rows: seq<VolumeData>, matches: VolumeData -> bool, id: nat, tf: Option<string>, ts: int,
                 v: Values): seq<VolumeData> {
    UpdateOrCreate(rows, matches, Fill(v), Created(id, tf, ts, v))
  }

  /** The key (crypto_id, timestamp, timeframe). */
  function AtKey(id: nat, ts: int, tf: string): VolumeData -> bool {
    (x: VolumeData) => x.cryptoId == id && x.timestamp == ts && x.timeframe == Some(tf)
  }

  /** The key (crypto_id, timestamp). */
  function AtBar(id: nat, ts: int): VolumeData -> bool {
    (x: VolumeData) => x.cryptoId == id && x.timestamp == ts
  }

  function KeyOf(x: VolumeData): (nat, int, Option<string>) { (x.cryptoId, x.timestamp, x.timeframe) }
  function BarOf(x: VolumeData): (nat, int) { (x.cryptoId, x.timestamp) }

  /** After the upsert some row with the key holds the values, the rows
      without the key are unchanged, and at most one row was added. */
  lemma StoreWrites(rows: seq<VolumeData>, matches: VolumeData -> bool, id: nat, tf: Option<string>, ts: int,
                    v: Values)
    requires matches(Created(id, tf, ts, v))
    requires forall x :: matches(x) ==> matches(Fill(v)(x))
    ensures var r := Store(rows, matches, id, tf, ts, v);
      |rows| <= |r| <= |rows| + 1 &&
      (exists i :: 0 <= i < |r| && matches(r[i]) && Holds(r[i], v)) &&
      (forall i :: 0 <= i < |rows| && !matches(rows[i]) ==> r[i] == rows[i])
  {
    var r := Store(rows, matches, id, tf, ts, v);
    match FirstIndex(rows, matches)
    case None =>
      assert r[|rows|] == Created(id, tf, ts, v);
    case Some(i) =>
      assert r[i] == Fill(v)(rows[i]);
  }

  /** An upsert on (crypto_id, timestamp, timeframe) keeps that key unique and
      leaves exactly one row with it. */
  lemma StoreKeepsKeyUnique(rows: seq<VolumeData>, id: nat, ts: int, tf: string, v: Values)
    requires UniqueBy(rows, KeyOf)
    ensures UniqueBy(Store(rows, AtKey(id, ts, tf), id, Some(tf), ts, v), KeyOf)
    ensures Count(Store(rows, AtKey(id, ts, tf), id, Some(tf), ts, v), AtKey(id, ts, tf)) == 1
  {
    UpsertKeepsKeysUnique(rows, KeyOf, (id, ts, Some(tf)), AtKey(id, ts, tf), Fill(v), Created(id, Some(tf), ts, v));
  }

  /** An upsert on (crypto_id, timestamp) keeps that pair unique and leaves
      exactly one row with it. */
  lemma StoreKeepsBarUnique(rows: seq<VolumeData>, id: nat, ts: int, tf: Option<string>, v: Values)
    requires UniqueBy(rows, BarOf)
    ensures UniqueBy(Store(rows, AtBar(id, ts), id, tf, ts, v), BarOf)
    ensures Count(Store(rows, AtBar(id, ts), id, tf, ts, v), AtBar(id, ts)) == 1
  {
    UpsertKeepsKeysUnique(rows, BarOf, (id, ts), AtBar(id, ts), Fill(v), Created(id, tf, ts, v));
  }

  /** Storing a key twice is storing it once with the later values, as long
      as the later write does not leave a column alone that the earlier one
      wrote. */
  lemma StoreLaterWins(rows: seq<VolumeData>, matches: VolumeData -> bool, id: nat, tf: Option<string>, ts: int,
                       v1: Values, v2: Values)
    requires matches(Created(id, tf, ts, v1))
    requires forall x :: matches(x) ==> matches(Fill(v1)(x))
    requires v2.priceChange.Some? || v1.priceChange.None?
    ensures Store(Store(rows, matches, id, tf, ts, v1), matches, id, tf, ts, v2) == Store(rows, matches, id, tf, ts, v2)
  {
    UpsertLaterWins(rows, matches, Fill(v1), Created(id, tf, ts, v1), Fill(v2), Created(id, tf, ts, v2));
  }

  /** Updating a row at a place where neither the old nor the new row satisfy
      p leaves what p selects unchanged. */
  lemma {:induction false} FilterUpdateAt(s: seq<VolumeData>, i: nat, y: VolumeData, p: VolumeData -> bool)
    requires i < |s| && !p(s[i]) && !p(y)
    ensures Filter(s[i := y], p) == Filter(s, p)
    decreases |s|
  {
    if i > 0 {
      FilterUpdateAt(s[1..], i - 1, y, p);
      assert s[i := y][1..] == s[1..][i - 1 := y];
    }
  }

  /** An upsert whose key rows p never selects, before or after the update,
      leaves what p selects unchanged. */
  lemma StoreOutsideWindow(rows: seq<VolumeData>, matches: VolumeData -> bool, id: nat, tf: Option<string>, ts: int,
                           v: Values, p: VolumeData -> bool)
    requires forall x :: matches(x) ==> !p(x) && !p(Fill(v)(x))
    requires !p(Created(id, tf, ts, v))
    ensures Filter(Store(rows, matches, id, tf, ts, v), p) == Filter(rows, p)
  {
    match FirstIndex(rows, matches)
    case None =>
      FilterAppend(rows, [Created(id, tf, ts, v)], p);
      assert Filter([Created(id, tf, ts, v)], p) == [];
    case Some(i) =>
      FilterUpdateAt(rows, i, Fill(v)(rows[i]), p);
  }

  // ---------------------------------------------------------------------------
  // Symbols and stream names

  /** The rows BinanceWebSocket reads its window from: the crypto's rows of
      the timeframe, except those at the bar's own timestamp. */
  function Scope(id: nat, tf: string, ts: int): VolumeData -> bool {
    (x: VolumeData) => x.cryptoId == id && x.timeframe == Some(tf) && x.timestamp != ts
  }

  /** The stored rows of a crypto, of every timeframe, the window
      Fetch15MWebSocket and FetchVolumesWebSocket read. */
  function OfCrypto(id: nat): VolumeData -> bool {
    (x: VolumeData) => x.cryptoId == id
  }

  /** The 15-minute kline stream of a symbol, as Fetch15MWebSocket and
      FetchVolumesWebSocket name it: the symbol in lower case without `'/'`,
      then `@kline_15m`. */
  function StreamName15m(symbol: string): (r: string)
    ensures '/' !in r
  {
    Text.RemoveAllChar(Text.Lower(symbol), '/');
    assert '/' !in "@kline_15m";
    Text.RemoveAll(Text.Lower(symbol), "/") + "@kline_15m"
  }

  /** The streams of the cryptos, in order. */
  function StreamNames15m(cryptos: seq<Crypto>): (r: seq<string>)
    ensures |r| == |cryptos|
    ensures forall i :: 0 <= i < |r| ==> r[i] == StreamName15m(cryptos[i].symbol)
  {
    seq(|cryptos|, i requires 0 <= i < |cryptos| => StreamName15m(cryptos[i].symbol))
  }

  /** A stream list: the names joined by `'/'`. */
  function Streams(names: seq<string>): string {
    Text.Join(names, "/")
  }

  /** When no name contains `'/'`, the stream list splits back into the
      names. */
  lemma StreamsSplit(names: seq<string>)
    requires |names| > 0
    requires forall i :: 0 <= i < |names| ==> '/' !in names[i]
    ensures Text.Explode(Streams(names), "/") == names
  {
    Text.SplitOnChar(names, '/');
  }

  /** The base asset FetchVolumesWebSocket and Fetch15MWebSocket look a
      symbol up by: `str_replace('USDT', '', strtoupper(explode('@', $s)[0]))`. */
  function BaseOf(symbol: string): string {
    Text.RemoveAll(Text.Upper(Text.Explode(symbol, "@")[0]), "USDT")
  }

  /** `Crypto::where('base_asset', ...)->first()`. */
  function FindBase(cryptos: seq<Crypto>, base: string): (r: Option<Crypto>)
    ensures r.None? <==> forall i :: 0 <= i < |cryptos| ==> cryptos[i].baseAsset != base
    ensures r.Some? ==> r.value in cryptos && r.value.baseAsset == base
    ensures r.Some? ==> forall i :: 0 <= i < |cryptos| && cryptos[i].baseAsset == base ==>
      exists j :: 0 <= j <= i && cryptos[j] == r.value
  {
    match FirstIndex(cryptos, (c: Crypto) => c.baseAsset == base)
    case None => None
    case Some(i) => Some(cryptos[i])
  }

  /** A stream symbol of a quote-USDT pair whose base neither contains `'@'`
      nor runs into "USDT" resolves to that base, whatever its case. */
  lemma BaseOfPair(base: string)
    requires '@' !in base && Text.NoLowerAscii(base)
    requires !Text.Contains(base + "USD", "USDT")
    ensures BaseOf(Text.Lower(base + "USDT")) == base
  {
    var s := Text.Lower(base + "USDT");
    Text.CaseKeepsNonLetter(base + "USDT", '@');
    assert '@' !in s;
    forall j ensures !Text.OccursAt(s, "@", j) {
      if 0 <= j && j + 1 <= |s| {
        assert s[j..j + 1][0] == s[j];
      }
    }
    Text.ExplodeNoSeparator(s, "@");
    Text.UpperLowerRoundTrip(base + "USDT");
    assert "USDT"[..3] == "USD";
    Text.RemoveAllSuffix(base, "USDT");
  }
}
