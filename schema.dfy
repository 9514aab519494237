/** The three tables the tracker commands share (`cryptos`, `volume_data`,
    `alerts`) and the Eloquent operations they use on them: `where(...)`,
    `first()`, `update(...)` and `updateOrCreate(...)`.

    A table is a sequence of rows in id order, which is the order a query
    without `orderBy` returns. Timestamps are whole seconds since the epoch.
    Decimal columns hold `real`. A nullable column the commands read holds an
    `Option`. */
module Schema {
  import opened Common

  /** The trend strings `'bullish'`, `'bearish'` and `'neutral'`. */
  datatype Trend = Bullish | Bearish | Neutral

  /** A row of `cryptos`. `volume24` is a nullable decimal. */
  datatype Crypto = Crypto(
    id: nat,
    symbol: string,
    baseAsset: string,
    quoteAsset: string,
    volume24: Option<real>,
    lastTrend: Option<Trend>,
    lastVolumeAlert: Option<int>,
    lastFetched: Option<int>)

  /** The five levels `calculateFibonacciLevels` returns. */
  datatype FibonacciLevels = FibonacciLevels(
    level0: real, level382: real, level50: real, level618: real, level100: real)

  /** The JSON `meta` column. Every key any command writes or reads has a
      field, and a key that is absent is `None`. The `vw*` keys are read by
      CrossoversAlert and FetchVolumesWebSocket; the `hour*` keys are
      `1h_macd_line`, `1h_signal_line` and `1h_histogram`. */
  datatype Meta = Meta(
    recentHigh: Option<real>,
    recentLow: Option<real>,
    fibonacciLevels: Option<FibonacciLevels>,
    entryScore: Option<real>,
    atr: Option<real>,
    macdLine: Option<real>,
    signalLine: Option<real>,
    histogram: Option<real>,
    previousHistogram: Option<real>,
    rsi: Option<real>,
    adx: Option<real>,
    plusDi: Option<real>,
    minusDi: Option<real>,
    hourMacdLine: Option<real>,
    hourSignalLine: Option<real>,
    hourHistogram: Option<real>,
    vwMacdLine: Option<real>,
    vwSignalLine: Option<real>,
    vwHistogram: Option<real>)

  /** The empty JSON object. Writers build their `meta` from it. */
  const EmptyMeta: Meta := Meta(None, None, None, None, None, None, None, None, None, None,
                                None, None, None, None, None, None, None, None, None)

  /** A row of `volume_data`: one candle of one crypto. The price and volume
      columns are written by every command that writes this table; the others
      by some of them only. */
  datatype VolumeData = VolumeData(
    cryptoId: nat,
    timeframe: Option<string>,
    timestamp: int,
    open: real,
    high: real,
    low: real,
    close: real,
    lastVolume: real,
    latestPrice: real,
    priceChange: Option<real>,
    vma15: Option<real>,
    vma25: Option<real>,
    vma50: Option<real>,
    ema7: Option<real>,
    ema15: Option<real>,
    ema25: Option<real>,
    ema50: Option<real>,
    ema100: Option<real>,
    priceEma7: Option<real>,
    priceEma15: Option<real>,
    priceEma25: Option<real>,
    priceEma50: Option<real>,
    priceEma100: Option<real>,
    meta: Option<Meta>)

  /** The status strings `'open'`, `'partial'` and `'closed'`. */
  datatype Status = Open | Partial | Closed

  /** A row of `alerts`. `result` is 3, 2 or 1 for a take-profit hit and -1,
      -2 or -11 for a stop loss. */
  datatype Alert = Alert(
    cryptoId: nat,
    trend: Trend,
    previousTrend: Option<Trend>,
    entry: real,
    stopLoss: real,
    tp1: real,
    tp2: real,
    tp3: real,
    result: Option<int>,
    highestPrice: Option<real>,
    lowestPrice: Option<real>,
    status: Status,
    createdAt: int)

  /** The rows satisfying p, in table order: `where(...)->get()`. */
  function Filter<T>(s: seq<T>, p: T -> bool): (r: seq<T>)
    ensures |r| <= |s|
    ensures forall i :: 0 <= i < |r| ==> r[i] in s && p(r[i])
    ensures forall i :: 0 <= i < |s| && p(s[i]) ==> s[i] in r
    decreases |s|
  {
    if s == [] then []
    else (if p(s[0]) then [s[0]] else []) + Filter(s[1..], p)
  }

  /** The number of rows satisfying p: `where(...)->count()`. */
  function Count<T>(s: seq<T>, p: T -> bool): nat {
    |Filter(s, p)|
  }

  lemma {:induction false} FilterAppend<T>(s: seq<T>, t: seq<T>, p: T -> bool)
    ensures Filter(s + t, p) == Filter(s, p) + Filter(t, p)
    decreases |s|
  {
    if s != [] {
      assert (s + t)[1..] == s[1..] + t;
      FilterAppend(s[1..], t, p);
    } else {
      assert s + t == t;
    }
  }

  /** Filtering accepts every row iff the result is the whole table. */
  lemma {:induction false} FilterAll<T>(s: seq<T>, p: T -> bool)
    requires forall i :: 0 <= i < |s| ==> p(s[i])
    ensures Filter(s, p) == s
    decreases |s|
  {
    if s != [] {
      FilterAll(s[1..], p);
      assert [s[0]] + s[1..] == s;
    }
  }

  /** Rows satisfying both of two conditions. */
  function Both<T>(p: T -> bool, q: T -> bool): T -> bool {
    (x: T) => p(x) && q(x)
  }

  /** Two filters in a row are one filter by both conditions. */
  lemma {:induction false} FilterFilter<T>(s: seq<T>, p: T -> bool, q: T -> bool)
    ensures Filter(Filter(s, p), q) == Filter(s, Both(p, q))
    decreases |s|
  {
    if s != [] {
      FilterFilter(s[1..], p, q);
      var fp := Filter(s, p);
      var rest := Filter(Filter(s[1..], p), q);
      if p(s[0]) {
        assert fp == [s[0]] + Filter(s[1..], p);
        assert fp[0] == s[0] && fp[1..] == Filter(s[1..], p);
        assert Filter(fp, q) == (if q(s[0]) then [s[0]] else []) + rest;
      } else {
        assert fp == Filter(s[1..], p);
        assert Filter(fp, q) == rest;
      }
      assert Both(p, q)(s[0]) == (p(s[0]) && q(s[0]));
      assert Filter(s, Both(p, q)) == (if Both(p, q)(s[0]) then [s[0]] else []) + Filter(s[1..], Both(p, q));
    }
  }

  /** Filters by conditions that agree on every row agree. */
  lemma {:induction false} FilterSame<T>(s: seq<T>, p: T -> bool, q: T -> bool)
    requires forall i :: 0 <= i < |s| ==> p(s[i]) == q(s[i])
    ensures Filter(s, p) == Filter(s, q)
    decreases |s|
  {
    if s != [] {
      FilterSame(s[1..], p, q);
    }
  }

  /** The position of the first row satisfying p: what `where(...)->first()`
      finds. */
  function FirstIndex<T>(s: seq<T>, p: T -> bool): (r: Option<nat>)
    ensures r.None? <==> forall i :: 0 <= i < |s| ==> !p(s[i])
    ensures r.Some? ==> r.value < |s| && p(s[r.value])
    ensures r.Some? ==> forall i :: 0 <= i < r.value ==> !p(s[i])
    decreases |s|
  {
    if s == [] then None
    else if p(s[0]) then Some(0)
    else
      match FirstIndex(s[1..], p)
      case None => None
      case Some(k) => Some(k + 1)
  }

  /** `updateOrCreate`: fill the first row that `matches` with `update`, or
      append `created` (the key attributes plus the values) when no row
      matches. */
  function UpdateOrCreate<T>(rows: seq<T>, matches: T -> bool, update: T -> T, created: T): (r: seq<T>)
    ensures FirstIndex(rows, matches).Some? ==>
      |r| == |rows| && r == rows[FirstIndex(rows, matches).value := update(rows[FirstIndex(rows, matches).value])]
    ensures FirstIndex(rows, matches).None? ==> r == rows + [created]
  {
    match FirstIndex(rows, matches)
    case Some(i) => rows[i := update(rows[i])]
    case None => rows + [created]
  }

  /** No two rows share a key. */
  predicate UniqueBy<T, K(==)>(rows: seq<T>, key: T -> K) {
    forall i, j :: 0 <= i < j < |rows| ==> key(rows[i]) != key(rows[j])
  }

  /** An upsert that matches exactly the rows with key k, whose update keeps
      the key and whose created row has it, keeps the keys unique and leaves
      exactly one row with that key. */
  lemma UpsertKeepsKeysUnique<T(!new), K>(rows: seq<T>, key: T -> K, k: K, matches: T -> bool, update: T -> T, created: T)
    requires UniqueBy(rows, key)
    requires forall x :: matches(x) <==> key(x) == k
    requires forall x :: key(update(x)) == key(x)
    requires key(created) == k
    ensures UniqueBy(UpdateOrCreate(rows, matches, update, created), key)
    ensures Count(UpdateOrCreate(rows, matches, update, created), matches) == 1
  {
    var r := UpdateOrCreate(rows, matches, update, created);
    match FirstIndex(rows, matches)
    case None =>
      assert r == rows + [created];
      FilterAppend(rows, [created], matches);
      NoMatch(rows, matches);
      assert Filter([created], matches) == [created];
    case Some(i) =>
      assert r == rows[i := update(rows[i])];
      assert matches(r[i]);
      assert forall j :: 0 <= j < |r| && j != i ==> key(r[j]) != k;
      OnlyOneMatch(r, matches, i);
  }

  /** When exactly the row at position i satisfies p, filtering keeps only it. */
  lemma {:induction false} OnlyOneMatch<T>(s: seq<T>, p: T -> bool, i: nat)
    requires i < |s| && p(s[i])
    requires forall j :: 0 <= j < |s| && j != i ==> !p(s[j])
    ensures Filter(s, p) == [s[i]]
    decreases |s|
  {
    if i == 0 {
      NoMatch(s[1..], p);
    } else {
      OnlyOneMatch(s[1..], p, i - 1);
    }
  }

  lemma {:induction false} NoMatch<T>(s: seq<T>, p: T -> bool)
    requires forall j :: 0 <= j < |s| ==> !p(s[j])
    ensures Filter(s, p) == []
    decreases |s|
  {
    if s != [] {
      NoMatch(s[1..], p);
    }
  }

  /** Writing the same key twice is writing it once with the later values,
      when the later update overwrites whatever the earlier one wrote and turns
      the earlier created row into the later one. */
  lemma UpsertLaterWins<T>(rows: seq<T>, matches: T -> bool, update1: T -> T, created1: T,
                           update2: T -> T, created2: T)
    requires matches(created1)
    requires forall x :: matches(x) ==> matches(update1(x))
    requires forall x :: update2(update1(x)) == update2(x)
    requires update2(created1) == created2
    ensures UpdateOrCreate(UpdateOrCreate(rows, matches, update1, created1), matches, update2, created2)
         == UpdateOrCreate(rows, matches, update2, created2)
  {
    var once := UpdateOrCreate(rows, matches, update1, created1);
    match FirstIndex(rows, matches)
    case None =>
      assert once == rows + [created1];
      assert FirstIndex(once, matches) == Some(|rows|) by {
        FirstIndexAfter(rows, [created1], matches);
      }
      assert once[|rows| := update2(created1)] == rows + [created2];
    case Some(i) =>
      assert once == rows[i := update1(rows[i])];
      assert FirstIndex(once, matches) == Some(i) by {
        FirstIndexUnchangedPrefix(rows, once, matches, i);
      }
  }

  lemma FirstIndexAfter<T>(s: seq<T>, t: seq<T>, p: T -> bool)
    requires FirstIndex(s, p).None? && |t| > 0 && p(t[0])
    ensures FirstIndex(s + t, p) == Some(|s|)
  {
    var r := FirstIndex(s + t, p);
    assert (s + t)[|s|] == t[0];
    assert forall j :: 0 <= j < |s| ==> (s + t)[j] == s[j];
  }

  lemma {:induction false} FirstIndexUnchangedPrefix<T>(s: seq<T>, t: seq<T>, p: T -> bool, i: nat)
    requires FirstIndex(s, p) == Some(i) && |t| == |s|
    requires forall j :: 0 <= j < i ==> t[j] == s[j]
    requires p(t[i])
    ensures FirstIndex(t, p) == Some(i)
    decreases i
  {
    if i > 0 {
      assert t[0] == s[0];
      FirstIndexUnchangedPrefix(s[1..], t[1..], p, i - 1);
    }
  }

  /** `$model->update(...)` on the crypto with the given id. */
  function UpdateCrypto(cryptos: seq<Crypto>, id: nat, f: Crypto -> Crypto): (r: seq<Crypto>)
    ensures |r| == |cryptos|
    ensures forall i :: 0 <= i < |r| ==> r[i] == if cryptos[i].id == id then f(cryptos[i]) else cryptos[i]
  {
    seq(|cryptos|, i requires 0 <= i < |cryptos| => if cryptos[i].id == id then f(cryptos[i]) else cryptos[i])
  }

  /** `Crypto::find($id)`, as the `crypto` relation resolves it. */
  function FindCrypto(cryptos: seq<Crypto>, id: nat): (r: Option<Crypto>)
    ensures r.Some? ==> r.value in cryptos && r.value.id == id
    ensures r.None? ==> forall i :: 0 <= i < |cryptos| ==> cryptos[i].id != id
  {
    match FirstIndex(cryptos, (c: Crypto) => c.id == id)
    case Some(i) => Some(cryptos[i])
    case None => None
  }

  /** A row is its crypto's latest among the rows satisfying p. */
  predicate IsLatestAmong(rows: seq<VolumeData>, row: VolumeData, p: VolumeData -> bool) {
    forall x :: x in rows && x.cryptoId == row.cryptoId && p(x) ==> x.timestamp <= row.timestamp
  }

  /** `volume_data` rows whose timestamp is the greatest among their crypto's
      rows satisfying p, in table order. Two rows of one crypto can share that
      timestamp (different timeframes) and both are returned. */
  function LatestPerCrypto(rows: seq<VolumeData>, p: VolumeData -> bool): (r: seq<VolumeData>)
    ensures forall x :: x in r <==> x in rows && p(x) && IsLatestAmong(rows, x, p)
  {
    Filter(rows, x => p(x) && IsLatestAmong(rows, x, p))
  }

  /** Every crypto with a row satisfying p has one in the result. */
  lemma {:induction false} LatestPerCryptoCovers(rows: seq<VolumeData>, p: VolumeData -> bool, id: nat)
    requires exists x :: x in rows && x.cryptoId == id && p(x)
    ensures exists y :: y in LatestPerCrypto(rows, p) && y.cryptoId == id
  {
    var candidates := Filter(rows, (x: VolumeData) => x.cryptoId == id && p(x));
    var x :| x in rows && x.cryptoId == id && p(x);
    assert x in candidates;
    var best := LatestOf(candidates);
    assert best in rows;
    forall y | y in rows && y.cryptoId == best.cryptoId && p(y)
      ensures y.timestamp <= best.timestamp
    {
      assert y in candidates;
    }
    assert best in LatestPerCrypto(rows, p);
  }

  /** A row of greatest timestamp. */
  function LatestOf(rows: seq<VolumeData>): (r: VolumeData)
    requires |rows| > 0
    ensures r in rows
    ensures forall x :: x in rows ==> x.timestamp <= r.timestamp
    decreases |rows|
  {
    if |rows| == 1 then rows[0]
    else
      var rest := LatestOf(rows[1..]);
      assert forall x :: x in rows ==> x == rows[0] || x in rows[1..];
      if rows[0].timestamp >= rest.timestamp then rows[0] else rest
  }

  /** The rows a query for "every crypto's latest candle" selects: every
      crypto's rows at its greatest timestamp, whatever their timeframe. */
  function LatestRows(rows: seq<VolumeData>): seq<VolumeData> {
    LatestPerCrypto(rows, _ => true)
  }

  /** No two of the candles belong to the same crypto. */
  predicate DistinctCryptos(rows: seq<VolumeData>) {
    forall i, j :: 0 <= i < j < |rows| ==> rows[i].cryptoId != rows[j].cryptoId
  }

  /** Some crypto has the id. */
  predicate HasCrypto(cryptos: seq<Crypto>, id: nat) {
    exists k :: 0 <= k < |cryptos| && cryptos[k].id == id
  }

  /** A `last_trend` transition that is announced by CrossoversAlert and
      EmasAlert: the trend changed, and it is not neutral. */
  predicate Fires(previous: Option<Trend>, current: Trend) {
    Some(current) != previous && current != Neutral
  }

  /** The `id` primary key: no two cryptos share one. */
  predicate UniqueIds(cryptos: seq<Crypto>) {
    forall i, j :: 0 <= i < j < |cryptos| ==> cryptos[i].id != cryptos[j].id
  }

  /** Seconds in a day. */
  const Day: int := 86400

  /** The `'date'` cast on `last_volume_alert`: the stored moment is read back
      as the start of its day (in UTC, the application's time zone). */
  function StartOfDay(t: int): (r: int)
    ensures r <= t < r + Day && r % Day == 0
  {
    t - t % Day
  }

  /** After updating the crypto with one id by an update that keeps ids,
      looking up any id finds the same crypto as before, updated when it is
      the one with that id. */
  lemma FindUpdated(cryptos: seq<Crypto>, id: nat, f: Crypto -> Crypto, q: nat)
    requires forall c :: f(c).id == c.id
    ensures FindCrypto(UpdateCrypto(cryptos, id, f), q) ==
      match FindCrypto(cryptos, q)
      case None => None
      case Some(c) => Some(if q == id then f(c) else c)
  {
    var upd := UpdateCrypto(cryptos, id, f);
    var isQ := (c: Crypto) => c.id == q;
    assert forall i :: 0 <= i < |cryptos| ==> (upd[i].id == q <==> cryptos[i].id == q);
    match FirstIndex(cryptos, isQ)
    case None =>
      assert FirstIndex(upd, isQ).None?;
    case Some(k) =>
      assert FirstIndex(upd, isQ) == Some(k) by {
        FirstIndexSamePattern(cryptos, upd, isQ, k);
      }
  }

  /** Sequences whose elements satisfy p at the same positions have their
      first match at the same place. */
  lemma {:induction false} FirstIndexSamePattern<T>(s: seq<T>, t: seq<T>, p: T -> bool, k: nat)
    requires |s| == |t| && forall i :: 0 <= i < |s| ==> (p(s[i]) <==> p(t[i]))
    requires FirstIndex(s, p) == Some(k)
    ensures FirstIndex(t, p) == Some(k)
    decreases |s|
  {
    if k > 0 {
      FirstIndexSamePattern(s[1..], t[1..], p, k - 1);
    }
  }

  /** `where('timestamp', '>=', $from)`: the rows from a moment on, in table
      order. */
  function RowsSince(rows: seq<VolumeData>, from: int): (r: seq<VolumeData>)
    ensures forall i :: 0 <= i < |r| ==> r[i] in rows && r[i].timestamp >= from
    ensures forall i :: 0 <= i < |rows| && rows[i].timestamp >= from ==> rows[i] in r
  {
    Filter(rows, (x: VolumeData) => x.timestamp >= from)
  }
}
