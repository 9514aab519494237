/** The `tracker:binance-websocket {timeframe?}` command of
    BinanceWebSocket.php. It subscribes to the kline stream of every crypto
    for one timeframe. For each event it reads the stored window of that
    crypto and timeframe and computes the recent high and low, the Fibonacci
    levels, the entry score and the indicators. The result is stored with
    `updateOrCreate` on (crypto_id, timestamp, timeframe). */
module Binance {
  import opened Common
  import opened Schema
  import opened Ingest
  import Text
  import Calculate

  // ---------------------------------------------------------------------------
  // The symbol map

  /** `strtoupper(str_replace('/', '', $symbol))`: the key of a crypto in the
      symbol map. */
  function StreamKey(symbol: string): string {
    Text.Upper(Text.RemoveAll(symbol, "/"))
  }

  /** A key has no `'/'` and no lower-case letter. */
  lemma StreamKeyShape(symbol: string)
    ensures '/' !in StreamKey(symbol) && Text.NoLowerAscii(StreamKey(symbol))
  {
    Text.RemoveAllChar(symbol, '/');
    Text.CaseKeepsNonLetter(Text.RemoveAll(symbol, "/"), '/');
    Text.UpperHasNoLower(Text.RemoveAll(symbol, "/"));
  }

  /** A PHP array from string keys to crypto ids, in insertion order. */
  type SymbolMap = seq<(string, nat)>

  function HasKey(k: string): ((string, nat)) -> bool {
    (e: (string, nat)) => e.0 == k
  }

  function Keys(m: SymbolMap): set<string> {
    set e | e in m :: e.0
  }

  predicate DistinctKeys(m: SymbolMap) {
    forall i, j :: 0 <= i < j < |m| ==> m[i].0 != m[j].0
  }

  predicate DistinctValues(m: SymbolMap) {
    forall i, j :: 0 <= i < j < |m| ==> m[i].1 != m[j].1
  }

  /** `$map[$k] ?? null`. */
  function Lookup(m: SymbolMap, k: string): (r: Option<nat>)
    ensures r.None? <==> k !in Keys(m)
    ensures r.Some? ==> (k, r.value) in m
  {
    match FirstIndex(m, HasKey(k))
    case Some(i) => Some(m[i].1)
    case None =>
      assert forall e :: e in m ==> e.0 != k;
      None
  }

  /** With distinct keys, looking a key up finds its own entry. */
  lemma LookupEntry(m: SymbolMap, e: (string, nat))
    requires DistinctKeys(m) && e in m
    ensures Lookup(m, e.0) == Some(e.1)
  {
    var i :| 0 <= i < |m| && m[i] == e;
    var j := FirstIndex(m, HasKey(e.0)).value;
    assert m[j].0 == e.0;
    assert i == j;
  }

  /** `$map[$k] = $v`: an existing key keeps its place and takes the value; a
      new key is appended. */
  function Put(m: SymbolMap, k: string, v: nat): (r: SymbolMap)
    ensures DistinctKeys(m) ==> DistinctKeys(r)
    ensures Keys(r) == Keys(m) + {k}
    ensures (k, v) in r
    ensures forall e :: e in r ==> e in m || e == (k, v)
  {
    match FirstIndex(m, HasKey(k))
    case Some(i) =>
      var r := m[i := (k, v)];
      assert r[i] == (k, v) && m[i] in m;
      assert forall e :: e in r ==> e in m || e == (k, v);
      forall e | e in m ensures e in r || e.0 == k {
        var j :| 0 <= j < |m| && m[j] == e;
        if j != i {
          assert r[j] == e;
        }
      }
      assert Keys(r) == Keys(m) + {k} by {
        forall x | x in Keys(m) + {k} ensures x in Keys(r) {
          if x != k {
            var e :| e in m && e.0 == x;
            assert e in r;
          }
        }
      }
      r
    case None =>
      assert forall i :: 0 <= i < |m| ==> m[i].0 != k;
      m + [(k, v)]
  }

  /** The entries assigned one after the other. */
  function PutAll(m: SymbolMap, entries: seq<(string, nat)>): (r: SymbolMap)
    ensures DistinctKeys(m) ==> DistinctKeys(r)
    ensures Keys(r) == Keys(m) + Keys(entries)
    ensures forall e :: e in r ==> e in m || e in entries
    decreases |entries|
  {
    if entries == [] then m
    else
      var init := entries[..|entries| - 1];
      var last := entries[|entries| - 1];
      assert entries == init + [last];
      assert Keys(entries) == Keys(init) + {last.0};
      Put(PutAll(m, init), last.0, last.1)
  }

  /** `Crypto::pluck('id', 'symbol')` before the keys are rewritten. */
  function Pairs(table: seq<Crypto>): (r: SymbolMap)
    ensures forall e :: e in r ==> exists c :: c in table && e == (c.symbol, c.id)
    ensures Keys(r) == set c | c in table :: c.symbol
  {
    var r := seq(|table|, i requires 0 <= i < |table| => (table[i].symbol, table[i].id));
    forall c | c in table ensures (c.symbol, c.id) in r {
      var i :| 0 <= i < |table| && table[i] == c;
      assert r[i] == (c.symbol, c.id);
    }
    r
  }

  /** `mapWithKeys`' keys before they are assigned. */
  function Rekey(m: SymbolMap): (r: SymbolMap)
    ensures forall e :: e in r ==> exists d :: d in m && e == (StreamKey(d.0), d.1)
    ensures Keys(r) == set k | k in Keys(m) :: StreamKey(k)
  {
    var r := seq(|m|, i requires 0 <= i < |m| => (StreamKey(m[i].0), m[i].1));
    forall d | d in m ensures (StreamKey(d.0), d.1) in r {
      var i :| 0 <= i < |m| && m[i] == d;
      assert r[i] == (StreamKey(d.0), d.1);
    }
    r
  }

  /** Lines 32-34: the cryptos' ids by upper-cased symbol without `'/'`. Two
      symbols that differ only there share a key, and the later one's id
      stays. */
  function SymbolIds(table: seq<Crypto>): SymbolMap {
    PutAll([], Rekey(PutAll([], Pairs(table))))
  }

  /** Every entry of the symbol map is a crypto's key and id. */
  lemma SymbolIdsEntry(table: seq<Crypto>, e: (string, nat))
    requires e in SymbolIds(table)
    ensures exists c :: c in table && e == (StreamKey(c.symbol), c.id)
  {
    var p := PutAll([], Pairs(table));
    var q := Rekey(p);
    assert e in PutAll([], q);
    assert e in q;
    var d :| d in p && e == (StreamKey(d.0), d.1);
    assert d in Pairs(table);
    var c :| c in table && d == (c.symbol, c.id);
  }

  /** Every crypto has its key in the map, and nothing else does. */
  lemma SymbolIdsKeys(table: seq<Crypto>)
    ensures Keys(SymbolIds(table)) == set c | c in table :: StreamKey(c.symbol)
  {
    var p := PutAll([], Pairs(table));
    KeysPutAllEmpty(Pairs(table));
    var q := Rekey(p);
    KeysPutAllEmpty(q);
    RekeyedSymbols(table, Keys(p));
  }

  /** Assigning entries into an empty map gives exactly their keys. */
  lemma KeysPutAllEmpty(entries: SymbolMap)
    ensures Keys(PutAll([], entries)) == Keys(entries)
  {
    assert Keys([]) == {};
  }

  /** The stream keys of the table's symbols are the cryptos' stream keys. */
  lemma RekeyedSymbols(table: seq<Crypto>, symbols: set<string>)
    requires symbols == set c | c in table :: c.symbol
    ensures (set k | k in symbols :: StreamKey(k)) == set c | c in table :: StreamKey(c.symbol)
  {
    var want := set c | c in table :: StreamKey(c.symbol);
    forall k | k in (set k | k in symbols :: StreamKey(k)) ensures k in want {
      var s :| s in symbols && k == StreamKey(s);
      var c :| c in table && c.symbol == s;
    }
    forall k | k in want ensures k in (set k | k in symbols :: StreamKey(k)) {
      var c :| c in table && k == StreamKey(c.symbol);
      assert c.symbol in symbols;
    }
  }

  /** The map's entries, keys and key shape. */
  lemma SymbolIdsEntries(table: seq<Crypto>)
    ensures forall e :: e in SymbolIds(table) ==> exists c :: c in table && e == (StreamKey(c.symbol), c.id)
    ensures Keys(SymbolIds(table)) == set c | c in table :: StreamKey(c.symbol)
    ensures DistinctKeys(SymbolIds(table))
    ensures forall e :: e in SymbolIds(table) ==> '/' !in e.0 && Text.NoLowerAscii(e.0)
  {
    SymbolIdsKeys(table);
    forall e | e in SymbolIds(table)
      ensures (exists c :: c in table && e == (StreamKey(c.symbol), c.id)) && '/' !in e.0 && Text.NoLowerAscii(e.0)
    {
      SymbolIdsEntry(table, e);
      var c :| c in table && e == (StreamKey(c.symbol), c.id);
      StreamKeyShape(c.symbol);
    }
  }

  /** With unique crypto ids no id appears under two keys. */
  lemma SymbolIdsDistinctValues(table: seq<Crypto>)
    requires UniqueIds(table)
    ensures DistinctValues(SymbolIds(table))
  {
    var m := SymbolIds(table);
    SymbolIdsEntries(table);
    forall i, j | 0 <= i < j < |m| ensures m[i].1 != m[j].1 {
      assert m[i] in m && m[j] in m;
      var c1 :| c1 in table && m[i] == (StreamKey(c1.symbol), c1.id);
      var c2 :| c2 in table && m[j] == (StreamKey(c2.symbol), c2.id);
      var a :| 0 <= a < |table| && table[a] == c1;
      var b :| 0 <= b < |table| && table[b] == c2;
      assert a != b;
      assert c1.id != c2.id;
    }
  }

  /** A crypto whose key no other crypto shares is found under it. */
  lemma SymbolIdsFind(table: seq<Crypto>, c: Crypto)
    requires UniqueIds(table) && c in table
    requires forall d :: d in table && StreamKey(d.symbol) == StreamKey(c.symbol) ==> d == c
    ensures Lookup(SymbolIds(table), StreamKey(c.symbol)) == Some(c.id)
  {
    var m := SymbolIds(table);
    SymbolIdsEntries(table);
    assert StreamKey(c.symbol) in Keys(m);
    var e :| e in m && e.0 == StreamKey(c.symbol);
    var d :| d in table && e == (StreamKey(d.symbol), d.id);
    LookupEntry(m, e);
  }

  /** The id an event is processed for (lines 91-97): its upper-cased symbol
      looked up in the map; a missing key, and the id 0 that `!$cryptoId`
      also rejects, drop the event. */
  function Resolve(cryptos: SymbolMap, k: Kline): (r: Option<nat>)
    ensures r.Some? ==> r.value > 0 && (Text.Upper(k.symbol), r.value) in cryptos
    ensures r.None? <==> Lookup(cryptos, Text.Upper(k.symbol)) in {None, Some(0)}
  {
    match Lookup(cryptos, Text.Upper(k.symbol))
    case None => None
    case Some(id) => if id == 0 then None else Some(id)
  }

  /** `lower(key) . '@kline_' . timeframe` for every key, in map order. */
  function StreamNames(cryptos: SymbolMap, tf: string): (r: seq<string>)
    ensures |r| == |cryptos|
    ensures forall i :: 0 <= i < |r| ==> r[i] == Text.Lower(cryptos[i].0) + "@kline_" + tf
  {
    seq(|cryptos|, i requires 0 <= i < |cryptos| => Text.Lower(cryptos[i].0) + "@kline_" + tf)
  }

  // ---------------------------------------------------------------------------
  // Recent high and low, Fibonacci levels, entry score

  /** `array_filter`: the values that are set and not 0. */
  function Truthies(xs: seq<Option<real>>): (r: seq<real>)
    ensures forall v :: v in r <==> exists i :: 0 <= i < |xs| && Truthy(xs[i]) && xs[i].value == v
    decreases |xs|
  {
    if xs == [] then []
    else
      var rest := Truthies(xs[1..]);
      assert forall i :: 1 <= i < |xs| ==> xs[i] == xs[1..][i - 1];
      (if Truthy(xs[0]) then [xs[0].value] else []) + rest
  }

  /** Line 131: the largest of the highs and of the previous candle's
      `recent_high` and the bar's high, the latter two when not 0. */
  function RecentHigh(highs: seq<real>, previous: Option<real>, high: real): real
    requires |highs| > 0
  {
    MaxOf(highs + Truthies([previous, Some(high)]))
  }

  /** Line 132, the same with the lows and `min`. */
  function RecentLow(lows: seq<real>, previous: Option<real>, low: real): real
    requires |lows| > 0
  {
    MinOf(lows + Truthies([previous, Some(low)]))
  }

  /** The recent high is at least every high and a previous recent high that
      is not 0, and is one of them; the recent low is at most every low and a previous
      recent low that is not 0, and is one of them. When the bar
      is the last of the arrays and its high is not below its low, the recent
      low is not above the recent high. */
  lemma RecentBounds(highs: seq<real>, lows: seq<real>, previousHigh: Option<real>, previousLow: Option<real>,
                     high: real, low: real)
    requires |highs| > 0 && |lows| > 0
    ensures forall i :: 0 <= i < |highs| ==> highs[i] <= RecentHigh(highs, previousHigh, high)
    ensures Truthy(previousHigh) ==> previousHigh.value <= RecentHigh(highs, previousHigh, high)
    ensures RecentHigh(highs, previousHigh, high) in highs ||
            (Truthy(previousHigh) && RecentHigh(highs, previousHigh, high) == previousHigh.value) ||
            RecentHigh(highs, previousHigh, high) == high
    ensures forall i :: 0 <= i < |lows| ==> RecentLow(lows, previousLow, low) <= lows[i]
    ensures Truthy(previousLow) ==> RecentLow(lows, previousLow, low) <= previousLow.value
    ensures RecentLow(lows, previousLow, low) in lows ||
            (Truthy(previousLow) && RecentLow(lows, previousLow, low) == previousLow.value) ||
            RecentLow(lows, previousLow, low) == low
    ensures highs[|highs| - 1] == high && lows[|lows| - 1] == low && low <= high ==>
      RecentLow(lows, previousLow, low) <= RecentHigh(highs, previousHigh, high)
  {
    var hs := highs + Truthies([previousHigh, Some(high)]);
    var ls := lows + Truthies([previousLow, Some(low)]);
    assert forall i :: 0 <= i < |highs| ==> hs[i] == highs[i];
    assert forall i :: 0 <= i < |lows| ==> ls[i] == lows[i];
    if Truthy(previousHigh) {
      assert previousHigh.value in Truthies([previousHigh, Some(high)]);
      assert previousHigh.value in hs;
    }
    if Truthy(previousLow) {
      assert previousLow.value in Truthies([previousLow, Some(low)]);
      assert previousLow.value in ls;
    }
    var m := MaxOf(hs);
    if m !in highs {
      var j :| 0 <= j < |hs| && hs[j] == m;
      assert hs[j] in Truthies([previousHigh, Some(high)]);
    }
    var n := MinOf(ls);
    if n !in lows {
      var j :| 0 <= j < |ls| && ls[j] == n;
      assert ls[j] in Truthies([previousLow, Some(low)]);
    }
  }

  /** Lines 193-204. */
  function Fibonacci(high: real, low: real): (f: FibonacciLevels)
    ensures f.level0 == high && f.level100 == low
  {
    var difference := high - low;
    FibonacciLevels(high, high - difference * 0.382, high - difference * 0.5, high - difference * 0.618, low)
  }

  /** When the high is not below the low the levels descend from the high to
      the low; the 50 level is the midpoint. */
  lemma FibonacciOrdered(high: real, low: real)
    requires high >= low
    ensures var f := Fibonacci(high, low);
      f.level0 >= f.level382 >= f.level50 >= f.level618 >= f.level100
    ensures Fibonacci(high, low).level50 * 2.0 == high + low
  {
    var d := high - low;
    assert d * 0.382 <= d * 0.5 <= d * 0.618 <= d;
  }

  /** The three levels the entry score weighs. */
  datatype FibLevel = Level618 | Level50 | Level382

  function LevelOf(f: FibonacciLevels, level: FibLevel): real {
    match level
    case Level618 => f.level618
    case Level50 => f.level50
    case Level382 => f.level382
  }

  /** `$fibScores`, in its order. */
  const FibScores: seq<(FibLevel, real)> := [(Level618, 60.0), (Level50, 40.0), (Level382, 20.0)]

  /** One term of the Fibonacci score: the weight, less in proportion to the
      price's distance from the level, never negative. */
  function FibTerm(price: real, level: real, weight: real, range: real): real
    requires range != 0.0
  {
    Max(0.0, weight * (1.0 - Abs(price - level) / range))
  }

  /** The loop's sum over the first entries of the table. */
  function FibSum(price: real, f: FibonacciLevels, range: real, scores: seq<(FibLevel, real)>): real
    requires range != 0.0
    decreases |scores|
  {
    if scores == [] then 0.0
    else
      var last := scores[|scores| - 1];
      FibSum(price, f, range, scores[..|scores| - 1]) + FibTerm(price, LevelOf(f, last.0), last.1, range)
  }

  /** `max(0, min(100, x))`. */
  function Clamp(x: real): (r: real)
    ensures 0.0 <= r <= 100.0
    ensures 0.0 <= x <= 100.0 ==> r == x
  {
    Max(0.0, Min(100.0, x))
  }

  /** Lines 206-232. */
  function EntryScore(price: real, recentHigh: real, recentLow: real, f: FibonacciLevels): real {
    var range := recentHigh - recentLow;
    if range == 0.0 then (if price == recentHigh then 100.0 else 0.0)
    else
      var lowProximity := Clamp(100.0 * (1.0 - (price - recentLow) / range));
      var highProximity := Clamp(100.0 * (recentHigh - price) / range);
      Round2(0.5 * lowProximity + 0.4 * FibSum(price, f, range, FibScores) + 0.1 * highProximity)
  }

  /** `calculateEntryScore`: the Fibonacci score accumulated in a loop over
      the table. */
  method CalculateEntryScore(price: real, recentHigh: real, recentLow: real, f: FibonacciLevels)
    returns (score: real)
    ensures score == EntryScore(price, recentHigh, recentLow, f)
  {
    var range := recentHigh - recentLow;
    if range == 0.0 {
      return if price == recentHigh then 100.0 else 0.0;
    }
    var lowProximity := Clamp(100.0 * (1.0 - (price - recentLow) / range));
    var fibonacciScore := 0.0;
    var i := 0;
    while i < |FibScores|
      invariant 0 <= i <= |FibScores|
      invariant fibonacciScore == FibSum(price, f, range, FibScores[..i])
    {
      var level := FibScores[i].0;
      var weight := FibScores[i].1;
      assert FibScores[..i + 1][..i] == FibScores[..i];
      var distance := Abs(price - LevelOf(f, level));
      var rangeProportion := distance / range;
      fibonacciScore := fibonacciScore + Max(0.0, weight * (1.0 - rangeProportion));
      i := i + 1;
    }
    assert FibScores[..i] == FibScores;
    var highProximity := Clamp(100.0 * (recentHigh - price) / range);
    score := Round2(0.5 * lowProximity + 0.4 * fibonacciScore + 0.1 * highProximity);
  }

  /** With a positive range each term lies between 0 and its weight. */
  lemma FibTermBounds(price: real, level: real, weight: real, range: real)
    requires range > 0.0 && weight >= 0.0
    ensures 0.0 <= FibTerm(price, level, weight, range) <= weight
  {
    var p := Abs(price - level) / range;
    assert p >= 0.0;
    assert weight * (1.0 - p) <= weight * 1.0;
  }

  /** The sum of the weights of a score table. */
  function TotalWeight(scores: seq<(FibLevel, real)>): real
    decreases |scores|
  {
    if scores == [] then 0.0 else TotalWeight(scores[..|scores| - 1]) + scores[|scores| - 1].1
  }

  /** With a positive range and weights that are not negative, the Fibonacci
      score lies between 0 and the total weight. */
  lemma {:induction false} FibSumBounds(price: real, f: FibonacciLevels, range: real, scores: seq<(FibLevel, real)>)
    requires range > 0.0 && forall i :: 0 <= i < |scores| ==> scores[i].1 >= 0.0
    ensures 0.0 <= FibSum(price, f, range, scores) <= TotalWeight(scores)
    decreases |scores|
  {
    if scores != [] {
      var n := |scores| - 1;
      FibSumBounds(price, f, range, scores[..n]);
      FibTermBounds(price, LevelOf(f, scores[n].0), scores[n].1, range);
    }
  }

  /** With a positive range the score lies in [0, 108]: each proximity score
      in [0, 100] and the Fibonacci score in [0, 120]. With an empty range it
      is 100 when the price is at the high and 0 otherwise. */
  lemma EntryScoreBounds(price: real, recentHigh: real, recentLow: real, f: FibonacciLevels)
    ensures recentHigh > recentLow ==> 0.0 <= EntryScore(price, recentHigh, recentLow, f) <= 108.0
    ensures recentHigh == recentLow ==>
      (EntryScore(price, recentHigh, recentLow, f) == 100.0 <==> price == recentHigh) &&
      (EntryScore(price, recentHigh, recentLow, f) == 0.0 <==> price != recentHigh)
  {
    if recentHigh > recentLow {
      assert TotalWeight(FibScores) == 120.0 by {
        var w1 := [(Level618, 60.0)];
        var w2 := w1 + [(Level50, 40.0)];
        assert w1[..0] == [] && w2[..1] == w1 && FibScores[..2] == w2;
        assert TotalWeight(w1) == 60.0;
        assert TotalWeight(w2) == 100.0;
      }
      var range := recentHigh - recentLow;
      FibSumBounds(price, f, range, FibScores);
      var lowProximity := Clamp(100.0 * (1.0 - (price - recentLow) / range));
      var highProximity := Clamp(100.0 * (recentHigh - price) / range);
      Round2Between(0.5 * lowProximity + 0.4 * FibSum(price, f, range, FibScores) + 0.1 * highProximity, 0, 10800);
    }
  }

  // ---------------------------------------------------------------------------
  // One event

  /** The window of lines 112-119: the newest 49 rows in scope, oldest first. */
  function RecentData(rows: seq<VolumeData>, id: nat, tf: string, ts: int): (w: seq<VolumeData>)
    ensures |w| <= 49
  {
    Window(rows, Scope(id, tf, ts), 49)
  }

  /** The window holds rows of the crypto and timeframe at other timestamps,
      oldest first, and its last row is the newest of those. */
  lemma RecentDataFacts(rows: seq<VolumeData>, id: nat, tf: string, ts: int, x: VolumeData)
    ensures var w := RecentData(rows, id, tf, ts);
      (forall i :: 0 <= i < |w| ==> w[i] in rows && w[i].cryptoId == id && w[i].timeframe == Some(tf) &&
                                     w[i].timestamp != ts) &&
      (forall i, j :: 0 <= i < j < |w| ==> w[i].timestamp <= w[j].timestamp) &&
      (x in rows && Scope(id, tf, ts)(x) && |w| > 0 ==> x.timestamp <= w[|w| - 1].timestamp)
  {
    WindowRows(rows, Scope(id, tf, ts), 49);
    if x in rows && Scope(id, tf, ts)(x) {
      WindowNewest(rows, Scope(id, tf, ts), 49, x);
    }
  }

  /** Everything lines 121-182 compute from the window and the bar. */
  function Indicators(w: seq<VolumeData>, k: Kline, adx: AdxFn): Values {
    var highs := Series(w, HighOf, k.high);
    var lows := Series(w, LowOf, k.low);
    var closes := Series(w, CloseOf, k.close);
    var volumes := Series(w, VolumeOf, k.volume);
    var last := LastRow(w);
    var recentHigh := RecentHigh(highs, PreviousMeta(last, RecentHighKey), k.high);
    var recentLow := RecentLow(lows, PreviousMeta(last, RecentLowKey), k.low);
    var fib := Fibonacci(recentHigh, recentLow);
    var macd := Calculate.MACD(closes);
    var a := adx(highs, lows, closes, 14);
    var meta := EmptyMeta.(recentHigh := Some(recentHigh), recentLow := Some(recentLow),
                           fibonacciLevels := Some(fib),
                           entryScore := Some(EntryScore(k.close, recentHigh, recentLow, fib)),
                           atr := Some(Calculate.AtrValue(highs, lows, closes, 14)),
                           macdLine := Some(macd.line), signalLine := Some(macd.signal),
                           histogram := Some(macd.histogram),
                           previousHistogram := Some(CarriedHistogram(last, HistogramKey)),
                           rsi := Some(Calculate.RsiValue(closes, 14)),
                           adx := Some(a.adx), plusDi := Some(a.plusDi), minusDi := Some(a.minusDi));
    Values(k.open, k.high, k.low, k.close, k.volume,
           Some(Round2(PriceChange(PreviousClose(last, k.close), k.close))),
           Calculate.MA(volumes, 15), Calculate.MA(volumes, 25), Calculate.MA(volumes, 50),
           Calculate.Last(Calculate.EmaSeries(closes, 15)), Calculate.Last(Calculate.EmaSeries(closes, 25)),
           Calculate.Last(Calculate.EmaSeries(closes, 50)), meta)
  }

  /** `processKlineData`' effect on the table: a dropped event changes
      nothing; otherwise the bar's row of the timeframe is written. */
  function Process(rows: seq<VolumeData>, cryptos: SymbolMap, tf: string, k: Kline, adx: AdxFn): seq<VolumeData> {
    match Resolve(cryptos, k)
    case None => rows
    case Some(id) =>
      var ts := BarTime(k.start);
      Store(rows, AtKey(id, ts, tf), id, Some(tf), ts, Indicators(RecentData(rows, id, tf, ts), k, adx))
  }

  /** A dropped event writes nothing. Otherwise a row with the event's key
      holds the computed values, rows with other keys are unchanged, and at
      most one row is added. */
  lemma ProcessWrites(rows: seq<VolumeData>, cryptos: SymbolMap, tf: string, k: Kline, adx: AdxFn)
    ensures Resolve(cryptos, k).None? ==> Process(rows, cryptos, tf, k, adx) == rows
    ensures Resolve(cryptos, k).Some? ==>
      var id := Resolve(cryptos, k).value;
      var ts := BarTime(k.start);
      var r := Process(rows, cryptos, tf, k, adx);
      |rows| <= |r| <= |rows| + 1 &&
      (exists i :: 0 <= i < |r| && AtKey(id, ts, tf)(r[i]) &&
                   Holds(r[i], Indicators(RecentData(rows, id, tf, ts), k, adx))) &&
      (forall i :: 0 <= i < |rows| && !AtKey(id, ts, tf)(rows[i]) ==> r[i] == rows[i])
  {
    if Resolve(cryptos, k).Some? {
      var id := Resolve(cryptos, k).value;
      var ts := BarTime(k.start);
      StoreWrites(rows, AtKey(id, ts, tf), id, Some(tf), ts, Indicators(RecentData(rows, id, tf, ts), k, adx));
    }
  }

  /** The table keeps one row per (crypto_id, timestamp, timeframe), and after
      an event that is not dropped exactly one row has its key. */
  lemma ProcessKeepsKeysUnique(rows: seq<VolumeData>, cryptos: SymbolMap, tf: string, k: Kline, adx: AdxFn)
    requires UniqueBy(rows, KeyOf)
    ensures UniqueBy(Process(rows, cryptos, tf, k, adx), KeyOf)
    ensures Resolve(cryptos, k).Some? ==>
      Count(Process(rows, cryptos, tf, k, adx), AtKey(Resolve(cryptos, k).value, BarTime(k.start), tf)) == 1
  {
    if Resolve(cryptos, k).Some? {
      var id := Resolve(cryptos, k).value;
      var ts := BarTime(k.start);
      StoreKeepsKeyUnique(rows, id, ts, tf, Indicators(RecentData(rows, id, tf, ts), k, adx));
    }
  }

  /** A bar that arrives twice (an unfinished kline is streamed repeatedly)
      leaves the table as the later event alone would: the window skips the
      bar's own timestamp, so the first write does not change what the second
      reads. */
  lemma RepeatedBarLaterWins(rows: seq<VolumeData>, cryptos: SymbolMap, tf: string, k1: Kline, k2: Kline, adx: AdxFn)
    requires Text.Upper(k1.symbol) == Text.Upper(k2.symbol) && BarTime(k1.start) == BarTime(k2.start)
    ensures Process(Process(rows, cryptos, tf, k1, adx), cryptos, tf, k2, adx) == Process(rows, cryptos, tf, k2, adx)
  {
    assert Resolve(cryptos, k1) == Resolve(cryptos, k2);
    if Resolve(cryptos, k1).Some? {
      var id := Resolve(cryptos, k1).value;
      var ts := BarTime(k1.start);
      var key := AtKey(id, ts, tf);
      var v1 := Indicators(RecentData(rows, id, tf, ts), k1, adx);
      var once := Store(rows, key, id, Some(tf), ts, v1);
      StoreOutsideWindow(rows, key, id, Some(tf), ts, v1, Scope(id, tf, ts));
      assert RecentData(once, id, tf, ts) == RecentData(rows, id, tf, ts);
      var v2 := Indicators(RecentData(rows, id, tf, ts), k2, adx);
      StoreLaterWins(rows, key, id, Some(tf), ts, v1, v2);
    }
  }

  // ---------------------------------------------------------------------------
  // As written: the previous candle's recent high and low are read without `??`

  /** `$last->meta['recent_high']` and `['recent_low']` can be read: a previous
      candle exists, it has a `meta`, and both keys are set. Otherwise PHP
      raises a warning, which the framework turns into an exception that ends
      the command. */
  predicate ReadsPrevious(w: seq<VolumeData>) {
    PreviousMeta(LastRow(w), RecentHighKey).Some? && PreviousMeta(LastRow(w), RecentLowKey).Some?
  }

  /** `processKlineData` as written: None when it stops at line 131 or 132. */
  function ProcessAsWritten(rows: seq<VolumeData>, cryptos: SymbolMap, tf: string, k: Kline, adx: AdxFn)
    : Option<seq<VolumeData>>
  {
    match Resolve(cryptos, k)
    case None => Some(rows)
    case Some(id) =>
      var ts := BarTime(k.start);
      var w := RecentData(rows, id, tf, ts);
      if !ReadsPrevious(w) then None
      else Some(Store(rows, AtKey(id, ts, tf), id, Some(tf), ts, Indicators(w, k, adx)))
  }

  /** The code as written agrees with the model exactly when the previous
      candle has a recent high and low, and stops otherwise. */
  lemma AsWrittenAgrees(rows: seq<VolumeData>, cryptos: SymbolMap, tf: string, k: Kline, adx: AdxFn)
    ensures ProcessAsWritten(rows, cryptos, tf, k, adx) ==
      if Resolve(cryptos, k).None? || ReadsPrevious(RecentData(rows, Resolve(cryptos, k).value, tf, BarTime(k.start)))
      then Some(Process(rows, cryptos, tf, k, adx))
      else None
  {
  }

  /** As written, the first bar of a crypto and timeframe can never be
      stored: with no stored row the window is empty and line 131 stops the
      command, while the model stores the bar. */
  lemma AsWrittenFirstBarStops(k: Kline, tf: string, adx: AdxFn)
    requires Text.Upper(k.symbol) == "BTCUSDT"
    ensures ProcessAsWritten([], [("BTCUSDT", 1)], tf, k, adx).None?
    ensures |Process([], [("BTCUSDT", 1)], tf, k, adx)| == 1
    ensures AtKey(1, BarTime(k.start), tf)(Process([], [("BTCUSDT", 1)], tf, k, adx)[0])
  {
    var cryptos: SymbolMap := [("BTCUSDT", 1)];
    assert Lookup(cryptos, "BTCUSDT") == Some(1) by {
      LookupEntry(cryptos, ("BTCUSDT", 1));
    }
    var ts := BarTime(k.start);
    assert Filter([], Scope(1, tf, ts)) == [];
    assert RecentData([], 1, tf, ts) == [];
    var v := Indicators([], k, adx);
    assert Process([], cryptos, tf, k, adx) == [Created(1, Some(tf), ts, v)];
  }

  // ---------------------------------------------------------------------------
  // The command

  /** The command object: the timeframe argument, the symbol map and the ids
      of the cryptos an event has been processed for. */
  class BinanceWebSocket {
    var timeframe: string
    var cryptos: SymbolMap
    var processedCryptos: seq<nat>

    /** The map has distinct keys of the stream shape and distinct ids, and
        every processed id is a positive id of the map, listed once. */
    predicate Valid()
      reads this
    {
      Consistent(cryptos, processedCryptos)
    }

    /** Lines 27-34 on a fresh command: the timeframe defaults to 15m and the
        symbol map is built from the cryptos table. */
    constructor (argument: Option<string>, table: seq<Crypto>)
      requires UniqueIds(table)
      ensures timeframe == argument.GetOr("15m")
      ensures cryptos == SymbolIds(table)
      ensures processedCryptos == []
      ensures Valid()
    {
      timeframe := argument.GetOr("15m");
      cryptos := SymbolIds(table);
      processedCryptos := [];
      new;
      SymbolIdsEntries(table);
      SymbolIdsDistinctValues(table);
      forall i | 0 <= i < |cryptos| ensures '/' !in cryptos[i].0 && Text.NoLowerAscii(cryptos[i].0) {
        assert cryptos[i] in cryptos;
      }
    }

    /** Lines 36-45: no subscription when the map is empty (the command exits),
        otherwise the stream names joined by `'/'`. */
    function Subscription(): (r: Option<string>)
      reads this
      ensures r.None? <==> cryptos == []
    {
      if cryptos == [] then None else Some(Streams(StreamNames(cryptos, timeframe)))
    }

    /** For a timeframe without `'/'` the subscription splits back into one
        stream per crypto, and the symbol of each stream, upper-cased as the
        events carry it, finds that crypto's id. */
    lemma SubscriptionSplits()
      requires Valid() && cryptos != [] && '/' !in timeframe
      ensures Text.Explode(Subscription().value, "/") == StreamNames(cryptos, timeframe)
      ensures forall i :: 0 <= i < |cryptos| ==>
        Lookup(cryptos, Text.Upper(Text.Lower(cryptos[i].0))) == Some(cryptos[i].1)
    {
      var names := StreamNames(cryptos, timeframe);
      forall i | 0 <= i < |names| ensures '/' !in names[i] {
        Text.CaseKeepsNonLetter(cryptos[i].0, '/');
        assert names[i] == Text.Lower(cryptos[i].0) + "@kline_" + timeframe;
      }
      StreamsSplit(names);
      forall i | 0 <= i < |cryptos|
        ensures Lookup(cryptos, Text.Upper(Text.Lower(cryptos[i].0))) == Some(cryptos[i].1)
      {
        Text.UpperLowerRoundTrip(cryptos[i].0);
        LookupEntry(cryptos, cryptos[i]);
      }
    }

    /** The `--once` stop condition of line 71. */
    predicate Finished()
      reads this
    {
      |processedCryptos| == |cryptos|
    }

    /** The stop condition holds exactly when every crypto of the map has been
        processed. */
    lemma FinishedIff()
      requires Valid()
      ensures Finished() <==> forall i :: 0 <= i < |cryptos| ==> cryptos[i].1 in processedCryptos
    {
      var cs := cryptos;
      var ids := seq(|cs|, i requires 0 <= i < |cs| => cs[i].1);
      var done: set<nat> := set x | x in processedCryptos;
      var all: set<nat> := set x | x in ids;
      assert Distinct(ids);
      DistinctCard<nat>(ids);
      DistinctCard<nat>(processedCryptos);
      assert done <= all by {
        forall x | x in done ensures x in all {
          var j :| 0 <= j < |processedCryptos| && processedCryptos[j] == x;
          var i :| 0 <= i < |cryptos| && cryptos[i].1 == x;
          assert ids[i] == x;
        }
      }
      SubsetCard<nat>(done, all);
      if forall i :: 0 <= i < |cryptos| ==> cryptos[i].1 in processedCryptos {
        assert all <= done;
        assert done == all;
      }
      if Finished() {
        assert |done| == |all|;
        forall i | 0 <= i < |cryptos| ensures cryptos[i].1 in processedCryptos {
          assert ids[i] == cryptos[i].1 && ids[i] in all;
          assert ids[i] in done;
        }
      }
    }

    /** `processKlineData`: a dropped event changes nothing; otherwise the id
        is marked processed before the row is computed and stored. */
    method ProcessKlineData(k: Kline, rows: seq<VolumeData>, adx: AdxFn) returns (after: seq<VolumeData>)
      requires Valid()
      modifies this`processedCryptos
      ensures Valid()
      ensures after == Process(rows, cryptos, timeframe, k, adx)
      ensures processedCryptos == Marked(old(processedCryptos), cryptos, k)
    {
      var found := Resolve(cryptos, k);
      if found.None? {
        return rows;
      }
      var cryptoId := found.value;
      Mark(k, cryptoId);
      var timestamp := BarTime(k.start);
      var recentData := RecentData(rows, cryptoId, timeframe, timestamp);
      var values := Compute(recentData, k, adx);
      after := Store(rows, AtKey(cryptoId, timestamp, timeframe), cryptoId, Some(timeframe), timestamp, values);
    }

    /** Lines 97-99: the event's id joins the processed list once. */
    method Mark(k: Kline, cryptoId: nat)
      requires Valid() && Resolve(cryptos, k) == Some(cryptoId)
      modifies this`processedCryptos
      ensures Valid()
      ensures processedCryptos == Marked(old(processedCryptos), cryptos, k)
    {
      MarkedKeepsConsistent(cryptos, processedCryptos, k);
      if cryptoId !in processedCryptos {
        processedCryptos := processedCryptos + [cryptoId];
      }
    }

    /** `processBufferedData`: the events in order. */
    method ProcessBufferedData(buffer: seq<Kline>, rows: seq<VolumeData>, adx: AdxFn) returns (after: seq<VolumeData>)
      requires Valid()
      modifies this`processedCryptos
      ensures Valid()
      ensures after == ProcessAll(rows, cryptos, timeframe, buffer, adx)
      ensures processedCryptos == MarkedAll(old(processedCryptos), cryptos, buffer)
    {
      after := rows;
      var i := 0;
      while i < |buffer|
        invariant 0 <= i <= |buffer| && Valid()
        invariant after == ProcessAll(rows, cryptos, timeframe, buffer[..i], adx)
        invariant processedCryptos == MarkedAll(old(processedCryptos), cryptos, buffer[..i])
      {
        assert buffer[..i + 1][..i] == buffer[..i];
        assert ProcessAll(rows, cryptos, timeframe, buffer[..i + 1], adx) == Process(after, cryptos, timeframe, buffer[i], adx);
        assert MarkedAll(old(processedCryptos), cryptos, buffer[..i + 1]) == Marked(processedCryptos, cryptos, buffer[i]);
        after := ProcessKlineData(buffer[i], after, adx);
        i := i + 1;
      }
      assert buffer[..i] == buffer;
    }
  }

  /** The map has distinct keys of the stream shape and distinct ids, and
      every processed id is a positive id of the map, listed once. */
  predicate Consistent(cryptos: SymbolMap, processed: seq<nat>) {
    DistinctKeys(cryptos) && DistinctValues(cryptos) &&
    (forall i :: 0 <= i < |cryptos| ==> '/' !in cryptos[i].0 && Text.NoLowerAscii(cryptos[i].0)) &&
    Distinct(processed) &&
    (forall j :: 0 <= j < |processed| ==>
      processed[j] > 0 && exists i :: 0 <= i < |cryptos| && cryptos[i].1 == processed[j])
  }

  /** Marking an event processed keeps the state consistent, and an event
      whose id is new adds it at the end. */
  lemma MarkedKeepsConsistent(cryptos: SymbolMap, processed: seq<nat>, k: Kline)
    requires Consistent(cryptos, processed)
    ensures Consistent(cryptos, Marked(processed, cryptos, k))
    ensures Resolve(cryptos, k).Some? && Resolve(cryptos, k).value !in processed ==>
      Marked(processed, cryptos, k) == processed + [Resolve(cryptos, k).value]
  {
    if Resolve(cryptos, k).Some? {
      var id := Resolve(cryptos, k).value;
      var e :| e in cryptos && e == (Text.Upper(k.symbol), id);
      var i :| 0 <= i < |cryptos| && cryptos[i] == e;
      assert cryptos[i].1 == id;
    }
  }

  /** The ids marked processed after an event. */
  function Marked(processed: seq<nat>, cryptos: SymbolMap, k: Kline): seq<nat> {
    match Resolve(cryptos, k)
    case None => processed
    case Some(id) => if id in processed then processed else processed + [id]
  }

  function MarkedAll(processed: seq<nat>, cryptos: SymbolMap, buffer: seq<Kline>): seq<nat>
    decreases |buffer|
  {
    if buffer == [] then processed
    else Marked(MarkedAll(processed, cryptos, buffer[..|buffer| - 1]), cryptos, buffer[|buffer| - 1])
  }

  function ProcessAll(rows: seq<VolumeData>, cryptos: SymbolMap, tf: string, buffer: seq<Kline>, adx: AdxFn)
    : seq<VolumeData>
    decreases |buffer|
  {
    if buffer == [] then rows
    else Process(ProcessAll(rows, cryptos, tf, buffer[..|buffer| - 1], adx), cryptos, tf, buffer[|buffer| - 1], adx)
  }

  /** Lines 121-145: the arrays, the carried values and the indicators, with
      the loops of Calculate. */
  method Compute(recentData: seq<VolumeData>, k: Kline, adx: AdxFn) returns (values: Values)
    ensures values == Indicators(recentData, k, adx)
  {
    var highs := Series(recentData, HighOf, k.high);
    var lows := Series(recentData, LowOf, k.low);
    var closePrices := Series(recentData, CloseOf, k.close);
    var volumes := Series(recentData, VolumeOf, k.volume);
    var last := LastRow(recentData);
    var recentHigh := RecentHigh(highs, PreviousMeta(last, RecentHighKey), k.high);
    var recentLow := RecentLow(lows, PreviousMeta(last, RecentLowKey), k.low);
    var fibonacciLevels := Fibonacci(recentHigh, recentLow);
    var entryScore := CalculateEntryScore(k.close, recentHigh, recentLow, fibonacciLevels);
    var macdData := Calculate.MACD(closePrices);
    var adxData := adx(highs, lows, closePrices, 14);
    var atr := Calculate.ATR(highs, lows, closePrices, 14);
    var rsi := Calculate.RSI(closePrices, 14);
    var previousClose := PreviousClose(last, k.close);
    var priceChange := PriceChange(previousClose, k.close);
    var previousHistogram := CarriedHistogram(last, HistogramKey);
    var ema15 := Calculate.EMA(closePrices, 15);
    var ema25 := Calculate.EMA(closePrices, 25);
    var ema50 := Calculate.EMA(closePrices, 50);
    var meta := EmptyMeta.(recentHigh := Some(recentHigh), recentLow := Some(recentLow),
                           fibonacciLevels := Some(fibonacciLevels), entryScore := Some(entryScore),
                           atr := Some(atr), macdLine := Some(macdData.line), signalLine := Some(macdData.signal),
                           histogram := Some(macdData.histogram), previousHistogram := Some(previousHistogram),
                           rsi := Some(rsi), adx := Some(adxData.adx), plusDi := Some(adxData.plusDi),
                           minusDi := Some(adxData.minusDi));
    values := Values(k.open, k.high, k.low, k.close, k.volume, Some(Round2(priceChange)),
                     Calculate.MA(volumes, 15), Calculate.MA(volumes, 25), Calculate.MA(volumes, 50),
                     ema15, ema25, ema50, meta);
  }

  /** Lines 234-243: one bar's length and a second for 1m, 15m and 1h; 60
      seconds for any other timeframe, 4h included. */
  function CacheTime(tf: string): (r: int)
    ensures tf == "1m" ==> r == 60 + 1
    ensures tf == "15m" ==> r == 15 * 60 + 1
    ensures tf == "1h" ==> r == 60 * 60 + 1
    ensures tf !in {"1m", "15m", "1h"} ==> r == 60
  {
    if tf == "1m" then 61 else if tf == "15m" then 901 else if tf == "1h" then 3601 else 60
  }
}
